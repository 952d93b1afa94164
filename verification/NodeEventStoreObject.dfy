/**
 `NodeEventStore::Store` as an object over dual-copy storage.  Each method is
 proved against the specification over atomic slot records.
 */
module NodeEventStoreObject {
  import opened Words
  import opened EventStorage
  import opened EventProtocol
  import opened EventRecords
  import opened EventFlash
  import opened EventIdentity
  import opened NodeEventStore

  lemma BlankIsAuthoritative(events: Copies<NodeRecord>)
    requires forall i :: 0 <= i < 8 ==> events[i] == CopyPair(Valid(1, Free), Missing)
    ensures AllAuthoritative(events) && !InCustody(DurableSlots(events))
  {
  }

  /** What is left when power is lost. */
  ghost function PoweredOff(events: Copies<NodeRecord>, metadata: CopyPair<NodeMetadata>, tick: nat): StoreState
    requires AllAuthoritative(events) && Authoritative(metadata)
  {
    StoreState(DurableSlots(events), AllocatorState(SelectCopies(metadata).record, 0, 0, IDENTITY_RECOVERY_REQUIRED),
               [], false, tick)
  }

  /** The store a completed first boot leaves. */
  function Initialized(source: u8, entropy: u32, tick: nat): StoreState {
    StoreState([Free, Free, Free, Free, Free, Free, Free, Free], BecomeReady(NodeMetadata(source, entropy, 1)), [], true, tick)
  }

  // ----- insertion sort, by its effect on the sorted prefix

  function InsertAll(slots: Slots, q: seq<SlotIndex>): seq<SlotIndex> {
    if q == [] then [] else InsertSlot(slots, InsertAll(slots, q[..|q| - 1]), q[|q| - 1])
  }

  function QueuedBelow(slots: Slots, n: nat): seq<SlotIndex>
    requires n <= 8
  {
    if n == 0 then []
    else QueuedBelow(slots, n - 1) + (if slots[n - 1].Queued() then [n - 1] else [])
  }

  lemma InsertAllOneMore(slots: Slots, q: seq<SlotIndex>, x: SlotIndex)
    ensures InsertAll(slots, q + [x]) == InsertSlot(slots, InsertAll(slots, q), x)
  {
    hide InsertSlot;
    assert (q + [x])[..|q|] == q;
  }

  lemma {:induction false} InsertAllIsQueue(slots: Slots, n: nat)
    requires n <= 8
    ensures InsertAll(slots, QueuedBelow(slots, n)) == QueueUpTo(slots, n)
    ensures |QueuedBelow(slots, n)| <= n
  {
    hide InsertSlot;
    if n != 0 {
      InsertAllIsQueue(slots, n - 1);
      var before := QueuedBelow(slots, n - 1);
      if slots[n - 1].Queued() {
        InsertAllOneMore(slots, before, n - 1);
      } else {
        assert before + [] == before;
      }
    }
  }

  lemma NothingQueuedBelow(slots: Slots, n: nat)
    requires n <= 8 && forall i :: 0 <= i < n ==> slots[i].Free?
    ensures QueueUpTo(slots, n) == []
  {
  }

  lemma NothingQueued(slots: Slots)
    requires !InCustody(slots)
    ensures slots == [Free, Free, Free, Free, Free, Free, Free, Free]
    ensures DistinctIdentities(slots) && QueueOf(slots) == []
  {
    forall i | 0 <= i < 8 ensures slots[i] == Free {
      assert !slots[i].Held?;
    }
    NothingQueuedBelow(slots, 8);
  }

  /** Moving one larger element out of the way does not change where the value ends up. */
  lemma ShiftStep(slots: Slots, p: seq<SlotIndex>, position: nat, value: SlotIndex)
    requires 0 < position <= |p| && Less(IdOf(slots[value]), IdOf(slots[p[position - 1]]))
    ensures InsertSlot(slots, p[..position], value) + p[position..]
         == InsertSlot(slots, p[..position - 1], value) + p[position - 1..]
  {
    assert p[..position][..position - 1] == p[..position - 1];
    assert [p[position - 1]] + p[position..] == p[position - 1..];
  }

  lemma ShiftDone(slots: Slots, p: seq<SlotIndex>, position: nat, value: SlotIndex)
    requires position <= |p| && (position == 0 || !Less(IdOf(slots[value]), IdOf(slots[p[position - 1]])))
    ensures InsertSlot(slots, p[..position], value) == p[..position] + [value]
  {
  }

  lemma Spliced(q: seq<SlotIndex>, p: seq<SlotIndex>, position: nat, value: SlotIndex)
    requires position <= |p| && |q| == |p| + 1 && q[position] == value
    requires forall j :: 0 <= j < position ==> q[j] == p[j]
    requires forall j :: position < j < |q| ==> q[j] == p[j - 1]
    ensures q == p[..position] + [value] + p[position..]
  {
  }

  const Absent: SlotState<NodeRecord> := SlotState(false, Free, 0, A)

  type SlotStates = s: seq<SlotState<NodeRecord>> | |s| == 8
    witness [Absent, Absent, Absent, Absent, Absent, Absent, Absent, Absent]

  class Store {
    const flash: Flash<NodeMetadata, NodeRecord>
    const allocator: Allocator
    const queue: array<SlotIndex>
    var slots: SlotStates
    var queueCount: nat
    var healthy: bool

    constructor (flash: Flash<NodeMetadata, NodeRecord>)
      ensures this.flash == flash && fresh(allocator) && fresh(queue) && allocator.flash == flash && !healthy
      ensures queue.Length == 8 && queueCount == 0
    {
      this.flash := flash;
      allocator := new Allocator(flash);
      queue := new SlotIndex[8](_ => 0);
      slots := seq(8, _ => Absent);
      queueCount := 0;
      healthy := false;
    }

    /** A healthy slot mirrors the authoritative copy of its pair. */
    ghost predicate Mirrored()
      reads this`slots, flash`events
    {
      forall i :: 0 <= i < 8 ==>
        slots[i].present && Committed(flash.events[i], slots[i].activeCopy, slots[i].generation, slots[i].record)
    }

    ghost predicate Valid()
      reads this, queue, flash, allocator
    {
      && allocator.flash == flash && queue.Length == 8 && queueCount <= 8
      && allocator.Valid()
      && AllAuthoritative(flash.events)
      && (healthy ==> Mirrored())
    }

    ghost function State(): StoreState
      requires Valid()
      reads this, queue, flash, allocator
    {
      StoreState(DurableSlots(flash.events), allocator.State(), if healthy then queue[..queueCount] else [],
                 healthy, flash.tick)
    }

    lemma MirrorsDurable()
      requires Valid() && healthy
      ensures Records(slots) == DurableSlots(flash.events)
    {
      forall i | 0 <= i < 8 ensures Records(slots)[i] == DurableSlots(flash.events)[i] {
        CommittedIsSelected(flash.events[i], slots[i].activeCopy, slots[i].generation, slots[i].record);
      }
    }

    /** Write the copy not in use, read it back, and re-select; any doubt stops the store. */
    method CommitMutation(index: SlotIndex, next: NodeRecord) returns (ok: bool)
      requires Valid() && healthy
      modifies this`slots, this`healthy, flash`tick, flash`events
      ensures Valid() && ok == healthy
      ensures State() == CommitSlot(flash.fates, old(State()), index, next)
    {
      if !ValidNodeRecord(next) {
        healthy := false;
        return false;
      }
      var current := slots[index];
      var target := current.activeCopy.Opposite();
      var generation := Wrap32(current.generation + 1);
      ghost var was, fate := flash.events, flash.fates(flash.tick);
      var matched := flash.WriteEvent(index, target, generation, next);
      CommitKeepsCommitted(was[index], current.activeCopy, current.generation, current.record, next, fate);
      if fate.Stored() {
        CommittedIsSelected(flash.events[index], target, generation, next);
      } else {
        CommittedIsSelected(flash.events[index], current.activeCopy, current.generation, current.record);
        CommittedIsSelected(was[index], current.activeCopy, current.generation, current.record);
      }
      DurableUpdate(was, index, flash.events[index]);
      if !matched {
        healthy := false;
        return false;
      }
      // Re-selection after a verified write can only pick the copy just written.
      match SelectCopies(flash.events[index]) {
        case Selected(_, slot, selectedGeneration, _) =>
          assert slot == target && selectedGeneration == generation;
        case _ =>
          assert false;
      }
      slots := slots[index := SlotState(true, next, generation, target)];
      return true;
    }

    /** Refuse duplicate identities, collect the queued slots, and sort them in place. */
    method RebuildIndex() returns (ok: bool)
      requires queue.Length == 8
      modifies this`queueCount, this`healthy, queue
      ensures queueCount <= 8
      ensures ok <==> DistinctIdentities(Records(slots))
      ensures healthy == (old(healthy) && ok)
      ensures ok ==> queue[..queueCount] == QueueOf(Records(slots))
      ensures old(Valid() && healthy) ==> Valid() && State() == Reindex(old(State()))
    {
      if Valid() && healthy {
        MirrorsDurable();
      }
      queueCount := 0;
      for slot := 0 to 8
        invariant queueCount <= slot && healthy == old(healthy)
        invariant queue[..queueCount] == QueuedBelow(Records(slots), slot)
        invariant forall i, j :: 0 <= i < j < slot && slots[i].record.Held? && slots[j].record.Held? ==>
          slots[i].record.identity != slots[j].record.identity
      {
        if slots[slot].record.Held? {
          for other := 0 to slot
            invariant forall i :: 0 <= i < other && slots[i].record.Held? ==>
              slots[i].record.identity != slots[slot].record.identity
          {
            if slots[other].record.Held? && slots[other].record.identity == slots[slot].record.identity {
              assert !DistinctIdentities(Records(slots)) by {
                assert Records(slots)[other].identity == Records(slots)[slot].identity;
              }
              healthy := false;
              return false;
            }
          }
          if slots[slot].record.Queued() {
            queue[queueCount] := slot;
            queueCount := queueCount + 1;
          }
        }
      }
      assert DistinctIdentities(Records(slots));
      SortQueue();
      InsertAllIsQueue(Records(slots), 8);
      return true;
    }

    /** In-place insertion sort by identity. */
    method SortQueue()
      requires queue.Length == 8 && queueCount <= 8
      modifies queue
      ensures queue[..queueCount] == InsertAll(Records(slots), old(queue[..queueCount]))
    {
      ghost var input := queue[..queueCount];
      var i := 0;
      while i < queueCount
        invariant i <= queueCount
        invariant queue[..i] == InsertAll(Records(slots), input[..i])
        invariant forall j :: i <= j < queueCount ==> queue[j] == input[j]
      {
        assert input[..i + 1][..i] == input[..i];
        InsertAt(i);
        i := i + 1;
      }
      assert input[..queueCount] == input;
    }

    /** Sink the i-th entry into the sorted prefix before it. */
    method InsertAt(i: nat)
      requires queue.Length == 8 && i < 8
      modifies queue
      ensures queue[..i + 1] == InsertSlot(Records(slots), old(queue[..i]), old(queue[i]))
      ensures forall j :: i < j < 8 ==> queue[j] == old(queue[j])
    {
      hide InsertSlot, Less, IdOf;
      var value := queue[i];
      var position := i;
      ghost var records := Records(slots);
      ghost var prefix := queue[..i];
      assert prefix[..i] == prefix && prefix[i..] == [];
      while position > 0 && Less(IdOf(slots[value].record), IdOf(slots[queue[position - 1]].record))
        invariant position <= i
        invariant forall j :: 0 <= j < position ==> queue[j] == prefix[j]
        invariant forall j :: position < j <= i ==> queue[j] == prefix[j - 1]
        invariant forall j :: i < j < 8 ==> queue[j] == old(queue[j])
        invariant InsertSlot(records, prefix, value) == InsertSlot(records, prefix[..position], value) + prefix[position..]
      {
        ShiftStep(records, prefix, position, value);
        queue[position] := queue[position - 1];
        position := position - 1;
      }
      ShiftDone(records, prefix, position, value);
      queue[position] := value;
      Spliced(queue[..i + 1], prefix, position, value);
    }

    /** Commit one slot and rebuild the index. */
    method CommitAndRebuild(index: SlotIndex, next: NodeRecord) returns (ok: bool)
      requires Valid() && healthy
      modifies this`slots, this`healthy, this`queueCount, queue, flash`tick, flash`events
      ensures Valid() && ok == healthy
      ensures State() == CommitAndReindex(flash.fates, old(State()), index, next)
    {
      ok := CommitMutation(index, next);
      if ok {
        ok := RebuildIndex();
      }
    }

    // ----- operations

    method FindFree() returns (found: Option<SlotIndex>)
      ensures found == FirstFree(Records(slots), 0)
    {
      var slot := 0;
      while slot < 8 && slots[slot].record.Held?
        invariant slot <= 8
        invariant FirstFree(Records(slots), 0) == FirstFree(Records(slots), slot)
      {
        slot := slot + 1;
      }
      return if slot == 8 then None else Some(slot);
    }

    method Enqueue(input: Content) returns (result: EnqueueResult)
      requires Valid()
      modifies this`slots, this`healthy, this`queueCount, queue, allocator, flash`tick, flash`events, flash`metadata
      ensures Valid()
      ensures (State(), result) == NodeEventStore.Enqueue(flash.fates, old(State()), input)
    {
      if !healthy {
        return STORE_DEGRADED;
      }
      if !ValidInput(input) {
        return INVALID_EVENT;
      }
      MirrorsDurable();
      var free := FindFree();
      if free.None? {
        return QUEUE_FULL;
      }
      hide FirstFree, EnqueueAt, ValidInput;
      result := EnqueueInto(free.value, input);
    }

    /** Issue an identity, then commit the record under it. */
    method EnqueueInto(slot: SlotIndex, input: Content) returns (result: EnqueueResult)
      requires Valid() && healthy
      modifies this`slots, this`healthy, this`queueCount, queue, allocator, flash`tick, flash`events, flash`metadata
      ensures Valid()
      ensures (State(), result) == EnqueueAt(flash.fates, old(State()), slot, input)
    {
      hide Allocate, CommitAndReindex, Mirrored;
      var identity := allocator.Issue();
      if identity.None? {
        healthy := false;
        return IDENTITY_FAILED;
      }
      var stored := CommitAndRebuild(slot, NewRecord(identity.value, input));
      return if stored then Enqueued(identity.value, slot) else STORAGE_FAILED;
    }

    method Transition(slot: nat, custody: Custody) returns (status: MutationStatus)
      requires Valid()
      modifies this`slots, this`healthy, this`queueCount, queue, flash`tick, flash`events
      ensures Valid()
      ensures status == OK ==> healthy
      ensures (State(), status) == Retire(flash.fates, old(State()), slot, custody)
    {
      if !healthy {
        return DEGRADED;
      }
      if slot >= 8 {
        return INVALID_SLOT;
      }
      MirrorsDurable();
      assert Records(slots)[slot] == slots[slot].record;
      if !slots[slot].record.Queued() {
        return INVALID_TRANSITION;
      }
      var ok := CommitAndRebuild(slot, slots[slot].record.(custody := custody));
      return if ok then OK else WRITE_FAILED;
    }

    method MarkFailed(slot: nat) returns (status: MutationStatus)
      requires Valid()
      modifies this`slots, this`healthy, this`queueCount, queue, flash`tick, flash`events
      ensures Valid()
      ensures status == OK ==> healthy
      ensures (State(), status) == NodeEventStore.MarkFailed(flash.fates, old(State()), slot)
    {
      status := Transition(slot, FAILED);
    }

    method MarkExpired(slot: nat) returns (status: MutationStatus)
      requires Valid()
      modifies this`slots, this`healthy, this`queueCount, queue, flash`tick, flash`events
      ensures Valid()
      ensures status == OK ==> healthy
      ensures (State(), status) == NodeEventStore.MarkExpired(flash.fates, old(State()), slot)
    {
      status := Transition(slot, EXPIRED);
    }

    method Reclaim(slot: nat) returns (status: MutationStatus)
      requires Valid()
      modifies this`slots, this`healthy, this`queueCount, queue, flash`tick, flash`events
      ensures Valid()
      ensures status == OK ==> healthy
      ensures (State(), status) == NodeEventStore.Reclaim(flash.fates, old(State()), slot)
    {
      if !healthy {
        return DEGRADED;
      }
      if slot >= 8 {
        return INVALID_SLOT;
      }
      MirrorsDurable();
      assert Records(slots)[slot] == slots[slot].record;
      if !slots[slot].record.Terminal() {
        return INVALID_TRANSITION;
      }
      var ok := CommitAndRebuild(slot, Free);
      return if ok then OK else WRITE_FAILED;
    }

    method ReleaseQueued(slot: nat) returns (status: MutationStatus)
      requires Valid()
      modifies this`slots, this`healthy, this`queueCount, queue, flash`tick, flash`events
      ensures Valid()
      ensures status == OK ==> healthy
      ensures (State(), status) == NodeEventStore.ReleaseQueued(flash.fates, old(State()), slot)
    {
      if !healthy {
        return DEGRADED;
      }
      if slot >= 8 {
        return INVALID_SLOT;
      }
      MirrorsDurable();
      assert Records(slots)[slot] == slots[slot].record;
      if !slots[slot].record.Queued() {
        return INVALID_TRANSITION;
      }
      var ok := CommitAndRebuild(slot, Free);
      return if ok then OK else WRITE_FAILED;
    }

    method CheckpointRemaining(slot: nat, remaining: u32) returns (status: MutationStatus)
      requires Valid()
      modifies this`slots, this`healthy, flash`tick, flash`events
      ensures Valid()
      ensures status == OK ==> healthy
      ensures (State(), status) == NodeEventStore.CheckpointRemaining(flash.fates, old(State()), slot, remaining)
    {
      if !healthy {
        return DEGRADED;
      }
      if slot >= 8 {
        return INVALID_SLOT;
      }
      MirrorsDurable();
      assert Records(slots)[slot] == slots[slot].record;
      var current := slots[slot].record;
      if !current.Queued() || remaining == 0 || remaining >= current.remaining {
        return INVALID_TRANSITION;
      }
      var ok := CommitMutation(slot, current.(remaining := remaining));
      return if ok then OK else WRITE_FAILED;
    }

    method ArmAttempt(slot: nat) returns (status: AttemptStatus)
      requires Valid()
      modifies this`slots, this`healthy, flash`tick, flash`events
      ensures Valid()
      ensures status == ARMED ==> healthy
      ensures (State(), status) == NodeEventStore.ArmAttempt(flash.fates, old(State()), slot)
    {
      if !healthy {
        return ATTEMPT_DEGRADED;
      }
      if slot >= 8 {
        return ATTEMPT_INVALID_SLOT;
      }
      MirrorsDurable();
      assert Records(slots)[slot] == slots[slot].record;
      var current := slots[slot].record;
      if !current.Queued() {
        return NOT_QUEUED;
      }
      if current.attempts >= MAX_ATTEMPTS {
        return EXHAUSTED;
      }
      var ok := CommitMutation(slot, current.(attempts := current.attempts + 1));
      return if ok then ARMED else ATTEMPT_WRITE_FAILED;
    }

    // ----- recovery

    /** Select the authoritative copy of every slot; stop at a conflict or an ambiguity. */
    method SelectSlots() returns (accepted: bool, allMissing: bool, anyNonempty: bool)
      modifies this`slots
      ensures accepted <==> forall i :: 0 <= i < 8 ==>
        SelectCopies(flash.events[i]).Selected? || SelectCopies(flash.events[i]).BothInvalid?
      ensures accepted ==> (allMissing <==> AllMissing(flash.events))
      ensures accepted ==> forall i :: 0 <= i < 8 ==> slots[i] == SlotOf(SelectCopies(flash.events[i]), Absent)
      ensures accepted ==> (anyNonempty <==> InCustody(Records(slots)))
    {
      slots := seq(8, _ => Absent);
      allMissing, anyNonempty := true, false;
      for slot := 0 to 8
        invariant forall i :: 0 <= i < slot ==>
          SelectCopies(flash.events[i]).Selected? || SelectCopies(flash.events[i]).BothInvalid?
        invariant allMissing <==> forall i :: 0 <= i < slot ==> flash.events[i] == CopyPair(Missing, Missing)
        invariant forall i :: 0 <= i < slot ==> slots[i] == SlotOf(SelectCopies(flash.events[i]), Absent)
        invariant anyNonempty <==> exists i :: 0 <= i < slot && slots[i].record.Held?
      {
        var copies := flash.events[slot];
        if copies != CopyPair(Missing, Missing) {
          allMissing := false;
        }
        match SelectCopies(copies) {
          case BothInvalid =>
            slots := slots[slot := Absent];
          case Selected(_, copy, generation, record) =>
            slots := slots[slot := SlotState(true, record, generation, copy)];
            if record.Held? {
              anyNonempty := true;
            }
          case _ =>
            return false, allMissing, anyNonempty;
        }
      }
      assert anyNonempty ==> exists i :: 0 <= i < 8 && Records(slots)[i].Held? by {
        if anyNonempty {
          var i :| 0 <= i < 8 && slots[i].record.Held?;
          assert Records(slots)[i].Held?;
        }
      }
      return true, allMissing, anyNonempty;
    }

    /** First boot: commit a free record to copy A of every slot. */
    method InitializeSlots() returns (ok: bool)
      requires AllMissing(flash.events)
      modifies this`slots, flash`tick, flash`events
      ensures ok <==> DurableRun(flash.fates, old(flash.tick), 8)
      ensures ok ==> flash.tick == old(flash.tick) + 8
      ensures ok ==> forall i :: 0 <= i < 8 ==>
        slots[i] == SlotState(true, Free, 1, A) && flash.events[i] == CopyPair(EventStorage.Valid(1, Free), Missing)
    {
      for slot := 0 to 8
        invariant flash.tick == old(flash.tick) + slot
        invariant DurableRun(flash.fates, old(flash.tick), slot)
        invariant forall i :: 0 <= i < slot ==>
          slots[i] == SlotState(true, Free, 1, A) && flash.events[i] == CopyPair(EventStorage.Valid(1, Free), Missing)
        invariant forall i :: slot <= i < 8 ==> flash.events[i] == CopyPair(Missing, Missing)
      {
        var matched := flash.WriteEvent(slot, A, 1, Free);
        if !matched {
          return false;
        }
        slots := slots[slot := SlotState(true, Free, 1, A)];
      }
      return true;
    }

    /** Restore the identities and index what was selected. */
    method Resume(source: u8, nonempty: bool, entropy: u32)
      requires queue.Length == 8 && allocator.flash == flash && !healthy && source != 0
      modifies this`queueCount, this`healthy, queue, allocator, flash`tick, flash`metadata
      ensures queueCount <= 8
      ensures SelectedExactly(nonempty) && Authoritative(old(flash.metadata)) ==>
        && Valid()
        && State() == RecoverStore(flash.fates, PoweredOff(flash.events, old(flash.metadata), old(flash.tick)), source, entropy)
      ensures SelectedExactly(nonempty) && SelectCopies(old(flash.metadata)).BothInvalid? && !nonempty ==>
        && (healthy <==> entropy != 0 && flash.fates(old(flash.tick)) == Durable)
        && (healthy ==> Valid() && State() == Initialized(source, entropy, flash.tick))
    {
      queueCount := 0;
      allocator.Restore(source, nonempty, entropy);
      if allocator.status != READY {
        return;
      }
      healthy := true;
      if Valid() {
        MirrorsDurable();
        if !InCustody(DurableSlots(flash.events)) {
          NothingQueued(DurableSlots(flash.events));
        }
      }
      var _ := RebuildIndex();
    }

    /** Every slot was selected, and `nonempty` says whether any Event is in custody. */
    ghost predicate SelectedExactly(nonempty: bool)
      reads this`slots, flash`events
    {
      && AllAuthoritative(flash.events) && Mirrored()
      && nonempty == InCustody(DurableSlots(flash.events))
    }

    /**
     Power-up.  Over authoritative copies this is the specified recovery; blank
     storage is initialised once; anything else fails closed and writes nothing.
     */
    method Recover(source: u8, entropy: u32)
      requires queue.Length == 8 && allocator.flash == flash
      modifies this, queue, allocator, flash`tick, flash`events, flash`metadata
      ensures AllAuthoritative(old(flash.events)) && Authoritative(old(flash.metadata)) ==>
        && Valid()
        && State() == RecoverStore(flash.fates, PoweredOff(old(flash.events), old(flash.metadata), old(flash.tick)), source, entropy)
      ensures AllMissing(old(flash.events)) && SelectCopies(old(flash.metadata)).BothInvalid? ==>
        && (healthy <==> source != 0 && entropy != 0 && DurableRun(flash.fates, old(flash.tick), 9))
        && (healthy ==> Valid() && State() == Initialized(source, entropy, flash.tick))
      ensures !AllMissing(old(flash.events)) && !AllSelected(old(flash.events)) ==>
        !healthy && flash.events == old(flash.events) && flash.metadata == old(flash.metadata)
    {
      healthy, queueCount := false, 0;
      allocator.Forget();
      if source == 0 {
        return;
      }
      var accepted, allMissing, anyNonempty := SelectSlots();
      if AllAuthoritative(flash.events) {
        assert flash.events[0] != CopyPair(Missing, Missing);
        assert Records(slots) == DurableSlots(flash.events);
      }
      if !accepted {
        return;
      }
      if allMissing {
        var initialized := InitializeSlots();
        if !initialized {
          return;
        }
        assert Mirrored() && !anyNonempty;
        BlankIsAuthoritative(flash.events);
      } else if !AllPresent() {
        return;
      }
      Resume(source, anyNonempty, entropy);
    }

    function AllPresent(): bool
      reads this`slots
    {
      forall i :: 0 <= i < 8 ==> slots[i].present
    }
  }
}
