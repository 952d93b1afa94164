/**
 Durable Event custody on the Node (lib/node_event_store/src/node_event_store.h),
 specified over atomic slot records.  The object that implements it with two
 copies per slot is in NodeEventStoreObject.dfy.
 */
module NodeEventStore {
  import opened Words
  import opened EventStorage
  import opened EventProtocol
  import opened EventRecords
  import opened EventIdentity

  type Slots = s: seq<NodeRecord> | |s| == 8 witness [Free, Free, Free, Free, Free, Free, Free, Free]

  /**
   `slots` and `alloc.stored` are durable.  `queue` lists the queued slots while
   the store is healthy; after any failure the store refuses all work until it
   is recovered, and the list is normalised to empty.
   */
  datatype StoreState = StoreState(
    slots: Slots, alloc: AllocatorState, queue: seq<SlotIndex>, healthy: bool, tick: nat)

  datatype EnqueueResult =
    | Enqueued(identity: Identity, slot: SlotIndex)
    | QUEUE_FULL | INVALID_EVENT | STORAGE_FAILED | IDENTITY_FAILED | STORE_DEGRADED

  datatype MutationStatus = OK | INVALID_SLOT | INVALID_TRANSITION | WRITE_FAILED | DEGRADED

  datatype AttemptStatus = ARMED | EXHAUSTED | ATTEMPT_INVALID_SLOT | NOT_QUEUED | ATTEMPT_WRITE_FAILED | ATTEMPT_DEGRADED

  // ----- the queue index

  function IdOf(r: NodeRecord): Identity {
    if r.Held? then r.identity else Identity(0, 0)
  }

  /** `q` lists exactly the queued slots in strictly ascending identity. */
  ghost predicate IsQueueOf(slots: Slots, q: seq<SlotIndex>) {
    && (forall i: SlotIndex :: i in q <==> slots[i].Queued())
    && Ascending(slots, q)
  }

  predicate DistinctIdentities(slots: Slots) {
    forall i, j :: 0 <= i < j < 8 && slots[i].Held? && slots[j].Held? ==> slots[i].identity != slots[j].identity
  }

  /** Insert a queued slot into an ascending list, shifting larger identities up. */
  function InsertSlot(slots: Slots, q: seq<SlotIndex>, x: SlotIndex): seq<SlotIndex>
  {
    if q == [] then [x]
    else
      var last := q[|q| - 1];
      if Less(IdOf(slots[x]), IdOf(slots[last])) then InsertSlot(slots, q[..|q| - 1], x) + [last]
      else q + [x]
  }

  function QueueUpTo(slots: Slots, n: nat): seq<SlotIndex>
    requires n <= 8
  {
    if n == 0 then []
    else if slots[n - 1].Queued() then
      InsertSlot(slots, QueueUpTo(slots, n - 1), n - 1)
    else QueueUpTo(slots, n - 1)
  }

  function QueueOf(slots: Slots): seq<SlotIndex> {
    QueueUpTo(slots, 8)
  }

  lemma InsertSlotContents(slots: Slots, q: seq<SlotIndex>, x: SlotIndex)
    ensures forall i: SlotIndex :: i in InsertSlot(slots, q, x) <==> i in q || i == x
  {
    if q != [] && Less(IdOf(slots[x]), IdOf(slots[q[|q| - 1]])) {
      InsertSlotContents(slots, q[..|q| - 1], x);
      assert q == q[..|q| - 1] + [q[|q| - 1]];
    }
  }

  ghost predicate Ascending(slots: Slots, q: seq<SlotIndex>)
  {
    forall j, k :: 0 <= j < k < |q| ==> Less(IdOf(slots[q[j]]), IdOf(slots[q[k]]))
  }

  lemma InsertSlotAscending(slots: Slots, q: seq<SlotIndex>, x: SlotIndex)
    requires DistinctIdentities(slots) && x !in q
    requires slots[x].Held? && forall i: SlotIndex :: i in q ==> slots[i].Held?
    requires Ascending(slots, q)
    ensures Ascending(slots, InsertSlot(slots, q, x))
  {
    InsertSlotContents(slots, q, x);
    if q != [] {
      var front, last := q[..|q| - 1], q[|q| - 1];
      if Less(IdOf(slots[x]), IdOf(slots[last])) {
        InsertSlotAscending(slots, front, x);
        InsertSlotContents(slots, front, x);
        var inner := InsertSlot(slots, front, x);
        forall k | 0 <= k < |inner| ensures Less(IdOf(slots[inner[k]]), IdOf(slots[last])) {
          assert inner[k] in inner;
        }
      } else {
        forall k | 0 <= k < |q| ensures Less(IdOf(slots[q[k]]), IdOf(slots[x])) {
          assert q[k] in q;
        }
      }
    }
  }

  lemma {:induction false} QueueUpToIsQueue(slots: Slots, n: nat)
    requires n <= 8 && DistinctIdentities(slots)
    ensures Ascending(slots, QueueUpTo(slots, n))
    ensures forall i: SlotIndex :: i in QueueUpTo(slots, n) <==> i < n && slots[i].Queued()
  {
    if n != 0 {
      QueueUpToIsQueue(slots, n - 1);
      if slots[n - 1].Queued() {
        InsertSlotContents(slots, QueueUpTo(slots, n - 1), n - 1);
        InsertSlotAscending(slots, QueueUpTo(slots, n - 1), n - 1);
      }
    }
  }

  lemma QueueOfIsQueue(slots: Slots)
    requires DistinctIdentities(slots)
    ensures IsQueueOf(slots, QueueOf(slots))
  {
    QueueUpToIsQueue(slots, 8);
  }

  /** There is only one queue index for given slots. */
  lemma {:induction false} QueueUnique(slots: Slots, p: seq<SlotIndex>, q: seq<SlotIndex>)
    requires IsQueueOf(slots, p) && IsQueueOf(slots, q)
    ensures p == q
  {
    AscendingUnique(slots, p, q);
  }

  lemma {:induction false} AscendingUnique(slots: Slots, p: seq<SlotIndex>, q: seq<SlotIndex>)
    requires Ascending(slots, p) && Ascending(slots, q)
    requires forall i: SlotIndex :: i in p <==> i in q
    ensures p == q
    decreases |p|
  {
    assert p != [] ==> p[0] in p;
    assert q != [] ==> q[0] in q;
    if p != [] {
      assert p[0] == q[0];
      var p', q' := p[1..], q[1..];
      forall i: SlotIndex ensures i in p' <==> i in q' {
        assert forall k :: 0 < k < |p| ==> p[k] != p[0];
        assert forall k :: 0 < k < |q| ==> q[k] != q[0];
        assert i in p' <==> i in p && i != p[0];
        assert i in q' <==> i in q && i != q[0];
      }
      AscendingUnique(slots, p', q');
      assert p == [p[0]] + p' && q == [q[0]] + q';
    }
  }

  // ----- operations

  function Broken(s: StoreState): StoreState {
    s.(healthy := false, queue := [])
  }

  /** Commit one slot record; a failed write stops the store, whatever it left behind. */
  function CommitSlot(f: Fates, s: StoreState, i: SlotIndex, r: NodeRecord): StoreState {
    if !ValidNodeRecord(r) then Broken(s)
    else
      var fate := f(s.tick);
      var t := s.(slots := if fate.Stored() then s.slots[i := r] else s.slots, tick := s.tick + 1);
      if fate == Durable then t else Broken(t)
  }

  function Reindex(s: StoreState): StoreState {
    if DistinctIdentities(s.slots) then s.(queue := QueueOf(s.slots)) else Broken(s)
  }

  function CommitAndReindex(f: Fates, s: StoreState, i: SlotIndex, r: NodeRecord): StoreState {
    var t := CommitSlot(f, s, i, r);
    if t.healthy then Reindex(t) else t
  }

  function FirstFree(slots: Slots, from: nat): Option<SlotIndex>
    requires from <= 8
    decreases 8 - from
  {
    if from == 8 then None else if slots[from].Free? then Some(from) else FirstFree(slots, from + 1)
  }

  lemma {:induction false} FirstFreeIsFirst(slots: Slots, from: nat)
    requires from <= 8
    ensures match FirstFree(slots, from)
      case Some(i) => from <= i && slots[i].Free? && forall j :: from <= j < i ==> slots[j].Held?
      case None => forall j :: from <= j < 8 ==> slots[j].Held?
    decreases 8 - from
  {
    if from < 8 && slots[from].Held? {
      FirstFreeIsFirst(slots, from + 1);
    }
  }

  function NewRecord(identity: Identity, input: Content): NodeRecord {
    Held(QUEUED, identity, input, input.lifetime, 0)
  }

  predicate ValidInput(input: Content) {
    ValidContent(input) && ZeroTail(input)
  }

  function Enqueue(f: Fates, s: StoreState, input: Content): (StoreState, EnqueueResult) {
    if !s.healthy then (s, STORE_DEGRADED)
    else if !ValidInput(input) then (s, INVALID_EVENT)
    else if FirstFree(s.slots, 0).None? then (s, QUEUE_FULL)
    else EnqueueAt(f, s, FirstFree(s.slots, 0).value, input)
  }

  /** Issue an identity, then commit the record under it. */
  function EnqueueAt(f: Fates, s: StoreState, slot: SlotIndex, input: Content): (StoreState, EnqueueResult) {
    var (alloc, identity) := Allocate(s.alloc, f(s.tick));
    var t := s.(alloc := alloc, tick := s.tick + (if AllocateWrites(s.alloc) then 1 else 0));
    if identity.None? then (Broken(t), IDENTITY_FAILED)
    else
      var u := CommitAndReindex(f, t, slot, NewRecord(identity.value, input));
      (u, if u.healthy then Enqueued(identity.value, slot) else STORAGE_FAILED)
  }

  function Outcome(s: StoreState): MutationStatus {
    if s.healthy then OK else WRITE_FAILED
  }

  function Retire(f: Fates, s: StoreState, i: nat, custody: Custody): (StoreState, MutationStatus) {
    if !s.healthy then (s, DEGRADED)
    else if i >= 8 then (s, INVALID_SLOT)
    else if !s.slots[i].Queued() then (s, INVALID_TRANSITION)
    else
      var t := CommitAndReindex(f, s, i, s.slots[i].(custody := custody));
      (t, Outcome(t))
  }

  function MarkFailed(f: Fates, s: StoreState, i: nat): (StoreState, MutationStatus) {
    Retire(f, s, i, FAILED)
  }

  function MarkExpired(f: Fates, s: StoreState, i: nat): (StoreState, MutationStatus) {
    Retire(f, s, i, EXPIRED)
  }

  function Reclaim(f: Fates, s: StoreState, i: nat): (StoreState, MutationStatus) {
    if !s.healthy then (s, DEGRADED)
    else if i >= 8 then (s, INVALID_SLOT)
    else if !s.slots[i].Terminal() then (s, INVALID_TRANSITION)
    else
      var t := CommitAndReindex(f, s, i, Free);
      (t, Outcome(t))
  }

  function ReleaseQueued(f: Fates, s: StoreState, i: nat): (StoreState, MutationStatus) {
    if !s.healthy then (s, DEGRADED)
    else if i >= 8 then (s, INVALID_SLOT)
    else if !s.slots[i].Queued() then (s, INVALID_TRANSITION)
    else
      var t := CommitAndReindex(f, s, i, Free);
      (t, Outcome(t))
  }

  /** Lower the durable remaining lifetime; the index is not rebuilt. */
  function CheckpointRemaining(f: Fates, s: StoreState, i: nat, remaining: u32): (StoreState, MutationStatus) {
    if !s.healthy then (s, DEGRADED)
    else if i >= 8 then (s, INVALID_SLOT)
    else if !s.slots[i].Queued() || remaining == 0 || remaining >= s.slots[i].remaining then (s, INVALID_TRANSITION)
    else
      var t := CommitSlot(f, s, i, s.slots[i].(remaining := remaining));
      (t, Outcome(t))
  }

  /** Count one delivery attempt durably; the index is not rebuilt. */
  function ArmAttempt(f: Fates, s: StoreState, i: nat): (StoreState, AttemptStatus) {
    if !s.healthy then (s, ATTEMPT_DEGRADED)
    else if i >= 8 then (s, ATTEMPT_INVALID_SLOT)
    else if !s.slots[i].Queued() then (s, NOT_QUEUED)
    else if s.slots[i].attempts >= MAX_ATTEMPTS then (s, EXHAUSTED)
    else
      var t := CommitSlot(f, s, i, s.slots[i].(attempts := s.slots[i].attempts + 1));
      (t, if t.healthy then ARMED else ATTEMPT_WRITE_FAILED)
  }

  predicate InCustody(slots: Slots) {
    exists i :: 0 <= i < 8 && slots[i].Held?
  }

  /** Recovery of a store whose slots and metadata each have one authoritative copy. */
  function RecoverStore(f: Fates, s: StoreState, source: u8, entropy: u32): StoreState {
    if source == 0 then Broken(s)
    else
      var alloc := Recover(s.alloc.stored, source, InCustody(s.slots), entropy, f(s.tick));
      var wrote := RecoverWrites(s.alloc.stored, source, InCustody(s.slots), entropy);
      var t := s.(alloc := alloc, tick := s.tick + (if wrote then 1 else 0));
      if alloc.status != READY then Broken(t) else Reindex(t.(healthy := true))
  }

  // ----- what every operation keeps

  ghost predicate SlotsInv(slots: Slots) {
    && DistinctIdentities(slots)
    && forall i :: 0 <= i < 8 ==> ValidNodeRecord(slots[i]) && (slots[i].Queued() ==> slots[i].remaining > 0)
  }

  /**
   Every record is valid, no two share an identity, every identity is below the
   allocator's frontier, and a healthy store has a ready allocator and an exact
   index.
   */
  ghost predicate StoreInv(s: StoreState, source: u8) {
    match s
    case StoreState(slots, alloc, queue, healthy, _) =>
      && AllocatorInv(alloc, source)
      && SlotsInv(slots)
      && (forall i :: 0 <= i < 8 && slots[i].Held? ==> Less(slots[i].identity, Frontier(alloc)))
      && (healthy ==> alloc.status == READY && IsQueueOf(slots, queue))
  }

  /** Replacing one record by one that keeps the invariant keeps the invariant and gives an exact index. */
  lemma CommitAndReindexStep(f: Fates, s: StoreState, i: SlotIndex, r: NodeRecord, source: u8)
    requires AllocatorInv(s.alloc, source) && SlotsInv(s.slots) && s.healthy && s.alloc.status == READY
    requires forall j :: 0 <= j < 8 && s.slots[j].Held? ==> Less(s.slots[j].identity, Frontier(s.alloc))
    requires ValidNodeRecord(r) && (r.Queued() ==> r.remaining > 0)
    requires r.Held? ==> Less(r.identity, Frontier(s.alloc))
    requires r.Held? ==> forall j :: 0 <= j < 8 && j != i && s.slots[j].Held? ==> s.slots[j].identity != r.identity
    ensures StoreInv(CommitAndReindex(f, s, i, r), source)
    ensures var t := CommitAndReindex(f, s, i, r);
      && t.healthy == (f(s.tick) == Durable)
      && t.slots == (if f(s.tick).Stored() then s.slots[i := r] else s.slots)
      && t.tick == s.tick + 1 && t.alloc == s.alloc
  {
    assert DistinctIdentities(s.slots[i := r]);
    QueueOfIsQueue(s.slots[i := r]);
  }

  /** An update that keeps identity and custody keeps the old index exact, so none is rebuilt. */
  lemma CommitInPlaceStep(f: Fates, s: StoreState, i: SlotIndex, r: NodeRecord, source: u8)
    requires StoreInv(s, source) && s.healthy && s.slots[i].Queued()
    requires r.Queued() && r.identity == s.slots[i].identity && ValidNodeRecord(r) && r.remaining > 0
    ensures StoreInv(CommitSlot(f, s, i, r), source)
    ensures var t := CommitSlot(f, s, i, r);
      && t.healthy == (f(s.tick) == Durable)
      && t.slots == (if f(s.tick).Stored() then s.slots[i := r] else s.slots)
      && t.tick == s.tick + 1 && t.alloc == s.alloc
      && (t.healthy ==> t.queue == s.queue)
  {
  }

  /**
   What a durable enqueue stores: the input in a free slot, queued, under the
   given identity, with its whole lifetime left and no attempt used.
   */
  predicate Stored(s: StoreState, t: StoreState, slot: SlotIndex, identity: Identity, input: Content) {
    && s.slots[slot].Free?
    && t.slots == s.slots[slot := Held(QUEUED, identity, input, input.lifetime, 0)]
    && ValidInput(input)
    && !Less(identity, Frontier(s.alloc))
    && Less(identity, Frontier(t.alloc))
  }

  /**
   Enqueueing keeps the invariant; a new record's identity is above every
   identity in custody, so it joins the tail and no duplicate can arise.
   */
  lemma EnqueueStep(f: Fates, s: StoreState, input: Content, source: u8)
    requires StoreInv(s, source)
    ensures var (t, result) := Enqueue(f, s, input);
      && StoreInv(t, source)
      && !Less(Frontier(t.alloc), Frontier(s.alloc))
      && (t.slots != s.slots ==>
            && FirstFree(s.slots, 0).Some? && Allocate(s.alloc, f(s.tick)).1.Some?
            && Stored(s, t, FirstFree(s.slots, 0).value, Allocate(s.alloc, f(s.tick)).1.value, input))
      && (result.Enqueued? ==>
            && s.healthy && t.healthy && t.slots != s.slots
            && Stored(s, t, result.slot, result.identity, input)
            && t.queue == s.queue + [result.slot])
      && (!result.Enqueued? && t.healthy ==> t == s)
  {
    if s.healthy && ValidInput(input) && FirstFree(s.slots, 0).Some? {
      FirstFreeIsFirst(s.slots, 0);
      var slot := FirstFree(s.slots, 0).value;
      AllocateStep(s.alloc, f(s.tick), source);
      hide Allocate, FirstFree, Less, CommitAndReindex, AllocatorInv;
      var (alloc, identity) := Allocate(s.alloc, f(s.tick));
      var t := s.(alloc := alloc, tick := s.tick + (if AllocateWrites(s.alloc) then 1 else 0));
      BelowNewFrontier(s.slots, Frontier(s.alloc), Frontier(alloc));
      if identity.Some? {
        StoreNewStep(f, s, t, slot, identity.value, input, source);
      }
    }
  }

  /** The identities of the last epoch have all been issued or skipped. */
  predicate IdentitiesSpent(a: AllocatorState) {
    NeedsBlock(a) && a.stored.epoch == U32_MAX && a.stored.next > U32_MAX as int - RESERVATION_BLOCK_SIZE
  }

  /**
   When an enqueue succeeds: on a healthy store with working writes and
   identities left, exactly when the input is valid and some slot is free; and
   which refusal is given otherwise.
   */
  lemma EnqueueAccepts(f: Fates, s: StoreState, input: Content, source: u8)
    requires StoreInv(s, source)
    ensures var (t, result) := Enqueue(f, s, input);
      var room := exists i :: 0 <= i < 8 && s.slots[i].Free?;
      && (result == STORE_DEGRADED <==> !s.healthy)
      && (result == INVALID_EVENT <==> s.healthy && !ValidInput(input))
      && (result == QUEUE_FULL <==> s.healthy && ValidInput(input) && !room)
      && (DurableRun(f, s.tick, 2) ==>
            && (result.Enqueued? <==> s.healthy && ValidInput(input) && room && !IdentitiesSpent(s.alloc))
            && (result == IDENTITY_FAILED <==> s.healthy && ValidInput(input) && room && IdentitiesSpent(s.alloc))
            && (result.Enqueued? ==> t.tick == s.tick + (if NeedsBlock(s.alloc) then 2 else 1)))
  {
    FirstFreeIsFirst(s.slots, 0);
    if s.healthy && ValidInput(input) && FirstFree(s.slots, 0).Some? {
      AllocateStep(s.alloc, f(s.tick), source);
      AllocateWritesIff(s.alloc, source);
      var (alloc, identity) := Allocate(s.alloc, f(s.tick));
      var t := s.(alloc := alloc, tick := s.tick + (if AllocateWrites(s.alloc) then 1 else 0));
      hide Allocate, Less, CommitAndReindex, AllocatorInv, FirstFree;
      BelowNewFrontier(s.slots, Frontier(s.alloc), Frontier(alloc));
      if identity.Some? {
        StoreNewStep(f, s, t, FirstFree(s.slots, 0).value, identity.value, input, source);
      }
    }
  }

  lemma BelowNewFrontier(slots: Slots, old_: Identity, new_: Identity)
    requires !Less(new_, old_)
    requires forall i :: 0 <= i < 8 && slots[i].Held? ==> Less(slots[i].identity, old_)
    ensures forall i :: 0 <= i < 8 && slots[i].Held? ==> Less(slots[i].identity, new_)
  {
  }

  /** Storing a freshly issued identity in a free slot. */
  lemma StoreNewStep(f: Fates, s: StoreState, t: StoreState, slot: SlotIndex, identity: Identity, input: Content, source: u8)
    requires StoreInv(s, source) && s.healthy && s.slots[slot].Free? && ValidInput(input) && ValidIdentity(identity)
    requires AllocatorInv(t.alloc, source) && t.alloc.status == READY
    requires t == s.(alloc := t.alloc, tick := t.tick)
    requires !Less(identity, Frontier(s.alloc)) && Less(identity, Frontier(t.alloc))
    requires forall i :: 0 <= i < 8 && s.slots[i].Held? ==> Less(s.slots[i].identity, Frontier(t.alloc))
    ensures var u := CommitAndReindex(f, t, slot, NewRecord(identity, input));
      && StoreInv(u, source) && u.alloc == t.alloc
      && (u.slots != s.slots ==> Stored(s, u, slot, identity, input))
      && (u.healthy ==> u.slots != s.slots && u.queue == s.queue + [slot])
      && (u.healthy <==> f(t.tick) == Durable) && u.tick == t.tick + 1
  {
    var r := NewRecord(identity, input);
    forall j | 0 <= j < 8 && s.slots[j].Held? ensures Less(s.slots[j].identity, identity) {
      assert Less(s.slots[j].identity, Frontier(s.alloc));
    }
    CommitAndReindexStep(f, t, slot, r, source);
    hide CommitAndReindex, AllocatorInv;
    var u := CommitAndReindex(f, t, slot, r);
    assert u.slots[slot] == r || u.slots == s.slots;
    if u.healthy {
      assert u.slots[slot] == r;
      NewestJoinsTail(s.slots, s.queue, slot, r);
      QueueUnique(u.slots, u.queue, s.queue + [slot]);
    }
  }

  lemma NewestJoinsTail(slots: Slots, q: seq<SlotIndex>, slot: SlotIndex, r: NodeRecord)
    requires IsQueueOf(slots, q) && slots[slot].Free? && r.Queued()
    requires forall j :: 0 <= j < 8 && slots[j].Held? ==> Less(slots[j].identity, r.identity)
    ensures IsQueueOf(slots[slot := r], q + [slot])
  {
    var t := slots[slot := r];
    forall i: SlotIndex | t[i].Queued() ensures i in q + [slot] {
      if i != slot {
        assert slots[i].Queued();
      }
    }
  }

  lemma RetireStep(f: Fates, s: StoreState, i: nat, custody: Custody, source: u8)
    requires StoreInv(s, source) && custody != QUEUED
    ensures var (t, status) := Retire(f, s, i, custody);
      && StoreInv(t, source) && t.alloc == s.alloc
      && (status == OK <==> s.healthy && i < 8 && s.slots[i].Queued() && f(s.tick) == Durable)
      && (t.slots == s.slots ||
            (i < 8 && s.slots[i].Queued() && t.slots == s.slots[i := s.slots[i].(custody := custody)]))
      && (status == OK ==> t.slots == s.slots[i := s.slots[i].(custody := custody)])
      && (s.healthy && i < 8 && s.slots[i].Queued() ==> (t.healthy <==> status == OK))
      && (!t.healthy || status == OK || t == s)
  {
    if s.healthy && i < 8 && s.slots[i].Queued() {
      CommitAndReindexStep(f, s, i, s.slots[i].(custody := custody), source);
    }
    hide CommitAndReindex, StoreInv;
  }

  lemma FreeStep(f: Fates, s: StoreState, i: SlotIndex, source: u8)
    requires StoreInv(s, source) && s.healthy
    ensures var t := CommitAndReindex(f, s, i, Free);
      && StoreInv(t, source) && t.alloc == s.alloc
      && t.healthy == (f(s.tick) == Durable)
      && t.slots == (if f(s.tick).Stored() then s.slots[i := Free] else s.slots)
  {
    CommitAndReindexStep(f, s, i, Free, source);
  }

  lemma CheckpointStep(f: Fates, s: StoreState, i: nat, remaining: u32, source: u8)
    requires StoreInv(s, source)
    ensures var (t, status) := CheckpointRemaining(f, s, i, remaining);
      && StoreInv(t, source) && t.alloc == s.alloc
      && (status == OK <==> s.healthy && i < 8 && s.slots[i].Queued() && 0 < remaining < s.slots[i].remaining
                            && f(s.tick) == Durable)
      && (t.slots == s.slots ||
            (i < 8 && s.slots[i].Queued() && 0 < remaining < s.slots[i].remaining
             && t.slots == s.slots[i := s.slots[i].(remaining := remaining)]))
      && (status == OK ==>
            t.slots == s.slots[i := s.slots[i].(remaining := remaining)] && t.healthy && t.queue == s.queue)
      && (status != OK ==> t == s || !t.healthy)
  {
    if s.healthy && i < 8 && s.slots[i].Queued() && 0 < remaining < s.slots[i].remaining {
      CommitInPlaceStep(f, s, i, s.slots[i].(remaining := remaining), source);
    }
    hide CommitSlot, StoreInv;
  }

  lemma ArmStep(f: Fates, s: StoreState, i: nat, source: u8)
    requires StoreInv(s, source)
    ensures var (t, status) := ArmAttempt(f, s, i);
      && StoreInv(t, source) && t.alloc == s.alloc
      && (status == ARMED <==> s.healthy && i < 8 && s.slots[i].Queued() && s.slots[i].attempts < MAX_ATTEMPTS
                               && f(s.tick) == Durable)
      && (status == EXHAUSTED <==> s.healthy && i < 8 && s.slots[i].Queued() && s.slots[i].attempts == MAX_ATTEMPTS)
      && (t.slots == s.slots ||
            (i < 8 && s.slots[i].Queued() && s.slots[i].attempts < MAX_ATTEMPTS
             && t.slots == s.slots[i := s.slots[i].(attempts := s.slots[i].attempts + 1)]))
      && (status == ARMED ==>
            t.slots == s.slots[i := s.slots[i].(attempts := s.slots[i].attempts + 1)] && t.healthy && t.queue == s.queue)
      && (status != ARMED ==> t == s || !t.healthy)
  {
    if s.healthy && i < 8 && s.slots[i].Queued() {
      QueuedIsValid(s, i, source);
    }
    hide CommitSlot, StoreInv, ValidNodeRecord;
    if s.healthy && i < 8 && s.slots[i].Queued() && s.slots[i].attempts < MAX_ATTEMPTS {
      CommitInPlaceStep(f, s, i, s.slots[i].(attempts := s.slots[i].attempts + 1), source);
    }
  }

  lemma QueuedIsValid(s: StoreState, i: SlotIndex, source: u8)
    requires StoreInv(s, source) && s.slots[i].Queued()
    ensures s.slots[i].remaining > 0 && s.slots[i].attempts <= MAX_ATTEMPTS
    ensures s.slots[i].attempts < MAX_ATTEMPTS ==> ValidNodeRecord(s.slots[i].(attempts := s.slots[i].attempts + 1))
  {
    assert ValidNodeRecord(s.slots[i]);
  }

  /** On every reachable durable state recovery succeeds without writing and rebuilds the exact index. */
  lemma RecoverStep(f: Fates, s: StoreState, source: u8, entropy: u32)
    requires StoreInv(s, source) && source != 0
    ensures var t := RecoverStore(f, s, source, entropy);
      && StoreInv(t, source) && t.healthy
      && t.slots == s.slots && t.tick == s.tick && t.alloc == BecomeReady(s.alloc.stored)
  {
    RebootStep(s.alloc, source, InCustody(s.slots), entropy, f(s.tick));
    QueueOfIsQueue(s.slots);
  }
}
