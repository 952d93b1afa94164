/**
 Persistent Event identities (lib/event_identity/src/event_identity.h): blocks
 of 32 identifiers are reserved by committing the next unreserved identifier
 before any identifier of the block is issued.
 */
module EventIdentity {
  import opened Words
  import opened EventStorage
  import opened EventProtocol
  import opened EventRecords
  import opened EventFlash

  const RESERVATION_BLOCK_SIZE := 32

  datatype Status =
    | READY | INVALID_SOURCE_DEVICE_ID | STORAGE_FAILURE | ENTROPY_FAILURE | IDENTITY_CONTEXT_MISMATCH
    | IDENTITY_RECOVERY_REQUIRED | METADATA_CONFLICT | GENERATION_AMBIGUOUS | EPOCH_EXHAUSTED

  predicate ValidHighWater(value: u32) {
    value != 0 && (value - 1) % RESERVATION_BLOCK_SIZE == 0
  }

  // ----- specification

  /** `stored` is the durable metadata; the other fields are lost on a reboot. */
  datatype AllocatorState = AllocatorState(stored: NodeMetadata, nextId: u32, endId: u32, status: Status)

  function CommitMetadata(a: AllocatorState, next: NodeMetadata, fate: Fate): AllocatorState {
    if !ValidNodeMetadata(next) then a.(status := STORAGE_FAILURE)
    else if fate == Durable then AllocatorState(next, next.next, next.next, READY)
    else a.(stored := if fate.Stored() then next else a.stored, status := STORAGE_FAILURE)
  }

  /** The metadata a reservation commits and the first identifier of the block, or nothing when exhausted. */
  function NextBlock(m: NodeMetadata): Option<(NodeMetadata, u32)> {
    if m.next > U32_MAX as int - RESERVATION_BLOCK_SIZE then
      if m.epoch == U32_MAX then None
      else Some((NodeMetadata(m.source, m.epoch as int + 1, 1 + RESERVATION_BLOCK_SIZE), 1))
    else Some((NodeMetadata(m.source, m.epoch, m.next as int + RESERVATION_BLOCK_SIZE), m.next))
  }

  function ReserveBlock(a: AllocatorState, fate: Fate): AllocatorState {
    match NextBlock(a.stored)
    case None => a.(status := EPOCH_EXHAUSTED)
    case Some((next, first)) =>
      var c := CommitMetadata(a, next, fate);
      if c.status != READY then c
      else c.(nextId := first, endId := Wrap32(first + RESERVATION_BLOCK_SIZE))
  }

  predicate NeedsBlock(a: AllocatorState) {
    a.status == READY && a.nextId == a.endId
  }

  /** Whether a reservation performs a write. */
  predicate ReserveWrites(m: NodeMetadata) {
    NextBlock(m).Some? && ValidNodeMetadata(NextBlock(m).value.0)
  }

  /** Whether allocating performs a write. */
  predicate AllocateWrites(a: AllocatorState) {
    NeedsBlock(a) && ReserveWrites(a.stored)
  }

  function Allocate(a: AllocatorState, fate: Fate): (AllocatorState, Option<Identity>) {
    if a.status != READY then (a, None)
    else
      var b := if NeedsBlock(a) then ReserveBlock(a, fate) else a;
      if b.status != READY then (b, None)
      else (b.(nextId := Wrap32(b.nextId + 1)), Some(Identity(b.stored.epoch, b.nextId)))
  }

  function BecomeReady(m: NodeMetadata): AllocatorState {
    AllocatorState(m, m.next, m.next, READY)
  }

  /** Recovery when the durable metadata has one authoritative copy. */
  function Recover(stored: NodeMetadata, source: u8, nonempty: bool, entropy: u32, fate: Fate): AllocatorState {
    var lost := AllocatorState(stored, 0, 0, IDENTITY_RECOVERY_REQUIRED);
    if source == 0 then lost.(status := INVALID_SOURCE_DEVICE_ID)
    else if ValidHighWater(stored.next) && stored.source == source then BecomeReady(stored)
    else if nonempty then
      lost.(status := if ValidHighWater(stored.next) then IDENTITY_CONTEXT_MISMATCH else IDENTITY_RECOVERY_REQUIRED)
    else if entropy == 0 then lost.(status := ENTROPY_FAILURE)
    else CommitMetadata(lost, NodeMetadata(source, entropy, 1), fate)
  }

  /** Whether recovery restarts the identity space, which takes a write. */
  predicate RecoverWrites(stored: NodeMetadata, source: u8, nonempty: bool, entropy: u32) {
    && source != 0 && !(ValidHighWater(stored.next) && stored.source == source) && !nonempty && entropy != 0
  }

  // ----- what every step keeps

  /** The next identity that could be issued is below the durable mark. */
  function Frontier(a: AllocatorState): Identity {
    Identity(a.stored.epoch, if a.status == READY then a.nextId else a.stored.next)
  }

  function Mark(a: AllocatorState): Identity {
    Identity(a.stored.epoch, a.stored.next)
  }

  predicate AllocatorInv(a: AllocatorState, source: u8) {
    && ValidNodeMetadata(a.stored) && a.stored.source == source
    && ValidHighWater(a.stored.next)
    && (a.status == READY ==>
          && a.endId == a.stored.next
          && 1 <= a.nextId <= a.endId <= a.nextId as int + RESERVATION_BLOCK_SIZE)
  }

  /** The first identity of the block after the mark; the space of an epoch may be too short for one. */
  function AfterMark(a: AllocatorState): Identity {
    if a.stored.next <= U32_MAX as int - RESERVATION_BLOCK_SIZE then Mark(a) else Identity(Wrap32(a.stored.epoch + 1), 1)
  }

  /**
   A reservation moves to the whole block that starts at the mark, or at 1 in the
   next epoch, or stops the allocator without lowering the mark.
   */
  lemma ReserveStep(a: AllocatorState, fate: Fate, source: u8)
    requires AllocatorInv(a, source) && NeedsBlock(a)
    ensures var b := ReserveBlock(a, fate);
      && AllocatorInv(b, source)
      && !Less(Mark(b), Mark(a)) && !Less(Frontier(b), Frontier(a))
      && (b.status == READY ==> Frontier(b) == AfterMark(a) && b.endId == b.nextId as int + RESERVATION_BLOCK_SIZE)
      && (fate == Durable ==>
            (b.status != READY <==> a.stored.epoch == U32_MAX && a.stored.next > U32_MAX as int - RESERVATION_BLOCK_SIZE))
  {
  }

  /**
   One allocation: the invariant survives every fate; an issued identity is
   exactly at or past the old frontier, before the new one, never zero; and on
   sound storage allocation fails only when the last epoch is spent.
   */
  lemma AllocateStep(a: AllocatorState, fate: Fate, source: u8)
    requires AllocatorInv(a, source)
    ensures var (b, issued) := Allocate(a, fate);
      && AllocatorInv(b, source)
      && !Less(Mark(b), Mark(a)) && !Less(Frontier(b), Frontier(a))
      && (issued.Some? ==>
            && a.status == READY && b.status == READY
            && ValidIdentity(issued.value)
            && !Less(issued.value, Frontier(a))
            && Less(issued.value, Frontier(b))
            && !Less(Mark(b), Frontier(b))
            && issued.value == (if NeedsBlock(a) then AfterMark(a) else Frontier(a))
            && Frontier(b) == Identity(issued.value.epoch, Wrap32(issued.value.id + 1)))
      && (a.status == READY && !NeedsBlock(a) ==> issued.Some?)
      && (a.status == READY && fate == Durable ==>
            (issued.None? <==>
              NeedsBlock(a) && a.stored.epoch == U32_MAX && a.stored.next > U32_MAX as int - RESERVATION_BLOCK_SIZE))
  {
    if NeedsBlock(a) {
      ReserveStep(a, fate, source);
    }
    hide ReserveBlock;
  }

  lemma RebootStep(a: AllocatorState, source: u8, nonempty: bool, entropy: u32, fate: Fate)
    requires AllocatorInv(a, source)
    ensures Recover(a.stored, source, nonempty, entropy, fate) == BecomeReady(a.stored)
    ensures AllocatorInv(BecomeReady(a.stored), source)
    ensures Frontier(BecomeReady(a.stored)) == Mark(a)
    ensures !RecoverWrites(a.stored, source, nonempty, entropy)
  {
  }

  // ----- every run

  datatype AllocatorOp = Issue(fate: Fate) | Reboot(nonempty: bool, entropy: u32, rebootFate: Fate)

  /** The allocator and every identity it has ever issued, oldest first. */
  datatype AllocatorRun = AllocatorRun(state: AllocatorState, issued: seq<Identity>)

  function AllocatorRunStep(r: AllocatorRun, op: AllocatorOp): AllocatorRun {
    match op
    case Issue(fate) =>
      var (b, identity) := Allocate(r.state, fate);
      AllocatorRun(b, if identity.Some? then r.issued + [identity.value] else r.issued)
    case Reboot(nonempty, entropy, fate) =>
      r.(state := Recover(r.state.stored, r.state.stored.source, nonempty, entropy, fate))
  }

  function RunAllocator(a: AllocatorState, ops: seq<AllocatorOp>): AllocatorRun
    decreases |ops|
  {
    if ops == [] then AllocatorRun(a, [])
    else AllocatorRunStep(RunAllocator(a, ops[..|ops| - 1]), ops[|ops| - 1])
  }

  predicate StrictlyAscending(s: seq<Identity>) {
    forall i, j :: 0 <= i < j < |s| ==> Less(s[i], s[j])
  }

  /**
   Over all allocations, write fates and reboots: identities strictly increase in
   (epoch, id), each is below the durable mark that was committed before it was
   issued, and the mark stays aligned to the reservation block.
   */
  lemma {:induction false} IdentitiesStrictlyIncrease(a: AllocatorState, source: u8, ops: seq<AllocatorOp>)
    requires AllocatorInv(a, source)
    ensures var r := RunAllocator(a, ops);
      && AllocatorInv(r.state, source)
      && StrictlyAscending(r.issued)
      && (forall i :: 0 <= i < |r.issued| ==>
            && ValidIdentity(r.issued[i])
            && Less(r.issued[i], Frontier(r.state))
            && Less(r.issued[i], Mark(r.state)))
    decreases |ops|
  {
    if ops != [] {
      IdentitiesStrictlyIncrease(a, source, ops[..|ops| - 1]);
      var r := RunAllocator(a, ops[..|ops| - 1]);
      match ops[|ops| - 1]
      case Issue(fate) =>
        AllocateStep(r.state, fate, source);
      case Reboot(nonempty, entropy, fate) =>
        RebootStep(r.state, source, nonempty, entropy, fate);
    }
  }

  lemma AllocateWritesIff(a: AllocatorState, source: u8)
    requires AllocatorInv(a, source) && a.status == READY
    ensures AllocateWrites(a) <==>
      NeedsBlock(a) && !(a.stored.epoch == U32_MAX && a.stored.next > U32_MAX as int - RESERVATION_BLOCK_SIZE)
  {
  }

  function AllIssues(n: nat): (ops: seq<AllocatorOp>)
    ensures |ops| == n
  {
    if n == 0 then [] else AllIssues(n - 1) + [Issue(Durable)]
  }

  /**
   Within a boot on sound storage, and within an epoch, the identities issued are
   consecutive from the mark, whole blocks and all.
   */
  lemma {:induction false} IssuesAreConsecutive(m: NodeMetadata, source: u8, n: nat)
    requires AllocatorInv(BecomeReady(m), source) && m.next as int + n <= U32_MAX as int - RESERVATION_BLOCK_SIZE
    ensures var r := RunAllocator(BecomeReady(m), AllIssues(n));
      && |r.issued| == n && (forall k :: 0 <= k < n ==> r.issued[k] == Identity(m.epoch, m.next as int + k))
      && r.state.status == READY && AllocatorInv(r.state, source)
      && Frontier(r.state) == Identity(m.epoch, m.next as int + n)
  {
    if n > 0 {
      IssuesAreConsecutive(m, source, n - 1);
      assert AllIssues(n)[..n - 1] == AllIssues(n - 1);
      var r := RunAllocator(BecomeReady(m), AllIssues(n - 1));
      NextIssue(r.state, source);
      assert RunAllocator(BecomeReady(m), AllIssues(n)) == AllocatorRunStep(r, Issue(Durable));
      hide Allocate, RunAllocator, AllocatorInv, AllIssues;
    }
  }

  lemma NextIssue(a: AllocatorState, source: u8)
    requires AllocatorInv(a, source) && a.status == READY && a.nextId <= U32_MAX as int - RESERVATION_BLOCK_SIZE
    ensures var (b, issued) := Allocate(a, Durable);
      && issued == Some(Frontier(a)) && b.status == READY && AllocatorInv(b, source)
      && Frontier(b) == Identity(a.stored.epoch, a.nextId as int + 1)
  {
    AllocateStep(a, Durable, source);
    hide ReserveBlock, Less;
  }

  // ----- the allocator object

  class Allocator {
    const flash: Flash<NodeMetadata, NodeRecord>
    var metadata: NodeMetadata
    var generation: u32
    var activeSlot: CopySlot
    var hasMetadata: bool
    var nextId: u32
    var endId: u32
    var status: Status

    constructor (flash: Flash<NodeMetadata, NodeRecord>)
      ensures this.flash == flash && status == IDENTITY_RECOVERY_REQUIRED && !hasMetadata
    {
      this.flash := flash;
      metadata := NodeMetadata(0, 0, 0);
      generation := 0;
      activeSlot := A;
      hasMetadata := false;
      nextId, endId := 0, 0;
      status := IDENTITY_RECOVERY_REQUIRED;
    }

    /** The durable pair always has one authoritative copy, and a ready allocator mirrors it. */
    ghost predicate Valid()
      reads this, flash`metadata
    {
      && Authoritative(flash.metadata)
      && (status == READY ==> Mirrors())
    }

    ghost predicate Mirrors()
      reads this, flash`metadata
    {
      hasMetadata && Committed(flash.metadata, activeSlot, generation, metadata)
    }

    ghost function State(): AllocatorState
      requires Valid()
      reads this, flash`metadata
    {
      AllocatorState(SelectCopies(flash.metadata).record, nextId, endId, status)
    }

    /** Everything volatile is lost. */
    method Forget()
      modifies this
      ensures !hasMetadata && nextId == 0 && endId == 0 && status == IDENTITY_RECOVERY_REQUIRED
    {
      metadata, generation, activeSlot, hasMetadata := NodeMetadata(0, 0, 0), 0, A, false;
      nextId, endId, status := 0, 0, IDENTITY_RECOVERY_REQUIRED;
    }

    /** Reserve a block if the current one is spent, then issue one identity. */
    method Issue() returns (identity: Option<Identity>)
      requires Valid()
      modifies this, flash`metadata, flash`tick
      ensures Valid()
      ensures (State(), identity) == Allocate(old(State()), flash.fates(old(flash.tick)))
      ensures flash.tick == old(flash.tick) + (if AllocateWrites(old(State())) then 1 else 0)
    {
      if status != READY {
        return None;
      }
      CommittedIsSelected(flash.metadata, activeSlot, generation, metadata);
      if nextId == endId {
        Reserve();
        if status != READY {
          return None;
        }
      }
      identity := Some(Identity(metadata.epoch, nextId));
      CommittedIsSelected(flash.metadata, activeSlot, generation, metadata);
      nextId := Wrap32(nextId + 1);
    }

    method Reserve()
      requires Valid() && status == READY
      modifies this, flash`metadata, flash`tick
      ensures Valid()
      ensures State() == ReserveBlock(old(State()), flash.fates(old(flash.tick)))
      ensures flash.tick == old(flash.tick) + (if ReserveWrites(old(State()).stored) then 1 else 0)
    {
      CommittedIsSelected(flash.metadata, activeSlot, generation, metadata);
      var next := metadata;
      if metadata.next > U32_MAX as int - RESERVATION_BLOCK_SIZE {
        if metadata.epoch == U32_MAX {
          status := EPOCH_EXHAUSTED;
          return;
        }
        next := NodeMetadata(metadata.source, metadata.epoch as int + 1, 1 + RESERVATION_BLOCK_SIZE);
        Commit(Wrap32(generation + 1), next);
        if status == READY {
          nextId, endId := 1, 1 + RESERVATION_BLOCK_SIZE;
        }
        return;
      }
      var blockStart := metadata.next;
      next := next.(next := blockStart as int + RESERVATION_BLOCK_SIZE);
      Commit(Wrap32(generation + 1), next);
      if status == READY {
        nextId, endId := blockStart, Wrap32(blockStart + RESERVATION_BLOCK_SIZE);
      }
    }

    /** Write the copy not in use (copy A when there is none), read it back, and adopt it. */
    method Commit(nextGeneration: u32, next: NodeMetadata)
      requires hasMetadata ==> nextGeneration == Wrap32(generation + 1)
      modifies this, flash`metadata, flash`tick
      ensures old(Mirrors()) ==> Valid()
      ensures old(Mirrors()) ==>
        State() == CommitMetadata(AllocatorState(old(metadata), old(nextId), old(endId), old(status)), next,
                                  flash.fates(old(flash.tick)))
      ensures !old(hasMetadata) && status == READY && !old(flash.metadata).b.Valid? ==>
        Valid() && State() == BecomeReady(next)
      ensures status == READY && ValidNodeMetadata(next) ==> flash.fates(old(flash.tick)) == Durable
      ensures ValidNodeMetadata(next) && flash.fates(old(flash.tick)) == Durable ==> status == READY
      ensures flash.tick == old(flash.tick) + (if ValidNodeMetadata(next) then 1 else 0)
    {
      if Mirrors() {
        CommittedIsSelected(flash.metadata, activeSlot, generation, metadata);
      }
      if !ValidNodeMetadata(next) {
        status := STORAGE_FAILURE;
        return;
      }
      var target := if hasMetadata then activeSlot.Opposite() else A;
      ghost var was, wasSlot, wasGeneration, wasRecord := flash.metadata, activeSlot, generation, metadata;
      var matched := flash.WriteMetadata(target, nextGeneration, next);
      if old(Mirrors()) {
        CommitKeepsCommitted(was, wasSlot, wasGeneration, wasRecord, next, flash.fates(old(flash.tick)));
        if flash.fates(old(flash.tick)).Stored() {
          CommittedIsSelected(flash.metadata, target, nextGeneration, next);
        } else {
          CommittedIsSelected(flash.metadata, wasSlot, wasGeneration, wasRecord);
        }
      }
      if !matched {
        status := STORAGE_FAILURE;
        return;
      }
      metadata, generation, activeSlot, hasMetadata := next, nextGeneration, target, true;
      if Committed(flash.metadata, target, nextGeneration, next) {
        CommittedIsSelected(flash.metadata, target, nextGeneration, next);
      }
      nextId, endId, status := next.next, next.next, READY;
    }

    /**
     Select the authoritative copy and resume past everything reserved before.
     A blank pair is initialised, and a foreign or misaligned one restarted, only
     when no Event is in custody.
     */
    method Restore(source: u8, nonempty: bool, entropy: u32)
      modifies this, flash`metadata, flash`tick
      ensures Authoritative(old(flash.metadata)) ==>
        var stored := SelectCopies(old(flash.metadata)).record;
        && Valid()
        && State() == Recover(stored, source, nonempty, entropy, flash.fates(old(flash.tick)))
        && flash.tick == old(flash.tick) + (if RecoverWrites(stored, source, nonempty, entropy) then 1 else 0)
      ensures SelectCopies(old(flash.metadata)).BothInvalid? ==>
        && (status == READY ==> Valid() && State() == BecomeReady(NodeMetadata(source, entropy, 1)))
        && (status == READY <==>
              source != 0 && !nonempty && entropy != 0 && flash.fates(old(flash.tick)) == Durable)
      ensures SelectCopies(old(flash.metadata)).EqualDisagreement? || SelectCopies(old(flash.metadata)).GenerationAmbiguous?
          ==> status != READY && flash.metadata == old(flash.metadata)
    {
      Forget();
      if source == 0 {
        status := INVALID_SOURCE_DEVICE_ID;
        return;
      }
      match SelectCopies(flash.metadata) {
        case EqualDisagreement =>
          status := METADATA_CONFLICT;
        case GenerationAmbiguous =>
          status := GENERATION_AMBIGUOUS;
        case BothInvalid =>
          if nonempty {
            status := IDENTITY_RECOVERY_REQUIRED;
          } else {
            InitializeFresh(source, entropy);
          }
        case Selected(_, slot, selectedGeneration, selected) =>
          metadata, generation, activeSlot, hasMetadata := selected, selectedGeneration, slot, true;
          if !ValidHighWater(selected.next) {
            if !nonempty {
              InitializeFresh(source, entropy);
            }
          } else if selected.source != source {
            if nonempty {
              status := IDENTITY_CONTEXT_MISMATCH;
            } else {
              InitializeFresh(source, entropy);
            }
          } else {
            nextId, endId, status := selected.next, selected.next, READY;
          }
      }
    }

    method InitializeFresh(source: u8, entropy: u32)
      requires status == IDENTITY_RECOVERY_REQUIRED && nextId == 0 && endId == 0 && source != 0
      modifies this, flash`metadata, flash`tick
      ensures old(Mirrors()) ==>
        && Valid()
        && State() == (if entropy == 0
                       then AllocatorState(old(metadata), 0, 0, ENTROPY_FAILURE)
                       else CommitMetadata(AllocatorState(old(metadata), 0, 0, IDENTITY_RECOVERY_REQUIRED),
                                           NodeMetadata(source, entropy, 1), flash.fates(old(flash.tick))))
      ensures !old(hasMetadata) && status == READY && !old(flash.metadata).b.Valid? ==>
        Valid() && State() == BecomeReady(NodeMetadata(source, entropy, 1))
      ensures status == READY <==> entropy != 0 && flash.fates(old(flash.tick)) == Durable
      ensures flash.tick == old(flash.tick) + (if entropy != 0 then 1 else 0)
    {
      if Mirrors() {
        CommittedIsSelected(flash.metadata, activeSlot, generation, metadata);
      }
      if entropy == 0 {
        status := ENTROPY_FAILURE;
        return;
      }
      Commit(if hasMetadata then Wrap32(generation + 1) else 1, NodeMetadata(source, entropy, 1));
    }
  }
}
