/**
 `HubEventLedger::Ledger` as an object over dual-copy storage.  Each method is
 proved against the specification over atomic slot records.
 */
module HubEventLedgerObject {
  import opened Words
  import opened EventStorage
  import opened EventFlash
  import opened EventProtocol
  import opened EventRecords
  import opened HubEventLedger
  import opened HubEventRadio
  import Spec = HubEventLedger

  const ABSENT: SlotState<HubRecord> := SlotState(false, Empty, 0, A)

  type HubSlots = s: seq<SlotState<HubRecord>> | |s| == 8
    witness [ABSENT, ABSENT, ABSENT, ABSENT, ABSENT, ABSENT, ABSENT, ABSENT]

  /** What is left when power is lost. */
  ghost function PoweredOff(events: Copies<HubRecord>, metadata: CopyPair<HubMetadata>, tick: nat): Ledger
    requires AllAuthoritative(events) && Authoritative(metadata)
  {
    Ledger(DurableSlots(events), SelectCopies(metadata).record.next, 0, 0, false, false, tick)
  }

  /** The ledger a completed first boot leaves. */
  function Initialized(tick: nat): Ledger {
    Ledger([Empty, Empty, Empty, Empty, Empty, Empty, Empty, Empty], 1, 1, 1, true, true, tick)
  }

  lemma BlankIsAuthoritative(events: Copies<HubRecord>, metadata: CopyPair<HubMetadata>)
    requires forall i :: 0 <= i < 8 ==> events[i] == CopyPair(Valid(1, Empty), Missing)
    requires metadata == CopyPair(Valid(1, HubMetadata(1)), Missing)
    ensures AllAuthoritative(events) && Authoritative(metadata)
    ensures DurableSlots(events) == [Empty, Empty, Empty, Empty, Empty, Empty, Empty, Empty]
    ensures SelectCopies(metadata).record == HubMetadata(1)
  {
  }

  class HubLedger {
    const flash: Flash<HubMetadata, HubRecord>
    var slots: HubSlots
    var metadata: HubMetadata
    var metadataGeneration: u32
    var metadataCopy: CopySlot
    var next: u32
    var end: u32
    var ids: Ids
    var healthy: bool
    var ordinalReady: bool

    constructor (flash: Flash<HubMetadata, HubRecord>, ids: Ids)
      ensures this.flash == flash && this.ids == ids && !healthy && !ordinalReady
    {
      this.flash := flash;
      this.ids := ids;
      slots := seq(8, _ => ABSENT);
      metadata, metadataGeneration, metadataCopy := HubMetadata(0), 0, A;
      next, end, healthy, ordinalReady := 0, 0, false, false;
    }

    /** A healthy ledger mirrors the authoritative copy of every slot. */
    ghost predicate Mirrored()
      reads this`slots, flash`events
    {
      forall i :: 0 <= i < 8 ==>
        slots[i].present && Committed(flash.events[i], slots[i].activeCopy, slots[i].generation, slots[i].record)
    }

    /** A ledger that issues ordinals mirrors the authoritative reservation mark. */
    ghost predicate MarkMirrored()
      reads this, flash`metadata
    {
      Committed(flash.metadata, metadataCopy, metadataGeneration, metadata)
    }

    ghost predicate Valid()
      reads this, flash
    {
      && AllAuthoritative(flash.events) && Authoritative(flash.metadata)
      && (healthy ==> Mirrored())
      && (ordinalReady ==> MarkMirrored() && (next == end || end == metadata.next))
    }

    ghost function State(): Ledger
      requires Valid()
      reads this, flash
    {
      var mark := SelectCopies(flash.metadata).record.next;
      var (first, last) :=
        if !ordinalReady then (0, 0) else if next == end then (mark, mark) else (next, end);
      Ledger(DurableSlots(flash.events), mark, first, last, ordinalReady, healthy, flash.tick)
    }

    lemma MirrorsDurable()
      requires Valid() && healthy
      ensures Records(slots) == DurableSlots(flash.events)
    {
      forall i | 0 <= i < 8 ensures Records(slots)[i] == DurableSlots(flash.events)[i] {
        CommittedIsSelected(flash.events[i], slots[i].activeCopy, slots[i].generation, slots[i].record);
      }
    }

    /** Write the copy not in use, read it back, and re-select; any doubt stops the ledger. */
    method CommitRecord(index: SlotIndex, record: HubRecord) returns (ok: bool)
      requires Valid() && healthy
      modifies this`slots, this`healthy, flash`tick, flash`events
      ensures Valid() && ok == healthy
      ensures State() == Spec.CommitRecord(flash.fates, old(State()), index, record)
    {
      if !ValidHubRecord(record) {
        healthy := false;
        return false;
      }
      var current := slots[index];
      var target := current.activeCopy.Opposite();
      var generation := Wrap32(current.generation + 1);
      ghost var was, fate := flash.events, flash.fates(flash.tick);
      var matched := flash.WriteEvent(index, target, generation, record);
      CommitKeepsCommitted(was[index], current.activeCopy, current.generation, current.record, record, fate);
      if fate.Stored() {
        CommittedIsSelected(flash.events[index], target, generation, record);
      } else {
        CommittedIsSelected(flash.events[index], current.activeCopy, current.generation, current.record);
        CommittedIsSelected(was[index], current.activeCopy, current.generation, current.record);
      }
      DurableUpdate(was, index, flash.events[index]);
      if !matched {
        healthy := false;
        return false;
      }
      // Re-selection after a verified write can only pick the copy just written.
      match SelectCopies(flash.events[index]) {
        case Selected(_, slot, selectedGeneration, _) =>
          assert slot == target && selectedGeneration == generation;
        case _ =>
          assert false;
      }
      slots := slots[index := SlotState(true, record, generation, target)];
      return true;
    }

    /** Commit the next reservation mark to the copy not in use. */
    method CommitMark(mark: u32) returns (ok: bool)
      requires Valid() && ordinalReady && next == end && mark != 0
      modifies this, flash`tick, flash`metadata
      ensures Valid() && ok == ordinalReady && healthy == old(healthy) && ids == old(ids) && slots == old(slots)
      ensures next == old(next) && end == old(end)
      ensures ok <==> flash.fates(old(flash.tick)) == Durable
      ensures flash.tick == old(flash.tick) + 1
      ensures SelectCopies(flash.metadata).record
           == if flash.fates(old(flash.tick)).Stored() then HubMetadata(mark) else SelectCopies(old(flash.metadata)).record
    {
      var target := metadataCopy.Opposite();
      var generation := Wrap32(metadataGeneration + 1);
      ghost var was, fate := flash.metadata, flash.fates(flash.tick);
      var matched := flash.WriteMetadata(target, generation, HubMetadata(mark));
      CommitKeepsCommitted(was, metadataCopy, metadataGeneration, metadata, HubMetadata(mark), fate);
      if fate.Stored() {
        CommittedIsSelected(flash.metadata, target, generation, HubMetadata(mark));
      } else {
        CommittedIsSelected(flash.metadata, metadataCopy, metadataGeneration, metadata);
        CommittedIsSelected(was, metadataCopy, metadataGeneration, metadata);
      }
      if !matched {
        ordinalReady := false;
        return false;
      }
      metadata, metadataGeneration, metadataCopy := HubMetadata(mark), generation, target;
      return true;
    }

    /** Reserve a block when the current one is spent, then issue one ordinal. */
    method AllocateOrdinal() returns (ordinal: Option<u32>)
      requires Valid()
      modifies this, flash`tick, flash`metadata
      ensures Valid() && healthy == old(healthy) && ids == old(ids) && slots == old(slots)
      ensures (State(), ordinal) == Spec.AllocateOrdinal(flash.fates, old(State()))
    {
      if !ordinalReady {
        return None;
      }
      CommittedIsSelected(flash.metadata, metadataCopy, metadataGeneration, metadata);
      if next == end {
        var start := metadata.next;
        if start > U32_MAX as int - ORDINAL_RESERVATION_BLOCK_SIZE {
          ordinalReady := false;
          return None;
        }
        var reserved := CommitMark(start as int + ORDINAL_RESERVATION_BLOCK_SIZE);
        if !reserved {
          return None;
        }
        next, end := start, start as int + ORDINAL_RESERVATION_BLOCK_SIZE;
      }
      ordinal := Some(next);
      next := Wrap32(next + 1);
    }

    // ----- searching

    method FindSlot(source: u8, identity: Identity) returns (found: Option<SlotIndex>)
      ensures found == Find(Records(slots), source, identity)
    {
      for i := 0 to 8
        invariant FindFrom(Records(slots), source, identity, i) == Find(Records(slots), source, identity)
      {
        if Owns(slots[i].record, source, identity) {
          return Some(i);
        }
      }
      return None;
    }

    method FirstEmpty() returns (found: Option<SlotIndex>)
      ensures found == FirstEmptyFrom(Records(slots), 0)
    {
      for i := 0 to 8
        invariant FirstEmptyFrom(Records(slots), i) == FirstEmptyFrom(Records(slots), 0)
      {
        if slots[i].record.Empty? {
          return Some(i);
        }
      }
      return None;
    }

    method OldestReclaimable(e: Event) returns (found: Option<SlotIndex>)
      ensures found == Spec.OldestReclaimable(Records(slots), e)
    {
      found := None;
      ghost var pick := (r: HubRecord) => r.Tombstone() && IncomingLater(e, r);
      ghost var records := Records(slots);
      for i := 0 to 8
        invariant found.Some? ==> slots[found.value].record.Entry?
        invariant OldestFrom(records, pick, i, found) == OldestFrom(records, pick, 0, None)
      {
        var record := slots[i].record;
        if record.Tombstone() && IncomingLater(e, record)
           && (found.None? || record.ordinal < slots[found.value].record.ordinal) {
          found := Some(i);
        }
      }
    }

    method OldestActive() returns (found: Option<SlotIndex>)
      ensures found == if healthy then Spec.OldestActive(Records(slots)) else None
    {
      found := None;
      if !healthy {
        return;
      }
      ghost var pick := (r: HubRecord) => r.Active();
      ghost var records := Records(slots);
      for i := 0 to 8
        invariant found.Some? ==> slots[found.value].record.Entry?
        invariant OldestFrom(records, pick, i, found) == OldestFrom(records, pick, 0, None)
      {
        var record := slots[i].record;
        if record.Active() && (found.None? || record.ordinal < slots[found.value].record.ordinal) {
          found := Some(i);
        }
      }
    }

    // ----- admission and consumption

    method Admit(e: Event) returns (status: Admission)
      requires Valid()
      modifies this, flash`tick, flash`events, flash`metadata
      ensures Valid() && ids == old(ids)
      ensures (State(), status) == Spec.Admit(flash.fates, old(State()), ids, e)
    {
      if !healthy {
        return LEDGER_DEGRADED;
      }
      var refusal := ValidateAdmission(ids, e);
      if refusal.Some? {
        return refusal.value;
      }
      MirrorsDurable();
      hide ValidateAdmission;
      var held := FindSlot(e.source, e.identity);
      if held.Some? {
        var record := slots[held.value].record;
        assert record == Records(slots)[held.value];
        return if record.Entry? && SameCanonical(record.content, e.content) then EXACT_DUPLICATE else CONTENT_MISMATCH;
      }
      var target := FirstEmpty();
      if target.None? {
        target := OldestReclaimable(e);
      }
      if target.None? {
        return NO_CAPACITY;
      }
      hide Find, Target;
      status := AdmitInto(e, target.value);
    }

    method AdmitInto(e: Event, target: SlotIndex) returns (status: Admission)
      requires Valid() && healthy
      modifies this, flash`tick, flash`events, flash`metadata
      ensures Valid() && ids == old(ids)
      ensures (State(), status) == AdmitAt(flash.fates, old(State()), e, target)
    {
      hide Spec.AllocateOrdinal, Spec.CommitRecord;
      var ordinal := AllocateOrdinal();
      if ordinal.None? {
        return ADMISSION_NOT_STORED;
      }
      var ok := CommitRecord(target, NewEntry(e, ordinal.value));
      return if ok then DURABLE_NEW_ADMISSION else ADMISSION_NOT_STORED;
    }

    method Consume(source: u8, identity: Identity) returns (status: Consumption)
      requires Valid()
      modifies this`slots, this`healthy, flash`tick, flash`events
      ensures Valid()
      ensures (State(), status) == Spec.Consume(flash.fates, old(State()), source, identity)
    {
      if !healthy {
        return CONSUME_DEGRADED;
      }
      MirrorsDurable();
      var found := FindSlot(source, identity);
      FindFinds(Records(slots), source, identity, 0);
      if found.None? {
        return NOT_FOUND;
      }
      var record := slots[found.value].record;
      assert record == Records(slots)[found.value];
      if record.Tombstone() {
        return ALREADY_CONSUMED;
      }
      hide Spec.CommitRecord;
      var ok := CommitRecord(found.value, record.(delivery := CONSUMED));
      return if ok then CONSUMED_NOW else CONSUMPTION_NOT_STORED;
    }

    // ----- recovery

    /** Select the authoritative copy of every slot; stop at a conflict or an ambiguity. */
    method SelectSlots() returns (accepted: bool, allMissing: bool)
      modifies this`slots
      ensures accepted <==> forall i :: 0 <= i < 8 ==>
        SelectCopies(flash.events[i]).Selected? || SelectCopies(flash.events[i]).BothInvalid?
      ensures accepted ==> (allMissing <==> AllMissing(flash.events))
      ensures accepted ==> forall i :: 0 <= i < 8 ==> slots[i] == SlotOf(SelectCopies(flash.events[i]), ABSENT)
    {
      slots := seq(8, _ => ABSENT);
      allMissing := true;
      for slot := 0 to 8
        invariant forall i :: 0 <= i < slot ==>
          SelectCopies(flash.events[i]).Selected? || SelectCopies(flash.events[i]).BothInvalid?
        invariant allMissing <==> forall i :: 0 <= i < slot ==> flash.events[i] == CopyPair(Missing, Missing)
        invariant forall i :: 0 <= i < slot ==> slots[i] == SlotOf(SelectCopies(flash.events[i]), ABSENT)
        invariant forall i :: slot <= i < 8 ==> slots[i] == ABSENT
      {
        var copies := flash.events[slot];
        if copies != CopyPair(Missing, Missing) {
          allMissing := false;
        }
        match SelectCopies(copies) {
          case BothInvalid =>
          case Selected(_, copy, generation, record) =>
            slots := slots[slot := SlotState(true, record, generation, copy)];
          case _ =>
            return false, allMissing;
        }
      }
      return true, allMissing;
    }

    predicate AllPresent()
      reads this`slots
    {
      forall i :: 0 <= i < 8 ==> slots[i].present
    }

    /** No two owned slots share an identity or an ordinal. */
    method ValidateSlots() returns (ok: bool)
      ensures ok <==> DistinctEntries(Records(slots))
    {
      ghost var records := Records(slots);
      for i := 0 to 8
        invariant forall j, k :: 0 <= j < k < i && records[j].Entry? && records[k].Entry? ==>
          && !(records[j].source == records[k].source && records[j].identity == records[k].identity)
          && records[j].ordinal != records[k].ordinal
      {
        var later := slots[i].record;
        assert later == records[i];
        if later.Entry? {
          for j := 0 to i
            invariant forall k :: 0 <= k < j && records[k].Entry? ==>
              && !(records[k].source == later.source && records[k].identity == later.identity)
              && records[k].ordinal != later.ordinal
          {
            var earlier := slots[j].record;
            assert earlier == records[j];
            if earlier.Entry? && ((earlier.source == later.source && earlier.identity == later.identity)
                                  || earlier.ordinal == later.ordinal) {
              return false;
            }
          }
        }
      }
      return true;
    }

    /** First boot: a mark of one in metadata copy A, then an empty record in copy A of every slot. */
    method InitializeFresh() returns (ok: bool)
      requires AllMissing(flash.events) && flash.metadata == CopyPair(Missing, Missing) && next == 0 && end == 0
      modifies this, flash`tick, flash`events, flash`metadata
      ensures ids == old(ids) && next == 0 && end == 0 && healthy == old(healthy)
      ensures ok <==> DurableRun(flash.fates, old(flash.tick), 9)
      ensures ok ==> flash.tick == old(flash.tick) + 9
      ensures ok ==> metadata == HubMetadata(1) && metadataGeneration == 1 && metadataCopy == A && ordinalReady
      ensures ok ==> flash.metadata == CopyPair(EventStorage.Valid(1, HubMetadata(1)), Missing)
      ensures ok ==> forall i :: 0 <= i < 8 ==>
        slots[i] == SlotState(true, Empty, 1, A) && flash.events[i] == CopyPair(EventStorage.Valid(1, Empty), Missing)
    {
      var matched := flash.WriteMetadata(A, 1, HubMetadata(1));
      if !matched {
        ordinalReady := false;
        return false;
      }
      metadata, metadataGeneration, metadataCopy, ordinalReady := HubMetadata(1), 1, A, true;
      for slot := 0 to 8
        modifies this`slots, flash`tick, flash`events
        invariant flash.tick == old(flash.tick) + 1 + slot
        invariant DurableRun(flash.fates, old(flash.tick), 1 + slot)
        invariant forall i :: 0 <= i < slot ==>
          slots[i] == SlotState(true, Empty, 1, A) && flash.events[i] == CopyPair(EventStorage.Valid(1, Empty), Missing)
        invariant forall i :: slot <= i < 8 ==> flash.events[i] == CopyPair(Missing, Missing)
      {
        matched := flash.WriteEvent(slot, A, 1, Empty);
        if !matched {
          return false;
        }
        slots := slots[slot := SlotState(true, Empty, 1, A)];
      }
      return true;
    }

    /** Resume ordinals past everything reserved, if the mark has one authoritative aligned copy. */
    method RecoverMark()
      requires !ordinalReady && next == 0 && end == 0
      modifies this
      ensures slots == old(slots) && healthy == old(healthy) && ids == old(ids)
      ensures ordinalReady <==> SelectCopies(flash.metadata).Selected? && ValidHighWater(SelectCopies(flash.metadata).record.next)
      ensures ordinalReady ==>
        var s := SelectCopies(flash.metadata);
        metadata == s.record && metadataGeneration == s.generation && metadataCopy == s.slot
        && next == s.record.next && end == s.record.next
    {
      match SelectCopies(flash.metadata) {
        case Selected(_, copy, generation, record) =>
          if ValidHighWater(record.next) {
            metadata, metadataGeneration, metadataCopy := record, generation, copy;
            next, end, ordinalReady := record.next, record.next, true;
          }
        case _ =>
      }
    }

    /**
     Power-up.  Over authoritative copies this is the specified recovery; blank
     storage is initialised once; undecidable slots fail closed and write nothing.
     */
    method Recover()
      modifies this, flash`tick, flash`events, flash`metadata
      ensures ids == old(ids)
      ensures AllAuthoritative(old(flash.events)) && Authoritative(old(flash.metadata)) ==>
        && Valid()
        && State() == Spec.Recover(PoweredOff(old(flash.events), old(flash.metadata), old(flash.tick)), ids)
      ensures AllMissing(old(flash.events)) && old(flash.metadata) == CopyPair(Missing, Missing) ==>
        && (healthy <==> ValidEndpoints(ids.hub, ids.node) && DurableRun(flash.fates, old(flash.tick), 9))
        && (healthy ==> Valid() && State() == Initialized(flash.tick))
      ensures !AllSelected(old(flash.events)) && !(AllMissing(old(flash.events)) && old(flash.metadata) == CopyPair(Missing, Missing)) ==>
        !healthy && flash.events == old(flash.events) && flash.metadata == old(flash.metadata)
    {
      healthy, ordinalReady, next, end := false, false, 0, 0;
      if !ValidEndpoints(ids.hub, ids.node) {
        return;
      }
      var accepted, allMissing := SelectSlots();
      if !accepted {
        return;
      }
      if allMissing && flash.metadata == CopyPair(Missing, Missing) {
        var initialized := InitializeFresh();
        healthy := initialized;
        if initialized {
          BlankIsAuthoritative(flash.events, flash.metadata);
        }
        return;
      }
      if !AllPresent() {
        return;
      }
      if AllAuthoritative(flash.events) {
        assert Records(slots) == DurableSlots(flash.events);
      }
      var distinct := ValidateSlots();
      if !distinct {
        return;
      }
      RecoverMark();
      healthy := true;
    }

    // ----- the radio boundary

    /** `activeCount` */
    method CountActive() returns (count: nat)
      requires Valid()
      ensures count == ActiveCount(State())
    {
      count := 0;
      if !healthy {
        return;
      }
      MirrorsDurable();
      ghost var records := Records(slots);
      for i := 0 to 8
        invariant count + ActiveCountFrom(records, i) == ActiveCountFrom(records, 0)
      {
        if slots[i].record.Active() {
          count := count + 1;
        }
      }
    }

    /** `HubAdapter::process`: parse, admit, and answer. */
    method ProcessPacket(bytes: seq<u8>) returns (out: HubOutput)
      requires Valid()
      modifies this, flash`tick, flash`events, flash`metadata
      ensures Valid() && ids == old(ids)
      ensures (State(), out) == Process(flash.fates, old(State()), ids, bytes)
    {
      hide Parse, Spec.Admit, Answer, ActiveCountFrom, ValidEvent;
      match Parse(ids, bytes) {
        case None =>
          return Discard;
        case Some(e) =>
          if !RegisteredFamily(e.content.family) {
            return Answer(e, UNSUPPORTED_EVENT, false);
          }
          if !ValidEvent(e) {
            return Answer(e, MALFORMED_EVENT, false);
          }
          var before := CountActive();
          var status := Admit(e);
          var after := CountActive();
          var mutated := status == DURABLE_NEW_ADMISSION && after != before;
          match WireStatus(status) {
            case None =>
              return Discard;
            case Some(wire) =>
              return Answer(e, wire, mutated);
          }
      }
    }
  }
}
