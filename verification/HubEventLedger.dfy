/**
 Durable admission and delivery on the Hub
 (lib/hub_event_ledger/src/hub_event_ledger.h), specified over atomic slot
 records.  The object that implements it with two copies per slot is in
 HubEventLedgerObject.dfy.
 */
module HubEventLedger {
  import opened Words
  import opened EventStorage
  import opened EventProtocol
  import opened EventRecords

  const ORDINAL_RESERVATION_BLOCK_SIZE := 32

  type LedgerSlots = s: seq<HubRecord> | |s| == 8
    witness [Empty, Empty, Empty, Empty, Empty, Empty, Empty, Empty]

  /**
   `slots` and `mark` (the next unreserved admission ordinal) are durable.  A
   failed record commit stops the ledger until recovery; a failed ordinal
   reservation stops only new admissions.  The volatile block is normalised to
   `0, 0` when no ordinals can be issued and to `mark, mark` when it is spent.
   */
  datatype Ledger = Ledger(
    slots: LedgerSlots, mark: u32, next: u32, end: u32, ordinalReady: bool, healthy: bool, tick: nat)

  datatype Ids = Ids(hub: u8, node: u8)

  datatype Admission =
    | DURABLE_NEW_ADMISSION | EXACT_DUPLICATE | NO_CAPACITY | CONTENT_MISMATCH | UNSUPPORTED | MALFORMED
    | ROUTING_REJECTED | ADMISSION_NOT_STORED | LEDGER_DEGRADED

  datatype Consumption = CONSUMED_NOW | ALREADY_CONSUMED | NOT_FOUND | CONSUMPTION_NOT_STORED | CONSUME_DEGRADED

  predicate ValidHighWater(value: u32) {
    value != 0 && (value - 1) % ORDINAL_RESERVATION_BLOCK_SIZE == 0
  }

  // ----- specification: searching the slots

  predicate Owns(r: HubRecord, source: u8, identity: Identity) {
    r.Entry? && r.source == source && r.identity == identity
  }

  function FindFrom(slots: LedgerSlots, source: u8, identity: Identity, i: nat): Option<SlotIndex>
    requires i <= 8
    decreases 8 - i
  {
    if i == 8 then None
    else if Owns(slots[i], source, identity) then Some(i)
    else FindFrom(slots, source, identity, i + 1)
  }

  function Find(slots: LedgerSlots, source: u8, identity: Identity): Option<SlotIndex> {
    FindFrom(slots, source, identity, 0)
  }

  function FirstEmptyFrom(slots: LedgerSlots, i: nat): Option<SlotIndex>
    requires i <= 8
    decreases 8 - i
  {
    if i == 8 then None else if slots[i].Empty? then Some(i) else FirstEmptyFrom(slots, i + 1)
  }

  /** The scan for the least ordinal among the picked entries. */
  function OldestFrom(slots: LedgerSlots, pick: HubRecord -> bool, i: nat, found: Option<SlotIndex>): Option<SlotIndex>
    requires i <= 8
    decreases 8 - i
  {
    if i == 8 then found
    else if slots[i].Entry? && pick(slots[i])
         && (found.None? || slots[found.value].Empty? || slots[i].ordinal < slots[found.value].ordinal)
    then OldestFrom(slots, pick, i + 1, Some(i))
    else OldestFrom(slots, pick, i + 1, found)
  }

  function OldestActive(slots: LedgerSlots): Option<SlotIndex> {
    OldestFrom(slots, (r: HubRecord) => r.Active(), 0, None)
  }

  predicate IncomingLater(e: Event, tombstone: HubRecord) {
    tombstone.Entry? && e.source == tombstone.source && Less(tombstone.identity, e.identity)
  }

  function OldestReclaimable(slots: LedgerSlots, e: Event): Option<SlotIndex> {
    OldestFrom(slots, (r: HubRecord) => r.Tombstone() && IncomingLater(e, r), 0, None)
  }

  function Target(slots: LedgerSlots, e: Event): Option<SlotIndex> {
    var empty := FirstEmptyFrom(slots, 0);
    if empty.Some? then empty else OldestReclaimable(slots, e)
  }

  lemma {:induction false} FindFinds(slots: LedgerSlots, source: u8, identity: Identity, i: nat)
    requires i <= 8
    ensures match FindFrom(slots, source, identity, i)
      case Some(k) => i <= k && Owns(slots[k], source, identity)
                      && forall j :: i <= j < k ==> !Owns(slots[j], source, identity)
      case None => forall j :: i <= j < 8 ==> !Owns(slots[j], source, identity)
    decreases 8 - i
  {
    if i < 8 && !Owns(slots[i], source, identity) {
      FindFinds(slots, source, identity, i + 1);
    }
  }

  lemma {:induction false} FirstEmptyIsFirst(slots: LedgerSlots, i: nat)
    requires i <= 8
    ensures match FirstEmptyFrom(slots, i)
      case Some(k) => i <= k && slots[k].Empty? && forall j :: i <= j < k ==> slots[j].Entry?
      case None => forall j :: i <= j < 8 ==> slots[j].Entry?
    decreases 8 - i
  {
    if i < 8 && slots[i].Entry? {
      FirstEmptyIsFirst(slots, i + 1);
    }
  }

  predicate Picked(slots: LedgerSlots, pick: HubRecord -> bool, i: nat) {
    i < 8 && slots[i].Entry? && pick(slots[i])
  }

  /** `k` is picked and no picked slot below `n` has a smaller ordinal. */
  predicate OldestBelow(slots: LedgerSlots, pick: HubRecord -> bool, k: nat, n: nat) {
    Picked(slots, pick, k) && forall j :: 0 <= j < n && Picked(slots, pick, j) ==> slots[k].ordinal <= slots[j].ordinal
  }

  lemma {:induction false} OldestIsOldest(slots: LedgerSlots, pick: HubRecord -> bool, i: nat, found: Option<SlotIndex>)
    requires i <= 8
    requires found.Some? ==> OldestBelow(slots, pick, found.value, i)
    requires found.None? ==> forall j :: 0 <= j < i ==> !Picked(slots, pick, j)
    ensures match OldestFrom(slots, pick, i, found)
      case Some(k) => OldestBelow(slots, pick, k, 8)
      case None => forall j :: 0 <= j < 8 ==> !Picked(slots, pick, j)
    decreases 8 - i
  {
    if i < 8 {
      if slots[i].Entry? && pick(slots[i])
         && (found.None? || slots[found.value].Empty? || slots[i].ordinal < slots[found.value].ordinal) {
        OldestIsOldest(slots, pick, i + 1, Some(i));
      } else {
        OldestIsOldest(slots, pick, i + 1, found);
      }
    }
  }

  // ----- specification: operations

  function ValidateAdmission(ids: Ids, e: Event): Option<Admission> {
    if !ValidEndpoints(e.source, e.destination) || e.source != ids.node || e.destination != ids.hub
       || !ValidIdentity(e.identity) then Some(ROUTING_REJECTED)
    else if !RegisteredFamily(e.content.family) then Some(UNSUPPORTED)
    else if !ValidContent(e.content) || !ZeroTail(e.content) then Some(MALFORMED)
    else None
  }

  /** Commit one slot record; a failed write stops the ledger, whatever it left behind. */
  function CommitRecord(f: Fates, h: Ledger, i: SlotIndex, r: HubRecord): Ledger {
    if !ValidHubRecord(r) then h.(healthy := false)
    else
      var fate := f(h.tick);
      h.(slots := if fate.Stored() then h.slots[i := r] else h.slots, healthy := fate == Durable, tick := h.tick + 1)
  }

  /** Reserve the next block of ordinals; a failed write stops further admissions only. */
  function ReserveOrdinals(f: Fates, h: Ledger): Ledger {
    if h.mark > U32_MAX as int - ORDINAL_RESERVATION_BLOCK_SIZE then h.(ordinalReady := false, next := 0, end := 0)
    else
      var fate := f(h.tick);
      var mark := h.mark as int + ORDINAL_RESERVATION_BLOCK_SIZE;
      var g := h.(mark := if fate.Stored() then mark else h.mark, tick := h.tick + 1);
      if fate == Durable then g.(next := h.mark, end := mark) else g.(ordinalReady := false, next := 0, end := 0)
  }

  function AllocateOrdinal(f: Fates, h: Ledger): (Ledger, Option<u32>) {
    if !h.ordinalReady then (h, None)
    else
      var g := if h.next == h.end then ReserveOrdinals(f, h) else h;
      if !g.ordinalReady then (g, None) else (g.(next := Wrap32(g.next + 1)), Some(g.next))
  }

  function NewEntry(e: Event, ordinal: u32): HubRecord {
    Entry(ACTIVE, e.source, e.identity, e.content, ordinal)
  }

  function Admit(f: Fates, h: Ledger, ids: Ids, e: Event): (Ledger, Admission) {
    if !h.healthy then (h, LEDGER_DEGRADED)
    else if ValidateAdmission(ids, e).Some? then (h, ValidateAdmission(ids, e).value)
    else
      match Find(h.slots, e.source, e.identity)
      case Some(k) =>
        (h, if h.slots[k].Entry? && SameCanonical(h.slots[k].content, e.content) then EXACT_DUPLICATE else CONTENT_MISMATCH)
      case None =>
        match Target(h.slots, e)
        case None => (h, NO_CAPACITY)
        case Some(target) => AdmitAt(f, h, e, target)
  }

  function AdmitAt(f: Fates, h: Ledger, e: Event, target: SlotIndex): (Ledger, Admission) {
    var (g, ordinal) := AllocateOrdinal(f, h);
    if ordinal.None? then (g, ADMISSION_NOT_STORED)
    else
      var k := CommitRecord(f, g, target, NewEntry(e, ordinal.value));
      (k, if k.healthy then DURABLE_NEW_ADMISSION else ADMISSION_NOT_STORED)
  }

  function Consume(f: Fates, h: Ledger, source: u8, identity: Identity): (Ledger, Consumption) {
    if !h.healthy then (h, CONSUME_DEGRADED)
    else
      match Find(h.slots, source, identity)
      case None => (h, NOT_FOUND)
      case Some(k) =>
        if h.slots[k].Tombstone() then (h, ALREADY_CONSUMED)
        else if h.slots[k].Empty? then (h, NOT_FOUND)
        else
          var g := CommitRecord(f, h, k, h.slots[k].(delivery := CONSUMED));
          (g, if g.healthy then CONSUMED_NOW else CONSUMPTION_NOT_STORED)
  }

  predicate DistinctEntries(slots: LedgerSlots) {
    forall i, j :: 0 <= i < j < 8 && slots[i].Entry? && slots[j].Entry? ==>
      && !(slots[i].source == slots[j].source && slots[i].identity == slots[j].identity)
      && slots[i].ordinal != slots[j].ordinal
  }

  /** Recovery when every slot and the metadata have one authoritative copy. */
  function Recover(h: Ledger, ids: Ids): Ledger {
    if !ValidEndpoints(ids.hub, ids.node) || !DistinctEntries(h.slots)
    then h.(healthy := false, ordinalReady := false, next := 0, end := 0)
    else if !ValidHighWater(h.mark) then h.(healthy := true, ordinalReady := false, next := 0, end := 0)
    else h.(healthy := true, ordinalReady := true, next := h.mark, end := h.mark)
  }

  // ----- what every operation keeps

  function Frontier(h: Ledger): u32 {
    if h.ordinalReady then h.next else h.mark
  }

  /**
   Entries are valid, come from the configured Node, have pairwise distinct
   identities and ordinals, and every ordinal is below the next one to be issued.
   */
  predicate EntriesInv(slots: LedgerSlots, ids: Ids, frontier: u32) {
    && DistinctEntries(slots)
    && forall i :: 0 <= i < 8 && slots[i].Entry? ==>
         ValidHubRecord(slots[i]) && slots[i].source == ids.node && slots[i].ordinal < frontier
  }

  predicate LedgerInv(h: Ledger, ids: Ids) {
    match h
    case Ledger(slots, mark, next, end, ordinalReady, _, _) =>
      && ValidHighWater(mark)
      && (ordinalReady ==> end == mark && 1 <= next <= end)
      && EntriesInv(slots, ids, Frontier(h))
  }

  lemma AllocateOrdinalStep(f: Fates, h: Ledger, ids: Ids)
    requires LedgerInv(h, ids)
    ensures var (g, ordinal) := AllocateOrdinal(f, h);
      && LedgerInv(g, ids) && g.slots == h.slots && g.healthy == h.healthy
      && Frontier(h) <= Frontier(g)
      && (ordinal.Some? ==>
            && h.ordinalReady && g.ordinalReady && 0 < ordinal.value
            && Frontier(h) <= ordinal.value < Frontier(g))
      && (h.ordinalReady && f(h.tick) == Durable ==>
            (ordinal.None? <==> h.next == h.end && h.mark > U32_MAX as int - ORDINAL_RESERVATION_BLOCK_SIZE))
  {
  }

  /** A slot an admission may take: empty, or a tombstone of an earlier identity. */
  predicate Available(slots: LedgerSlots, e: Event, i: SlotIndex) {
    slots[i].Empty? || (slots[i].Tombstone() && IncomingLater(e, slots[i]))
  }

  /**
   An admission takes the first empty slot, or else the available tombstone with
   the least ordinal, and finds none only when no slot is available.
   */
  lemma TargetAvailable(slots: LedgerSlots, e: Event)
    ensures match Target(slots, e)
      case Some(i) =>
        && Available(slots, e, i)
        && (forall j :: 0 <= j < 8 && slots[j].Empty? ==> slots[i].Empty? && i <= j)
        && (slots[i].Tombstone() ==>
              forall j: SlotIndex :: slots[j].Tombstone() && Available(slots, e, j) ==> slots[i].ordinal <= slots[j].ordinal)
      case None => forall i: SlotIndex :: !Available(slots, e, i)
  {
    FirstEmptyIsFirst(slots, 0);
    var pick := (r: HubRecord) => r.Tombstone() && IncomingLater(e, r);
    OldestIsOldest(slots, pick, 0, None);
    assert forall i: SlotIndex :: Picked(slots, pick, i) <==> slots[i].Tombstone() && IncomingLater(e, slots[i]);
  }

  /** The slots gained one ACTIVE entry for `e`, in a slot no ACTIVE entry occupied. */
  predicate AdmittedInto(h: Ledger, g: Ledger, e: Event, i: SlotIndex, ordinal: u32) {
    && Available(h.slots, e, i) && Frontier(h) <= ordinal < Frontier(g)
    && (forall j :: 0 <= j < 8 ==> !Owns(h.slots[j], e.source, e.identity))
    && g.slots == h.slots[i := NewEntry(e, ordinal)]
  }

  predicate AdmittedSomewhere(h: Ledger, g: Ledger, e: Event) {
    exists i: SlotIndex, ordinal: u32 :: AdmittedInto(h, g, e, i, ordinal)
  }

  lemma AdmitStep(f: Fates, h: Ledger, ids: Ids, e: Event)
    requires LedgerInv(h, ids)
    ensures var (g, status) := Admit(f, h, ids, e);
      && LedgerInv(g, ids)
      && (g.slots == h.slots || (AdmittedSomewhere(h, g, e) && ValidateAdmission(ids, e).None?))
      && (status == DURABLE_NEW_ADMISSION ==> h.healthy && g.healthy && AdmittedSomewhere(h, g, e))
      && (status == EXACT_DUPLICATE ==>
            g == h && exists i: SlotIndex :: Owns(h.slots[i], e.source, e.identity) && h.slots[i].content == e.content)
      && (h.healthy && ValidateAdmission(ids, e).None? && g.healthy && status == NO_CAPACITY ==>
            forall i: SlotIndex :: !Available(h.slots, e, i))
  {
    if h.healthy && ValidateAdmission(ids, e).None? {
      FindFinds(h.slots, e.source, e.identity, 0);
      match Find(h.slots, e.source, e.identity)
      case Some(k) => SameCanonicalIsEquality(h.slots[k].content, e.content);
      case None =>
        TargetAvailable(h.slots, e);
        if Target(h.slots, e).Some? {
          AdmitAtStep(f, h, ids, e, Target(h.slots, e).value);
        }
    }
  }

  /** Some slot owns the Event's identity, with the same or with other content. */
  predicate OwnsContent(slots: LedgerSlots, e: Event, same: bool) {
    exists i: SlotIndex :: Owns(slots[i], e.source, e.identity) && (same <==> slots[i].content == e.content)
  }

  predicate Unowned(slots: LedgerSlots, e: Event) {
    forall i: SlotIndex :: !Owns(slots[i], e.source, e.identity)
  }

  predicate Room(slots: LedgerSlots, e: Event) {
    exists i: SlotIndex :: Available(slots, e, i)
  }

  /**
   What an admission answers, decided by the slots alone: a duplicate, a mismatch
   and a full ledger are told apart exactly, and none of them changes anything;
   only an unowned Event with an available slot is written.
   */
  lemma AdmissionDecided(f: Fates, h: Ledger, ids: Ids, e: Event)
    requires LedgerInv(h, ids)
    ensures var (g, status) := Admit(f, h, ids, e);
      && (status == LEDGER_DEGRADED <==> !h.healthy)
      && (h.healthy && ValidateAdmission(ids, e).Some? ==> status == ValidateAdmission(ids, e).value)
      && (h.healthy && ValidateAdmission(ids, e).None? ==>
            && (status == EXACT_DUPLICATE <==> OwnsContent(h.slots, e, true))
            && (status == CONTENT_MISMATCH <==> OwnsContent(h.slots, e, false))
            && (status == NO_CAPACITY <==> Unowned(h.slots, e) && !Room(h.slots, e))
            && (status == DURABLE_NEW_ADMISSION || status == ADMISSION_NOT_STORED <==>
                  Unowned(h.slots, e) && Room(h.slots, e)))
      && (status != DURABLE_NEW_ADMISSION && status != ADMISSION_NOT_STORED ==> g == h)
  {
    if h.healthy && ValidateAdmission(ids, e).None? {
      FindFinds(h.slots, e.source, e.identity, 0);
      TargetAvailable(h.slots, e);
      if Find(h.slots, e.source, e.identity).Some? {
        OwnerDecides(h, ids, e, Find(h.slots, e.source, e.identity).value);
      } else {
        assert Unowned(h.slots, e) && !OwnsContent(h.slots, e, true) && !OwnsContent(h.slots, e, false);
        if Target(h.slots, e).Some? {
          assert Room(h.slots, e);
        }
      }
    }
    hide FindFrom, Target, AllocateOrdinal, CommitRecord, SameCanonical, LedgerInv, Owns, Available, Unowned, Room,
      OwnsContent, ValidateAdmission;
  }

  lemma OwnerDecides(h: Ledger, ids: Ids, e: Event, k: SlotIndex)
    requires LedgerInv(h, ids) && Owns(h.slots[k], e.source, e.identity)
    requires ValidateAdmission(ids, e).None?
    ensures !Unowned(h.slots, e) && h.slots[k].Entry?
    ensures OwnsContent(h.slots, e, true) <==> SameCanonical(h.slots[k].content, e.content)
    ensures OwnsContent(h.slots, e, false) <==> !SameCanonical(h.slots[k].content, e.content)
  {
    SameCanonicalIsEquality(h.slots[k].content, e.content);
    hide SameCanonical;
    assert forall j: SlotIndex :: Owns(h.slots[j], e.source, e.identity) ==> j == k;
  }

  lemma AdmitAtStep(f: Fates, h: Ledger, ids: Ids, e: Event, target: SlotIndex)
    requires LedgerInv(h, ids) && h.healthy && ValidateAdmission(ids, e).None?
    requires Available(h.slots, e, target)
    requires forall j :: 0 <= j < 8 ==> !Owns(h.slots[j], e.source, e.identity)
    ensures var (g, status) := AdmitAt(f, h, e, target);
      && LedgerInv(g, ids)
      && (g.slots == h.slots || AdmittedSomewhere(h, g, e))
      && (status == DURABLE_NEW_ADMISSION || status == ADMISSION_NOT_STORED)
      && (status == DURABLE_NEW_ADMISSION ==> g.healthy && AdmittedSomewhere(h, g, e))
  {
    AllocateOrdinalStep(f, h, ids);
    var (g, ordinal) := AllocateOrdinal(f, h);
    if ordinal.Some? {
      var r := NewEntry(e, ordinal.value);
      var k := CommitRecord(f, g, target, r);
      if k.slots == h.slots[target := r] {
        assert AdmittedInto(h, k, e, target, ordinal.value);
        assert EntriesInv(k.slots, ids, Frontier(k));
      }
    }
  }

  /** Consumption turns one ACTIVE entry into a tombstone of the same Event. */
  predicate ConsumedAt(h: Ledger, g: Ledger, source: u8, identity: Identity, i: SlotIndex) {
    && h.slots[i].Active() && Owns(h.slots[i], source, identity)
    && g.slots == h.slots[i := h.slots[i].(delivery := CONSUMED)]
  }

  lemma ConsumeStep(f: Fates, h: Ledger, ids: Ids, source: u8, identity: Identity)
    requires LedgerInv(h, ids)
    ensures var (g, status) := Consume(f, h, source, identity);
      && LedgerInv(g, ids)
      && (g.slots == h.slots || exists i: SlotIndex :: ConsumedAt(h, g, source, identity, i))
      && (status == CONSUMED_NOW ==> g.healthy && exists i: SlotIndex :: ConsumedAt(h, g, source, identity, i))
      && (status == ALREADY_CONSUMED ==> exists i: SlotIndex :: h.slots[i].Tombstone() && Owns(h.slots[i], source, identity))
      && (status == NOT_FOUND <==> h.healthy && forall i: SlotIndex :: !Owns(h.slots[i], source, identity))
      && g.mark == h.mark && Frontier(g) == Frontier(h)
  {
    if h.healthy {
      FindFinds(h.slots, source, identity, 0);
      if Find(h.slots, source, identity).Some? {
        var k := Find(h.slots, source, identity).value;
        if h.slots[k].Active() {
          var g := Consume(f, h, source, identity).0;
          assert g.slots != h.slots ==> ConsumedAt(h, g, source, identity, k);
          assert f(h.tick) == Durable ==> ConsumedAt(h, g, source, identity, k);
          assert EntriesInv(g.slots, ids, Frontier(g));
        }
      }
    }
  }

  /** What a consumption answers, decided by the slots alone; an ACTIVE entry is consumed unless its write fails. */
  lemma ConsumptionDecided(f: Fates, h: Ledger, ids: Ids, source: u8, identity: Identity)
    requires LedgerInv(h, ids)
    ensures var (g, status) := Consume(f, h, source, identity);
      && (status == CONSUME_DEGRADED <==> !h.healthy)
      && (status == CONSUMED_NOW || status == CONSUMPTION_NOT_STORED <==>
            h.healthy && exists i: SlotIndex :: h.slots[i].Active() && Owns(h.slots[i], source, identity))
      && (status == CONSUMPTION_NOT_STORED ==> f(h.tick) != Durable)
      && (status == ALREADY_CONSUMED <==>
            h.healthy && exists i: SlotIndex :: h.slots[i].Tombstone() && Owns(h.slots[i], source, identity))
      && (status != CONSUMED_NOW && status != CONSUMPTION_NOT_STORED ==> g == h)
  {
    FindFinds(h.slots, source, identity, 0);
    if Find(h.slots, source, identity).Some? {
      var k := Find(h.slots, source, identity).value;
      assert forall j: SlotIndex :: Owns(h.slots[j], source, identity) ==> j == k;
      if h.slots[k].Active() {
        assert ValidHubRecord(h.slots[k].(delivery := CONSUMED));
      }
    }
    hide FindFrom, LedgerInv, ValidHubRecord;
  }

  /** On every reachable durable state recovery succeeds and resumes past everything reserved. */
  lemma RecoverStep(h: Ledger, ids: Ids)
    requires LedgerInv(h, ids) && ValidEndpoints(ids.hub, ids.node)
    ensures LedgerInv(Recover(h, ids), ids)
    ensures Recover(h, ids) == h.(healthy := true, ordinalReady := true, next := h.mark, end := h.mark)
    ensures Frontier(h) <= Frontier(Recover(h, ids))
  {
  }
}
