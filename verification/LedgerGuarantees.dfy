/**
 What the Hub ledger guarantees over every run of admissions, consumptions,
 write failures and reboots, and in which order a Host drains it.
 */
module LedgerGuarantees {
  import opened Words
  import opened EventStorage
  import opened EventProtocol
  import opened EventRecords
  import opened HubEventLedger
  import opened HubEventRadio

  // ----- runs

  datatype LedgerOp = AdmitEvent(e: Event) | ConsumeIdentity(source: u8, identity: Identity) | Restart

  /** A ledger with the ordinals and the identities of its reported admissions, oldest first. */
  datatype LedgerRun = LedgerRun(ledger: Ledger, ordinals: seq<u32>, admitted: seq<Identity>)

  function OrdinalOf(h: Ledger, e: Event): u32 {
    match Find(h.slots, e.source, e.identity)
    case None => 0
    case Some(k) => if h.slots[k].Entry? then h.slots[k].ordinal else 0
  }

  function LedgerStep(f: Fates, ids: Ids, r: LedgerRun, op: LedgerOp): LedgerRun {
    match op
    case AdmitEvent(e) =>
      var (g, status) := Admit(f, r.ledger, ids, e);
      if status == DURABLE_NEW_ADMISSION then LedgerRun(g, r.ordinals + [OrdinalOf(g, e)], r.admitted + [e.identity])
      else r.(ledger := g)
    case ConsumeIdentity(source, identity) => r.(ledger := Consume(f, r.ledger, source, identity).0)
    case Restart => r.(ledger := Recover(r.ledger, ids))
  }

  function RunLedger(f: Fates, ids: Ids, h: Ledger, ops: seq<LedgerOp>): LedgerRun
    decreases |ops|
  {
    if ops == [] then LedgerRun(h, [], [])
    else LedgerStep(f, ids, RunLedger(f, ids, h, ops[..|ops| - 1]), ops[|ops| - 1])
  }

  lemma AdmittedOrdinal(h: Ledger, g: Ledger, e: Event, ids: Ids)
    requires LedgerInv(g, ids) && AdmittedSomewhere(h, g, e)
    ensures Frontier(h) <= OrdinalOf(g, e) < Frontier(g)
  {
    var i: SlotIndex, ordinal: u32 :| AdmittedInto(h, g, e, i, ordinal);
    assert g.slots[i] == NewEntry(e, ordinal);
    FindFinds(g.slots, e.source, e.identity, 0);
    var k := Find(g.slots, e.source, e.identity).value;
    assert k == i;
  }

  lemma FrontierNeverFalls(f: Fates, ids: Ids, h: Ledger, e: Event)
    requires LedgerInv(h, ids)
    ensures Frontier(h) <= Frontier(Admit(f, h, ids, e).0)
  {
    if h.healthy && ValidateAdmission(ids, e).None? && Find(h.slots, e.source, e.identity).None?
       && Target(h.slots, e).Some? {
      AllocateOrdinalStep(f, h, ids);
    }
  }

  /**
   Over every run, including failed and torn writes and reboots: owned
   identities and ordinals stay pairwise distinct and below the reserved mark,
   and the ordinals of successive admissions strictly increase.
   */
  lemma {:induction false} AdmissionOrderIsOrdinalOrder(f: Fates, ids: Ids, h: Ledger, ops: seq<LedgerOp>)
    requires LedgerInv(h, ids) && ValidEndpoints(ids.hub, ids.node)
    ensures var r := RunLedger(f, ids, h, ops);
      && LedgerInv(r.ledger, ids)
      && (forall j, k :: 0 <= j < k < |r.ordinals| ==> r.ordinals[j] < r.ordinals[k])
      && (forall k :: 0 <= k < |r.ordinals| ==> r.ordinals[k] < Frontier(r.ledger))
      && Frontier(r.ledger) <= r.ledger.mark
    decreases |ops|
  {
    hide Admit, Consume, Recover, OrdinalOf, ValidateAdmission;
    if ops != [] {
      AdmissionOrderIsOrdinalOrder(f, ids, h, ops[..|ops| - 1]);
      var r := RunLedger(f, ids, h, ops[..|ops| - 1]);
      match ops[|ops| - 1]
      case AdmitEvent(e) =>
        AdmitStep(f, r.ledger, ids, e);
        FrontierNeverFalls(f, ids, r.ledger, e);
        if Admit(f, r.ledger, ids, e).1 == DURABLE_NEW_ADMISSION {
          AdmittedOrdinal(r.ledger, Admit(f, r.ledger, ids, e).0, e, ids);
        }
      case ConsumeIdentity(source, identity) =>
        ConsumeStep(f, r.ledger, ids, source, identity);
      case Restart =>
        RecoverStep(r.ledger, ids);
    }
  }

  /** No operation overwrites an ACTIVE record: it stays, or becomes the tombstone of the same Event. */
  lemma ActiveIsNeverOverwritten(f: Fates, ids: Ids, h: Ledger, ops: seq<LedgerOp>, op: LedgerOp, i: SlotIndex)
    requires LedgerInv(h, ids) && ValidEndpoints(ids.hub, ids.node)
    ensures var before := RunLedger(f, ids, h, ops).ledger.slots[i];
      var after := RunLedger(f, ids, h, ops + [op]).ledger.slots[i];
      before.Active() ==>
        || after == before
        || (after == before.(delivery := CONSUMED) && op == ConsumeIdentity(before.source, before.identity))
  {
    hide Admit, Consume, Recover, LedgerInv, OrdinalOf;
    AdmissionOrderIsOrdinalOrder(f, ids, h, ops);
    var r := RunLedger(f, ids, h, ops);
    assert (ops + [op])[..|ops|] == ops;
    assert RunLedger(f, ids, h, ops + [op]) == LedgerStep(f, ids, r, op);
    match op
    case AdmitEvent(e) =>
      AdmitStep(f, r.ledger, ids, e);
      var g := Admit(f, r.ledger, ids, e).0;
      if g.slots != r.ledger.slots {
        var j: SlotIndex, ordinal: u32 :| AdmittedInto(r.ledger, g, e, j, ordinal);
      }
    case ConsumeIdentity(source, identity) =>
      ConsumeStep(f, r.ledger, ids, source, identity);
      var g := Consume(f, r.ledger, source, identity).0;
      if g.slots != r.ledger.slots {
        var j: SlotIndex :| ConsumedAt(r.ledger, g, source, identity, j);
      }
    case Restart =>
      RecoverStep(r.ledger, ids);
  }

  // ----- draining

  /** Consuming an ACTIVE entry by its own identity, on storage that works. */
  lemma ConsumeActive(f: Fates, h: Ledger, ids: Ids, k: SlotIndex)
    requires LedgerInv(h, ids) && h.healthy && h.slots[k].Active() && f(h.tick) == Durable
    ensures var (g, status) := Consume(f, h, h.slots[k].source, h.slots[k].identity);
      && status == CONSUMED_NOW && g.healthy && LedgerInv(g, ids) && g.tick == h.tick + 1
      && g.slots == h.slots[k := h.slots[k].(delivery := CONSUMED)]
      && ActiveCount(g) == ActiveCount(h) - 1
  {
    ConsumeStep(f, h, ids, h.slots[k].source, h.slots[k].identity);
    FindFinds(h.slots, h.slots[k].source, h.slots[k].identity, 0);
    CountAfterUpdate(h.slots, 0, k, h.slots[k].(delivery := CONSUMED));
  }

  predicate Works(f: Fates, from: nat, writes: nat) {
    forall t :: from <= t < from + writes ==> f(t) == Durable
  }

  /** Poll and consume until nothing is ACTIVE; the number of ACTIVE entries is the measure. */
  function Drain(f: Fates, h: Ledger, ids: Ids): (Ledger, seq<HubRecord>)
    requires LedgerInv(h, ids) && h.healthy && Works(f, h.tick, ActiveCount(h))
    decreases ActiveCount(h)
  {
    match OldestActive(h.slots)
    case None => (h, [])
    case Some(k) =>
      OldestActiveFacts(h.slots);
      ActiveIsCounted(h.slots, k, 0);
      ConsumeActive(f, h, ids, k);
      var (g, rest) := Drain(f, Consume(f, h, h.slots[k].source, h.slots[k].identity).0, ids);
      (g, [h.slots[k]] + rest)
  }

  lemma OldestActiveFacts(slots: LedgerSlots)
    ensures match OldestActive(slots)
      case Some(k) => slots[k].Active() && forall j :: 0 <= j < 8 && slots[j].Active() ==> slots[k].ordinal <= slots[j].ordinal
      case None => forall j :: 0 <= j < 8 ==> !slots[j].Active()
  {
    var pick := (r: HubRecord) => r.Active();
    OldestIsOldest(slots, pick, 0, None);
    assert forall j :: 0 <= j < 8 && slots[j].Active() ==> Picked(slots, pick, j);
  }

  lemma {:induction false} ActiveIsCounted(slots: LedgerSlots, k: SlotIndex, i: nat)
    requires i <= k && slots[k].Active()
    ensures ActiveCountFrom(slots, i) > 0
    decreases 8 - i
  {
    if i < k {
      ActiveIsCounted(slots, k, i + 1);
    }
  }

  lemma {:induction false} NoneCounted(slots: LedgerSlots, i: nat)
    requires i <= 8 && forall j :: i <= j < 8 ==> !slots[j].Active()
    ensures ActiveCountFrom(slots, i) == 0
    decreases 8 - i
  {
    if i < 8 {
      NoneCounted(slots, i + 1);
    }
  }

  /** Removing one entry from the ACTIVE ones. */
  lemma ActiveAfterConsumption(slots: LedgerSlots, k: SlotIndex, r: HubRecord)
    requires DistinctEntries(slots) && slots[k].Active()
    ensures var after := slots[k := slots[k].(delivery := CONSUMED)];
      (r.Active() && r in slots) <==> (r == slots[k] || (r.Active() && r in after))
    ensures var after := slots[k := slots[k].(delivery := CONSUMED)]; r.Active() && r in after ==> r.ordinal != slots[k].ordinal
  {
    var after := slots[k := slots[k].(delivery := CONSUMED)];
    if r.Active() && r in after {
      var i :| 0 <= i < 8 && after[i] == r;
      assert slots[i] == r && i != k;
    }
    if r.Active() && r in slots {
      var i :| 0 <= i < 8 && slots[i] == r;
      assert i != k ==> after[i] == r;
    }
  }

  /** The oldest ACTIVE entry followed by a correct drain of the rest is a correct drain of all. */
  lemma PrependOldest(slots: LedgerSlots, k: SlotIndex, rest: seq<HubRecord>)
    requires DistinctEntries(slots) && slots[k].Active()
    requires forall j :: 0 <= j < 8 && slots[j].Active() ==> slots[k].ordinal <= slots[j].ordinal
    requires InDrainOrder(slots[k := slots[k].(delivery := CONSUMED)], rest)
    ensures InDrainOrder(slots, [slots[k]] + rest)
  {
    var all := [slots[k]] + rest;
    forall r ensures r in all <==> r.Active() && r in slots {
      ActiveAfterConsumption(slots, k, r);
    }
    forall j | 0 <= j < |rest| ensures rest[j].Entry? && slots[k].ordinal < rest[j].ordinal {
      assert rest[j] in rest;
      ActiveAfterConsumption(slots, k, rest[j]);
    }
    forall j, l | 0 <= j < l < |all| ensures all[j].Entry? && all[l].Entry? && all[j].ordinal < all[l].ordinal {
      assert all[l] == rest[l - 1];
      if j > 0 {
        assert all[j] == rest[j - 1];
      }
    }
  }

  /** Exactly the ACTIVE entries, in strictly ascending admission ordinal. */
  ghost predicate InDrainOrder(slots: LedgerSlots, drained: seq<HubRecord>) {
    && (forall r :: r in drained <==> r.Active() && r in slots)
    && (forall j, k :: 0 <= j < k < |drained| ==>
          drained[j].Entry? && drained[k].Entry? && drained[j].ordinal < drained[k].ordinal)
  }

  lemma NothingToDrain(slots: LedgerSlots)
    requires forall j :: 0 <= j < 8 ==> !slots[j].Active()
    ensures InDrainOrder(slots, [])
  {
  }

  lemma InvIsDistinct(h: Ledger, ids: Ids)
    requires LedgerInv(h, ids)
    ensures DistinctEntries(h.slots)
  {
  }

  /**
   Draining returns exactly the ACTIVE entries, in strictly ascending admission
   ordinal, one per unit of the active count, and leaves none ACTIVE.
   */
  lemma {:induction false} DrainIsInAdmissionOrder(f: Fates, h: Ledger, ids: Ids)
    requires LedgerInv(h, ids) && h.healthy && Works(f, h.tick, ActiveCount(h))
    ensures var (g, drained) := Drain(f, h, ids);
      ActiveCount(g) == 0 && |drained| == ActiveCount(h) && InDrainOrder(h.slots, drained)
    decreases ActiveCount(h)
  {
    hide LedgerInv, Consume, OldestActive, InDrainOrder, DistinctEntries;
    OldestActiveFacts(h.slots);
    match OldestActive(h.slots)
    case None =>
      NoneCounted(h.slots, 0);
      NothingToDrain(h.slots);
    case Some(k) =>
      ActiveIsCounted(h.slots, k, 0);
      ConsumeActive(f, h, ids, k);
      var next := Consume(f, h, h.slots[k].source, h.slots[k].identity).0;
      DrainIsInAdmissionOrder(f, next, ids);
      InvIsDistinct(h, ids);
      PrependOldest(h.slots, k, Drain(f, next, ids).1);
  }

  // ----- order of arrival matters

  /** An ordinal can be issued without exhausting the ordinals. */
  predicate Ready(h: Ledger) {
    && h.healthy && h.ordinalReady
    && (h.next == h.end ==> h.mark <= U32_MAX as int - ORDINAL_RESERVATION_BLOCK_SIZE)
  }

  /** One write for the record, and one more before it when the block of ordinals is spent. */
  function AdmissionWrites(h: Ledger): nat {
    if h.next == h.end then 2 else 1
  }

  /** The ledger after admitting `e` into slot `i`: the record takes the next ordinal, from a new block if need be. */
  function AfterAdmission(h: Ledger, e: Event, i: SlotIndex): Ledger {
    var mark := if h.next == h.end then Wrap32(h.mark + ORDINAL_RESERVATION_BLOCK_SIZE) else h.mark;
    h.(slots := h.slots[i := NewEntry(e, h.next)], mark := mark, next := Wrap32(h.next + 1), end := mark,
       tick := h.tick + AdmissionWrites(h))
  }

  lemma AdmitsInto(f: Fates, h: Ledger, ids: Ids, e: Event, target: SlotIndex)
    requires LedgerInv(h, ids) && Ready(h) && DurableRun(f, h.tick, AdmissionWrites(h)) && ValidateAdmission(ids, e).None?
    ensures AdmitAt(f, h, e, target) == (AfterAdmission(h, e, target), DURABLE_NEW_ADMISSION)
  {
    hide ValidContent, DistinctEntries;
    assert f(h.tick) == Durable && (h.next == h.end ==> f(h.tick + 1) == Durable);
  }

  /**
   With a ready ledger and working writes, also right after recovery or a spent
   block: a valid Event is newly admitted exactly when no slot owns its identity
   and some slot is empty or holds the tombstone of an earlier identity; it takes
   the reported target and the next ordinal.
   */
  lemma AdmissionCondition(f: Fates, h: Ledger, ids: Ids, e: Event)
    requires LedgerInv(h, ids) && Ready(h) && DurableRun(f, h.tick, AdmissionWrites(h))
    requires ValidateAdmission(ids, e).None?
    ensures Admit(f, h, ids, e).1 == DURABLE_NEW_ADMISSION
       <==> (forall i: SlotIndex :: !Owns(h.slots[i], e.source, e.identity)) && exists i: SlotIndex :: Available(h.slots, e, i)
    ensures Admit(f, h, ids, e).1 == DURABLE_NEW_ADMISSION ==>
      && Target(h.slots, e).Some?
      && Admit(f, h, ids, e).0 == AfterAdmission(h, e, Target(h.slots, e).value)
  {
    FindFinds(h.slots, e.source, e.identity, 0);
    TargetAvailable(h.slots, e);
    if Target(h.slots, e).Some? {
      AdmitsInto(f, h, ids, e, Target(h.slots, e).value);
    }
    hide ValidateAdmission, SameCanonical, Target, FindFrom, AdmitAt, LedgerInv, AfterAdmission;
  }

  /**
   With a ready ledger and working writes every Event of the Node that arrives is
   answered: ADMITTED exactly when it is already owned with equal content or is
   unowned and has room.
   */
  lemma EveryEventIsAnswered(f: Fates, h: Ledger, ids: Ids, bytes: seq<u8>, e: Event)
    requires LedgerInv(h, ids) && Ready(h) && DurableRun(f, h.tick, AdmissionWrites(h)) && ValidEndpoints(ids.node, ids.hub)
    requires DecodeEvent(bytes) == Some(e) && e.source == ids.node && e.destination == ids.hub
    ensures var out := Process(f, h, ids, bytes).1;
      && out.StartEventAck?
      && (Acknowledges(out, e, ADMITTED) <==>
            OwnsContent(h.slots, e, true) || (Unowned(h.slots, e) && Room(h.slots, e)))
      && (Acknowledges(out, e, CAPACITY) <==> Unowned(h.slots, e) && !Room(h.slots, e))
  {
    AdapterAgreesWithDecoder(ids, bytes, e);
    assert AdmitCandidate(ids, bytes) == Some(e);
    hide DecodeEvent, LedgerInv, Process, ValidEvent, Admit, ValidateAdmission, DecodeAdmissionResponse;
    AnswersSayWhatHappened(f, h, ids, bytes);
    AdmissionDecided(f, h, ids, e);
    AdmissionCondition(f, h, ids, e);
    hide OwnsContent, Room, Unowned;
  }

  const SAMPLE := Content(BUTTON, 0, 60, 1, [1, 0, 0, 0, 0, 0, 0, 0, 0, 0, 0, 0])
  const SAMPLE_IDS := Ids(1, 2)

  function Sample(id: u32): Event {
    Event(2, 1, 0, Identity(1, id), SAMPLE)
  }

  function SampleEntry(delivery: Delivery, id: u32, ordinal: u32): HubRecord {
    Entry(delivery, 2, Identity(1, id), SAMPLE, ordinal)
  }

  lemma SampleIsValid(id: u32)
    requires id != 0
    ensures ValidateAdmission(SAMPLE_IDS, Sample(id)).None? && ValidContent(SAMPLE) && ZeroTail(SAMPLE)
  {
  }

  /** The ledger a completed first boot leaves. */
  const NEW_LEDGER := Ledger([Empty, Empty, Empty, Empty, Empty, Empty, Empty, Empty], 1, 1, 1, true, true, 0)

  /** Identity 2 arrives before identity 1, the others in order. */
  const ARRIVALS: seq<u32> := [2, 1, 3, 4, 5, 6, 7, 8]

  /** The ledger after the first `n` arrivals. */
  function Arrived(n: nat): Ledger
    requires n <= 8
  {
    Ledger(seq(8, i requires 0 <= i < 8 => if i < n then SampleEntry(ACTIVE, ARRIVALS[i], i + 1) else Empty),
           if n == 0 then 1 else 33, n + 1, if n == 0 then 1 else 33, true, true, if n == 0 then 0 else n + 1)
  }

  lemma NewLedgerInv()
    ensures Arrived(0) == NEW_LEDGER && LedgerInv(NEW_LEDGER, SAMPLE_IDS)
  {
    assert Arrived(0).slots == NEW_LEDGER.slots;
  }

  lemma ArrivalTarget(n: nat)
    requires n < 8
    ensures Target(Arrived(n).slots, Sample(ARRIVALS[n])) == Some(n)
  {
    FirstEmptyIsFirst(Arrived(n).slots, 0);
    assert Arrived(n).slots[n].Empty?;
  }

  lemma ArrivalIsNew(n: nat)
    requires n < 8
    ensures forall i: SlotIndex :: !Owns(Arrived(n).slots[i], 2, Identity(1, ARRIVALS[n]))
    ensures Available(Arrived(n).slots, Sample(ARRIVALS[n]), n)
    ensures Ready(Arrived(n)) && Arrived(n).tick + AdmissionWrites(Arrived(n)) <= 13
  {
    assert forall i :: 0 <= i < n ==> ARRIVALS[i] != ARRIVALS[n];
  }

  lemma ArrivalAfter(n: nat)
    requires n < 8
    ensures AfterAdmission(Arrived(n), Sample(ARRIVALS[n]), n) == Arrived(n + 1)
  {
    assert AfterAdmission(Arrived(n), Sample(ARRIVALS[n]), n).slots == Arrived(n + 1).slots;
  }

  lemma ArrivalStep(f: Fates, n: nat)
    requires n < 8 && DurableRun(f, 0, 13) && LedgerInv(Arrived(n), SAMPLE_IDS)
    ensures Admit(f, Arrived(n), SAMPLE_IDS, Sample(ARRIVALS[n])) == (Arrived(n + 1), DURABLE_NEW_ADMISSION)
    ensures LedgerInv(Arrived(n + 1), SAMPLE_IDS)
  {
    SampleIsValid(ARRIVALS[n]);
    ArrivalTarget(n);
    ArrivalIsNew(n);
    ArrivalAfter(n);
    hide Target, LedgerInv, ValidateAdmission, Admit, Arrived, AfterAdmission, Ready, Available, Owns, AdmissionWrites;
    AdmissionCondition(f, Arrived(n), SAMPLE_IDS, Sample(ARRIVALS[n]));
    AdmitStep(f, Arrived(n), SAMPLE_IDS, Sample(ARRIVALS[n]));
  }

  function Admissions(ids: seq<u32>): seq<LedgerOp> {
    seq(|ids|, i requires 0 <= i < |ids| => AdmitEvent(Sample(ids[i])))
  }

  function Identities(ids: seq<u32>): seq<Identity> {
    seq(|ids|, i requires 0 <= i < |ids| => Identity(1, ids[i]))
  }

  lemma LedgerSnoc(f: Fates, ops: seq<LedgerOp>, op: LedgerOp)
    ensures RunLedger(f, SAMPLE_IDS, NEW_LEDGER, ops + [op])
         == LedgerStep(f, SAMPLE_IDS, RunLedger(f, SAMPLE_IDS, NEW_LEDGER, ops), op)
  {
    hide LedgerStep;
    assert (ops + [op])[..|ops|] == ops;
  }

  lemma StepAdmits(f: Fates, r: LedgerRun, e: Event)
    requires Admit(f, r.ledger, SAMPLE_IDS, e).1 == DURABLE_NEW_ADMISSION
    ensures var q := LedgerStep(f, SAMPLE_IDS, r, AdmitEvent(e));
      q.ledger == Admit(f, r.ledger, SAMPLE_IDS, e).0 && q.admitted == r.admitted + [e.identity]
  {
    hide Admit, OrdinalOf;
  }

  lemma StepConsumes(f: Fates, r: LedgerRun, source: u8, identity: Identity)
    ensures var q := LedgerStep(f, SAMPLE_IDS, r, ConsumeIdentity(source, identity));
      q.ledger == Consume(f, r.ledger, source, identity).0 && q.admitted == r.admitted
  {
    hide Consume;
  }

  lemma MoreArrivals(n: nat)
    requires 0 < n <= 8
    ensures Admissions(ARRIVALS[..n]) == Admissions(ARRIVALS[..n - 1]) + [AdmitEvent(Sample(ARRIVALS[n - 1]))]
    ensures Identities(ARRIVALS[..n]) == Identities(ARRIVALS[..n - 1]) + [Identity(1, ARRIVALS[n - 1])]
  {
  }

  lemma {:induction false} ArrivalsRun(f: Fates, n: nat)
    requires n <= 8 && DurableRun(f, 0, 13)
    ensures LedgerInv(Arrived(n), SAMPLE_IDS)
    ensures var r := RunLedger(f, SAMPLE_IDS, NEW_LEDGER, Admissions(ARRIVALS[..n]));
      r.ledger == Arrived(n) && r.admitted == Identities(ARRIVALS[..n])
  {
    NewLedgerInv();
    if n > 0 {
      ArrivalsRun(f, n - 1);
      ArrivalStep(f, n - 1);
      MoreArrivals(n);
      var e := Sample(ARRIVALS[n - 1]);
      LedgerSnoc(f, Admissions(ARRIVALS[..n - 1]), AdmitEvent(e));
      StepAdmits(f, RunLedger(f, SAMPLE_IDS, NEW_LEDGER, Admissions(ARRIVALS[..n - 1])), e);
      hide Admit, Arrived, LedgerInv, RunLedger, LedgerStep, Admissions, Identities;
    }
  }

  /** The full ledger after the first `n` of identities 2 and 1 are consumed. */
  function Shuffled(n: nat): Ledger
    requires n <= 2
  {
    var h := Arrived(8);
    var first := if n >= 1 then h.slots[0 := SampleEntry(CONSUMED, 2, 1)] else h.slots;
    h.(slots := if n >= 2 then first[1 := SampleEntry(CONSUMED, 1, 2)] else first, tick := 9 + n)
  }

  lemma ConsumptionStep(f: Fates, n: nat)
    requires n < 2 && DurableRun(f, 0, 13) && LedgerInv(Shuffled(n), SAMPLE_IDS)
    ensures Consume(f, Shuffled(n), 2, Identity(1, ARRIVALS[n])).0 == Shuffled(n + 1)
    ensures LedgerInv(Shuffled(n + 1), SAMPLE_IDS)
  {
    var h := Shuffled(n);
    SampleIsValid(1);
    FindFinds(h.slots, 2, Identity(1, ARRIVALS[n]), 0);
    assert Owns(h.slots[n], 2, Identity(1, ARRIVALS[n]));
    assert Find(h.slots, 2, Identity(1, ARRIVALS[n])) == Some(n);
    assert f(9 + n) == Durable;
    hide LedgerInv, ValidContent;
    ConsumeStep(f, h, SAMPLE_IDS, 2, Identity(1, ARRIVALS[n]));
  }

  lemma ShuffledTarget()
    ensures Target(Shuffled(2).slots, Sample(9)) == Some(0)
  {
    var slots := Shuffled(2).slots;
    FirstEmptyIsFirst(slots, 0);
    var pick := (r: HubRecord) => r.Tombstone() && IncomingLater(Sample(9), r);
    OldestIsOldest(slots, pick, 0, None);
    assert Picked(slots, pick, 0);
    assert OldestReclaimable(slots, Sample(9)).Some?;
    assert Picked(slots, pick, OldestReclaimable(slots, Sample(9)).value);
  }

  function Reclaimed(): Ledger {
    AfterAdmission(Shuffled(2), Sample(9), 0)
  }

  lemma ShuffledFacts()
    ensures Ready(Shuffled(2)) && Shuffled(2).tick == 11 && AdmissionWrites(Shuffled(2)) == 1
    ensures Available(Shuffled(2).slots, Sample(9), 0)
    ensures forall i: SlotIndex :: !Owns(Shuffled(2).slots[i], 2, Identity(1, 9))
    ensures Ready(Reclaimed()) && Reclaimed().tick == 12 && AdmissionWrites(Reclaimed()) == 1
    ensures Available(Reclaimed().slots, Sample(2), 1)
    ensures forall i: SlotIndex :: !Owns(Reclaimed().slots[i], 2, Identity(1, 2))
  {
  }

  /** Identity 9 reclaims the tombstone of 2, the oldest, and a late copy of 2 then reclaims the tombstone of 1. */
  lemma LateCopyIsAdmitted(f: Fates)
    requires f(11) == Durable && f(12) == Durable && LedgerInv(Shuffled(2), SAMPLE_IDS)
    ensures Admit(f, Shuffled(2), SAMPLE_IDS, Sample(9)) == (Reclaimed(), DURABLE_NEW_ADMISSION)
    ensures Admit(f, Reclaimed(), SAMPLE_IDS, Sample(2)).1 == DURABLE_NEW_ADMISSION
  {
    ShuffledTarget();
    ShuffledFacts();
    SampleIsValid(9);
    SampleIsValid(2);
    hide Admit, LedgerInv, Target, ValidateAdmission, Shuffled, Reclaimed, AfterAdmission, Available, Owns, Ready;
    AdmissionCondition(f, Shuffled(2), SAMPLE_IDS, Sample(9));
    AdmitStep(f, Shuffled(2), SAMPLE_IDS, Sample(9));
    ReclaimedIsAfter();
    AdmissionCondition(f, Reclaimed(), SAMPLE_IDS, Sample(2));
  }

  lemma ReclaimedIsAfter()
    ensures Reclaimed() == AfterAdmission(Shuffled(2), Sample(9), 0)
  {
  }

  const OUT_OF_ORDER: seq<LedgerOp> :=
    Admissions(ARRIVALS) + [ConsumeIdentity(2, Identity(1, 2))] + [ConsumeIdentity(2, Identity(1, 1))]
    + [AdmitEvent(Sample(9))] + [AdmitEvent(Sample(2))]

  /**
   Without ordered arrival the same identity can be newly admitted twice, in a run
   from a new ledger in which every write succeeds: identities 2, 1, 3, ..., 8 fill
   it, 2 and 1 are consumed, 9 arrives, and a late copy of 2 is admitted again.
   */
  lemma OutOfOrderArrivalReadmits(f: Fates)
    requires DurableRun(f, 0, 13)
    ensures RunLedger(f, SAMPLE_IDS, NEW_LEDGER, OUT_OF_ORDER).admitted == Identities(ARRIVALS + [9, 2])
  {
    hide Admit, Consume, Shuffled, Reclaimed, RunLedger, LedgerStep, Admissions, Identities, LedgerInv;
    AllArrived(f);
    ConsumptionStep(f, 0);
    ConsumptionStep(f, 1);
    assert f(11) == Durable && f(12) == Durable;
    LateCopyIsAdmitted(f);
    var ops0 := Admissions(ARRIVALS);
    var ops1 := ops0 + [ConsumeIdentity(2, Identity(1, 2))];
    var ops2 := ops1 + [ConsumeIdentity(2, Identity(1, 1))];
    var ops3 := ops2 + [AdmitEvent(Sample(9))];
    LedgerSnoc(f, ops0, ConsumeIdentity(2, Identity(1, 2)));
    LedgerSnoc(f, ops1, ConsumeIdentity(2, Identity(1, 1)));
    LedgerSnoc(f, ops2, AdmitEvent(Sample(9)));
    LedgerSnoc(f, ops3, AdmitEvent(Sample(2)));
    StepConsumes(f, RunLedger(f, SAMPLE_IDS, NEW_LEDGER, ops0), 2, Identity(1, 2));
    StepConsumes(f, RunLedger(f, SAMPLE_IDS, NEW_LEDGER, ops1), 2, Identity(1, 1));
    StepAdmits(f, RunLedger(f, SAMPLE_IDS, NEW_LEDGER, ops2), Sample(9));
    StepAdmits(f, RunLedger(f, SAMPLE_IDS, NEW_LEDGER, ops3), Sample(2));
    MoreIdentities();
  }

  lemma AllArrived(f: Fates)
    requires DurableRun(f, 0, 13)
    ensures var r := RunLedger(f, SAMPLE_IDS, NEW_LEDGER, Admissions(ARRIVALS));
      r.ledger == Shuffled(0) && r.admitted == Identities(ARRIVALS) && LedgerInv(Shuffled(0), SAMPLE_IDS)
  {
    hide RunLedger, LedgerInv;
    ArrivalsRun(f, 8);
    assert ARRIVALS[..8] == ARRIVALS;
  }

  lemma MoreIdentities()
    ensures Identities(ARRIVALS + [9, 2]) == Identities(ARRIVALS) + [Identity(1, 9)] + [Identity(1, 2)]
  {
  }
}
