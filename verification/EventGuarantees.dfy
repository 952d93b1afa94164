/**
 What the Event pipeline guarantees over every run from a first boot: end-to-end
 custody, bounded first-in-first-out transmission, and at-most-once admission
 when the radio keeps packets in order.
 */
module EventGuarantees {
  import opened Words
  import opened EventStorage
  import opened EventProtocol
  import opened EventRecords
  import opened EventIdentity
  import opened NodeEventStore
  import opened NodeEventPolicy
  import opened NodeEventDelivery
  import Hub = HubEventLedger
  import opened HubEventRadio
  import opened EventPipeline

  const NO_HISTORY := History(map[], {}, {}, {}, [])

  /** Both devices after their first successful initialisation, with nothing stored or sent. */
  function FirstBoot(ends: Endpoints, epoch: u32): World {
    var store := StoreState(NO_SLOTS, BecomeReady(NodeMetadata(ends.source, epoch, 1)), [], true, 0);
    var ledger := Hub.Ledger([Empty, Empty, Empty, Empty, Empty, Empty, Empty, Empty], 1, 1, 1, true, true, 0);
    World(Node(PolicyState(store, TrackedFrom(NO_SLOTS, 0), true), FRESH.(initialized := true)), ledger, [], [], NO_HISTORY)
  }

  lemma FirstBootInv(ends: Endpoints, epoch: u32)
    requires ValidEndpoints(ends.source, ends.hub) && epoch != 0
    ensures WorldInv(FirstBoot(ends, epoch), ends)
  {
    FirstNodeInv(ends, epoch);
    FirstHubInv(ends);
    hide NodeInv, Hub.LedgerInv, NodeHolds, InHubCustody;
  }

  lemma {:induction false} NothingToDebit(f: Fates, s: StoreState, i: nat)
    requires i <= 8 && forall j :: 0 <= j < 8 ==> s.slots[j].Free?
    ensures DebitFrom(f, s, i) == (s, true)
    decreases 8 - i
  {
    if i < 8 {
      NothingToDebit(f, s, i + 1);
    }
  }

  /** The starting state is what controller recovery makes of a freshly initialised store. */
  lemma FirstBootIsRecovered(f: Fates, ends: Endpoints, epoch: u32)
    requires ValidEndpoints(ends.source, ends.hub)
    ensures var node := FirstBoot(ends, epoch).node;
      RecoverController(f, ends, node.policy.store, 0).0 == node
  {
    var store := FirstBoot(ends, epoch).node.policy.store;
    NothingToDebit(f, store, 0);
  }

  lemma FirstNodeInv(ends: Endpoints, epoch: u32)
    requires ValidEndpoints(ends.source, ends.hub) && epoch != 0
    ensures NodeInv(FirstBoot(ends, epoch).node, ends)
  {
    var node := FirstBoot(ends, epoch).node;
    assert StoreInv(node.policy.store, ends.source);
    assert Settled(node.policy);
  }

  lemma FirstHubInv(ends: Endpoints)
    ensures Hub.LedgerInv(
      Hub.Ledger([Empty, Empty, Empty, Empty, Empty, Empty, Empty, Empty], 1, 1, 1, true, true, 0), HubIds(ends))
  {
  }

  /**
   End-to-end custody.  Over every run with loss, repetition, reordering, failed
   and torn writes and reboots on both sides: an accepted Event is still held by
   the Node, or was given up as failed or expired, or was released; and a
   released Event is held by the Hub for delivery with exactly the content the
   Node accepted, or a Host request has consumed it.
   */
  lemma EndToEndCustody(f: Fates, g: Fates, ends: Endpoints, epoch: u32, ops: seq<Op>)
    requires ValidEndpoints(ends.source, ends.hub) && epoch != 0
    ensures var w := Run(f, g, ends, FirstBoot(ends, epoch), ops);
      && (forall x :: x in w.past.accepted ==> NodeHolds(w, x) || x in w.past.released || x in w.past.discarded)
      && (forall x :: x in w.past.released ==> x in w.past.accepted && InHubCustody(w, x))
  {
    hide NodeInv, Hub.LedgerInv, Run, AirSide, HubSide, FirstBoot;
    FirstBootInv(ends, epoch);
    RunKeepsInv(f, g, ends, FirstBoot(ends, epoch), ops);
  }

  /** The attempt in flight, the backoff index and terminal states, as the controller relies on them. */
  ghost predicate DeliveryConsistent(n: Node, ends: Endpoints) {
    && (n.ctl.phase == TX || n.ctl.phase == WAIT_ADMISSION ==>
          && HeadStillAuthoritative(n) && 1 <= ActiveRecord(n).attempts <= MAX_ATTEMPTS
          && n.ctl.attempt == AttemptEvent(ends, n.ctl.attempt.sequence, ActiveRecord(n)))
    && (n.ctl.phase == READY_TO_SEND ==> HeadStillAuthoritative(n) && ActiveRecord(n).attempts < MAX_ATTEMPTS)
    && (n.ctl.phase == BACKOFF ==> HeadStillAuthoritative(n) && 0 <= ActiveRecord(n).attempts as int - 1 < |BACKOFF_BASE|)
    && (n.ctl.active && n.ctl.phase != RELEASED ==>
          (ActiveRecord(n).Terminal() <==> n.ctl.phase == GAVE_UP || n.ctl.phase == LAPSED))
  }

  lemma SoundIsConsistent(n: Node, ends: Endpoints)
    requires NodeInv(n, ends) && Usable(n)
    ensures DeliveryConsistent(n, ends)
  {
    if n.ctl.active {
      HeadIsLeast(SlotsOf(n), n.policy.store.queue, n.ctl.slot);
    }
  }

  /**
   The controller invariant over all runs: while the Node is usable, an attempt
   in flight is the queue head's own record with one to five durable attempts,
   the backoff table is indexed within its four entries, and the active slot is
   terminal exactly when the controller says so; hence reclamation fails only
   when a write does.
   */
  lemma DeliveryStaysConsistent(f: Fates, g: Fates, ends: Endpoints, epoch: u32, ops: seq<Op>)
    requires ValidEndpoints(ends.source, ends.hub) && epoch != 0
    ensures var n := Run(f, g, ends, FirstBoot(ends, epoch), ops).node;
      Usable(n) ==>
        && DeliveryConsistent(n, ends)
        && (ReclaimTerminals(f, n).1 <==> ReclaimTerminals(f, n).0.policy.store.healthy)
  {
    hide Run, FirstBoot, DeliveryConsistent, ReclaimTerminals, ControllerInv, PolicyInv, AirSide, HubSide, AckSide, NodeSide, Hub.LedgerInv;
    FirstBootInv(ends, epoch);
    RunKeepsInv(f, g, ends, FirstBoot(ends, epoch), ops);
    var n := Run(f, g, ends, FirstBoot(ends, epoch), ops).node;
    ReclaimTerminalsStep(f, n, ends);
    if Usable(n) {
      SoundIsConsistent(n, ends);
    }
  }

  /**
   Bounded first-in-first-out transmission across reboots: identities leave in
   nondecreasing order, no identity leaves more than five times in all, and what
   leaves is an Event the Node accepted, unaltered.
   */
  lemma BoundedFifoTransmission(f: Fates, g: Fates, ends: Endpoints, epoch: u32, ops: seq<Op>)
    requires ValidEndpoints(ends.source, ends.hub) && epoch != 0
    ensures var w := Run(f, g, ends, FirstBoot(ends, epoch), ops);
      && (forall j, k :: 0 <= j < k < |w.air| ==> !Less(SentIdentity(w.air[k]), SentIdentity(w.air[j])))
      && (forall x :: CountSent(w.air, x) <= MAX_ATTEMPTS)
      && (forall k :: 0 <= k < |w.air| ==> Genuine(w.past, ends, w.air[k]))
  {
    hide NodeInv, Hub.LedgerInv, Run, NodeSide, HubSide, AckSide, FirstBoot;
    FirstBootInv(ends, epoch);
    RunKeepsInv(f, g, ends, FirstBoot(ends, epoch), ops);
  }

  // ----- at-most-once admission

  /** The index of the last packet actually delivered, or -1. */
  function LastDelivered(f: Fates, g: Fates, ends: Endpoints, w: World, ops: seq<Op>): int
    decreases |ops|
  {
    if ops == [] then -1
    else
      var before := ops[..|ops| - 1];
      match ops[|ops| - 1]
      case Deliver(index) =>
        if index < |Run(f, g, ends, w, before).air| then index else LastDelivered(f, g, ends, w, before)
      case _ => LastDelivered(f, g, ends, w, before)
  }

  /** The packet does not carry an earlier identity than the last one delivered. */
  predicate NotEarlier(air: seq<seq<u8>>, last: int, index: nat)
    requires index < |air|
  {
    0 <= last < |air| ==> !Less(SentIdentity(air[index]), SentIdentity(air[last]))
  }

  /** Identities are delivered in nondecreasing order; losses, repeats and swapped repeats are allowed. */
  predicate InOrder(f: Fates, g: Fates, ends: Endpoints, w: World, ops: seq<Op>)
    decreases |ops|
  {
    ops != [] ==>
      var before := ops[..|ops| - 1];
      && InOrder(f, g, ends, w, before)
      && (ops[|ops| - 1].Deliver? && ops[|ops| - 1].index < |Run(f, g, ends, w, before).air| ==>
            NotEarlier(Run(f, g, ends, w, before).air, LastDelivered(f, g, ends, w, before), ops[|ops| - 1].index))
  }

  predicate Owned(slots: Hub.LedgerSlots, x: Identity) {
    exists i :: 0 <= i < 8 && slots[i].Entry? && slots[i].identity == x
  }

  /** Past admissions are distinct, and each is still owned or already behind the last delivery. */
  predicate OnceInv(w: World, last: int) {
    match w
    case World(_, hub, air, _, past) =>
      && -1 <= last < |air|
      && (forall j, k :: 0 <= j < k < |past.admissions| ==> past.admissions[j] != past.admissions[k])
      && (forall k :: 0 <= k < |past.admissions| ==>
            Owned(hub.slots, past.admissions[k]) || (last >= 0 && Less(past.admissions[k], SentIdentity(air[last]))))
  }

  lemma OwnedAfterAdmission(h: Hub.Ledger, k: Hub.Ledger, e: Event, x: Identity, ids: Hub.Ids)
    requires Hub.LedgerInv(h, ids) && LedgerGained(h, k, e) && Owned(h.slots, x)
    ensures Owned(k.slots, x) || Less(x, e.identity)
  {
    var i :| 0 <= i < 8 && h.slots[i].Entry? && h.slots[i].identity == x;
    if k.slots != h.slots {
      var j: SlotIndex, ordinal: u32 :| Hub.AdmittedInto(h, k, e, j, ordinal);
      assert i != j ==> k.slots[i] == h.slots[i];
    }
  }

  lemma NewAdmissionIsFresh(w: World, last: int, index: nat, h: Hub.Ledger, e: Event, ends: Endpoints)
    requires OnceInv(w, last) && index < |w.air| && NotEarlier(w.air, last, index)
    requires e.identity == SentIdentity(w.air[index]) && e.source == ends.source
    requires Hub.LedgerInv(w.hub, HubIds(ends)) && Hub.AdmittedSomewhere(w.hub, h, e)
    ensures e.identity !in w.past.admissions && Owned(h.slots, e.identity)
  {
    hide SentIdentity;
    var j: SlotIndex, ordinal: u32 :| Hub.AdmittedInto(w.hub, h, e, j, ordinal);
    assert h.slots[j] == Hub.NewEntry(e, ordinal);
    forall k | 0 <= k < |w.past.admissions| ensures w.past.admissions[k] != e.identity {
      if Owned(w.hub.slots, w.past.admissions[k]) {
        var i :| 0 <= i < 8 && w.hub.slots[i].Entry? && w.hub.slots[i].identity == w.past.admissions[k];
        assert !Hub.Owns(w.hub.slots[i], e.source, e.identity);
      }
    }
  }

  lemma DeliverKeepsOnce(g: Fates, w: World, last: int, index: nat, ends: Endpoints)
    requires WorldInv(w, ends) && ValidEndpoints(ends.source, ends.hub)
    requires OnceInv(w, last) && index < |w.air| && NotEarlier(w.air, last, index)
    ensures OnceInv(Delivered(g, ends, w, w.air[index]), index)
  {
    hide NodeInv, Delivered, Hub.Admit, NodeSide, HubSide, AckSide, AirSide, Hub.LedgerInv, DecodeEvent, SentIdentity,
      DecodeAdmissionResponse, Hub.ValidateAdmission, Genuine, OnceInv, NotEarlier, Owned, AcceptedAs, WireStatus;
    var packet := w.air[index];
    SentIsGenuine(w, index, ends);
    var e := DecodeEvent(packet).value;
    DeliveredLedger(g, w, packet, ends);
    Hub.AdmitStep(g, w.hub, HubIds(ends), e);
    var v := Delivered(g, ends, w, packet);
    if Hub.Admit(g, w.hub, HubIds(ends), e).1 == Hub.DURABLE_NEW_ADMISSION {
      NewAdmissionIsFresh(w, last, index, v.hub, e, ends);
    }
    OnceAfterDelivery(w, v, last, index, e, ends);
  }

  lemma OnceAfterDelivery(w: World, v: World, last: int, index: nat, e: Event, ends: Endpoints)
    requires OnceInv(w, last) && index < |w.air| && NotEarlier(w.air, last, index) && v.air == w.air
    requires Hub.LedgerInv(w.hub, HubIds(ends)) && LedgerGained(w.hub, v.hub, e) && e.identity == SentIdentity(w.air[index])
    requires v.past.admissions == w.past.admissions
          || (&& v.past.admissions == w.past.admissions + [e.identity]
              && e.identity !in w.past.admissions && Owned(v.hub.slots, e.identity))
    ensures OnceInv(v, index)
  {
    hide SentIdentity, Hub.LedgerInv, LedgerGained, Owned;
    forall k | 0 <= k < |w.past.admissions|
      ensures Owned(v.hub.slots, w.past.admissions[k]) || Less(w.past.admissions[k], SentIdentity(v.air[index]))
    {
      if Owned(w.hub.slots, w.past.admissions[k]) {
        OwnedAfterAdmission(w.hub, v.hub, e, w.past.admissions[k], HubIds(ends));
      }
    }
  }

  /** A step other than a delivery admits nothing and disowns nothing. */
  lemma OtherStepKeepsOnce(f: Fates, g: Fates, ends: Endpoints, w: World, op: Op, last: int)
    requires WorldInv(w, ends) && OnceInv(w, last) && ValidEndpoints(ends.source, ends.hub)
    requires !op.Deliver? || op.index >= |w.air|
    ensures OnceInv(Step(f, g, ends, w, op), last)
  {
    hide NodeInv, NodeSide, AirSide, HubSide, AckSide, Hub.LedgerInv, Hub.Consume, Hub.Recover, SentIdentity, Owned,
      ControllerService, TxStarted, TxStartFailed, TxCompleted, GrantTransmit, Create, AdmissionCandidate,
      ReclaimTerminals, PowerUp, HoldsActive, Audible, NewIdentity;
    var v := Step(f, g, ends, w, op);
    if op.ConsumeEvent? {
      Hub.ConsumeStep(g, w.hub, HubIds(ends), ends.source, op.identity);
      forall x | Owned(w.hub.slots, x) ensures Owned(v.hub.slots, x) {
        OwnedAfterConsumption(w.hub, v.hub, ends.source, op.identity, x);
      }
    }
    if op.RebootHub? {
      Hub.RecoverStep(w.hub, HubIds(ends));
    }
    assert w.air <= v.air;
  }

  lemma OwnedAfterConsumption(h: Hub.Ledger, k: Hub.Ledger, source: u8, identity: Identity, x: Identity)
    requires Owned(h.slots, x)
    requires k.slots == h.slots || exists i: SlotIndex :: Hub.ConsumedAt(h, k, source, identity, i)
    ensures Owned(k.slots, x)
  {
    var i :| 0 <= i < 8 && h.slots[i].Entry? && h.slots[i].identity == x;
    if k.slots != h.slots {
      var j: SlotIndex :| Hub.ConsumedAt(h, k, source, identity, j);
      assert k.slots[i].Entry? && k.slots[i].identity == x;
    }
  }

  lemma NothingAdmitted(w: World)
    requires w.past.admissions == []
    ensures OnceInv(w, -1)
  {
  }

  lemma StepIsDelivery(f: Fates, g: Fates, ends: Endpoints, w: World, index: nat)
    requires index < |w.air|
    ensures Step(f, g, ends, w, Deliver(index)) == Delivered(g, ends, w, w.air[index])
  {
  }

  lemma {:induction false} OrderedRunKeepsOnce(f: Fates, g: Fates, ends: Endpoints, w: World, ops: seq<Op>)
    requires WorldInv(w, ends) && ValidEndpoints(ends.source, ends.hub)
    requires w.past.admissions == [] && InOrder(f, g, ends, w, ops)
    ensures OnceInv(Run(f, g, ends, w, ops), LastDelivered(f, g, ends, w, ops))
    decreases |ops|
  {
    hide WorldInv, Step, Delivered, OnceInv;
    if ops == [] {
      NothingAdmitted(w);
    } else {
      var before, op := ops[..|ops| - 1], ops[|ops| - 1];
      OrderedRunKeepsOnce(f, g, ends, w, before);
      RunKeepsInv(f, g, ends, w, before);
      var v := Run(f, g, ends, w, before);
      var last := LastDelivered(f, g, ends, w, before);
      if op.Deliver? && op.index < |v.air| {
        DeliverKeepsOnce(g, v, last, op.index, ends);
        StepIsDelivery(f, g, ends, v, op.index);
      } else {
        OtherStepKeepsOnce(f, g, ends, v, op, last);
      }
    }
  }

  /**
   At-most-once admission.  If the identities that reach the Hub never decrease,
   as the Node sends them, with any losses, repeats and swaps of repeats of the
   same Event, then over the whole run no identity is
   reported as newly admitted twice, across reboots of either side, failed
   writes and the reclamation of tombstones.
   */
  lemma AtMostOnceAdmission(f: Fates, g: Fates, ends: Endpoints, epoch: u32, ops: seq<Op>)
    requires ValidEndpoints(ends.source, ends.hub) && epoch != 0
    requires InOrder(f, g, ends, FirstBoot(ends, epoch), ops)
    ensures var admissions := Run(f, g, ends, FirstBoot(ends, epoch), ops).past.admissions;
      forall j, k :: 0 <= j < k < |admissions| ==> admissions[j] != admissions[k]
  {
    hide WorldInv, Run, InOrder, LastDelivered;
    FirstBootInv(ends, epoch);
    OrderedRunKeepsOnce(f, g, ends, FirstBoot(ends, epoch), ops);
  }
}
