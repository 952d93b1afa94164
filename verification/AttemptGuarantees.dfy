/**
 Where a record's attempts come from and why it fails, over every run of the
 pipeline: its attempt count is exactly the number of attempts armed for it since
 it was created, and it becomes FAILED only when all five are used.
 */
module AttemptGuarantees {
  import opened Words
  import opened EventStorage
  import opened EventProtocol
  import opened EventRecords
  import opened EventIdentity
  import opened NodeEventStore
  import opened NodeEventPolicy
  import opened NodeEventDelivery
  import Hub = HubEventLedger
  import opened HubEventRadio
  import opened EventPipeline
  import opened EventGuarantees
  import opened DeliveryProgress

  // ----- one step

  /** The Event whose attempt this operation counts durably, if any. */
  function Armed(f: Fates, n: Node, op: Op): Option<Identity> {
    if op.Grant? && Usable(n) && n.ctl.phase == READY_TO_SEND && ActiveRecord(n).Held? && Outlives(f, n, op.now)
       && f(Charged(f, n, op.now).store.tick).Stored()
    then Some(ActiveRecord(n).identity) else None
  }

  predicate Failed(r: NodeRecord) {
    r.Held? && r.custody == FAILED
  }

  /** A decodable answer about `x` that rejects it. */
  predicate Rejects(packet: seq<u8>, x: Identity) {
    match DecodeAdmissionResponse(packet)
    case None => false
    case Some(r) => r.identity == x && r.status != ADMITTED && r.status != CAPACITY
  }

  predicate Rejecting(op: Op, x: Identity) {
    op.Hear? && Rejects(op.packet, x)
  }

  /** One slot over one step: attempts change only by arming, and failure needs five of them or a rejection. */
  predicate Accounted(a: NodeRecord, b: NodeRecord, armed: Option<Identity>, op: Op, frontier: Identity) {
    b.Held? ==>
      if a.Held? then
        && b.identity == a.identity
        && b.attempts as int == a.attempts as int + (if armed == Some(a.identity) then 1 else 0)
        && (Failed(b) && !Failed(a) ==> b.attempts == MAX_ATTEMPTS || Rejecting(op, b.identity))
      else b.Queued() && b.attempts == 0 && !Less(b.identity, frontier)
  }

  predicate AllAccounted(f: Fates, n: Node, op: Op, m: Node) {
    forall i :: 0 <= i < 8 ==>
      Accounted(SlotsOf(n)[i], SlotsOf(m)[i], Armed(f, n, op), op, EventIdentity.Frontier(n.policy.store.alloc))
  }

  /** From `p` to `m` at most the slot in delivery changed, and it did not fail before its time. */
  predicate HeadOnly(c: Controller, p: PolicyState, m: Node, op: Op) {
    && c.slot < 8
    && (forall i :: 0 <= i < 8 && i != c.slot ==> SlotsOf(m)[i] == p.store.slots[i])
    && (SlotsOf(m)[c.slot].Held? ==>
          && p.store.slots[c.slot].Held? && SlotsOf(m)[c.slot].identity == p.store.slots[c.slot].identity
          && SlotsOf(m)[c.slot].attempts == p.store.slots[c.slot].attempts
          && (Failed(SlotsOf(m)[c.slot]) && !Failed(p.store.slots[c.slot]) ==>
                SlotsOf(m)[c.slot].attempts == MAX_ATTEMPTS || Rejecting(op, SlotsOf(m)[c.slot].identity)))
  }

  lemma ChargedAges(f: Fates, n: Node, now: u32, source: u8)
    requires PolicyInv(n.policy, source) && Usable(n)
    ensures AllAged(SlotsOf(n), Charged(f, n, now).store.slots)
  {
    ServiceStep(f, n.policy, now, source);
  }

  lemma AgedIsAccounted(f: Fates, n: Node, op: Op, m: Node)
    requires AllAged(SlotsOf(n), SlotsOf(m)) && Armed(f, n, op).None?
    ensures AllAccounted(f, n, op, m)
  {
    hide Armed;
    forall i | 0 <= i < 8
      ensures Accounted(SlotsOf(n)[i], SlotsOf(m)[i], None, op, EventIdentity.Frontier(n.policy.store.alloc))
    {
      assert Aged(SlotsOf(n)[i], SlotsOf(m)[i]);
    }
  }

  lemma HeadIsAccounted(f: Fates, n: Node, op: Op, now: u32, m: Node, source: u8)
    requires PolicyInv(n.policy, source) && Usable(n) && Armed(f, n, op).None?
    requires HeadOnly(n.ctl, Charged(f, n, now), m, op)
    ensures AllAccounted(f, n, op, m)
  {
    hide Armed, PolicyInv, Charged;
    ChargedAges(f, n, now, source);
    forall i | 0 <= i < 8
      ensures Accounted(SlotsOf(n)[i], SlotsOf(m)[i], None, op, EventIdentity.Frontier(n.policy.store.alloc))
    {
      assert Aged(SlotsOf(n)[i], Charged(f, n, now).store.slots[i]);
    }
  }

  /** Every predicate of the effects touches the head only. */
  lemma GivenUpIsHeadOnly(f: Fates, c: Controller, p: PolicyState, m: Node, op: Op)
    requires c.slot < 8 && p.store.slots[c.slot].Held? && GivenUp(f, c, p, m)
    requires p.store.slots[c.slot].attempts == MAX_ATTEMPTS || Rejecting(op, p.store.slots[c.slot].identity)
    ensures HeadOnly(c, p, m, op)
  {
  }

  lemma EndedIsHeadOnly(f: Fates, c: Controller, p: PolicyState, m: Node, op: Op, now: u32, jitter: u16)
    requires c.slot < 8 && p.store.slots[c.slot].Held? && AttemptEnded(f, c, p, m, now, jitter)
    ensures HeadOnly(c, p, m, op)
  {
    hide GivenUp, Rejecting;
    if p.store.slots[c.slot].attempts == MAX_ATTEMPTS {
      GivenUpIsHeadOnly(f, c, p, m, op);
    }
  }

  lemma ServicedIsHeadOnly(f: Fates, c: Controller, p: PolicyState, m: Node, op: Op, now: u32, busy: bool, jitter: u16)
    requires c.slot < 8 && p.store.slots[c.slot].Held? && Serviced(f, c, p, m, now, busy, jitter)
    ensures HeadOnly(c, p, m, op)
  {
    hide GivenUp, AttemptEnded, Rejecting;
    if c.phase == WAITING && p.store.slots[c.slot].attempts == MAX_ATTEMPTS {
      GivenUpIsHeadOnly(f, c, p, m, op);
    }
    if c.phase == WAIT_ADMISSION && Wrap32(now - c.origin) >= 2500 {
      EndedIsHeadOnly(f, c, p, m, op, now, jitter);
    }
  }

  lemma DeliveryServiceAccounted(f: Fates, n: Node, op: Op, ends: Endpoints)
    requires NodeInv(n, ends) && InDelivery(n) && op.ServiceNode?
    ensures AllAccounted(f, n, op, ControllerService(f, n, op.now, op.busy, op.jitter).0)
  {
    hide PolicyInv, Service, ControllerService, Serviced, Accounted, HeadOnly, EncodeEvent;
    var m := ControllerService(f, n, op.now, op.busy, op.jitter).0;
    InDeliveryIsQueued(n, ends);
    if Outlives(f, n, op.now) {
      ServiceEffects(f, n, op.now, op.busy, op.jitter, ends);
      ServicedIsHeadOnly(f, n.ctl, Charged(f, n, op.now), m, op, op.now, op.busy, op.jitter);
      HeadIsAccounted(f, n, op, op.now, m, ends.source);
    } else {
      LapseEffects(f, n, op.now, op.busy, op.jitter, None, [], ends);
      ChargedAges(f, n, op.now, ends.source);
      AgedIsAccounted(f, n, op, m);
    }
  }

  lemma ServiceAccounted(f: Fates, n: Node, op: Op, ends: Endpoints)
    requires NodeInv(n, ends) && op.ServiceNode?
    ensures AllAccounted(f, n, op, ControllerService(f, n, op.now, op.busy, op.jitter).0)
  {
    hide PolicyInv, Service, ServicePhase, Accounted, EncodeEvent, ServiceLifetime, InFlight;
    var m := ControllerService(f, n, op.now, op.busy, op.jitter).0;
    if !Usable(n) {
      Same(f, n, op);
    } else if InDelivery(n) {
      DeliveryServiceAccounted(f, n, op, ends);
    } else if !n.ctl.active || n.ctl.phase == RELEASED {
      ServiceAdoptsHead(f, n, op.now, op.busy, op.jitter, ends);
      QueueIsExact(n, ends.source);
      Loaded(f, n, op.now, op.busy, op.jitter);
      if Refill(n).ctl.active {
        DeliveryServiceAccounted(f, Refill(n), op, ends);
      } else {
        Same(f, n, op);
      }
    } else {
      ChargedAges(f, n, op.now, ends.source);
      LifetimeCharges(f, n, op.now);
      AgedIsAccounted(f, n, op, m);
    }
  }

  lemma Loaded(f: Fates, n: Node, now: u32, busy: bool, jitter: u16)
    requires Usable(n) && (!n.ctl.active || n.ctl.phase == RELEASED)
    ensures Refill(n).policy == n.policy
    ensures Refill(n).ctl.active <==> |n.policy.store.queue| > 0
    ensures !Refill(n).ctl.active ==> ControllerService(f, n, now, busy, jitter).0 == Refill(n)
  {
  }

  lemma LifetimeCharges(f: Fates, n: Node, now: u32)
    ensures ServiceLifetime(f, n, now).0.policy == Charged(f, n, now)
    ensures n.ctl.phase == GAVE_UP ==> ServiceLifetime(f, n, now).0.ctl.phase in {GAVE_UP, LAPSED}
    ensures n.ctl.phase == LAPSED ==> ServiceLifetime(f, n, now).0.ctl.phase == LAPSED
  {
    hide Service;
  }

  lemma Same(f: Fates, n: Node, op: Op)
    requires Armed(f, n, op).None?
    ensures forall m: Node :: SlotsOf(m) == SlotsOf(n) ==> AllAccounted(f, n, op, m)
  {
    hide Armed;
  }

  lemma GrantAccounted(f: Fates, n: Node, op: Op, ends: Endpoints)
    requires NodeInv(n, ends) && ValidEndpoints(ends.source, ends.hub) && op.Grant?
    ensures AllAccounted(f, n, op, GrantTransmit(f, ends, n, op.now, op.sequence).0)
  {
    hide PolicyInv, Service, GrantTransmit, EncodeEvent, Accounted;
    var m := GrantTransmit(f, ends, n, op.now, op.sequence).0;
    if !Usable(n) || n.ctl.phase != READY_TO_SEND {
      IdleGrantIsSame(f, n, op, ends);
      Same(f, n, op);
    } else if Outlives(f, n, op.now) {
      GrantEffects(f, n, op.now, op.sequence, ends);
      ChargedAges(f, n, op.now, ends.source);
      DistinctHeads(n, ends.source);
      ArmedIsAccounted(f, n, op, m, ends);
    } else {
      LapseEffects(f, n, op.now, false, 0, op.sequence, [], ends);
      ChargedAges(f, n, op.now, ends.source);
      AgedIsAccounted(f, n, op, m);
    }
  }

  lemma IdleGrantIsSame(f: Fates, n: Node, op: Op, ends: Endpoints)
    requires op.Grant? && (!Usable(n) || n.ctl.phase != READY_TO_SEND)
    ensures GrantTransmit(f, ends, n, op.now, op.sequence).0 == n && Armed(f, n, op).None?
  {
  }

  lemma DistinctHeads(n: Node, source: u8)
    requires PolicyInv(n.policy, source)
    ensures DistinctIdentities(SlotsOf(n))
  {
  }

  lemma ArmedIsAccounted(f: Fates, n: Node, op: Op, m: Node, ends: Endpoints)
    requires op.Grant? && Usable(n) && n.ctl.active && n.ctl.phase == READY_TO_SEND && Outlives(f, n, op.now)
    requires AllAged(SlotsOf(n), Charged(f, n, op.now).store.slots) && DistinctIdentities(SlotsOf(n))
    requires ChargedHead(f, n, op.now).attempts < MAX_ATTEMPTS
    requires exists result :: Granted(f, n.ctl, Charged(f, n, op.now), m, result, ends, op.sequence)
    ensures AllAccounted(f, n, op, m)
  {
    hide Service, EncodeEvent;
    var p := Charged(f, n, op.now);
    forall i | 0 <= i < 8
      ensures Accounted(SlotsOf(n)[i], SlotsOf(m)[i], Armed(f, n, op), op, EventIdentity.Frontier(n.policy.store.alloc))
    {
      assert Aged(SlotsOf(n)[i], p.store.slots[i]) && Aged(SlotsOf(n)[n.ctl.slot], p.store.slots[n.ctl.slot]);
    }
  }

  /** The operations of the attempt in flight. */
  function Flown(f: Fates, n: Node, op: Op): Node
    requires op.Started? || op.StartFailed? || op.Completed? || op.Hear?
  {
    match op
    case Started(now) => TxStarted(f, n, now).0
    case StartFailed(now, jitter) => TxStartFailed(f, n, now, jitter).0
    case Completed(now) => TxCompleted(f, n, now).0
    case Hear(packet, now, jitter) => AdmissionCandidate(f, n, packet, now, jitter).0
  }

  lemma FlownOutOfPhase(f: Fates, n: Node, op: Op)
    requires op.Started? || op.StartFailed? || op.Completed? || op.Hear?
    ensures !Usable(n) || n.ctl.phase != (if op.Hear? then WAIT_ADMISSION else TX) ==> Flown(f, n, op) == n
  {
  }

  lemma AnsweredIsHeadOnly(f: Fates, c: Controller, p: PolicyState, m: Node, op: Op, status: AdmissionStatus, now: u32, jitter: u16)
    requires c.slot < 8 && p.store.slots[c.slot].Held? && Answered(f, c, p, m, status, now, jitter)
    requires status != ADMITTED && status != CAPACITY ==> Rejecting(op, p.store.slots[c.slot].identity)
    ensures HeadOnly(c, p, m, op)
  {
    hide GivenUp, AttemptEnded, Rejecting;
    match status
    case ADMITTED => hide HeadOnly; LetGoIsHeadOnly(f, c, p, m, op);
    case CAPACITY => EndedIsHeadOnly(f, c, p, m, op, now, jitter);
    case _ => GivenUpIsHeadOnly(f, c, p, m, op);
  }

  lemma LetGoIsHeadOnly(f: Fates, c: Controller, p: PolicyState, m: Node, op: Op)
    requires c.slot < 8 && p.store.slots[c.slot].Held? && LetGo(f, c, p, m)
    ensures HeadOnly(c, p, m, op)
  {
  }

  lemma FlightAccounted(f: Fates, n: Node, op: Op, ends: Endpoints)
    requires NodeInv(n, ends) && (op.Started? || op.StartFailed? || op.Completed? || op.Hear?)
    ensures AllAccounted(f, n, op, Flown(f, n, op))
  {
    hide PolicyInv, Service, TxStarted, TxStartFailed, TxCompleted, AdmissionCandidate, EncodeEvent, Accounted, HeadOnly,
      AttemptEnded, Answered, DecodeAdmissionResponse;
    var m := Flown(f, n, op);
    FlownOutOfPhase(f, n, op);
    if !Usable(n) || n.ctl.phase != (if op.Hear? then WAIT_ADMISSION else TX) {
      Same(f, n, op);
    } else if Outlives(f, n, op.now) {
      FlightEffects(f, n, op, ends);
      HeadIsAccounted(f, n, op, op.now, m, ends.source);
    } else {
      LapseEffects(f, n, op.now, false, if op.StartFailed? || op.Hear? then op.jitter else 0, None,
                   if op.Hear? then op.packet else [], ends);
      ChargedAges(f, n, op.now, ends.source);
      AgedIsAccounted(f, n, op, m);
    }
  }

  lemma FlightEffects(f: Fates, n: Node, op: Op, ends: Endpoints)
    requires NodeInv(n, ends) && Usable(n) && (op.Started? || op.StartFailed? || op.Completed? || op.Hear?)
    requires n.ctl.phase == (if op.Hear? then WAIT_ADMISSION else TX) && Outlives(f, n, op.now)
    ensures HeadOnly(n.ctl, Charged(f, n, op.now), Flown(f, n, op), op)
  {
    hide PolicyInv, Service, TxStarted, TxStartFailed, TxCompleted, AdmissionCandidate, EncodeEvent,
      AttemptEnded, Answered, DecodeAdmissionResponse;
    var p := Charged(f, n, op.now);
    if op.Hear? {
      AnswerEffects(f, n, op.packet, op.now, op.jitter, ends);
      ChargedAges(f, n, op.now, ends.source);
      assert Aged(SlotsOf(n)[n.ctl.slot], p.store.slots[n.ctl.slot]);
      if DecodeAdmissionResponse(op.packet).Some? {
        var status := DecodeAdmissionResponse(op.packet).value.status;
        if AnswersAttempt(n, op.packet, status) {
          AnsweredIsHeadOnly(f, n.ctl, p, Flown(f, n, op), op, status, op.now, op.jitter);
        }
      }
    } else {
      RadioEffects(f, n, op.now, if op.StartFailed? then op.jitter else 0, ends);
      if op.StartFailed? {
        EndedIsHeadOnly(f, n.ctl, p, Flown(f, n, op), op, op.now, op.jitter);
      }
    }
  }

  lemma CreateAccounted(f: Fates, n: Node, op: Op, ends: Endpoints)
    requires NodeInv(n, ends) && op.CreateEvent?
    ensures AllAccounted(f, n, op, Create(f, n, op.input, op.now).0)
  {
    hide NodeInv, Create, EventIdentity.Frontier, Less, FirstFree, Allocate;
    CreateStep(f, n, op.input, op.now, ends);
    if SlotsOf(Create(f, n, op.input, op.now).0) == SlotsOf(n) {
      Same(f, n, op);
    }
  }

  lemma ReclaimAccounted(f: Fates, n: Node, op: Op, ends: Endpoints)
    requires NodeInv(n, ends) && op.ReclaimNode?
    ensures AllAccounted(f, n, op, ReclaimTerminals(f, n).0)
  {
    hide NodeInv, ReclaimTerminals;
    ReclaimTerminalsStep(f, n, ends);
  }

  lemma RecoveryAccounted(f: Fates, s: StoreState, now: u32, ends: Endpoints)
    requires StoreInv(s, ends.source)
    ensures var m := RecoverController(f, ends, s, now).0;
      forall i :: 0 <= i < 8 && SlotsOf(m)[i].Held? ==>
        && s.slots[i].Held? && SlotsOf(m)[i].identity == s.slots[i].identity && SlotsOf(m)[i].attempts == s.slots[i].attempts
        && (Failed(SlotsOf(m)[i]) && !Failed(s.slots[i]) ==> SlotsOf(m)[i].attempts == MAX_ATTEMPTS)
  {
    hide StoreInv, RecoverPolicy, GiveUpOrDegrade;
    var m := RecoverController(f, ends, s, now).0;
    if ValidEndpoints(ends.source, ends.hub) {
      RecoverPolicyStep(f, s, now, ends.source);
      var (p, status) := RecoverPolicy(f, s, now);
      var n := LoadHead(Node(p, FRESH.(initialized := true)));
      if status == SERVICED && ActiveRecord(n).Held? && ActiveRecord(n).attempts >= MAX_ATTEMPTS {
        LoadedHeadIsLeast(p, ends.source);
        AttemptsInRange(n, ends.source);
        GivesUp(f, n, Result(FINE, NoAction), ends.source);
        GivenUpIsHeadOnly(f, n.ctl, p, m, ReclaimNode);
      }
      hide RecoverController;
      forall i | 0 <= i < 8 ensures Aged(s.slots[i], p.store.slots[i]) {
      }
    }
  }

  lemma RebootAccounted(f: Fates, n: Node, op: Op, ends: Endpoints)
    requires NodeInv(n, ends) && ends.source != 0 && op.RebootNode?
    ensures AllAccounted(f, n, op, PowerUp(f, ends, n, op.now, op.entropy))
  {
    hide StoreInv, RecoverStore, ReclaimFrom, RecoverController;
    RecoverStep(f, n.policy.store, ends.source, op.entropy);
    var s := RecoverStore(f, n.policy.store, ends.source, op.entropy);
    var blank := Node(PolicyState(s, TrackedFrom(NO_SLOTS, op.now), false), FRESH);
    ReclaimFromStep(f, blank, 0, ends);
    var (m, ok) := ReclaimTerminals(f, blank);
    if ok {
      RecoveryAccounted(f, m.policy.store, op.now, ends);
    }
  }

  /** What a step does to the Node. */
  lemma StepAccounted(f: Fates, g: Fates, ends: Endpoints, w: World, op: Op)
    requires WorldInv(w, ends) && ValidEndpoints(ends.source, ends.hub)
    ensures AllAccounted(f, w.node, op, Step(f, g, ends, w, op).node)
  {
    assert NodeInv(w.node, ends);
    hide WorldInv, NodeInv, ControllerService, TxStarted, TxStartFailed, TxCompleted, GrantTransmit, Create,
      AdmissionCandidate, ReclaimTerminals, PowerUp, Delivered, Hub.Consume, Hub.Recover, AllAccounted;
    match op
    case CreateEvent(_, _) => CreateAccounted(f, w.node, op, ends);
    case ServiceNode(_, _, _) => ServiceAccounted(f, w.node, op, ends);
    case Grant(_, _) => GrantAccounted(f, w.node, op, ends);
    case ReclaimNode => ReclaimAccounted(f, w.node, op, ends);
    case RebootNode(_, _) => RebootAccounted(f, w.node, op, ends);
    case Deliver(_) => HubLeavesNode(f, g, ends, w, op);
    case ConsumeEvent(_) => HubLeavesNode(f, g, ends, w, op);
    case RebootHub => HubLeavesNode(f, g, ends, w, op);
    case Hear(packet, _, _) =>
      FlightAccounted(f, w.node, op, ends);
      Same(f, w.node, op);
    case _ => FlightAccounted(f, w.node, op, ends);
  }

  lemma HubLeavesNode(f: Fates, g: Fates, ends: Endpoints, w: World, op: Op)
    requires op.Deliver? || op.ConsumeEvent? || op.RebootHub?
    ensures Step(f, g, ends, w, op).node == w.node
    ensures AllAccounted(f, w.node, op, w.node)
  {
    hide Process, AdmitCandidate, Hub.Admit, Hub.Consume, Hub.Recover, HoldsActive;
  }

  // ----- the Hub never rejects what the Node sends

  /** Every acknowledgement sent admits its Event or reports a full ledger. */
  predicate NeverRejects(w: World) {
    forall k :: 0 <= k < |w.acks| ==>
      match DecodeAdmissionResponse(w.acks[k])
      case None => true
      case Some(r) => r.status == ADMITTED || r.status == CAPACITY
  }

  lemma NoOtherContent(w: World, e: Event)
    requires HubSide(w) && AcceptedAs(w.past, e.identity, e.content)
    ensures !Hub.OwnsContent(w.hub.slots, e, false)
  {
  }

  lemma DeliveryNeverRejects(g: Fates, w: World, index: nat, ends: Endpoints)
    requires WorldInv(w, ends) && ValidEndpoints(ends.source, ends.hub) && index < |w.air| && NeverRejects(w)
    ensures NeverRejects(Delivered(g, ends, w, w.air[index]))
  {
    hide NodeInv, Delivered, Hub.Admit, NodeSide, HubSide, AckSide, AirSide, Hub.LedgerInv, DecodeEvent,
      DecodeAdmissionResponse, Genuine, Hub.OwnsContent, Hub.Room, Hub.Unowned, Hub.ValidateAdmission, FifoAir, SentIdentity;
    var packet := w.air[index];
    SentIsGenuine(w, index, ends);
    var e := DecodeEvent(packet).value;
    DeliveredLedger(g, w, packet, ends);
    NoOtherContent(w, e);
    SentIsRouted(w, index, ends);
    AdapterAgreesWithDecoder(HubIds(ends), packet, e);
    Hub.AdmissionDecided(g, w.hub, HubIds(ends), e);
    var v := Delivered(g, ends, w, packet);
    forall k | 0 <= k < |v.acks| && DecodeAdmissionResponse(v.acks[k]).Some?
      ensures DecodeAdmissionResponse(v.acks[k]).value.status in {ADMITTED, CAPACITY}
    {
      if k < |w.acks| {
        assert v.acks[k] == w.acks[k];
      }
    }
  }

  lemma SentIsRouted(w: World, index: nat, ends: Endpoints)
    requires AirSide(w, ends) && index < |w.air| && DecodeEvent(w.air[index]).Some?
    ensures DecodeEvent(w.air[index]).value.source == ends.source && DecodeEvent(w.air[index]).value.destination == ends.hub
  {
    hide CountSent, DecodeEvent;
    assert Genuine(w.past, ends, w.air[index]);
  }

  lemma StepNeverRejects(f: Fates, g: Fates, ends: Endpoints, w: World, op: Op)
    requires WorldInv(w, ends) && ValidEndpoints(ends.source, ends.hub) && NeverRejects(w)
    ensures NeverRejects(Step(f, g, ends, w, op))
  {
    hide WorldInv, Delivered, Process, DecodeAdmissionResponse, NeverRejects;
    if op.Deliver? && op.index < |w.air| {
      DeliveryNeverRejects(g, w, op.index, ends);
    } else {
      OtherStepKeepsAcks(f, g, ends, w, op);
      SameAcks(w, Step(f, g, ends, w, op));
    }
  }

  lemma OtherStepKeepsAcks(f: Fates, g: Fates, ends: Endpoints, w: World, op: Op)
    requires !op.Deliver? || op.index >= |w.air|
    ensures Step(f, g, ends, w, op).acks == w.acks
  {
    hide ControllerService, TxStarted, TxStartFailed, TxCompleted, GrantTransmit, Create, AdmissionCandidate,
      ReclaimTerminals, PowerUp, Hub.Consume, Hub.Recover, HoldsActive, Audible, NewIdentity;
  }

  lemma SameAcks(w: World, v: World)
    requires NeverRejects(w) && v.acks == w.acks
    ensures NeverRejects(v)
  {
  }

  // ----- every run

  /** How many attempts of `x` the operations have counted durably. */
  function CountArmed(f: Fates, g: Fates, ends: Endpoints, w: World, ops: seq<Op>, x: Identity): nat
    decreases |ops|
  {
    if ops == [] then 0
    else
      var before := ops[..|ops| - 1];
      CountArmed(f, g, ends, w, before, x)
      + (if Armed(f, Run(f, g, ends, w, before).node, ops[|ops| - 1]) == Some(x) then 1 else 0)
  }

  /** The records against a tally of armed attempts. */
  ghost predicate Tallied(w: World, tally: Identity -> nat) {
    && (forall i :: 0 <= i < 8 && SlotsOf(w.node)[i].Held? ==>
          SlotsOf(w.node)[i].attempts == tally(SlotsOf(w.node)[i].identity))
    && (forall i :: 0 <= i < 8 && Failed(SlotsOf(w.node)[i]) ==> SlotsOf(w.node)[i].attempts == MAX_ATTEMPTS)
    && (forall x :: tally(x) > 0 ==> x in w.past.accepted)
  }

  lemma ArmedIsAccepted(f: Fates, w: World, op: Op)
    requires NodeSide(w) && Armed(f, w.node, op).Some?
    ensures Armed(f, w.node, op).value in w.past.accepted
  {
    hide Outlives, Charged;
  }

  lemma NothingHeardRejects(w: World, packet: seq<u8>, x: Identity)
    requires NeverRejects(w) && Audible(w, packet)
    ensures !Rejects(packet, x)
  {
  }

  lemma AcceptedGrows(f: Fates, g: Fates, ends: Endpoints, w: World, op: Op)
    ensures forall x :: x in w.past.accepted ==> x in Step(f, g, ends, w, op).past.accepted
  {
    hide ControllerService, TxStarted, TxStartFailed, TxCompleted, GrantTransmit, Create, AdmissionCandidate,
      ReclaimTerminals, PowerUp, Hub.Consume, Hub.Recover, HoldsActive, Audible, NewIdentity, Process, AdmitCandidate, Hub.Admit;
  }

  lemma InaudibleIsIgnored(f: Fates, g: Fates, ends: Endpoints, w: World, op: Op)
    requires op.Hear? && !Audible(w, op.packet)
    ensures Step(f, g, ends, w, op).node == w.node
  {
  }

  lemma StepTallied(f: Fates, g: Fates, ends: Endpoints, w: World, op: Op, tally: Identity -> nat, next: Identity -> nat)
    requires WorldInv(w, ends) && ValidEndpoints(ends.source, ends.hub) && NeverRejects(w) && Tallied(w, tally)
    requires forall x :: next(x) == tally(x) + if Armed(f, w.node, op) == Some(x) then 1 else 0
    ensures Tallied(Step(f, g, ends, w, op), next)
  {
    StepAccounted(f, g, ends, w, op);
    AcceptedGrows(f, g, ends, w, op);
    assert NodeSide(w);
    hide NodeInv, AirSide, HubSide, AckSide, Hub.LedgerInv, Step, Armed, NeverRejects, Rejects, Audible, EventIdentity.Frontier,
      NodeHolds, AllAccounted;
    if Armed(f, w.node, op).Some? {
      ArmedIsAccepted(f, w, op);
    }
    if op.Hear? {
      if Audible(w, op.packet) {
        forall x ensures !Rejects(op.packet, x) {
          NothingHeardRejects(w, op.packet, x);
        }
      } else {
        InaudibleIsIgnored(f, g, ends, w, op);
      }
    }
    var v := Step(f, g, ends, w, op);
    forall i | 0 <= i < 8 && SlotsOf(v.node)[i].Held?
      ensures SlotsOf(v.node)[i].attempts == next(SlotsOf(v.node)[i].identity)
      ensures Failed(SlotsOf(v.node)[i]) ==> SlotsOf(v.node)[i].attempts == MAX_ATTEMPTS
    {
      SlotAccounted(f, w.node, op, v.node, i);
    }
  }

  lemma SlotAccounted(f: Fates, n: Node, op: Op, m: Node, i: SlotIndex)
    requires AllAccounted(f, n, op, m)
    ensures Accounted(SlotsOf(n)[i], SlotsOf(m)[i], Armed(f, n, op), op, EventIdentity.Frontier(n.policy.store.alloc))
  {
    hide Armed, EventIdentity.Frontier, Accounted;
  }

  lemma {:induction false} RunTallied(f: Fates, g: Fates, ends: Endpoints, w: World, ops: seq<Op>)
    requires WorldInv(w, ends) && ValidEndpoints(ends.source, ends.hub) && NeverRejects(w) && Tallied(w, _ => 0)
    ensures NeverRejects(Run(f, g, ends, w, ops))
    ensures Tallied(Run(f, g, ends, w, ops), x => CountArmed(f, g, ends, w, ops, x))
    decreases |ops|
  {
    hide WorldInv, Step, NeverRejects, Armed;
    if ops == [] {
      hide Tallied;
      EmptyTally(f, g, ends, w);
    } else {
      hide Tallied;
      var before := ops[..|ops| - 1];
      var v := Run(f, g, ends, w, before);
      RunTallied(f, g, ends, w, before);
      RunKeepsInv(f, g, ends, w, before);
      StepNeverRejects(f, g, ends, v, ops[|ops| - 1]);
      StepTallied(f, g, ends, v, ops[|ops| - 1], x => CountArmed(f, g, ends, w, before, x), x => CountArmed(f, g, ends, w, ops, x));
    }
  }

  lemma EmptyTally(f: Fates, g: Fates, ends: Endpoints, w: World)
    requires Tallied(w, _ => 0)
    ensures Tallied(w, x => CountArmed(f, g, ends, w, [], x))
  {
  }

  lemma FirstBootTally(ends: Endpoints, epoch: u32)
    ensures NeverRejects(FirstBoot(ends, epoch)) && Tallied(FirstBoot(ends, epoch), _ => 0)
  {
  }

  /**
   Over every run from a first boot, with loss, repetition, reordering, failed and
   torn writes and reboots on both sides: the attempts of every record held are
   exactly the ones armed for it since it was created, across reboots; a record is
   FAILED only when that number is five; and the Hub never rejects an Event the
   Node sent, so a rejection never fails one.
   */
  lemma AttemptsAreAccounted(f: Fates, g: Fates, ends: Endpoints, epoch: u32, ops: seq<Op>)
    requires ValidEndpoints(ends.source, ends.hub) && epoch != 0
    ensures var w := Run(f, g, ends, FirstBoot(ends, epoch), ops);
      && NeverRejects(w)
      && forall i :: 0 <= i < 8 && SlotsOf(w.node)[i].Held? ==>
           var r := SlotsOf(w.node)[i];
           && r.attempts == CountArmed(f, g, ends, FirstBoot(ends, epoch), ops, r.identity)
           && (r.custody == FAILED ==> r.attempts == 5)
  {
    hide WorldInv, Run, NeverRejects, CountArmed, FirstBoot;
    FirstBootInv(ends, epoch);
    FirstBootTally(ends, epoch);
    RunTallied(f, g, ends, FirstBoot(ends, epoch), ops);
  }
}
