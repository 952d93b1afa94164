/**
 Retries over whole runs: with working storage an unanswered Event goes through
 exactly the retry schedule, five transmissions and then failure, unless it
 expires first; and over every run a record's attempts are the ones armed for it,
 and it fails only when they are used up or the Hub rejected it.
 */
module RetryGuarantees {
  import opened Words
  import opened EventStorage
  import opened EventProtocol
  import opened EventRecords
  import opened EventIdentity
  import opened NodeEventStore
  import opened NodeEventPolicy
  import opened NodeEventDelivery
  import Hub = HubEventLedger
  import opened HubEventRadio
  import opened EventPipeline
  import opened EventGuarantees
  import opened DeliveryProgress
  import opened AttemptGuarantees

  // ----- working storage

  /** Every write from the t-th on verifies. */
  ghost predicate WorksFrom(f: Fates, t: nat) {
    forall u :: u >= t ==> f(u) == Durable
  }

  lemma CheckpointWorks(f: Fates, p: PolicyState, i: SlotIndex, source: u8)
    requires StoreInv(p.store, source) && p.store.healthy && p.ready && CheckpointDue(p, i) && f(p.store.tick) == Durable
    ensures Checkpoint(f, p, i).1 == SERVICED && Checkpoint(f, p, i).0.store.tick == p.store.tick + 1
  {
    CheckpointStep(f, p.store, i, p.store.slots[i].remaining - CHECKPOINT_SECONDS, source);
  }

  lemma ExpireWorks(f: Fates, p: PolicyState, i: SlotIndex, source: u8)
    requires StoreInv(p.store, source) && p.store.healthy && p.ready && p.store.slots[i].Queued() && f(p.store.tick) == Durable
    ensures Expire(f, p, i).1 == SERVICED && Expire(f, p, i).0.store.tick == p.store.tick + 1
  {
    CommitAndReindexStep(f, p.store, i, p.store.slots[i].(custody := EXPIRED), source);
    hide StoreInv, CommitAndReindex;
  }

  lemma {:induction false} DrainWorks(f: Fates, p: PolicyState, i: SlotIndex, source: u8)
    requires StoreInv(p.store, source) && p.store.healthy && p.ready && WorksFrom(f, p.store.tick)
    ensures DrainSlot(f, p, i).1 == SERVICED && DrainSlot(f, p, i).0.store.tick >= p.store.tick
    decreases p.runtime[i].uncommitted
  {
    hide StoreInv;
    if p.store.slots[i].Queued() {
      if CheckpointDue(p, i) {
        CheckpointWorks(f, p, i, source);
        CheckpointOnce(f, p, i, source);
        DrainWorks(f, Checkpoint(f, p, i).0, i, source);
      } else if p.runtime[i].uncommitted >= p.store.slots[i].remaining * 1000 {
        ExpireWorks(f, p, i, source);
      }
    }
  }

  lemma ServiceSlotWorks(f: Fates, p: PolicyState, i: SlotIndex, now: u32, source: u8)
    requires StoreInv(p.store, source) && p.store.healthy && p.ready && WorksFrom(f, p.store.tick)
    ensures ServiceSlot(f, p, i, now).1 == SERVICED && ServiceSlot(f, p, i, now).0.store.tick >= p.store.tick
  {
    hide StoreInv, DrainSlot;
    if p.store.slots[i].Queued() && p.runtime[i].tracked {
      var elapsed := Wrap32(now - p.runtime[i].baseline);
      DrainWorks(f, p.(runtime := p.runtime[i := Runtime(true, now, p.runtime[i].uncommitted + elapsed)]), i, source);
    }
  }

  lemma {:induction false} ServiceFromWorks(f: Fates, p: PolicyState, i: nat, now: u32, source: u8)
    requires i <= 8 && StoreInv(p.store, source) && p.store.healthy && p.ready && WorksFrom(f, p.store.tick)
    ensures ServiceFrom(f, p, i, now).1 == SERVICED && ServiceFrom(f, p, i, now).0.store.tick >= p.store.tick
    decreases 8 - i
  {
    hide StoreInv, ServiceSlot;
    if i < 8 {
      ServiceSlotWorks(f, p, i, now, source);
      ServiceSlotStep(f, p, i, now, source);
      ServiceFromWorks(f, ServiceSlot(f, p, i, now).0, i + 1, now, source);
    }
  }

  /** While writes verify, charging time never stops the Node. */
  lemma ChargingWorks(f: Fates, n: Node, now: u32, source: u8)
    requires PolicyInv(n.policy, source) && Usable(n) && WorksFrom(f, n.policy.store.tick)
    ensures ChargeWorks(f, n, now) && Charged(f, n, now).store.tick >= n.policy.store.tick
  {
    hide StoreInv, ServiceFrom;
    ServiceFromWorks(f, n.policy, 0, now, source);
  }

  // ----- the retry schedule of one Event

  datatype Stage =
    | Idle | Ready | Sending | Waiting(since: u32) | Backing(since: u32, duration: u32) | Spent

  datatype Retry = Retry(stage: Stage, attempts: nat, sent: nat)

  function AfterAttempt(r: Retry, now: u32, jitter: u16): Retry {
    if r.attempts >= 5 then r.(stage := Spent)
    else r.(stage := Backing(now, Wrap32(jitter as int + Doubling(r.attempts))))
  }

  function NextTurn(busy: bool): Stage {
    if busy then Idle else Ready
  }

  /** The schedule: wait for the radio, send, wait 2500 ms, back off twice as long each time, give up after five. */
  function RetryStep(r: Retry, op: Op): Retry {
    match op
    case ServiceNode(now, busy, jitter) =>
      (match r.stage
       case Idle => r.(stage := if r.attempts >= 5 then Spent else NextTurn(busy))
       case Ready => r.(stage := NextTurn(busy))
       case Waiting(since) => if Wrap32(now - since) >= 2500 then AfterAttempt(r, now, jitter) else r
       case Backing(since, duration) => if Wrap32(now - since) >= duration then r.(stage := NextTurn(busy)) else r
       case _ => r)
    case Grant(_, _) => if r.stage == Ready then Retry(Sending, r.attempts + 1, r.sent + 1) else r
    case StartFailed(now, jitter) => if r.stage == Sending then AfterAttempt(r, now, jitter) else r
    case Completed(now) => if r.stage == Sending then r.(stage := Waiting(now)) else r
    case _ => r
  }

  function RunRetry(r: Retry, ops: seq<Op>): Retry
    decreases |ops|
  {
    if ops == [] then r else RetryStep(RunRetry(r, ops[..|ops| - 1]), ops[|ops| - 1])
  }

  predicate StageIs(c: Controller, stage: Stage) {
    match stage
    case Idle => c.phase == WAITING
    case Ready => c.phase == READY_TO_SEND
    case Sending => c.phase == TX
    case Waiting(since) => c.phase == WAIT_ADMISSION && c.origin == since
    case Backing(since, duration) => c.phase == BACKOFF && c.origin == since && c.duration == duration
    case Spent => c.phase == GAVE_UP
  }

  /** The Node is working on the Event `x` in slot `i`, at this point of its schedule. */
  predicate Follows(n: Node, i: SlotIndex, x: Identity, r: Retry) {
    && Usable(n) && n.ctl.active && n.ctl.slot == i && StageIs(n.ctl, r.stage)
    && SlotsOf(n)[i].Held? && SlotsOf(n)[i].identity == x && SlotsOf(n)[i].attempts == r.attempts
    && SlotsOf(n)[i].custody == (if r.stage == Spent then FAILED else QUEUED)
    && (r.stage == Spent ==> r.attempts == 5)
  }

  /** The Event expired in its slot. */
  predicate Gone(n: Node, i: SlotIndex, x: Identity) {
    && Usable(n) && n.ctl.active && n.ctl.slot == i && n.ctl.phase == LAPSED
    && SlotsOf(n)[i].Held? && SlotsOf(n)[i].identity == x && SlotsOf(n)[i].custody == EXPIRED
  }

  /** Operations that neither answer the Event, create, reclaim or reboot; the jitter source works and sequence numbers are at hand. */
  predicate Unanswered(op: Op, x: Identity) {
    match op
    case ServiceNode(_, _, jitter) => jitter <= 250
    case Grant(_, sequence) => sequence.Some?
    case Started(_) => true
    case StartFailed(_, jitter) => jitter <= 250
    case Completed(_) => true
    case Hear(packet, _, _) =>
      (match DecodeAdmissionResponse(packet)
       case None => true
       case Some(r) => r.identity != x)
    case Deliver(_) => true
    case ConsumeEvent(_) => true
    case RebootHub => true
    case _ => false
  }

  /** A node step that follows the schedule: still in delivery as scheduled, or expired. */
  ghost predicate Advances(f: Fates, n: Node, m: Node, i: SlotIndex, x: Identity, r: Retry) {
    (Gone(m, i, x) || Follows(m, i, x, r)) && m.policy.store.tick >= n.policy.store.tick
  }

  lemma LapsedIsGone(f: Fates, n: Node, now: u32, m: Node, i: SlotIndex, x: Identity, r: Retry, s: Retry, source: u8)
    requires PolicyInv(n.policy, source) && WorksFrom(f, n.policy.store.tick) && Follows(n, i, x, r)
    requires LapsedOrStopped(f, n, now, m)
    ensures Advances(f, n, m, i, x, s)
  {
    hide PolicyInv, Service, WorksFrom;
    ChargingWorks(f, n, now, source);
    HeadAges(f, n, now, source);
  }

  lemma HeadAges(f: Fates, n: Node, now: u32, source: u8)
    requires PolicyInv(n.policy, source) && Usable(n) && n.ctl.active && n.ctl.slot < 8
    ensures Aged(SlotsOf(n)[n.ctl.slot], ChargedHead(f, n, now))
    ensures ChargeWorks(f, n, now) ==> Charged(f, n, now).ready && Charged(f, n, now).store.healthy
  {
    hide PolicyInv, Service;
    ServiceStep(f, n.policy, now, source);
  }

  /** The end of an attempt, as the schedule has it. */
  lemma AttemptFollows(f: Fates, n: Node, now: u32, jitter: u16, m: Node, i: SlotIndex, x: Identity, r: Retry, source: u8)
    requires PolicyInv(n.policy, source) && WorksFrom(f, n.policy.store.tick) && Follows(n, i, x, r) && Outlives(f, n, now)
    requires r.stage == Sending || r.stage.Waiting?
    requires jitter <= 250 && r.attempts <= 5 && AttemptEnded(f, n.ctl, Charged(f, n, now), m, now, jitter)
    ensures Advances(f, n, m, i, x, AfterAttempt(r, now, jitter))
  {
    hide PolicyInv, Service, Doubling;
    ChargingWorks(f, n, now, source);
    HeadAges(f, n, now, source);
  }

  lemma ServiceFollows(f: Fates, n: Node, now: u32, busy: bool, jitter: u16, ends: Endpoints, i: SlotIndex, x: Identity, r: Retry)
    requires NodeInv(n, ends) && WorksFrom(f, n.policy.store.tick) && Follows(n, i, x, r) && r.stage != Spent && jitter <= 250
    ensures Advances(f, n, ControllerService(f, n, now, busy, jitter).0, i, x, RetryStep(r, ServiceNode(now, busy, jitter)))
  {
    hide PolicyInv, Service, ControllerService, WorksFrom, AttemptEnded, EncodeEvent;
    var m := ControllerService(f, n, now, busy, jitter).0;
    ChargingWorks(f, n, now, ends.source);
    HeadAges(f, n, now, ends.source);
    AttemptsInRange(n, ends.source);
    if Outlives(f, n, now) {
      ServiceEffects(f, n, now, busy, jitter, ends);
      if r.stage.Waiting? && Wrap32(now - r.stage.since) >= 2500 {
        AttemptFollows(f, n, now, jitter, m, i, x, r, ends.source);
      }
      WorksAt(f, n.policy.store.tick, Charged(f, n, now).store.tick);
    } else {
      LapseEffects(f, n, now, busy, jitter, None, [], ends);
      LapsedIsGone(f, n, now, m, i, x, r, RetryStep(r, ServiceNode(now, busy, jitter)), ends.source);
    }
  }

  lemma WorksAt(f: Fates, t: nat, u: nat)
    requires WorksFrom(f, t) && u >= t
    ensures f(u) == Durable && WorksFrom(f, u)
  {
  }

  lemma GrantFollows(f: Fates, n: Node, now: u32, sequence: Option<u8>, ends: Endpoints, i: SlotIndex, x: Identity, r: Retry)
    requires NodeInv(n, ends) && ValidEndpoints(ends.source, ends.hub)
    requires WorksFrom(f, n.policy.store.tick) && Follows(n, i, x, r) && sequence.Some?
    ensures var (m, result) := GrantTransmit(f, ends, n, now, sequence);
      && Advances(f, n, m, i, x, RetryStep(r, Grant(now, sequence)))
      && (result.action.Transmit? ==> r.stage == Ready)
      && (r.stage == Ready ==> result.action.Transmit? || Gone(m, i, x))
  {
    hide PolicyInv, Service, GrantTransmit, WorksFrom, EncodeEvent;
    var (m, result) := GrantTransmit(f, ends, n, now, sequence);
    if r.stage == Ready {
      ChargingWorks(f, n, now, ends.source);
      HeadAges(f, n, now, ends.source);
      WorksAt(f, n.policy.store.tick, Charged(f, n, now).store.tick);
      if Outlives(f, n, now) {
        GrantEffects(f, n, now, sequence, ends);
      } else {
        LapseEffects(f, n, now, false, 0, sequence, [], ends);
        LapsedIsGone(f, n, now, m, i, x, r, RetryStep(r, Grant(now, sequence)), ends.source);
        LapsedGrant(f, n, now, sequence, ends);
      }
    } else {
      assert (m, result) == (n, Result(INVALID_STATE, NoAction)) by {
        IdleGrant(f, n, now, sequence, ends);
      }
    }
  }

  lemma IdleGrant(f: Fates, n: Node, now: u32, sequence: Option<u8>, ends: Endpoints)
    requires Usable(n) && n.ctl.phase != READY_TO_SEND
    ensures GrantTransmit(f, ends, n, now, sequence) == (n, Result(INVALID_STATE, NoAction))
  {
  }

  lemma LapsedGrant(f: Fates, n: Node, now: u32, sequence: Option<u8>, ends: Endpoints)
    requires NodeInv(n, ends) && Usable(n) && n.ctl.phase == READY_TO_SEND && !Outlives(f, n, now)
    ensures !GrantTransmit(f, ends, n, now, sequence).1.action.Transmit?
  {
    hide PolicyInv, ServiceLifetime, Service, PolicyArmAttempt;
    LifetimeOutcome(f, InPhase(n, TX_PREPARE), now, ends.source);
  }

  /** The radio's notices, and packets that do not answer the Event. */
  lemma NoticeFollows(f: Fates, n: Node, op: Op, ends: Endpoints, i: SlotIndex, x: Identity, r: Retry)
    requires NodeInv(n, ends) && WorksFrom(f, n.policy.store.tick) && Follows(n, i, x, r) && Unanswered(op, x)
    requires op.Started? || op.StartFailed? || op.Completed? || op.Hear?
    ensures Advances(f, n, Flown(f, n, op), i, x, RetryStep(r, op))
  {
    hide PolicyInv, Service, WorksFrom, EncodeEvent, DecodeAdmissionResponse, AttemptEnded, TxStarted, TxStartFailed, TxCompleted,
      AdmissionCandidate, LapsedOrStopped, AfterAttempt, Answered;
    FlownOutOfPhase(f, n, op);
    if (!op.Hear? && r.stage == Sending) || (op.Hear? && r.stage.Waiting?) {
      ChargingWorks(f, n, op.now, ends.source);
      HeadAges(f, n, op.now, ends.source);
      AttemptsInRange(n, ends.source);
      if Outlives(f, n, op.now) {
        match op
        case Started(now) => RadioEffects(f, n, now, 0, ends);
        case Completed(now) => RadioEffects(f, n, now, 0, ends);
        case StartFailed(now, jitter) =>
          RadioEffects(f, n, now, jitter, ends);
          AttemptFollows(f, n, now, jitter, TxStartFailed(f, n, now, jitter).0, i, x, r, ends.source);
        case Hear(packet, now, jitter) =>
          AnswerEffects(f, n, packet, now, jitter, ends);
      } else {
        LapseEffects(f, n, op.now, false, if op.StartFailed? || op.Hear? then op.jitter else 0, None,
                     if op.Hear? then op.packet else [], ends);
        LapsedIsGone(f, n, op.now, Flown(f, n, op), i, x, r, RetryStep(r, op), ends.source);
      }
    }
  }

  /** Once failed or expired, the Event stays so under any of these operations. */
  lemma TerminalStays(f: Fates, n: Node, now: u32, busy: bool, jitter: u16, ends: Endpoints)
    requires NodeInv(n, ends) && WorksFrom(f, n.policy.store.tick) && Usable(n) && n.ctl.active && ActiveRecord(n).Terminal()
    requires n.ctl.phase == GAVE_UP || n.ctl.phase == LAPSED
    ensures var m := ControllerService(f, n, now, busy, jitter).0;
      && Usable(m) && m.ctl.active && m.ctl.slot == n.ctl.slot && m.ctl.phase == n.ctl.phase
      && ActiveRecord(m) == ActiveRecord(n) && m.policy.store.tick >= n.policy.store.tick
  {
    hide PolicyInv, ServiceLifetime, Service, WorksFrom;
    ChargingWorks(f, n, now, ends.source);
    ServiceLifetimeStep(f, n, now, ends.source);
    HeadAges(f, n, now, ends.source);
    LifetimePolicy(f, n, now);
  }

  lemma LifetimePolicy(f: Fates, n: Node, now: u32)
    ensures ServiceLifetime(f, n, now).0.policy == Charged(f, n, now)
    ensures ServiceLifetime(f, n, now).1 == ChargeWorks(f, n, now)
  {
    hide Service;
  }

  // ----- every run

  /** Still on the schedule, with exactly its transmissions on the air; or expired. */
  predicate OnSchedule(w: World, i: SlotIndex, x: Identity, r: Retry) {
    Gone(w.node, i, x) || (Follows(w.node, i, x, r) && CountSent(w.air, x) == r.sent)
  }

  lemma GrantSends(f: Fates, w: World, now: u32, sequence: Option<u8>, ends: Endpoints, i: SlotIndex, x: Identity, r: Retry)
    requires WorldInv(w, ends) && ValidEndpoints(ends.source, ends.hub) && Follows(w.node, i, x, r)
    ensures var result := GrantTransmit(f, ends, w.node, now, sequence).1;
      result.action.Transmit? ==> CountSent(w.air + [result.action.bytes], x) == CountSent(w.air, x) + 1
  {
    hide NodeInv, AirSide, HubSide, AckSide, Hub.LedgerInv, GrantTransmit, InFlight, Least, EncodeEvent;
    GrantTransmitStep(f, w.node, now, sequence, ends);
    var (m, result) := GrantTransmit(f, ends, w.node, now, sequence);
    if result.action.Transmit? {
      hide Transmitted;
      TransmittedSlot(w.node, m, result.action.bytes, ends);
      TransmissionIsGenuine(w, m, result.action.bytes, ends);
      CountAppended(w.air, result.action.bytes, x);
    }
  }

  lemma TransmittedSlot(n: Node, m: Node, bytes: seq<u8>, ends: Endpoints)
    requires Transmitted(n, m, bytes, ends)
    ensures m.ctl.slot == n.ctl.slot
  {
  }

  lemma StepOnSchedule(f: Fates, g: Fates, ends: Endpoints, w: World, op: Op, i: SlotIndex, x: Identity, r: Retry)
    requires WorldInv(w, ends) && ValidEndpoints(ends.source, ends.hub) && WorksFrom(f, w.node.policy.store.tick)
    requires OnSchedule(w, i, x, r) && Unanswered(op, x)
    ensures var v := Step(f, g, ends, w, op);
      OnSchedule(v, i, x, RetryStep(r, op)) && v.node.policy.store.tick >= w.node.policy.store.tick
  {
    hide WorldInv, Step, CountSent, Follows, RetryStep, Gone;
    if op.Deliver? || op.ConsumeEvent? || op.RebootHub? {
      HubStepOnly(f, g, ends, w, op);
      RetrySent(r, op);
    } else if Gone(w.node, i, x) || r.stage == Spent {
      SettledStep(f, g, ends, w, op, i, x, r);
    } else if op.Grant? {
      GrantedStep(f, g, ends, w, op.now, op.sequence, i, x, r);
    } else {
      WorkingStep(f, g, ends, w, op, i, x, r);
    }
  }

  lemma RetrySent(r: Retry, op: Op)
    ensures RetryStep(r, op).sent == r.sent + if op.Grant? && r.stage == Ready then 1 else 0
    ensures op.Deliver? || op.ConsumeEvent? || op.RebootHub? || r.stage == Spent ==> RetryStep(r, op) == r
  {
  }

  lemma SettledStep(f: Fates, g: Fates, ends: Endpoints, w: World, op: Op, i: SlotIndex, x: Identity, r: Retry)
    requires WorldInv(w, ends) && WorksFrom(f, w.node.policy.store.tick)
    requires OnSchedule(w, i, x, r) && Unanswered(op, x) && (Gone(w.node, i, x) || r.stage == Spent)
    requires !op.Deliver? && !op.ConsumeEvent? && !op.RebootHub?
    ensures var v := Step(f, g, ends, w, op);
      OnSchedule(v, i, x, RetryStep(r, op)) && v.node.policy.store.tick >= w.node.policy.store.tick
  {
    assert NodeInv(w.node, ends);
    hide WorldInv, NodeInv, ControllerService, TxStarted, TxStartFailed, TxCompleted, GrantTransmit, AdmissionCandidate,
      WorksFrom, CountSent, DecodeAdmissionResponse, RetryStep;
    RetrySent(r, op);
    match op
    case ServiceNode(now, busy, jitter) => TerminalStays(f, w.node, now, busy, jitter, ends);
    case Grant(now, sequence) => IdleGrant(f, w.node, now, sequence, ends);
    case _ => FlownOutOfPhase(f, w.node, op);
  }

  lemma GrantedStep(f: Fates, g: Fates, ends: Endpoints, w: World, now: u32, sequence: Option<u8>, i: SlotIndex, x: Identity, r: Retry)
    requires WorldInv(w, ends) && ValidEndpoints(ends.source, ends.hub) && WorksFrom(f, w.node.policy.store.tick)
    requires Follows(w.node, i, x, r) && CountSent(w.air, x) == r.sent && sequence.Some?
    ensures var v := Step(f, g, ends, w, Grant(now, sequence));
      OnSchedule(v, i, x, RetryStep(r, Grant(now, sequence))) && v.node.policy.store.tick >= w.node.policy.store.tick
  {
    assert NodeInv(w.node, ends);
    hide WorldInv, NodeInv, GrantTransmit, WorksFrom, CountSent, Follows, Gone, RetryStep;
    GrantFollows(f, w.node, now, sequence, ends, i, x, r);
    GrantSends(f, w, now, sequence, ends, i, x, r);
    RetrySent(r, Grant(now, sequence));
  }

  lemma WorkingStep(f: Fates, g: Fates, ends: Endpoints, w: World, op: Op, i: SlotIndex, x: Identity, r: Retry)
    requires WorldInv(w, ends) && WorksFrom(f, w.node.policy.store.tick)
    requires Follows(w.node, i, x, r) && CountSent(w.air, x) == r.sent && r.stage != Spent && Unanswered(op, x)
    requires op.ServiceNode? || op.Started? || op.StartFailed? || op.Completed? || op.Hear?
    ensures var v := Step(f, g, ends, w, op);
      OnSchedule(v, i, x, RetryStep(r, op)) && v.node.policy.store.tick >= w.node.policy.store.tick
  {
    assert NodeInv(w.node, ends);
    hide WorldInv, NodeInv, ControllerService, TxStarted, TxStartFailed, TxCompleted, AdmissionCandidate,
      WorksFrom, CountSent, DecodeAdmissionResponse, Follows, Gone;
    RetrySent(r, op);
    match op
    case ServiceNode(now, busy, jitter) => ServiceFollows(f, w.node, now, busy, jitter, ends, i, x, r);
    case Hear(packet, _, _) =>
      NoticeFollows(f, w.node, op, ends, i, x, r);
      if !Audible(w, packet) {
        Unheard(w.node, op, i, x, r);
      }
    case _ => NoticeFollows(f, w.node, op, ends, i, x, r);
    hide RetryStep;
  }

  lemma Unheard(n: Node, op: Op, i: SlotIndex, x: Identity, r: Retry)
    requires op.Hear? && Follows(n, i, x, r)
    ensures RetryStep(r, op) == r
  {
  }

  lemma HubStepOnly(f: Fates, g: Fates, ends: Endpoints, w: World, op: Op)
    requires op.Deliver? || op.ConsumeEvent? || op.RebootHub?
    ensures Step(f, g, ends, w, op).node == w.node && Step(f, g, ends, w, op).air == w.air
  {
    hide Process, AdmitCandidate, Hub.Admit, Hub.Consume, Hub.Recover, HoldsActive;
  }

  /**
   From any reachable state with working storage, under any operations that leave
   the Event unanswered, at any times and in any order: the controller follows the
   schedule exactly, transmission by transmission, until the Event expires.
   */
  lemma {:induction false} RetriesFollowSchedule(f: Fates, g: Fates, ends: Endpoints, w: World, ops: seq<Op>,
                                                 i: SlotIndex, x: Identity, r: Retry)
    requires WorldInv(w, ends) && ValidEndpoints(ends.source, ends.hub) && WorksFrom(f, w.node.policy.store.tick)
    requires OnSchedule(w, i, x, r) && forall k :: 0 <= k < |ops| ==> Unanswered(ops[k], x)
    ensures OnSchedule(Run(f, g, ends, w, ops), i, x, RunRetry(r, ops))
    ensures Run(f, g, ends, w, ops).node.policy.store.tick >= w.node.policy.store.tick
    decreases |ops|
  {
    hide WorldInv, Step, OnSchedule, RetryStep, Unanswered;
    if ops != [] {
      var front := ops[..|ops| - 1];
      RetriesFollowSchedule(f, g, ends, w, front, i, x, r);
      RunKeepsInv(f, g, ends, w, front);
      var v := Run(f, g, ends, w, front);
      WorksAt(f, w.node.policy.store.tick, v.node.policy.store.tick);
      StepOnSchedule(f, g, ends, v, ops[|ops| - 1], i, x, RunRetry(r, front));
    }
  }

  // ----- five times and no more

  /**
   One round of the schedule: a grant, anything while sending, the completion,
   anything before the timeout is due, the timeout, anything before the backoff is
   due, and the service that ends it.
   */
  datatype Round = Round(
    grant: u32, sequence: u8, sending: seq<Op>, completed: u32, waiting: seq<Op>, timeout: u32, jitter: u16,
    backing: seq<Op>, due: u32)

  function RoundOps(r: Round): seq<Op> {
    [Grant(r.grant, Some(r.sequence))] + r.sending + [Completed(r.completed)] + r.waiting
    + [ServiceNode(r.timeout, false, r.jitter)] + r.backing + [ServiceNode(r.due, false, 0)]
  }

  function AllRounds(rounds: seq<Round>): seq<Op> {
    if rounds == [] then [] else AllRounds(rounds[..|rounds| - 1]) + RoundOps(rounds[|rounds| - 1])
  }

  /** None of these services comes `limit` or more milliseconds after `since`. */
  predicate Early(ops: seq<Op>, x: Identity, since: u32, limit: nat) {
    forall k :: 0 <= k < |ops| ==> Unanswered(ops[k], x) && (ops[k].ServiceNode? ==> Wrap32(ops[k].now - since) < limit)
  }

  predicate StillSending(ops: seq<Op>, x: Identity) {
    forall k :: 0 <= k < |ops| ==> Unanswered(ops[k], x) && !ops[k].Completed? && !ops[k].StartFailed?
  }

  /** The round leaves the Event unanswered and serves each deadline once it is due. */
  predicate OnTime(r: Round, x: Identity, attempt: nat) {
    && StillSending(r.sending, x) && r.jitter <= 250
    && Early(r.waiting, x, r.completed, 2500) && Wrap32(r.timeout - r.completed) >= 2500
    && Early(r.backing, x, r.timeout, Wrap32(r.jitter as int + Doubling(attempt)))
    && Wrap32(r.due - r.timeout) >= Wrap32(r.jitter as int + Doubling(attempt))
  }

  lemma {:induction false} RunRetryAppend(r: Retry, a: seq<Op>, b: seq<Op>)
    ensures RunRetry(r, a + b) == RunRetry(RunRetry(r, a), b)
    decreases |b|
  {
    hide RetryStep;
    if b == [] {
      assert a + b == a;
    } else {
      assert (a + b)[..|a + b| - 1] == a + b[..|b| - 1];
      RunRetryAppend(r, a, b[..|b| - 1]);
    }
  }

  /** Operations that change nothing in a stage change nothing together. */
  lemma {:induction false} RetryRests(r: Retry, ops: seq<Op>)
    requires forall k :: 0 <= k < |ops| ==> RetryStep(r, ops[k]) == r
    ensures RunRetry(r, ops) == r
    decreases |ops|
  {
    if ops != [] {
      RetryRests(r, ops[..|ops| - 1]);
    }
  }

  lemma RetryOne(r: Retry, op: Op)
    ensures RunRetry(r, [op]) == RetryStep(r, op)
  {
    assert [op][..0] == [];
    assert RunRetry(r, []) == r;
  }

  /** The stages of a round, one after the other. */
  lemma RoundSplits(r: Retry, round: Round)
    ensures RunRetry(r, RoundOps(round)) ==
      var a := RunRetry(RetryStep(r, Grant(round.grant, Some(round.sequence))), round.sending);
      var b := RunRetry(RetryStep(a, Completed(round.completed)), round.waiting);
      var c := RunRetry(RetryStep(b, ServiceNode(round.timeout, false, round.jitter)), round.backing);
      RetryStep(c, ServiceNode(round.due, false, 0))
  {
    hide RetryStep, RunRetry;
    var grant, done := [Grant(round.grant, Some(round.sequence))], [Completed(round.completed)];
    var late, due := [ServiceNode(round.timeout, false, round.jitter)], [ServiceNode(round.due, false, 0)];
    RetryOne(r, grant[0]);
    RunRetryAppend(r, grant, round.sending);
    RunRetryAppend(r, grant + round.sending, done);
    RetryOne(RunRetry(r, grant + round.sending), done[0]);
    RunRetryAppend(r, grant + round.sending + done, round.waiting);
    RunRetryAppend(r, grant + round.sending + done + round.waiting, late);
    RetryOne(RunRetry(r, grant + round.sending + done + round.waiting), late[0]);
    RunRetryAppend(r, grant + round.sending + done + round.waiting + late, round.backing);
    RunRetryAppend(r, grant + round.sending + done + round.waiting + late + round.backing, due);
    RetryOne(RunRetry(r, grant + round.sending + done + round.waiting + late + round.backing), due[0]);
  }

  lemma SendingRests(r: Retry, ops: seq<Op>, x: Identity)
    requires r.stage == Sending && StillSending(ops, x)
    ensures RunRetry(r, ops) == r
  {
    hide Unanswered;
    RetryRests(r, ops);
  }

  lemma WaitingRests(r: Retry, ops: seq<Op>, x: Identity)
    requires r.stage.Waiting? && Early(ops, x, r.stage.since, 2500)
    ensures RunRetry(r, ops) == r
  {
    hide Unanswered;
    RetryRests(r, ops);
  }

  lemma BackingRests(r: Retry, ops: seq<Op>, x: Identity)
    requires r.stage == Spent || (r.stage.Backing? && Early(ops, x, r.stage.since, r.stage.duration))
    ensures RunRetry(r, ops) == r
  {
    hide Unanswered;
    RetryRests(r, ops);
  }

  /** A round on time is one more attempt and one more transmission. */
  lemma RoundCounts(r: Retry, round: Round, x: Identity)
    requires r.stage == Ready && r.attempts < 5 && OnTime(round, x, r.attempts + 1)
    ensures RunRetry(r, RoundOps(round))
         == Retry(if r.attempts == 4 then Spent else Ready, r.attempts + 1, r.sent + 1)
  {
    hide Unanswered, Doubling, RunRetry, Early, StillSending, Wrap32, RoundOps;
    var sending := Retry(Sending, r.attempts + 1, r.sent + 1);
    var waiting := sending.(stage := Waiting(round.completed));
    RoundSplits(r, round);
    SendingRests(sending, round.sending, x);
    WaitingRests(waiting, round.waiting, x);
    BackingRests(AfterAttempt(waiting, round.timeout, round.jitter), round.backing, x);
  }

  lemma {:induction false} RoundsCount(r: Retry, rounds: seq<Round>, x: Identity)
    requires r.stage == Ready && r.attempts + |rounds| <= 5
    requires forall k :: 0 <= k < |rounds| ==> OnTime(rounds[k], x, r.attempts + 1 + k)
    ensures var n := |rounds|;
      RunRetry(r, AllRounds(rounds)) == Retry(if n > 0 && r.attempts + n == 5 then Spent else Ready, r.attempts + n, r.sent + n)
    decreases |rounds|
  {
    hide OnTime, RoundOps;
    if rounds != [] {
      var front, last := rounds[..|rounds| - 1], rounds[|rounds| - 1];
      RoundsCount(r, front, x);
      RoundCounts(RunRetry(r, AllRounds(front)), last, x);
      RunRetryAppend(r, AllRounds(front), RoundOps(last));
    }
  }

  lemma {:induction false} RoundsAreUnanswered(rounds: seq<Round>, x: Identity, attempt: nat)
    requires forall k :: 0 <= k < |rounds| ==> OnTime(rounds[k], x, attempt + k)
    ensures forall k :: 0 <= k < |AllRounds(rounds)| ==> Unanswered(AllRounds(rounds)[k], x)
    decreases |rounds|
  {
    hide Doubling, DecodeAdmissionResponse;
    if rounds != [] {
      RoundsAreUnanswered(rounds[..|rounds| - 1], x, attempt);
      assert OnTime(rounds[|rounds| - 1], x, attempt + |rounds| - 1);
    }
  }

  /**
   From any reachable state with working storage, an Event ready to send that is
   never answered and is served once each deadline is due is transmitted until it
   has used five attempts in all, and is then durably failed, unless it expires
   first.
   */
  lemma UnansweredIsSentFiveTimes(f: Fates, g: Fates, ends: Endpoints, w: World, rounds: seq<Round>)
    requires WorldInv(w, ends) && ValidEndpoints(ends.source, ends.hub) && WorksFrom(f, w.node.policy.store.tick)
    requires Usable(w.node) && w.node.ctl.phase == READY_TO_SEND
    requires ActiveRecord(w.node).Held? && |rounds| + ActiveRecord(w.node).attempts as int == 5
    requires forall k :: 0 <= k < |rounds| ==>
      OnTime(rounds[k], ActiveRecord(w.node).identity, ActiveRecord(w.node).attempts as int + 1 + k)
    ensures var v := Run(f, g, ends, w, AllRounds(rounds));
      var x := ActiveRecord(w.node).identity;
      && v.node.ctl.slot == w.node.ctl.slot && ActiveRecord(v.node).Held? && ActiveRecord(v.node).identity == x
      && (ActiveRecord(v.node).custody == EXPIRED ||
            (&& ActiveRecord(v.node).custody == FAILED && ActiveRecord(v.node).attempts == 5
             && CountSent(v.air, x) == CountSent(w.air, x) + |rounds|))
  {
    hide WorldInv, Run, CountSent, OnTime, Follows, RunRetry;
    ReadyFollows(w, ends);
    var x, i := ActiveRecord(w.node).identity, w.node.ctl.slot;
    var r := Retry(Ready, ActiveRecord(w.node).attempts, CountSent(w.air, x));
    RoundsAreUnanswered(rounds, x, r.attempts + 1);
    RoundsCount(r, rounds, x);
    RetriesFollowSchedule(f, g, ends, w, AllRounds(rounds), i, x, r);
    ScheduleSpent(Run(f, g, ends, w, AllRounds(rounds)), i, x, r.sent + |rounds|);
  }

  lemma ReadyFollows(w: World, ends: Endpoints)
    requires WorldInv(w, ends) && Usable(w.node) && w.node.ctl.phase == READY_TO_SEND
    ensures w.node.ctl.slot < 8 && ActiveRecord(w.node).Held? && ActiveRecord(w.node).attempts < 5
    ensures var r := ActiveRecord(w.node);
      Follows(w.node, w.node.ctl.slot, r.identity, Retry(Ready, r.attempts, CountSent(w.air, r.identity)))
  {
    hide NodeSide, AirSide, HubSide, AckSide, Hub.LedgerInv, PolicyInv, CountSent;
  }

  lemma ScheduleSpent(v: World, i: SlotIndex, x: Identity, sent: nat)
    requires OnSchedule(v, i, x, Retry(Spent, 5, sent))
    ensures v.node.ctl.slot == i && ActiveRecord(v.node).Held? && ActiveRecord(v.node).identity == x
    ensures ActiveRecord(v.node).custody == EXPIRED ||
      (ActiveRecord(v.node).custody == FAILED && ActiveRecord(v.node).attempts == 5 && CountSent(v.air, x) == sent)
  {
    hide CountSent;
  }

  // ----- recovery with working storage

  lemma {:induction false} DebitWorks(f: Fates, s: StoreState, i: nat, source: u8)
    requires i <= 8 && StoreInv(s, source) && s.healthy && WorksFrom(f, s.tick)
    ensures DebitFrom(f, s, i).1 && DebitFrom(f, s, i).0.tick >= s.tick
    decreases 8 - i
  {
    hide StoreInv, DebitSlot;
    if i < 8 {
      if s.slots[i].Queued() {
        DebitSlotWorks(f, s, i, source);
        DebitSlotStep(f, s, i, source);
        DebitWorks(f, DebitSlot(f, s, i).0, i + 1, source);
      } else {
        DebitWorks(f, s, i + 1, source);
      }
    }
  }

  lemma DebitSlotWorks(f: Fates, s: StoreState, i: SlotIndex, source: u8)
    requires StoreInv(s, source) && s.healthy && s.slots[i].Queued() && f(s.tick) == Durable
    ensures DebitSlot(f, s, i).1 == OK && DebitSlot(f, s, i).0.tick == s.tick + 1
  {
    if s.slots[i].remaining > CHECKPOINT_SECONDS {
      CheckpointStep(f, s, i, s.slots[i].remaining - CHECKPOINT_SECONDS, source);
    } else {
      CommitAndReindexStep(f, s, i, s.slots[i].(custody := EXPIRED), source);
      RetireStep(f, s, i, EXPIRED, source);
    }
    hide StoreInv, CommitAndReindex;
  }

  lemma {:induction false} ReclaimWorks(f: Fates, n: Node, i: nat, ends: Endpoints)
    requires i <= 8 && NodeInv(n, ends) && n.policy.store.healthy && !n.ctl.active && WorksFrom(f, n.policy.store.tick)
    ensures ReclaimFrom(f, n, i).1 && ReclaimFrom(f, n, i).0.policy.store.tick >= n.policy.store.tick
    decreases 8 - i
  {
    hide NodeInv, ReclaimSlot;
    if i < 8 {
      ReclaimSlotWorks(f, n, i, ends);
      ReclaimSlotStep(f, n, i, ends);
      ReclaimWorks(f, ReclaimSlot(f, n, i).0, i + 1, ends);
    }
  }

  lemma ReclaimSlotWorks(f: Fates, n: Node, i: SlotIndex, ends: Endpoints)
    requires NodeInv(n, ends) && n.policy.store.healthy && !n.ctl.active && f(n.policy.store.tick) == Durable
    ensures ReclaimSlot(f, n, i).1 && ReclaimSlot(f, n, i).0.policy.store.tick >= n.policy.store.tick
  {
    if SlotsOf(n)[i].Terminal() {
      CommitAndReindexStep(f, n.policy.store, i, Free, ends.source);
    }
    hide StoreInv, CommitAndReindex;
  }

  /** What a power-up makes of one record. */
  predicate PoweredUp(a: NodeRecord, b: NodeRecord) {
    if !a.Queued() then b == Free
    else b == DebitRecord(a) || (DebitRecord(a).Queued() && a.attempts == MAX_ATTEMPTS && b == DebitRecord(a).(custody := FAILED))
  }

  lemma ControllerRecovers(f: Fates, s: StoreState, now: u32, ends: Endpoints)
    requires StoreInv(s, ends.source) && s.healthy && WorksFrom(f, s.tick) && ValidEndpoints(ends.source, ends.hub)
    ensures var m := RecoverController(f, ends, s, now).0;
      && Usable(m)
      && (forall i :: 0 <= i < 8 ==>
            || SlotsOf(m)[i] == DebitRecord(s.slots[i])
            || (DebitRecord(s.slots[i]).Queued() && s.slots[i].attempts == MAX_ATTEMPTS
                && SlotsOf(m)[i] == DebitRecord(s.slots[i]).(custody := FAILED)))
      && ((exists i :: 0 <= i < 8 && SlotsOf(m)[i].Queued()) ==> m.ctl.active && m.ctl.phase in {WAITING, GAVE_UP})
  {
    hide StoreInv, RecoverPolicy, GiveUpOrDegrade, WorksFrom;
    var (p, status) := RecoverPolicy(f, s, now);
    PolicyRecovers(f, s, now, ends.source);
    RecoverPolicyStep(f, s, now, ends.source);
    var n := LoadHead(Node(p, FRESH.(initialized := true)));
    LoadedHeadIsLeast(p, ends.source);
    QueueIsExact(n, ends.source);
    WorksAt(f, s.tick, p.store.tick);
    if ActiveRecord(n).Held? && ActiveRecord(n).attempts >= MAX_ATTEMPTS {
      AttemptsInRange(n, ends.source);
      GivesUp(f, n, Result(FINE, NoAction), ends.source);
    }
  }

  lemma PolicyRecovers(f: Fates, s: StoreState, now: u32, source: u8)
    requires StoreInv(s, source) && s.healthy && WorksFrom(f, s.tick)
    ensures RecoverPolicy(f, s, now).1 == SERVICED && RecoverPolicy(f, s, now).0.store.tick >= s.tick
  {
    hide StoreInv;
    DebitWorks(f, s, 0, source);
  }

  /**
   A power-up with working storage always leaves a usable Node: terminal records
   are gone, every queued one is a checkpoint poorer or expired, a head that had
   used its five attempts is failed, and if anything is queued it is being served.
   */
  lemma PowerUpRecovers(f: Fates, n: Node, now: u32, entropy: u32, ends: Endpoints)
    requires NodeInv(n, ends) && ValidEndpoints(ends.source, ends.hub) && WorksFrom(f, n.policy.store.tick)
    ensures var m := PowerUp(f, ends, n, now, entropy);
      && Usable(m) && (forall i :: 0 <= i < 8 ==> PoweredUp(SlotsOf(n)[i], SlotsOf(m)[i]))
      && ((exists i :: 0 <= i < 8 && SlotsOf(m)[i].Queued()) ==> m.ctl.active && m.ctl.phase in {WAITING, GAVE_UP})
  {
    hide StoreInv, RecoverStore, ReclaimFrom, RecoverController, WorksFrom;
    RecoverStep(f, n.policy.store, ends.source, entropy);
    var s := RecoverStore(f, n.policy.store, ends.source, entropy);
    var blank := Node(PolicyState(s, TrackedFrom(NO_SLOTS, now), false), FRESH);
    ReclaimFromStep(f, blank, 0, ends);
    ReclaimWorks(f, blank, 0, ends);
    var m := ReclaimTerminals(f, blank).0;
    WorksAt(f, s.tick, m.policy.store.tick);
    ControllerRecovers(f, m.policy.store, now, ends);
  }
}
