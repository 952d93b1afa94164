/**
 What the delivery controller does, step by step, beyond what it keeps: the
 effect of every answer, deadline and grant on the active Event, stated against
 the records as they are once the elapsed time has been charged.
 */
module DeliveryProgress {
  import opened Words
  import opened EventStorage
  import opened EventProtocol
  import opened EventRecords
  import opened EventIdentity
  import opened NodeEventStore
  import opened NodeEventPolicy
  import opened NodeEventDelivery

  // ----- charging time

  /** The policy once the time up to `now` has been charged. */
  function Charged(f: Fates, n: Node, now: u32): PolicyState {
    Service(f, n.policy, now).0
  }

  /** Time was charged without a storage failure. */
  predicate ChargeWorks(f: Fates, n: Node, now: u32) {
    Service(f, n.policy, now).1 == SERVICED
  }

  /** The record of the active slot once time has been charged. */
  function ChargedHead(f: Fates, n: Node, now: u32): NodeRecord {
    if n.ctl.active && n.ctl.slot < 8 then Charged(f, n, now).store.slots[n.ctl.slot] else Free
  }

  /** The active Event is still queued at `now`. */
  predicate Outlives(f: Fates, n: Node, now: u32) {
    ChargeWorks(f, n, now) && ChargedHead(f, n, now).Queued()
  }

  lemma LifetimeOutcome(f: Fates, n: Node, now: u32, source: u8)
    requires PolicyInv(n.policy, source) && Usable(n) && ActiveRecord(n).Queued()
    ensures var (a, ok) := ServiceLifetime(f, n, now);
      && PolicyInv(a.policy, source) && a.policy == Charged(f, n, now)
      && Aged(ActiveRecord(n), ChargedHead(f, n, now))
      && (ok <==> ChargeWorks(f, n, now))
      && (!ok ==> !Usable(a))
      && (Outlives(f, n, now) ==> a.ctl == n.ctl && Usable(a) && Current(a.policy, now))
      && (ok && !Outlives(f, n, now) ==>
            && Usable(a) && ChargedHead(f, n, now).Held? && ChargedHead(f, n, now).custody == EXPIRED
            && a == ClearAttempt(InPhase(a, LAPSED)) && a.ctl.active == n.ctl.active && a.ctl.slot == n.ctl.slot)
  {
    hide StoreInv, Service;
    ServiceStep(f, n.policy, now, source);
    assert Aged(SlotsOf(n)[n.ctl.slot], Charged(f, n, now).store.slots[n.ctl.slot]);
  }

  // ----- giving up and backing off

  /** One second after the first attempt, and twice as long after each further one. */
  function Doubling(attempts: nat): nat {
    if attempts <= 1 then 1000 else 2 * Doubling(attempts - 1)
  }

  /** The active Event, and only it, is durably failed if the write verifies; otherwise the Node stops. */
  predicate GivenUp(f: Fates, c: Controller, p: PolicyState, m: Node)
    requires c.slot < 8 && p.store.slots[c.slot].Held?
  {
    var failed := p.store.slots[c.slot := p.store.slots[c.slot].(custody := FAILED)];
    if f(p.store.tick) == Durable
    then
      && Usable(m) && m.ctl == c.(phase := GAVE_UP, correlated := false, attempt := NO_EVENT, origin := 0, duration := 0)
      && SlotsOf(m) == failed && m.policy.runtime == p.runtime && m.policy.store.tick == p.store.tick + 1
    else !Usable(m) && SlotsOf(m) == if f(p.store.tick).Stored() then failed else p.store.slots
  }

  /** An attempt ended without admission: the record stays as charged and a doubling backoff starts, five times at most. */
  predicate AttemptEnded(f: Fates, c: Controller, p: PolicyState, m: Node, now: u32, jitter: u16)
    requires c.slot < 8 && p.store.slots[c.slot].Held?
  {
    var attempts := p.store.slots[c.slot].attempts;
    if attempts == MAX_ATTEMPTS then GivenUp(f, c, p, m)
    else if jitter <= 250
    then m == Node(p, c.(phase := BACKOFF, origin := now, duration := Wrap32(jitter as int + Doubling(attempts))))
    else !Usable(m) && m.policy == p
  }

  lemma GivesUp(f: Fates, n: Node, then_: Result, source: u8)
    requires PolicyInv(n.policy, source) && Usable(n) && ActiveRecord(n).Queued()
    ensures GivenUp(f, n.ctl, n.policy, GiveUpOrDegrade(f, n, then_).0)
    ensures GiveUpOrDegrade(f, n, then_).1 == (if f(n.policy.store.tick) == Durable then then_ else Result(STORE_FAILURE, Receive))
  {
    hide ValidNodeRecord, StoreInv, Reindex;
    CommitAndReindexes(f, n.policy.store, n.ctl.slot, source);
  }

  lemma CommitAndReindexes(f: Fates, s: StoreState, i: SlotIndex, source: u8)
    requires StoreInv(s, source) && s.healthy && s.slots[i].Queued()
    ensures var r := s.slots[i].(custody := FAILED);
      var t := CommitAndReindex(f, s, i, r);
      && t.healthy == (f(s.tick) == Durable)
      && t.slots == (if f(s.tick).Stored() then s.slots[i := r] else s.slots)
      && t.tick == s.tick + 1
  {
    CommitAndReindexStep(f, s, i, s.slots[i].(custody := FAILED), source);
  }

  lemma EndsAttempt(f: Fates, n: Node, now: u32, jitter: u16, source: u8)
    requires PolicyInv(n.policy, source) && Usable(n) && ActiveRecord(n).Queued() && 1 <= ActiveRecord(n).attempts <= MAX_ATTEMPTS
    ensures AttemptEnded(f, n.ctl, n.policy, FailedAttempt(f, n, now, jitter).0, now, jitter)
    ensures FailedAttempt(f, n, now, jitter).1.action == Receive
  {
    hide PolicyInv, GiveUpOrDegrade;
    GivesUp(f, n, Result(FINE, Receive), source);
    assert Doubling(1) == 1000 && Doubling(2) == 2000 && Doubling(3) == 4000 && Doubling(4) == 8000;
  }

  // ----- an answer

  /** A response to the attempt in flight, field by field. */
  predicate AnswersAttempt(n: Node, bytes: seq<u8>, status: AdmissionStatus) {
    match DecodeAdmissionResponse(bytes)
    case None => false
    case Some(r) =>
      && r.status == status && r.source == n.ctl.attempt.destination && r.destination == n.ctl.attempt.source
      && r.sequence == n.ctl.attempt.sequence && r.family == n.ctl.attempt.content.family
      && r.identity == n.ctl.attempt.identity
  }

  /** The active slot, and only it, is durably free if the write verifies; otherwise the Node stops. */
  predicate LetGo(f: Fates, c: Controller, p: PolicyState, m: Node)
    requires c.slot < 8
  {
    var freed := p.store.slots[c.slot := Free];
    if f(p.store.tick) == Durable
    then Usable(m) && m.ctl.phase == RELEASED && !m.ctl.correlated && SlotsOf(m) == freed && m.policy.runtime == p.runtime
    else !Usable(m) && SlotsOf(m) == if f(p.store.tick).Stored() then freed else p.store.slots
  }

  /** The effect of each status that answers the attempt in flight. */
  predicate Answered(f: Fates, c: Controller, p: PolicyState, m: Node, status: AdmissionStatus, now: u32, jitter: u16)
    requires c.slot < 8 && p.store.slots[c.slot].Held?
  {
    match status
    case ADMITTED => LetGo(f, c, p, m)
    case CAPACITY => AttemptEnded(f, c, p, m, now, jitter)
    case IDENTITY_CONTENT_MISMATCH => GivenUp(f, c, p, m)
    case UNSUPPORTED_EVENT => GivenUp(f, c, p, m)
    case MALFORMED_EVENT => GivenUp(f, c, p, m)
  }

  lemma RespondsAs(f: Fates, n: Node, status: AdmissionStatus, now: u32, jitter: u16, source: u8)
    requires PolicyInv(n.policy, source) && Usable(n) && ActiveRecord(n).Queued() && 1 <= ActiveRecord(n).attempts <= MAX_ATTEMPTS
    ensures Answered(f, n.ctl, n.policy, Respond(f, n, status, now, jitter).0, status, now, jitter)
    ensures Respond(f, n, status, now, jitter).1.action == Receive
  {
    hide GiveUpOrDegrade, FailedAttempt, StoreInv, CommitAndReindex;
    EndsAttempt(f, n, now, jitter, source);
    GivesUp(f, n, Result(FINE, Receive), source);
    FreeStep(f, n.policy.store, n.ctl.slot, source);
  }

  lemma DecodedIsValid(bytes: seq<u8>)
    requires DecodeAdmissionResponse(bytes).Some?
    ensures ValidResponse(DecodeAdmissionResponse(bytes).value)
  {
  }

  /**
   The effect of a packet heard while waiting, once time has been charged: each
   status that answers the attempt has its own, and anything else changes nothing.
   */
  lemma AnswerEffects(f: Fates, n: Node, bytes: seq<u8>, now: u32, jitter: u16, ends: Endpoints)
    requires NodeInv(n, ends) && Usable(n) && n.ctl.phase == WAIT_ADMISSION && Outlives(f, n, now)
    ensures AdmissionCandidate(f, n, bytes, now, jitter).1.action == Receive
    ensures var m := AdmissionCandidate(f, n, bytes, now, jitter).0;
      && (forall status :: AnswersAttempt(n, bytes, status) ==> Answered(f, n.ctl, Charged(f, n, now), m, status, now, jitter))
      && ((forall status :: !AnswersAttempt(n, bytes, status)) ==> m == Node(Charged(f, n, now), n.ctl))
  {
    hide PolicyInv, ServiceLifetime, Service, Respond, DecodeAdmissionResponse, EncodeEvent, Answered, ValidResponse;
    LifetimeOutcome(f, n, now, ends.source);
    var a := ServiceLifetime(f, n, now).0;
    assert ActiveRecord(a) == ChargedHead(f, n, now);
    if DecodeAdmissionResponse(bytes).Some? {
      var r := DecodeAdmissionResponse(bytes).value;
      DecodedIsValid(bytes);
      RespondsAs(f, a, r.status, now, jitter, ends.source);
      assert AnswersAttempt(n, bytes, r.status) <==> MatchesEvent(r, a.ctl.attempt);
    }
  }

  // ----- a service pass

  /** What a service does to the active Event in each phase, once time has been charged. */
  predicate Serviced(f: Fates, c: Controller, p: PolicyState, m: Node, now: u32, busy: bool, jitter: u16)
    requires c.slot < 8 && p.store.slots[c.slot].Held?
  {
    match c.phase
    case WAITING =>
      if p.store.slots[c.slot].attempts == MAX_ATTEMPTS then GivenUp(f, c, p, m)
      else m == Node(p, c.(phase := if busy then WAITING else READY_TO_SEND))
    case READY_TO_SEND => m == Node(p, c.(phase := if busy then WAITING else READY_TO_SEND))
    case WAIT_ADMISSION =>
      if Wrap32(now - c.origin) >= 2500 then AttemptEnded(f, c, p, m, now, jitter) else m == Node(p, c)
    case BACKOFF =>
      if Wrap32(now - c.origin) >= c.duration
      then m == Node(p, c.(phase := if busy then WAITING else READY_TO_SEND)) else m == Node(p, c)
    case _ => m == Node(p, c)
  }

  lemma PhaseServiced(f: Fates, n: Node, now: u32, busy: bool, jitter: u16, ends: Endpoints)
    requires NodeInv(n, ends) && Usable(n) && ActiveRecord(n).Queued()
    ensures Serviced(f, n.ctl, n.policy, ServicePhase(f, n, now, busy, jitter).0, now, busy, jitter)
  {
    hide PolicyInv, GiveUpOrDegrade, FailedAttempt, EncodeEvent, AttemptEnded, GivenUp;
    AttemptsInRange(n, ends.source);
    if ActiveRecord(n).attempts >= 1 {
      EndsAttempt(f, n, now, jitter, ends.source);
    }
    GivesUp(f, n, Result(FINE, NoAction), ends.source);
  }

  lemma AttemptsInRange(n: Node, source: u8)
    requires PolicyInv(n.policy, source) && ActiveRecord(n).Queued()
    ensures ActiveRecord(n).attempts <= MAX_ATTEMPTS
  {
    QueuedIsValid(n.policy.store, n.ctl.slot, source);
  }

  /** The active Event is neither released nor terminal. */
  predicate InDelivery(n: Node) {
    Usable(n) && n.ctl.active && n.ctl.phase != RELEASED && n.ctl.phase != GAVE_UP && n.ctl.phase != LAPSED
  }

  lemma InDeliveryIsQueued(n: Node, ends: Endpoints)
    requires NodeInv(n, ends) && InDelivery(n)
    ensures ActiveRecord(n).Queued() && Least(SlotsOf(n), n.ctl.slot)
  {
  }

  /**
   One service pass over an Event in delivery that outlives it: waiting turns to
   ready unless the radio is busy, and back; the admission timeout is exactly
   2500 ms; a backoff ends exactly when its duration has elapsed; nothing else
   moves.
   */
  lemma ServiceEffects(f: Fates, n: Node, now: u32, busy: bool, jitter: u16, ends: Endpoints)
    requires NodeInv(n, ends) && InDelivery(n) && Outlives(f, n, now)
    ensures Serviced(f, n.ctl, Charged(f, n, now), ControllerService(f, n, now, busy, jitter).0, now, busy, jitter)
  {
    hide PolicyInv, ServiceLifetime, Service, ServicePhase, Serviced;
    InDeliveryIsQueued(n, ends);
    LifetimeOutcome(f, n, now, ends.source);
    var (a, ok) := ServiceLifetime(f, n, now);
    ServiceLifetimeStep(f, n, now, ends.source);
    ChargedKeepsInv(n, a, ok, now, ends);
    PhaseServiced(f, a, now, busy, jitter, ends);
  }

  /** With nothing in delivery, a service first adopts the queue head: the least queued identity. */
  lemma ServiceAdoptsHead(f: Fates, n: Node, now: u32, busy: bool, jitter: u16, ends: Endpoints)
    requires NodeInv(n, ends) && Usable(n) && (!n.ctl.active || n.ctl.phase == RELEASED)
    ensures var slots := SlotsOf(n);
      if exists i :: 0 <= i < 8 && slots[i].Queued()
      then
        exists i :: Least(slots, i) &&
          var a := Refill(n);
          && a.policy == n.policy && a.ctl.active && a.ctl.slot == i && a.ctl.phase == WAITING
          && InDelivery(a) && NodeInv(a, ends)
          && ControllerService(f, n, now, busy, jitter) == ControllerService(f, a, now, busy, jitter)
      else
        && !ControllerService(f, n, now, busy, jitter).0.ctl.active
        && ControllerService(f, n, now, busy, jitter).1 == Result(NO_ACTIVE_EVENT, NoAction)
  {
    hide PolicyInv, ServiceLifetime, ServicePhase;
    RefillStep(n, ends);
    QueueIsExact(n, ends.source);
    if |n.policy.store.queue| > 0 {
      HeadIsLeast(SlotsOf(n), n.policy.store.queue, n.policy.store.queue[0]);
      assert Refill(Refill(n)) == Refill(n);
    }
  }

  lemma QueueIsExact(n: Node, source: u8)
    requires PolicyInv(n.policy, source) && n.policy.store.healthy
    ensures IsQueueOf(SlotsOf(n), n.policy.store.queue)
    ensures |n.policy.store.queue| > 0 <==> exists i :: 0 <= i < 8 && SlotsOf(n)[i].Queued()
  {
    var q := n.policy.store.queue;
    if |q| > 0 {
      assert q[0] in q;
    }
    if i :| 0 <= i < 8 && SlotsOf(n)[i].Queued() {
      assert i in q;
    }
  }

  // ----- a grant and its transmission

  /** The packet on the air and the count of it are the head's. */
  predicate Granted(f: Fates, c: Controller, p: PolicyState, m: Node, result: Result, ends: Endpoints, sequence: Option<u8>)
    requires c.slot < 8 && p.store.slots[c.slot].Held? && p.store.slots[c.slot].attempts < MAX_ATTEMPTS
  {
    var counted := p.store.slots[c.slot].(attempts := p.store.slots[c.slot].attempts + 1);
    var slots := p.store.slots[c.slot := counted];
    && SlotsOf(m) == (if f(p.store.tick).Stored() then slots else p.store.slots)
    && (f(p.store.tick) == Durable && sequence.Some? ==>
          var e := Event(ends.source, ends.hub, sequence.value, counted.identity, counted.content);
          && Usable(m) && m.policy.runtime == p.runtime && m.policy.store.tick == p.store.tick + 1
          && m.ctl == c.(phase := TX, correlated := true, attempt := e)
          && result.status == FINE && result.action.Transmit? && EncodeEvent(e) == Some(result.action.bytes))
    && (f(p.store.tick) != Durable || sequence.None? ==> !Usable(m) && !result.action.Transmit?)
  }

  /**
   Granting the radio to an Event that outlives it: the attempt is counted
   durably and exactly that record's Event leaves, or the Node stops and nothing
   leaves.
   */
  lemma GrantEffects(f: Fates, n: Node, now: u32, sequence: Option<u8>, ends: Endpoints)
    requires NodeInv(n, ends) && ValidEndpoints(ends.source, ends.hub)
    requires Usable(n) && n.ctl.phase == READY_TO_SEND && Outlives(f, n, now)
    ensures ChargedHead(f, n, now).attempts < MAX_ATTEMPTS
    ensures var (m, result) := GrantTransmit(f, ends, n, now, sequence);
      Granted(f, n.ctl, Charged(f, n, now), m, result, ends, sequence)
  {
    hide PolicyInv, ServiceLifetime, Service, PolicyArmAttempt, Launch, EncodeEvent;
    var b := InPhase(n, TX_PREPARE);
    LifetimeOutcome(f, b, now, ends.source);
    var a := ServiceLifetime(f, b, now).0;
    AgedIsKeptAt(f, n, now, ends.source);
    LeastPersists(SlotsOf(n), SlotsOf(a), n.ctl.slot);
    HeadIsAuthoritative(a, ends);
    PolicyArmStep(f, a.policy, a.ctl.slot, now, ends.source);
    ArmedExactly(f, a.policy, a.ctl.slot, now, ends.source);
    var p := PolicyArmAttempt(f, a.policy, a.ctl.slot, now).0;
    if f(a.policy.store.tick) == Durable {
      LaunchesExactly(a.(policy := p), sequence, ends);
    }
  }

  lemma AgedIsKeptAt(f: Fates, n: Node, now: u32, source: u8)
    requires PolicyInv(n.policy, source) && Usable(n)
    ensures AllKept(SlotsOf(n), Charged(f, n, now).store.slots)
  {
    ServiceStep(f, n.policy, now, source);
    AgedIsKept(SlotsOf(n), Charged(f, n, now).store.slots);
  }

  lemma ArmedExactly(f: Fates, p: PolicyState, i: SlotIndex, now: u32, source: u8)
    requires PolicyInv(p, source) && p.ready && p.store.healthy && Current(p, now)
    requires p.store.slots[i].Queued() && p.store.slots[i].attempts < MAX_ATTEMPTS
    ensures var q := PolicyArmAttempt(f, p, i, now).0;
      && q.store.slots == (if f(p.store.tick).Stored() then OneMoreAttempt(p.store.slots, i) else p.store.slots)
      && q.store.tick == p.store.tick + 1
  {
    CountsOne(f, p.store, i, source);
    hide PolicyInv, CommitSlot, ArmAttempt;
    ServiceFromIdle(f, p, 0, now);
    assert Service(f, p, now) == (p, SERVICED);
    assert SlotCurrent(p, i, now);
    hide Service;
    assert PolicyArmAttempt(f, p, i, now).0.store == ArmAttempt(f, p.store, i).0;
  }

  lemma CountsOne(f: Fates, s: StoreState, i: SlotIndex, source: u8)
    requires StoreInv(s, source) && s.healthy && s.slots[i].Queued() && s.slots[i].attempts < MAX_ATTEMPTS
    ensures var t := ArmAttempt(f, s, i).0;
      && t.slots == (if f(s.tick).Stored() then OneMoreAttempt(s.slots, i) else s.slots)
      && t.tick == s.tick + 1
  {
    QueuedIsValid(s, i, source);
    CommitInPlaceStep(f, s, i, s.slots[i].(attempts := s.slots[i].attempts + 1), source);
    hide StoreInv, CommitSlot;
  }

  lemma LaunchesExactly(n: Node, sequence: Option<u8>, ends: Endpoints)
    requires PolicyInv(n.policy, ends.source) && Usable(n) && ValidEndpoints(ends.source, ends.hub) && ActiveRecord(n).Held?
    ensures var (m, result) := Launch(ends, n, sequence);
      && m.policy == n.policy
      && (sequence.None? ==> !Usable(m) && !result.action.Transmit?)
      && (sequence.Some? ==>
            var e := AttemptEvent(ends, sequence.value, ActiveRecord(n));
            && m.ctl == n.ctl.(phase := TX, correlated := true, attempt := e)
            && result.status == FINE && result.action.Transmit? && EncodeEvent(e) == Some(result.action.bytes))
  {
    if sequence.Some? {
      RecordIsSendable(SlotsOf(n), n.policy.store, n.ctl.slot, sequence.value, ends);
    }
    hide PolicyInv, EncodeEvent, ValidEndpoints;
  }

  /** The radio's notices: a start changes nothing, a completion starts the wait, a failed start ends the attempt. */
  lemma RadioEffects(f: Fates, n: Node, now: u32, jitter: u16, ends: Endpoints)
    requires NodeInv(n, ends) && Usable(n) && n.ctl.phase == TX && Outlives(f, n, now)
    ensures TxStarted(f, n, now).0 == Node(Charged(f, n, now), n.ctl)
    ensures TxCompleted(f, n, now).0
         == Node(Charged(f, n, now), n.ctl.(phase := WAIT_ADMISSION, origin := now, duration := 2500))
    ensures TxCompleted(f, n, now).1 == Result(FINE, Receive)
    ensures AttemptEnded(f, n.ctl, Charged(f, n, now), TxStartFailed(f, n, now, jitter).0, now, jitter)
  {
    hide PolicyInv, ServiceLifetime, Service, FailedAttempt, AttemptEnded, EncodeEvent;
    LifetimeOutcome(f, n, now, ends.source);
    EndsAttempt(f, ServiceLifetime(f, n, now).0, now, jitter, ends.source);
  }

  /** The active Event expired while time was charged: that alone is noticed. */
  predicate Lapsed(f: Fates, n: Node, now: u32, m: Node) {
    && m.policy == Charged(f, n, now) && Usable(m)
    && m.ctl == n.ctl.(phase := LAPSED, correlated := false, attempt := NO_EVENT, origin := 0, duration := 0)
    && ChargedHead(f, n, now).Held? && ChargedHead(f, n, now).custody == EXPIRED
  }

  predicate LapsedOrStopped(f: Fates, n: Node, now: u32, m: Node) {
    m.policy == Charged(f, n, now) && if ChargeWorks(f, n, now) then Lapsed(f, n, now, m) else !Usable(m)
  }

  /** Every operation on an Event that did not outlive it ends its delivery there, or stops on a storage failure. */
  lemma LapseEffects(f: Fates, n: Node, now: u32, busy: bool, jitter: u16, sequence: Option<u8>, bytes: seq<u8>, ends: Endpoints)
    requires NodeInv(n, ends) && InDelivery(n) && !Outlives(f, n, now)
    ensures LapsedOrStopped(f, n, now, ControllerService(f, n, now, busy, jitter).0)
    ensures n.ctl.phase == READY_TO_SEND ==> LapsedOrStopped(f, n, now, GrantTransmit(f, ends, n, now, sequence).0)
    ensures n.ctl.phase == TX ==>
      && LapsedOrStopped(f, n, now, TxStarted(f, n, now).0) && LapsedOrStopped(f, n, now, TxCompleted(f, n, now).0)
      && LapsedOrStopped(f, n, now, TxStartFailed(f, n, now, jitter).0)
    ensures n.ctl.phase == WAIT_ADMISSION ==> LapsedOrStopped(f, n, now, AdmissionCandidate(f, n, bytes, now, jitter).0)
  {
    hide PolicyInv, ServiceLifetime, Service, EncodeEvent, DecodeAdmissionResponse, PolicyArmAttempt;
    InDeliveryIsQueued(n, ends);
    LifetimeOutcome(f, n, now, ends.source);
    LifetimeOutcome(f, InPhase(n, TX_PREPARE), now, ends.source);
  }

  // ----- creation

  /**
   Creating an Event on a usable Node: with working writes it is accepted exactly
   when the input is valid, a slot is free and identities are left; and nothing but
   the new slot and its lifetime clock, which starts now, changes.
   */
  lemma CreateEffects(f: Fates, n: Node, input: Content, now: u32, ends: Endpoints)
    requires NodeInv(n, ends) && Usable(n)
    ensures var (m, result) := Create(f, n, input, now);
      && (result.Enqueued? ==>
            && Usable(m) && m.ctl == n.ctl && m.policy.runtime == n.policy.runtime[result.slot := Runtime(true, now, 0)]
            && SlotsOf(n)[result.slot].Free?
            && SlotsOf(m) == SlotsOf(n)[result.slot := Held(QUEUED, result.identity, input, input.lifetime, 0)])
      && (!ValidInput(input) ==> result == INVALID_EVENT && m == n)
      && (DurableRun(f, n.policy.store.tick, 2) ==>
            (result.Enqueued? <==>
              && ValidInput(input) && !IdentitiesSpent(n.policy.store.alloc)
              && exists i :: 0 <= i < 8 && SlotsOf(n)[i].Free?))
  {
    hide StoreInv, Enqueue, EventIdentity.Frontier, IdentitiesSpent, ValidInput;
    EnqueueAccepts(f, n.policy.store, input, ends.source);
    EnqueueStep(f, n.policy.store, input, ends.source);
    CreateStep(f, n, input, now, ends);
    RefusedInput(f, n.policy.store, input);
  }

  lemma RefusedInput(f: Fates, s: StoreState, input: Content)
    ensures s.healthy && !ValidInput(input) ==> Enqueue(f, s, input) == (s, INVALID_EVENT)
  {
  }
}
