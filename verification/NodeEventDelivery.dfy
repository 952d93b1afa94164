/**
 The Node's delivery state machine: `Controller` of
 lib/node_event_delivery/src/node_event_delivery.h, terminal reclamation
 (node_event_reclamation.h) and the creation sink (node_event_creation.h).
 */
module NodeEventDelivery {
  import opened Words
  import opened EventStorage
  import opened EventProtocol
  import opened EventRecords
  import opened EventIdentity
  import opened NodeEventStore
  import opened NodeEventPolicy

  const ADMISSION_TIMEOUT_MILLISECONDS := 2500
  const MAX_BACKOFF_JITTER_MILLISECONDS := 250
  const BACKOFF_BASE: seq<u32> := [1000, 2000, 4000, 8000]

  datatype Phase = WAITING | READY_TO_SEND | TX_PREPARE | TX | WAIT_ADMISSION | BACKOFF | RELEASED | GAVE_UP | LAPSED

  datatype Action = NoAction | Transmit(bytes: seq<u8>) | Receive

  datatype ControllerStatus =
    | FINE | NO_ACTIVE_EVENT | INVALID_CONFIGURATION | INVALID_STATE
    | SEQUENCE_FAILURE | ENCODE_FAILURE | POLICY_FAILURE | STORE_FAILURE | CONTROLLER_DEGRADED

  datatype Result = Result(status: ControllerStatus, action: Action)

  const NO_CONTENT := Content(0, 0, 0, 0, [0, 0, 0, 0, 0, 0, 0, 0, 0, 0, 0, 0])
  const NO_EVENT := Event(0, 0, 0, Identity(0, 0), NO_CONTENT)

  datatype Controller = Controller(
    initialized: bool, degraded: bool, active: bool, slot: nat, phase: Phase,
    correlated: bool, attempt: Event, origin: u32, duration: u32)

  /** Everything the Node holds: durable slots and mark inside `policy.store`, the rest volatile. */
  datatype Node = Node(policy: PolicyState, ctl: Controller)

  datatype Endpoints = Endpoints(source: u8, hub: u8)

  // ----- specification

  const FRESH := Controller(false, false, false, 0xFF, WAITING, false, NO_EVENT, 0, 0)

  predicate Usable(n: Node) {
    n.ctl.initialized && !n.ctl.degraded && n.policy.store.healthy && n.policy.ready
  }

  function SlotsOf(n: Node): Slots {
    n.policy.store.slots
  }

  /** The record of the active slot. */
  function ActiveRecord(n: Node): NodeRecord {
    if n.ctl.active && n.ctl.slot < 8 then SlotsOf(n)[n.ctl.slot] else Free
  }

  function InPhase(n: Node, phase: Phase): Node {
    n.(ctl := n.ctl.(phase := phase))
  }

  function ClearAttempt(n: Node): Node {
    n.(ctl := n.ctl.(correlated := false, attempt := NO_EVENT, origin := 0, duration := 0))
  }

  function WithStore(n: Node, s: StoreState): Node {
    n.(policy := n.policy.(store := s))
  }

  function Degrade(n: Node, status: ControllerStatus): (Node, Result) {
    (n.(ctl := n.ctl.(degraded := true)), Result(status, Receive))
  }

  function LoadHead(n: Node): Node {
    if |n.policy.store.queue| == 0 then n
    else n.(ctl := n.ctl.(active := true, slot := n.policy.store.queue[0], phase := WAITING))
  }

  /** Charge elapsed time to every slot; notice if the active Event expired. */
  function ServiceLifetime(f: Fates, n: Node, now: u32): (Node, bool) {
    var (p, status) := Service(f, n.policy, now);
    var m := n.(policy := p);
    if status != SERVICED then (m.(ctl := m.ctl.(degraded := true)), false)
    else if ActiveRecord(m).Held? && ActiveRecord(m).custody == EXPIRED then (ClearAttempt(InPhase(m, LAPSED)), true)
    else (m, true)
  }

  function GiveUp(f: Fates, n: Node): (Node, bool) {
    var (s, status) := MarkFailed(f, n.policy.store, n.ctl.slot);
    if status != OK then (WithStore(n, s), false)
    else (ClearAttempt(InPhase(WithStore(n, s), GAVE_UP)), true)
  }

  function GiveUpOrDegrade(f: Fates, n: Node, then_: Result): (Node, Result) {
    var (m, ok) := GiveUp(f, n);
    if ok then (m, then_) else Degrade(m, STORE_FAILURE)
  }

  function BackoffBase(attempts: nat): u32 {
    if 1 <= attempts <= 4 then BACKOFF_BASE[attempts - 1] else 0
  }

  /** An attempt ended without admission: back off, or give up after the last one. */
  function FailedAttempt(f: Fates, n: Node, now: u32, jitter: u16): (Node, Result) {
    if ActiveRecord(n).Free? || ActiveRecord(n).attempts >= MAX_ATTEMPTS then
      GiveUpOrDegrade(f, n, Result(FINE, Receive))
    else if jitter > MAX_BACKOFF_JITTER_MILLISECONDS then Degrade(n, INVALID_CONFIGURATION)
    else
      var duration := Wrap32(BackoffBase(ActiveRecord(n).attempts) as int + jitter);
      (n.(ctl := n.ctl.(origin := now, duration := duration, phase := BACKOFF)), Result(FINE, Receive))
  }

  function Elapsed(now: u32, since: u32): u32 {
    Wrap32(now - since)
  }

  function ServicePhase(f: Fates, n: Node, now: u32, busy: bool, jitter: u16): (Node, Result) {
    match n.ctl.phase
    case WAITING =>
      if ActiveRecord(n).Held? && ActiveRecord(n).attempts >= MAX_ATTEMPTS
      then GiveUpOrDegrade(f, n, Result(FINE, NoAction))
      else (if busy then n else InPhase(n, READY_TO_SEND), Result(FINE, NoAction))
    case READY_TO_SEND => (if busy then InPhase(n, WAITING) else n, Result(FINE, NoAction))
    case WAIT_ADMISSION =>
      if Elapsed(now, n.ctl.origin) >= ADMISSION_TIMEOUT_MILLISECONDS then FailedAttempt(f, n, now, jitter)
      else (n, Result(FINE, NoAction))
    case BACKOFF =>
      (if Elapsed(now, n.ctl.origin) >= n.ctl.duration then InPhase(n, if busy then WAITING else READY_TO_SEND) else n,
       Result(FINE, NoAction))
    case _ => (n, Result(FINE, NoAction))
  }

  /** Adopt the queue head when there is no active Event or the last one was released. */
  function Refill(n: Node): Node {
    if n.ctl.phase == RELEASED then
      var m := ClearAttempt(n);
      LoadHead(m.(ctl := m.ctl.(active := false)))
    else if !n.ctl.active then LoadHead(n)
    else n
  }

  function ControllerService(f: Fates, n: Node, now: u32, busy: bool, jitter: u16): (Node, Result) {
    if !Usable(n) then (n, Result(CONTROLLER_DEGRADED, NoAction))
    else
      var a := Refill(n);
      if !a.ctl.active then (a, Result(NO_ACTIVE_EVENT, NoAction))
      else
        var (b, ok) := ServiceLifetime(f, a, now);
        if !ok then (b, Result(POLICY_FAILURE, Receive))
        else if b.ctl.phase == LAPSED then (b, Result(FINE, Receive))
        else if b.ctl.phase == RELEASED || b.ctl.phase == GAVE_UP then (b, Result(FINE, NoAction))
        else ServicePhase(f, b, now, busy, jitter)
  }

  predicate HeadStillAuthoritative(n: Node) {
    && |n.policy.store.queue| > 0 && n.policy.store.queue[0] == n.ctl.slot && ActiveRecord(n).Queued()
  }

  function AttemptEvent(ends: Endpoints, sequence: u8, r: NodeRecord): Event
    requires r.Held?
  {
    Event(ends.source, ends.hub, sequence, r.identity, r.content)
  }

  /** After the attempt is durably counted: build the packet and hand it to the radio. */
  function Launch(ends: Endpoints, n: Node, sequence: Option<u8>): (Node, Result) {
    if sequence.None? then Degrade(n, SEQUENCE_FAILURE)
    else if ActiveRecord(n).Free? then Degrade(n, ENCODE_FAILURE)
    else
      var e := AttemptEvent(ends, sequence.value, ActiveRecord(n));
      var m := n.(ctl := n.ctl.(attempt := e));
      match EncodeEvent(e)
      case None => Degrade(m, ENCODE_FAILURE)
      case Some(bytes) => (m.(ctl := m.ctl.(correlated := true, phase := TX)), Result(FINE, Transmit(bytes)))
  }

  function GrantTransmit(f: Fates, ends: Endpoints, n: Node, now: u32, sequence: Option<u8>): (Node, Result) {
    if !Usable(n) then (n, Result(CONTROLLER_DEGRADED, NoAction))
    else if !n.ctl.active || n.ctl.phase != READY_TO_SEND then (n, Result(INVALID_STATE, NoAction))
    else
      var (a, ok) := ServiceLifetime(f, InPhase(n, TX_PREPARE), now);
      if !ok then (a, Result(POLICY_FAILURE, Receive))
      else if a.ctl.phase == LAPSED then (a, Result(FINE, Receive))
      else if !HeadStillAuthoritative(a) then Degrade(a, POLICY_FAILURE)
      else
        var (p, armed) := PolicyArmAttempt(f, a.policy, a.ctl.slot, now);
        var b := a.(policy := p);
        match armed
        case ATTEMPT_ARMED => Launch(ends, b, sequence)
        case ATTEMPT_EXPIRED => (InPhase(b, LAPSED), Result(FINE, Receive))
        case ATTEMPT_EXHAUSTED => GiveUpOrDegrade(f, b, Result(FINE, Receive))
        case _ => Degrade(b, STORE_FAILURE)
  }

  function TxStarted(f: Fates, n: Node, now: u32): (Node, Result) {
    if !Usable(n) || n.ctl.phase != TX then (n, Result(INVALID_STATE, NoAction))
    else
      var (a, ok) := ServiceLifetime(f, n, now);
      if !ok then (a, Result(POLICY_FAILURE, Receive))
      else (a, Result(FINE, if a.ctl.phase == LAPSED then Receive else NoAction))
  }

  function TxStartFailed(f: Fates, n: Node, now: u32, jitter: u16): (Node, Result) {
    if !Usable(n) || n.ctl.phase != TX then (n, Result(INVALID_STATE, NoAction))
    else
      var (a, ok) := ServiceLifetime(f, n, now);
      if !ok then (a, Result(POLICY_FAILURE, Receive))
      else if a.ctl.phase == LAPSED then (a, Result(FINE, Receive))
      else FailedAttempt(f, a, now, jitter)
  }

  function TxCompleted(f: Fates, n: Node, now: u32): (Node, Result) {
    if !Usable(n) || n.ctl.phase != TX then (n, Result(INVALID_STATE, NoAction))
    else
      var (a, ok) := ServiceLifetime(f, n, now);
      if !ok then (a, Result(POLICY_FAILURE, Receive))
      else if a.ctl.phase == LAPSED then (a, Result(FINE, Receive))
      else
        (a.(ctl := a.ctl.(phase := WAIT_ADMISSION, origin := now, duration := ADMISSION_TIMEOUT_MILLISECONDS)),
         Result(FINE, Receive))
  }

  /** A packet heard while waiting; only a response matching the attempt has any effect. */
  function AdmissionCandidate(f: Fates, n: Node, bytes: seq<u8>, now: u32, jitter: u16): (Node, Result) {
    if !Usable(n) || n.ctl.phase != WAIT_ADMISSION then (n, Result(INVALID_STATE, NoAction))
    else
      var (a, ok) := ServiceLifetime(f, n, now);
      if !ok then (a, Result(POLICY_FAILURE, Receive))
      else if a.ctl.phase == LAPSED then (a, Result(FINE, Receive))
      else
        match DecodeAdmissionResponse(bytes)
        case None => (a, Result(FINE, Receive))
        case Some(r) =>
          if !a.ctl.correlated || !MatchesEvent(r, a.ctl.attempt) then (a, Result(FINE, Receive))
          else Respond(f, a, r.status, now, jitter)
  }

  /** The effect of a correlated admission response. */
  function Respond(f: Fates, n: Node, status: AdmissionStatus, now: u32, jitter: u16): (Node, Result) {
    match status
    case ADMITTED =>
      var (s, released) := ReleaseQueued(f, n.policy.store, n.ctl.slot);
      if released != OK then Degrade(WithStore(n, s), STORE_FAILURE)
      else (ClearAttempt(InPhase(WithStore(n, s), RELEASED)), Result(FINE, Receive))
    case CAPACITY => FailedAttempt(f, n, now, jitter)
    case _ => GiveUpOrDegrade(f, n, Result(FINE, Receive))
  }

  /** Free the active slot after a durable terminal state. */
  function ReclaimTerminal(f: Fates, n: Node): (Node, Result) {
    if !Usable(n) || !n.ctl.active || (n.ctl.phase != GAVE_UP && n.ctl.phase != LAPSED)
    then (n, Result(INVALID_STATE, NoAction))
    else
      var (s, status) := Reclaim(f, n.policy.store, n.ctl.slot);
      if status != OK then Degrade(WithStore(n, s), STORE_FAILURE)
      else
        var m := ClearAttempt(WithStore(n, s));
        (m.(ctl := m.ctl.(active := false)), Result(FINE, NoAction))
  }

  function ReclaimSlot(f: Fates, n: Node, i: SlotIndex): (Node, bool) {
    if !SlotsOf(n)[i].Terminal() then (n, true)
    else if n.ctl.active && n.ctl.slot == i then
      var (m, result) := ReclaimTerminal(f, n);
      (m, result.status == FINE)
    else
      var (s, status) := Reclaim(f, n.policy.store, i);
      (WithStore(n, s), status == OK)
  }

  function ReclaimFrom(f: Fates, n: Node, i: nat): (Node, bool)
    requires i <= 8
    decreases 8 - i
  {
    if i == 8 then (n, true)
    else
      var (m, ok) := ReclaimSlot(f, n, i);
      if !ok then (m, false) else ReclaimFrom(f, m, i + 1)
  }

  function ReclaimTerminals(f: Fates, n: Node): (Node, bool) {
    if !n.policy.store.healthy then (n, false) else ReclaimFrom(f, n, 0)
  }

  /** The production sink: enqueue, then start the new occupant's lifetime clock. */
  function Create(f: Fates, n: Node, input: Content, now: u32): (Node, EnqueueResult) {
    if n.ctl.degraded then (n, STORAGE_FAILED)
    else
      var (s, result) := Enqueue(f, n.policy.store, input);
      var m := WithStore(n, s);
      if !result.Enqueued? then (m, result)
      else if !Usable(m) then (m.(ctl := m.ctl.(degraded := true)), STORAGE_FAILED)
      else
        var (p, status) := TrackEnqueued(m.policy, result.slot, now);
        if status != SERVICED then (m.(policy := p, ctl := m.ctl.(degraded := true)), STORAGE_FAILED)
        else (m.(policy := p), result)
  }

  function RecoverController(f: Fates, ends: Endpoints, s: StoreState, now: u32): (Node, Result) {
    if !ValidEndpoints(ends.source, ends.hub)
    then (Node(PolicyState(s, TrackedFrom(NO_SLOTS, now), false), FRESH), Result(INVALID_CONFIGURATION, NoAction))
    else
      var (p, status) := RecoverPolicy(f, s, now);
      if status != SERVICED then (Node(p, FRESH.(degraded := true)), Result(POLICY_FAILURE, NoAction))
      else
        var n := LoadHead(Node(p, FRESH.(initialized := true)));
        if ActiveRecord(n).Held? && ActiveRecord(n).attempts >= MAX_ATTEMPTS
        then GiveUpOrDegrade(f, n, Result(FINE, NoAction))
        else (n, Result(if n.ctl.active then FINE else NO_ACTIVE_EVENT, NoAction))
  }

  const NO_SLOTS: Slots := [Free, Free, Free, Free, Free, Free, Free, Free]

  /** Power-up: recover the store, reclaim terminal records, then recover the controller. */
  function PowerUp(f: Fates, ends: Endpoints, n: Node, now: u32, entropy: u32): Node {
    var s := RecoverStore(f, n.policy.store, ends.source, entropy);
    var blank := Node(PolicyState(s, TrackedFrom(NO_SLOTS, now), false), FRESH);
    if !s.healthy then blank
    else
      var (m, ok) := ReclaimTerminals(f, blank);
      if !ok then m else RecoverController(f, ends, m.policy.store, now).0
  }

  // ----- what every step keeps

  /** The queued slot with the least identity: the head of the queue. */
  predicate Least(slots: Slots, i: nat) {
    && i < 8 && slots[i].Queued()
    && forall j :: 0 <= j < 8 && j != i && slots[j].Queued() ==> Less(slots[i].identity, slots[j].identity)
  }

  predicate Working(phase: Phase) {
    phase == READY_TO_SEND || phase == TX || phase == WAIT_ADMISSION || phase == BACKOFF
  }

  /** The attempt in flight is exactly the active record, with an arbitrary sequence number. */
  predicate InFlight(n: Node, ends: Endpoints) {
    && n.ctl.correlated && ActiveRecord(n).Queued() && 1 <= ActiveRecord(n).attempts <= MAX_ATTEMPTS
    && n.ctl.attempt == AttemptEvent(ends, n.ctl.attempt.sequence, ActiveRecord(n))
  }

  /**
   While the controller is usable: a working phase serves the queue head; with an
   attempt in flight the head has one to five durable attempts and the attempt
   is its record; a backoff follows one to four attempts; and the active slot is
   terminal exactly when the phase says so.
   */
  predicate ControllerInv(n: Node, ends: Endpoints) {
    match n
    case Node(_, ctl) =>
      Usable(n) ==>
        && (ctl.active ==> ctl.slot < 8)
        && (Working(ctl.phase) ==> ctl.active)
        && (ctl.active && (Working(ctl.phase) || ctl.phase == WAITING) ==> Least(SlotsOf(n), ctl.slot))
        && ctl.phase != TX_PREPARE
        && (ctl.phase == TX || ctl.phase == WAIT_ADMISSION ==> InFlight(n, ends))
        && (ctl.phase == BACKOFF ==> ActiveRecord(n).Held? && 1 <= ActiveRecord(n).attempts < MAX_ATTEMPTS)
        && (ctl.phase == READY_TO_SEND ==> ActiveRecord(n).Held? && ActiveRecord(n).attempts < MAX_ATTEMPTS)
        && (ctl.active && ctl.phase == GAVE_UP ==> ActiveRecord(n).Held? && ActiveRecord(n).custody == FAILED)
        && (ctl.active && ctl.phase == LAPSED ==> ActiveRecord(n).Held? && ActiveRecord(n).custody == EXPIRED)
        && (ctl.active && ctl.phase == RELEASED ==> !ActiveRecord(n).Terminal())
  }

  ghost predicate NodeInv(n: Node, ends: Endpoints) {
    match n
    case Node(policy, _) => PolicyInv(policy, ends.source) && ControllerInv(n, ends)
  }

  /** A record that stays in custody as the same Event. */
  predicate Kept(a: NodeRecord, b: NodeRecord) {
    || a == b
    || (&& a.Queued() && b.Held? && b.identity == a.identity && b.content == a.content
        && b.attempts >= a.attempts && b.remaining <= a.remaining)
  }

  predicate AllKept(s: Slots, t: Slots) {
    forall i :: 0 <= i < 8 ==> Kept(s[i], t[i])
  }

  lemma KeptTransitive(s: Slots, t: Slots, u: Slots)
    requires AllKept(s, t) && AllKept(t, u)
    ensures AllKept(s, u)
  {
    forall i | 0 <= i < 8 ensures Kept(s[i], u[i]) {
      assert Kept(s[i], t[i]) && Kept(t[i], u[i]);
    }
  }

  lemma AgedIsKept(s: Slots, t: Slots)
    requires AllAged(s, t)
    ensures AllKept(s, t)
  {
    forall i | 0 <= i < 8 ensures Kept(s[i], t[i]) {
      assert Aged(s[i], t[i]);
    }
  }

  /** The head of an exact queue is the least queued slot, and conversely. */
  lemma HeadIsLeast(slots: Slots, q: seq<SlotIndex>, i: nat)
    requires IsQueueOf(slots, q)
    ensures (|q| > 0 && q[0] == i) <==> Least(slots, i)
  {
    if |q| > 0 && q[0] == i {
      assert q[0] in q;
      forall j | 0 <= j < 8 && j != i && slots[j].Queued() ensures Less(slots[i].identity, slots[j].identity) {
        assert j in q;
      }
    }
    if Least(slots, i) {
      assert i in q && q[0] in q;
    }
  }

  lemma LeastPersists(s: Slots, t: Slots, i: nat)
    requires Least(s, i) && AllKept(s, t) && t[i].Queued()
    ensures Least(t, i)
  {
    forall j | 0 <= j < 8 && j != i && t[j].Queued() ensures Less(t[i].identity, t[j].identity) {
      assert Kept(s[j], t[j]) && Kept(s[i], t[i]);
    }
  }

  /** A step that keeps every Event in custody. */
  ghost predicate Keeps(n: Node, m: Node, ends: Endpoints) {
    match m
    case Node(policy, _) =>
      && NodeInv(m, ends) && AllKept(SlotsOf(n), SlotsOf(m))
      && policy.store.alloc == n.policy.store.alloc
  }

  // ----- the pieces

  /** Charging time keeps everything; the active record either expires or stays as it was for the controller. */
  ghost predicate LifetimeCharged(n: Node, m: Node, ok: bool, now: u32, source: u8) {
    match m
    case Node(policy, ctl) =>
      && PolicyInv(policy, source) && AllAged(SlotsOf(n), SlotsOf(m)) && policy.store.alloc == n.policy.store.alloc
      && (!ok ==> !Usable(m))
      && (ok ==>
            && Usable(m) && Current(policy, now)
            && (if ActiveRecord(m).Held? && ActiveRecord(m).custody == EXPIRED
                then m == ClearAttempt(InPhase(m, LAPSED)) && ctl.active == n.ctl.active && ctl.slot == n.ctl.slot
                else ctl == n.ctl))
  }

  lemma ServiceLifetimeStep(f: Fates, n: Node, now: u32, source: u8)
    requires PolicyInv(n.policy, source) && Usable(n)
    ensures LifetimeCharged(n, ServiceLifetime(f, n, now).0, ServiceLifetime(f, n, now).1, now, source)
  {
    hide StoreInv, ServiceFrom;
    ServiceStep(f, n.policy, now, source);
  }

  /** After time is charged on an invariant state, the invariant holds again. */
  lemma ChargedKeepsInv(n: Node, m: Node, ok: bool, now: u32, ends: Endpoints)
    requires NodeInv(n, ends) && Usable(n) && LifetimeCharged(n, m, ok, now, ends.source)
    ensures Keeps(n, m, ends)
  {
    hide PolicyInv;
    AgedIsKept(SlotsOf(n), SlotsOf(m));
    if ok && n.ctl.active {
      var i := n.ctl.slot;
      assert Aged(SlotsOf(n)[i], SlotsOf(m)[i]);
      if Least(SlotsOf(n), i) && SlotsOf(m)[i].Queued() {
        LeastPersists(SlotsOf(n), SlotsOf(m), i);
      }
    }
  }

  lemma GiveUpStep(f: Fates, n: Node, ends: Endpoints)
    requires PolicyInv(n.policy, ends.source) && Usable(n)
    requires n.ctl.active && n.ctl.slot < 8 && ActiveRecord(n).Queued()
    ensures var (m, ok) := GiveUp(f, n);
      && Keeps(n, m, ends) && ok == m.policy.store.healthy
      && (ok ==> Usable(m) && m.ctl.phase == GAVE_UP)
  {
    hide StoreInv, Retire;
    RetireStep(f, n.policy.store, n.ctl.slot, FAILED, ends.source);
    var (s, status) := MarkFailed(f, n.policy.store, n.ctl.slot);
    var p := n.policy.(store := s);
    if s.healthy {
      forall i | 0 <= i < 8 ensures SlotSettled(p, i) {
        assert SlotSettled(n.policy, i);
      }
    }
  }

  lemma DegradeStep(n: Node, m: Node, status: ControllerStatus, ends: Endpoints)
    requires PolicyInv(m.policy, ends.source) && AllKept(SlotsOf(n), SlotsOf(m))
    requires m.policy.store.alloc == n.policy.store.alloc
    ensures Keeps(n, Degrade(m, status).0, ends)
  {
    hide PolicyInv;
  }

  lemma GiveUpOrDegradeStep(f: Fates, n: Node, then_: Result, ends: Endpoints)
    requires PolicyInv(n.policy, ends.source) && Usable(n)
    requires n.ctl.active && n.ctl.slot < 8 && ActiveRecord(n).Queued()
    ensures Keeps(n, GiveUpOrDegrade(f, n, then_).0, ends)
    ensures GiveUpOrDegrade(f, n, then_).1.action in {then_.action, Receive}
  {
    hide PolicyInv, GiveUp;
    GiveUpStep(f, n, ends);
    DegradeStep(n, GiveUp(f, n).0, STORE_FAILURE, ends);
  }

  /** A failed attempt always indexes the backoff table within its four entries. */
  lemma FailedAttemptStep(f: Fates, n: Node, now: u32, jitter: u16, ends: Endpoints)
    requires NodeInv(n, ends) && Usable(n) && n.ctl.active && InFlight(n, ends) && Least(SlotsOf(n), n.ctl.slot)
    ensures Keeps(n, FailedAttempt(f, n, now, jitter).0, ends)
    ensures FailedAttempt(f, n, now, jitter).1.action == Receive
    ensures ActiveRecord(n).attempts < MAX_ATTEMPTS ==> 0 <= ActiveRecord(n).attempts - 1 < |BACKOFF_BASE|
  {
    hide PolicyInv, GiveUpOrDegrade;
    if ActiveRecord(n).attempts >= MAX_ATTEMPTS {
      GiveUpOrDegradeStep(f, n, Result(FINE, Receive), ends);
    } else {
      DegradeStep(n, n, INVALID_CONFIGURATION, ends);
    }
  }

  lemma RefillStep(n: Node, ends: Endpoints)
    requires NodeInv(n, ends) && Usable(n)
    ensures Keeps(n, Refill(n), ends) && Usable(Refill(n)) && Refill(n).policy == n.policy
    ensures Refill(n).ctl.active ==> Refill(n).ctl.phase != RELEASED
  {
    HeadIsLeast(SlotsOf(n), n.policy.store.queue, if |n.policy.store.queue| > 0 then n.policy.store.queue[0] else 0);
  }

  lemma ServicePhaseStep(f: Fates, n: Node, now: u32, busy: bool, jitter: u16, ends: Endpoints)
    requires NodeInv(n, ends) && Usable(n) && n.ctl.active && n.ctl.phase != LAPSED
    ensures Keeps(n, ServicePhase(f, n, now, busy, jitter).0, ends)
    ensures !ServicePhase(f, n, now, busy, jitter).1.action.Transmit?
  {
    hide PolicyInv, GiveUpOrDegrade, FailedAttempt;
    if n.ctl.phase == WAITING && ActiveRecord(n).attempts >= MAX_ATTEMPTS {
      GiveUpOrDegradeStep(f, n, Result(FINE, NoAction), ends);
    }
    if n.ctl.phase == WAIT_ADMISSION {
      FailedAttemptStep(f, n, now, jitter, ends);
    }
  }

  // ----- the operations

  lemma KeepsTransitive(n: Node, m: Node, o: Node, ends: Endpoints)
    requires Keeps(n, m, ends) && Keeps(m, o, ends)
    ensures Keeps(n, o, ends)
  {
    hide NodeInv;
    KeptTransitive(SlotsOf(n), SlotsOf(m), SlotsOf(o));
  }

  lemma ControllerServiceStep(f: Fates, n: Node, now: u32, busy: bool, jitter: u16, ends: Endpoints)
    requires NodeInv(n, ends)
    ensures Keeps(n, ControllerService(f, n, now, busy, jitter).0, ends)
    ensures !ControllerService(f, n, now, busy, jitter).1.action.Transmit?
  {
    hide PolicyInv, ControllerInv, ServiceLifetime, ServicePhase, Refill;
    if Usable(n) {
      RefillStep(n, ends);
      var a := Refill(n);
      if a.ctl.active {
        ServiceLifetimeStep(f, a, now, ends.source);
        var (b, ok) := ServiceLifetime(f, a, now);
        ChargedKeepsInv(a, b, ok, now, ends);
        KeepsTransitive(n, a, b, ends);
        if ok && b.ctl.phase != LAPSED && b.ctl.phase != RELEASED && b.ctl.phase != GAVE_UP {
          ServicePhaseStep(f, b, now, busy, jitter, ends);
          KeepsTransitive(n, b, ServicePhase(f, b, now, busy, jitter).0, ends);
        }
      }
    }
  }

  lemma TxStartedStep(f: Fates, n: Node, now: u32, ends: Endpoints)
    requires NodeInv(n, ends)
    ensures Keeps(n, TxStarted(f, n, now).0, ends) && !TxStarted(f, n, now).1.action.Transmit?
  {
    hide PolicyInv, ControllerInv, ServiceLifetime;
    if Usable(n) {
      ServiceLifetimeStep(f, n, now, ends.source);
      ChargedKeepsInv(n, ServiceLifetime(f, n, now).0, ServiceLifetime(f, n, now).1, now, ends);
    }
  }

  lemma TxStartFailedStep(f: Fates, n: Node, now: u32, jitter: u16, ends: Endpoints)
    requires NodeInv(n, ends)
    ensures Keeps(n, TxStartFailed(f, n, now, jitter).0, ends)
    ensures !TxStartFailed(f, n, now, jitter).1.action.Transmit?
  {
    hide PolicyInv, ServiceLifetime, FailedAttempt;
    if Usable(n) && n.ctl.phase == TX {
      ServiceLifetimeStep(f, n, now, ends.source);
      var (a, ok) := ServiceLifetime(f, n, now);
      ChargedKeepsInv(n, a, ok, now, ends);
      if ok && a.ctl.phase != LAPSED {
        FailedAttemptStep(f, a, now, jitter, ends);
        KeepsTransitive(n, a, FailedAttempt(f, a, now, jitter).0, ends);
      }
    }
  }

  lemma TxCompletedStep(f: Fates, n: Node, now: u32, ends: Endpoints)
    requires NodeInv(n, ends)
    ensures Keeps(n, TxCompleted(f, n, now).0, ends) && !TxCompleted(f, n, now).1.action.Transmit?
  {
    hide PolicyInv, ServiceLifetime;
    if Usable(n) && n.ctl.phase == TX {
      ServiceLifetimeStep(f, n, now, ends.source);
      ChargedKeepsInv(n, ServiceLifetime(f, n, now).0, ServiceLifetime(f, n, now).1, now, ends);
    }
  }

  /** The queue head is authoritative whenever the controller is ready to send: that check never fails. */
  lemma HeadIsAuthoritative(n: Node, ends: Endpoints)
    requires PolicyInv(n.policy, ends.source) && n.policy.store.healthy
    requires n.ctl.active && Least(SlotsOf(n), n.ctl.slot)
    ensures HeadStillAuthoritative(n)
  {
    HeadIsLeast(SlotsOf(n), n.policy.store.queue, n.ctl.slot);
  }

  /** What one transmission is: the queue head's Event, in flight, with one more durable attempt than before. */
  ghost predicate Transmitted(n: Node, m: Node, bytes: seq<u8>, ends: Endpoints) {
    match m
    case Node(_, ctl) =>
      && Usable(m) && ctl.active && ctl.phase == TX && InFlight(m, ends) && Least(SlotsOf(m), ctl.slot)
      && EncodeEvent(ctl.attempt) == Some(bytes)
      && ctl.slot == n.ctl.slot && SlotsOf(n)[ctl.slot].Queued()
      && SlotsOf(m)[ctl.slot].attempts == SlotsOf(n)[ctl.slot].attempts + 1
  }

  lemma LaunchStep(n: Node, sequence: Option<u8>, ends: Endpoints)
    requires PolicyInv(n.policy, ends.source) && Usable(n) && ValidEndpoints(ends.source, ends.hub)
    requires n.ctl.active && n.ctl.slot < 8 && Least(SlotsOf(n), n.ctl.slot) && 1 <= ActiveRecord(n).attempts <= MAX_ATTEMPTS
    ensures var (m, result) := Launch(ends, n, sequence);
      && Keeps(n, m, ends) && SlotsOf(m) == SlotsOf(n) && m.ctl.slot == n.ctl.slot
      && (result.action.Transmit? ==>
            && Usable(m) && m.ctl.active && m.ctl.phase == TX && InFlight(m, ends)
            && EncodeEvent(m.ctl.attempt) == Some(result.action.bytes))
      && (sequence.Some? ==> result.action.Transmit?)
  {
    if sequence.Some? {
      RecordIsSendable(SlotsOf(n), n.policy.store, n.ctl.slot, sequence.value, ends);
    }
    hide PolicyInv, EncodeEvent, ValidEndpoints;
  }

  /** A stored record always encodes as an Event. */
  lemma RecordIsSendable(slots: Slots, s: StoreState, i: SlotIndex, sequence: u8, ends: Endpoints)
    requires StoreInv(s, ends.source) && s.slots == slots && slots[i].Held? && ValidEndpoints(ends.source, ends.hub)
    ensures EncodeEvent(AttemptEvent(ends, sequence, slots[i])).Some?
  {
    assert ValidNodeRecord(slots[i]);
    hide StoreInv, EncodePacket, EventPacket;
    EventRoundTrip(AttemptEvent(ends, sequence, slots[i]));
  }

  /** Granting the radio: custody is kept, and any bytes that leave were counted durably first. */
  lemma GrantTransmitStep(f: Fates, n: Node, now: u32, sequence: Option<u8>, ends: Endpoints)
    requires NodeInv(n, ends) && ValidEndpoints(ends.source, ends.hub)
    ensures var (m, result) := GrantTransmit(f, ends, n, now, sequence);
      && Keeps(n, m, ends)
      && (result.action.Transmit? ==> Transmitted(n, m, result.action.bytes, ends))
  {
    hide PolicyInv, ServiceLifetime, PolicyArmAttempt, Launch, GiveUpOrDegrade, EncodeEvent;
    if Usable(n) && n.ctl.active && n.ctl.phase == READY_TO_SEND {
      var b := InPhase(n, TX_PREPARE);
      ServiceLifetimeStep(f, b, now, ends.source);
      var (a, ok) := ServiceLifetime(f, b, now);
      AgedIsKept(SlotsOf(n), SlotsOf(a));
      if ok {
        assert Aged(SlotsOf(n)[n.ctl.slot], SlotsOf(a)[n.ctl.slot]);
        if a.ctl.phase != LAPSED {
          LeastPersists(SlotsOf(n), SlotsOf(a), n.ctl.slot);
          HeadIsAuthoritative(a, ends);
          GrantArmedStep(f, n, a, now, sequence, ends);
        }
      }
    }
  }

  /** The part of a grant after the active Event survived its lifetime check. */
  lemma GrantArmedStep(f: Fates, n: Node, a: Node, now: u32, sequence: Option<u8>, ends: Endpoints)
    requires ValidEndpoints(ends.source, ends.hub)
    requires PolicyInv(a.policy, ends.source) && Usable(a) && Current(a.policy, now)
    requires AllKept(SlotsOf(n), SlotsOf(a)) && a.policy.store.alloc == n.policy.store.alloc
    requires a.ctl.active && a.ctl.slot == n.ctl.slot && Least(SlotsOf(a), a.ctl.slot)
    requires SlotsOf(n)[a.ctl.slot].Queued() && SlotsOf(a)[a.ctl.slot].attempts == SlotsOf(n)[a.ctl.slot].attempts < MAX_ATTEMPTS
    ensures var (p, armed) := PolicyArmAttempt(f, a.policy, a.ctl.slot, now);
      var b := a.(policy := p);
      && (armed == ATTEMPT_ARMED || armed == ATTEMPT_STORAGE_FAILURE)
      && Keeps(n, Degrade(b, STORE_FAILURE).0, ends)
      && (armed == ATTEMPT_ARMED ==>
            var (m, result) := Launch(ends, b, sequence);
            && Keeps(n, m, ends)
            && (result.action.Transmit? ==> Transmitted(n, m, result.action.bytes, ends)))
  {
    hide PolicyInv, PolicyArmAttempt, Launch, EncodeEvent;
    PolicyArmStep(f, a.policy, a.ctl.slot, now, ends.source);
    var (p, armed) := PolicyArmAttempt(f, a.policy, a.ctl.slot, now);
    var b := a.(policy := p);
    assert AllKept(SlotsOf(a), SlotsOf(b));
    KeptTransitive(SlotsOf(n), SlotsOf(a), SlotsOf(b));
    DegradeStep(n, b, STORE_FAILURE, ends);
    if armed == ATTEMPT_ARMED {
      LeastPersists(SlotsOf(a), SlotsOf(b), a.ctl.slot);
      LaunchStep(b, sequence, ends);
    }
  }

  /** The active Event was released: its slot, and only its slot, is durably free. */
  ghost predicate ReleasedHead(n: Node, m: Node, ends: Endpoints) {
    match m
    case Node(policy, _) =>
      && NodeInv(m, ends) && policy.store.alloc == n.policy.store.alloc
      && n.ctl.slot < 8 && SlotsOf(n)[n.ctl.slot].Queued() && SlotsOf(m)[n.ctl.slot].Free?
      && forall i :: 0 <= i < 8 && i != n.ctl.slot ==> Kept(SlotsOf(n)[i], SlotsOf(m)[i])
  }

  lemma ReleaseStep(f: Fates, n: Node, ends: Endpoints)
    requires NodeInv(n, ends) && Usable(n) && n.ctl.active && n.ctl.phase == WAIT_ADMISSION
    ensures var m := Respond(f, n, ADMITTED, 0, 0).0; Keeps(n, m, ends) || ReleasedHead(n, m, ends)
    ensures forall now, jitter :: Respond(f, n, ADMITTED, now, jitter) == Respond(f, n, ADMITTED, 0, 0)
    ensures !Respond(f, n, ADMITTED, 0, 0).1.action.Transmit?
  {
    hide StoreInv, CommitAndReindex;
    FreeStep(f, n.policy.store, n.ctl.slot, ends.source);
    var s := CommitAndReindex(f, n.policy.store, n.ctl.slot, Free);
    if s.healthy {
      FreedStaysSettled(n.policy, n.ctl.slot, s);
    }
  }

  lemma FreedStaysSettled(p: PolicyState, i: SlotIndex, s: StoreState)
    requires Settled(p) && s.slots == p.store.slots[i := Free]
    ensures Settled(p.(store := s))
  {
    forall j | 0 <= j < 8 ensures SlotSettled(p.(store := s), j) {
      assert SlotSettled(p, j);
    }
  }

  /**
   A packet heard while waiting.  Custody is given up only for a well-formed
   ADMITTED response that matches the attempt in flight, hence the head record.
   */
  lemma AdmissionCandidateStep(f: Fates, n: Node, bytes: seq<u8>, now: u32, jitter: u16, ends: Endpoints)
    requires NodeInv(n, ends)
    ensures var (m, result) := AdmissionCandidate(f, n, bytes, now, jitter);
      && !result.action.Transmit?
      && (Keeps(n, m, ends) ||
            (&& ReleasedHead(n, m, ends)
             && DecodeAdmissionResponse(bytes).Some?
             && DecodeAdmissionResponse(bytes).value.status == ADMITTED
             && DecodeAdmissionResponse(bytes).value.identity == SlotsOf(n)[n.ctl.slot].identity))
  {
    hide PolicyInv, ServiceLifetime, FailedAttempt, GiveUpOrDegrade, DecodeAdmissionResponse, ReleaseQueued;
    if Usable(n) && n.ctl.phase == WAIT_ADMISSION {
      ServiceLifetimeStep(f, n, now, ends.source);
      var (a, ok) := ServiceLifetime(f, n, now);
      ChargedKeepsInv(n, a, ok, now, ends);
      if ok && a.ctl.phase != LAPSED && DecodeAdmissionResponse(bytes).Some? {
        var r := DecodeAdmissionResponse(bytes).value;
        if a.ctl.correlated && MatchesEvent(r, a.ctl.attempt) {
          RespondStep(f, n, a, r.status, now, jitter, ends);
        }
      }
    }
  }

  lemma RespondStep(f: Fates, n: Node, a: Node, status: AdmissionStatus, now: u32, jitter: u16, ends: Endpoints)
    requires Keeps(n, a, ends) && Usable(a) && a.ctl.active && a.ctl.phase == WAIT_ADMISSION && a.ctl.slot == n.ctl.slot
    ensures var (m, result) := Respond(f, a, status, now, jitter);
      && !result.action.Transmit?
      && (Keeps(n, m, ends) || (ReleasedHead(n, m, ends) && status == ADMITTED))
  {
    hide PolicyInv, FailedAttempt, GiveUpOrDegrade, ReleaseQueued;
    match status
    case ADMITTED =>
      ReleaseStep(f, a, ends);
      var m := Respond(f, a, ADMITTED, 0, 0).0;
      assert Respond(f, a, ADMITTED, now, jitter) == Respond(f, a, ADMITTED, 0, 0);
      if Keeps(a, m, ends) {
        KeepsTransitive(n, a, m, ends);
      } else {
        forall i | 0 <= i < 8 && i != n.ctl.slot ensures Kept(SlotsOf(n)[i], SlotsOf(m)[i]) {
          assert Kept(SlotsOf(n)[i], SlotsOf(a)[i]) && Kept(SlotsOf(a)[i], SlotsOf(m)[i]);
        }
      }
    case CAPACITY =>
      FailedAttemptStep(f, a, now, jitter, ends);
      KeepsTransitive(n, a, FailedAttempt(f, a, now, jitter).0, ends);
    case _ =>
      GiveUpOrDegradeStep(f, a, Result(FINE, Receive), ends);
      KeepsTransitive(n, a, GiveUpOrDegrade(f, a, Result(FINE, Receive)).0, ends);
  }

  // ----- reclamation

  /** Only terminal records were freed. */
  predicate OnlyTerminalsFreed(s: Slots, t: Slots) {
    forall i :: 0 <= i < 8 ==> t[i] == s[i] || (s[i].Terminal() && t[i].Free?)
  }

  ghost predicate Reclaimed(n: Node, m: Node, ends: Endpoints) {
    match m
    case Node(policy, _) =>
      && NodeInv(m, ends) && OnlyTerminalsFreed(SlotsOf(n), SlotsOf(m))
      && policy.store.alloc == n.policy.store.alloc
  }

  /** Reclaiming one slot; on a usable controller it fails only if the write fails. */
  lemma ReclaimSlotStep(f: Fates, n: Node, i: SlotIndex, ends: Endpoints)
    requires NodeInv(n, ends) && n.policy.store.healthy
    ensures var (m, ok) := ReclaimSlot(f, n, i);
      && Reclaimed(n, m, ends)
      && (ok ==> m.policy.store.healthy && !SlotsOf(m)[i].Terminal())
      && (ok ==> forall j :: 0 <= j < 8 && j != i ==> SlotsOf(m)[j] == SlotsOf(n)[j])
      && (Usable(n) && !ok ==> !m.policy.store.healthy)
      && (Usable(n) && ok ==> Usable(m))
      && (!n.ctl.initialized ==> m.ctl == n.ctl && m.policy.ready == n.policy.ready)
      && (!n.ctl.active ==> !m.ctl.active && (!ok ==> !m.policy.store.healthy))
  {
    hide StoreInv, CommitAndReindex;
    if SlotsOf(n)[i].Terminal() {
      FreeStep(f, n.policy.store, i, ends.source);
      var s := CommitAndReindex(f, n.policy.store, i, Free);
      if s.healthy && n.policy.ready {
        FreedStaysSettled(n.policy, i, s);
      }
      if s.healthy && Usable(n) && n.ctl.active && n.ctl.slot != i && Least(SlotsOf(n), n.ctl.slot) {
        LeastWithout(SlotsOf(n), i, n.ctl.slot);
      }
    }
  }

  lemma LeastWithout(slots: Slots, i: SlotIndex, head: nat)
    requires Least(slots, head) && i != head
    ensures Least(slots[i := Free], head)
  {
  }

  /**
   Reclaiming all terminal records.  With a usable controller every terminal
   record is freed unless a write fails: the active slot is never refused.
   */
  lemma {:induction false} ReclaimFromStep(f: Fates, n: Node, i: nat, ends: Endpoints)
    requires i <= 8 && NodeInv(n, ends) && n.policy.store.healthy
    ensures var (m, ok) := ReclaimFrom(f, n, i);
      && Reclaimed(n, m, ends)
      && (ok ==> m.policy.store.healthy && forall j :: i <= j < 8 ==> !SlotsOf(m)[j].Terminal())
      && (ok ==> forall j :: 0 <= j < i ==> SlotsOf(m)[j] == SlotsOf(n)[j])
      && (Usable(n) || !n.ctl.active ==> (ok <==> m.policy.store.healthy))
      && (!n.ctl.initialized ==> m.ctl == n.ctl && m.policy.ready == n.policy.ready)
    decreases 8 - i
  {
    hide NodeInv, ReclaimSlot;
    if i < 8 {
      ReclaimSlotStep(f, n, i, ends);
      var (m, ok) := ReclaimSlot(f, n, i);
      if ok {
        ReclaimFromStep(f, m, i + 1, ends);
      }
    }
  }

  lemma ReclaimTerminalsStep(f: Fates, n: Node, ends: Endpoints)
    requires NodeInv(n, ends)
    ensures Reclaimed(n, ReclaimTerminals(f, n).0, ends)
    ensures Usable(n) ==> (ReclaimTerminals(f, n).1 <==> ReclaimTerminals(f, n).0.policy.store.healthy)
  {
    if n.policy.store.healthy {
      ReclaimFromStep(f, n, 0, ends);
    }
  }

  // ----- creation

  /** A new Event was durably stored in a free slot; everything else is unchanged. */
  ghost predicate Created(n: Node, m: Node, slot: SlotIndex, identity: Identity, input: Content) {
    match m
    case Node(policy, _) => Stored(n.policy.store, policy.store, slot, identity, input)
  }

  /** The identity a creation would give, and the slot it would use. */
  function NewIdentity(f: Fates, n: Node): Option<Identity> {
    Allocate(n.policy.store.alloc, f(n.policy.store.tick)).1
  }

  lemma CreateStep(f: Fates, n: Node, input: Content, now: u32, ends: Endpoints)
    requires NodeInv(n, ends)
    ensures var (m, result) := Create(f, n, input, now);
      && NodeInv(m, ends)
      && !Less(Frontier(m.policy.store.alloc), Frontier(n.policy.store.alloc))
      && (SlotsOf(m) != SlotsOf(n) ==>
            && FirstFree(SlotsOf(n), 0).Some? && NewIdentity(f, n).Some?
            && Created(n, m, FirstFree(SlotsOf(n), 0).value, NewIdentity(f, n).value, input))
      && (result.Enqueued? ==> Created(n, m, result.slot, result.identity, input) && Usable(m) && SlotsOf(m) != SlotsOf(n))
      && (Usable(n) && m.policy.store.healthy ==> Usable(m))
  {
    hide StoreInv, Enqueue, Frontier, Allocate, FirstFree;
    if !n.ctl.degraded {
      EnqueueStep(f, n.policy.store, input, ends.source);
      var (s, result) := Enqueue(f, n.policy.store, input);
      if result.Enqueued? {
        CreatedStaysSettled(n, s, result.slot, result.identity, input, ends);
        if Usable(n) && n.ctl.active && Least(SlotsOf(n), n.ctl.slot) {
          CreatedKeepsHead(n, s, result.slot, result.identity, input, ends);
        }
      }
    }
  }

  lemma CreatedStaysSettled(n: Node, s: StoreState, slot: SlotIndex, identity: Identity, input: Content, ends: Endpoints)
    requires PolicyInv(n.policy, ends.source) && n.policy.store.healthy
    requires Stored(n.policy.store, s, slot, identity, input)
    ensures n.policy.ready ==> Settled(n.policy.(store := s))
    ensures n.policy.ready ==> forall now :: Settled(n.policy.(store := s, runtime := n.policy.runtime[slot := Runtime(true, now, 0)]))
  {
    if n.policy.ready {
      forall j | 0 <= j < 8 ensures SlotSettled(n.policy.(store := s), j) {
        assert SlotSettled(n.policy, j);
      }
      forall now ensures Settled(n.policy.(store := s, runtime := n.policy.runtime[slot := Runtime(true, now, 0)])) {
        var p := n.policy.(store := s, runtime := n.policy.runtime[slot := Runtime(true, now, 0)]);
        forall j | 0 <= j < 8 ensures SlotSettled(p, j) {
          assert SlotSettled(n.policy, j);
        }
      }
    }
  }

  lemma CreatedKeepsHead(n: Node, s: StoreState, slot: SlotIndex, identity: Identity, input: Content, ends: Endpoints)
    requires PolicyInv(n.policy, ends.source) && Least(SlotsOf(n), n.ctl.slot)
    requires Stored(n.policy.store, s, slot, identity, input)
    ensures Least(s.slots, n.ctl.slot)
  {
  }

  // ----- power-up

  /** From `s` to `t`: terminal records may have been freed, then queued ones kept in custody. */
  predicate Survived(s: Slots, t: Slots) {
    forall i :: 0 <= i < 8 ==> Kept(s[i], t[i]) || (s[i].Terminal() && t[i].Free?)
  }

  lemma RecoverControllerStep(f: Fates, s: StoreState, now: u32, ends: Endpoints)
    requires StoreInv(s, ends.source)
    ensures var (m, _) := RecoverController(f, ends, s, now);
      && NodeInv(m, ends) && AllKept(s.slots, SlotsOf(m)) && m.policy.store.alloc == s.alloc
  {
    hide StoreInv, RecoverPolicy, GiveUpOrDegrade;
    if ValidEndpoints(ends.source, ends.hub) {
      RecoverPolicyStep(f, s, now, ends.source);
      var (p, status) := RecoverPolicy(f, s, now);
      AgedIsKept(s.slots, p.store.slots);
      if status == SERVICED {
        var n := LoadHead(Node(p, FRESH.(initialized := true)));
        LoadedHeadIsLeast(p, ends.source);
        if ActiveRecord(n).Held? && ActiveRecord(n).attempts >= MAX_ATTEMPTS {
          GiveUpOrDegradeStep(f, n, Result(FINE, NoAction), ends);
          KeptTransitive(s.slots, p.store.slots, SlotsOf(GiveUpOrDegrade(f, n, Result(FINE, NoAction)).0));
        }
      }
    }
  }

  lemma LoadedHeadIsLeast(p: PolicyState, source: u8)
    requires PolicyInv(p, source) && p.store.healthy
    ensures |p.store.queue| > 0 ==> Least(p.store.slots, p.store.queue[0])
  {
    HeadIsLeast(p.store.slots, p.store.queue, if |p.store.queue| > 0 then p.store.queue[0] else 0);
  }

  /** A reboot at any point keeps the invariant and every queued Event, and never moves the allocator back. */
  lemma PowerUpStep(f: Fates, n: Node, now: u32, entropy: u32, ends: Endpoints)
    requires NodeInv(n, ends) && ends.source != 0
    ensures var m := PowerUp(f, ends, n, now, entropy);
      && NodeInv(m, ends) && Survived(SlotsOf(n), SlotsOf(m))
      && m.policy.store.alloc == BecomeReady(n.policy.store.alloc.stored)
  {
    hide StoreInv, RecoverStore, ReclaimFrom, RecoverController;
    RecoverStep(f, n.policy.store, ends.source, entropy);
    var s := RecoverStore(f, n.policy.store, ends.source, entropy);
    var blank := Node(PolicyState(s, TrackedFrom(NO_SLOTS, now), false), FRESH);
    ReclaimFromStep(f, blank, 0, ends);
    var (m, ok) := ReclaimTerminals(f, blank);
    if ok {
      RecoverControllerStep(f, m.policy.store, now, ends);
      var o := RecoverController(f, ends, m.policy.store, now).0;
      forall i | 0 <= i < 8 ensures Kept(SlotsOf(n)[i], SlotsOf(o)[i]) || (SlotsOf(n)[i].Terminal() && SlotsOf(o)[i].Free?) {
        assert Kept(SlotsOf(m)[i], SlotsOf(o)[i]);
      }
    }
  }
}
