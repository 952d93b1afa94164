/**
 `NodeEventDelivery::Controller`, the reclamation loop and the creation sink as
 an object over the policy and the store.
 */
module NodeEventDeliveryObject {
  import opened Words
  import opened EventStorage
  import opened EventProtocol
  import opened EventRecords
  import opened EventIdentity
  import opened NodeEventStore
  import opened NodeEventPolicy
  import opened NodeEventStoreObject
  import opened NodeEventPolicyObject
  import Spec = NodeEventDelivery
  import opened NodeEventDelivery

  /** Charging time to a sound node keeps it sound. */
  lemma LifetimeKeepsInv(f: Fates, n: Node, now: u32, ends: Endpoints)
    requires NodeInv(n, ends) && Usable(n)
    ensures NodeInv(ServiceLifetime(f, n, now).0, ends)
    ensures ServiceLifetime(f, n, now).1 ==> Usable(ServiceLifetime(f, n, now).0)
  {
    hide PolicyInv, ControllerInv, ServiceLifetime;
    ServiceLifetimeStep(f, n, now, ends.source);
    ChargedKeepsInv(n, ServiceLifetime(f, n, now).0, ServiceLifetime(f, n, now).1, now, ends);
  }

  /** With an attempt in flight the active record has been armed at least once. */
  lemma WaitingWasArmed(n: Node, ends: Endpoints)
    requires NodeInv(n, ends) && Usable(n)
    ensures n.ctl.phase == WAIT_ADMISSION || n.ctl.phase == TX ==>
      ActiveRecord(n).Held? && ActiveRecord(n).attempts >= 1
  {
  }

  lemma LifetimeKeepsPhase(f: Fates, n: Node, now: u32)
    ensures var (m, ok) := ServiceLifetime(f, n, now); ok ==> m.ctl.phase == LAPSED || m.ctl == n.ctl
  {
  }

  lemma AdmissionCandidateKeeps(f: Fates, n: Node, bytes: seq<u8>, now: u32, jitter: u16, ends: Endpoints)
    requires NodeInv(n, ends)
    ensures NodeInv(Spec.AdmissionCandidate(f, n, bytes, now, jitter).0, ends)
  {
    hide NodeInv, Spec.AdmissionCandidate;
    AdmissionCandidateStep(f, n, bytes, now, jitter, ends);
  }

  /** Recovery depends on the durable records alone. */
  lemma RecoverForgets(f: Fates, s: StoreState, t: StoreState, source: u8, entropy: u32)
    requires source != 0 && s.slots == t.slots && s.alloc.stored == t.alloc.stored && s.tick == t.tick
    ensures RecoverStore(f, s, source, entropy) == RecoverStore(f, t, source, entropy)
  {
  }

  class DeliveryController {
    const policy: Policy
    var ends: Endpoints
    var initialized: bool
    var degraded: bool
    var active: bool
    var slot: nat
    var phase: Phase
    var correlated: bool
    var attempt: Event
    var origin: u32
    var duration: u32

    constructor (policy: Policy, ends: Endpoints)
      ensures this.policy == policy && this.ends == ends && Volatile() == FRESH
    {
      this.policy := policy;
      this.ends := ends;
      initialized, degraded, active, slot, phase := false, false, false, 0xFF, WAITING;
      correlated, attempt, origin, duration := false, NO_EVENT, 0, 0;
    }

    ghost predicate Valid()
      reads this, policy, policy.store, policy.store.queue, policy.store.flash, policy.store.allocator
    {
      policy.Valid()
    }

    function Volatile(): Controller
      reads this
    {
      Controller(initialized, degraded, active, slot, phase, correlated, attempt, origin, duration)
    }

    ghost function State(): Node
      requires Valid()
      reads this, policy, policy.store, policy.store.queue, policy.store.flash, policy.store.allocator
    {
      Node(policy.State(), Volatile())
    }

    /** The delivery invariant, on which the table lookups below rely. */
    ghost predicate Sound()
      reads this, policy, policy.store, policy.store.queue, policy.store.flash, policy.store.allocator
    {
      Valid() && NodeInv(State(), ends)
    }

    predicate IsUsable()
      reads this, policy, policy.store
    {
      initialized && !degraded && policy.store.healthy && policy.ready
    }

    lemma UsableAgrees()
      requires Valid()
      ensures IsUsable() == Usable(State())
    {
    }

    function Record(): NodeRecord
      reads this, policy, policy.store
    {
      if active && slot < 8 then policy.store.slots[slot].record else Free
    }

    lemma RecordIsActive()
      requires Valid() && policy.store.healthy
      ensures Record() == ActiveRecord(State())
    {
      if slot < 8 {
        policy.RecordIsDurable(slot);
      }
    }

    method Degrade(status: ControllerStatus) returns (result: Result)
      requires Valid()
      modifies this
      ensures Valid() && (State(), result) == Spec.Degrade(old(State()), status) && ends == old(ends)
    {
      degraded := true;
      return Result(status, Receive);
    }

    method ForgetAttempt()
      requires Valid()
      modifies this
      ensures Valid() && State() == ClearAttempt(old(State())) && ends == old(ends)
    {
      correlated, attempt, origin, duration := false, NO_EVENT, 0, 0;
    }

    method AdoptHead()
      requires Valid() && policy.store.healthy
      modifies this
      ensures Valid() && State() == LoadHead(old(State())) && ends == old(ends)
    {
      if policy.store.queueCount > 0 {
        active, slot, phase := true, policy.store.queue[0], WAITING;
      }
    }

    method ChargeLifetime(now: u32) returns (ok: bool)
      requires Valid()
      modifies this, policy, policy.store, policy.store.queue, policy.store.flash`tick, policy.store.flash`events
      ensures Valid() && (State(), ok) == ServiceLifetime(policy.store.flash.fates, old(State()), now) && ends == old(ends)
      ensures ok ==> policy.store.healthy
    {
      hide Policy.Valid, Policy.State, NodeEventPolicy.Service;
      var status := policy.Service(now);
      if status != SERVICED {
        degraded := true;
        return false;
      }
      RecordIsActive();
      if Record().Held? && Record().custody == EXPIRED {
        phase := LAPSED;
        ForgetAttempt();
      }
      return true;
    }

    method GiveUpActive() returns (ok: bool)
      requires Valid()
      modifies this, policy.store, policy.store.queue, policy.store.flash`tick, policy.store.flash`events
      ensures Valid() && (State(), ok) == GiveUp(policy.store.flash.fates, old(State())) && ends == old(ends)
    {
      hide Store.Valid, Store.State, NodeEventStore.MarkFailed;
      var status := policy.store.MarkFailed(slot);
      if status != OK {
        return false;
      }
      phase := GAVE_UP;
      ForgetAttempt();
      return true;
    }

    method GiveUpOr(then_: Result) returns (result: Result)
      requires Valid()
      modifies this, policy.store, policy.store.queue, policy.store.flash`tick, policy.store.flash`events
      ensures Valid() && (State(), result) == GiveUpOrDegrade(policy.store.flash.fates, old(State()), then_) && ends == old(ends)
    {
      hide Policy.Valid, Policy.State, GiveUp;
      var ok := GiveUpActive();
      if ok {
        return then_;
      }
      result := Degrade(STORE_FAILURE);
    }

    /** Back off by the table entry of the attempt just failed, or give up after the last. */
    method FailAttempt(now: u32, jitter: u16) returns (result: Result)
      requires Valid() && policy.store.healthy
      requires ActiveRecord(State()).Held? && ActiveRecord(State()).attempts >= 1
      modifies this, policy.store, policy.store.queue, policy.store.flash`tick, policy.store.flash`events
      ensures Valid() && (State(), result) == FailedAttempt(policy.store.flash.fates, old(State()), now, jitter) && ends == old(ends)
    {
      hide Policy.Valid, Policy.State, GiveUpOrDegrade;
      RecordIsActive();
      if Record().attempts >= MAX_ATTEMPTS {
        result := GiveUpOr(Result(FINE, Receive));
      } else if jitter > MAX_BACKOFF_JITTER_MILLISECONDS {
        result := Degrade(INVALID_CONFIGURATION);
      } else {
        origin, duration, phase := now, Wrap32(BACKOFF_BASE[Record().attempts - 1] as int + jitter), BACKOFF;
        result := Result(FINE, Receive);
      }
    }

    /** Adopt the queue head when idle or after a release. */
    method RefillActive()
      requires Valid() && policy.store.healthy
      modifies this
      ensures Valid() && State() == Refill(old(State())) && ends == old(ends)
    {
      hide Policy.Valid, Policy.State;
      if phase == RELEASED {
        ForgetAttempt();
        active := false;
        AdoptHead();
      } else if !active {
        AdoptHead();
      }
    }

    method ServiceByPhase(now: u32, busy: bool, jitter: u16) returns (result: Result)
      requires Valid() && policy.store.healthy
      requires phase == WAIT_ADMISSION ==> ActiveRecord(State()).Held? && ActiveRecord(State()).attempts >= 1
      modifies this, policy, policy.store, policy.store.queue, policy.store.flash`tick, policy.store.flash`events
      ensures Valid() && (State(), result) == ServicePhase(policy.store.flash.fates, old(State()), now, busy, jitter)
      ensures ends == old(ends)
    {
      hide Policy.Valid, Policy.State, GiveUpOrDegrade, FailedAttempt;
      RecordIsActive();
      result := Result(FINE, NoAction);
      match phase {
        case WAITING =>
          if Record().Held? && Record().attempts >= MAX_ATTEMPTS {
            result := GiveUpOr(Result(FINE, NoAction));
          } else if !busy {
            phase := READY_TO_SEND;
          }
        case READY_TO_SEND =>
          if busy {
            phase := WAITING;
          }
        case WAIT_ADMISSION =>
          if Elapsed(now, origin) >= ADMISSION_TIMEOUT_MILLISECONDS {
            result := FailAttempt(now, jitter);
          }
        case BACKOFF =>
          if Elapsed(now, origin) >= duration {
            phase := if busy then WAITING else READY_TO_SEND;
          }
        case _ =>
      }
    }

    /** One pass of the delivery state machine. */
    method Service(now: u32, busy: bool, jitter: u16) returns (result: Result)
      requires Sound()
      modifies this, policy, policy.store, policy.store.queue, policy.store.flash`tick, policy.store.flash`events
      ensures Sound() && ends == old(ends)
      ensures (State(), result) == ControllerService(policy.store.flash.fates, old(State()), now, busy, jitter)
    {
      hide Policy.Valid, Policy.State, ServicePhase, ServiceLifetime, NodeInv, Refill;
      ghost var f, n := policy.store.flash.fates, State();
      ControllerServiceStep(f, n, now, busy, jitter, ends);
      UsableAgrees();
      if !IsUsable() {
        return Result(CONTROLLER_DEGRADED, NoAction);
      }
      RefillStep(n, ends);
      RefillActive();
      if !active {
        return Result(NO_ACTIVE_EVENT, NoAction);
      }
      ghost var a := State();
      LifetimeKeepsInv(f, a, now, ends);
      var ok := ChargeLifetime(now);
      if !ok {
        return Result(POLICY_FAILURE, Receive);
      }
      if phase == LAPSED {
        return Result(FINE, Receive);
      }
      if phase == RELEASED || phase == GAVE_UP {
        return Result(FINE, NoAction);
      }
      WaitingWasArmed(State(), ends);
      result := ServiceByPhase(now, busy, jitter);
    }

    /** Build the packet of a durably counted attempt. */
    method LaunchAttempt(sequence: Option<u8>) returns (result: Result)
      requires Valid() && policy.store.healthy
      modifies this
      ensures Valid() && (State(), result) == Launch(ends, old(State()), sequence) && ends == old(ends)
    {
      hide Policy.Valid, Policy.State, EncodeEvent;
      RecordIsActive();
      if sequence.None? {
        result := Degrade(SEQUENCE_FAILURE);
        return;
      }
      if Record().Free? {
        result := Degrade(ENCODE_FAILURE);
        return;
      }
      attempt := AttemptEvent(ends, sequence.value, Record());
      match EncodeEvent(attempt) {
        case None =>
          result := Degrade(ENCODE_FAILURE);
        case Some(bytes) =>
          correlated, phase := true, TX;
          result := Result(FINE, Transmit(bytes));
      }
    }

    predicate HeadIsActive()
      requires policy.store.queue.Length == 8
      reads this, policy, policy.store, policy.store.queue
    {
      policy.store.queueCount > 0 && policy.store.queue[0] == slot && Record().Queued()
    }

    lemma HeadAgrees()
      requires Valid() && policy.store.healthy
      ensures HeadIsActive() == HeadStillAuthoritative(State())
    {
      RecordIsActive();
    }

    /** The radio is granted: count the attempt durably, then hand out the bytes. */
    method GrantTransmit(now: u32, sequence: Option<u8>) returns (result: Result)
      requires Sound() && ValidEndpoints(ends.source, ends.hub)
      modifies this, policy, policy.store, policy.store.queue, policy.store.flash`tick, policy.store.flash`events
      ensures Sound() && ends == old(ends)
      ensures (State(), result) == Spec.GrantTransmit(policy.store.flash.fates, ends, old(State()), now, sequence)
    {
      hide NodeInv, GiveUpOrDegrade, Launch, ServiceLifetime, PolicyArmAttempt, HeadStillAuthoritative, Policy.State;
      ghost var f, n := policy.store.flash.fates, State();
      GrantTransmitStep(f, n, now, sequence, ends);
      UsableAgrees();
      if !IsUsable() {
        return Result(CONTROLLER_DEGRADED, NoAction);
      }
      if !active || phase != READY_TO_SEND {
        return Result(INVALID_STATE, NoAction);
      }
      phase := TX_PREPARE;
      var ok := ChargeLifetime(now);
      if !ok {
        return Result(POLICY_FAILURE, Receive);
      }
      if phase == LAPSED {
        return Result(FINE, Receive);
      }
      HeadAgrees();
      if !HeadIsActive() {
        result := Degrade(POLICY_FAILURE);
        return;
      }
      var armed := policy.ArmAttempt(slot, now);
      match armed {
        case ATTEMPT_ARMED =>
          result := LaunchAttempt(sequence);
        case ATTEMPT_EXPIRED =>
          phase := LAPSED;
          result := Result(FINE, Receive);
        case ATTEMPT_EXHAUSTED =>
          result := GiveUpOr(Result(FINE, Receive));
        case _ =>
          result := Degrade(STORE_FAILURE);
      }
    }

    method TxStarted(now: u32) returns (result: Result)
      requires Sound()
      modifies this, policy, policy.store, policy.store.queue, policy.store.flash`tick, policy.store.flash`events
      ensures Sound() && ends == old(ends)
      ensures (State(), result) == Spec.TxStarted(policy.store.flash.fates, old(State()), now)
    {
      hide NodeInv, ServiceLifetime, Policy.Valid, Policy.State;
      TxStartedStep(policy.store.flash.fates, State(), now, ends);
      UsableAgrees();
      if !IsUsable() || phase != TX {
        return Result(INVALID_STATE, NoAction);
      }
      var ok := ChargeLifetime(now);
      if !ok {
        return Result(POLICY_FAILURE, Receive);
      }
      return Result(FINE, if phase == LAPSED then Receive else NoAction);
    }

    method TxStartFailed(now: u32, jitter: u16) returns (result: Result)
      requires Sound()
      modifies this, policy, policy.store, policy.store.queue, policy.store.flash`tick, policy.store.flash`events
      ensures Sound() && ends == old(ends)
      ensures (State(), result) == Spec.TxStartFailed(policy.store.flash.fates, old(State()), now, jitter)
    {
      hide NodeInv, ServiceLifetime, FailedAttempt, Policy.Valid, Policy.State;
      ghost var f, n := policy.store.flash.fates, State();
      TxStartFailedStep(f, n, now, jitter, ends);
      UsableAgrees();
      if !IsUsable() || phase != TX {
        return Result(INVALID_STATE, NoAction);
      }
      LifetimeKeepsInv(f, n, now, ends);
      LifetimeKeepsPhase(f, n, now);
      var ok := ChargeLifetime(now);
      if !ok {
        return Result(POLICY_FAILURE, Receive);
      }
      if phase == LAPSED {
        return Result(FINE, Receive);
      }
      WaitingWasArmed(State(), ends);
      result := FailAttempt(now, jitter);
    }

    method TxCompleted(now: u32) returns (result: Result)
      requires Sound()
      modifies this, policy, policy.store, policy.store.queue, policy.store.flash`tick, policy.store.flash`events
      ensures Sound() && ends == old(ends)
      ensures (State(), result) == Spec.TxCompleted(policy.store.flash.fates, old(State()), now)
    {
      hide NodeInv, ServiceLifetime, Policy.Valid, Policy.State;
      TxCompletedStep(policy.store.flash.fates, State(), now, ends);
      UsableAgrees();
      if !IsUsable() || phase != TX {
        return Result(INVALID_STATE, NoAction);
      }
      var ok := ChargeLifetime(now);
      if !ok {
        return Result(POLICY_FAILURE, Receive);
      }
      if phase != LAPSED {
        phase, origin, duration := WAIT_ADMISSION, now, ADMISSION_TIMEOUT_MILLISECONDS;
      }
      return Result(FINE, Receive);
    }

    /** A packet heard while waiting for admission. */
    method AdmissionCandidate(bytes: seq<u8>, now: u32, jitter: u16) returns (result: Result)
      requires Sound()
      modifies this, policy, policy.store, policy.store.queue, policy.store.flash`tick, policy.store.flash`events
      ensures Sound() && ends == old(ends)
      ensures (State(), result) == Spec.AdmissionCandidate(policy.store.flash.fates, old(State()), bytes, now, jitter)
    {
      hide NodeInv, ServiceLifetime, Respond, DecodeAdmissionResponse, Policy.Valid, Policy.State;
      ghost var f, n := policy.store.flash.fates, State();
      AdmissionCandidateKeeps(f, n, bytes, now, jitter, ends);
      UsableAgrees();
      if !IsUsable() || phase != WAIT_ADMISSION {
        return Result(INVALID_STATE, NoAction);
      }
      LifetimeKeepsInv(f, n, now, ends);
      LifetimeKeepsPhase(f, n, now);
      var ok := ChargeLifetime(now);
      if !ok {
        return Result(POLICY_FAILURE, Receive);
      }
      if phase == LAPSED {
        return Result(FINE, Receive);
      }
      match DecodeAdmissionResponse(bytes) {
        case None =>
          return Result(FINE, Receive);
        case Some(response) =>
          if !correlated || !MatchesEvent(response, attempt) {
            return Result(FINE, Receive);
          }
          WaitingWasArmed(State(), ends);
          result := Answer(response.status, now, jitter);
      }
    }

    /** The effect of a response that matches the attempt in flight. */
    method Answer(status: AdmissionStatus, now: u32, jitter: u16) returns (result: Result)
      requires Valid() && policy.store.healthy
      requires ActiveRecord(State()).Held? && ActiveRecord(State()).attempts >= 1
      modifies this, policy.store, policy.store.queue, policy.store.flash`tick, policy.store.flash`events
      ensures Valid() && (State(), result) == Respond(policy.store.flash.fates, old(State()), status, now, jitter) && ends == old(ends)
    {
      hide Store.Valid, Store.State, NodeEventStore.ReleaseQueued, FailedAttempt, GiveUpOrDegrade;
      match status {
        case ADMITTED =>
          var released := policy.store.ReleaseQueued(slot);
          if released != OK {
            result := Degrade(STORE_FAILURE);
          } else {
            phase := RELEASED;
            ForgetAttempt();
            result := Result(FINE, Receive);
          }
        case CAPACITY =>
          result := FailAttempt(now, jitter);
        case _ =>
          result := GiveUpOr(Result(FINE, Receive));
      }
    }

    /** Free the active slot once its terminal state is durable. */
    method ReclaimActive() returns (result: Result)
      requires Valid()
      modifies this, policy.store, policy.store.queue, policy.store.flash`tick, policy.store.flash`events
      ensures Valid() && (State(), result) == ReclaimTerminal(policy.store.flash.fates, old(State())) && ends == old(ends)
      ensures result.status == FINE ==> policy.store.healthy
    {
      hide NodeEventStore.Reclaim;
      UsableAgrees();
      if !IsUsable() || !active || (phase != GAVE_UP && phase != LAPSED) {
        return Result(INVALID_STATE, NoAction);
      }
      hide Store.Valid, Store.State;
      var status := policy.store.Reclaim(slot);
      if status != OK {
        result := Degrade(STORE_FAILURE);
        return;
      }
      active := false;
      ForgetAttempt();
      return Result(FINE, NoAction);
    }

    /** Free every durable terminal record, through the controller for the active one. */
    method ReclaimTerminals() returns (ok: bool)
      requires Valid()
      modifies this, policy.store, policy.store.queue, policy.store.flash`tick, policy.store.flash`events
      ensures Valid() && (State(), ok) == Spec.ReclaimTerminals(policy.store.flash.fates, old(State())) && ends == old(ends)
    {
      if !policy.store.healthy {
        return false;
      }
      hide Policy.Valid, Policy.State, ReclaimSlot;
      for i := 0 to 8
        invariant Valid() && policy.store.healthy && ends == old(ends)
        invariant ReclaimFrom(policy.store.flash.fates, State(), i) == ReclaimFrom(policy.store.flash.fates, old(State()), 0)
      {
        ok := ReclaimOne(i);
        if !ok {
          return;
        }
      }
      return true;
    }

    method ReclaimOne(i: SlotIndex) returns (ok: bool)
      requires Valid() && policy.store.healthy
      modifies this, policy.store, policy.store.queue, policy.store.flash`tick, policy.store.flash`events
      ensures Valid() && (State(), ok) == ReclaimSlot(policy.store.flash.fates, old(State()), i) && ends == old(ends)
      ensures ok ==> policy.store.healthy
    {
      hide Store.Valid, Store.State, NodeEventStore.Reclaim, ReclaimTerminal;
      policy.RecordIsDurable(i);
      if !policy.store.slots[i].record.Terminal() {
        return true;
      }
      if active && slot == i {
        var result := ReclaimActive();
        return result.status == FINE;
      }
      var status := policy.store.Reclaim(i);
      return status == OK;
    }

    /** The creation sink: enqueue durably, then start the new occupant's clock. */
    method Create(input: Content, now: u32) returns (result: EnqueueResult)
      requires Sound()
      modifies this, policy, policy.store, policy.store.queue, policy.store.flash`tick, policy.store.flash`events, policy.store.flash`metadata, policy.store.allocator
      ensures Sound() && ends == old(ends)
      ensures (State(), result) == Spec.Create(policy.store.flash.fates, old(State()), input, now)
    {
      hide NodeInv, NodeEventStore.Enqueue, NodeEventPolicy.TrackEnqueued, Store.Valid;
      CreateStep(policy.store.flash.fates, State(), input, now, ends);
      if degraded {
        return STORAGE_FAILED;
      }
      result := policy.store.Enqueue(input);
      if !result.Enqueued? {
        return;
      }
      UsableAgrees();
      if !IsUsable() {
        degraded := true;
        return STORAGE_FAILED;
      }
      var tracked := policy.TrackEnqueued(result.slot, now);
      if tracked != SERVICED {
        degraded := true;
        return STORAGE_FAILED;
      }
    }

    /** Everything volatile is lost. */
    method Forget()
      modifies this
      ensures Volatile() == FRESH && ends == old(ends)
    {
      initialized, degraded, active, slot, phase := false, false, false, 0xFF, WAITING;
      correlated, attempt, origin, duration := false, NO_EVENT, 0, 0;
    }

    /** Recover the policy and adopt the queue head; a head out of attempts is failed at once. */
    method Recover(now: u32) returns (result: Result)
      requires Valid()
      modifies this, policy, policy.store, policy.store.queue, policy.store.flash`tick, policy.store.flash`events
      ensures Valid() && ends == old(ends)
      ensures (State(), result) == RecoverController(policy.store.flash.fates, ends, old(policy.store.State()), now)
    {
      hide RecoverPolicy, GiveUpOrDegrade, Store.Valid, Store.State, LoadHead, TrackedFrom;
      Forget();
      if !ValidEndpoints(ends.source, ends.hub) {
        policy.Forget();
        return Result(INVALID_CONFIGURATION, NoAction);
      }
      var recovered := policy.Recover(now);
      if recovered != SERVICED {
        degraded := true;
        return Result(POLICY_FAILURE, NoAction);
      }
      initialized := true;
      AdoptHead();
      RecordIsActive();
      if Record().Held? && Record().attempts >= MAX_ATTEMPTS {
        result := GiveUpOr(Result(FINE, NoAction));
        return;
      }
      return Result(if active then FINE else NO_ACTIVE_EVENT, NoAction);
    }

    /**
     A reboot at any moment: the store, then terminal reclamation, then the
     controller.  Nothing but the durable copies survives into the result.
     */
    method PowerUp(now: u32, entropy: u32)
      requires Valid() && ends.source != 0
      modifies this, policy, policy.store, policy.store.queue, policy.store.allocator
      modifies policy.store.flash`tick, policy.store.flash`events, policy.store.flash`metadata
      ensures Valid() && ends == old(ends)
      ensures State() == Spec.PowerUp(policy.store.flash.fates, ends, old(State()), now, entropy)
    {
      ghost var f, before := policy.store.flash.fates, State();
      RecoverForgets(f, before.policy.store,
                     PoweredOff(policy.store.flash.events, policy.store.flash.metadata, policy.store.flash.tick), ends.source, entropy);
      Forget();
      policy.Forget();
      hide RecoverStore, Spec.ReclaimTerminals, RecoverController, TrackedFrom;
      policy.store.Recover(ends.source, entropy);
      if !policy.store.healthy {
        return;
      }
      var ok := ReclaimTerminals();
      if !ok {
        return;
      }
      var _ := Recover(now);
    }
  }
}
