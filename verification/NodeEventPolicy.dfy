/**
 Powered-lifetime accounting on the Node: `Policy` of
 lib/node_event_delivery/src/node_event_delivery.h.  Elapsed time is charged to
 each queued slot in 60-second durable checkpoints; the part not yet
 checkpointed is volatile, and recovery charges 60 seconds for it.
 */
module NodeEventPolicy {
  import opened Words
  import opened EventStorage
  import opened EventProtocol
  import opened EventRecords
  import opened EventIdentity
  import opened NodeEventStore

  const CHECKPOINT_SECONDS := 60
  const CHECKPOINT_MILLISECONDS := 60000

  datatype Runtime = Runtime(tracked: bool, baseline: u32, uncommitted: nat)

  const IDLE := Runtime(false, 0, 0)

  type Runtimes = s: seq<Runtime> | |s| == 8
    witness [IDLE, IDLE, IDLE, IDLE, IDLE, IDLE, IDLE, IDLE]

  /** The accumulator is 64 bits wide in the firmware; `Settled` keeps it below 2^33, so it is a `nat` here. */
  datatype PolicyState = PolicyState(store: StoreState, runtime: Runtimes, ready: bool)

  datatype PolicyStatus =
    | SERVICED | POLICY_DEGRADED | DEBIT_FAILURE | CHECKPOINT_FAILURE | EXPIRY_FAILURE | BAD_SLOT | SLOT_NOT_QUEUED

  datatype AttemptResult = ATTEMPT_ARMED | ATTEMPT_EXHAUSTED | ATTEMPT_EXPIRED | ATTEMPT_NOT_QUEUED
                         | ATTEMPT_BAD_SLOT | ATTEMPT_STORAGE_FAILURE | ATTEMPT_UNAVAILABLE

  // ----- specification

  function Unready(p: PolicyState): PolicyState {
    p.(ready := false)
  }

  predicate CheckpointDue(p: PolicyState, i: SlotIndex) {
    && p.store.slots[i].Queued() && p.store.slots[i].remaining > CHECKPOINT_SECONDS
    && p.runtime[i].uncommitted >= CHECKPOINT_MILLISECONDS
  }

  /** Move one whole checkpoint from the volatile account to the durable one. */
  function Checkpoint(f: Fates, p: PolicyState, i: SlotIndex): (PolicyState, PolicyStatus)
    requires CheckpointDue(p, i)
  {
    var (s, status) := CheckpointRemaining(f, p.store, i, p.store.slots[i].remaining - CHECKPOINT_SECONDS);
    if status != OK then (Unready(p.(store := s)), CHECKPOINT_FAILURE)
    else
      var rest := p.runtime[i].(uncommitted := p.runtime[i].uncommitted - CHECKPOINT_MILLISECONDS);
      (p.(store := s, runtime := p.runtime[i := rest]), SERVICED)
  }

  function Expire(f: Fates, p: PolicyState, i: SlotIndex): (PolicyState, PolicyStatus) {
    var (s, status) := MarkExpired(f, p.store, i);
    if status != OK then (Unready(p.(store := s)), EXPIRY_FAILURE)
    else (p.(store := s, runtime := p.runtime[i := IDLE]), SERVICED)
  }

  /** Charge whole checkpoints durably, then expire the Event if the rest covers its lifetime. */
  function DrainSlot(f: Fates, p: PolicyState, i: SlotIndex): (PolicyState, PolicyStatus)
    decreases p.runtime[i].uncommitted
  {
    if !p.store.slots[i].Queued() then (p.(runtime := p.runtime[i := IDLE]), SERVICED)
    else if CheckpointDue(p, i) then
      var (q, status) := Checkpoint(f, p, i);
      if status != SERVICED then (q, status) else DrainSlot(f, q, i)
    else if p.runtime[i].uncommitted >= p.store.slots[i].remaining * 1000 then Expire(f, p, i)
    else (p, SERVICED)
  }

  function ServiceSlot(f: Fates, p: PolicyState, i: SlotIndex, now: u32): (PolicyState, PolicyStatus) {
    if !p.store.slots[i].Queued() then (p.(runtime := p.runtime[i := IDLE]), SERVICED)
    else if !p.runtime[i].tracked then (p.(runtime := p.runtime[i := Runtime(true, now, 0)]), SERVICED)
    else
      var elapsed := Wrap32(now - p.runtime[i].baseline);
      DrainSlot(f, p.(runtime := p.runtime[i := Runtime(true, now, p.runtime[i].uncommitted + elapsed)]), i)
  }

  function ServiceFrom(f: Fates, p: PolicyState, i: nat, now: u32): (PolicyState, PolicyStatus)
    requires i <= 8
    decreases 8 - i
  {
    if i == 8 then (p, SERVICED)
    else
      var (q, status) := ServiceSlot(f, p, i, now);
      if status != SERVICED then (q, status) else ServiceFrom(f, q, i + 1, now)
  }

  function Service(f: Fates, p: PolicyState, now: u32): (PolicyState, PolicyStatus) {
    if !p.ready || !p.store.healthy then (Unready(p), POLICY_DEGRADED) else ServiceFrom(f, p, 0, now)
  }

  function TrackEnqueued(p: PolicyState, i: nat, now: u32): (PolicyState, PolicyStatus) {
    if !p.ready || !p.store.healthy then (Unready(p), POLICY_DEGRADED)
    else if i >= 8 then (p, BAD_SLOT)
    else if !p.store.slots[i].Queued() then (p, SLOT_NOT_QUEUED)
    else (p.(runtime := p.runtime[i := Runtime(true, now, 0)]), SERVICED)
  }

  /** The debit of one queued slot. */
  function DebitSlot(f: Fates, s: StoreState, i: SlotIndex): (StoreState, MutationStatus) {
    if s.slots[i].Held? && s.slots[i].remaining > CHECKPOINT_SECONDS
    then CheckpointRemaining(f, s, i, s.slots[i].remaining - CHECKPOINT_SECONDS)
    else MarkExpired(f, s, i)
  }

  /** The recovery debit: every queued Event loses one checkpoint interval, or expires. */
  function DebitFrom(f: Fates, s: StoreState, i: nat): (StoreState, bool)
    requires i <= 8
    decreases 8 - i
  {
    if i == 8 then (s, true)
    else if !s.slots[i].Queued() then DebitFrom(f, s, i + 1)
    else
      var (t, status) := DebitSlot(f, s, i);
      if status != OK then (t, false) else DebitFrom(f, t, i + 1)
  }

  function TrackedFrom(slots: Slots, now: u32): Runtimes {
    seq(8, i requires 0 <= i < 8 => if slots[i].Queued() then Runtime(true, now, 0) else IDLE)
  }

  function RecoverPolicy(f: Fates, s: StoreState, now: u32): (PolicyState, PolicyStatus) {
    var blank := TrackedFrom([Free, Free, Free, Free, Free, Free, Free, Free], now);
    if !s.healthy then (PolicyState(s, blank, false), POLICY_DEGRADED)
    else
      var (t, debited) := DebitFrom(f, s, 0);
      if !debited then (PolicyState(t, blank, false), DEBIT_FAILURE)
      else (PolicyState(t, TrackedFrom(t.slots, now), true), SERVICED)
  }

  predicate Eligible(p: PolicyState, i: nat) {
    && p.ready && p.store.healthy && i < 8 && p.runtime[i].tracked
    && p.store.slots[i].Queued() && p.runtime[i].uncommitted < p.store.slots[i].remaining * 1000
  }

  function PolicyArmAttempt(f: Fates, p: PolicyState, i: nat, now: u32): (PolicyState, AttemptResult) {
    if !p.ready then (p, ATTEMPT_UNAVAILABLE)
    else
      var (q, status) := Service(f, p, now);
      if status != SERVICED then (q, ATTEMPT_STORAGE_FAILURE)
      else if i >= 8 then (q, ATTEMPT_BAD_SLOT)
      else if q.store.slots[i].Held? && q.store.slots[i].custody == EXPIRED then (q, ATTEMPT_EXPIRED)
      else if !q.store.slots[i].Queued() then (q, ATTEMPT_NOT_QUEUED)
      else if !Eligible(q, i) then (q, ATTEMPT_EXPIRED)
      else
        var (s, armed) := ArmAttempt(f, q.store, i);
        match armed
        case ARMED => (q.(store := s), ATTEMPT_ARMED)
        case EXHAUSTED => (q.(store := s), ATTEMPT_EXHAUSTED)
        case ATTEMPT_INVALID_SLOT => (q.(store := s), ATTEMPT_BAD_SLOT)
        case NOT_QUEUED => (q.(store := s), ATTEMPT_NOT_QUEUED)
        case ATTEMPT_WRITE_FAILED => (Unready(q.(store := s)), ATTEMPT_STORAGE_FAILURE)
        case ATTEMPT_DEGRADED => (Unready(q.(store := s)), ATTEMPT_UNAVAILABLE)
  }

  // ----- what servicing does to a record

  /** Time only lowers the remaining lifetime of a queued record, or expires it. */
  predicate Aged(a: NodeRecord, b: NodeRecord) {
    || a == b
    || (&& a.Queued() && b.Held? && (b.custody == QUEUED || b.custody == EXPIRED)
        && b.identity == a.identity && b.content == a.content
        && b.attempts == a.attempts && b.remaining <= a.remaining)
  }

  predicate AllAged(s: Slots, t: Slots) {
    forall i :: 0 <= i < 8 ==> Aged(s[i], t[i])
  }

  /** No slot holds a whole uncommitted checkpoint, nor as much time as its Event has left. */
  predicate SlotSettled(p: PolicyState, i: SlotIndex) {
    && p.runtime[i].uncommitted < CHECKPOINT_MILLISECONDS
    && (p.store.slots[i].Queued() ==> p.runtime[i].uncommitted < p.store.slots[i].remaining * 1000)
  }

  predicate Settled(p: PolicyState) {
    forall i :: 0 <= i < 8 ==> SlotSettled(p, i)
  }

  ghost predicate PolicyInv(p: PolicyState, source: u8) {
    match p
    case PolicyState(store, _, ready) => StoreInv(store, source) && (ready && store.healthy ==> Settled(p))
  }

  /** A slot that has just been serviced at `now`. */
  predicate SlotCurrent(p: PolicyState, i: SlotIndex, now: u32) {
    if p.store.slots[i].Queued()
    then p.runtime[i].tracked && p.runtime[i].baseline == now && SlotSettled(p, i)
    else p.runtime[i] == IDLE
  }

  predicate Current(p: PolicyState, now: u32) {
    forall i :: 0 <= i < 8 ==> SlotCurrent(p, i, now)
  }

  predicate OnlySlot(p: PolicyState, q: PolicyState, i: SlotIndex) {
    forall j :: 0 <= j < 8 && j != i ==> q.store.slots[j] == p.store.slots[j] && q.runtime[j] == p.runtime[j]
  }

  /** A status tells whether the policy may go on; it stops exactly when the store has stopped. */
  predicate Reported(q: PolicyState, status: PolicyStatus) {
    (status == SERVICED <==> q.ready) && (status == SERVICED <==> q.store.healthy)
  }

  /** From `p` to `q` only slot `i` changed, and only by ageing. */
  ghost predicate SlotServiced(p: PolicyState, q: PolicyState, status: PolicyStatus, i: SlotIndex, source: u8) {
    match q
    case PolicyState(store, _, _) =>
      && StoreInv(store, source) && store.alloc == p.store.alloc
      && Reported(q, status) && OnlySlot(p, q, i) && Aged(p.store.slots[i], store.slots[i])
  }

  lemma CheckpointOnce(f: Fates, p: PolicyState, i: SlotIndex, source: u8)
    requires StoreInv(p.store, source) && p.store.healthy && p.ready && CheckpointDue(p, i)
    ensures var (q, status) := Checkpoint(f, p, i);
      && SlotServiced(p, q, status, i, source)
      && q.runtime[i].tracked == p.runtime[i].tracked && q.runtime[i].baseline == p.runtime[i].baseline
  {
    hide StoreInv;
    CheckpointStep(f, p.store, i, p.store.slots[i].remaining - CHECKPOINT_SECONDS, source);
  }

  lemma ExpireOnce(f: Fates, p: PolicyState, i: SlotIndex, source: u8)
    requires StoreInv(p.store, source) && p.store.healthy && p.ready && p.store.slots[i].Queued()
    ensures var (q, status) := Expire(f, p, i);
      && SlotServiced(p, q, status, i, source)
      && (status == SERVICED ==> SlotCurrent(q, i, p.runtime[i].baseline))
  {
    RetireStep(f, p.store, i, EXPIRED, source);
  }

  lemma ServicedTwice(p: PolicyState, q: PolicyState, r: PolicyState, i: SlotIndex, status: PolicyStatus, source: u8)
    requires SlotServiced(p, q, SERVICED, i, source) && SlotServiced(q, r, status, i, source)
    ensures SlotServiced(p, r, status, i, source)
  {
    assert Aged(p.store.slots[i], q.store.slots[i]) && Aged(q.store.slots[i], r.store.slots[i]);
  }

  lemma {:induction false} DrainStep(f: Fates, p: PolicyState, i: SlotIndex, source: u8)
    requires StoreInv(p.store, source) && p.store.healthy && p.ready && p.runtime[i].tracked
    ensures SlotServiced(p, DrainSlot(f, p, i).0, DrainSlot(f, p, i).1, i, source)
    ensures DrainSlot(f, p, i).1 == SERVICED ==> SlotCurrent(DrainSlot(f, p, i).0, i, p.runtime[i].baseline)
    decreases p.runtime[i].uncommitted
  {
    if p.store.slots[i].Queued() {
      if CheckpointDue(p, i) {
        CheckpointOnce(f, p, i, source);
        var (q, status) := Checkpoint(f, p, i);
        if status == SERVICED {
          DrainStep(f, q, i, source);
          ServicedTwice(p, q, DrainSlot(f, q, i).0, i, DrainSlot(f, q, i).1, source);
        }
      } else if p.runtime[i].uncommitted >= p.store.slots[i].remaining * 1000 {
        ExpireOnce(f, p, i, source);
      }
    }
  }

  lemma ServiceSlotStep(f: Fates, p: PolicyState, i: SlotIndex, now: u32, source: u8)
    requires StoreInv(p.store, source) && p.store.healthy && p.ready
    ensures SlotServiced(p, ServiceSlot(f, p, i, now).0, ServiceSlot(f, p, i, now).1, i, source)
    ensures ServiceSlot(f, p, i, now).1 == SERVICED ==> SlotCurrent(ServiceSlot(f, p, i, now).0, i, now)
  {
    if p.store.slots[i].Queued() && p.runtime[i].tracked {
      var elapsed := Wrap32(now - p.runtime[i].baseline);
      DrainStep(f, p.(runtime := p.runtime[i := Runtime(true, now, p.runtime[i].uncommitted + elapsed)]), i, source);
    }
  }

  /** From `p` to `q` every slot only aged. */
  ghost predicate AllServiced(p: PolicyState, q: PolicyState, status: PolicyStatus, source: u8) {
    match q
    case PolicyState(store, _, _) =>
      && StoreInv(store, source) && store.alloc == p.store.alloc
      && Reported(q, status) && AllAged(p.store.slots, store.slots)
  }

  lemma OneThenRest(p: PolicyState, q: PolicyState, r: PolicyState, i: SlotIndex, status: PolicyStatus, source: u8)
    requires SlotServiced(p, q, SERVICED, i, source) && AllServiced(q, r, status, source)
    ensures AllServiced(p, r, status, source)
  {
    assert AllAged(p.store.slots, q.store.slots);
    AgedTransitive(p.store.slots, q.store.slots, r.store.slots);
  }

  lemma {:induction false} ServiceFromStep(f: Fates, p: PolicyState, i: nat, now: u32, source: u8)
    requires i <= 8 && StoreInv(p.store, source) && p.store.healthy && p.ready
    requires forall j :: 0 <= j < i ==> SlotCurrent(p, j, now)
    ensures AllServiced(p, ServiceFrom(f, p, i, now).0, ServiceFrom(f, p, i, now).1, source)
    ensures ServiceFrom(f, p, i, now).1 == SERVICED ==> Current(ServiceFrom(f, p, i, now).0, now)
    decreases 8 - i
  {
    if i < 8 {
      ServiceSlotStep(f, p, i, now, source);
      var (q, status) := ServiceSlot(f, p, i, now);
      if status == SERVICED {
        forall j | 0 <= j < i + 1 ensures SlotCurrent(q, j, now) {
          if j < i {
            assert SlotCurrent(p, j, now);
          }
        }
        ServiceFromStep(f, q, i + 1, now, source);
        OneThenRest(p, q, ServiceFrom(f, q, i + 1, now).0, i, ServiceFrom(f, q, i + 1, now).1, source);
      } else {
        assert AllAged(p.store.slots, q.store.slots);
      }
    }
  }

  lemma AgedTransitive(s: Slots, t: Slots, u: Slots)
    requires AllAged(s, t) && AllAged(t, u)
    ensures AllAged(s, u)
  {
    forall i | 0 <= i < 8 ensures Aged(s[i], u[i]) {
      assert Aged(s[i], t[i]) && Aged(t[i], u[i]);
    }
  }

  /** One service call: nothing but ageing, and afterwards every queued slot is tracked from `now`. */
  lemma ServiceStep(f: Fates, p: PolicyState, now: u32, source: u8)
    requires PolicyInv(p, source) && p.ready && p.store.healthy
    ensures var (q, status) := Service(f, p, now);
      && PolicyInv(q, source)
      && AllServiced(p, q, status, source)
      && (status == SERVICED ==> Current(q, now))
  {
    ServiceFromStep(f, p, 0, now, source);
    if ServiceFrom(f, p, 0, now).1 == SERVICED {
      CurrentIsSettled(ServiceFrom(f, p, 0, now).0, now);
    }
  }

  lemma CurrentIsSettled(p: PolicyState, now: u32)
    requires Current(p, now)
    ensures Settled(p)
  {
    forall i | 0 <= i < 8 ensures SlotSettled(p, i) {
      assert SlotCurrent(p, i, now);
    }
  }

  /** Servicing twice at one instant does nothing the second time. */
  lemma ServiceSlotIdle(f: Fates, p: PolicyState, i: SlotIndex, now: u32)
    requires SlotCurrent(p, i, now)
    ensures ServiceSlot(f, p, i, now) == (p, SERVICED)
  {
    hide MarkExpired, CheckpointRemaining;
    if p.store.slots[i].Queued() {
      assert p.runtime[i] == Runtime(true, now, p.runtime[i].uncommitted);
      assert p.runtime[i := p.runtime[i]] == p.runtime;
      assert p.(runtime := p.runtime[i := p.runtime[i]]) == p;
    } else {
      assert p.runtime[i := IDLE] == p.runtime;
    }
  }

  lemma {:induction false} ServiceFromIdle(f: Fates, p: PolicyState, i: nat, now: u32)
    requires i <= 8 && Current(p, now)
    ensures ServiceFrom(f, p, i, now) == (p, SERVICED)
    decreases 8 - i
  {
    hide DrainSlot;
    if i < 8 {
      assert SlotCurrent(p, i, now);
      ServiceSlotIdle(f, p, i, now);
      ServiceFromIdle(f, p, i + 1, now);
    }
  }

  /** One checkpoint interval less, or expired when there is no more than that. */
  function DebitRecord(r: NodeRecord): NodeRecord {
    if !r.Queued() then r
    else if r.remaining > CHECKPOINT_SECONDS then r.(remaining := r.remaining - CHECKPOINT_SECONDS)
    else r.(custody := EXPIRED)
  }

  /** What the debit of the slots from `i` on has done. */
  ghost predicate Debited(s: StoreState, t: StoreState, i: nat, source: u8) {
    match t
    case StoreState(slots, alloc, _, healthy, _) =>
      && StoreInv(t, source) && alloc == s.alloc
      && AllAged(s.slots, slots)
      && (forall j :: 0 <= j < 8 && j < i ==> slots[j] == s.slots[j])
      && (healthy ==> forall j :: i <= j < 8 ==> slots[j] == DebitRecord(s.slots[j]))
  }

  lemma DebitSlotStep(f: Fates, s: StoreState, i: SlotIndex, source: u8)
    requires StoreInv(s, source) && s.healthy && s.slots[i].Queued()
    ensures var (t, status) := DebitSlot(f, s, i);
      && StoreInv(t, source) && t.alloc == s.alloc
      && (status == OK <==> t.healthy)
      && (forall j :: 0 <= j < 8 && j != i ==> t.slots[j] == s.slots[j])
      && Aged(s.slots[i], t.slots[i])
      && (t.healthy ==> t.slots[i] == DebitRecord(s.slots[i]))
  {
    if s.slots[i].remaining > CHECKPOINT_SECONDS {
      CheckpointStep(f, s, i, s.slots[i].remaining - CHECKPOINT_SECONDS, source);
    } else {
      RetireStep(f, s, i, EXPIRED, source);
    }
  }

  lemma {:induction false} DebitStep(f: Fates, s: StoreState, i: nat, source: u8)
    requires i <= 8 && StoreInv(s, source) && s.healthy
    ensures Debited(s, DebitFrom(f, s, i).0, i, source)
    ensures DebitFrom(f, s, i).1 == DebitFrom(f, s, i).0.healthy
    decreases 8 - i
  {
    if i < 8 {
      if s.slots[i].Queued() {
        DebitSlotStep(f, s, i, source);
        var (t, status) := DebitSlot(f, s, i);
        assert AllAged(s.slots, t.slots);
        if status == OK {
          DebitStep(f, t, i + 1, source);
          AgedTransitive(s.slots, t.slots, DebitFrom(f, t, i + 1).0.slots);
        }
      } else {
        DebitStep(f, s, i + 1, source);
      }
    }
  }

  lemma RecoverPolicyStep(f: Fates, s: StoreState, now: u32, source: u8)
    requires StoreInv(s, source)
    ensures var (p, status) := RecoverPolicy(f, s, now);
      && PolicyInv(p, source) && p.store.alloc == s.alloc
      && (status == SERVICED <==> p.ready) && (p.ready ==> s.healthy && p.store.healthy && Current(p, now))
      && AllAged(s.slots, p.store.slots)
      && (p.ready ==> forall j :: 0 <= j < 8 ==> p.store.slots[j] == DebitRecord(s.slots[j]))
  {
    if s.healthy {
      DebitStep(f, s, 0, source);
      var (t, debited) := DebitFrom(f, s, 0);
      if debited {
        var p := PolicyState(t, TrackedFrom(t.slots, now), true);
        forall i | 0 <= i < 8 ensures SlotCurrent(p, i, now) && SlotSettled(p, i) {
          assert ValidNodeRecord(t.slots[i]);
        }
      }
    }
  }

  /** The slots after one more counted attempt. */
  function OneMoreAttempt(slots: Slots, i: SlotIndex): Slots
    requires slots[i].Queued() && slots[i].attempts < MAX_ATTEMPTS
  {
    slots[i := slots[i].(attempts := slots[i].attempts + 1)]
  }

  /** Arming on a current policy: at most the one record's attempt count changes. */
  lemma PolicyArmStep(f: Fates, p: PolicyState, i: SlotIndex, now: u32, source: u8)
    requires PolicyInv(p, source) && p.ready && p.store.healthy && Current(p, now)
    requires p.store.slots[i].Queued()
    ensures var (q, result) := PolicyArmAttempt(f, p, i, now);
      var slots := p.store.slots;
      && PolicyInv(q, source) && q.store.alloc == p.store.alloc && q.runtime == p.runtime
      && (result == ATTEMPT_EXHAUSTED <==> slots[i].attempts == MAX_ATTEMPTS)
      && (slots[i].attempts == MAX_ATTEMPTS ==> q == p)
      && (slots[i].attempts < MAX_ATTEMPTS ==>
            && (result == ATTEMPT_ARMED <==> f(p.store.tick) == Durable)
            && (result == ATTEMPT_ARMED ==>
                  q.ready && q.store.healthy && q.store.queue == p.store.queue
                  && q.store.slots == OneMoreAttempt(slots, i))
            && (result != ATTEMPT_ARMED ==>
                  result == ATTEMPT_STORAGE_FAILURE && !q.store.healthy && !q.ready)
            && (q.store.slots == slots || q.store.slots == OneMoreAttempt(slots, i)))
  {
    ServiceFromIdle(f, p, 0, now);
    assert Service(f, p, now) == (p, SERVICED);
    assert SlotCurrent(p, i, now);
    assert ValidNodeRecord(p.store.slots[i]);
    ArmStep(f, p.store, i, source);
    ArmedStaysSettled(p, i, ArmAttempt(f, p.store, i).0);
  }

  lemma ArmedStaysSettled(p: PolicyState, i: SlotIndex, s: StoreState)
    requires Settled(p) && p.store.slots[i].Queued()
    requires p.store.slots[i].attempts < MAX_ATTEMPTS ==>
      s.slots == p.store.slots || s.slots == OneMoreAttempt(p.store.slots, i)
    requires p.store.slots[i].attempts >= MAX_ATTEMPTS ==> s.slots == p.store.slots
    ensures Settled(p.(store := s))
  {
    forall j | 0 <= j < 8 ensures SlotSettled(p.(store := s), j) {
      assert SlotSettled(p, j);
    }
  }
}
