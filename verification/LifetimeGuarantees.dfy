/**
 How the Node's lifetime policy charges time: exactly and independently of how
 it is divided between service calls within one boot, and never too little over
 any number of boots.
 */
module LifetimeGuarantees {
  import opened Words
  import opened EventStorage
  import opened EventProtocol
  import opened EventRecords
  import opened EventIdentity
  import opened NodeEventStore
  import opened NodeEventPolicy
  import opened NodeEventDelivery
  import Hub = HubEventLedger
  import opened HubEventRadio
  import opened EventPipeline
  import opened EventGuarantees

  // ----- the account of one Event, by arithmetic alone

  /** Seconds left durably, and milliseconds used but not yet charged durably. */
  datatype Account = Account(remaining: nat, uncommitted: nat)

  /** How many whole checkpoints are charged: as many as were used, but at least one second is kept. */
  function WholeCheckpoints(a: Account): nat
    requires a.remaining > 0
  {
    var used := a.uncommitted / CHECKPOINT_MILLISECONDS;
    var most := (a.remaining - 1) / CHECKPOINT_SECONDS;
    if used < most then used else most
  }

  /** The account after `elapsed` more milliseconds, or nothing once they cover the lifetime. */
  function Charge(a: Account, elapsed: nat): Option<Account>
    requires a.remaining > 0
  {
    var used := Account(a.remaining, a.uncommitted + elapsed);
    if used.uncommitted >= a.remaining * 1000 then None
    else
      var k := WholeCheckpoints(used);
      Some(Account(a.remaining - CHECKPOINT_SECONDS * k, used.uncommitted - CHECKPOINT_MILLISECONDS * k))
  }

  /** Milliseconds left. */
  function Left(a: Account): int {
    a.remaining * 1000 - a.uncommitted
  }

  lemma CheckpointsFit(a: Account)
    requires a.remaining > 0
    ensures var k := WholeCheckpoints(a);
      CHECKPOINT_MILLISECONDS * k <= a.uncommitted && CHECKPOINT_SECONDS * k < a.remaining
  {
    var k := WholeCheckpoints(a);
    assert CHECKPOINT_MILLISECONDS * k <= CHECKPOINT_MILLISECONDS * (a.uncommitted / CHECKPOINT_MILLISECONDS) <= a.uncommitted;
    assert CHECKPOINT_SECONDS * k <= CHECKPOINT_SECONDS * ((a.remaining - 1) / CHECKPOINT_SECONDS) <= a.remaining - 1;
  }

  lemma ChargeConserves(a: Account, elapsed: nat)
    requires a.remaining > 0
    ensures Charge(a, elapsed).Some? <==> elapsed < Left(a)
    ensures Charge(a, elapsed).Some? ==>
      Left(Charge(a, elapsed).value) == Left(a) - elapsed && Charge(a, elapsed).value.remaining > 0
  {
    CheckpointsFit(Account(a.remaining, a.uncommitted + elapsed));
  }

  /** Charging in two parts is charging the sum. */
  lemma ChargeSplits(a: Account, first: nat, second: nat)
    requires a.remaining > 0
    ensures Charge(a, first).None? ==> Charge(a, first + second).None?
    ensures Charge(a, first).Some? ==> Charge(a, first).value.remaining > 0
    ensures Charge(a, first).Some? ==> Charge(Charge(a, first).value, second) == Charge(a, first + second)
  {
    ChargeConserves(a, first);
    ChargeConserves(a, first + second);
    if Charge(a, first).Some? {
      var b := Charge(a, first).value;
      ChargeConserves(b, second);
      if Charge(a, first + second).Some? {
        var j := WholeCheckpoints(Account(a.remaining, a.uncommitted + first));
        var u := a.uncommitted + first + second;
        assert b.uncommitted + second == u - CHECKPOINT_MILLISECONDS * j;
        assert (u - CHECKPOINT_MILLISECONDS * j) / CHECKPOINT_MILLISECONDS == u / CHECKPOINT_MILLISECONDS - j;
        assert (a.remaining - CHECKPOINT_SECONDS * j - 1) / CHECKPOINT_SECONDS == (a.remaining - 1) / CHECKPOINT_SECONDS - j;
      }
    }
  }

  function ChargeAll(a: Account, elapsed: seq<nat>): Option<Account>
    requires a.remaining > 0
    decreases |elapsed|
  {
    if elapsed == [] then Charge(a, 0)
    else
      ChargeConserves(a, elapsed[0]);
      match Charge(a, elapsed[0])
      case None => None
      case Some(b) => ChargeAll(b, elapsed[1..])
  }

  function Total(elapsed: seq<nat>): nat {
    if elapsed == [] then 0 else elapsed[0] + Total(elapsed[1..])
  }

  /** However a span of time is divided between calls, the account ends the same and expires at the same total. */
  lemma {:induction false} ExpiryIsSplitInvariant(a: Account, elapsed: seq<nat>)
    requires a.remaining > 0
    ensures ChargeAll(a, elapsed) == Charge(a, Total(elapsed))
    ensures ChargeAll(a, elapsed).None? <==> Total(elapsed) >= Left(a)
    decreases |elapsed|
  {
    ChargeConserves(a, Total(elapsed));
    if elapsed != [] {
      ChargeConserves(a, elapsed[0]);
      ChargeSplits(a, elapsed[0], Total(elapsed[1..]));
      if Charge(a, elapsed[0]).Some? {
        ExpiryIsSplitInvariant(Charge(a, elapsed[0]).value, elapsed[1..]);
      }
    }
  }

  // ----- the policy computes exactly that

  function AccountOf(p: PolicyState, i: SlotIndex): Account
    requires p.store.slots[i].Queued()
  {
    Account(p.store.slots[i].remaining, p.runtime[i].uncommitted)
  }

  lemma OneCheckpoint(a: Account)
    requires a.remaining > CHECKPOINT_SECONDS && a.uncommitted >= CHECKPOINT_MILLISECONDS
    ensures WholeCheckpoints(a)
         == 1 + WholeCheckpoints(Account(a.remaining - CHECKPOINT_SECONDS, a.uncommitted - CHECKPOINT_MILLISECONDS))
  {
    assert (a.uncommitted - CHECKPOINT_MILLISECONDS) / CHECKPOINT_MILLISECONDS == a.uncommitted / CHECKPOINT_MILLISECONDS - 1;
    assert (a.remaining - CHECKPOINT_SECONDS - 1) / CHECKPOINT_SECONDS == (a.remaining - 1) / CHECKPOINT_SECONDS - 1;
  }

  lemma ChargeAfterCheckpoint(a: Account)
    requires a.remaining > CHECKPOINT_SECONDS && a.uncommitted >= CHECKPOINT_MILLISECONDS
    ensures Charge(a, 0)
         == Charge(Account(a.remaining - CHECKPOINT_SECONDS, a.uncommitted - CHECKPOINT_MILLISECONDS), 0)
  {
    OneCheckpoint(a);
  }

  lemma NothingToCharge(a: Account)
    requires 0 < a.remaining && a.uncommitted < a.remaining * 1000
    requires a.remaining <= CHECKPOINT_SECONDS || a.uncommitted < CHECKPOINT_MILLISECONDS
    ensures Charge(a, 0) == Some(a)
  {
  }

  /** After a successful drain the slot holds the charged account, or the Event has expired. */
  predicate ChargedTo(q: PolicyState, i: SlotIndex, outcome: Option<Account>) {
    match outcome
    case Some(b) => q.store.slots[i].Queued() && AccountOf(q, i) == b
    case None => q.store.slots[i].Held? && q.store.slots[i].custody == EXPIRED
  }

  lemma {:induction false} DrainCharges(f: Fates, p: PolicyState, i: SlotIndex, source: u8)
    requires StoreInv(p.store, source) && p.store.healthy && p.ready && p.store.slots[i].Queued()
    requires p.store.slots[i].remaining > 0
    ensures DrainSlot(f, p, i).1 == SERVICED ==> ChargedTo(DrainSlot(f, p, i).0, i, Charge(AccountOf(p, i), 0))
    decreases p.runtime[i].uncommitted
  {
    hide StoreInv, Charge;
    if CheckpointDue(p, i) {
      CheckpointStep(f, p.store, i, p.store.slots[i].remaining - CHECKPOINT_SECONDS, source);
      var (q, status) := Checkpoint(f, p, i);
      if status == SERVICED {
        ChargeAfterCheckpoint(AccountOf(p, i));
        CheckpointOnce(f, p, i, source);
        DrainCharges(f, q, i, source);
      }
    } else if p.runtime[i].uncommitted >= p.store.slots[i].remaining * 1000 {
      RetireStep(f, p.store, i, EXPIRED, source);
      ChargeConserves(AccountOf(p, i), 0);
    } else {
      NothingToCharge(AccountOf(p, i));
    }
  }

  /** What one completed service does to a slot that was queued and tracked. */
  predicate SlotCharged(p: PolicyState, q: PolicyState, i: SlotIndex, now: u32)
    requires p.store.slots[i].Queued() && p.store.slots[i].remaining > 0
  {
    if p.runtime[i].tracked
    then ChargedTo(q, i, Charge(AccountOf(p, i), Wrap32(now - p.runtime[i].baseline)))
    else q.store.slots[i] == p.store.slots[i] && q.runtime[i] == Runtime(true, now, 0)
  }

  lemma ServiceSlotCharges(f: Fates, p: PolicyState, i: SlotIndex, now: u32, source: u8)
    requires StoreInv(p.store, source) && p.store.healthy && p.ready && p.store.slots[i].Queued()
    requires p.store.slots[i].remaining > 0
    ensures ServiceSlot(f, p, i, now).1 == SERVICED ==> SlotCharged(p, ServiceSlot(f, p, i, now).0, i, now)
  {
    hide StoreInv, DrainSlot;
    if p.runtime[i].tracked {
      var elapsed := Wrap32(now - p.runtime[i].baseline);
      var q := p.(runtime := p.runtime[i := Runtime(true, now, p.runtime[i].uncommitted + elapsed)]);
      DrainCharges(f, q, i, source);
      assert Charge(AccountOf(q, i), 0) == Charge(AccountOf(p, i), elapsed);
    }
  }

  /** A slot still to be serviced is untouched, and one already serviced stays as charged. */
  lemma {:induction false} ServiceFromCharges(f: Fates, p: PolicyState, i: nat, j: SlotIndex, now: u32, source: u8)
    requires i <= 8 && StoreInv(p.store, source) && p.store.healthy && p.ready
    requires p.store.slots[j].Queued() ==> p.store.slots[j].remaining > 0
    ensures var (q, status) := ServiceFrom(f, p, i, now);
      status == SERVICED ==>
        if j < i then q.store.slots[j] == p.store.slots[j] && q.runtime[j] == p.runtime[j]
        else p.store.slots[j].Queued() ==> SlotCharged(p, q, j, now)
    decreases 8 - i
  {
    hide StoreInv, ServiceSlot, Charge;
    if i < 8 {
      ServiceSlotStep(f, p, i, now, source);
      if i == j && p.store.slots[j].Queued() {
        ServiceSlotCharges(f, p, i, now, source);
      }
      var (q, status) := ServiceSlot(f, p, i, now);
      if status == SERVICED {
        assert j != i ==> q.store.slots[j] == p.store.slots[j] && q.runtime[j] == p.runtime[j];
        if j <= i {
          ServiceFromUntouched(f, q, i + 1, j, now, source);
        } else {
          ServiceFromCharges(f, q, i + 1, j, now, source);
        }
      }
    }
  }

  lemma {:induction false} ServiceFromUntouched(f: Fates, p: PolicyState, i: nat, j: SlotIndex, now: u32, source: u8)
    requires i <= 8 && StoreInv(p.store, source) && p.store.healthy && p.ready && j < i
    ensures var (q, status) := ServiceFrom(f, p, i, now);
      status == SERVICED ==> q.store.slots[j] == p.store.slots[j] && q.runtime[j] == p.runtime[j]
    decreases 8 - i
  {
    hide StoreInv, ServiceSlot;
    if i < 8 {
      ServiceSlotStep(f, p, i, now, source);
      if ServiceSlot(f, p, i, now).1 == SERVICED {
        ServiceFromUntouched(f, ServiceSlot(f, p, i, now).0, i + 1, j, now, source);
      }
    }
  }

  /**
   A completed service charged slot `j` exactly the time since its baseline, and
   its Event is still queued exactly if that time is less than what it had left.
   */
  predicate ExactlyCharged(p: PolicyState, q: PolicyState, j: SlotIndex, now: u32) {
    && p.store.slots[j].Queued() && p.store.slots[j].remaining > 0
    && SlotCharged(p, q, j, now)
    && (p.runtime[j].tracked ==>
          (q.store.slots[j].Queued() <==> Wrap32(now - p.runtime[j].baseline) < Left(AccountOf(p, j))))
  }

  /** Exact expiry: an Event expires at precisely the service at which the time charged reaches what it had left. */
  lemma ServiceIsExact(f: Fates, p: PolicyState, now: u32, j: SlotIndex, source: u8)
    requires PolicyInv(p, source) && p.ready && p.store.healthy && p.store.slots[j].Queued()
    ensures Service(f, p, now).1 == SERVICED ==> ExactlyCharged(p, Service(f, p, now).0, j, now)
  {
    QueuedHasTime(p, j, source);
    hide StoreInv, ServiceFrom, Settled, SlotCharged;
    ServiceFromCharges(f, p, 0, j, now, source);
    if Service(f, p, now).1 == SERVICED {
      ChargedIsExact(p, Service(f, p, now).0, j, now);
    }
  }

  lemma QueuedHasTime(p: PolicyState, j: SlotIndex, source: u8)
    requires PolicyInv(p, source) && p.store.slots[j].Queued()
    ensures p.store.slots[j].remaining > 0
  {
  }

  lemma ChargedIsExact(p: PolicyState, q: PolicyState, j: SlotIndex, now: u32)
    requires p.store.slots[j].Queued() && p.store.slots[j].remaining > 0 && SlotCharged(p, q, j, now)
    ensures ExactlyCharged(p, q, j, now)
  {
    hide Charge;
    if p.runtime[j].tracked {
      ChargeConserves(AccountOf(p, j), Wrap32(now - p.runtime[j].baseline));
    }
  }

  /** Clock readings wrap, but differences below 2^32 come out exact. */
  lemma ElapsedIsExact(since: nat, now: nat)
    requires since <= now < since + 0x1_0000_0000
    ensures Wrap32(Wrap32(now) - Wrap32(since)) == now - since
  {
  }

  // ----- any number of services in one boot

  /** Service calls at the given times, stopping at the first that fails. */
  function ServeAll(f: Fates, p: PolicyState, times: seq<nat>): (PolicyState, bool)
    decreases |times|
  {
    if times == [] then (p, true)
    else
      var (q, status) := Service(f, p, Wrap32(times[0]));
      if status != SERVICED then (q, false) else ServeAll(f, q, times[1..])
  }

  /** Times do not run backwards, and calls are less than 2^32 milliseconds apart. */
  predicate Advancing(start: nat, times: seq<nat>)
    decreases |times|
  {
    times == [] || (start <= times[0] < start + 0x1_0000_0000 && Advancing(times[0], times[1..]))
  }

  function Latest(start: nat, times: seq<nat>): nat {
    if times == [] then start else times[|times| - 1]
  }

  lemma {:induction false} LatestIsLater(start: nat, times: seq<nat>)
    requires Advancing(start, times)
    ensures start <= Latest(start, times)
    decreases |times|
  {
    if times != [] {
      LatestIsLater(times[0], times[1..]);
    }
  }

  lemma {:induction false} ExpiredStays(f: Fates, p: PolicyState, times: seq<nat>, j: SlotIndex, source: u8)
    requires PolicyInv(p, source) && p.ready && p.store.healthy && p.store.slots[j].Held? && p.store.slots[j].custody == EXPIRED
    ensures ServeAll(f, p, times).1 ==> ServeAll(f, p, times).0.store.slots[j] == p.store.slots[j]
    decreases |times|
  {
    hide StoreInv, Service, Settled;
    if times != [] {
      ServiceStep(f, p, Wrap32(times[0]), source);
      var (q, status) := Service(f, p, Wrap32(times[0]));
      assert Aged(p.store.slots[j], q.store.slots[j]);
      if status == SERVICED {
        ExpiredStays(f, q, times[1..], j, source);
      }
    }
  }

  /**
   Slot `j` was charged `total` milliseconds in all: its account is the original
   one so charged, and its Event is still queued exactly if that is less than it
   had left.
   */
  predicate ChargedTotal(p: PolicyState, q: PolicyState, j: SlotIndex, total: int) {
    && p.store.slots[j].Queued() && p.store.slots[j].remaining > 0 && total >= 0
    && ChargedTo(q, j, Charge(AccountOf(p, j), total))
    && (q.store.slots[j].Queued() <==> total < Left(AccountOf(p, j)))
  }

  lemma ChargeThenCharge(p: PolicyState, q: PolicyState, r: PolicyState, j: SlotIndex, first: nat, second: nat)
    requires ChargedTotal(p, q, j, first) && ChargedTotal(q, r, j, second)
    ensures ChargedTotal(p, r, j, first + second)
  {
    hide Charge;
    ChargeSplits(AccountOf(p, j), first, second);
    ChargeConserves(AccountOf(p, j), first);
    ChargeConserves(AccountOf(p, j), first + second);
  }

  lemma ChargeThenExpired(p: PolicyState, q: PolicyState, r: PolicyState, j: SlotIndex, first: nat, second: nat)
    requires ChargedTotal(p, q, j, first) && !q.store.slots[j].Queued() && r.store.slots[j] == q.store.slots[j]
    ensures ChargedTotal(p, r, j, first + second)
  {
    hide Charge;
    ChargeSplits(AccountOf(p, j), first, second);
    ChargeConserves(AccountOf(p, j), first);
  }

  /** One completed service, in terms of time. */
  lemma ServedOnce(f: Fates, p: PolicyState, start: nat, now: nat, j: SlotIndex, source: u8)
    requires PolicyInv(p, source) && p.ready && p.store.healthy && p.store.slots[j].Queued()
    requires p.runtime[j].tracked && p.runtime[j].baseline == Wrap32(start) && start <= now < start + 0x1_0000_0000
    ensures var (q, status) := Service(f, p, Wrap32(now));
      status == SERVICED ==>
        && PolicyInv(q, source) && q.ready && q.store.healthy
        && ChargedTotal(p, q, j, now - start)
        && (q.store.slots[j].Queued() ==> q.runtime[j].tracked && q.runtime[j].baseline == Wrap32(now))
        && (!q.store.slots[j].Queued() ==> q.store.slots[j].Held? && q.store.slots[j].custody == EXPIRED)
  {
    hide StoreInv, Service, Settled, Charge;
    ServiceStep(f, p, Wrap32(now), source);
    ServiceIsExact(f, p, Wrap32(now), j, source);
    ElapsedIsExact(start, now);
    var (q, status) := Service(f, p, Wrap32(now));
    if status == SERVICED {
      assert SlotCurrent(q, j, Wrap32(now));
    }
  }

  lemma NotServed(p: PolicyState, j: SlotIndex, source: u8)
    requires PolicyInv(p, source) && p.ready && p.store.healthy && p.store.slots[j].Queued()
    ensures ChargedTotal(p, p, j, 0)
  {
    QueuedHasTime(p, j, source);
    assert SlotSettled(p, j);
    NothingToCharge(AccountOf(p, j));
  }

  /**
   Within a boot only the total time counts, however it was divided between
   services: the Event expires at precisely the first service by which the time
   since its baseline reaches what it had left.
   */
  lemma {:induction false} OnlyTotalTimeCounts(
      f: Fates, p: PolicyState, start: nat, times: seq<nat>, j: SlotIndex, source: u8)
    requires PolicyInv(p, source) && p.ready && p.store.healthy && p.store.slots[j].Queued()
    requires p.runtime[j].tracked && p.runtime[j].baseline == Wrap32(start) && Advancing(start, times)
    ensures ServeAll(f, p, times).1 ==> ChargedTotal(p, ServeAll(f, p, times).0, j, Latest(start, times) - start)
    decreases |times|
  {
    hide PolicyInv, Service, ChargedTotal;
    if times == [] {
      NotServed(p, j, source);
    } else {
      var now, rest := times[0], times[1..];
      ServedOnce(f, p, start, now, j, source);
      var (q, status) := Service(f, p, Wrap32(now));
      if status == SERVICED {
        LatestIsLater(now, rest);
        var first, second := now - start, Latest(now, rest) - now;
        if q.store.slots[j].Queued() {
          OnlyTotalTimeCounts(f, q, now, rest, j, source);
          if ServeAll(f, q, rest).1 {
            ChargeThenCharge(p, q, ServeAll(f, q, rest).0, j, first, second);
          }
        } else {
          ExpiredStays(f, q, rest, j, source);
          if ServeAll(f, q, rest).1 {
            ChargeThenExpired(p, q, ServeAll(f, q, rest).0, j, first, second);
          }
        }
      }
    }
  }

  // ----- what an operation of the Node does to its policy

  /** The record is the same but for its attempt count. */
  predicate SameButAttempts(a: NodeRecord, b: NodeRecord) {
    a == b || (a.Held? && b.Held? && b == a.(attempts := b.attempts))
  }

  /** From `q` to `p` records may leave the queue and attempts may be counted; no account changes. */
  predicate Trimmed(q: PolicyState, p: PolicyState) {
    && p.runtime == q.runtime
    && forall i :: 0 <= i < 8 && p.store.slots[i].Queued() ==>
         q.store.slots[i].Queued() && SameButAttempts(q.store.slots[i], p.store.slots[i])
  }

  lemma TrimmedTwice(q: PolicyState, p: PolicyState, o: PolicyState)
    requires Trimmed(q, p) && Trimmed(p, o)
    ensures Trimmed(q, o)
  {
    forall i | 0 <= i < 8 && o.store.slots[i].Queued()
      ensures q.store.slots[i].Queued() && SameButAttempts(q.store.slots[i], o.store.slots[i])
    {
      assert SameButAttempts(p.store.slots[i], o.store.slots[i]) && SameButAttempts(q.store.slots[i], p.store.slots[i]);
    }
  }

  /** The operation charged time once, at `now`, and after that only trimmed; a failed charge ends this boot's work. */
  predicate Follows(f: Fates, n: Node, m: Node, now: u32) {
    var (q, status) := Service(f, n.policy, now);
    Trimmed(q, m.policy) && (status != SERVICED ==> !Usable(m))
  }

  lemma ChargeTrims(f: Fates, n: Node, now: u32)
    requires Usable(n)
    ensures Follows(f, n, ServiceLifetime(f, n, now).0, now)
    ensures Trimmed(Service(f, n.policy, now).0, ServiceLifetime(f, n, now).0.policy)
    ensures ServiceLifetime(f, n, now).1 <==> Service(f, n.policy, now).1 == SERVICED
  {
    hide Service;
  }

  lemma MutationTrims(f: Fates, p: PolicyState, i: nat, source: u8)
    requires StoreInv(p.store, source)
    ensures Trimmed(p, p.(store := MarkFailed(f, p.store, i).0))
    ensures Trimmed(p, p.(store := ReleaseQueued(f, p.store, i).0))
  {
    hide StoreInv, CommitAndReindex;
    RetireStep(f, p.store, i, FAILED, source);
    if p.store.healthy && i < 8 {
      FreeStep(f, p.store, i, source);
    }
  }

  lemma GiveUpTrims(f: Fates, n: Node, then_: Result, source: u8)
    requires StoreInv(n.policy.store, source)
    ensures Trimmed(n.policy, GiveUpOrDegrade(f, n, then_).0.policy)
  {
    hide StoreInv, MarkFailed, Trimmed;
    MutationTrims(f, n.policy, n.ctl.slot, source);
  }

  lemma FailedAttemptTrims(f: Fates, n: Node, now: u32, jitter: u16, source: u8)
    requires StoreInv(n.policy.store, source)
    ensures Trimmed(n.policy, FailedAttempt(f, n, now, jitter).0.policy)
  {
    hide StoreInv, GiveUpOrDegrade;
    GiveUpTrims(f, n, Result(FINE, Receive), source);
  }

  lemma ServicePhaseTrims(f: Fates, n: Node, now: u32, busy: bool, jitter: u16, source: u8)
    requires StoreInv(n.policy.store, source)
    ensures Trimmed(n.policy, ServicePhase(f, n, now, busy, jitter).0.policy)
  {
    hide StoreInv, GiveUpOrDegrade, FailedAttempt;
    GiveUpTrims(f, n, Result(FINE, NoAction), source);
    FailedAttemptTrims(f, n, now, jitter, source);
  }

  lemma RespondTrims(f: Fates, n: Node, status: AdmissionStatus, now: u32, jitter: u16, source: u8)
    requires StoreInv(n.policy.store, source)
    ensures Trimmed(n.policy, Respond(f, n, status, now, jitter).0.policy)
  {
    hide StoreInv, GiveUpOrDegrade, FailedAttempt, ReleaseQueued, Trimmed;
    MutationTrims(f, n.policy, n.ctl.slot, source);
    GiveUpTrims(f, n, Result(FINE, Receive), source);
    FailedAttemptTrims(f, n, now, jitter, source);
  }

  /** Whether the operation gets as far as charging time. */
  predicate Charges(n: Node, op: Op) {
    Usable(n) &&
    match op
    case ServiceNode(_, _, _) => Refill(n).ctl.active
    case Grant(_, _) => n.ctl.active && n.ctl.phase == READY_TO_SEND
    case Started(_) => n.ctl.phase == TX
    case StartFailed(_, _) => n.ctl.phase == TX
    case Completed(_) => n.ctl.phase == TX
    case Hear(_, _, _) => n.ctl.phase == WAIT_ADMISSION
    case _ => false
  }

  /** The Node after one of the operations that may charge time. */
  function Operated(f: Fates, ends: Endpoints, n: Node, op: Op): Node {
    match op
    case ServiceNode(now, busy, jitter) => ControllerService(f, n, now, busy, jitter).0
    case Grant(now, sequence) => GrantTransmit(f, ends, n, now, sequence).0
    case Started(now) => TxStarted(f, n, now).0
    case StartFailed(now, jitter) => TxStartFailed(f, n, now, jitter).0
    case Completed(now) => TxCompleted(f, n, now).0
    case Hear(packet, now, jitter) => AdmissionCandidate(f, n, packet, now, jitter).0
    case _ => n
  }

  predicate MayCharge(op: Op) {
    op.ServiceNode? || op.Grant? || op.Started? || op.StartFailed? || op.Completed? || op.Hear?
  }

  /** The clock reading the operation was given. */
  function ReadingOf(op: Op): u32
    requires MayCharge(op)
  {
    match op
    case ServiceNode(now, _, _) => now
    case Grant(now, _) => now
    case Started(now) => now
    case StartFailed(now, _) => now
    case Completed(now) => now
    case Hear(_, now, _) => now
  }

  lemma FollowsAfter(f: Fates, n: Node, a: Node, m: Node, now: u32)
    requires Follows(f, n, a, now) && Trimmed(a.policy, m.policy)
    requires Service(f, n.policy, now).1 == SERVICED
    ensures Follows(f, n, m, now)
  {
    hide Service, Trimmed;
    TrimmedTwice(Service(f, n.policy, now).0, a.policy, m.policy);
  }

  lemma TrimmedSelf(p: PolicyState)
    ensures Trimmed(p, p)
  {
  }

  lemma StoreStaysSound(f: Fates, n: Node, now: u32, source: u8)
    requires PolicyInv(n.policy, source) && Usable(n)
    ensures StoreInv(ServiceLifetime(f, n, now).0.policy.store, source)
  {
    hide StoreInv, ServiceFrom;
    ServiceStep(f, n.policy, now, source);
  }

  lemma ServiceFollows(f: Fates, n: Node, now: u32, busy: bool, jitter: u16, ends: Endpoints)
    requires NodeInv(n, ends) && Charges(n, ServiceNode(now, busy, jitter))
    ensures Follows(f, n, ControllerService(f, n, now, busy, jitter).0, now)
  {
    var a := Refill(n);
    RefillStep(n, ends);
    ChargeTrims(f, a, now);
    StoreStaysSound(f, a, now, ends.source);
    var (b, ok) := ServiceLifetime(f, a, now);
    ServicePhaseTrims(f, b, now, busy, jitter, ends.source);
    hide NodeInv, StoreInv, Service, ServiceLifetime, ServicePhase, Refill, Follows, Trimmed;
    FollowsOfPolicy(f, n, a, ControllerService(f, n, now, busy, jitter).0, now);
    if ok && b.ctl.phase != LAPSED && b.ctl.phase != RELEASED && b.ctl.phase != GAVE_UP {
      FollowsAfter(f, a, b, ServicePhase(f, b, now, busy, jitter).0, now);
    }
  }

  lemma FollowsOfPolicy(f: Fates, n: Node, a: Node, m: Node, now: u32)
    requires a.policy == n.policy
    ensures Follows(f, n, m, now) <==> Follows(f, a, m, now)
  {
  }

  lemma StartsFollow(f: Fates, n: Node, now: u32, jitter: u16, ends: Endpoints)
    requires NodeInv(n, ends) && Usable(n) && n.ctl.phase == TX
    ensures Follows(f, n, TxStarted(f, n, now).0, now)
    ensures Follows(f, n, TxStartFailed(f, n, now, jitter).0, now)
    ensures Follows(f, n, TxCompleted(f, n, now).0, now)
  {
    ChargeTrims(f, n, now);
    StoreStaysSound(f, n, now, ends.source);
    var (a, ok) := ServiceLifetime(f, n, now);
    FailedAttemptTrims(f, a, now, jitter, ends.source);
    TrimmedSelf(a.policy);
    hide NodeInv, StoreInv, Service, ServiceLifetime, FailedAttempt, Follows, Trimmed;
    if ok {
      FollowsAfter(f, n, a, FailedAttempt(f, a, now, jitter).0, now);
      FollowsAfter(f, n, a, TxCompleted(f, n, now).0, now);
    }
  }

  lemma HearFollows(f: Fates, n: Node, packet: seq<u8>, now: u32, jitter: u16, ends: Endpoints)
    requires NodeInv(n, ends) && Usable(n) && n.ctl.phase == WAIT_ADMISSION
    ensures Follows(f, n, AdmissionCandidate(f, n, packet, now, jitter).0, now)
  {
    ChargeTrims(f, n, now);
    StoreStaysSound(f, n, now, ends.source);
    var (a, ok) := ServiceLifetime(f, n, now);
    hide NodeInv, StoreInv, Service, ServiceLifetime, Respond, Follows, Trimmed, DecodeAdmissionResponse;
    if ok && DecodeAdmissionResponse(packet).Some? {
      var status := DecodeAdmissionResponse(packet).value.status;
      RespondTrims(f, a, status, now, jitter, ends.source);
      FollowsAfter(f, n, a, Respond(f, a, status, now, jitter).0, now);
    }
  }

  /** Arming on a policy charged at the same instant charges nothing more. */
  lemma ArmTrims(f: Fates, p: PolicyState, i: SlotIndex, now: u32, source: u8)
    requires PolicyInv(p, source) && p.ready && p.store.healthy && Current(p, now) && p.store.slots[i].Queued()
    ensures Trimmed(p, PolicyArmAttempt(f, p, i, now).0) && PolicyInv(PolicyArmAttempt(f, p, i, now).0, source)
  {
    assert ValidNodeRecord(p.store.slots[i]);
    hide PolicyInv, PolicyArmAttempt;
    PolicyArmStep(f, p, i, now, source);
  }

  lemma LaunchTrims(ends: Endpoints, n: Node, sequence: Option<u8>)
    ensures Launch(ends, n, sequence).0.policy == n.policy
  {
    hide EncodeEvent;
  }

  /** Where a grant can end: at the charge, at the head check, or after arming. */
  predicate GrantEnds(f: Fates, ends: Endpoints, a: Node, m: Node, now: u32, sequence: Option<u8>) {
    var (p, armed) := PolicyArmAttempt(f, a.policy, a.ctl.slot, now);
    var c := a.(policy := p);
    || m == Launch(ends, c, sequence).0 || m == InPhase(c, LAPSED)
    || m == GiveUpOrDegrade(f, c, Result(FINE, Receive)).0 || m == Degrade(c, STORE_FAILURE).0
  }

  lemma GrantCases(f: Fates, n: Node, now: u32, sequence: Option<u8>, ends: Endpoints)
    requires Charges(n, Grant(now, sequence))
    ensures var (a, ok) := ServiceLifetime(f, InPhase(n, TX_PREPARE), now);
      var m := GrantTransmit(f, ends, n, now, sequence).0;
      m == a || (ok && (m == Degrade(a, POLICY_FAILURE).0 || (HeadStillAuthoritative(a) && GrantEnds(f, ends, a, m, now, sequence))))
  {
    hide ServiceLifetime, PolicyArmAttempt, Launch, GiveUpOrDegrade, HeadStillAuthoritative;
  }

  lemma GrantFollows(f: Fates, n: Node, now: u32, sequence: Option<u8>, ends: Endpoints)
    requires NodeInv(n, ends) && Charges(n, Grant(now, sequence))
    ensures Follows(f, n, GrantTransmit(f, ends, n, now, sequence).0, now)
  {
    var b := InPhase(n, TX_PREPARE);
    assert PolicyInv(b.policy, ends.source);
    GrantCases(f, n, now, sequence, ends);
    hide NodeInv, PolicyInv, Service, ServiceLifetime, PolicyArmAttempt, Launch, GiveUpOrDegrade, Follows, Trimmed,
      Current, HeadStillAuthoritative, LifetimeCharged, GrantTransmit;
    ChargeTrims(f, b, now);
    ServiceLifetimeStep(f, b, now, ends.source);
    var (a, ok) := ServiceLifetime(f, b, now);
    AtHead(b, a, ok, now, ends);
    FollowsOfPolicy(f, n, b, GrantTransmit(f, ends, n, now, sequence).0, now);
    if ok {
      DegradeFollows(f, b, a, now);
      if HeadStillAuthoritative(a) {
        ArmTrims(f, a.policy, a.ctl.slot, now, ends.source);
        ArmedFollows(f, b, a, now, sequence, ends);
      }
    }
  }

  lemma DegradeFollows(f: Fates, n: Node, a: Node, now: u32)
    requires Follows(f, n, a, now) && Service(f, n.policy, now).1 == SERVICED
    ensures Follows(f, n, Degrade(a, POLICY_FAILURE).0, now)
  {
    hide Service;
  }

  lemma AtHead(n: Node, a: Node, ok: bool, now: u32, ends: Endpoints)
    requires LifetimeCharged(n, a, ok, now, ends.source)
    ensures ok && HeadStillAuthoritative(a) ==>
      && a.ctl.slot < 8 && SlotsOf(a)[a.ctl.slot].Queued()
      && PolicyInv(a.policy, ends.source) && a.policy.ready && a.policy.store.healthy && Current(a.policy, now)
  {
    hide PolicyInv;
  }

  /** Whatever the outcome of arming, the rest of a grant only trims. */
  lemma ArmedFollows(f: Fates, n: Node, a: Node, now: u32, sequence: Option<u8>, ends: Endpoints)
    requires a.ctl.slot < 8 && Follows(f, n, a, now) && Service(f, n.policy, now).1 == SERVICED
    requires Trimmed(a.policy, PolicyArmAttempt(f, a.policy, a.ctl.slot, now).0)
    requires PolicyInv(PolicyArmAttempt(f, a.policy, a.ctl.slot, now).0, ends.source)
    ensures var (p, armed) := PolicyArmAttempt(f, a.policy, a.ctl.slot, now);
      var c := a.(policy := p);
      && Follows(f, n, Launch(ends, c, sequence).0, now) && Follows(f, n, InPhase(c, LAPSED), now)
      && Follows(f, n, GiveUpOrDegrade(f, c, Result(FINE, Receive)).0, now) && Follows(f, n, Degrade(c, STORE_FAILURE).0, now)
  {
    hide Service, Launch, GiveUpOrDegrade, Follows, Trimmed, StoreInv, PolicyArmAttempt;
    var (p, armed) := PolicyArmAttempt(f, a.policy, a.ctl.slot, now);
    var c := a.(policy := p);
    LaunchTrims(ends, c, sequence);
    GiveUpTrims(f, c, Result(FINE, Receive), ends.source);
    TrimmedTwice(a.policy, p, GiveUpOrDegrade(f, c, Result(FINE, Receive)).0.policy);
    FollowsAfter(f, n, a, Launch(ends, c, sequence).0, now);
    FollowsAfter(f, n, a, InPhase(c, LAPSED), now);
    FollowsAfter(f, n, a, GiveUpOrDegrade(f, c, Result(FINE, Receive)).0, now);
    FollowsAfter(f, n, a, Degrade(c, STORE_FAILURE).0, now);
  }

  /** An operation that charges time does so once; one that does not leaves the policy and the usability alone. */
  lemma OperationFollows(f: Fates, ends: Endpoints, n: Node, op: Op)
    requires NodeInv(n, ends) && MayCharge(op)
    ensures Charges(n, op) ==> Follows(f, n, Operated(f, ends, n, op), ReadingOf(op))
    ensures !Charges(n, op) ==>
      Operated(f, ends, n, op).policy == n.policy && (Usable(Operated(f, ends, n, op)) ==> Usable(n))
  {
    hide NodeInv, Follows, ServiceLifetime, ServicePhase;
    if Charges(n, op) {
      match op
      case ServiceNode(now, busy, jitter) => ServiceFollows(f, n, now, busy, jitter, ends);
      case Grant(now, sequence) => GrantFollows(f, n, now, sequence, ends);
      case Started(now) => StartsFollow(f, n, now, 0, ends);
      case StartFailed(now, jitter) => StartsFollow(f, n, now, jitter, ends);
      case Completed(now) => StartsFollow(f, n, now, 0, ends);
      case Hear(packet, now, jitter) => HearFollows(f, n, packet, now, jitter, ends);
    }
  }

  // ----- runs of the whole system with stopwatches

  type Times = s: seq<nat> | |s| == 8 witness [0, 0, 0, 0, 0, 0, 0, 0]

  /**
   The system with a stopwatch per Node slot.  `observed` is the time the Event
   in the slot has been seen for by completed services, over all boots; `since`
   is when this boot last looked at the slot; `clock` is the latest time.
   */
  datatype Watched = Watched(world: World, observed: Times, since: Times, clock: nat)

  /** An operation and the absolute time at which it happens. */
  datatype Timed = Timed(op: Op, at: nat)

  function All(t: nat): Times {
    seq(8, _ => t)
  }

  function PolicyOf(w: Watched): PolicyState {
    w.world.node.policy
  }

  function Observe(w: Watched, now: nat): Times {
    seq(8, i requires 0 <= i < 8 =>
      if PolicyOf(w).store.slots[i].Queued() && PolicyOf(w).runtime[i].tracked && w.since[i] <= now
      then w.observed[i] + now - w.since[i] else w.observed[i])
  }

  /** The clock does not run backwards, and a queued Event is looked at again in less than 2^32 milliseconds. */
  predicate Timely(w: Watched, at: nat) {
    w.clock <= at && forall i :: 0 <= i < 8 && PolicyOf(w).store.slots[i].Queued() ==> at < w.since[i] + 0x1_0000_0000
  }

  /** The operation is given the time it happens at; a reboot may restart the clock at any value. */
  predicate InTime(w: Watched, t: Timed) {
    match t.op
    case CreateEvent(_, now) => now == Wrap32(t.at) && Timely(w, t.at)
    case RebootNode(now, _) => now == Wrap32(t.at)
    case _ => MayCharge(t.op) ==> ReadingOf(t.op) == Wrap32(t.at) && Timely(w, t.at)
  }

  /** Whether this operation completes a service of the Node's policy. */
  predicate Completes(f: Fates, w: Watched, t: Timed) {
    && MayCharge(t.op) && (t.op.Hear? ==> Audible(w.world, t.op.packet)) && Charges(w.world.node, t.op)
    && Service(f, PolicyOf(w), ReadingOf(t.op)).1 == SERVICED
  }

  /** What the stopwatches make of one operation that leads to `v`. */
  function Advance(f: Fates, w: Watched, t: Timed, v: World): Watched {
    match t.op
    case CreateEvent(_, _) =>
      var free := FirstFree(PolicyOf(w).store.slots, 0);
      if SlotsOf(v.node) == PolicyOf(w).store.slots || free.None? then w.(world := v, clock := t.at)
      else Watched(v, w.observed[free.value := 0], w.since[free.value := t.at], t.at)
    case RebootNode(_, _) => Watched(v, w.observed, All(t.at), t.at)
    case _ =>
      if Completes(f, w, t) then Watched(v, Observe(w, t.at), All(t.at), t.at)
      else if MayCharge(t.op) then w.(world := v, clock := t.at)
      else w.(world := v)
  }

  function WatchedStep(f: Fates, g: Fates, ends: Endpoints, w: Watched, t: Timed): Watched {
    Advance(f, w, t, Step(f, g, ends, w.world, t.op))
  }

  function RunWatched(f: Fates, g: Fates, ends: Endpoints, w: Watched, ts: seq<Timed>): Watched
    decreases |ts|
  {
    if ts == [] then w else WatchedStep(f, g, ends, RunWatched(f, g, ends, w, ts[..|ts| - 1]), ts[|ts| - 1])
  }

  predicate Punctual(f: Fates, g: Fates, ends: Endpoints, w: Watched, ts: seq<Timed>)
    decreases |ts|
  {
    ts != [] ==>
      && Punctual(f, g, ends, w, ts[..|ts| - 1])
      && InTime(RunWatched(f, g, ends, w, ts[..|ts| - 1]), ts[|ts| - 1])
  }

  function Operations(ts: seq<Timed>): seq<Op> {
    seq(|ts|, i requires 0 <= i < |ts| => ts[i].op)
  }

  /** The stopwatches only watch: underneath is the run of the system. */
  lemma {:induction false} WatchingChangesNothing(f: Fates, g: Fates, ends: Endpoints, w: Watched, ts: seq<Timed>)
    ensures RunWatched(f, g, ends, w, ts).world == Run(f, g, ends, w.world, Operations(ts))
    decreases |ts|
  {
    hide Step, Completes;
    if ts != [] {
      WatchingChangesNothing(f, g, ends, w, ts[..|ts| - 1]);
      assert Operations(ts)[..|ts| - 1] == Operations(ts[..|ts| - 1]);
    }
  }

  // ----- the bound

  /**
   While the Node is usable, observed time plus time left stays within the budget.
   Once it is not, less than one checkpoint interval is unaccounted for.
   */
  predicate SlotWatched(w: Watched, i: SlotIndex) {
    var r := PolicyOf(w).store.slots[i];
    r.Queued() ==>
      if Usable(w.world.node) then
        && PolicyOf(w).runtime[i].tracked && PolicyOf(w).runtime[i].baseline == Wrap32(w.since[i])
        && w.observed[i] + r.remaining * 1000 <= r.content.lifetime * 1000 + PolicyOf(w).runtime[i].uncommitted
      else Stopped(w, i)
  }

  predicate Stopped(w: Watched, i: SlotIndex) {
    var r := PolicyOf(w).store.slots[i];
    r.Held? ==> w.observed[i] + r.remaining * 1000 < r.content.lifetime * 1000 + CHECKPOINT_MILLISECONDS
  }

  ghost predicate WatchedInv(w: Watched, ends: Endpoints) {
    match w
    case Watched(world, _, since, clock) =>
      && NodeInv(world.node, ends)
      && forall i :: 0 <= i < 8 ==> since[i] <= clock && SlotWatched(w, i)
  }

  /** In any invariant state, stopping loses less than one checkpoint interval. */
  lemma StoppedBound(w: Watched, i: SlotIndex, ends: Endpoints)
    requires WatchedInv(w, ends) && PolicyOf(w).store.slots[i].Queued()
    ensures Stopped(w, i)
  {
    hide StoreInv, ControllerInv;
    assert SlotWatched(w, i);
    if Usable(w.world.node) {
      assert SlotSettled(PolicyOf(w), i);
    }
  }

  /** A state that is not usable keeps the bound if queued records are old ones with no more time left. */
  lemma UnusableKeeps(w: Watched, v: Watched, ends: Endpoints)
    requires WatchedInv(w, ends) && NodeInv(v.world.node, ends) && !Usable(v.world.node) && v.observed == w.observed
    requires forall i :: 0 <= i < 8 ==> v.since[i] <= v.clock
    requires forall i :: 0 <= i < 8 && PolicyOf(v).store.slots[i].Queued() ==>
      var r, o := PolicyOf(v).store.slots[i], PolicyOf(w).store.slots[i];
      o.Queued() && r.content == o.content && r.remaining <= o.remaining
    ensures WatchedInv(v, ends)
  {
    hide NodeInv;
    forall i | 0 <= i < 8 ensures v.since[i] <= v.clock && SlotWatched(v, i) {
      if PolicyOf(v).store.slots[i].Queued() {
        StoppedBound(w, i, ends);
      }
    }
  }

  /** A completed service adds exactly the observed time to every account. */
  lemma ServedSlot(f: Fates, w: Watched, at: nat, i: SlotIndex, ends: Endpoints)
    requires WatchedInv(w, ends) && Usable(w.world.node) && Timely(w, at)
    requires Service(f, PolicyOf(w), Wrap32(at)).1 == SERVICED
    ensures var q := Service(f, PolicyOf(w), Wrap32(at)).0;
      q.store.slots[i].Queued() ==>
        && q.runtime[i].tracked && q.runtime[i].baseline == Wrap32(at)
        && q.runtime[i].uncommitted < CHECKPOINT_MILLISECONDS
        && Observe(w, at)[i] + q.store.slots[i].remaining * 1000
           <= q.store.slots[i].content.lifetime * 1000 + q.runtime[i].uncommitted
  {
    hide StoreInv, Service, Charge, ControllerInv;
    var p := PolicyOf(w);
    ServiceStep(f, p, Wrap32(at), ends.source);
    var (q, status) := Service(f, p, Wrap32(at));
    assert Aged(p.store.slots[i], q.store.slots[i]) && SlotCurrent(q, i, Wrap32(at));
    if q.store.slots[i].Queued() {
      assert SlotWatched(w, i);
      ServiceIsExact(f, p, Wrap32(at), i, ends.source);
      ElapsedIsExact(w.since[i], at);
      ChargeConserves(AccountOf(p, i), at - w.since[i]);
    }
  }

  /** A completed service followed by trimming keeps the bound. */
  lemma CompletedKeeps(f: Fates, w: Watched, at: nat, v: Watched, ends: Endpoints)
    requires WatchedInv(w, ends) && Usable(w.world.node) && Timely(w, at) && NodeInv(v.world.node, ends)
    requires Service(f, PolicyOf(w), Wrap32(at)).1 == SERVICED && Follows(f, w.world.node, v.world.node, Wrap32(at))
    requires v.observed == Observe(w, at) && v.since == All(at) && v.clock == at
    ensures WatchedInv(v, ends)
  {
    hide NodeInv, Service, Observe;
    var q := Service(f, PolicyOf(w), Wrap32(at)).0;
    forall i | 0 <= i < 8 ensures v.since[i] <= v.clock && SlotWatched(v, i) {
      ServedSlot(f, w, at, i, ends);
      if PolicyOf(v).store.slots[i].Queued() {
        assert SameButAttempts(q.store.slots[i], PolicyOf(v).store.slots[i]);
      }
    }
  }

  /** A service that failed leaves the Node unusable, with records only aged and trimmed. */
  lemma FailedServiceKeeps(f: Fates, w: Watched, at: nat, v: Watched, ends: Endpoints)
    requires WatchedInv(w, ends) && Usable(w.world.node) && NodeInv(v.world.node, ends) && w.clock <= at
    requires Service(f, PolicyOf(w), Wrap32(at)).1 != SERVICED && Follows(f, w.world.node, v.world.node, Wrap32(at))
    requires v == w.(world := v.world, clock := at)
    ensures WatchedInv(v, ends)
  {
    hide StoreInv, Service, ControllerInv, SlotWatched;
    ServiceStep(f, PolicyOf(w), Wrap32(at), ends.source);
    var q := Service(f, PolicyOf(w), Wrap32(at)).0;
    forall i | 0 <= i < 8 && PolicyOf(v).store.slots[i].Queued()
      ensures var r, o := PolicyOf(v).store.slots[i], PolicyOf(w).store.slots[i];
        o.Queued() && r.content == o.content && r.remaining <= o.remaining
    {
      assert SameButAttempts(q.store.slots[i], PolicyOf(v).store.slots[i]) && Aged(PolicyOf(w).store.slots[i], q.store.slots[i]);
    }
    UnusableKeeps(w, v, ends);
  }

  /** The policy is untouched and the Node no more usable than before. */
  lemma IdleKeeps(w: Watched, v: Watched, ends: Endpoints)
    requires WatchedInv(w, ends) && NodeInv(v.world.node, ends) && PolicyOf(v) == PolicyOf(w)
    requires Usable(v.world.node) ==> Usable(w.world.node)
    requires v.observed == w.observed && v.since == w.since && w.clock <= v.clock
    ensures WatchedInv(v, ends)
  {
    hide NodeInv;
    forall i | 0 <= i < 8 ensures v.since[i] <= v.clock && SlotWatched(v, i) {
      assert SlotWatched(w, i);
      if PolicyOf(w).store.slots[i].Queued() {
        StoppedBound(w, i, ends);
      }
    }
  }

  // ----- creation, reclamation and reboots

  lemma CreatedRuntime(f: Fates, n: Node, input: Content, now: u32, ends: Endpoints)
    requires NodeInv(n, ends)
    ensures var m := Create(f, n, input, now).0;
      && (Usable(m) ==> Usable(n))
      && (SlotsOf(m) == SlotsOf(n) ==> m.policy.runtime == n.policy.runtime)
      && (SlotsOf(m) != SlotsOf(n) ==>
            && FirstFree(SlotsOf(n), 0).Some?
            && (Usable(m) ==> m.policy.runtime == n.policy.runtime[FirstFree(SlotsOf(n), 0).value := Runtime(true, now, 0)]))
  {
    hide StoreInv, Enqueue, EventIdentity.Frontier, EventIdentity.Allocate, ControllerInv;
    EnqueueStep(f, n.policy.store, input, ends.source);
    CreatedWhere(f, n.policy.store, input);
  }

  lemma CreatedWhere(f: Fates, s: StoreState, input: Content)
    ensures var (t, result) := Enqueue(f, s, input);
      && (result.Enqueued? ==> FirstFree(s.slots, 0) == Some(result.slot) && s.healthy)
      && (!s.healthy ==> t == s)
  {
    hide FirstFree, EventIdentity.Allocate, CommitAndReindex, ValidInput;
  }

  lemma CreateKeeps(f: Fates, w: Watched, v: Watched, input: Content, at: nat, ends: Endpoints)
    requires WatchedInv(w, ends) && w.clock <= at
    requires v.world.node == Create(f, w.world.node, input, Wrap32(at)).0
    requires v == Advance(f, w, Timed(CreateEvent(input, Wrap32(at)), at), v.world)
    ensures WatchedInv(v, ends)
  {
    hide StoreInv, Create, EventIdentity.Frontier, NewIdentity, ControllerInv, PolicyInv, FirstFree;
    var n, m := w.world.node, v.world.node;
    CreateStep(f, n, input, Wrap32(at), ends);
    CreatedRuntime(f, n, input, Wrap32(at), ends);
    forall i | 0 <= i < 8 ensures v.since[i] <= v.clock && SlotWatched(v, i) {
      assert SlotWatched(w, i);
      if SlotsOf(n)[i].Queued() {
        StoppedBound(w, i, ends);
      }
    }
  }

  lemma {:induction false} ReclaimKeepsRuntime(f: Fates, n: Node, i: nat)
    requires i <= 8
    ensures ReclaimFrom(f, n, i).0.policy.runtime == n.policy.runtime
    ensures Usable(ReclaimFrom(f, n, i).0) ==> Usable(n)
    decreases 8 - i
  {
    if i < 8 {
      ReclaimOneKeepsRuntime(f, n, i);
      hide ReclaimSlot;
      ReclaimKeepsRuntime(f, ReclaimSlot(f, n, i).0, i + 1);
    }
  }

  lemma ReclaimOneKeepsRuntime(f: Fates, n: Node, i: SlotIndex)
    ensures ReclaimSlot(f, n, i).0.policy.runtime == n.policy.runtime
    ensures Usable(ReclaimSlot(f, n, i).0) ==> Usable(n)
  {
    hide CommitAndReindex;
  }

  lemma ReclaimKeeps(f: Fates, w: Watched, v: Watched, ends: Endpoints)
    requires WatchedInv(w, ends) && v == w.(world := v.world) && v.world.node == ReclaimTerminals(f, w.world.node).0
    ensures WatchedInv(v, ends)
  {
    ReclaimTerminalsStep(f, w.world.node, ends);
    ReclaimKeepsRuntime(f, w.world.node, 0);
    hide NodeInv, ReclaimFrom;
    forall i | 0 <= i < 8 ensures v.since[i] <= v.clock && SlotWatched(v, i) {
      assert SlotWatched(w, i);
      if PolicyOf(w).store.slots[i].Queued() {
        StoppedBound(w, i, ends);
      }
    }
  }

  /** After a power-up every queued record is an old one, a whole checkpoint interval poorer if the Node is usable. */
  lemma PowerUpDebits(f: Fates, ends: Endpoints, n: Node, now: u32, entropy: u32)
    requires NodeInv(n, ends) && ends.source != 0
    ensures var m := PowerUp(f, ends, n, now, entropy);
      forall i :: 0 <= i < 8 && SlotsOf(m)[i].Queued() ==>
        var r, o := SlotsOf(m)[i], SlotsOf(n)[i];
        && o.Queued() && r.content == o.content && r.remaining <= o.remaining
        && (Usable(m) ==>
              && r.remaining + CHECKPOINT_SECONDS <= o.remaining
              && m.policy.runtime[i] == Runtime(true, now, 0))
  {
    hide StoreInv, RecoverStore, ReclaimFrom, RecoverController;
    RecoverStep(f, n.policy.store, ends.source, entropy);
    var s := RecoverStore(f, n.policy.store, ends.source, entropy);
    var blank := Node(PolicyState(s, TrackedFrom(NO_SLOTS, now), false), FRESH);
    ReclaimFromStep(f, blank, 0, ends);
    var (m, ok) := ReclaimTerminals(f, blank);
    if ok {
      RecoverDebits(f, ends, m.policy.store, now);
    }
  }

  lemma RecoverDebits(f: Fates, ends: Endpoints, s: StoreState, now: u32)
    requires StoreInv(s, ends.source)
    ensures var m := RecoverController(f, ends, s, now).0;
      forall i :: 0 <= i < 8 && SlotsOf(m)[i].Queued() ==>
        var r, o := SlotsOf(m)[i], s.slots[i];
        && o.Queued() && r.content == o.content && r.remaining <= o.remaining
        && (Usable(m) ==>
              && r.remaining + CHECKPOINT_SECONDS <= o.remaining
              && m.policy.runtime[i] == Runtime(true, now, 0))
  {
    hide StoreInv, RecoverPolicy, GiveUpOrDegrade, PolicyInv;
    RecoverPolicyStep(f, s, now, ends.source);
    var (p, status) := RecoverPolicy(f, s, now);
    RecoveredRuntime(f, s, now);
    var n := LoadHead(Node(p, FRESH.(initialized := true)));
    RecoveredIsSound(p, ends.source);
    GiveUpTrims(f, n, Result(FINE, NoAction), ends.source);
    forall i | 0 <= i < 8 ensures Aged(s.slots[i], p.store.slots[i]) {
    }
  }

  lemma RecoveredIsSound(p: PolicyState, source: u8)
    requires PolicyInv(p, source)
    ensures StoreInv(p.store, source)
  {
  }

  lemma RecoveredRuntime(f: Fates, s: StoreState, now: u32)
    ensures var (p, status) := RecoverPolicy(f, s, now);
      status == SERVICED ==> p.runtime == TrackedFrom(p.store.slots, now)
  {
    hide DebitFrom;
  }

  lemma RebootKeeps(f: Fates, w: Watched, v: Watched, at: nat, entropy: u32, ends: Endpoints)
    requires WatchedInv(w, ends) && ends.source != 0
    requires v.world.node == PowerUp(f, ends, w.world.node, Wrap32(at), entropy)
    requires v.observed == w.observed && v.since == All(at) && v.clock == at
    ensures WatchedInv(v, ends)
  {
    hide NodeInv, PowerUp;
    PowerUpStep(f, w.world.node, Wrap32(at), entropy, ends);
    PowerUpDebits(f, ends, w.world.node, Wrap32(at), entropy);
    forall i | 0 <= i < 8 ensures v.since[i] <= v.clock && SlotWatched(v, i) {
      if PolicyOf(v).store.slots[i].Queued() {
        StoppedBound(w, i, ends);
      }
    }
  }

  // ----- every run

  lemma OperationKeeps(f: Fates, g: Fates, ends: Endpoints, w: Watched, t: Timed)
    requires WatchedInv(w, ends) && WorldInv(w.world, ends) && InTime(w, t) && MayCharge(t.op)
    requires NodeInv(Step(f, g, ends, w.world, t.op).node, ends)
    ensures WatchedInv(WatchedStep(f, g, ends, w, t), ends)
  {
    hide NodeInv, WorldInv, Service, Follows, WatchedInv, Observe, Usable, Operated, Charges, Audible, Step;
    var v := WatchedStep(f, g, ends, w, t);
    if t.op.Hear? && !Audible(w.world, t.op.packet) {
      SoundNode(w, ends);
      UnheardChangesNothing(f, g, ends, w.world, t.op);
      IdleKeeps(w, v, ends);
    } else {
      SoundNode(w, ends);
      OperationFollows(f, ends, w.world.node, t.op);
      ChargesWhenUsable(w.world.node, t.op);
      SteppedNode(f, g, ends, w.world, t.op);
      if !Charges(w.world.node, t.op) {
        IdleKeeps(w, v, ends);
      } else if Service(f, PolicyOf(w), Wrap32(t.at)).1 == SERVICED {
        CompletedKeeps(f, w, t.at, v, ends);
      } else {
        FailedServiceKeeps(f, w, t.at, v, ends);
      }
    }
  }

  lemma ChargesWhenUsable(n: Node, op: Op)
    ensures Charges(n, op) ==> Usable(n)
  {
  }

  lemma UnheardChangesNothing(f: Fates, g: Fates, ends: Endpoints, w: World, op: Op)
    requires op.Hear? && !Audible(w, op.packet)
    ensures Step(f, g, ends, w, op) == w
  {
    hide AdmissionCandidate;
  }

  lemma SoundNode(w: Watched, ends: Endpoints)
    requires WatchedInv(w, ends)
    ensures NodeInv(w.world.node, ends)
  {
  }

  lemma SteppedNode(f: Fates, g: Fates, ends: Endpoints, w: World, op: Op)
    requires MayCharge(op) && (op.Hear? ==> Audible(w, op.packet))
    ensures Step(f, g, ends, w, op).node == Operated(f, ends, w.node, op)
  {
    hide ControllerService, GrantTransmit, TxStarted, TxStartFailed, TxCompleted, AdmissionCandidate;
  }

  lemma OtherNodes(f: Fates, g: Fates, ends: Endpoints, w: World, op: Op)
    requires !MayCharge(op)
    ensures Step(f, g, ends, w, op).node
         == match op
            case CreateEvent(input, now) => Create(f, w.node, input, now).0
            case ReclaimNode => ReclaimTerminals(f, w.node).0
            case RebootNode(now, entropy) => PowerUp(f, ends, w.node, now, entropy)
            case _ => w.node
  {
    hide Create, ReclaimTerminals, PowerUp, Process, Hub.Consume, Hub.Recover, Hub.Admit, NewIdentity, HoldsActive;
  }

  lemma WatchedStepKeeps(f: Fates, g: Fates, ends: Endpoints, w: Watched, t: Timed)
    requires WatchedInv(w, ends) && WorldInv(w.world, ends) && InTime(w, t) && ValidEndpoints(ends.source, ends.hub)
    ensures WatchedInv(WatchedStep(f, g, ends, w, t), ends)
  {
    StepKeepsInv(f, g, ends, w.world, t.op);
    assert NodeInv(Step(f, g, ends, w.world, t.op).node, ends);
    var v := WatchedStep(f, g, ends, w, t);
    if !MayCharge(t.op) {
      OtherNodes(f, g, ends, w.world, t.op);
    }
    hide WorldInv, NodeInv, WatchedInv, Create, PowerUp, ReclaimTerminals, Completes, Step, Observe;
    match t.op
    case CreateEvent(input, now) => CreateKeeps(f, w, v, input, t.at, ends);
    case RebootNode(now, entropy) => RebootKeeps(f, w, v, t.at, entropy, ends);
    case ReclaimNode => ReclaimKeeps(f, w, v, ends);
    case _ =>
      if MayCharge(t.op) {
        OperationKeeps(f, g, ends, w, t);
      } else {
        IdleKeeps(w, v, ends);
      }
  }

  lemma {:induction false} WatchedRunKeeps(f: Fates, g: Fates, ends: Endpoints, w: Watched, ts: seq<Timed>)
    requires WatchedInv(w, ends) && WorldInv(w.world, ends) && ValidEndpoints(ends.source, ends.hub)
    requires Punctual(f, g, ends, w, ts)
    ensures WatchedInv(RunWatched(f, g, ends, w, ts), ends) && WorldInv(RunWatched(f, g, ends, w, ts).world, ends)
    decreases |ts|
  {
    hide WatchedInv, WorldInv, WatchedStep, InTime;
    if ts != [] {
      WatchedRunKeeps(f, g, ends, w, ts[..|ts| - 1]);
      WatchedStepKeeps(f, g, ends, RunWatched(f, g, ends, w, ts[..|ts| - 1]), ts[|ts| - 1]);
    }
    WatchingChangesNothing(f, g, ends, w, ts);
    RunKeepsInv(f, g, ends, w.world, Operations(ts));
  }

  function FirstWatch(ends: Endpoints, epoch: u32): Watched {
    Watched(FirstBoot(ends, epoch), All(0), All(0), 0)
  }

  lemma FirstWatchInv(ends: Endpoints, epoch: u32)
    requires ValidEndpoints(ends.source, ends.hub) && epoch != 0
    ensures WatchedInv(FirstWatch(ends, epoch), ends)
  {
    FirstBootInv(ends, epoch);
    hide NodeInv, Hub.LedgerInv;
  }

  /**
   Lifetime is never over-extended.  Over every run of the whole system from a
   first boot, with any number of Node reboots: while the Node is usable, an Event
   still queued has been observed by completed services for strictly less than its
   lifetime budget.
   */
  lemma LifetimeNeverOverextended(f: Fates, g: Fates, ends: Endpoints, epoch: u32, ts: seq<Timed>, i: SlotIndex)
    requires ValidEndpoints(ends.source, ends.hub) && epoch != 0
    requires Punctual(f, g, ends, FirstWatch(ends, epoch), ts)
    ensures var w := RunWatched(f, g, ends, FirstWatch(ends, epoch), ts);
      && w.world == Run(f, g, ends, FirstBoot(ends, epoch), Operations(ts))
      && (Usable(w.world.node) && SlotsOf(w.world.node)[i].Queued() ==>
            w.observed[i] < SlotsOf(w.world.node)[i].content.lifetime * 1000)
  {
    hide WorldInv, RunWatched, Punctual, Run;
    FirstBootInv(ends, epoch);
    FirstWatchInv(ends, epoch);
    WatchedRunKeeps(f, g, ends, FirstWatch(ends, epoch), ts);
    WatchingChangesNothing(f, g, ends, FirstWatch(ends, epoch), ts);
    var w := RunWatched(f, g, ends, FirstWatch(ends, epoch), ts);
    if Usable(w.world.node) && PolicyOf(w).store.slots[i].Queued() {
      WithinBudget(w, i, ends);
    }
  }

  lemma WithinBudget(w: Watched, i: SlotIndex, ends: Endpoints)
    requires WatchedInv(w, ends) && Usable(w.world.node) && PolicyOf(w).store.slots[i].Queued()
    ensures w.observed[i] < PolicyOf(w).store.slots[i].content.lifetime * 1000
  {
    hide StoreInv, ControllerInv;
    assert SlotWatched(w, i) && SlotSettled(PolicyOf(w), i);
  }
}
