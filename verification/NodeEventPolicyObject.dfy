/**
 `NodeEventDelivery::Policy` as an object over the durable store.  Its loops are
 proved against the recursive specification by the computation still to be done.
 */
module NodeEventPolicyObject {
  import opened Words
  import opened EventStorage
  import opened EventProtocol
  import opened EventRecords
  import opened EventIdentity
  import opened NodeEventStore
  import opened NodeEventPolicy
  import opened NodeEventStoreObject

  class Policy {
    const store: Store
    var runtime: Runtimes
    var ready: bool

    constructor (store: Store)
      ensures this.store == store && !ready
    {
      this.store := store;
      runtime := seq(8, _ => IDLE);
      ready := false;
    }

    ghost predicate Valid()
      reads this, store, store.queue, store.flash, store.allocator
    {
      store.Valid()
    }

    ghost function State(): PolicyState
      requires Valid()
      reads this, store, store.queue, store.flash, store.allocator
    {
      PolicyState(store.State(), runtime, ready)
    }

    /** Everything volatile is lost. */
    method Forget()
      modifies this
      ensures !ready && runtime == TrackedFrom([Free, Free, Free, Free, Free, Free, Free, Free], 0)
      ensures forall now: u32 :: runtime == TrackedFrom([Free, Free, Free, Free, Free, Free, Free, Free], now)
    {
      runtime, ready := [IDLE, IDLE, IDLE, IDLE, IDLE, IDLE, IDLE, IDLE], false;
    }

    /** A healthy store's records are the durable ones. */
    lemma RecordIsDurable(i: SlotIndex)
      requires Valid() && store.healthy
      ensures store.slots[i].record == store.State().slots[i]
    {
      store.MirrorsDurable();
      assert Records(store.slots)[i] == store.slots[i].record;
    }

    method Drain(slot: SlotIndex) returns (status: PolicyStatus)
      requires Valid() && store.healthy && ready
      modifies this, store, store.queue, store.flash`tick, store.flash`events
      ensures Valid() && (State(), status) == DrainSlot(store.flash.fates, old(State()), slot)
      ensures status == SERVICED ==> store.healthy && ready
    {
      hide NodeEventStore.CheckpointRemaining, NodeEventStore.MarkExpired, Store.Valid, Store.State;
      while true
        invariant Valid() && store.healthy && ready
        invariant DrainSlot(store.flash.fates, State(), slot) == DrainSlot(store.flash.fates, old(State()), slot)
        decreases runtime[slot].uncommitted
      {
        RecordIsDurable(slot);
        var record := store.slots[slot].record;
        if !record.Queued() {
          runtime := runtime[slot := IDLE];
          return SERVICED;
        }
        if record.remaining > CHECKPOINT_SECONDS && runtime[slot].uncommitted >= CHECKPOINT_MILLISECONDS {
          var checkpointed := store.CheckpointRemaining(slot, record.remaining - CHECKPOINT_SECONDS);
          if checkpointed != OK {
            ready := false;
            return CHECKPOINT_FAILURE;
          }
          runtime := runtime[slot := runtime[slot].(uncommitted := runtime[slot].uncommitted - CHECKPOINT_MILLISECONDS)];
        } else if runtime[slot].uncommitted >= record.remaining * 1000 {
          var expired := store.MarkExpired(slot);
          if expired != OK {
            ready := false;
            return EXPIRY_FAILURE;
          }
          runtime := runtime[slot := IDLE];
          return SERVICED;
        } else {
          return SERVICED;
        }
      }
    }

    method ServiceOne(slot: SlotIndex, now: u32) returns (status: PolicyStatus)
      requires Valid() && store.healthy && ready
      modifies this, store, store.queue, store.flash`tick, store.flash`events
      ensures Valid() && (State(), status) == ServiceSlot(store.flash.fates, old(State()), slot, now)
      ensures status == SERVICED ==> store.healthy && ready
    {
      hide Store.Valid, Store.State, DrainSlot;
      RecordIsDurable(slot);
      if !store.slots[slot].record.Queued() {
        runtime := runtime[slot := IDLE];
        return SERVICED;
      }
      if !runtime[slot].tracked {
        runtime := runtime[slot := Runtime(true, now, 0)];
        return SERVICED;
      }
      var elapsed := Wrap32(now - runtime[slot].baseline);
      runtime := runtime[slot := Runtime(true, now, runtime[slot].uncommitted + elapsed)];
      status := Drain(slot);
    }

    method Service(now: u32) returns (status: PolicyStatus)
      requires Valid()
      modifies this, store, store.queue, store.flash`tick, store.flash`events
      ensures Valid() && (State(), status) == NodeEventPolicy.Service(store.flash.fates, old(State()), now)
      ensures status == SERVICED ==> store.healthy && ready
    {
      hide Store.Valid, ServiceSlot;
      if !ready || !store.healthy {
        ready := false;
        return POLICY_DEGRADED;
      }
      hide Store.State;
      for slot := 0 to 8
        invariant Valid() && store.healthy && ready
        invariant ServiceFrom(store.flash.fates, State(), slot, now) == ServiceFrom(store.flash.fates, old(State()), 0, now)
      {
        status := ServiceOne(slot, now);
        if status != SERVICED {
          return;
        }
      }
      return SERVICED;
    }

    method TrackEnqueued(slot: nat, now: u32) returns (status: PolicyStatus)
      requires Valid()
      modifies this
      ensures Valid() && (State(), status) == NodeEventPolicy.TrackEnqueued(old(State()), slot, now)
    {
      if !ready || !store.healthy {
        ready := false;
        return POLICY_DEGRADED;
      }
      if slot >= 8 {
        return BAD_SLOT;
      }
      RecordIsDurable(slot);
      if !store.slots[slot].record.Queued() {
        return SLOT_NOT_QUEUED;
      }
      runtime := runtime[slot := Runtime(true, now, 0)];
      return SERVICED;
    }

    /** The recovery debit, before anything is tracked. */
    method DebitQueued() returns (ok: bool)
      requires Valid() && store.healthy
      modifies store, store.queue, store.flash`tick, store.flash`events
      ensures Valid() && (store.State(), ok) == DebitFrom(store.flash.fates, old(store.State()), 0)
      ensures ok ==> store.healthy
    {
      hide Store.Valid, Store.State, NodeEventStore.CheckpointRemaining, NodeEventStore.MarkExpired;
      for slot := 0 to 8
        invariant Valid() && store.healthy
        invariant DebitFrom(store.flash.fates, store.State(), slot) == DebitFrom(store.flash.fates, old(store.State()), 0)
      {
        RecordIsDurable(slot);
        var record := store.slots[slot].record;
        if record.Queued() {
          var debited: MutationStatus;
          if record.remaining <= CHECKPOINT_SECONDS {
            debited := store.MarkExpired(slot);
          } else {
            debited := store.CheckpointRemaining(slot, record.remaining - CHECKPOINT_SECONDS);
          }
          if debited != OK {
            return false;
          }
        }
      }
      return true;
    }

    /** Start the volatile account of every queued slot. */
    method InitializeTracked(now: u32)
      requires Valid() && store.healthy && forall i :: 0 <= i < 8 ==> runtime[i] == IDLE
      modifies this`runtime
      ensures Valid() && runtime == TrackedFrom(store.State().slots, now)
    {
      for slot := 0 to 8
        invariant forall i :: 0 <= i < slot ==>
          runtime[i] == if store.slots[i].record.Queued() then Runtime(true, now, 0) else IDLE
        invariant forall i :: slot <= i < 8 ==> runtime[i] == IDLE
      {
        if store.slots[slot].record.Queued() {
          runtime := runtime[slot := Runtime(true, now, 0)];
        }
      }
      store.MirrorsDurable();
      assert runtime == TrackedFrom(Records(store.slots), now);
    }

    method Recover(now: u32) returns (status: PolicyStatus)
      requires Valid()
      modifies this, store, store.queue, store.flash`tick, store.flash`events
      ensures Valid() && (State(), status) == RecoverPolicy(store.flash.fates, old(store.State()), now)
      ensures status == SERVICED ==> store.healthy && ready
    {
      runtime, ready := [IDLE, IDLE, IDLE, IDLE, IDLE, IDLE, IDLE, IDLE], false;
      hide Store.Valid;
      assert runtime == TrackedFrom([Free, Free, Free, Free, Free, Free, Free, Free], now);
      if !store.healthy {
        return POLICY_DEGRADED;
      }
      hide Store.State, DebitFrom;
      var debited := DebitQueued();
      if !debited {
        return DEBIT_FAILURE;
      }
      InitializeTracked(now);
      ready := true;
      return SERVICED;
    }

    /** Ready, tracked, queued, and with lifetime left. */
    predicate MayTransmit(slot: nat)
      reads this, store
    {
      && ready && store.healthy && slot < 8 && runtime[slot].tracked
      && store.slots[slot].record.Queued() && runtime[slot].uncommitted < store.slots[slot].record.remaining * 1000
    }

    method ArmAttempt(slot: nat, now: u32) returns (result: AttemptResult)
      requires Valid()
      modifies this, store, store.queue, store.flash`tick, store.flash`events
      ensures Valid() && (State(), result) == PolicyArmAttempt(store.flash.fates, old(State()), slot, now)
      ensures result == ATTEMPT_ARMED ==> store.healthy && ready
    {
      hide Store.Valid, NodeEventPolicy.Service, NodeEventStore.ArmAttempt;
      if !ready {
        return ATTEMPT_UNAVAILABLE;
      }
      var serviced := Service(now);
      if serviced != SERVICED {
        return ATTEMPT_STORAGE_FAILURE;
      }
      if slot >= 8 {
        return ATTEMPT_BAD_SLOT;
      }
      RecordIsDurable(slot);
      var record := store.slots[slot].record;
      if record.Held? && record.custody == EXPIRED {
        return ATTEMPT_EXPIRED;
      }
      if !record.Queued() {
        return ATTEMPT_NOT_QUEUED;
      }
      if !MayTransmit(slot) {
        return ATTEMPT_EXPIRED;
      }
      var armed := store.ArmAttempt(slot);
      match armed {
        case ARMED => return ATTEMPT_ARMED;
        case EXHAUSTED => return ATTEMPT_EXHAUSTED;
        case ATTEMPT_INVALID_SLOT => return ATTEMPT_BAD_SLOT;
        case NOT_QUEUED => return ATTEMPT_NOT_QUEUED;
        case ATTEMPT_WRITE_FAILED =>
          ready := false;
          return ATTEMPT_STORAGE_FAILURE;
        case ATTEMPT_DEGRADED =>
          ready := false;
          return ATTEMPT_UNAVAILABLE;
      }
    }
  }
}
