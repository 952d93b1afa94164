# Verified model of the Event pipeline and its neighbours

The system has two radio devices.  A Node accepts Events, keeps them in flash and
transmits them until the Hub acknowledges durable admission; the Hub keeps them in
a ledger until a Host on its serial port consumes them.  This project models that
pipeline and three neighbours: the Host byte stream, the settings manager, and the
structured operations a Host sends through the Hub to the Node.

`dafny verify dfyconfig.toml` checks everything.

## How the model is organised

Each stateful component appears twice.  A specification module gives every operation
as a function on values, with durable records as atomic cells, and proves what each
operation keeps.  An object module (`...Object.dfy`, and the classes in
EventIdentity, EventFlash, HostStream and HostTransport) gives the fields, loops,
buffers, bytes and pairs of copies, and proves what each method means to its caller and
that it computes the specified step.
Guarantees over whole runs are proved on the specification and hold of the objects
through those equalities.

| files | what they hold |
|---|---|
| Words, EventStorage, EventFlash, EventRecords, EventProtocol | fixed-width words, dual-copy commits, the flash of either device, record and packet codecs |
| EventIdentity, NodeEventStore, NodeEventPolicy, NodeEventDelivery | the Node's specification (EventIdentity with its object) |
| NodeEventStoreObject, NodeEventPolicyObject, NodeEventDeliveryObject | the Node's objects |
| HubEventLedger, HubEventRadio, HubEventLedgerObject | the Hub |
| DeliveryProgress | what the delivery controller does with every answer, deadline and grant |
| EventPipeline, EventGuarantees, LifetimeGuarantees, LedgerGuarantees | both sides and the radio together, and what holds over every run |
| RetryGuarantees, AttemptGuarantees, DeliveryGuarantees | the retry schedule, the account of attempts and completed delivery over runs |
| HostCobs, HostProtocol, HostStream, HostTransport | byte stuffing, frames, the resynchronising parser, partial writes |
| DeviceSettings, DeviceSettingsObject | settings with crash-safe saves and a marker-driven reset |
| WireOperations, NodeOperations | operation requests and responses, and what the Node answers |
| StructuredOperations, StructuredGuarantees, AnswerGuarantees, StructuredOperationsObject | retained operations, bounded retries, the Host request lifecycle, and what the Host is told |

## What is assumed

- A write, its commit and its read-back together meet one fate.  `Durable` is the only
  one reported as success.  The others are reported as failures, or never reported
  because power was lost, and leave the target copy as it was (`KeptOld`), undecodable
  (`Torn`) or holding the new record after all (`Landed`).  Losing power inside an
  operation is therefore a failed write followed by a reboot.  The fates are an
  arbitrary function of the write number, so every statement is for all of them.
- Reads are deterministic, so read errors and unavailable storage do not occur.
  Statuses that differ only in which storage call failed are one status here.
- The codecs are bijections (proved), so storage holds records instead of bytes, and
  comparing bytes is comparing records.
- Packets are not forged.  They may be lost, repeated and reordered; only at-most-once
  admission and at-most-once execution ask for order.
- Device identifiers are fixed and first-time initialisation has completed.  A power
  loss inside it fails closed, which the recovery methods state.
- Time is a device clock modulo 2^32.  In the lifetime theorem a queued Event is looked
  at again, within one boot, in less than 2^32 milliseconds.
- Entropy, jitter, sequence numbers, the state of the device an operation runs on, the
  outcome of operations local to the Hub, and the answers of the serial device are
  parameters.

Unsigned words are subset types of `int`, and wrap-around is written out.  The slot
generation, a record field in the source, is kept beside the record.  The phases the
source calls QUEUED, READY, FAILED and EXPIRED in the controller are named WAITING,
READY_TO_SEND, GAVE_UP and LAPSED, to keep them apart from record states.

## Where the code does less than one might expect

- Tombstones are reclaimed oldest ordinal first.  If Events arrive out of identity
  order, an identity can be newly admitted twice (`OutOfOrderArrivalReadmits`); in
  order it cannot (`AtMostOnceAdmission`).
- UNCHANGED speaks about the settings shown.  After a save that was reported as failed
  but landed, saving the shown settings again answers UNCHANGED and the next boot loads
  the others (`UnchangedCanBeLost`).  It is truthful while no save has failed
  (`UnchangedIsTruthful`); after failures the exact outcome is `FailedSavesDecideReload`.
- A verified save made after a factory reset that was reported as failed can be
  discarded at the next boot: because the marker stayed behind
  (`FailedResetDiscardsLaterSave`), or, with no marker left, because the default record
  the reset wrote counts as newer than the save, which takes 2^31 earlier saves
  (`WornResetDiscardsLaterSave`).  docs/V0.4.0_IMPLEMENTATION_BRIEF.md:282 says that a
  marker-write failure preserves settings, which holds until that boot.
  `VerifiedSaveOutlivesReload` and `SaveAfterFailedReset` are the exact conditions, and
  reloading after a failed reset before saving avoids it (`SavesAreCrashSafe`).
- A RESPONSE is correlated by sequence number, operation and target, and sequence
  numbers start again when the Hub does.  A late reply can therefore be returned as the
  answer to a request that differs only in its value (`StaleReplyIsTaken`); when no such
  reply arrives, the Host is told exactly the Node's answer (`HostIsToldTheNodesAnswer`).
- Byte stuffing accepts one non-canonical form, a last block that is full; it does not
  fit the 139-byte bound, so every accepted frame is canonical.

## Model

| member | source | states |
|---|---|---|
| `EventGuarantees.EndToEndCustody` | lib/node_event_delivery/src/node_event_delivery.h:381-413 | Over every run from a first boot with loss, repetition, reordering, failed and torn writes and reboots on both sides: an accepted Event is held by the Node, was discarded as failed or expired, or was released; and a released Event is ACTIVE in the Hub's durable ledger with identical content, or a Host request durably consumed it |
| `EventGuarantees.BoundedFifoTransmission` | lib/node_event_delivery/src/node_event_delivery.h:324-357 | Over every such run: transmissions are nondecreasing in (epoch, id), no identity is transmitted more than five times in all, and every transmitted packet decodes to an Event the Node accepted, unaltered |
| `EventGuarantees.AtMostOnceAdmission` | lib/hub_event_ledger/src/hub_event_ledger.h:145-208 | If the identities reaching the Hub never decrease (losses, repeats and swapped repeats of one Event allowed), no identity is reported as newly admitted twice, across reboots, failed writes and tombstone reclamation |
| `EventGuarantees.DeliveryStaysConsistent` | lib/node_event_delivery/src/node_event_delivery.h:290-423 | Over every such run, while the Node is usable: an attempt in flight is the queue head's own record with one to five durable attempts, the backoff index is within its four entries, the active slot is terminal exactly when the controller says so, and reclamation fails only when a write does |
| `RetryGuarantees.UnansweredIsSentFiveTimes` | lib/node_event_delivery/src/node_event_delivery.h:290-322 | From any reachable state with working storage, an Event that is never answered and is served once each deadline is due, whatever else happens in between, is transmitted until five attempts are used and then durably failed, unless it expires first |
| `RetryGuarantees.RetriesFollowSchedule` | lib/node_event_delivery/src/node_event_delivery.h:290-413 | From any reachable state with working storage and under any operations, at any times and in any order, that leave an Event unanswered, the controller follows an abstract retry schedule exactly, transmission by transmission, until the Event expires |
| `AttemptGuarantees.AttemptsAreAccounted` | lib/node_event_delivery/src/node_event_delivery.h:324-413 | Over every run from a first boot with failed writes and reboots on both sides: the attempts of every record are exactly the ones armed for it since it was created; a record is FAILED only when they are five; and the Hub never rejects what the Node sent |
| `DeliveryGuarantees.DeliveryCompletes` | lib/node_event_delivery/src/node_event_delivery.h:324-413 | From any reachable state with working storage, an Event ready to send whose packet reaches a Hub that owns it or has room, and whose acknowledgement comes back, is released by the Node and in Hub custody, unless it expires on the way |
| `RetryGuarantees.PowerUpRecovers` | lib/node_event_delivery/src/node_event_delivery.h:259-279 | A power-up with working storage always gives a usable Node: terminal records are gone, each queued one is a checkpoint poorer or expired, a head with five attempts is failed, and a queued Event is being served |
| `EventPipeline.RunKeepsInv` | lib/node_event_delivery/src/node_event_delivery.h:290-423 | Every step of the Node, the Hub and the radio keeps the system invariant: both device invariants, custody on both sides, genuine and counted transmissions, and every ADMITTED backed by Hub custody |
| `EventPipeline.DeliverStep` | lib/event_radio_integration/src/hub_event_radio.h:35-105 | Delivering any packet ever sent, any number of times and in any order, keeps the system invariant |
| `EventPipeline.HearStep` | lib/node_event_delivery/src/node_event_delivery.h:381-413 | Hearing any acknowledgement ever sent, or anything that does not decode as one, keeps the system invariant |
| `EventGuarantees.FirstBootIsRecovered` | lib/node_event_delivery/src/node_event_delivery.h:259-279 | The starting Node of these runs is exactly what controller recovery makes of a freshly initialised store |
| `LifetimeGuarantees.LifetimeNeverOverextended` | lib/node_event_delivery/src/node_event_delivery.h:35-62 | Over every run of the whole system from a first boot, with any number of Node reboots (store recovery, terminal reclamation, policy recovery): while the Node is usable, an Event still queued has been observed by completed services for strictly less than its lifetime budget |
| `LifetimeGuarantees.WatchingChangesNothing` | lib/node_event_delivery/src/node_event_delivery.h:81-130 | The stopwatches of that theorem only watch: the run underneath is the run of the system |
| `LifetimeGuarantees.OperationFollows` | lib/node_event_delivery/src/node_event_delivery.h:290-413 | Every operation that charges time charges it once, at its own instant, and after that only takes records out of the queue or counts attempts; any other leaves every account alone |
| `LifetimeGuarantees.PowerUpDebits` | lib/node_event_delivery/src/node_event_delivery.h:35-62 | After a power-up every queued record is an old one, a whole checkpoint interval poorer if the Node is usable |
| `LifetimeGuarantees.ExpiryIsSplitInvariant` | lib/node_event_delivery/src/node_event_delivery.h:102-127 | However a span of time is divided between services, the account ends the same, and it expires exactly when the total reaches the time left |
| `LifetimeGuarantees.OnlyTotalTimeCounts` | lib/node_event_delivery/src/node_event_delivery.h:81-130 | Within a boot, after completed services at any times, a slot's account is the original one charged with the total time since its baseline, and its Event is still queued exactly if that is less than it had left |
| `LifetimeGuarantees.ServiceIsExact` | lib/node_event_delivery/src/node_event_delivery.h:81-130 | A completed service charges every queued slot exactly the time since its baseline, and the Event stays queued exactly if that is less than it had left |
| `LifetimeGuarantees.ChargeConserves` | lib/node_event_delivery/src/node_event_delivery.h:102-127 | The checkpoint loop conserves remaining milliseconds minus uncommitted ones, and expires exactly when they run out |
| `LedgerGuarantees.AdmissionOrderIsOrdinalOrder` | lib/hub_event_ledger/src/hub_event_ledger.h:412-431 | Over every run of admissions, consumptions and restarts with any write fates: identities and ordinals stay pairwise distinct and below the reserved mark, and successive admissions have strictly increasing ordinals |
| `LedgerGuarantees.ActiveIsNeverOverwritten` | lib/hub_event_ledger/src/hub_event_ledger.h:356-366 | No operation overwrites an ACTIVE record: it stays, or becomes the tombstone of the same Event by a consumption of that identity |
| `LedgerGuarantees.DrainIsInAdmissionOrder` | lib/hub_event_ledger/src/hub_event_ledger.h:239-251 | Taking the oldest ACTIVE record and consuming it, repeatedly, returns exactly the ACTIVE records in strictly ascending ordinal, as many as the active count, and leaves none |
| `LedgerGuarantees.AdmissionCondition` | lib/hub_event_ledger/src/hub_event_ledger.h:145-208 | With a ready ledger and working writes, also right after recovery or a spent block of ordinals, a valid Event is newly admitted exactly when no slot owns its identity and some slot is empty or holds the tombstone of an earlier identity; it takes the next ordinal |
| `LedgerGuarantees.EveryEventIsAnswered` | lib/event_radio_integration/src/hub_event_radio.h:35-105 | With a ready ledger and working writes every Event of the Node is answered: ADMITTED exactly when owned with equal content, or unowned with room |
| `LedgerGuarantees.OutOfOrderArrivalReadmits` | lib/hub_event_ledger/src/hub_event_ledger.h:349-366 | In a concrete run from a new ledger, every write succeeding, identities arriving as 2, 1, 3, ..., 8, then 9 and a late copy of 2 are all newly admitted: 2 is admitted twice, so the order of arrival matters |
| `EventStorage.ComparisonIsSerialNumberOrder` | lib/event_storage/src/event_store.h:47-58 | The generation comparison is the serial-number order of section 3.2 of RFC 1982, with exactly the pairs 2^31 apart reported as ambiguous |
| `EventStorage.RegisterRunsAreAtomic` | lib/event_storage/src/event_store.h:92-144 | Over every run of commits with any fates and reboots a pair of copies behaves as one atomic cell: recovery selects exactly its value, conflict and ambiguity are unreachable, and two valid copies differ by one generation |
| `EventStorage.CommittedIsSelected` | lib/event_storage/src/event_store.h:92-144 | The committed copy is the one selection picks |
| `EventStorage.CommitKeepsCommitted` | lib/node_event_store/src/node_event_store.h:404-461 | Writing the copy not in use leaves the pair committed to the old or the new record, according to the fate of the write |
| `EventRecords.NodeRecordBijection` | lib/event_storage/src/event_records.h:333-395 | Encoding and decoding of Node records are inverse bijections between valid records and accepted byte strings |
| `EventRecords.HubRecordBijection` | lib/event_storage/src/event_records.h:425-487 | Encoding and decoding of Hub records are inverse bijections between valid records and accepted byte strings |
| `EventRecords.NodeMetadataBijection` | lib/event_storage/src/event_records.h:199-238 | Encoding and decoding of identity metadata are inverse bijections |
| `EventRecords.HubMetadataBijection` | lib/event_storage/src/event_records.h:240-273 | Encoding and decoding of ordinal metadata are inverse bijections |
| `EventRecords.ComputeCrc32` | lib/event_storage/src/event_records.h:111-130 | The bitwise loop computes the reflected CRC-32 of the bytes |
| `EventProtocol.PacketRoundTrip` | lib/redline_protocol/src/redline_protocol.h:117-202 | A packet within the payload bound decodes from its encoding |
| `EventProtocol.PacketCanonical` | lib/redline_protocol/src/redline_protocol.h:155-202 | A byte string that decodes is the encoding of what it decodes to |
| `EventProtocol.EventRoundTrip` | lib/event_protocol/src/event_protocol.h:211-276 | An Event is encoded exactly when valid; it then decodes to the same canonical Event, and to itself exactly when its body is zero-padded |
| `EventProtocol.ResponseRoundTrip` | lib/event_protocol/src/event_protocol.h:290-337 | A valid admission response is encoded, and decodes to itself |
| `EventProtocol.SameCanonicalIsEquality` | lib/event_protocol/src/event_protocol.h:195-209 | On zero-padded contents the field-by-field comparison is equality |
| `EventIdentity.IdentitiesStrictlyIncrease` | lib/event_identity/src/event_identity.h:150-171 | Over all allocations, write fates and reboots: identities strictly increase in (epoch, id), each is nonzero and below the durable mark committed before it was issued, and the mark stays aligned to the block of 32 |
| `EventIdentity.AllocateStep` | lib/event_identity/src/event_identity.h:150-171 | One allocation keeps the invariant for every fate; it issues exactly the next identity, or the first after the mark when the block is spent, and moves the frontier just past it; on sound storage it fails only when the last epoch is spent |
| `EventIdentity.ReserveStep` | lib/event_identity/src/event_identity.h:229-254 | A reservation moves to the whole block that starts at the mark, or at 1 of the next epoch, or stops the allocator without lowering the mark |
| `EventIdentity.RebootStep` | lib/event_identity/src/event_identity.h:76-148 | On every reachable metadata recovery resumes at the mark without writing |
| `EventIdentity.IssuesAreConsecutive` | lib/event_identity/src/event_identity.h:150-171 | Within a boot on sound storage and within an epoch the identities issued are consecutive from the mark |
| `EventIdentity.Allocator.Issue` | lib/event_identity/src/event_identity.h:150-171 | The object issues what the specification issues and leaves its state, over two metadata copies |
| `EventIdentity.Allocator.Reserve` | lib/event_identity/src/event_identity.h:229-254 | Block reservation over two copies refines the specified one |
| `EventIdentity.Allocator.Commit` | lib/event_identity/src/event_identity.h:256-312 | Writing the copy not in use and adopting it refines an atomic metadata commit |
| `EventIdentity.Allocator.Restore` | lib/event_identity/src/event_identity.h:76-148 | Recovery over an authoritative pair is the specified recovery; a blank pair is initialised only with nothing in custody and nonzero entropy; conflict and ambiguity fail closed |
| `EventIdentity.Allocator.InitializeFresh` | lib/event_identity/src/event_identity.h:206-219 | Starting an identity space takes nonzero entropy and a verified write |
| `NodeEventStore.EnqueueStep` | lib/node_event_store/src/node_event_store.h:169-230 | Enqueueing keeps the store invariant; what is stored is QUEUED under the issued identity with the given content, its whole lifetime left and no attempt used; the new identity is above every one in custody, so it joins the tail; a refused enqueue changes nothing |
| `NodeEventStore.EnqueueAccepts` | lib/node_event_store/src/node_event_store.h:169-230 | On a healthy store with working writes and identities left an enqueue is accepted exactly when the input is valid and some slot is free; each refusal has its exact cause |
| `NodeEventStore.QueueOfIsQueue` | lib/node_event_store/src/node_event_store.h:500-524 | The index lists exactly the queued slots in strictly ascending identity |
| `NodeEventStore.QueueUnique` | lib/node_event_store/src/node_event_store.h:500-524 | There is only one such index for given slots |
| `NodeEventStore.CommitInPlaceStep` | lib/node_event_store/src/node_event_store.h:272-313 | Lowering lifetime or counting an attempt keeps the index exact although it is not rebuilt |
| `NodeEventStore.CommitAndReindexStep` | lib/node_event_store/src/node_event_store.h:463-483 | Committing one record and rebuilding keeps the invariant, and the outcome is decided by the fate of the write |
| `NodeEventStore.RetireStep` | lib/node_event_store/src/node_event_store.h:232-247 | Marking failed or expired succeeds exactly for a queued slot of a healthy store whose write verifies, and changes only the custody state of that slot |
| `NodeEventStore.FreeStep` | lib/node_event_store/src/node_event_store.h:476-483 | Freeing a slot keeps the invariant and changes only that slot |
| `NodeEventStore.CheckpointStep` | lib/node_event_store/src/node_event_store.h:272-292 | A checkpoint succeeds exactly when it strictly lowers a queued slot's nonzero lifetime and its write verifies |
| `NodeEventStore.ArmStep` | lib/node_event_store/src/node_event_store.h:294-313 | An attempt is armed exactly for a queued slot with fewer than five attempts whose write verifies, and is then counted durably; five attempts report exhaustion |
| `NodeEventStore.RecoverStep` | lib/node_event_store/src/node_event_store.h:92-167 | On every reachable durable state recovery succeeds, writes nothing and rebuilds the exact index |
| `NodeEventStoreObject.Store.CommitMutation` | lib/node_event_store/src/node_event_store.h:404-461 | The dual-copy commit refines the atomic slot commit, and re-selection can only pick the copy just written |
| `NodeEventStoreObject.Store.RebuildIndex` | lib/node_event_store/src/node_event_store.h:500-524 | Duplicate check, collection and in-place sort produce the specified index exactly when identities are distinct |
| `NodeEventStoreObject.Store.SortQueue` | lib/node_event_store/src/node_event_store.h:513-522 | The in-place loop is insertion of every element into the sorted prefix |
| `NodeEventStoreObject.Store.InsertAt` | lib/node_event_store/src/node_event_store.h:514-521 | One turn of the sort inserts the element into the sorted prefix and leaves the rest alone |
| `NodeEventStoreObject.InsertAllIsQueue` | lib/node_event_store/src/node_event_store.h:500-524 | Inserting the queued slots one by one gives the index |
| `NodeEventStoreObject.Store.Enqueue` | lib/node_event_store/src/node_event_store.h:169-230 | Enqueue over dual copies and the identity allocator refines the one that EnqueueStep and EnqueueAccepts characterise, error cases included |
| `NodeEventStoreObject.Store.Transition` | lib/node_event_store/src/node_event_store.h:463-474 | The transition out of QUEUED refines the specified one |
| `NodeEventStoreObject.Store.MarkFailed` | lib/node_event_store/src/node_event_store.h:232-239 | Refines the specified transition to FAILED |
| `NodeEventStoreObject.Store.MarkExpired` | lib/node_event_store/src/node_event_store.h:240-247 | Refines the specified transition to EXPIRED |
| `NodeEventStoreObject.Store.Reclaim` | lib/node_event_store/src/node_event_store.h:248-259 | Refines the specified reclamation of a terminal slot |
| `NodeEventStoreObject.Store.ReleaseQueued` | lib/node_event_store/src/node_event_store.h:260-270 | Refines the specified release of a queued slot |
| `NodeEventStoreObject.Store.CheckpointRemaining` | lib/node_event_store/src/node_event_store.h:272-292 | Refines the specified checkpoint |
| `NodeEventStoreObject.Store.ArmAttempt` | lib/node_event_store/src/node_event_store.h:294-313 | Refines the specified durable attempt count |
| `NodeEventStoreObject.Store.SelectSlots` | lib/node_event_store/src/node_event_store.h:104-132 | The recovery scan selects the authoritative copy of every slot, and stops exactly at a conflict or an ambiguity |
| `NodeEventStoreObject.Store.InitializeSlots` | lib/node_event_store/src/node_event_store.h:393-402 | First boot leaves a free record in copy A of every slot exactly when all eight writes verify |
| `NodeEventStoreObject.Store.Recover` | lib/node_event_store/src/node_event_store.h:92-167 | Over authoritative copies this is the specified recovery; blank storage is initialised exactly when all nine writes verify; any other undecidable slot fails closed and writes nothing |
| `NodeEventPolicy.ServiceStep` | lib/node_event_delivery/src/node_event_delivery.h:81-130 | A service ages every slot, keeps the invariant, and leaves every queued slot tracked at the given time with less than a checkpoint and less than its lifetime uncommitted |
| `NodeEventPolicy.DrainStep` | lib/node_event_delivery/src/node_event_delivery.h:102-127 | The checkpoint loop touches one slot, only ages it, and leaves it settled |
| `NodeEventPolicy.DebitStep` | lib/node_event_delivery/src/node_event_delivery.h:43-56 | The recovery debit takes exactly one checkpoint interval from every queued Event, or expires exactly those with no more than that, and touches nothing else |
| `NodeEventPolicy.RecoverPolicyStep` | lib/node_event_delivery/src/node_event_delivery.h:35-62 | Policy recovery leaves exactly the debited records, keeps the invariant, and starts every queued slot tracked at the given time with nothing uncommitted |
| `NodeEventPolicy.PolicyArmStep` | lib/node_event_delivery/src/node_event_delivery.h:154-178 | Arming after a service counts exactly one more durable attempt on that slot, or stops the policy |
| `NodeEventPolicyObject.Policy.Drain` | lib/node_event_delivery/src/node_event_delivery.h:102-127 | The inner loop computes the specified charge of one slot |
| `NodeEventPolicyObject.Policy.ServiceOne` | lib/node_event_delivery/src/node_event_delivery.h:86-128 | One turn of the service loop refines the specified one |
| `NodeEventPolicyObject.Policy.Service` | lib/node_event_delivery/src/node_event_delivery.h:81-130 | The service loop over eight slots refines the specified service |
| `NodeEventPolicyObject.Policy.TrackEnqueued` | lib/node_event_delivery/src/node_event_delivery.h:64-79 | Refines the specified start of a new occupant's clock |
| `NodeEventPolicyObject.Policy.DebitQueued` | lib/node_event_delivery/src/node_event_delivery.h:43-56 | The debit loop refines the specified debit |
| `NodeEventPolicyObject.Policy.InitializeTracked` | lib/node_event_delivery/src/node_event_delivery.h:190-199 | Every queued slot starts a fresh account |
| `NodeEventPolicyObject.Policy.Recover` | lib/node_event_delivery/src/node_event_delivery.h:35-62 | Refines the specified policy recovery |
| `NodeEventPolicyObject.Policy.ArmAttempt` | lib/node_event_delivery/src/node_event_delivery.h:154-178 | Refines the specified attempt, with all its outcomes |
| `NodeEventDelivery.ControllerServiceStep` | lib/node_event_delivery/src/node_event_delivery.h:290-322 | One pass of the state machine keeps every Event in custody, keeps the controller invariant and transmits nothing; what it does is ServiceEffects |
| `NodeEventDelivery.GrantTransmitStep` | lib/node_event_delivery/src/node_event_delivery.h:324-357 | A grant keeps custody, and any bytes that leave are the queue head's Event with one more durable attempt than before |
| `NodeEventDelivery.HeadIsAuthoritative` | lib/node_event_delivery/src/node_event_delivery.h:471-478 | The check that the active slot is still the queue head never fails on a sound store |
| `NodeEventDelivery.FailedAttemptStep` | lib/node_event_delivery/src/node_event_delivery.h:506-521 | A failed attempt keeps the invariant and always indexes the backoff table within its four entries |
| `NodeEventDelivery.AdmissionCandidateStep` | lib/node_event_delivery/src/node_event_delivery.h:381-413 | Custody is given up only for a well-formed ADMITTED response whose identity is the active record's; the effect of every answer is AnswerEffects |
| `NodeEventDelivery.TxStartedStep` | lib/node_event_delivery/src/node_event_delivery.h:359-363 | Keeps custody and the controller invariant |
| `NodeEventDelivery.TxStartFailedStep` | lib/node_event_delivery/src/node_event_delivery.h:364-369 | Keeps custody and the controller invariant |
| `NodeEventDelivery.TxCompletedStep` | lib/node_event_delivery/src/node_event_delivery.h:370-379 | Keeps custody and the controller invariant |
| `NodeEventDelivery.ReclaimTerminalsStep` | lib/node_event_delivery/src/node_event_reclamation.h:21-34 | Reclamation frees only terminal slots, keeps the invariant, and fails only when a write fails, so it never meets an invalid state on the active slot |
| `NodeEventDelivery.CreateStep` | lib/node_event_delivery/src/node_event_creation.h:16-28 | Creation stores the new Event under a fresh identity and keeps everything else |
| `NodeEventDelivery.RecoverControllerStep` | lib/node_event_delivery/src/node_event_delivery.h:259-279 | Controller recovery keeps custody and establishes the invariant |
| `NodeEventDelivery.PowerUpStep` | lib/node_event_delivery/src/node_event_delivery.h:259-279 | A reboot at any point establishes the invariant, and every record either survives with its identity and attempts or was terminal |
| `DeliveryProgress.AnswerEffects` | lib/node_event_delivery/src/node_event_delivery.h:381-413 | Once time is charged: an answer to the attempt, field by field, has exactly this effect: ADMITTED frees the slot; CAPACITY leaves the record and starts a backoff of 1000 ms doubled per attempt plus jitter, or fails the Event after the fifth; each rejection fails the Event; a failed write stops the Node; any other packet changes nothing |
| `DeliveryProgress.ServiceEffects` | lib/node_event_delivery/src/node_event_delivery.h:290-322 | A service of an Event in delivery that outlives it: waiting and ready follow the radio, the admission timeout comes exactly at 2500 ms, a backoff ends exactly when its duration has elapsed, five attempts mean failure, and nothing else moves |
| `DeliveryProgress.ServiceAdoptsHead` | lib/node_event_delivery/src/node_event_delivery.h:290-296 | With nothing in delivery a service adopts the queued Event with the least identity, or reports that there is none |
| `DeliveryProgress.GrantEffects` | lib/node_event_delivery/src/node_event_delivery.h:324-357 | A grant to an Event that outlives it counts one attempt durably and sends exactly that record's Event; a failed write or a missing sequence number stops the Node and sends nothing |
| `DeliveryProgress.RadioEffects` | lib/node_event_delivery/src/node_event_delivery.h:359-379 | A start notice changes nothing, a completion starts the wait at its own instant, and a failed start ends the attempt like a timeout |
| `DeliveryProgress.LapseEffects` | lib/node_event_delivery/src/node_event_delivery.h:479-501 | Whatever the operation, an Event that did not outlive it is only marked as expired, and a storage failure stops the Node |
| `DeliveryProgress.CreateEffects` | lib/node_event_delivery/src/node_event_creation.h:19-32 | A creation is accepted exactly when the input is valid, a slot is free and identities are left (writes working); only the new slot and its lifetime clock, started now, change |
| `NodeEventDeliveryObject.DeliveryController.Service` | lib/node_event_delivery/src/node_event_delivery.h:290-322 | The object's pass refines the specified one and stays sound |
| `NodeEventDeliveryObject.DeliveryController.ServiceByPhase` | lib/node_event_delivery/src/node_event_delivery.h:297-321 | The switch on the phase refines the one that ServiceEffects characterises |
| `NodeEventDeliveryObject.DeliveryController.GrantTransmit` | lib/node_event_delivery/src/node_event_delivery.h:324-357 | Refines the specified grant and stays sound |
| `NodeEventDeliveryObject.DeliveryController.LaunchAttempt` | lib/node_event_delivery/src/node_event_delivery.h:338-356 | Building the packet of a counted attempt refines the specified launch |
| `NodeEventDeliveryObject.DeliveryController.TxStarted` | lib/node_event_delivery/src/node_event_delivery.h:359-363 | Refines the specified step and stays sound |
| `NodeEventDeliveryObject.DeliveryController.TxStartFailed` | lib/node_event_delivery/src/node_event_delivery.h:364-369 | Refines the specified step and stays sound |
| `NodeEventDeliveryObject.DeliveryController.TxCompleted` | lib/node_event_delivery/src/node_event_delivery.h:370-379 | Refines the specified step and stays sound |
| `NodeEventDeliveryObject.DeliveryController.AdmissionCandidate` | lib/node_event_delivery/src/node_event_delivery.h:381-413 | Refines the specified reaction to a packet and stays sound |
| `NodeEventDeliveryObject.DeliveryController.Answer` | lib/node_event_delivery/src/node_event_delivery.h:393-412 | The effect of each correlated status refines the one that AnswerEffects characterises |
| `NodeEventDeliveryObject.DeliveryController.FailAttempt` | lib/node_event_delivery/src/node_event_delivery.h:506-521 | The table lookup is in range and refines the specified backoff |
| `NodeEventDeliveryObject.DeliveryController.ChargeLifetime` | lib/node_event_delivery/src/node_event_delivery.h:479-501 | Refines the specified lifetime service with its notice of expiry |
| `NodeEventDeliveryObject.DeliveryController.ReclaimActive` | lib/node_event_delivery/src/node_event_delivery.h:415-423 | Refines the specified reclamation of the active slot |
| `NodeEventDeliveryObject.DeliveryController.ReclaimTerminals` | lib/node_event_delivery/src/node_event_reclamation.h:21-34 | The loop over all slots refines the specified reclamation |
| `NodeEventDeliveryObject.DeliveryController.Create` | lib/node_event_delivery/src/node_event_creation.h:16-28 | Refines the specified creation sink and stays sound |
| `NodeEventDeliveryObject.DeliveryController.Recover` | lib/node_event_delivery/src/node_event_delivery.h:259-279 | Refines the specified controller recovery |
| `NodeEventDeliveryObject.DeliveryController.PowerUp` | lib/node_event_store/src/node_event_store.h:92-167 | A reboot at any moment gives the specified power-up of the state before it: nothing but the durable copies survives |
| `HubEventLedger.AdmitStep` | lib/hub_event_ledger/src/hub_event_ledger.h:145-208 | Admission keeps the ledger invariant; slots change only by one new ACTIVE entry in an empty slot or over the tombstone of an earlier identity |
| `HubEventLedger.AdmissionDecided` | lib/hub_event_ledger/src/hub_event_ledger.h:145-208 | The answer is decided by the slots: EXACT_DUPLICATE exactly when one owns the identity with equal content, CONTENT_MISMATCH exactly when with other content, NO_CAPACITY exactly when none owns it and none is available; none of these changes anything |
| `HubEventLedger.ConsumeStep` | lib/hub_event_ledger/src/hub_event_ledger.h:210-237 | Consumption keeps the invariant and turns at most the one ACTIVE entry of that identity into its tombstone; NOT_FOUND exactly when no slot owns it |
| `HubEventLedger.ConsumptionDecided` | lib/hub_event_ledger/src/hub_event_ledger.h:210-237 | The answer to a consumption is decided by the slots: an ACTIVE entry is consumed unless its write fails, a tombstone was consumed already |
| `HubEventLedger.AllocateOrdinalStep` | lib/hub_event_ledger/src/hub_event_ledger.h:412-431 | Ordinals are issued at or past the old frontier, before the new one, below the durable mark; on sound storage issuing fails only when the ordinals are spent |
| `HubEventLedger.RecoverStep` | lib/hub_event_ledger/src/hub_event_ledger.h:82-143 | On every reachable durable state recovery succeeds and resumes ordinals at the mark |
| `HubEventLedger.OldestIsOldest` | lib/hub_event_ledger/src/hub_event_ledger.h:239-251 | The scan finds a picked slot with the least ordinal, or nothing exactly when none is picked |
| `HubEventLedger.TargetAvailable` | lib/hub_event_ledger/src/hub_event_ledger.h:342-366 | The target is the first empty slot, or else the available tombstone with the least ordinal, and is missing exactly when no slot is available |
| `HubEventLedgerObject.HubLedger.CommitRecord` | lib/hub_event_ledger/src/hub_event_ledger.h:493-536 | The dual-copy commit refines the atomic slot commit |
| `HubEventLedgerObject.HubLedger.CommitMark` | lib/hub_event_ledger/src/hub_event_ledger.h:433-479 | The dual-copy metadata commit stores the mark exactly when the write took effect and reports exactly a verified one |
| `HubEventLedgerObject.HubLedger.AllocateOrdinal` | lib/hub_event_ledger/src/hub_event_ledger.h:412-431 | Refines the specified ordinal allocation |
| `HubEventLedgerObject.HubLedger.FindSlot` | lib/hub_event_ledger/src/hub_event_ledger.h:253-267 | The search loop finds the first slot owning the identity |
| `HubEventLedgerObject.HubLedger.FirstEmpty` | lib/hub_event_ledger/src/hub_event_ledger.h:342-347 | The search loop finds the first empty slot |
| `HubEventLedgerObject.HubLedger.OldestReclaimable` | lib/hub_event_ledger/src/hub_event_ledger.h:356-366 | The scan finds the oldest tombstone of an earlier identity |
| `HubEventLedgerObject.HubLedger.OldestActive` | lib/hub_event_ledger/src/hub_event_ledger.h:239-251 | The scan finds the oldest ACTIVE slot of a healthy ledger |
| `HubEventLedgerObject.HubLedger.Admit` | lib/hub_event_ledger/src/hub_event_ledger.h:145-208 | Refines the admission that AdmissionDecided and AdmitStep characterise, error cases included |
| `HubEventLedgerObject.HubLedger.Consume` | lib/hub_event_ledger/src/hub_event_ledger.h:210-237 | Refines the specified consumption |
| `HubEventLedgerObject.HubLedger.SelectSlots` | lib/hub_event_ledger/src/hub_event_ledger.h:91-114 | The recovery scan selects every authoritative copy and stops exactly at a conflict or an ambiguity |
| `HubEventLedgerObject.HubLedger.ValidateSlots` | lib/hub_event_ledger/src/hub_event_ledger.h:583-598 | The nested loops accept exactly slots with pairwise distinct identities and ordinals |
| `HubEventLedgerObject.HubLedger.InitializeFresh` | lib/hub_event_ledger/src/hub_event_ledger.h:368-381 | First boot leaves the mark and eight empty records exactly when all nine writes verify |
| `HubEventLedgerObject.HubLedger.RecoverMark` | lib/hub_event_ledger/src/hub_event_ledger.h:383-410 | Ordinals resume exactly when the mark has an authoritative aligned copy |
| `HubEventLedgerObject.HubLedger.Recover` | lib/hub_event_ledger/src/hub_event_ledger.h:82-143 | Over authoritative copies this is the specified recovery; blank storage is initialised; undecidable slots fail closed and write nothing |
| `HubEventLedgerObject.HubLedger.ProcessPacket` | lib/event_radio_integration/src/hub_event_radio.h:35-105 | Parsing, admission and answer over the ledger object refine the specified adapter |
| `HubEventLedgerObject.HubLedger.CountActive` | lib/hub_event_ledger/src/hub_event_ledger.h:600-606 | The loop counts the ACTIVE slots of a healthy ledger |
| `HubEventRadio.AdapterAgreesWithDecoder` | lib/event_radio_integration/src/hub_event_radio.h:40-62 | The adapter's own parse admits exactly the packets the Event decoder accepts with Node-to-Hub addressing, and the ledger never rejects those as misrouted, unsupported or malformed |
| `HubEventRadio.AcknowledgementsMatch` | lib/event_radio_integration/src/hub_event_radio.h:64-105 | Every acknowledgement decodes at the Node to a response that matches the Event, with the status of the admission; nothing is emitted for a packet not parsed or not stored |
| `HubEventRadio.AnswersSayWhatHappened` | lib/event_radio_integration/src/hub_event_radio.h:35-105 | Which answer is sent, by the ledger before the packet: equal content ADMITTED without change, other content a mismatch, no room CAPACITY, a new Event ADMITTED exactly when stored; malformed and unsupported ones as such |
| `HubEventRadio.RedeliveryIsAdmitted` | lib/event_radio_integration/src/hub_event_radio.h:35-105 | While the ledger owns an Event, any packet that spells it is ADMITTED again and changes nothing, so a lost acknowledgement is made good |
| `HubEventRadio.NewAdmissionIsReported` | lib/event_radio_integration/src/hub_event_radio.h:70-76 | The ledger is reported as mutated exactly for a new admission |
| `HostCobs.CobsRoundTrip` | lib/host_protocol/src/host_protocol.h:468-575 | For byte strings of every length: the encoding has no zero byte, decodes to the input, and is longer by one byte plus at most one per 254 |
| `HostCobs.CanonicalIffLastBlockOpen` | lib/host_protocol/src/host_protocol.h:527-575 | A decodable candidate is the encoding of what it decodes to exactly when its last block is not a full one; below 255 bytes always |
| `HostCobs.CobsEncodeInto` | lib/host_protocol/src/host_protocol.h:468-525 | The loop with the patched code byte writes exactly the encoding, and fails exactly when the input or the output buffer is out of bounds |
| `HostCobs.EncodeByte` | lib/host_protocol/src/host_protocol.h:489-517 | One turn of the loop keeps written bytes and open block equal to the encoding so far, or the buffer is too small for the whole encoding |
| `HostCobs.CobsDecodeInto` | lib/host_protocol/src/host_protocol.h:527-575 | The loops write exactly the decoding, succeed exactly for a decodable candidate that fits, and cannot run out of room when the buffer is one byte shorter than the input |
| `HostCobs.DecodeBlock` | lib/host_protocol/src/host_protocol.h:547-571 | One block is decoded, or the candidate is malformed, or the whole decoding does not fit |
| `HostProtocol.ComputeCrc16` | lib/host_protocol/src/host_protocol.h:450-466 | The bitwise loop computes CRC-16/CCITT-FALSE |
| `HostProtocol.FrameBijection` | lib/host_protocol/src/host_protocol.h:586-751 | A byte string decodes to a frame exactly when it is that frame's encoding: frames survive the round trip and every accepted byte string is canonical |
| `HostProtocol.EncodedFrameShape` | lib/host_protocol/src/host_protocol.h:586-656 | Every frame within the vocabulary and payload bounds encodes into at most 140 bytes with a single zero, the last |
| `HostProtocol.WriteFrame` | lib/host_protocol/src/host_protocol.h:586-656 | The buffer-level encoder produces the specified result, error order included |
| `HostProtocol.ReadFrame` | lib/host_protocol/src/host_protocol.h:658-751 | The buffer-level decoder produces the specified result |
| `HostStream.ChunkingIsIrrelevant` | lib/host_protocol/src/host_protocol_stream.h:36-87 | For every byte stream and every chunking the events are the verdicts on the pieces between zero bytes: none for an empty piece, the frame decoder's up to 139 bytes, oversized beyond |
| `HostStream.Resynchronises` | lib/host_protocol/src/host_protocol_stream.h:36-87 | After arbitrary bytes at most the first following frame is lost, and none if those bytes ended with a delimiter; the others are reported exactly, in order |
| `HostStream.CleanStream` | lib/host_protocol/src/host_protocol_stream.h:36-87 | From a clean start the events are exactly the frames sent, in order |
| `HostStream.StreamParser.ConsumeBytes` | lib/host_protocol/src/host_protocol_stream.h:36-87 | The parser's loop refines the byte-by-byte specification of one call |
| `HostStream.StreamParser.TakeByte` | lib/host_protocol/src/host_protocol_stream.h:46-84 | One byte refines one step of the specification |
| `HostTransport.LinkDeliversExactly` | lib/host_transport/src/host_transport.h:84-151 | Over every sequence of submissions and partial writes and every chunking at the receiver: it reports exactly the completed frames in order, and when the transmitter is idle that is everything accepted |
| `HostTransport.LinkRecoversAfterReset` | lib/host_transport/src/host_transport.h:84-157 | With transmitter resets at any point: of the frames completed since the last reset at most the first is lost, none if the reset left no partial frame on the wire; the rest are reported exactly, in order, after what was reported before |
| `HostTransport.AcceptedIsEncoding` | lib/host_transport/src/host_transport.h:84-103 | What the transmitter accepts is the encoding of a frame |
| `HostTransport.SubmissionDecided` | lib/host_transport/src/host_transport.h:84-103 | A submission is taken exactly when the transmitter is idle and the bytes are a frame's encoding |
| `HostTransport.PendingDrains` | lib/host_transport/src/host_transport.h:105-151 | While the device takes at least a byte at a time, whatever is pending is sent in at most as many services as it has bytes left |
| `HostTransport.StepKeepsInv` | lib/host_transport/src/host_transport.h:84-151 | What the device has accepted is always the completed frames followed by a prefix of the pending one |
| `HostTransport.Adapter.SubmitBytes` | lib/host_transport/src/host_transport.h:84-103 | Refines the specified submission |
| `HostTransport.Adapter.ServiceOutput` | lib/host_transport/src/host_transport.h:105-151 | Refines the specified partial write for every answer of the device |
| `HostTransport.Adapter.ServiceInput` | lib/host_transport/src/host_transport.h:56-82 | Byte-by-byte reading leaves the parser where one call on all the bytes read would, and reports its event; each status has its exact cause |
| `HostTransport.Adapter.Reset` | lib/host_transport/src/host_transport.h:153-157 | Both directions are idle again |
| `DeviceSettings.SettingsRecordBijection` | lib/device_settings/src/device_settings.h:201-303 | A slot classifies as a valid record exactly when it holds that record's encoding |
| `DeviceSettings.RecordBytes` | lib/device_settings/src/device_settings.h:201-303 | A slot's bytes are determined by the generation and settings they classify as, even ones still to be repaired |
| `DeviceSettings.Repair` | lib/device_settings/src/device_settings.h:114-135 | The result is valid, every field valid by itself is kept, the others get their defaults |
| `DeviceSettings.SavesAreCrashSafe` | lib/device_settings/src/device_settings.h:478-674 | From an empty store, after any saves, factory resets and reloads with any fates, provided no save is made while a failed reset is outstanding: a reload gives the last acknowledged settings or ones attempted after them, never older or mixed, and with no failed save outstanding exactly what is shown |
| `DeviceSettings.UnchangedIsTruthful` | lib/device_settings/src/device_settings.h:595-606 | UNCHANGED tells the truth about storage whenever no save has failed since the last acknowledgement or reload and no failed reset is outstanding |
| `DeviceSettings.FailedSavesDecideReload` | lib/device_settings/src/device_settings.h:595-674 | After any sequence of failed saves from a state where shown and stored agree, a reload gives the candidate that landed and was not torn since, if any, and otherwise the shown settings |
| `DeviceSettings.ReloadStep` | lib/device_settings/src/device_settings.h:478-545 | A reload gives exactly the settings held, writes nothing and reports no schema, repair or reset outcome |
| `DeviceSettings.LoadReports` | lib/device_settings/src/device_settings.h:478-545 | Each status of a load without a pending reset has its exact cause in the slots, and whatever was repaired, damaged or fallen back on is due to be saved again |
| `DeviceSettings.SaveStep` | lib/device_settings/src/device_settings.h:595-674 | What a save leaves held is decided by the fate of its write; it is acknowledged exactly when the write verifies; otherwise the manager is unchanged |
| `DeviceSettings.UnchangedCanBeLost` | lib/device_settings/src/device_settings.h:602-606 | A concrete run in which settings answered as UNCHANGED are not what the next boot loads |
| `DeviceSettings.PendingResetCompletes` | lib/device_settings/src/device_settings.h:820-913 | From any slots, once the marker is durable, any number of interrupted loads followed by one uninterrupted load leaves exactly the default record and no marker |
| `DeviceSettings.LoadKeepsReset` | lib/device_settings/src/device_settings.h:574-593 | Every load while a reset is pending shows the defaults, and the marker outlives it until the defaults are the only record |
| `DeviceSettings.ResetTouchesNothingBeforeMarker` | lib/device_settings/src/device_settings.h:547-572 | A reset whose marker did not verify leaves both slots and the manager alone; it completes exactly when its five writes verify, and then leaves exactly the default record |
| `DeviceSettings.VerifiedSaveOutlivesReload` | lib/device_settings/src/device_settings.h:595-674 | For every manager and store, sound or not: a verified save of settings that are not the defaults and not stored already is what a reload gives exactly when no pending or broken marker is present and its generation is ahead of the other slot's; for any settings, exactly when it prevails by marker and generations |
| `DeviceSettings.MarkerDecidesReload` | lib/device_settings/src/device_settings.h:595-674 | With sound slots the marker alone decides whether a verified save outlives a reload |
| `DeviceSettings.SaveAfterFailedReset` | lib/device_settings/src/device_settings.h:547-674 | After a reset that failed at any of its steps, with no reload in between: the exact condition, by the marker it left and the manager's target slot and generation, for a verified save to outlive the next reload |
| `DeviceSettings.WornResetDiscardsLaterSave` | lib/device_settings/src/device_settings.h:547-674 | A run from an empty store for every n: n saves, a reset of which only the marker removal was misreported, and an acknowledged save with no marker present; the next load discards that save exactly when n is odd and n modulo 2^32 is at least 2^31 |
| `DeviceSettings.FailedResetDiscardsLaterSave` | lib/device_settings/src/device_settings.h:547-572 | A concrete run: a reset whose marker write was reported as failed but landed, then a verified and acknowledged save, which the next load discards |
| `DeviceSettingsObject.SettingsManager.Load` | lib/device_settings/src/device_settings.h:478-545 | Over bytes: what is shown is what the active slot's bytes say, or the defaults; a sound store gives what it holds and is not written; a pending reset shows the defaults and survives an interruption |
| `DeviceSettingsObject.SettingsManager.Save` | lib/device_settings/src/device_settings.h:595-674 | Over bytes: the slot being shown is never touched; an acknowledged save means exactly the encoded settings were read back from the slot now shown; any other answer leaves the manager as it was |
| `DeviceSettingsObject.SettingsManager.WriteAndVerify` | lib/device_settings/src/device_settings.h:615-664 | A record counts as stored only when its bytes were read back and decode strictly to it; reported writes that did not happen are noticed |
| `DeviceSettingsObject.SettingsManager.RemoveAndVerify` | lib/device_settings/src/device_settings.h:915-942 | A slot counts as removed only when it was read back as missing |
| `DeviceSettingsObject.SettingsManager.FactoryReset` | lib/device_settings/src/device_settings.h:547-572 | Over bytes: a completed reset leaves exactly the encoded defaults in slot A, nothing in B and no marker; one whose marker did not verify leaves both slots and the manager alone |
| `DeviceSettingsObject.SettingsManager.CompleteVerifiedReset` | lib/device_settings/src/device_settings.h:820-913 | Over bytes: completion means exactly the encoded defaults and no marker; an interruption leaves a reset that a later load can complete |
| `StructuredGuarantees.RequestsAreBoundedAndAnsweredOnce` | lib/host_operation_lifecycle/src/host_operation_lifecycle.h:53-238 | Over every run with arbitrary radio packets and Hub resets: lifecycle active iff bridge active iff transaction not idle; each accepted request sends at most one command plus its retries, all the same packet; each has exactly one terminal response, returned under its own request id, except the one in progress and those a reset abandoned |
| `StructuredGuarantees.RetainedResponseIsReplayed` | lib/host_operation_lifecycle/src/host_operation_lifecycle.h:86-99 | After any run, resubmitting the retained request returns the one response it ended with and changes nothing; another payload under its id is refused as a mismatch |
| `NodeOperations.EveryReplyEncodes` | lib/radio_operation_bridge/src/radio_operation_bridge.h:269-349 | Whatever the device and its registry, the reply to every request the Node admits encodes, decodes to exactly the answer, and carries the request's target |
| `NodeOperations.AnswersAreValid` | lib/host_operation_service/src/host_device_service.h:168-284 | Every answer of the local service to a valid request is a valid response for its opcode: pings, records, pages and refusals alike |
| `NodeOperations.ListingIsComplete` | lib/host_operation_service/src/host_operation_service.h:162-203 | Following the cursors from the start returns every registered capability once and in order, in two pages at most |
| `NodeOperations.PingAnswersUptime` | lib/host_operation_service/src/host_device_service.h:194-201 | A ping answers the uptime of the device |
| `NodeOperations.CountersAreComplete` | lib/host_operation_service/src/host_device_service.h:257-285 | Following the cursors from the start returns all ten diagnostic counters, each once and with its number, in four pages |
| `NodeOperations.StatusReads` | lib/host_operation_service/src/host_device_service.h:227-240 | A status answer reads back as the state of the device, its counters saturated |
| `NodeOperations.DescriptionReads` | lib/host_operation_service/src/host_operation_service.h:205-238 | A description carries the class, type, operations, unit and availability of the first capability with that identifier |
| `WireOperations.RequestBijection` | lib/wire_operations/src/wire_operations.h:106-154 | Wire requests and the payloads their decoder accepts correspond one to one |
| `WireOperations.ResponseBijection` | lib/wire_operations/src/wire_operations.h:172-235 | Wire responses and the payloads their decoder accepts correspond one to one, and every valid response fits |
| `WireOperations.HostRequestBijection` | lib/host_protocol/src/host_protocol_messages.h:906-970 | Host requests and the payloads their decoder accepts correspond one to one, for either version |
| `WireOperations.HostRequestsAreWireRequests` | lib/host_protocol/src/host_protocol_messages.h:741-774 | A Host request valid under version 0.1 always has a Wire encoding, and every Wire request comes from one |
| `StructuredGuarantees.ExecutesAtMostOnce` | lib/wire_operations/src/wire_transaction_state.h:100-127 | Over every run with an order-preserving link that loses and repeats commands, any device state at each execution and any Hub resets, the Node executes each Hub transaction at most once between its own resets |
| `StructuredGuarantees.ExecutionCompletes` | lib/radio_operation_bridge/src/radio_operation_bridge.h:269-349 | Executing an admitted operation always completes it with a reply that decodes to the device's answer |
| `StructuredGuarantees.ValidRequestIsSent` | lib/radio_operation_bridge/src/radio_operation_bridge.h:71-128 | After any run, a valid version 0.1 request for the peer that nothing stands against is sent, as a command the Node decodes to exactly its target and value |
| `StructuredGuarantees.RefusalsAreTold` | lib/host_operation_lifecycle/src/host_operation_lifecycle.h:53-160 | Which refusal answers which circumstance: busy, unsupported pair, wrong target, or a peer that may not be asked yet; none of them changes anything |
| `StructuredGuarantees.RepeatIsRecognised` | lib/wire_operations/src/wire_transaction_state.h:100-127 | A repeat of the retained command is recognised, executed or not, and leaves it alone; anything newer waits for a pending one |
| `AnswerGuarantees.RequestRoundTrip` | lib/radio_operation_bridge/src/radio_operation_bridge.h:71-150 | After any run, a valid request that nothing stands against, whose command reaches an idle Node and whose reply comes back, gives the Host one response with the status and value of executing exactly that request on that Node |
| `AnswerGuarantees.FreeSubmission` | lib/radio_operation_bridge/src/radio_operation_bridge.h:71-128 | A request that nothing stands against puts exactly one command on the air, under the next sequence number, and starts one transaction with its deadline and its allowed repeats |
| `AnswerGuarantees.HostIsToldANodeAnswer` | lib/radio_operation_bridge/src/radio_operation_bridge.h:130-166 | Over every run without forged packets: a response to a request that was sent names that request and is a radio rejection, a radio timeout, or the status and value of the Node's reply to a command with the same sequence number and operation |
| `AnswerGuarantees.HostIsToldTheNodesAnswer` | lib/radio_operation_bridge/src/radio_operation_bridge.h:130-166 | If moreover no reply to another command is taken for the one awaited, the response is a radio result or exactly the Node's answer to that very request |
| `AnswerGuarantees.StaleReplyIsTaken` | lib/wire_operations/src/wire_transaction_state.h:165-197 | Without that, for any device and two requests that differ only in value, a Hub that restarts returns the answer to the first as the answer to the second |
| `StructuredGuarantees.BridgeReceiveEffects` | lib/radio_operation_bridge/src/radio_operation_bridge.h:130-150 | A correlated result that decodes for the right target ends the request with its own status and value, a correlated rejection ends it as REMOTE_REJECTED, and any other packet ends nothing |
| `StructuredGuarantees.BridgeServiceEffects` | lib/radio_operation_bridge/src/radio_operation_bridge.h:152-166 | Once the deadline is reached the same command is repeated while sends are left, and then the request ends as TIMEOUT; before it nothing happens |
| `StructuredOperationsObject.NodeProcessor.Admit` | lib/radio_operation_bridge/src/radio_operation_bridge.h:229-267 | Only a new, well-formed command for this device is retained in the payload buffer, never over a pending one; every other outcome changes nothing, and a duplicate is recognised byte for byte |
| `StructuredOperationsObject.NodeProcessor.ExecuteAdmitted` | lib/radio_operation_bridge/src/radio_operation_bridge.h:269-349 | A pending operation is always completed, with a response that decodes to this device's answer; otherwise nothing happens |
| `StructuredOperationsObject.HubTransaction.BeginWith` | lib/wire_operations/src/wire_transaction_state.h:145-157 | A started transaction holds exactly this command with the allowed number of repeats; a refused start changes nothing |
| `StructuredOperationsObject.HubTransaction.ReceivePacket` | lib/wire_operations/src/wire_transaction_state.h:165-197 | Only a correlated rejection, or a correlated response that decodes for the right target, ends the transaction; nothing received changes the command or its remaining sends |
| `StructuredOperationsObject.HubTransaction.ServiceClock` | lib/wire_operations/src/wire_transaction_state.h:199-208 | Each retransmission costs one remaining send, the timeout comes when none is left, and nothing happens before the deadline |
| `StructuredOperationsObject.HubBridge.SubmitRequest` | lib/radio_operation_bridge/src/radio_operation_bridge.h:71-128 | Starts exactly one transaction with the next sequence number and the allowed repeats, or changes nothing |
| `StructuredOperationsObject.HubBridge.ReceivePacket` | lib/radio_operation_bridge/src/radio_operation_bridge.h:130-150 | A correlated result ends the request with its own status and value, a rejection as REMOTE_REJECTED; any other packet leaves command and remaining sends alone |
| `StructuredOperationsObject.HubBridge.ServiceClock` | lib/radio_operation_bridge/src/radio_operation_bridge.h:152-166 | Repeats the same command at the cost of one send, ends with one response, or does nothing |
| `StructuredOperationsObject.HostLifecycle.SubmitRequest` | lib/host_operation_lifecycle/src/host_operation_lifecycle.h:53-160 | A command is sent only by starting one transaction with the allowed repeats and retaining the payload in the buffer; a completed request is answered again with its own response; lifecycle, bridge and transaction keep agreeing |
| `StructuredOperationsObject.HostLifecycle.ReceivePacket` | lib/host_operation_lifecycle/src/host_operation_lifecycle.h:162-164 | Transmits nothing; an answer completes the active request and is retained; the agreement is kept |
| `StructuredOperationsObject.HostLifecycle.ServiceClock` | lib/host_operation_lifecycle/src/host_operation_lifecycle.h:166-168 | What is transmitted is the command in progress at the cost of one of its repeats; an answer completes the active request and is retained |

## Left out

- The Arduino main loops, RadioLib calls, interrupt flags, LEDs and displays; only the order in which they call the modelled operations is used.
- The ESP32 NVS adapters; the storage fault model stands for them.
- HubArbiter, the save and restore of the radio owner and its deadline: three assignments that would only add easy members.
- Diagnostics counters, observers, structured traces and the reported remaining lifetime: no modelled decision depends on them.
- Event producers and button gestures: creation takes arbitrary valid and invalid inputs.
- Capability descriptors are reduced to the fields a reply depends on; registry validation and the bounds of a reading are a parameter, and a remote caller reaches neither.
- Operations the Hub executes for itself: their outcome is a parameter of a submission.
- Host Event service and Host stack wiring, apart from consumption through the ledger.
- The error-detection strength of the CRCs: each is a fixed function on which encoder and decoder agree.
- Timing of command retransmissions, and recovery from a failed command-acknowledgement start: they depend on main-loop scheduling.
- EventGuarantees.EndToEndCustody: does not promise that an Event is eventually delivered; an Event can expire or run out of its five attempts. When it is delivered, and what happens unanswered, are DeliveryGuarantees.DeliveryCompletes and RetryGuarantees.UnansweredIsSentFiveTimes.
- EventGuarantees.AtMostOnceAdmission: asks for nondecreasing arrival of identities, because the property is false without it.
- StructuredGuarantees.ExecutesAtMostOnce: counts from the last Node reset, which forgets the retained operation.
- AnswerGuarantees.HostIsToldTheNodesAnswer: asks that no late reply to another command is taken for the one awaited, because the property is false without it, as AnswerGuarantees.StaleReplyIsTaken shows; AnswerGuarantees.HostIsToldANodeAnswer holds without it.
- HostTransport.LinkDeliversExactly: covers runs without a transmitter reset; those with resets are HostTransport.LinkRecoversAfterReset.
- DeviceSettings.SavesAreCrashSafe: asks that no save be made while a failed reset is outstanding, because the property is false without it, as DeviceSettings.FailedResetDiscardsLaterSave and DeviceSettings.WornResetDiscardsLaterSave show.
