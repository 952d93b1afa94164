/**
 The whole Event pipeline: a Node and a Hub, each with storage that can fail or
 lose power at any write, joined by a radio that may lose, repeat and reorder
 packets but not forge them.  Every run is a sequence of operations; the two
 `Fates` say what each write on each side did.
 */
module EventPipeline {
  import opened Words
  import opened EventStorage
  import opened EventProtocol
  import opened EventRecords
  import opened EventIdentity
  import opened NodeEventStore
  import opened NodeEventPolicy
  import opened NodeEventDelivery
  import Hub = HubEventLedger
  import opened HubEventRadio

  // ----- the system

  /**
   What happened so far: Events durably accepted by the Node; identities whose
   queued record was freed; identities whose failed or expired record was
   reclaimed; identities whose ACTIVE entry a Host request durably consumed; and
   the identities reported as newly admitted, in order.
   */
  datatype History = History(
    accepted: map<Identity, Content>, released: set<Identity>, discarded: set<Identity>,
    consumed: set<Identity>, admissions: seq<Identity>)

  /** `air` holds every Event packet transmitted and `acks` every acknowledgement sent, oldest first. */
  datatype World = World(node: Node, hub: Hub.Ledger, air: seq<seq<u8>>, acks: seq<seq<u8>>, past: History)

  datatype Op =
    | CreateEvent(input: Content, now: u32)
    | ServiceNode(now: u32, busy: bool, jitter: u16)
    | Grant(now: u32, sequence: Option<u8>)
    | Started(now: u32)
    | StartFailed(now: u32, jitter: u16)
    | Completed(now: u32)
    | Hear(packet: seq<u8>, now: u32, jitter: u16)
    | ReclaimNode
    | RebootNode(now: u32, entropy: u32)
    | Deliver(index: nat)
    | ConsumeEvent(identity: Identity)
    | RebootHub

  function HubIds(ends: Endpoints): Hub.Ids {
    Hub.Ids(ends.hub, ends.source)
  }

  function FreedQueued(s: Slots, t: Slots): set<Identity> {
    set i | 0 <= i < 8 && s[i].Queued() && t[i].Free? :: s[i].identity
  }

  function FreedTerminal(s: Slots, t: Slots): set<Identity> {
    set i | 0 <= i < 8 && s[i].Terminal() && t[i].Free? :: s[i].identity
  }

  function NodeMoved(w: World, m: Node): World {
    w.(node := m, past := w.past.(
      released := w.past.released + FreedQueued(SlotsOf(w.node), SlotsOf(m)),
      discarded := w.past.discarded + FreedTerminal(SlotsOf(w.node), SlotsOf(m))))
  }

  function EventCreated(f: Fates, w: World, m: Node, input: Content): World {
    if SlotsOf(m) == SlotsOf(w.node) || NewIdentity(f, w.node).None? then NodeMoved(w, m)
    else
      var v := NodeMoved(w, m);
      v.(past := v.past.(accepted := w.past.accepted[NewIdentity(f, w.node).value := input]))
  }

  /** Packets are not forged: the Node hears an acknowledgement that was sent, or something that is none. */
  predicate Audible(w: World, packet: seq<u8>) {
    packet in w.acks || DecodeAdmissionResponse(packet).None?
  }

  predicate HoldsActive(slots: Hub.LedgerSlots, identity: Identity) {
    exists i :: 0 <= i < 8 && slots[i].Active() && slots[i].identity == identity
  }

  function Delivered(g: Fates, ends: Endpoints, w: World, packet: seq<u8>): World {
    var (hub, out) := Process(g, w.hub, HubIds(ends), packet);
    var v := w.(hub := hub, acks := if out.StartEventAck? then w.acks + [out.bytes] else w.acks);
    match AdmitCandidate(HubIds(ends), packet)
    case None => v
    case Some(e) =>
      if Hub.Admit(g, w.hub, HubIds(ends), e).1 == Hub.DURABLE_NEW_ADMISSION
      then v.(past := v.past.(admissions := w.past.admissions + [e.identity])) else v
  }

  function Step(f: Fates, g: Fates, ends: Endpoints, w: World, op: Op): World {
    match op
    case CreateEvent(input, now) => EventCreated(f, w, Create(f, w.node, input, now).0, input)
    case ServiceNode(now, busy, jitter) => NodeMoved(w, ControllerService(f, w.node, now, busy, jitter).0)
    case Grant(now, sequence) =>
      var (m, result) := GrantTransmit(f, ends, w.node, now, sequence);
      var v := NodeMoved(w, m);
      if result.action.Transmit? then v.(air := w.air + [result.action.bytes]) else v
    case Started(now) => NodeMoved(w, TxStarted(f, w.node, now).0)
    case StartFailed(now, jitter) => NodeMoved(w, TxStartFailed(f, w.node, now, jitter).0)
    case Completed(now) => NodeMoved(w, TxCompleted(f, w.node, now).0)
    case Hear(packet, now, jitter) =>
      if Audible(w, packet) then NodeMoved(w, AdmissionCandidate(f, w.node, packet, now, jitter).0) else w
    case ReclaimNode => NodeMoved(w, ReclaimTerminals(f, w.node).0)
    case RebootNode(now, entropy) => NodeMoved(w, PowerUp(f, ends, w.node, now, entropy))
    case Deliver(index) => if index < |w.air| then Delivered(g, ends, w, w.air[index]) else w
    case ConsumeEvent(identity) =>
      var v := w.(hub := Hub.Consume(g, w.hub, ends.source, identity).0);
      if HoldsActive(w.hub.slots, identity) && !HoldsActive(v.hub.slots, identity)
      then v.(past := v.past.(consumed := w.past.consumed + {identity})) else v
    case RebootHub => w.(hub := Hub.Recover(w.hub, HubIds(ends)))
  }

  function Run(f: Fates, g: Fates, ends: Endpoints, w: World, ops: seq<Op>): World
    decreases |ops|
  {
    if ops == [] then w else Step(f, g, ends, Run(f, g, ends, w, ops[..|ops| - 1]), ops[|ops| - 1])
  }

  // ----- the invariant

  /** The Hub holds the Event for delivery with the content the Node accepted, or the Host took it. */
  predicate InHubCustody(w: World, identity: Identity) {
    || identity in w.past.consumed
    || (identity in w.past.accepted
        && exists i :: 0 <= i < 8 && w.hub.slots[i].Active() && w.hub.slots[i].identity == identity
                       && w.hub.slots[i].content == w.past.accepted[identity])
  }

  predicate NodeHolds(w: World, identity: Identity) {
    exists i :: 0 <= i < 8 && SlotsOf(w.node)[i].Held? && SlotsOf(w.node)[i].identity == identity
  }

  function NodeFrontier(w: World): Identity {
    EventIdentity.Frontier(w.node.policy.store.alloc)
  }

  predicate AcceptedAs(past: History, identity: Identity, content: Content) {
    identity in past.accepted && past.accepted[identity] == content
  }

  /** Custody on the Node's side: records are accepted Events, and no accepted Event has vanished. */
  predicate NodeSide(w: World) {
    match w
    case World(node, _, _, _, past) =>
      && (forall i :: 0 <= i < 8 && SlotsOf(node)[i].Held? ==>
            AcceptedAs(past, SlotsOf(node)[i].identity, SlotsOf(node)[i].content))
      && (forall x :: x in past.accepted ==> Less(x, NodeFrontier(w)))
      && (forall x :: x in past.accepted ==> NodeHolds(w, x) || x in past.released || x in past.discarded)
  }

  /** What a transmitted packet is: an accepted Event, addressed from the Node to the Hub. */
  predicate Genuine(past: History, ends: Endpoints, packet: seq<u8>) {
    match DecodeEvent(packet)
    case None => false
    case Some(e) => e.source == ends.source && e.destination == ends.hub && AcceptedAs(past, e.identity, e.content)
  }

  function SentIdentity(packet: seq<u8>): Identity {
    match DecodeEvent(packet)
    case None => Identity(0, 0)
    case Some(e) => e.identity
  }

  function CountSent(air: seq<seq<u8>>, identity: Identity): nat {
    if air == [] then 0
    else CountSent(air[..|air| - 1], identity) + (if SentIdentity(air[|air| - 1]) == identity then 1 else 0)
  }

  predicate FifoAir(air: seq<seq<u8>>) {
    forall j, k :: 0 <= j < k < |air| ==> !Less(SentIdentity(air[k]), SentIdentity(air[j]))
  }

  /** Transmissions: genuine, in identity order, never past the queue, and covered by durable attempts. */
  ghost predicate AirSide(w: World, ends: Endpoints) {
    match w
    case World(node, _, air, _, past) =>
      && (forall k :: 0 <= k < |air| ==> Genuine(past, ends, air[k]))
      && FifoAir(air)
      && (forall i, k :: 0 <= i < 8 && 0 <= k < |air| && SlotsOf(node)[i].Queued() ==>
            !Less(SlotsOf(node)[i].identity, SentIdentity(air[k])))
      && (forall i :: 0 <= i < 8 && SlotsOf(node)[i].Queued() ==>
            CountSent(air, SlotsOf(node)[i].identity) <= SlotsOf(node)[i].attempts)
      && (forall x :: CountSent(air, x) <= MAX_ATTEMPTS)
  }

  /** The ledger: entries are accepted Events, and a tombstone means the Host asked for it. */
  predicate HubSide(w: World) {
    match w
    case World(_, hub, _, _, past) =>
      forall i :: 0 <= i < 8 && hub.slots[i].Entry? ==>
        && AcceptedAs(past, hub.slots[i].identity, hub.slots[i].content)
        && (hub.slots[i].Tombstone() ==> hub.slots[i].identity in past.consumed)
  }

  predicate Honest(w: World, packet: seq<u8>) {
    match DecodeAdmissionResponse(packet)
    case None => true
    case Some(r) => r.status == ADMITTED ==> InHubCustody(w, r.identity)
  }

  /** Every ADMITTED ever sent, and every release, is backed by Hub custody. */
  predicate AckSide(w: World) {
    match w
    case World(_, _, _, acks, past) =>
      && (forall k :: 0 <= k < |acks| ==> Honest(w, acks[k]))
      && (forall x :: x in past.released ==> x in past.accepted && InHubCustody(w, x))
  }

  ghost predicate WorldInv(w: World, ends: Endpoints) {
    match w
    case World(node, hub, _, _, _) =>
      && NodeInv(node, ends) && Hub.LedgerInv(hub, HubIds(ends))
      && NodeSide(w) && AirSide(w, ends) && HubSide(w) && AckSide(w)
  }

  // ----- steps of the Node

  /** One slot across a Node step: kept, freed for a stated reason, or filled with a born Event. */
  ghost predicate SlotMove(w: World, a: NodeRecord, b: NodeRecord, born: Option<(Identity, Content)>) {
    || Kept(a, b)
    || (a.Terminal() && b.Free?)
    || (a.Queued() && b.Free? && InHubCustody(w, a.identity))
    || (a.Free? && born.Some? && b == Held(QUEUED, born.value.0, born.value.1, born.value.1.lifetime, 0))
  }

  /** A Node step that transmits nothing; `born` is the Event it stored, if any. */
  ghost predicate NodeMove(w: World, m: Node, born: Option<(Identity, Content)>, ends: Endpoints) {
    match m
    case Node(policy, _) =>
      && NodeInv(m, ends)
      && !Less(EventIdentity.Frontier(policy.store.alloc), NodeFrontier(w))
      && (forall i :: 0 <= i < 8 ==> SlotMove(w, SlotsOf(w.node)[i], SlotsOf(m)[i], born))
      && (born.Some? ==>
            && !Less(born.value.0, NodeFrontier(w))
            && Less(born.value.0, EventIdentity.Frontier(policy.store.alloc))
            && exists i :: 0 <= i < 8 && SlotsOf(m)[i].Held? && SlotsOf(m)[i].identity == born.value.0)
  }

  function Moved(w: World, m: Node, born: Option<(Identity, Content)>): World {
    var v := NodeMoved(w, m);
    if born.Some? then v.(past := v.past.(accepted := w.past.accepted[born.value.0 := born.value.1])) else v
  }

  lemma LessTransitive(x: Identity, y: Identity, z: Identity)
    requires Less(x, y) && !Less(z, y)
    ensures Less(x, z)
  {
  }

  lemma {:induction false} CountZero(air: seq<seq<u8>>, identity: Identity)
    requires forall k :: 0 <= k < |air| ==> SentIdentity(air[k]) != identity
    ensures CountSent(air, identity) == 0
    decreases |air|
  {
    if air != [] {
      CountZero(air[..|air| - 1], identity);
    }
  }

  lemma CustodyPersists(w: World, v: World, identity: Identity)
    requires InHubCustody(w, identity)
    requires v.hub.slots == w.hub.slots && v.past.consumed == w.past.consumed
    requires identity in w.past.accepted ==>
      identity in v.past.accepted && v.past.accepted[identity] == w.past.accepted[identity]
    ensures InHubCustody(v, identity)
  {
  }

  lemma MoveKeepsNodeSide(w: World, m: Node, born: Option<(Identity, Content)>, ends: Endpoints)
    requires NodeSide(w) && NodeMove(w, m, born, ends)
    ensures NodeSide(Moved(w, m, born))
  {
    hide NodeInv, EventIdentity.Frontier, InHubCustody;
    var v := Moved(w, m, born);
    forall i | 0 <= i < 8 && SlotsOf(m)[i].Held?
      ensures AcceptedAs(v.past, SlotsOf(m)[i].identity, SlotsOf(m)[i].content)
    {
      assert SlotMove(w, SlotsOf(w.node)[i], SlotsOf(m)[i], born);
    }
    forall x | x in v.past.accepted ensures Less(x, NodeFrontier(v)) {
      if x in w.past.accepted {
        LessTransitive(x, NodeFrontier(w), NodeFrontier(v));
      }
    }
    forall x | x in w.past.accepted ensures NodeHolds(v, x) || x in v.past.released || x in v.past.discarded {
      if NodeHolds(w, x) {
        var i :| 0 <= i < 8 && SlotsOf(w.node)[i].Held? && SlotsOf(w.node)[i].identity == x;
        assert SlotMove(w, SlotsOf(w.node)[i], SlotsOf(m)[i], born);
        assert SlotsOf(m)[i].Held? ==> SlotsOf(m)[i].identity == x;
        assert SlotsOf(w.node)[i].Queued() && SlotsOf(m)[i].Free? ==> x in FreedQueued(SlotsOf(w.node), SlotsOf(m));
        assert SlotsOf(w.node)[i].Terminal() && SlotsOf(m)[i].Free? ==> x in FreedTerminal(SlotsOf(w.node), SlotsOf(m));
      }
    }
  }

  lemma MoveKeepsAirSide(w: World, m: Node, born: Option<(Identity, Content)>, ends: Endpoints)
    requires NodeSide(w) && AirSide(w, ends) && NodeMove(w, m, born, ends)
    ensures AirSide(Moved(w, m, born), ends)
  {
    hide NodeInv, EventIdentity.Frontier, InHubCustody, DecodeEvent;
    var v := Moved(w, m, born);
    forall k | 0 <= k < |v.air| ensures Genuine(v.past, ends, v.air[k]) {
      assert Genuine(w.past, ends, w.air[k]);
      assert Less(SentIdentity(w.air[k]), NodeFrontier(w));
    }
    forall i | 0 <= i < 8 && SlotsOf(m)[i].Queued()
      ensures forall k :: 0 <= k < |v.air| ==> !Less(SlotsOf(m)[i].identity, SentIdentity(v.air[k]))
      ensures CountSent(v.air, SlotsOf(m)[i].identity) <= SlotsOf(m)[i].attempts
    {
      assert SlotMove(w, SlotsOf(w.node)[i], SlotsOf(m)[i], born);
      if !Kept(SlotsOf(w.node)[i], SlotsOf(m)[i]) {
        forall k | 0 <= k < |w.air|
          ensures Less(SentIdentity(w.air[k]), born.value.0)
        {
          assert Genuine(w.past, ends, w.air[k]);
          LessTransitive(SentIdentity(w.air[k]), NodeFrontier(w), born.value.0);
        }
        CountZero(w.air, born.value.0);
      }
    }
  }

  lemma MoveKeepsHubSides(w: World, m: Node, born: Option<(Identity, Content)>, ends: Endpoints)
    requires NodeSide(w) && HubSide(w) && AckSide(w) && NodeMove(w, m, born, ends)
    ensures HubSide(Moved(w, m, born)) && AckSide(Moved(w, m, born))
  {
    hide NodeInv, EventIdentity.Frontier, DecodeAdmissionResponse, InHubCustody;
    var v := Moved(w, m, born);
    forall x | x in w.past.accepted ensures x in v.past.accepted && v.past.accepted[x] == w.past.accepted[x] {
      assert Less(x, NodeFrontier(w));
    }
    forall x | InHubCustody(w, x) ensures InHubCustody(v, x) {
      CustodyPersists(w, v, x);
    }
    forall k | 0 <= k < |v.acks| ensures Honest(v, v.acks[k]) {
      assert Honest(w, w.acks[k]);
    }
    forall x | x in v.past.released ensures x in v.past.accepted && InHubCustody(v, x) {
      if x !in w.past.released {
        var i :| 0 <= i < 8 && SlotsOf(w.node)[i].Queued() && SlotsOf(m)[i].Free? && SlotsOf(w.node)[i].identity == x;
        assert SlotMove(w, SlotsOf(w.node)[i], SlotsOf(m)[i], born);
      }
    }
  }

  lemma MoveKeepsWorld(w: World, m: Node, born: Option<(Identity, Content)>, ends: Endpoints)
    requires WorldInv(w, ends) && NodeMove(w, m, born, ends)
    ensures WorldInv(Moved(w, m, born), ends)
  {
    hide NodeInv, NodeSide, AirSide, HubSide, AckSide, Hub.LedgerInv;
    MoveKeepsNodeSide(w, m, born, ends);
    MoveKeepsAirSide(w, m, born, ends);
    MoveKeepsHubSides(w, m, born, ends);
  }

  lemma KeepsIsMove(w: World, m: Node, ends: Endpoints)
    requires Keeps(w.node, m, ends)
    ensures NodeMove(w, m, None, ends)
  {
    hide NodeInv, InHubCustody;
    forall i | 0 <= i < 8 ensures SlotMove(w, SlotsOf(w.node)[i], SlotsOf(m)[i], None) {
      assert Kept(SlotsOf(w.node)[i], SlotsOf(m)[i]);
    }
  }

  /** A Node step that keeps custody and transmits nothing keeps the world invariant. */
  lemma KeepsStep(w: World, m: Node, ends: Endpoints)
    requires WorldInv(w, ends) && Keeps(w.node, m, ends)
    ensures WorldInv(NodeMoved(w, m), ends)
  {
    hide WorldInv, NodeInv;
    KeepsIsMove(w, m, ends);
    MoveKeepsWorld(w, m, None, ends);
  }

  lemma CreateEventStep(f: Fates, w: World, input: Content, now: u32, ends: Endpoints)
    requires WorldInv(w, ends)
    ensures WorldInv(EventCreated(f, w, Create(f, w.node, input, now).0, input), ends)
  {
    hide NodeInv, Create, EventIdentity.Frontier, NewIdentity, FirstFree, InHubCustody, NodeSide, AirSide, HubSide, AckSide;
    CreateStep(f, w.node, input, now, ends);
    var m := Create(f, w.node, input, now).0;
    var born := if SlotsOf(m) == SlotsOf(w.node) then None else Some((NewIdentity(f, w.node).value, input));
    if born.Some? {
      assert SlotsOf(m)[FirstFree(SlotsOf(w.node), 0).value] == Held(QUEUED, born.value.0, input, input.lifetime, 0);
    }
    forall i | 0 <= i < 8 ensures SlotMove(w, SlotsOf(w.node)[i], SlotsOf(m)[i], born) {
    }
    MoveKeepsWorld(w, m, born, ends);
  }

  lemma HearStep(f: Fates, w: World, packet: seq<u8>, now: u32, jitter: u16, ends: Endpoints)
    requires WorldInv(w, ends) && Audible(w, packet)
    ensures WorldInv(NodeMoved(w, AdmissionCandidate(f, w.node, packet, now, jitter).0), ends)
  {
    hide NodeInv, AdmissionCandidate, InHubCustody, NodeSide, AirSide, HubSide, DecodeAdmissionResponse;
    AdmissionCandidateStep(f, w.node, packet, now, jitter, ends);
    var m := AdmissionCandidate(f, w.node, packet, now, jitter).0;
    if Keeps(w.node, m, ends) {
      KeepsStep(w, m, ends);
    } else {
      assert Honest(w, packet);
      forall i | 0 <= i < 8 ensures SlotMove(w, SlotsOf(w.node)[i], SlotsOf(m)[i], None) {
      }
      MoveKeepsWorld(w, m, None, ends);
    }
  }

  lemma ReclaimNodeStep(f: Fates, w: World, ends: Endpoints)
    requires WorldInv(w, ends)
    ensures WorldInv(NodeMoved(w, ReclaimTerminals(f, w.node).0), ends)
  {
    hide NodeInv, ReclaimTerminals, InHubCustody, NodeSide, AirSide, HubSide, AckSide;
    ReclaimTerminalsStep(f, w.node, ends);
    var m := ReclaimTerminals(f, w.node).0;
    forall i | 0 <= i < 8 ensures SlotMove(w, SlotsOf(w.node)[i], SlotsOf(m)[i], None) {
    }
    MoveKeepsWorld(w, m, None, ends);
  }

  lemma FrontierAfterReboot(a: AllocatorState, source: u8)
    requires AllocatorInv(a, source)
    ensures !Less(EventIdentity.Frontier(BecomeReady(a.stored)), EventIdentity.Frontier(a))
  {
  }

  lemma RebootNodeStep(f: Fates, w: World, now: u32, entropy: u32, ends: Endpoints)
    requires WorldInv(w, ends) && ends.source != 0
    ensures WorldInv(NodeMoved(w, PowerUp(f, ends, w.node, now, entropy)), ends)
  {
    hide PowerUp, InHubCustody, NodeSide, AirSide, HubSide, AckSide, ControllerInv;
    FrontierAfterReboot(w.node.policy.store.alloc, ends.source);
    PowerUpStep(f, w.node, now, entropy, ends);
    var m := PowerUp(f, ends, w.node, now, entropy);
    forall i | 0 <= i < 8 ensures SlotMove(w, SlotsOf(w.node)[i], SlotsOf(m)[i], None) {
      assert Kept(SlotsOf(w.node)[i], SlotsOf(m)[i]) || (SlotsOf(w.node)[i].Terminal() && SlotsOf(m)[i].Free?);
    }
    MoveKeepsWorld(w, m, None, ends);
  }

  // ----- transmission

  lemma TransmissionIsGenuine(w: World, m: Node, bytes: seq<u8>, ends: Endpoints)
    requires NodeSide(w) && Keeps(w.node, m, ends) && Transmitted(w.node, m, bytes, ends)
    ensures Genuine(w.past, ends, bytes)
    ensures SentIdentity(bytes) == SlotsOf(m)[m.ctl.slot].identity == SlotsOf(w.node)[m.ctl.slot].identity
  {
    hide EncodeEvent, DecodeEvent;
    assert ValidNodeRecord(SlotsOf(m)[m.ctl.slot]);
    assert Kept(SlotsOf(w.node)[m.ctl.slot], SlotsOf(m)[m.ctl.slot]);
    EventRoundTrip(m.ctl.attempt);
  }

  /** Appending the head's packet keeps the identity order and stays behind the queue. */
  lemma AppendKeepsOrder(w: World, m: Node, bytes: seq<u8>)
    requires FifoAir(w.air) && AllKept(SlotsOf(w.node), SlotsOf(m)) && Least(SlotsOf(m), m.ctl.slot)
    requires SentIdentity(bytes) == SlotsOf(m)[m.ctl.slot].identity
    requires forall i, k :: 0 <= i < 8 && 0 <= k < |w.air| && SlotsOf(w.node)[i].Queued() ==>
      !Less(SlotsOf(w.node)[i].identity, SentIdentity(w.air[k]))
    ensures FifoAir(w.air + [bytes])
    ensures forall i, k :: 0 <= i < 8 && 0 <= k < |w.air| + 1 && SlotsOf(m)[i].Queued() ==>
      !Less(SlotsOf(m)[i].identity, SentIdentity((w.air + [bytes])[k]))
  {
    hide DecodeEvent, SentIdentity;
    var head := m.ctl.slot;
    forall i, k | 0 <= i < 8 && 0 <= k < |w.air| + 1 && SlotsOf(m)[i].Queued()
      ensures !Less(SlotsOf(m)[i].identity, SentIdentity((w.air + [bytes])[k]))
    {
      assert Kept(SlotsOf(w.node)[i], SlotsOf(m)[i]);
      if k == |w.air| {
        assert i != head ==> Less(SlotsOf(m)[head].identity, SlotsOf(m)[i].identity);
      } else {
        assert (w.air + [bytes])[k] == w.air[k];
      }
    }
    assert Kept(SlotsOf(w.node)[head], SlotsOf(m)[head]);
  }

  lemma CountAppended(air: seq<seq<u8>>, bytes: seq<u8>, x: Identity)
    ensures CountSent(air + [bytes], x) == CountSent(air, x) + (if SentIdentity(bytes) == x then 1 else 0)
  {
    assert (air + [bytes])[..|air|] == air;
  }

  /** Each transmission was preceded by a durable attempt, so the attempt count still covers all of them. */
  lemma AppendKeepsCount(w: World, m: Node, bytes: seq<u8>)
    requires AllKept(SlotsOf(w.node), SlotsOf(m)) && Least(SlotsOf(m), m.ctl.slot)
    requires SlotsOf(w.node)[m.ctl.slot].Queued()
    requires SlotsOf(m)[m.ctl.slot].attempts == SlotsOf(w.node)[m.ctl.slot].attempts + 1
    requires SentIdentity(bytes) == SlotsOf(m)[m.ctl.slot].identity && SlotsOf(m)[m.ctl.slot].attempts <= MAX_ATTEMPTS
    requires forall i :: 0 <= i < 8 && SlotsOf(w.node)[i].Queued() ==>
      CountSent(w.air, SlotsOf(w.node)[i].identity) <= SlotsOf(w.node)[i].attempts
    requires forall x :: CountSent(w.air, x) <= MAX_ATTEMPTS
    ensures forall i :: 0 <= i < 8 && SlotsOf(m)[i].Queued() ==>
      CountSent(w.air + [bytes], SlotsOf(m)[i].identity) <= SlotsOf(m)[i].attempts
    ensures forall x :: CountSent(w.air + [bytes], x) <= MAX_ATTEMPTS
  {
    hide DecodeEvent, SentIdentity, CountSent;
    assert Kept(SlotsOf(w.node)[m.ctl.slot], SlotsOf(m)[m.ctl.slot]);
    forall i | 0 <= i < 8 && SlotsOf(m)[i].Queued()
      ensures CountSent(w.air + [bytes], SlotsOf(m)[i].identity) <= SlotsOf(m)[i].attempts
    {
      CountAppended(w.air, bytes, SlotsOf(m)[i].identity);
      assert Kept(SlotsOf(w.node)[i], SlotsOf(m)[i]);
    }
    forall x ensures CountSent(w.air + [bytes], x) <= MAX_ATTEMPTS {
      CountAppended(w.air, bytes, x);
    }
  }

  lemma TransmitKeepsAirSide(w: World, m: Node, bytes: seq<u8>, ends: Endpoints)
    requires NodeSide(w) && AirSide(w, ends) && Keeps(w.node, m, ends) && Transmitted(w.node, m, bytes, ends)
    ensures AirSide(NodeMoved(w, m).(air := w.air + [bytes]), ends)
  {
    TransmissionIsGenuine(w, m, bytes, ends);
    assert SlotsOf(m)[m.ctl.slot].attempts <= MAX_ATTEMPTS;
    hide NodeInv, DecodeEvent, EncodeEvent, InFlight, CountSent, Less;
    AppendKeepsOrder(w, m, bytes);
    AppendKeepsCount(w, m, bytes);
    var v := NodeMoved(w, m).(air := w.air + [bytes]);
    forall k | 0 <= k < |v.air| ensures Genuine(v.past, ends, v.air[k]) {
      if k < |w.air| {
        assert Genuine(w.past, ends, w.air[k]);
      }
    }
  }

  lemma GrantStep(f: Fates, g: Fates, w: World, now: u32, sequence: Option<u8>, ends: Endpoints)
    requires WorldInv(w, ends) && ValidEndpoints(ends.source, ends.hub)
    ensures WorldInv(Step(f, g, ends, w, Grant(now, sequence)), ends)
  {
    hide NodeInv, GrantTransmit, NodeSide, AirSide, HubSide, AckSide, Hub.LedgerInv;
    GrantTransmitStep(f, w.node, now, sequence, ends);
    var (m, result) := GrantTransmit(f, ends, w.node, now, sequence);
    KeepsIsMove(w, m, ends);
    MoveKeepsWorld(w, m, None, ends);
    if result.action.Transmit? {
      TransmitKeepsAirSide(w, m, result.action.bytes, ends);
      AirIrrelevant(NodeMoved(w, m), w.air + [result.action.bytes]);
    }
  }

  lemma AirIrrelevant(w: World, air: seq<seq<u8>>)
    ensures NodeSide(w.(air := air)) == NodeSide(w) && HubSide(w.(air := air)) == HubSide(w)
    ensures AckSide(w) ==> AckSide(w.(air := air))
  {
    var v := w.(air := air);
    assert forall x :: NodeHolds(v, x) == NodeHolds(w, x);
    assert forall x :: InHubCustody(v, x) == InHubCustody(w, x);
    if AckSide(w) {
      forall k | 0 <= k < |v.acks| ensures Honest(v, v.acks[k]) {
        assert Honest(w, w.acks[k]);
      }
    }
  }

  // ----- steps of the Hub

  /** Hub custody survives: an ACTIVE entry stays, or the Host asked for it. */
  lemma HubChangeKeepsSides(w: World, v: World)
    requires NodeSide(w) && AckSide(w)
    requires v.node == w.node && v.past.accepted == w.past.accepted
    requires v.past.released == w.past.released && v.past.discarded == w.past.discarded
    requires forall x :: InHubCustody(w, x) ==> InHubCustody(v, x)
    requires w.acks <= v.acks
    requires forall k :: |w.acks| <= k < |v.acks| ==> Honest(v, v.acks[k])
    ensures NodeSide(v) && AckSide(v)
  {
    assert forall x :: NodeHolds(v, x) == NodeHolds(w, x);
    forall k | 0 <= k < |v.acks| ensures Honest(v, v.acks[k]) {
      if k < |w.acks| {
        assert v.acks[k] == w.acks[k];
        assert Honest(w, w.acks[k]);
      }
    }
  }

  /** What delivering a genuine packet does to the ledger. */
  lemma DeliveredLedger(g: Fates, w: World, packet: seq<u8>, ends: Endpoints)
    requires ValidEndpoints(ends.source, ends.hub) && Hub.LedgerInv(w.hub, HubIds(ends)) && Genuine(w.past, ends, packet)
    ensures DecodeEvent(packet).Some?
    ensures var e := DecodeEvent(packet).value;
      var (hub, status) := Hub.Admit(g, w.hub, HubIds(ends), e);
      var v := Delivered(g, ends, w, packet);
      && v.hub == hub && v.node == w.node && v.air == w.air
      && v.past == w.past.(admissions := if status == Hub.DURABLE_NEW_ADMISSION then w.past.admissions + [e.identity]
                                         else w.past.admissions)
      && (v.acks == w.acks || (|v.acks| == |w.acks| + 1 && w.acks <= v.acks))
      && (|v.acks| > |w.acks| ==>
            && DecodeAdmissionResponse(v.acks[|w.acks|]).Some?
            && DecodeAdmissionResponse(v.acks[|w.acks|]).value.identity == e.identity
            && WireStatus(status) == Some(DecodeAdmissionResponse(v.acks[|w.acks|]).value.status))
  {
    hide Hub.Admit, Hub.LedgerInv, DecodeEvent, DecodeAdmissionResponse, EncodeAdmissionResponse;
    var e := DecodeEvent(packet).value;
    AdapterAgreesWithDecoder(HubIds(ends), packet, e);
    AcknowledgementsMatch(g, w.hub, HubIds(ends), packet);
  }

  /** The ledger gained at most one ACTIVE entry, and lost at most a tombstone. */
  ghost predicate LedgerGained(h: Hub.Ledger, k: Hub.Ledger, e: Event) {
    k.slots == h.slots || Hub.AdmittedSomewhere(h, k, e)
  }

  lemma GainKeepsCustody(w: World, v: World, e: Event, x: Identity)
    requires LedgerGained(w.hub, v.hub, e) && v.past.consumed == w.past.consumed && v.past.accepted == w.past.accepted
    requires InHubCustody(w, x)
    ensures InHubCustody(v, x)
  {
    if x !in w.past.consumed {
      var i :| 0 <= i < 8 && w.hub.slots[i].Active() && w.hub.slots[i].identity == x
               && w.hub.slots[i].content == w.past.accepted[x];
      if v.hub.slots != w.hub.slots {
        var j: SlotIndex, ordinal: u32 :| Hub.AdmittedInto(w.hub, v.hub, e, j, ordinal);
        assert v.hub.slots[i] == w.hub.slots[i];
      }
    }
  }

  lemma GainKeepsHubSide(w: World, v: World, e: Event)
    requires HubSide(w) && LedgerGained(w.hub, v.hub, e) && AcceptedAs(w.past, e.identity, e.content)
    requires v.past.consumed == w.past.consumed && v.past.accepted == w.past.accepted
    ensures HubSide(v)
  {
    if v.hub.slots != w.hub.slots {
      var j: SlotIndex, ordinal: u32 :| Hub.AdmittedInto(w.hub, v.hub, e, j, ordinal);
      assert forall i :: 0 <= i < 8 && i != j ==> v.hub.slots[i] == w.hub.slots[i];
    }
  }

  /** An admission answered ADMITTED leaves the Event in Hub custody with the accepted content. */
  lemma AdmittedIsInCustody(g: Fates, w: World, v: World, e: Event, ends: Endpoints)
    requires HubSide(w) && Hub.LedgerInv(w.hub, HubIds(ends)) && AcceptedAs(w.past, e.identity, e.content)
    requires v.hub == Hub.Admit(g, w.hub, HubIds(ends), e).0
    requires v.past.consumed == w.past.consumed && v.past.accepted == w.past.accepted
    requires WireStatus(Hub.Admit(g, w.hub, HubIds(ends), e).1) == Some(ADMITTED)
    ensures InHubCustody(v, e.identity)
  {
    hide Hub.Admit, Hub.LedgerInv;
    Hub.AdmitStep(g, w.hub, HubIds(ends), e);
    var status := Hub.Admit(g, w.hub, HubIds(ends), e).1;
    if status == Hub.DURABLE_NEW_ADMISSION {
      var j: SlotIndex, ordinal: u32 :| Hub.AdmittedInto(w.hub, v.hub, e, j, ordinal);
      assert v.hub.slots[j] == Hub.NewEntry(e, ordinal);
    } else {
      var i: SlotIndex :| Hub.Owns(w.hub.slots[i], e.source, e.identity) && w.hub.slots[i].content == e.content;
      assert v.hub.slots[i] == w.hub.slots[i];
    }
  }

  /** Admitting an accepted Event keeps the ledger's side and all custody. */
  lemma AdmissionKeepsLedger(g: Fates, w: World, v: World, e: Event, ends: Endpoints)
    requires HubSide(w) && Hub.LedgerInv(w.hub, HubIds(ends)) && AcceptedAs(w.past, e.identity, e.content)
    requires v.hub == Hub.Admit(g, w.hub, HubIds(ends), e).0
    requires v.past.consumed == w.past.consumed && v.past.accepted == w.past.accepted
    ensures HubSide(v) && Hub.LedgerInv(v.hub, HubIds(ends))
    ensures forall x :: InHubCustody(w, x) ==> InHubCustody(v, x)
    ensures WireStatus(Hub.Admit(g, w.hub, HubIds(ends), e).1) == Some(ADMITTED) ==> InHubCustody(v, e.identity)
  {
    hide Hub.Admit, HubSide, Hub.LedgerInv, InHubCustody;
    Hub.AdmitStep(g, w.hub, HubIds(ends), e);
    GainKeepsHubSide(w, v, e);
    forall x | InHubCustody(w, x) ensures InHubCustody(v, x) {
      GainKeepsCustody(w, v, e, x);
    }
    if WireStatus(Hub.Admit(g, w.hub, HubIds(ends), e).1) == Some(ADMITTED) {
      AdmittedIsInCustody(g, w, v, e, ends);
    }
  }

  lemma SentIsGenuine(w: World, index: nat, ends: Endpoints)
    requires AirSide(w, ends) && index < |w.air|
    ensures Genuine(w.past, ends, w.air[index]) && FifoAir(w.air) && DecodeEvent(w.air[index]).Some?
    ensures var e := DecodeEvent(w.air[index]).value;
      e.source == ends.source && e.identity == SentIdentity(w.air[index]) && AcceptedAs(w.past, e.identity, e.content)
  {
    hide CountSent, DecodeEvent;
  }

  lemma DeliverStep(g: Fates, w: World, index: nat, ends: Endpoints)
    requires WorldInv(w, ends) && ValidEndpoints(ends.source, ends.hub) && index < |w.air|
    ensures WorldInv(Delivered(g, ends, w, w.air[index]), ends)
  {
    hide NodeInv, Delivered, Hub.Admit, NodeSide, HubSide, AckSide, Hub.LedgerInv, DecodeEvent, DecodeAdmissionResponse,
      InHubCustody, AirSide, Genuine, Hub.ValidateAdmission, FifoAir, SentIdentity;
    var packet := w.air[index];
    SentIsGenuine(w, index, ends);
    DeliveredLedger(g, w, packet, ends);
    var v := Delivered(g, ends, w, packet);
    AdmissionKeepsLedger(g, w, v, DecodeEvent(packet).value, ends);
    HubChangeKeepsSides(w, v);
    AirSideOnlyNode(w, v, ends);
  }

  lemma AirSideOnlyNode(w: World, v: World, ends: Endpoints)
    requires AirSide(w, ends) && v.node == w.node && v.air == w.air && v.past.accepted == w.past.accepted
    ensures AirSide(v, ends)
  {
    hide DecodeEvent;
    forall k | 0 <= k < |v.air| ensures Genuine(v.past, ends, v.air[k]) {
      assert Genuine(w.past, ends, w.air[k]);
    }
  }

  lemma ConsumeKeepsCustody(w: World, v: World, identity: Identity, x: Identity, ends: Endpoints)
    requires InHubCustody(w, x) && v.past.accepted == w.past.accepted
    requires v.hub.slots == w.hub.slots || exists i: SlotIndex :: Hub.ConsumedAt(w.hub, v.hub, ends.source, identity, i)
    requires v.hub.slots != w.hub.slots ==> identity in v.past.consumed
    requires w.past.consumed <= v.past.consumed
    ensures InHubCustody(v, x)
  {
    if x !in v.past.consumed {
      var i :| 0 <= i < 8 && w.hub.slots[i].Active() && w.hub.slots[i].identity == x
               && w.hub.slots[i].content == w.past.accepted[x];
      assert v.hub.slots[i] == w.hub.slots[i];
    }
  }

  /** No other entry has the consumed identity, so none stays ACTIVE under it. */
  lemma ConsumedIsGone(w: World, v: World, identity: Identity, i: SlotIndex, ends: Endpoints)
    requires Hub.LedgerInv(w.hub, HubIds(ends)) && Hub.ConsumedAt(w.hub, v.hub, ends.source, identity, i)
    ensures HoldsActive(w.hub.slots, identity) && !HoldsActive(v.hub.slots, identity)
  {
  }

  lemma ConsumeEventStep(f: Fates, g: Fates, w: World, identity: Identity, ends: Endpoints)
    requires WorldInv(w, ends)
    ensures WorldInv(Step(f, g, ends, w, ConsumeEvent(identity)), ends)
  {
    hide NodeInv, NodeSide, AirSide, AckSide, Hub.LedgerInv, Hub.Consume, InHubCustody;
    Hub.ConsumeStep(g, w.hub, HubIds(ends), ends.source, identity);
    var v := Step(f, g, ends, w, ConsumeEvent(identity));
    if v.hub.slots != w.hub.slots {
      var i: SlotIndex :| Hub.ConsumedAt(w.hub, v.hub, ends.source, identity, i);
      ConsumedIsGone(w, v, identity, i, ends);
    }
    forall x | InHubCustody(w, x) ensures InHubCustody(v, x) {
      ConsumeKeepsCustody(w, v, identity, x, ends);
    }
    HubChangeKeepsSides(w, v);
    AirSideOnlyNode(w, v, ends);
  }

  lemma RebootHubStep(f: Fates, g: Fates, w: World, ends: Endpoints)
    requires WorldInv(w, ends) && ValidEndpoints(ends.source, ends.hub)
    ensures WorldInv(Step(f, g, ends, w, RebootHub), ends)
  {
    hide NodeInv, NodeSide, AirSide, AckSide, Hub.LedgerInv, Hub.Recover, InHubCustody;
    Hub.RecoverStep(w.hub, HubIds(ends));
    var v := Step(f, g, ends, w, RebootHub);
    forall x | InHubCustody(w, x) ensures InHubCustody(v, x) {
      CustodyPersists(w, v, x);
    }
    HubChangeKeepsSides(w, v);
    AirSideOnlyNode(w, v, ends);
  }

  // ----- every run

  lemma StepKeepsInv(f: Fates, g: Fates, ends: Endpoints, w: World, op: Op)
    requires WorldInv(w, ends) && ValidEndpoints(ends.source, ends.hub)
    ensures WorldInv(Step(f, g, ends, w, op), ends)
  {
    assert NodeInv(w.node, ends);
    hide WorldInv, NodeInv, ControllerService, TxStarted, TxStartFailed, TxCompleted, GrantTransmit, Create,
      AdmissionCandidate, ReclaimTerminals, PowerUp, Delivered, Hub.Consume, Hub.Recover, NodeMoved, EventCreated;
    match op
    case CreateEvent(input, now) => CreateEventStep(f, w, input, now, ends);
    case ServiceNode(now, busy, jitter) =>
      ControllerServiceStep(f, w.node, now, busy, jitter, ends);
      KeepsStep(w, ControllerService(f, w.node, now, busy, jitter).0, ends);
    case Grant(now, sequence) => GrantStep(f, g, w, now, sequence, ends);
    case Started(now) =>
      TxStartedStep(f, w.node, now, ends);
      KeepsStep(w, TxStarted(f, w.node, now).0, ends);
    case StartFailed(now, jitter) =>
      TxStartFailedStep(f, w.node, now, jitter, ends);
      KeepsStep(w, TxStartFailed(f, w.node, now, jitter).0, ends);
    case Completed(now) =>
      TxCompletedStep(f, w.node, now, ends);
      KeepsStep(w, TxCompleted(f, w.node, now).0, ends);
    case Hear(packet, now, jitter) =>
      if Audible(w, packet) {
        HearStep(f, w, packet, now, jitter, ends);
      }
    case ReclaimNode => ReclaimNodeStep(f, w, ends);
    case RebootNode(now, entropy) => RebootNodeStep(f, w, now, entropy, ends);
    case Deliver(index) =>
      if index < |w.air| {
        DeliverStep(g, w, index, ends);
      }
    case ConsumeEvent(identity) => ConsumeEventStep(f, g, w, identity, ends);
    case RebootHub => RebootHubStep(f, g, w, ends);
  }

  lemma {:induction false} RunKeepsInv(f: Fates, g: Fates, ends: Endpoints, w: World, ops: seq<Op>)
    requires WorldInv(w, ends) && ValidEndpoints(ends.source, ends.hub)
    ensures WorldInv(Run(f, g, ends, w, ops), ends)
    decreases |ops|
  {
    hide WorldInv, Step;
    if ops != [] {
      RunKeepsInv(f, g, ends, w, ops[..|ops| - 1]);
      StepKeepsInv(f, g, ends, Run(f, g, ends, w, ops[..|ops| - 1]), ops[|ops| - 1]);
    }
  }
}
