/** What holds over every run of the structured operation path. */
module StructuredGuarantees {
  import opened Words
  import opened EventProtocol
  import opened WireOperations
  import NodeOperations
  import opened StructuredOperations

  // ----- the Hub side

  datatype HubOp =
    | SubmitOp(requestId: u16, minor: u8, payload: seq<u8>, setting: Setting, local: LocalOutcome)
    | ReceiveOp(packet: Packet)
    | ServiceOp(now: u32)
    | ConnectOp(connected: bool)
    | ConfigureOp(support: PeerSupport)
    | ResetOp

  /**
   One accepted request: the commands sent for it, its retry limit, the responses
   that ended it, and whether a reset of the Hub abandoned it.
   */
  datatype Accepted = Accepted(
    requestId: u16, minor: u8, payload: seq<u8>, commands: seq<Packet>, limit: nat, outcomes: seq<Outcome>, abandoned: bool)

  /** A terminal response, with the request id it was returned under. */
  datatype Outcome = Outcome(requestId: u16, response: HostResponse)

  /** A command on the air, with the number of the transaction it belongs to. */
  datatype Sent = Sent(index: nat, packet: Packet)

  datatype HubRun = HubRun(l: Lifecycle, log: seq<Accepted>, finished: nat, sent: seq<Sent>)

  const NEW_HUB := HubRun(NEW_LIFECYCLE, [], 0, [])

  /** What one operation did to the logs. */
  function Record(h: HubRun, m: Lifecycle, result: LifecycleResult): HubRun
    requires h.log != []
  {
    var last := h.log[|h.log| - 1];
    match result
    case Transmit(packet) =>
      h.(l := m, log := h.log[|h.log| - 1 := last.(commands := last.commands + [packet])],
         sent := h.sent + [Sent(h.finished, packet)])
    case Answered(requestId, response, _) =>
      h.(l := m, log := h.log[|h.log| - 1 := last.(outcomes := last.outcomes + [Outcome(requestId, response)])],
         finished := h.finished + 1)
    case _ => h.(l := m)
  }

  function HubSubmit(h: HubRun, op: HubOp): HubRun
    requires op.SubmitOp?
  {
    var (m, result) := Submit(h.l, op.requestId, op.minor, op.payload, op.setting, op.local);
    if m.state == h.l.state && m.entry == h.l.entry then h.(l := m)
    else
      match result
      case Transmit(packet) =>
        h.(l := m, log := h.log + [Accepted(op.requestId, op.minor, op.payload, [packet], op.setting.maxRetries, [], false)],
           sent := h.sent + [Sent(h.finished, packet)])
      case Answered(requestId, response, _) =>
        h.(l := m, log := h.log + [Accepted(op.requestId, op.minor, op.payload, [], 0, [Outcome(requestId, response)], false)])
      case _ => h.(l := m)
  }

  /** A reboot of the Hub or a reset of its lifecycle: everything is forgotten, sequence numbers start again. */
  function HubReset(h: HubRun): HubRun {
    var log :=
      if h.l.state == ACTIVE_REQUEST && h.log != [] then h.log[|h.log| - 1 := h.log[|h.log| - 1].(abandoned := true)]
      else h.log;
    HubRun(NEW_LIFECYCLE, log, h.finished + 1, h.sent)
  }

  function HubStep(h: HubRun, op: HubOp): HubRun {
    match op
    case SubmitOp(_, _, _, _, _) => HubSubmit(h, op)
    case ReceiveOp(packet) =>
      var (m, result) := Receive(h.l, packet);
      if h.log == [] then h.(l := m) else Record(h, m, result)
    case ServiceOp(now) =>
      var (m, result) := Service(h.l, now);
      if h.log == [] then h.(l := m) else Record(h, m, result)
    case ConnectOp(connected) => h.(l := h.l.(connected := connected))
    case ConfigureOp(support) => h.(l := h.l.(bridge := h.l.bridge.(support := support)))
    case ResetOp => HubReset(h)
  }

  /** The request is active exactly while the bridge is, exactly while its transaction is. */
  predicate LifecycleInv(l: Lifecycle) {
    && (l.state == ACTIVE_REQUEST <==> l.bridge.active)
    && (l.bridge.active <==> l.bridge.transaction.phase != IDLE_PHASE)
    && (l.state == COMPLETED ==> l.entry.response.Some?)
    && l.bridge.transaction.retries <= l.bridge.transaction.maxRetries
  }

  predicate AllEqual(commands: seq<Packet>, packet: Packet) {
    forall i :: 0 <= i < |commands| ==> commands[i] == packet
  }

  /** At most one command per allowed try, all alike. */
  predicate Bounded(a: Accepted) {
    |a.commands| <= 1 + a.limit && (a.commands != [] ==> AllEqual(a.commands, a.commands[0]))
  }

  /** Its responses were returned under its own id. */
  predicate Correlated(a: Accepted) {
    forall i :: 0 <= i < |a.outcomes| ==> a.outcomes[i].requestId == a.requestId
  }

  /** Over: with exactly one terminal response, or abandoned with none. */
  predicate Settled(a: Accepted) {
    Bounded(a) && Correlated(a) && |a.outcomes| == if a.abandoned then 0 else 1
  }

  predicate InProgress(a: Accepted, t: Transaction) {
    && a.outcomes == [] && !a.abandoned && a.limit == t.maxRetries
    && |a.commands| == 1 + t.retries as int && AllEqual(a.commands, t.command)
  }

  predicate LogInv(h: HubRun) {
    && (forall i :: 0 <= i < |h.log| - 1 ==> Settled(h.log[i]))
    && (h.l.state == EMPTY && h.log != [] ==> Settled(h.log[|h.log| - 1]))
    && (h.l.state != EMPTY ==>
          && h.log != [] && h.l.entry.requestId != 0
          && h.log[|h.log| - 1].requestId == h.l.entry.requestId && h.log[|h.log| - 1].payload == h.l.entry.payload)
    && (h.l.state == ACTIVE_REQUEST ==> InProgress(h.log[|h.log| - 1], h.l.bridge.transaction))
    && (h.l.state == COMPLETED ==>
          && Settled(h.log[|h.log| - 1])
          && h.l.entry.response.Some? && h.log[|h.log| - 1].outcomes == [Outcome(h.l.entry.requestId, h.l.entry.response.value)])
  }

  /** Transactions are numbered in order over all Hub resets, and a number stands for one packet. */
  predicate SentInv(h: HubRun) {
    && (forall i :: 0 <= i < |h.sent| ==>
          && h.sent[i].index <= h.finished
          && (h.sent[i].index == h.finished ==> h.l.bridge.active && h.sent[i].packet == h.l.bridge.transaction.command))
    && (forall i, j :: 0 <= i <= j < |h.sent| ==> h.sent[i].index <= h.sent[j].index)
    && (forall i, j :: 0 <= i < |h.sent| && 0 <= j < |h.sent| && h.sent[i].index == h.sent[j].index ==>
          h.sent[i].packet == h.sent[j].packet)
  }

  predicate HubInv(h: HubRun) {
    match h
    case HubRun(l, _, _, _) => LifecycleInv(l) && LogInv(h) && SentInv(h)
  }

  // ----- the pieces keep the invariant

  /** What a bridge call did, seen from the transaction. */
  predicate BridgeStepped(b: Bridge, d: Bridge, result: BridgeResult) {
    match result
    case Quiet => d.active == b.active && d.nextSequence == b.nextSequence && SameTransaction(b, d, 0)
    case SendCommand(packet) =>
      b.active && d.active && d.nextSequence == b.nextSequence && packet == b.transaction.command && SameTransaction(b, d, 1)
    case Respond(_) => b.active && !d.active && d.nextSequence == Wrap8(b.nextSequence + 1) && d.transaction.phase == IDLE_PHASE
    case _ => false
  }

  predicate SameTransaction(b: Bridge, d: Bridge, more: nat) {
    && (d.transaction.phase == IDLE_PHASE <==> b.transaction.phase == IDLE_PHASE)
    && d.transaction.command == b.transaction.command
    && d.transaction.maxRetries == b.transaction.maxRetries
    && d.transaction.retries == b.transaction.retries as int + more <= b.transaction.maxRetries
  }

  predicate BridgeInv(b: Bridge) {
    (b.active <==> b.transaction.phase != IDLE_PHASE) && b.transaction.retries <= b.transaction.maxRetries
  }

  lemma BridgeReceiveStep(b: Bridge, p: Packet)
    requires BridgeInv(b)
    ensures BridgeStepped(b, BridgeReceive(b, p).0, BridgeReceive(b, p).1)
    ensures BridgeInv(BridgeReceive(b, p).0)
  {
  }

  lemma BridgeServiceStep(b: Bridge, now: u32)
    requires BridgeInv(b)
    ensures BridgeStepped(b, BridgeService(b, now).0, BridgeService(b, now).1)
    ensures BridgeInv(BridgeService(b, now).0)
  {
  }

  /** A packet from the peer about the command of the transaction. */
  predicate Correlates(b: Bridge, p: Packet) {
    var command := b.transaction.command;
    p.source == command.destination && p.destination == command.source && p.sequence == command.sequence && p.opcode == command.opcode
  }

  predicate CarriesResult(b: Bridge, p: Packet) {
    && Correlates(b, p) && p.kind == RESPONSE && DecodeResponse(p.opcode, p.payload).Some?
    && DecodeResponse(p.opcode, p.payload).value.target == b.transaction.target
  }

  predicate CarriesRejection(b: Bridge, p: Packet) {
    Correlates(b, p) && p.kind == ACK && |p.payload| == 1 && (p.payload[0] == 1 || p.payload[0] == 2)
  }

  /**
   What the Host is told about a packet: a correlated result that decodes for the
   right target is passed on with its own status and value, a correlated rejection
   is reported as such, and any other packet as nothing.
   */
  predicate ToldHost(b: Bridge, p: Packet, d: Bridge, result: BridgeResult) {
    if !b.active then result == Quiet && d == b
    else if CarriesResult(b, p) then
      var answer := DecodeResponse(p.opcode, p.payload).value;
      && result == Respond(HostResponse(b.request, OPERATION_RESULT, answer.status, answer.value))
      && !d.active && d.support == SUPPORTED
    else if CarriesRejection(b, p) then
      && result == Respond(HostResponse(b.request, RADIO_RESULT, 7, NO_VALUE)) && !d.active
      && d.support == if p.opcode == PING && p.payload[0] == 1 then UNSUPPORTED else b.transaction.support
    else
      result == Quiet && d.active && d.request == b.request && d.transaction.command == b.transaction.command
      && d.transaction.target == b.transaction.target
  }

  lemma BridgeReceiveEffects(b: Bridge, p: Packet)
    requires BridgeInv(b)
    ensures ToldHost(b, p, BridgeReceive(b, p).0, BridgeReceive(b, p).1)
  {
    hide DecodeResponse;
  }

  /** What a clock reading does: a repeat while sends are left, then the timeout, each only once the deadline is reached. */
  lemma BridgeServiceEffects(b: Bridge, now: u32)
    requires BridgeInv(b)
    ensures var (d, result) := BridgeService(b, now);
      var due := Wrap32(now - b.transaction.deadline) < 0x8000_0000;
      && (!b.active || !due ==> result == Quiet && d == b)
      && (b.active && due && b.transaction.retries < b.transaction.maxRetries ==>
            && result == SendCommand(b.transaction.command) && d.active && d.request == b.request
            && d.transaction == b.transaction.(retries := b.transaction.retries + 1))
      && (b.active && due && b.transaction.retries == b.transaction.maxRetries ==>
            result == Respond(HostResponse(b.request, RADIO_RESULT, 6, NO_VALUE)) && !d.active)
  {
  }

  lemma RemoteStep(h: HubRun, d: Bridge, result: BridgeResult)
    requires HubInv(h) && BridgeInv(d) && BridgeStepped(h.l.bridge, d, result)
    ensures var (m, r) := ConsumeRemote(h.l.(bridge := d), result);
      HubInv(if h.log == [] then h.(l := m) else Record(h, m, r))
  {
    RemoteKeepsLog(h, d, result);
    RemoteKeepsSent(h, d, result);
  }

  lemma RemoteKeepsLog(h: HubRun, d: Bridge, result: BridgeResult)
    requires HubInv(h) && BridgeInv(d) && BridgeStepped(h.l.bridge, d, result)
    ensures var (m, r) := ConsumeRemote(h.l.(bridge := d), result);
      LifecycleInv(m) && LogInv(if h.log == [] then h.(l := m) else Record(h, m, r))
  {
    hide SentInv;
    var (m, r) := ConsumeRemote(h.l.(bridge := d), result);
    if h.log != [] {
      var g := Record(h, m, r);
      assert forall i :: 0 <= i < |h.log| - 1 ==> g.log[i] == h.log[i];
    }
  }

  lemma RemoteKeepsSent(h: HubRun, d: Bridge, result: BridgeResult)
    requires HubInv(h) && BridgeInv(d) && BridgeStepped(h.l.bridge, d, result)
    ensures var (m, r) := ConsumeRemote(h.l.(bridge := d), result);
      SentInv(if h.log == [] then h.(l := m) else Record(h, m, r))
  {
    assert h.log == [] ==> h.l.state == EMPTY;
    hide LogInv;
  }

  /** A submission changes nothing, completes locally, or starts one transaction with one command. */
  predicate SubmitEffect(l: Lifecycle, m: Lifecycle, result: LifecycleResult, op: HubOp)
    requires op.SubmitOp?
  {
    || (m == l && !result.Transmit?)
    || (&& l.state != ACTIVE_REQUEST && 0 != op.requestId && (l.state == EMPTY || l.entry.requestId != op.requestId)
        && result.Answered? && result.requestId == op.requestId
        && m == CompleteWith(Accept(l, op.requestId, op.minor, op.payload), result.response))
    || (&& l.state != ACTIVE_REQUEST && 0 != op.requestId && (l.state == EMPTY || l.entry.requestId != op.requestId)
        && result.Transmit?
        && m == Accept(l.(bridge := m.bridge), op.requestId, op.minor, op.payload)
        && Started(l.bridge, m.bridge, result.packet, op.setting.maxRetries))
  }

  predicate Started(b: Bridge, d: Bridge, packet: Packet, limit: u8) {
    && !b.active && d.active && d.nextSequence == b.nextSequence == packet.sequence
    && d.transaction.phase == AWAITING_ACK && d.transaction.command == packet
    && d.transaction.retries == 0 && d.transaction.maxRetries == limit
  }

  lemma SubmitCases(l: Lifecycle, op: HubOp)
    requires LifecycleInv(l) && op.SubmitOp?
    ensures var (m, result) := Submit(l, op.requestId, op.minor, op.payload, op.setting, op.local);
      SubmitEffect(l, m, result, op)
  {
    hide Begin, DecodeHostRequest;
    if DecodeHostRequest(op.minor, op.payload).Some? {
      BridgeSubmitCases(l.bridge, op.requestId, DecodeHostRequest(op.minor, op.payload).value, op.setting);
      hide BridgeSubmit;
    }
  }

  lemma BridgeSubmitCases(b: Bridge, requestId: u16, request: HostRequest, s: Setting)
    requires BridgeInv(b)
    ensures var (d, result) := BridgeSubmit(b, requestId, request, s);
      if result.SendCommand? then Started(b, d, result.packet, s.maxRetries) else d == b
  {
  }

  /**
   Which refusal answers which circumstance, none of them changing anything: a
   busy lifecycle, an unsupported pair, a wrong target, and a peer that may not be
   asked yet.  No retained request under the same id stands in the way.
   */
  lemma RefusalsAreTold(l: Lifecycle, requestId: u16, minor: u8, payload: seq<u8>, s: Setting, local: LocalOutcome)
    requires LifecycleInv(l) && requestId != 0 && DecodeHostRequest(minor, payload).Some?
    requires l.state == EMPTY || requestId != l.entry.requestId
    ensures var r := DecodeHostRequest(minor, payload).value;
      var remote := r.device != s.local && r.category != EVENT_CATEGORY;
      var told := Submit(l, requestId, minor, payload, s, local);
      && (l.state == ACTIVE_REQUEST ==> told == (l, Answered(requestId, HostResponse(r, REQUEST_REJECTED, 4, NO_VALUE), l.connected)))
      && (l.state != ACTIVE_REQUEST && remote && !SupportedPair(1, r.category, r.operation) && minor == 1 ==>
            told == (l, Answered(requestId, HostResponse(r, REQUEST_REJECTED, 2, NO_VALUE), l.connected)))
      && (l.state != ACTIVE_REQUEST && remote && Validate(1, r) == VALID_REQUEST && (!s.isHub || r.device != s.peer) ==>
            told == (l, Answered(requestId, HostResponse(r, REQUEST_REJECTED, 3, NO_VALUE), l.connected)))
      && (l.state != ACTIVE_REQUEST && remote && Validate(1, r) == VALID_REQUEST && s.isHub && r.device == s.peer
          && !MayStart(l.bridge.support, r.operation, s.configured) ==>
            told == (l, Answered(requestId, HostResponse(r, REQUEST_REJECTED, 2, NO_VALUE), l.connected)))
      && (l.state != ACTIVE_REQUEST && !remote && local.Handled? ==>
            told.1 == Answered(requestId, local.response, l.connected))
  {
    DecodedFits(minor, payload);
    hide DecodeHostRequest, EncodeRequest, Begin;
  }

  lemma SubmitStep(h: HubRun, op: HubOp)
    requires HubInv(h) && op.SubmitOp?
    ensures HubInv(HubSubmit(h, op))
  {
    SubmitCases(h.l, op);
    hide Submit;
    var g := HubSubmit(h, op);
    var (m, result) := Submit(h.l, op.requestId, op.minor, op.payload, op.setting, op.local);
    if m != h.l {
      SubmitKeepsLog(h, g, m, result, op);
      SubmitKeepsSent(h, g, m, result, op);
    }
  }

  lemma SubmitKeepsLog(h: HubRun, g: HubRun, m: Lifecycle, result: LifecycleResult, op: HubOp)
    requires HubInv(h) && op.SubmitOp? && SubmitEffect(h.l, m, result, op) && m != h.l && g.l == m
    requires result.Transmit? ==> g.log == h.log + [Accepted(op.requestId, op.minor, op.payload, [result.packet], op.setting.maxRetries, [], false)]
    requires result.Answered? ==> g.log == h.log + [Accepted(op.requestId, op.minor, op.payload, [], 0, [Outcome(result.requestId, result.response)], false)]
    ensures LifecycleInv(m) && LogInv(g)
  {
    hide SentInv;
    forall i | 0 <= i < |g.log| - 1 ensures Settled(g.log[i]) {
      assert g.log[i] == h.log[i];
    }
  }

  lemma SubmitKeepsSent(h: HubRun, g: HubRun, m: Lifecycle, result: LifecycleResult, op: HubOp)
    requires HubInv(h) && op.SubmitOp? && SubmitEffect(h.l, m, result, op) && m != h.l && g.l == m
    requires g.finished == h.finished
    requires g.sent == if result.Transmit? then h.sent + [Sent(h.finished, result.packet)] else h.sent
    ensures SentInv(g)
  {
    hide LogInv;
  }

  lemma ResetStep(h: HubRun)
    requires HubInv(h)
    ensures HubInv(HubReset(h))
  {
    var g := HubReset(h);
    assert forall i :: 0 <= i < |h.log| - 1 ==> g.log[i] == h.log[i];
  }

  lemma HubStepKeeps(h: HubRun, op: HubOp)
    requires HubInv(h)
    ensures HubInv(HubStep(h, op))
  {
    hide BridgeReceive, BridgeService, Submit, HubSubmit, Record;
    match op
    case SubmitOp(_, _, _, _, _) => SubmitStep(h, op);
    case ReceiveOp(packet) =>
      BridgeReceiveStep(h.l.bridge, packet);
      RemoteStep(h, BridgeReceive(h.l.bridge, packet).0, BridgeReceive(h.l.bridge, packet).1);
    case ServiceOp(now) =>
      BridgeServiceStep(h.l.bridge, now);
      RemoteStep(h, BridgeService(h.l.bridge, now).0, BridgeService(h.l.bridge, now).1);
    case ConnectOp(_) =>
    case ConfigureOp(_) =>
    case ResetOp => ResetStep(h);
  }

  function RunHub(ops: seq<HubOp>): HubRun
    decreases |ops|
  {
    if ops == [] then NEW_HUB else HubStep(RunHub(ops[..|ops| - 1]), ops[|ops| - 1])
  }

  lemma {:induction false} RunHubKeeps(ops: seq<HubOp>)
    ensures HubInv(RunHub(ops))
    decreases |ops|
  {
    hide HubStep;
    if ops != [] {
      RunHubKeeps(ops[..|ops| - 1]);
      HubStepKeeps(RunHub(ops[..|ops| - 1]), ops[|ops| - 1]);
    }
  }

  /** How many terminal responses a request has: one once it is over, none while in progress or when abandoned. */
  function Endings(h: HubRun, i: nat): nat
    requires i < |h.log|
  {
    if h.log[i].abandoned || (i == |h.log| - 1 && h.l.state == ACTIVE_REQUEST) then 0 else 1
  }

  /**
   Over every run of submissions, arbitrary radio packets, clock readings,
   reconnections and Hub resets: lifecycle, bridge and transaction agree on
   whether a request is in progress; every accepted request sends at most one
   command plus its retries, all the same packet; and each has exactly one
   terminal response, returned under its own request id, except the one in
   progress and those a reset abandoned, which have none.
   */
  lemma RequestsAreBoundedAndAnsweredOnce(ops: seq<HubOp>)
    ensures var h := RunHub(ops);
      && (h.l.state == ACTIVE_REQUEST <==> h.l.bridge.active)
      && (h.l.bridge.active <==> h.l.bridge.transaction.phase != IDLE_PHASE)
      && (forall i :: 0 <= i < |h.log| ==> Bounded(h.log[i]) && Correlated(h.log[i]) && |h.log[i].outcomes| == Endings(h, i))
  {
    RunHubKeeps(ops);
    hide RunHub, SentInv;
    var h := RunHub(ops);
    forall i | 0 <= i < |h.log| ensures Bounded(h.log[i]) && Correlated(h.log[i]) && |h.log[i].outcomes| == Endings(h, i) {
      if i < |h.log| - 1 {
        assert Settled(h.log[i]);
      }
    }
  }

  /**
   After any run that left a completed request, resubmitting it gives the one
   response it ended with and changes nothing; the same id with another payload
   is refused as a mismatch and changes nothing either.
   */
  lemma RetainedResponseIsReplayed(ops: seq<HubOp>, minor: u8, payload: seq<u8>, setting: Setting, local: LocalOutcome)
    requires RunHub(ops).l.state == COMPLETED && DecodeHostRequest(minor, payload).Some?
    ensures var h := RunHub(ops);
      && h.log != [] && |h.log[|h.log| - 1].outcomes| == 1
      && Submit(h.l, h.l.entry.requestId, minor, payload, setting, local)
         == (h.l, Answered(h.log[|h.log| - 1].requestId,
                           if payload == h.log[|h.log| - 1].payload then h.log[|h.log| - 1].outcomes[0].response
                           else Rejection(DecodeHostRequest(minor, payload).value, MISMATCH),
                           h.l.connected))
  {
    RunHubKeeps(ops);
    hide RunHub, SentInv, SubmitLocal, SubmitRemote, Settled;
    DecodedFits(minor, payload);
    hide DecodeHostRequest;
    assert RunHub(ops).log != [];
    CompletedOnce(RunHub(ops));
  }

  lemma DecodedFits(minor: u8, payload: seq<u8>)
    requires DecodeHostRequest(minor, payload).Some?
    ensures |payload| <= 128
  {
  }

  lemma CompletedOnce(h: HubRun)
    requires LogInv(h) && h.l.state == COMPLETED
    ensures |h.log[|h.log| - 1].outcomes| == 1
  {
  }

  /** A request for the peer that nothing in the Hub's state or configuration stands against. */
  predicate Free(l: Lifecycle, requestId: u16, r: HostRequest, s: Setting) {
    && l.state != ACTIVE_REQUEST && requestId != 0 && (l.state == EMPTY || requestId != l.entry.requestId)
    && s.isHub && r.device == s.peer && r.device != s.local
    && MayStart(l.bridge.support, r.operation, s.configured)
  }

  /**
   After any run, a valid version 0.1 request for the peer that nothing stands
   against is always sent, as a command the Node decodes to exactly its target
   and value: the NOT_ACCEPTED outcomes of the bridge are unreachable for it.
   */
  lemma ValidRequestIsSent(ops: seq<HubOp>, requestId: u16, payload: seq<u8>, s: Setting, local: LocalOutcome)
    requires DecodeHostRequest(1, payload).Some? && Free(RunHub(ops).l, requestId, DecodeHostRequest(1, payload).value, s)
    ensures var r := DecodeHostRequest(1, payload).value;
      var (m, result) := Submit(RunHub(ops).l, requestId, 1, payload, s, local);
      && m.state == ACTIVE_REQUEST && result.Transmit?
      && result.packet.opcode == r.operation && result.packet.source == s.local && result.packet.destination == s.peer
      && DecodeRequest(r.operation, result.packet.payload) == Some(Request(r.target, r.value))
  {
    RunHubKeeps(ops);
    var r := DecodeHostRequest(1, payload).value;
    HostRequestsAreWireRequests(r);
    var command := EncodeRequest(r.operation, Request(r.target, r.value)).value;
    RequestBijection(r.operation, Request(r.target, r.value), command);
    hide RunHub, LogInv, SentInv, DecodeRequest, ValidRequest;
  }

  // ----- the Node behind an ordered link that loses and repeats

  /**
   `position` is the latest command delivered; `owner` the one the Node retains.
   `executed` counts executions by transaction since the Node last reset, and
   `replies` holds every reply the Node has made, with the command and the device
   it was made for.
   */
  datatype World = World(
    hub: HubRun, node: Retained, position: nat, owner: nat, executed: multiset<nat>, replies: seq<Reply>)

  datatype Reply = Reply(command: Packet, device: NodeOperations.Device, packet: Packet)

  datatype WorldOp = OnHub(op: HubOp) | Deliver(k: nat, local: u8, peer: u8) | ExecuteOp(device: NodeOperations.Device) | NodeReset

  const NEW_WORLD := World(NEW_HUB, Nothing, 0, 0, multiset{}, [])

  function WorldStep(w: World, op: WorldOp): World {
    match op
    case OnHub(hubOp) => w.(hub := HubStep(w.hub, hubOp))
    case Deliver(k, local, peer) =>
      if k < w.position || k >= |w.hub.sent| then w
      else
        var (r, outcome) := AdmitCommand(w.node, w.hub.sent[k].packet, local, peer);
        w.(node := r, position := k, owner := if outcome == ADMITTED_NEW then k else w.owner)
    case ExecuteOp(device) =>
      if !w.node.Pending? || w.owner >= |w.hub.sent| then w
      else
        var (node, reply) := Execute(device, w.node);
        w.(node := node, executed := w.executed + multiset{w.hub.sent[w.owner].index},
           replies := if reply.Some? then w.replies + [Reply(w.node.command, device, reply.value)] else w.replies)
    case NodeReset => w.(node := Nothing, executed := multiset{})
  }

  function RunWorld(ops: seq<WorldOp>): World
    decreases |ops|
  {
    if ops == [] then NEW_WORLD else WorldStep(RunWorld(ops[..|ops| - 1]), ops[|ops| - 1])
  }

  ghost predicate WorldInv(w: World) {
    match w
    case World(hub, node, position, owner, executed, _) =>
      && HubInv(hub)
      && (forall t :: executed[t] <= 1)
      && (node == Nothing ==> executed == multiset{})
      && (node != Nothing ==>
            && owner <= position < |hub.sent| && hub.sent[owner].packet == node.command
            && (forall t :: t in executed ==> t <= hub.sent[owner].index)
            && (node.Pending? ==>
                  DecodeRequest(node.command.opcode, node.command.payload).Some? && hub.sent[owner].index !in executed))
  }

  lemma HubKeepsSent(h: HubRun, op: HubOp)
    ensures |h.sent| <= |HubStep(h, op).sent| && HubStep(h, op).sent[..|h.sent|] == h.sent
  {
    hide Submit, Receive, Service;
  }

  /** A command later in the log than the retained one is the same transaction's repeat, or a later transaction's. */
  lemma DeliverStep(w: World, k: nat, local: u8, peer: u8)
    requires WorldInv(w)
    ensures WorldInv(WorldStep(w, Deliver(k, local, peer)))
  {
    hide LifecycleInv, LogInv, DecodeRequest;
    if w.position <= k < |w.hub.sent| && w.node != Nothing {
      assert w.hub.sent[w.owner].index <= w.hub.sent[k].index;
    }
  }

  /** Executing the pending operation always completes it, whatever the device. */
  lemma ExecutionCompletes(d: NodeOperations.Device, r: Retained)
    requires r.Pending? && DecodeRequest(r.command.opcode, r.command.payload).Some?
    ensures Execute(d, r).0.Complete? && Execute(d, r).0.command == r.command
    ensures Execute(d, r).1.Some?
    ensures var request := DecodeRequest(r.command.opcode, r.command.payload).value;
      DecodeResponse(r.command.opcode, Execute(d, r).1.value.payload)
        == Some(NodeOperations.ExecuteOperation(d, r.command.opcode, request))
  {
    NodeOperations.EveryReplyEncodes(d, r.command.opcode, r.command.payload);
    hide NodeOperations.ReplyPayload, DecodeRequest, DecodeResponse, NodeOperations.ExecuteOperation;
  }

  /** A repeat of the retained command is recognised and leaves it alone, executed or not; anything newer waits for a pending one. */
  lemma RepeatIsRecognised(r: Retained, command: Packet, local: u8, peer: u8)
    requires r != Nothing && command.kind == COMMAND && command.destination == local && command.source == peer
    requires StructuredOpcode(command.opcode) && DecodeRequest(command.opcode, command.payload).Some?
    ensures command == r.command ==>
      AdmitCommand(r, command, local, peer) == (r, if r.Pending? then DUPLICATE_PENDING else DUPLICATE_COMPLETE)
    ensures command.sequence != r.command.sequence ==>
      AdmitCommand(r, command, local, peer) == if r.Pending? then (r, ACTIVE_BUSY) else (Pending(command), ADMITTED_NEW)
  {
    hide DecodeRequest;
  }

  lemma WorldStepKeeps(w: World, op: WorldOp)
    requires WorldInv(w)
    ensures WorldInv(WorldStep(w, op))
  {
    hide HubInv, HubStep, DecodeRequest, Execute;
    match op
    case OnHub(hubOp) =>
      HubStepKeeps(w.hub, hubOp);
      HubKeepsSent(w.hub, hubOp);
      assert forall i :: 0 <= i < |w.hub.sent| ==> HubStep(w.hub, hubOp).sent[..|w.hub.sent|][i] == w.hub.sent[i];
    case Deliver(k, local, peer) => DeliverStep(w, k, local, peer);
    case ExecuteOp(device) =>
      if w.node.Pending? {
        ExecutionCompletes(device, w.node);
      }
    case NodeReset =>
  }

  lemma {:induction false} RunWorldKeeps(ops: seq<WorldOp>)
    ensures WorldInv(RunWorld(ops))
    decreases |ops|
  {
    hide WorldStep, HubInv;
    if ops == [] {
      NewWorldInv();
    } else {
      RunWorldKeeps(ops[..|ops| - 1]);
      WorldStepKeeps(RunWorld(ops[..|ops| - 1]), ops[|ops| - 1]);
    }
  }

  lemma NewWorldInv()
    ensures WorldInv(NEW_WORLD)
  {
  }

  /**
   Over every run with an order-preserving link that may lose and repeat
   commands, any device state at each execution, and any Hub resets: the Node
   executes each Hub transaction at most once between its own resets.
   */
  lemma ExecutesAtMostOnce(ops: seq<WorldOp>, t: nat)
    ensures RunWorld(ops).executed[t] <= 1
  {
    RunWorldKeeps(ops);
  }
}
