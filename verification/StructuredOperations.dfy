/**
 Structured operations: the Node's retained operation and the Hub's transaction
 (lib/wire_operations/src/wire_transaction_state.h), the bridge between Host
 requests and radio transactions (lib/radio_operation_bridge/src/radio_operation_bridge.h)
 and the Host request lifecycle (lib/host_operation_lifecycle/src/host_operation_lifecycle.h).
 */
module StructuredOperations {
  import opened Words
  import opened EventProtocol
  import opened WireOperations
  import NodeOperations

  datatype ResultClass = SUCCESS_RESULT | REQUEST_REJECTED | OPERATION_RESULT | RADIO_RESULT | LOCAL_RESULT | EVENT_RESULT

  datatype HostResponse = HostResponse(request: HostRequest, resultClass: ResultClass, code: u8, value: Value)

  const MALFORMED_REQUEST: u8 := 1
  const UNSUPPORTED_OPERATION: u8 := 2
  const BAD_TARGET: u8 := 3
  const BUSY_CODE: u8 := 4
  const TIMEOUT_CODE: u8 := 6
  const REMOTE_REJECTED_CODE: u8 := 7
  const MISMATCH: u8 := 8

  // ----- the Node: one retained operation

  datatype Retained = Nothing | Pending(command: Packet) | Complete(command: Packet, response: Packet)

  datatype AdmissionOutcome =
    | IGNORED | UNSUPPORTED_OPCODE | MALFORMED | ADMITTED_NEW | DUPLICATE_PENDING | DUPLICATE_COMPLETE | ACTIVE_BUSY

  /** Same sender, sequence, opcode and payload as the retained command. */
  predicate IsDuplicate(r: Retained, command: Packet) {
    && !r.Nothing? && r.command.source == command.source && r.command.sequence == command.sequence
    && r.command.opcode == command.opcode && r.command.payload == command.payload
  }

  function AdmitCommand(r: Retained, command: Packet, local: u8, peer: u8): (Retained, AdmissionOutcome) {
    if command.destination != local || command.source != peer || command.kind != COMMAND then (r, IGNORED)
    else if !StructuredOpcode(command.opcode) then (r, UNSUPPORTED_OPCODE)
    else if DecodeRequest(command.opcode, command.payload).None? then (r, MALFORMED)
    else if IsDuplicate(r, command) then (r, if r.Complete? then DUPLICATE_COMPLETE else DUPLICATE_PENDING)
    else if r.Pending? then (r, ACTIVE_BUSY)
    else (Pending(command), ADMITTED_NEW)
  }

  function ReplyPacket(command: Packet, payload: seq<u8>): Packet {
    Packet(RESPONSE, command.destination, command.source, command.sequence, command.opcode, payload)
  }

  /** A reply the retained operation accepts as final. */
  predicate AcceptableReply(command: Packet, payload: seq<u8>) {
    && payload != []
    && DecodeRequest(command.opcode, command.payload).Some?
    && DecodeResponse(command.opcode, payload).Some?
    && DecodeResponse(command.opcode, payload).value.target == DecodeRequest(command.opcode, command.payload).value.target
  }

  /** Execute the pending operation on the device; a reply that is not acceptable leaves it pending. */
  function Execute(d: NodeOperations.Device, r: Retained): (Retained, Option<Packet>) {
    if !r.Pending? then (r, None)
    else
      var reply := NodeOperations.ReplyPayload(d, r.command.opcode, r.command.payload);
      if !AcceptableReply(r.command, reply) then (r, None)
      else (Complete(r.command, ReplyPacket(r.command, reply)), Some(ReplyPacket(r.command, reply)))
  }

  // ----- the Hub: one transaction

  datatype PeerSupport = UNKNOWN | SUPPORTED | UNSUPPORTED
  datatype StructuredPhase = IDLE_PHASE | AWAITING_ACK | AWAITING_RESPONSE
  datatype StructuredEvent =
    | NO_EVENT | ACK_ACCEPTED | REMOTE_REJECTED | RESPONSE_COMPLETE | MALFORMED_IGNORED | MISMATCH_IGNORED
    | RETRANSMIT | TIMEOUT

  const NO_PACKET := Packet(COMMAND, 0, 0, 0, 0, [])

  datatype Transaction = Transaction(
    phase: StructuredPhase, support: PeerSupport, command: Packet, result: Response, target: u16,
    deadline: u32, retries: u8, maxRetries: u8)

  const NO_TRANSACTION := Transaction(IDLE_PHASE, UNKNOWN, NO_PACKET, Response(0, 0, NO_VALUE), 0, 0, 0, 0)

  function Begin(t: Transaction, command: Packet, now: u32, timeout: u32, maxRetries: u8): (Transaction, bool) {
    if t.phase != IDLE_PHASE || command.kind != COMMAND || !StructuredOpcode(command.opcode)
       || DecodeRequest(command.opcode, command.payload).None? then (t, false)
    else
      (t.(phase := AWAITING_ACK, command := command, target := DecodeRequest(command.opcode, command.payload).value.target,
          deadline := Wrap32(now as int + timeout), retries := 0, maxRetries := maxRetries), true)
  }

  function TransactionReceive(t: Transaction, p: Packet): (Transaction, StructuredEvent) {
    if t.phase == IDLE_PHASE then (t, MISMATCH_IGNORED)
    else if p.source != t.command.destination || p.destination != t.command.source
            || p.sequence != t.command.sequence || p.opcode != t.command.opcode then (t, MISMATCH_IGNORED)
    else if p.kind == ACK then
      if |p.payload| != 1 || p.payload[0] > 2 then (t, MALFORMED_IGNORED)
      else if p.payload[0] != 0 then
        (t.(phase := IDLE_PHASE, support := if t.command.opcode == PING && p.payload[0] == 1 then UNSUPPORTED else t.support),
         REMOTE_REJECTED)
      else (t.(phase := AWAITING_RESPONSE), ACK_ACCEPTED)
    else if p.kind != RESPONSE then (t, MISMATCH_IGNORED)
    else
      match DecodeResponse(p.opcode, p.payload)
      case None => (t, MALFORMED_IGNORED)
      case Some(decoded) =>
        if decoded.target != t.target then (t, MALFORMED_IGNORED)
        else (t.(phase := IDLE_PHASE, support := SUPPORTED, result := decoded), RESPONSE_COMPLETE)
  }

  /** The signed comparison of the source: the deadline is reached modulo 2^32. */
  predicate DeadlineReached(now: u32, deadline: u32) {
    Wrap32(now - deadline) < 0x8000_0000
  }

  function TransactionService(t: Transaction, now: u32): (Transaction, StructuredEvent) {
    if t.phase == IDLE_PHASE || !DeadlineReached(now, t.deadline) then (t, NO_EVENT)
    else if t.retries < t.maxRetries then (t.(retries := t.retries + 1), RETRANSMIT)
    else (t.(phase := IDLE_PHASE), TIMEOUT)
  }

  // ----- the Hub's bridge

  datatype Bridge = Bridge(
    active: bool, nextSequence: u8, requestId: u16, request: HostRequest, support: PeerSupport, transaction: Transaction)

  const NO_REQUEST := HostRequest(0, 0, 0, 0, NO_VALUE)
  const NEW_BRIDGE := Bridge(false, 0, 0, NO_REQUEST, UNKNOWN, NO_TRANSACTION)

  datatype BridgeResult = Quiet | NotHandled | NotAccepted | SendCommand(packet: Packet) | Respond(response: HostResponse)

  /** What the caller knows about this device and the submission. */
  datatype Setting = Setting(isHub: bool, local: u8, peer: u8, now: u32, timeout: u32, maxRetries: u8, configured: bool)

  function Rejection(request: HostRequest, code: u8): HostResponse {
    HostResponse(request, REQUEST_REJECTED, code, NO_VALUE)
  }

  predicate MayStart(support: PeerSupport, opcode: u8, configured: bool) {
    configured || support == SUPPORTED || (support == UNKNOWN && opcode == PING)
  }

  function BridgeSubmit(b: Bridge, requestId: u16, request: HostRequest, s: Setting): (Bridge, BridgeResult) {
    if Validate(1, request) == UNSUPPORTED_PAIR then (b, Respond(Rejection(request, UNSUPPORTED_OPERATION)))
    else if Validate(1, request) != VALID_REQUEST then (b, Respond(Rejection(request, MALFORMED_REQUEST)))
    else if request.device == s.local then (b, NotHandled)
    else if !s.isHub || request.device != s.peer then (b, Respond(Rejection(request, BAD_TARGET)))
    else if b.active then (b, NotAccepted)
    else if !MayStart(b.support, request.operation, s.configured) then (b, Respond(Rejection(request, UNSUPPORTED_OPERATION)))
    else
      match EncodeRequest(request.operation, Request(request.target, request.value))
      case None => (b, NotAccepted)
      case Some(payload) =>
        var command := Packet(COMMAND, s.local, s.peer, b.nextSequence, request.operation, payload);
        var (t, begun) := Begin(b.transaction, command, s.now, s.timeout, s.maxRetries);
        if payload == [] || !begun then (b, NotAccepted)
        else
          (b.(active := true, requestId := requestId, request := request, transaction := t.(support := b.support)),
           SendCommand(command))
  }

  /** The transaction is over: answer the Host and move to the next sequence number. */
  function Finish(b: Bridge, response: HostResponse): (Bridge, BridgeResult) {
    (b.(active := false, nextSequence := Wrap8(b.nextSequence + 1)), Respond(response))
  }

  function BridgeReceive(b: Bridge, p: Packet): (Bridge, BridgeResult) {
    if !b.active then (b, Quiet)
    else
      var (t, event) := TransactionReceive(b.transaction, p);
      var d := b.(transaction := t, support := t.support);
      match event
      case RESPONSE_COMPLETE => Finish(d, HostResponse(b.request, OPERATION_RESULT, t.result.status, t.result.value))
      case REMOTE_REJECTED => Finish(d, HostResponse(b.request, RADIO_RESULT, REMOTE_REJECTED_CODE, NO_VALUE))
      case _ => (d, Quiet)
  }

  function BridgeService(b: Bridge, now: u32): (Bridge, BridgeResult) {
    if !b.active then (b, Quiet)
    else
      var (t, event) := TransactionService(b.transaction, now);
      var d := b.(transaction := t);
      match event
      case RETRANSMIT => (d, SendCommand(t.command))
      case TIMEOUT => Finish(d, HostResponse(b.request, RADIO_RESULT, TIMEOUT_CODE, NO_VALUE))
      case _ => (d, Quiet)
  }

  // ----- the Host request lifecycle

  datatype LifecycleState = EMPTY | ACTIVE_REQUEST | COMPLETED

  datatype RetainedEntry = RetainedEntry(requestId: u16, minor: u8, payload: seq<u8>, response: Option<HostResponse>)

  const NO_ENTRY := RetainedEntry(0, 0, [], None)

  datatype Lifecycle = Lifecycle(state: LifecycleState, connected: bool, entry: RetainedEntry, bridge: Bridge)

  const NEW_LIFECYCLE := Lifecycle(EMPTY, true, NO_ENTRY, NEW_BRIDGE)

  /** `delivered` tells whether the Host was connected to take the answer. */
  datatype LifecycleResult =
    | NoResult
    | InvalidRequest
    | ActiveDuplicate
    | Transmit(packet: Packet)
    | Answered(requestId: u16, response: HostResponse, delivered: bool)

  /** What local execution made of a request that is not for the peer. */
  datatype LocalOutcome = Handled(response: HostResponse) | Unhandled | Refused(code: u8)

  function Refuse(l: Lifecycle, requestId: u16, request: HostRequest, code: u8): (Lifecycle, LifecycleResult) {
    (l, Answered(requestId, Rejection(request, code), l.connected))
  }

  function Accept(l: Lifecycle, requestId: u16, minor: u8, payload: seq<u8>): Lifecycle {
    l.(state := ACTIVE_REQUEST, entry := RetainedEntry(requestId, minor, payload, None))
  }

  function CompleteWith(l: Lifecycle, response: HostResponse): Lifecycle {
    l.(state := COMPLETED, entry := l.entry.(response := Some(response)))
  }

  function SubmitLocal(l: Lifecycle, requestId: u16, minor: u8, payload: seq<u8>, request: HostRequest, local: LocalOutcome)
    : (Lifecycle, LifecycleResult)
  {
    match local
    case Unhandled => Refuse(l, requestId, request, UNSUPPORTED_OPERATION)
    case Refused(code) => Refuse(l, requestId, request, code)
    case Handled(response) =>
      if response.resultClass == REQUEST_REJECTED then (l, Answered(requestId, response, l.connected))
      else (CompleteWith(Accept(l, requestId, minor, payload), response), Answered(requestId, response, l.connected))
  }

  function SubmitRemote(l: Lifecycle, requestId: u16, minor: u8, payload: seq<u8>, request: HostRequest, s: Setting)
    : (Lifecycle, LifecycleResult)
  {
    var (b, result) := BridgeSubmit(l.bridge, requestId, request, s);
    match result
    case SendCommand(packet) => (Accept(l.(bridge := b), requestId, minor, payload), Transmit(packet))
    case Respond(response) => (l.(bridge := b), Answered(requestId, response, l.connected))
    case _ => (l.(bridge := b), InvalidRequest)
  }

  function Submit(l: Lifecycle, requestId: u16, minor: u8, payload: seq<u8>, s: Setting, local: LocalOutcome)
    : (Lifecycle, LifecycleResult)
  {
    if requestId == 0 || |payload| > 128 || DecodeHostRequest(minor, payload).None? then (l, InvalidRequest)
    else
      var request := DecodeHostRequest(minor, payload).value;
      if l.state != EMPTY && requestId == l.entry.requestId then
        if payload != l.entry.payload then Refuse(l, requestId, request, MISMATCH)
        else if l.state == ACTIVE_REQUEST || l.entry.response.None? then (l, ActiveDuplicate)
        else (l, Answered(requestId, l.entry.response.value, l.connected))
      else if l.state == ACTIVE_REQUEST then Refuse(l, requestId, request, BUSY_CODE)
      else if request.device == s.local || request.category == EVENT_CATEGORY then
        SubmitLocal(l, requestId, minor, payload, request, local)
      else SubmitRemote(l, requestId, minor, payload, request, s)
  }

  function ConsumeRemote(l: Lifecycle, result: BridgeResult): (Lifecycle, LifecycleResult) {
    if l.state != ACTIVE_REQUEST then (l, NoResult)
    else
      match result
      case SendCommand(packet) => (l, Transmit(packet))
      case Respond(response) => (CompleteWith(l, response), Answered(l.entry.requestId, response, l.connected))
      case _ => (l, NoResult)
  }

  function Receive(l: Lifecycle, p: Packet): (Lifecycle, LifecycleResult) {
    var (b, result) := BridgeReceive(l.bridge, p);
    ConsumeRemote(l.(bridge := b), result)
  }

  function Service(l: Lifecycle, now: u32): (Lifecycle, LifecycleResult) {
    var (b, result) := BridgeService(l.bridge, now);
    ConsumeRemote(l.(bridge := b), result)
  }
}
