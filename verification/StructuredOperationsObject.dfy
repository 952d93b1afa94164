/**
 The structured operation path as objects with their payload buffers.  Each
 method says what its caller may rely on, and computes the specified step, so
 that the guarantees over whole runs are about these objects.
 */
module StructuredOperationsObject {
  import opened Words
  import opened EventProtocol
  import opened WireOperations
  import NodeOperations
  import opened StructuredOperations
  import opened StructuredGuarantees

  /** Copy a payload to the front of a buffer and clear the rest. */
  method Retain(payload: seq<u8>, buffer: array<u8>)
    requires |payload| <= buffer.Length
    modifies buffer
    ensures buffer[..|payload|] == payload
    ensures forall i :: |payload| <= i < buffer.Length ==> buffer[i] == 0
  {
    for i := 0 to buffer.Length
      invariant forall j :: 0 <= j < i ==> buffer[j] == if j < |payload| then payload[j] else 0
    {
      buffer[i] := if i < |payload| then payload[i] else 0;
    }
  }

  /** Compare a payload with the retained one, length first, then byte by byte. */
  method SamePayload(payload: seq<u8>, buffer: array<u8>, length: nat) returns (same: bool)
    requires length <= buffer.Length
    ensures same <==> payload == buffer[..length]
  {
    if |payload| != length {
      return false;
    }
    for i := 0 to length
      invariant forall j :: 0 <= j < i ==> payload[j] == buffer[j]
    {
      if payload[i] != buffer[i] {
        assert payload[i] != buffer[..length][i];
        return false;
      }
    }
    return true;
  }

  /** `NodeStructuredOperationProcessor` with its retained operation. */
  class NodeProcessor {
    var hasEntry: bool
    var complete: bool
    var source: u8
    var destination: u8
    var sequence: u8
    var opcode: u8
    const payload: array<u8>
    var payloadLength: nat
    var response: Packet
    var hasPendingCommand: bool

    constructor ()
      ensures Valid() && State() == Nothing && fresh(payload)
    {
      hasEntry, complete, hasPendingCommand := false, false, false;
      source, destination, sequence, opcode, payloadLength := 0, 0, 0, 0, 0;
      payload := new u8[MAX_PAYLOAD_SIZE];
      response := NO_PACKET;
    }

    ghost predicate Valid()
      reads this
    {
      && payload.Length == MAX_PAYLOAD_SIZE && payloadLength <= MAX_PAYLOAD_SIZE
      && hasPendingCommand == (hasEntry && !complete)
    }

    ghost function State(): Retained
      requires Valid()
      reads this, payload
    {
      var command := Packet(COMMAND, source, destination, sequence, opcode, payload[..payloadLength]);
      if !hasEntry then Nothing else if complete then Complete(command, response) else Pending(command)
    }

    method Duplicates(p: Packet) returns (duplicate: bool)
      requires Valid()
      ensures duplicate == IsDuplicate(State(), p)
    {
      if !hasEntry || p.source != source || p.sequence != sequence || p.opcode != opcode {
        return false;
      }
      duplicate := SamePayload(p.payload, payload, payloadLength);
    }

    /** Only a new, well-formed command for this device is retained, and never over a pending one. */
    method Admit(p: Packet, local: u8, peer: u8) returns (outcome: AdmissionOutcome)
      requires Valid()
      modifies this, payload
      ensures Valid()
      ensures outcome == ADMITTED_NEW ==>
        State() == Pending(p) && !old(State()).Pending? && DecodeRequest(p.opcode, p.payload).Some?
      ensures outcome != ADMITTED_NEW ==> State() == old(State())
      ensures outcome == DUPLICATE_PENDING || outcome == DUPLICATE_COMPLETE ==> IsDuplicate(State(), p)
      ensures (State(), outcome) == AdmitCommand(old(State()), p, local, peer)
    {
      hide DecodeRequest;
      if p.destination != local || p.source != peer || p.kind != COMMAND {
        return IGNORED;
      }
      if !StructuredOpcode(p.opcode) {
        return UNSUPPORTED_OPCODE;
      }
      if DecodeRequest(p.opcode, p.payload).None? {
        return MALFORMED;
      }
      var duplicate := Duplicates(p);
      if duplicate {
        return if complete then DUPLICATE_COMPLETE else DUPLICATE_PENDING;
      }
      if hasEntry && !complete {
        return ACTIVE_BUSY;
      }
      RequestFits(p.opcode, p.payload);
      hasEntry, complete, hasPendingCommand, response := true, false, true, NO_PACKET;
      source, destination, sequence, opcode, payloadLength := p.source, p.destination, p.sequence, p.opcode, |p.payload|;
      Retain(p.payload, payload);
      return ADMITTED_NEW;
    }

    /** A pending operation that decodes is always completed, with the answer of this device. */
    method ExecuteAdmitted(d: NodeOperations.Device) returns (answer: Option<Packet>)
      requires Valid()
      modifies this
      ensures Valid()
      ensures old(State()).Pending? && DecodeRequest(old(opcode), old(State()).command.payload).Some? ==>
        && answer.Some? && State() == Complete(old(State()).command, answer.value)
        && DecodeResponse(opcode, answer.value.payload)
           == Some(NodeOperations.ExecuteOperation(d, opcode, DecodeRequest(opcode, old(State()).command.payload).value))
      ensures !old(State()).Pending? ==> State() == old(State()) && answer.None?
      ensures (State(), answer) == Execute(d, old(State()))
    {
      hide DecodeRequest, DecodeResponse, NodeOperations.ExecuteOperation, NodeOperations.ReplyPayload;
      if !hasPendingCommand {
        return None;
      }
      var command := Packet(COMMAND, source, destination, sequence, opcode, payload[..payloadLength]);
      if DecodeRequest(command.opcode, command.payload).Some? {
        ExecutionCompletes(d, State());
      }
      var reply := NodeOperations.ReplyPayload(d, opcode, command.payload);
      if !AcceptableReply(command, reply) {
        return None;
      }
      response := ReplyPacket(command, reply);
      complete, hasPendingCommand := true, false;
      return Some(response);
    }

    method Reset()
      requires Valid()
      modifies this
      ensures Valid() && State() == Nothing
    {
      hasEntry, complete, hasPendingCommand := false, false, false;
    }
  }

  lemma RequestFits(opcode: u8, payload: seq<u8>)
    requires DecodeRequest(opcode, payload).Some?
    ensures |payload| <= MAX_PAYLOAD_SIZE
  {
  }

  /** `HubStructuredTransaction` */
  class HubTransaction {
    var phase: StructuredPhase
    var support: PeerSupport
    var command: Packet
    var result: Response
    var target: u16
    var deadline: u32
    var retries: u8
    var maxRetries: u8

    constructor ()
      ensures State() == NO_TRANSACTION
    {
      phase, support, command, result := IDLE_PHASE, UNKNOWN, NO_PACKET, Response(0, 0, NO_VALUE);
      target, deadline, retries, maxRetries := 0, 0, 0, 0;
    }

    function State(): Transaction
      reads this
    {
      Transaction(phase, support, command, result, target, deadline, retries, maxRetries)
    }

    /** How many more times the command may be sent. */
    function SendsLeft(): int
      reads this
    {
      if phase == IDLE_PHASE then 0 else maxRetries as int - retries
    }

    /** A started transaction may repeat its command `limit` times; a refused start changes nothing. */
    method BeginWith(p: Packet, now: u32, timeout: u32, limit: u8) returns (begun: bool)
      modifies this
      ensures begun ==> old(phase) == IDLE_PHASE && phase == AWAITING_ACK && command == p && SendsLeft() == limit
      ensures begun ==> DecodeRequest(p.opcode, p.payload).Some? && target == DecodeRequest(p.opcode, p.payload).value.target
      ensures !begun ==> State() == old(State())
      ensures (State(), begun) == Begin(old(State()), p, now, timeout, limit)
    {
      hide DecodeRequest;
      if phase != IDLE_PHASE || p.kind != COMMAND || !StructuredOpcode(p.opcode) {
        return false;
      }
      var decoded := DecodeRequest(p.opcode, p.payload);
      if decoded.None? {
        return false;
      }
      command, target, phase := p, decoded.value.target, AWAITING_ACK;
      deadline, retries, maxRetries := Wrap32(now as int + timeout), 0, limit;
      return true;
    }

    /**
     Only a correlated rejection or a correlated, decodable response for the right
     target ends the transaction; nothing received changes the command or its
     remaining sends before that.
     */
    method ReceivePacket(p: Packet) returns (event: StructuredEvent)
      modifies this
      ensures command == old(command) && retries == old(retries) && maxRetries == old(maxRetries)
      ensures old(phase) != IDLE_PHASE ==> (phase == IDLE_PHASE <==> event == RESPONSE_COMPLETE || event == REMOTE_REJECTED)
      ensures event == RESPONSE_COMPLETE || event == REMOTE_REJECTED ==>
        && old(phase) != IDLE_PHASE && p.source == command.destination && p.destination == command.source
        && p.sequence == command.sequence && p.opcode == command.opcode
      ensures event == RESPONSE_COMPLETE ==>
        p.kind == RESPONSE && DecodeResponse(p.opcode, p.payload) == Some(result) && result.target == target
      ensures (State(), event) == TransactionReceive(old(State()), p)
    {
      hide DecodeResponse;
      if phase == IDLE_PHASE {
        return MISMATCH_IGNORED;
      }
      if p.source != command.destination || p.destination != command.source
         || p.sequence != command.sequence || p.opcode != command.opcode {
        return MISMATCH_IGNORED;
      }
      if p.kind == ACK {
        if |p.payload| != 1 || p.payload[0] > 2 {
          return MALFORMED_IGNORED;
        }
        if p.payload[0] != 0 {
          if command.opcode == PING && p.payload[0] == 1 {
            support := UNSUPPORTED;
          }
          phase := IDLE_PHASE;
          return REMOTE_REJECTED;
        }
        phase := AWAITING_RESPONSE;
        return ACK_ACCEPTED;
      }
      if p.kind != RESPONSE {
        return MISMATCH_IGNORED;
      }
      var decoded := DecodeResponse(p.opcode, p.payload);
      if decoded.None? || decoded.value.target != target {
        return MALFORMED_IGNORED;
      }
      result, support, phase := decoded.value, SUPPORTED, IDLE_PHASE;
      return RESPONSE_COMPLETE;
    }

    /** Each retransmission costs one send; the timeout comes when none is left; before the deadline nothing happens. */
    method ServiceClock(now: u32) returns (event: StructuredEvent)
      modifies this
      ensures command == old(command)
      ensures event == RETRANSMIT ==> SendsLeft() == old(SendsLeft()) - 1 >= 0 && phase == old(phase)
      ensures event == TIMEOUT ==> old(SendsLeft()) <= 0 && old(phase) != IDLE_PHASE && phase == IDLE_PHASE
      ensures event == NO_EVENT <==> old(phase) == IDLE_PHASE || !DeadlineReached(now, deadline)
      ensures event == NO_EVENT ==> State() == old(State())
      ensures (State(), event) == TransactionService(old(State()), now)
    {
      if phase == IDLE_PHASE || !DeadlineReached(now, deadline) {
        return NO_EVENT;
      }
      if retries < maxRetries {
        retries := retries + 1;
        return RETRANSMIT;
      }
      phase := IDLE_PHASE;
      return TIMEOUT;
    }
  }

  /** `HubStructuredOperationBridge` */
  class HubBridge {
    const transaction: HubTransaction
    var active: bool
    var nextSequence: u8
    var requestId: u16
    var request: HostRequest
    var support: PeerSupport

    constructor ()
      ensures fresh(transaction) && State() == NEW_BRIDGE
    {
      transaction := new HubTransaction();
      active, nextSequence, requestId, request, support := false, 0, 0, NO_REQUEST, UNKNOWN;
    }

    ghost function State(): Bridge
      reads this, transaction
    {
      Bridge(active, nextSequence, requestId, request, support, transaction.State())
    }

    /** Starts exactly one transaction with the next sequence number, or changes nothing. */
    method SubmitRequest(id: u16, r: HostRequest, s: Setting) returns (result: BridgeResult)
      modifies this, transaction
      ensures BridgeInv(old(State())) ==>
        && BridgeInv(State())
        && if result.SendCommand? then Started(old(State()), State(), result.packet, s.maxRetries) else State() == old(State())
      ensures (State(), result) == BridgeSubmit(old(State()), id, r, s)
    {
      hide Validate, EncodeRequest, Begin;
      if BridgeInv(State()) {
        BridgeSubmitCases(State(), id, r, s);
      }
      var validation := Validate(1, r);
      if validation == UNSUPPORTED_PAIR {
        return Respond(Rejection(r, UNSUPPORTED_OPERATION));
      }
      if validation != VALID_REQUEST {
        return Respond(Rejection(r, MALFORMED_REQUEST));
      }
      if r.device == s.local {
        return NotHandled;
      }
      if !s.isHub || r.device != s.peer {
        return Respond(Rejection(r, BAD_TARGET));
      }
      if active {
        return NotAccepted;
      }
      if !MayStart(support, r.operation, s.configured) {
        return Respond(Rejection(r, UNSUPPORTED_OPERATION));
      }
      var payload := EncodeRequest(r.operation, Request(r.target, r.value));
      if payload.None? || payload.value == [] {
        return NotAccepted;
      }
      var command := Packet(COMMAND, s.local, s.peer, nextSequence, r.operation, payload.value);
      var begun := transaction.BeginWith(command, s.now, s.timeout, s.maxRetries);
      if !begun {
        return NotAccepted;
      }
      transaction.support := support;
      active, requestId, request := true, id, r;
      return SendCommand(command);
    }

    method FinishWith(response: HostResponse) returns (result: BridgeResult)
      modifies this
      ensures !active && nextSequence == Wrap8(old(nextSequence) + 1) && result == Respond(response)
      ensures State() == Finish(old(State()), response).0
    {
      active, nextSequence := false, Wrap8(nextSequence + 1);
      return Respond(response);
    }

    /** Ends the transaction with one response and the next sequence number, or leaves command and sends alone. */
    method ReceivePacket(p: Packet) returns (result: BridgeResult)
      modifies this, transaction
      ensures BridgeInv(old(State())) ==> BridgeInv(State()) && BridgeStepped(old(State()), State(), result)
      ensures BridgeInv(old(State())) ==> ToldHost(old(State()), p, State(), result)
      ensures (State(), result) == BridgeReceive(old(State()), p)
    {
      if BridgeInv(State()) {
        BridgeReceiveStep(State(), p);
        BridgeReceiveEffects(State(), p);
      }
      hide TransactionReceive, BridgeStepped, ToldHost;
      if !active {
        return Quiet;
      }
      var event := transaction.ReceivePacket(p);
      support := transaction.support;
      match event {
        case RESPONSE_COMPLETE =>
          result := FinishWith(HostResponse(request, OPERATION_RESULT, transaction.result.status, transaction.result.value));
        case REMOTE_REJECTED =>
          result := FinishWith(HostResponse(request, RADIO_RESULT, REMOTE_REJECTED_CODE, NO_VALUE));
        case _ =>
          result := Quiet;
      }
    }

    /** Repeats the same command at the cost of one send, times out, or does nothing. */
    method ServiceClock(now: u32) returns (result: BridgeResult)
      modifies this, transaction
      ensures BridgeInv(old(State())) ==> BridgeInv(State()) && BridgeStepped(old(State()), State(), result)
      ensures (State(), result) == BridgeService(old(State()), now)
    {
      if BridgeInv(State()) {
        BridgeServiceStep(State(), now);
      }
      hide TransactionService, BridgeStepped;
      if !active {
        return Quiet;
      }
      var event := transaction.ServiceClock(now);
      match event {
        case RETRANSMIT =>
          result := SendCommand(transaction.command);
        case TIMEOUT =>
          result := FinishWith(HostResponse(request, RADIO_RESULT, TIMEOUT_CODE, NO_VALUE));
        case _ =>
          result := Quiet;
      }
    }
  }

  /** `Lifecycle`, with the retained request's payload in a buffer. */
  class HostLifecycle {
    const bridge: HubBridge
    var state: LifecycleState
    var connected: bool
    var requestId: u16
    var minor: u8
    const payload: array<u8>
    var payloadLength: nat
    var response: Option<HostResponse>

    constructor ()
      ensures Valid() && State() == NEW_LIFECYCLE && LifecycleInv(State())
    {
      bridge := new HubBridge();
      state, connected, requestId, minor, payloadLength, response := EMPTY, true, 0, 0, 0, None;
      payload := new u8[128];
    }

    ghost predicate Valid()
      reads this
    {
      payload.Length == 128 && payloadLength <= 128
    }

    ghost function State(): Lifecycle
      requires Valid()
      reads this, payload, bridge, bridge.transaction
    {
      Lifecycle(state, connected, RetainedEntry(requestId, minor, payload[..payloadLength], response), bridge.State())
    }

    /**
     A command is sent only by starting one transaction with the allowed number of
     repeats; a completed request is answered again with its own response; and
     lifecycle, bridge and transaction keep agreeing.
     */
    method SubmitRequest(id: u16, version: u8, bytes: seq<u8>, s: Setting, local: LocalOutcome) returns (answer: LifecycleResult)
      requires Valid() && LifecycleInv(State())
      modifies this, payload, bridge, bridge.transaction
      ensures Valid() && LifecycleInv(State())
      ensures answer.Transmit? ==>
        && state == ACTIVE_REQUEST && requestId == id && payload[..payloadLength] == bytes
        && old(state) != ACTIVE_REQUEST && bridge.transaction.SendsLeft() == s.maxRetries
      ensures old(state) == COMPLETED && Repeats(old(State()), id, version, bytes) ==>
        old(response).Some? && answer == Answered(id, old(response).value, connected) && State() == old(State())
      ensures (State(), answer) == Submit(old(State()), id, version, bytes, s, local)
    {
      hide SubmitLocal, SubmitRemote, DecodeHostRequest;
      ghost var before := State();
      SubmitKeepsAgreement(before, id, version, bytes, s, local);
      if id == 0 || |bytes| > 128 || DecodeHostRequest(version, bytes).None? {
        if DecodeHostRequest(version, bytes).Some? {
          DecodedFits(version, bytes);
        }
        return InvalidRequest;
      }
      var request := DecodeHostRequest(version, bytes).value;
      if state != EMPTY && id == requestId {
        var same := SamePayload(bytes, payload, payloadLength);
        if !same {
          return Answered(id, Rejection(request, MISMATCH), connected);
        }
        if state == ACTIVE_REQUEST || response.None? {
          return ActiveDuplicate;
        }
        return Answered(id, response.value, connected);
      }
      if state == ACTIVE_REQUEST {
        return Answered(id, Rejection(request, BUSY_CODE), connected);
      }
      if request.device == s.local || request.category == EVENT_CATEGORY {
        answer := AnswerLocally(id, version, bytes, request, local);
      } else {
        answer := StartRemote(id, version, bytes, request, s);
      }
    }

    method AcceptIdentity(id: u16, version: u8, bytes: seq<u8>)
      requires Valid() && |bytes| <= 128
      modifies this, payload
      ensures Valid() && State() == Accept(old(State()), id, version, bytes)
    {
      requestId, minor, payloadLength, response, state := id, version, |bytes|, None, ACTIVE_REQUEST;
      Retain(bytes, payload);
    }

    method AnswerLocally(id: u16, version: u8, bytes: seq<u8>, request: HostRequest, local: LocalOutcome)
        returns (answer: LifecycleResult)
      requires Valid() && |bytes| <= 128
      modifies this, payload
      ensures Valid() && (State(), answer) == SubmitLocal(old(State()), id, version, bytes, request, local)
    {
      match local {
        case Unhandled => return Answered(id, Rejection(request, UNSUPPORTED_OPERATION), connected);
        case Refused(code) => return Answered(id, Rejection(request, code), connected);
        case Handled(outcome) =>
          if outcome.resultClass != REQUEST_REJECTED {
            AcceptIdentity(id, version, bytes);
            response, state := Some(outcome), COMPLETED;
          }
          return Answered(id, outcome, connected);
      }
    }

    method StartRemote(id: u16, version: u8, bytes: seq<u8>, request: HostRequest, s: Setting) returns (answer: LifecycleResult)
      requires Valid() && |bytes| <= 128
      modifies this, payload, bridge, bridge.transaction
      ensures Valid() && (State(), answer) == SubmitRemote(old(State()), id, version, bytes, request, s)
    {
      hide BridgeSubmit, BridgeInv;
      var remote := bridge.SubmitRequest(id, request, s);
      match remote {
        case SendCommand(packet) =>
          AcceptIdentity(id, version, bytes);
          return Transmit(packet);
        case Respond(refusal) => return Answered(id, refusal, connected);
        case _ => return InvalidRequest;
      }
    }

    /** A terminal bridge result completes the active request and is retained; nothing else touches the entry. */
    method Absorb(remote: BridgeResult) returns (answer: LifecycleResult)
      requires Valid()
      modifies this
      ensures Valid() && requestId == old(requestId) && minor == old(minor) && payloadLength == old(payloadLength)
      ensures answer.Answered? ==>
        old(state) == ACTIVE_REQUEST && state == COMPLETED && remote == Respond(answer.response) && response == Some(answer.response)
      ensures !answer.Answered? ==> state == old(state) && response == old(response)
      ensures (State(), answer) == ConsumeRemote(old(State()), remote)
    {
      if state != ACTIVE_REQUEST {
        return NoResult;
      }
      match remote {
        case SendCommand(packet) => return Transmit(packet);
        case Respond(outcome) =>
          response, state := Some(outcome), COMPLETED;
          return Answered(requestId, outcome, connected);
        case _ => return NoResult;
      }
    }

    /** Any packet: the agreement is kept, nothing is transmitted, and an answer completes the active request. */
    method ReceivePacket(p: Packet) returns (answer: LifecycleResult)
      requires Valid() && LifecycleInv(State())
      modifies this, bridge, bridge.transaction
      ensures Valid() && LifecycleInv(State())
      ensures !answer.Transmit?
      ensures answer.Answered? ==> old(state) == ACTIVE_REQUEST && state == COMPLETED && response == Some(answer.response)
      ensures (State(), answer) == Receive(old(State()), p)
    {
      BridgeReceiveStep(bridge.State(), p);
      RemoteKeepsAgreement(State(), BridgeReceive(bridge.State(), p).0, BridgeReceive(bridge.State(), p).1);
      ReceiveSendsNothing(bridge.State(), p);
      hide BridgeReceive, ConsumeRemote, BridgeStepped;
      var remote := bridge.ReceivePacket(p);
      answer := Absorb(remote);
    }

    /** Any clock reading: what is transmitted is the command in progress, at the cost of one of its repeats. */
    method ServiceClock(now: u32) returns (answer: LifecycleResult)
      requires Valid() && LifecycleInv(State())
      modifies this, bridge, bridge.transaction
      ensures Valid() && LifecycleInv(State())
      ensures answer.Transmit? ==>
        && old(state) == ACTIVE_REQUEST == state && answer.packet == old(bridge.transaction.command) == bridge.transaction.command
        && 0 <= bridge.transaction.SendsLeft() == old(bridge.transaction.SendsLeft()) - 1
      ensures answer.Answered? ==> old(state) == ACTIVE_REQUEST && state == COMPLETED && response == Some(answer.response)
      ensures (State(), answer) == Service(old(State()), now)
    {
      BridgeServiceStep(bridge.State(), now);
      RemoteKeepsAgreement(State(), BridgeService(bridge.State(), now).0, BridgeService(bridge.State(), now).1);
      hide BridgeService, ConsumeRemote;
      var remote := bridge.ServiceClock(now);
      answer := Absorb(remote);
    }
  }

  /** The same request again: its id and its payload. */
  predicate Repeats(l: Lifecycle, id: u16, version: u8, bytes: seq<u8>) {
    id == l.entry.requestId != 0 && bytes == l.entry.payload && DecodeHostRequest(version, bytes).Some?
  }

  lemma SubmitKeepsAgreement(l: Lifecycle, id: u16, version: u8, bytes: seq<u8>, s: Setting, local: LocalOutcome)
    requires LifecycleInv(l)
    ensures var (m, result) := Submit(l, id, version, bytes, s, local);
      && LifecycleInv(m)
      && (result.Transmit? ==>
            && l.state != ACTIVE_REQUEST && m.state == ACTIVE_REQUEST
            && m.entry.requestId == id && m.entry.payload == bytes
            && m.bridge.transaction.phase != IDLE_PHASE
            && m.bridge.transaction.retries == 0 && m.bridge.transaction.maxRetries == s.maxRetries)
  {
    SubmitCases(l, SubmitOp(id, version, bytes, s, local));
    hide Submit;
  }

  lemma RemoteKeepsAgreement(l: Lifecycle, d: Bridge, result: BridgeResult)
    requires LifecycleInv(l) && BridgeInv(d) && BridgeStepped(l.bridge, d, result)
    ensures LifecycleInv(ConsumeRemote(l.(bridge := d), result).0)
    ensures ConsumeRemote(l.(bridge := d), result).1.Answered? ==> l.state == ACTIVE_REQUEST
  {
  }

  lemma ReceiveSendsNothing(b: Bridge, p: Packet)
    ensures !BridgeReceive(b, p).1.SendCommand?
    ensures forall l: Lifecycle :: !ConsumeRemote(l, BridgeReceive(b, p).1).1.Transmit?
  {
  }
}
