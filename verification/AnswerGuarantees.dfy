/**
 What the Host is told about a remote operation, over every run of Host, Hub,
 radio and Node: the Node's own answer, or that the radio exchange failed.
 */
module AnswerGuarantees {
  import opened Words
  import opened EventProtocol
  import opened WireOperations
  import NodeOperations
  import opened StructuredOperations
  import opened StructuredGuarantees

  /** The Node's own answer to the command of a reply. */
  function NodeAnswer(y: Reply): Option<Response> {
    match DecodeRequest(y.command.opcode, y.command.payload)
    case None => None
    case Some(request) => Some(NodeOperations.ExecuteOperation(y.device, y.command.opcode, request))
  }

  /** A reply carries the Node's answer, back to where the command came from. */
  predicate Truthful(y: Reply) {
    && NodeAnswer(y).Some? && DecodeResponse(y.packet.opcode, y.packet.payload) == NodeAnswer(y)
    && y.packet.kind == RESPONSE && y.packet.opcode == y.command.opcode && y.packet.sequence == y.command.sequence
    && y.packet.source == y.command.destination && y.packet.destination == y.command.source
  }

  /**
   Packets are not forged: a RESPONSE heard is a reply the Node made.  With
   `prompt`, moreover, none that the transaction in progress would take for its own
   was made for another command.
   */
  predicate Authentic(ops: seq<WorldOp>, prompt: bool)
    decreases |ops|
  {
    ops != [] ==>
      var before := ops[..|ops| - 1];
      && Authentic(before, prompt)
      && match ops[|ops| - 1]
         case OnHub(ReceiveOp(p)) => p.kind == RESPONSE ==> Heard(RunWorld(before), p, prompt)
         case _ => true
  }

  predicate Heard(w: World, p: Packet, prompt: bool) {
    exists k :: 0 <= k < |w.replies| && w.replies[k].packet == p
                && (prompt && w.hub.l.bridge.active && Correlates(w.hub.l.bridge, p) ==>
                      w.replies[k].command == w.hub.l.bridge.transaction.command)
  }

  /** The commands of an accepted request ask for exactly it. */
  predicate Asks(a: Accepted, command: Packet) {
    match DecodeHostRequest(a.minor, a.payload)
    case None => false
    case Some(r) => command.opcode == r.operation && DecodeRequest(command.opcode, command.payload) == Some(Request(r.target, r.value))
  }

  /** The response of a reply, as the Host sees it. */
  predicate Passes(a: Accepted, response: HostResponse, y: Reply, prompt: bool)
    requires a.commands != []
  {
    && Truthful(y) && y.command.sequence == a.commands[0].sequence && y.command.opcode == a.commands[0].opcode
    && (prompt ==> y.command == a.commands[0])
    && response.resultClass == OPERATION_RESULT
    && response.code == NodeAnswer(y).value.status && response.value == NodeAnswer(y).value.value
  }

  /** A response to a request that was sent: a radio result, or what the Node answered. */
  predicate Explained(a: Accepted, response: HostResponse, replies: seq<Reply>, prompt: bool)
    requires a.commands != []
  {
    && DecodeHostRequest(a.minor, a.payload) == Some(response.request)
    && (|| (response.resultClass == RADIO_RESULT && response.code in {6, 7} && response.value == NO_VALUE)
        || exists k :: 0 <= k < |replies| && Passes(a, response, replies[k], prompt))
  }

  predicate EntryExplained(a: Accepted, replies: seq<Reply>, prompt: bool) {
    a.commands != [] ==>
      && Asks(a, a.commands[0])
      && forall j :: 0 <= j < |a.outcomes| ==> Explained(a, a.outcomes[j].response, replies, prompt)
  }

  /** The transaction in progress asks for the request of the last entry, and answers for it. */
  predicate Asking(h: HubRun) {
    h.l.state == ACTIVE_REQUEST ==>
      && h.log != [] && h.log[|h.log| - 1].commands != []
      && h.log[|h.log| - 1].commands[0] == h.l.bridge.transaction.command
      && DecodeHostRequest(h.log[|h.log| - 1].minor, h.log[|h.log| - 1].payload) == Some(h.l.bridge.request)
      && h.l.bridge.transaction.target == h.l.bridge.request.target
  }

  predicate AnswerInv(w: World, prompt: bool) {
    && (forall k :: 0 <= k < |w.replies| ==> Truthful(w.replies[k]))
    && (forall i :: 0 <= i < |w.hub.log| ==> EntryExplained(w.hub.log[i], w.replies, prompt))
    && Asking(w.hub)
  }

  // ----- what every step keeps

  lemma SubmitAsks(l: Lifecycle, op: HubOp)
    requires LifecycleInv(l) && op.SubmitOp?
    ensures var (m, result) := Submit(l, op.requestId, op.minor, op.payload, op.setting, op.local);
      result.Transmit? ==>
        var t := m.bridge.transaction;
        && DecodeHostRequest(op.minor, op.payload) == Some(m.bridge.request) && t.target == m.bridge.request.target
        && t.command == result.packet && result.packet.opcode == m.bridge.request.operation
        && DecodeRequest(result.packet.opcode, result.packet.payload) == Some(Request(m.bridge.request.target, m.bridge.request.value))
  {
    hide DecodeHostRequest, DecodeRequest, EncodeRequest, Validate;
    if DecodeHostRequest(op.minor, op.payload).Some? {
      var r := DecodeHostRequest(op.minor, op.payload).value;
      if EncodeRequest(r.operation, Request(r.target, r.value)).Some? {
        RequestBijection(r.operation, Request(r.target, r.value), EncodeRequest(r.operation, Request(r.target, r.value)).value);
      }
    }
  }

  /** More replies explain no less. */
  lemma ExplainedGrows(a: Accepted, replies: seq<Reply>, more: seq<Reply>, prompt: bool)
    requires EntryExplained(a, replies, prompt) && replies <= more
    ensures EntryExplained(a, more, prompt)
  {
    hide Passes, Asks, DecodeHostRequest;
    if a.commands != [] {
      forall j | 0 <= j < |a.outcomes| ensures Explained(a, a.outcomes[j].response, more, prompt) {
        var response := a.outcomes[j].response;
        assert Explained(a, response, replies, prompt);
        if k :| 0 <= k < |replies| && Passes(a, response, replies[k], prompt) {
          assert more[k] == replies[k];
        }
      }
    }
  }

  lemma SubmitExplained(w: World, op: HubOp, prompt: bool)
    requires WorldInv(w) && AnswerInv(w, prompt) && op.SubmitOp?
    ensures AnswerInv(w.(hub := HubSubmit(w.hub, op)), prompt)
  {
    var h := w.hub;
    assert LifecycleInv(h.l);
    hide HubInv, Truthful, Submit, DecodeHostRequest, DecodeRequest, Explained;
    SubmitCases(h.l, op);
    SubmitAsks(h.l, op);
    var g := HubSubmit(h, op);
    forall i | 0 <= i < |g.log| ensures EntryExplained(g.log[i], w.replies, prompt) {
      if i < |h.log| {
        assert g.log[i] == h.log[i];
      }
    }
  }

  /** A packet that ends the transaction is explained by a reply, or is a rejection. */
  lemma ReceivedIsExplained(w: World, p: Packet, prompt: bool)
    requires WorldInv(w) && AnswerInv(w, prompt) && (p.kind == RESPONSE ==> Heard(w, p, prompt))
    requires w.hub.l.state == ACTIVE_REQUEST
    ensures var (d, result) := BridgeReceive(w.hub.l.bridge, p);
      && w.hub.log != [] && w.hub.log[|w.hub.log| - 1].commands != []
      && (result.Respond? ==> Explained(w.hub.log[|w.hub.log| - 1], result.response, w.replies, prompt))
      && (!result.Respond? ==>
            result == Quiet && d.request == w.hub.l.bridge.request && d.transaction.command == w.hub.l.bridge.transaction.command
            && d.transaction.target == w.hub.l.bridge.transaction.target)
  {
    var b := w.hub.l.bridge;
    assert BridgeInv(b) && b.active;
    hide WorldInv, HubInv, BridgeReceive, DecodeResponse, DecodeRequest, DecodeHostRequest, EntryExplained, Truthful, Passes,
      CarriesResult;
    BridgeReceiveEffects(b, p);
    if CarriesResult(b, p) {
      ResultIsKinded(b, p);
      var k :| 0 <= k < |w.replies| && w.replies[k].packet == p
               && (prompt && b.active && Correlates(b, p) ==> w.replies[k].command == b.transaction.command);
      ResultPasses(w.hub.log[|w.hub.log| - 1], b, p, w.replies[k], prompt);
    }
  }

  lemma ResultIsKinded(b: Bridge, p: Packet)
    requires CarriesResult(b, p)
    ensures p.kind == RESPONSE && Correlates(b, p) && DecodeResponse(p.opcode, p.payload).Some?
  {
  }

  lemma ResultPasses(a: Accepted, b: Bridge, p: Packet, y: Reply, prompt: bool)
    requires a.commands != [] && a.commands[0] == b.transaction.command && Truthful(y) && y.packet == p
    requires Correlates(b, p) && DecodeResponse(p.opcode, p.payload).Some?
    requires prompt ==> y.command == b.transaction.command
    ensures var answer := DecodeResponse(p.opcode, p.payload).value;
      Passes(a, HostResponse(b.request, OPERATION_RESULT, answer.status, answer.value), y, prompt)
  {
    hide DecodeResponse, DecodeRequest, NodeOperations.ExecuteOperation;
  }

  /** The logs after the last entry got one more outcome or command. */
  lemma RecordExplained(w: World, m: Lifecycle, result: LifecycleResult, prompt: bool)
    requires AnswerInv(w, prompt) && w.hub.log != [] && w.hub.log[|w.hub.log| - 1].commands != []
    requires result.Answered? ==> Explained(w.hub.log[|w.hub.log| - 1], result.response, w.replies, prompt) && m.state != ACTIVE_REQUEST
    requires !result.Answered? && m.state == ACTIVE_REQUEST ==>
      && w.hub.l.state == ACTIVE_REQUEST && m.bridge.request == w.hub.l.bridge.request
      && m.bridge.transaction.command == w.hub.l.bridge.transaction.command
      && m.bridge.transaction.target == w.hub.l.bridge.transaction.target
    ensures AnswerInv(w.(hub := Record(w.hub, m, result)), prompt)
  {
    hide Truthful, DecodeHostRequest, Passes, Asks;
    var g := Record(w.hub, m, result);
    forall i | 0 <= i < |g.log| ensures EntryExplained(g.log[i], w.replies, prompt) {
      assert EntryExplained(w.hub.log[i], w.replies, prompt);
      if i < |w.hub.log| - 1 {
        assert g.log[i] == w.hub.log[i];
      } else {
        LastExplained(w.hub.log[i], g.log[i], w.replies, prompt);
      }
    }
  }

  lemma LastExplained(a: Accepted, b: Accepted, replies: seq<Reply>, prompt: bool)
    requires EntryExplained(a, replies, prompt) && a.commands != []
    requires b.requestId == a.requestId && b.minor == a.minor && b.payload == a.payload && a.commands <= b.commands
    requires a.outcomes <= b.outcomes
    requires forall j :: |a.outcomes| <= j < |b.outcomes| ==> Explained(a, b.outcomes[j].response, replies, prompt)
    ensures EntryExplained(b, replies, prompt)
  {
    hide Truthful, DecodeHostRequest, NodeAnswer;
    assert b.commands[0] == a.commands[0];
    forall j | 0 <= j < |b.outcomes| ensures Explained(b, b.outcomes[j].response, replies, prompt) {
      assert j < |a.outcomes| ==> b.outcomes[j] == a.outcomes[j];
      assert Explained(a, b.outcomes[j].response, replies, prompt);
      SameExplanation(a, b, b.outcomes[j].response, replies, prompt);
    }
  }

  lemma SameExplanation(a: Accepted, b: Accepted, response: HostResponse, replies: seq<Reply>, prompt: bool)
    requires a.commands != [] && b.commands != [] && b.commands[0] == a.commands[0]
    requires b.minor == a.minor && b.payload == a.payload && Explained(a, response, replies, prompt)
    ensures Explained(b, response, replies, prompt)
  {
    hide Truthful, DecodeHostRequest, NodeAnswer;
    if k :| 0 <= k < |replies| && Passes(a, response, replies[k], prompt) {
      assert Passes(b, response, replies[k], prompt);
    }
  }

  /** Outside a request nothing the bridge does reaches the logs. */
  lemma IdleKeeps(w: World, d: Bridge, result: BridgeResult, prompt: bool)
    requires AnswerInv(w, prompt) && w.hub.l.state != ACTIVE_REQUEST
    ensures var (m, r) := ConsumeRemote(w.hub.l.(bridge := d), result);
      AnswerInv(w.(hub := if w.hub.log == [] then w.hub.(l := m) else Record(w.hub, m, r)), prompt)
  {
    hide Truthful, EntryExplained;
  }

  lemma ReceiveExplained(w: World, p: Packet, prompt: bool)
    requires WorldInv(w) && AnswerInv(w, prompt) && (p.kind == RESPONSE ==> Heard(w, p, prompt))
    ensures AnswerInv(w.(hub := HubStep(w.hub, ReceiveOp(p))), prompt)
  {
    hide WorldInv, Heard, BridgeReceive, Explained, EntryExplained, Truthful, Record;
    var (d, result) := BridgeReceive(w.hub.l.bridge, p);
    if w.hub.l.state == ACTIVE_REQUEST {
      ReceivedIsExplained(w, p, prompt);
      var (m, r) := ConsumeRemote(w.hub.l.(bridge := d), result);
      RecordExplained(w, m, r, prompt);
    } else {
      IdleKeeps(w, d, result, prompt);
    }
    hide AnswerInv;
  }

  lemma ServiceExplained(w: World, now: u32, prompt: bool)
    requires WorldInv(w) && AnswerInv(w, prompt)
    ensures AnswerInv(w.(hub := HubStep(w.hub, ServiceOp(now))), prompt)
  {
    assert LifecycleInv(w.hub.l);
    hide WorldInv, BridgeService, EntryExplained, Truthful, Record, DecodeHostRequest;
    var (d, result) := BridgeService(w.hub.l.bridge, now);
    if w.hub.l.state == ACTIVE_REQUEST {
      BridgeServiceEffects(w.hub.l.bridge, now);
      var (m, r) := ConsumeRemote(w.hub.l.(bridge := d), result);
      RecordExplained(w, m, r, prompt);
    } else {
      IdleKeeps(w, d, result, prompt);
    }
    hide AnswerInv;
  }

  lemma OtherHubStepExplained(w: World, op: HubOp, prompt: bool)
    requires AnswerInv(w, prompt) && (op.ConnectOp? || op.ConfigureOp? || op.ResetOp?)
    ensures AnswerInv(w.(hub := HubStep(w.hub, op)), prompt)
  {
    hide Truthful, Explained, Asks;
    var g := HubStep(w.hub, op);
    forall i | 0 <= i < |g.log| ensures EntryExplained(g.log[i], w.replies, prompt) {
      assert EntryExplained(w.hub.log[i], w.replies, prompt);
      assert g.log[i] == w.hub.log[i] || g.log[i] == w.hub.log[i].(abandoned := true);
      if g.log[i] != w.hub.log[i] && g.log[i].commands != [] {
        forall j | 0 <= j < |g.log[i].outcomes| ensures Explained(g.log[i], g.log[i].outcomes[j].response, w.replies, prompt) {
          SameExplanation(w.hub.log[i], g.log[i], g.log[i].outcomes[j].response, w.replies, prompt);
        }
        SameQuestion(w.hub.log[i], g.log[i]);
      }
    }
  }

  lemma SameQuestion(a: Accepted, b: Accepted)
    requires a.commands != [] && b == a.(abandoned := true) && Asks(a, a.commands[0])
    ensures Asks(b, b.commands[0])
  {
  }

  lemma ExecutionExplained(w: World, device: NodeOperations.Device, prompt: bool)
    requires WorldInv(w) && AnswerInv(w, prompt)
    ensures AnswerInv(WorldStep(w, ExecuteOp(device)), prompt)
  {
    hide HubInv, Execute, EntryExplained, DecodeRequest, DecodeResponse, NodeOperations.ExecuteOperation;
    if w.node.Pending? && w.owner < |w.hub.sent| {
      ExecutionCompletes(device, w.node);
      ExecutionReplies(device, w.node);
      var v := WorldStep(w, ExecuteOp(device));
      forall i | 0 <= i < |v.hub.log| ensures EntryExplained(v.hub.log[i], v.replies, prompt) {
        ExplainedGrows(w.hub.log[i], w.replies, v.replies, prompt);
      }
    }
  }

  lemma ExecutionReplies(device: NodeOperations.Device, r: Retained)
    requires r.Pending? && Execute(device, r).1.Some?
    ensures var p := Execute(device, r).1.value;
      && p.kind == RESPONSE && p.opcode == r.command.opcode && p.sequence == r.command.sequence
      && p.source == r.command.destination && p.destination == r.command.source
  {
    hide NodeOperations.ReplyPayload, AcceptableReply;
  }

  lemma StepExplained(w: World, op: WorldOp, prompt: bool)
    requires WorldInv(w) && AnswerInv(w, prompt)
    requires op.OnHub? && op.op.ReceiveOp? && op.op.packet.kind == RESPONSE ==> Heard(w, op.op.packet, prompt)
    ensures AnswerInv(WorldStep(w, op), prompt)
  {
    hide WorldInv, HubStep, Execute, EntryExplained, Truthful, Heard, AdmitCommand, AnswerInv;
    match op
    case OnHub(hubOp) => HubStepExplained(w, hubOp, prompt);
    case ExecuteOp(device) => ExecutionExplained(w, device, prompt);
    case _ => OnlyNode(w, op, prompt);
  }

  lemma HubStepExplained(w: World, op: HubOp, prompt: bool)
    requires WorldInv(w) && AnswerInv(w, prompt)
    requires op.ReceiveOp? && op.packet.kind == RESPONSE ==> Heard(w, op.packet, prompt)
    ensures AnswerInv(w.(hub := HubStep(w.hub, op)), prompt)
  {
    hide WorldInv, HubStep, Heard, AnswerInv;
    match op
    case SubmitOp(_, _, _, _, _) =>
      SubmitExplained(w, op, prompt);
      SubmitIsStep(w.hub, op);
    case ReceiveOp(p) => ReceiveExplained(w, p, prompt);
    case ServiceOp(now) => ServiceExplained(w, now, prompt);
    case _ => OtherHubStepExplained(w, op, prompt);
  }

  lemma SubmitIsStep(h: HubRun, op: HubOp)
    requires op.SubmitOp?
    ensures HubStep(h, op) == HubSubmit(h, op)
  {
    hide HubSubmit;
  }

  lemma OnlyNode(w: World, op: WorldOp, prompt: bool)
    requires AnswerInv(w, prompt) && (op.Deliver? || op.NodeReset?)
    ensures AnswerInv(WorldStep(w, op), prompt)
  {
    hide EntryExplained, Truthful, AdmitCommand;
  }

  lemma {:induction false} RunExplained(ops: seq<WorldOp>, prompt: bool)
    requires Authentic(ops, prompt)
    ensures AnswerInv(RunWorld(ops), prompt)
    decreases |ops|
  {
    hide WorldInv, WorldStep, Heard, AnswerInv;
    if ops == [] {
      NothingToExplain(prompt);
    } else {
      var before := ops[..|ops| - 1];
      RunExplained(before, prompt);
      RunWorldKeeps(before);
      StepExplained(RunWorld(before), ops[|ops| - 1], prompt);
    }
  }

  lemma NothingToExplain(prompt: bool)
    ensures AnswerInv(NEW_WORLD, prompt)
  {
  }

  /**
   Over every run in which packets are not forged, with any loss, repetition,
   delay, resets and device states: every response returned for a request that
   was sent names that request, and is a radio rejection, a radio timeout, or the
   status and value of a reply the Node made to a command with the same sequence
   number and operation.
   */
  lemma HostIsToldANodeAnswer(ops: seq<WorldOp>)
    requires Authentic(ops, false)
    ensures var w := RunWorld(ops);
      forall i :: 0 <= i < |w.hub.log| ==> EntryExplained(w.hub.log[i], w.replies, false)
  {
    RunExplained(ops, false);
    hide RunWorld, EntryExplained;
  }

  /** The Node executed exactly this request on some device, and this is its answer. */
  predicate AnswerTo(request: HostRequest, device: NodeOperations.Device, response: HostResponse) {
    var answer := NodeOperations.ExecuteOperation(device, request.operation, Request(request.target, request.value));
    response == HostResponse(request, OPERATION_RESULT, answer.status, answer.value)
  }

  /**
   When, moreover, no reply made for another command is taken for the one awaited,
   as a link that forgets packets before a sequence number returns guarantees: the
   response is a radio result or exactly the Node's answer to that very request.
   */
  lemma HostIsToldTheNodesAnswer(ops: seq<WorldOp>, i: nat, j: nat)
    requires Authentic(ops, true)
    requires i < |RunWorld(ops).hub.log| && RunWorld(ops).hub.log[i].commands != [] && j < |RunWorld(ops).hub.log[i].outcomes|
    ensures var w := RunWorld(ops);
      var a := w.hub.log[i];
      var response := a.outcomes[j].response;
      && DecodeHostRequest(a.minor, a.payload) == Some(response.request)
      && (|| response == HostResponse(response.request, RADIO_RESULT, 7, NO_VALUE)
          || response == HostResponse(response.request, RADIO_RESULT, 6, NO_VALUE)
          || exists k :: 0 <= k < |w.replies| && w.replies[k].command == a.commands[0]
                         && AnswerTo(response.request, w.replies[k].device, response))
  {
    hide RunWorld, DecodeHostRequest, DecodeRequest, DecodeResponse, NodeOperations.ExecuteOperation;
    RunExplained(ops, true);
    var w := RunWorld(ops);
    var a := w.hub.log[i];
    var response := a.outcomes[j].response;
    assert EntryExplained(a, w.replies, true);
    assert Explained(a, response, w.replies, true);
    if response.resultClass != RADIO_RESULT {
      var k :| 0 <= k < |w.replies| && Passes(a, response, w.replies[k], true);
      assert AnswerTo(response.request, w.replies[k].device, response);
    }
  }

  // ----- a whole exchange

  /** The command a Hub sends for a request, under the next sequence number. */
  function CommandFor(sequence: u8, payload: seq<u8>, s: Setting): Packet
    requires DecodeHostRequest(1, payload).Some?
  {
    var r := DecodeHostRequest(1, payload).value;
    match EncodeRequest(r.operation, Request(r.target, r.value))
    case None => NO_PACKET
    case Some(bytes) => Packet(COMMAND, s.local, s.peer, sequence, r.operation, bytes)
  }

  lemma CommandAsks(sequence: u8, payload: seq<u8>, s: Setting)
    requires DecodeHostRequest(1, payload).Some?
    ensures var r := DecodeHostRequest(1, payload).value;
      var command := CommandFor(sequence, payload, s);
      && command == Packet(COMMAND, s.local, s.peer, sequence, r.operation, command.payload)
      && EncodeRequest(r.operation, Request(r.target, r.value)) == Some(command.payload)
      && DecodeRequest(r.operation, command.payload) == Some(Request(r.target, r.value)) && StructuredOpcode(r.operation)
      && r.category != EVENT_CATEGORY && command.payload != []
  {
    var r := DecodeHostRequest(1, payload).value;
    HostRequestsAreWireRequests(r);
    RequestBijection(r.operation, Request(r.target, r.value), EncodeRequest(r.operation, Request(r.target, r.value)).value);
  }

  /** A request that nothing stands against puts exactly its command on the air and starts one transaction. */
  lemma FreeSubmission(h: HubRun, requestId: u16, payload: seq<u8>, s: Setting, local: LocalOutcome)
    requires LifecycleInv(h.l) && DecodeHostRequest(1, payload).Some? && Free(h.l, requestId, DecodeHostRequest(1, payload).value, s)
    ensures var g := HubStep(h, SubmitOp(requestId, 1, payload, s, local));
      var command := CommandFor(h.l.bridge.nextSequence, payload, s);
      && g.log == h.log + [Accepted(requestId, 1, payload, [command], s.maxRetries, [], false)]
      && g.sent == h.sent + [Sent(h.finished, command)]
      && g.l.state == ACTIVE_REQUEST && g.l.entry.requestId == requestId && g.l.bridge.active
      && g.l.bridge.request == DecodeHostRequest(1, payload).value && BridgeInv(g.l.bridge)
      && g.l.bridge.transaction.command == command && g.l.bridge.transaction.target == g.l.bridge.request.target
      && g.l.bridge.transaction.deadline == Wrap32(s.now as int + s.timeout)
      && g.l.bridge.transaction.retries == 0 && g.l.bridge.transaction.maxRetries == s.maxRetries
  {
    DecodedFits(1, payload);
    CommandAsks(h.l.bridge.nextSequence, payload, s);
    ValidUnderOne(payload);
    hide DecodeHostRequest, DecodeRequest, EncodeRequest, CommandFor, StructuredOpcode;
  }

  lemma ValidUnderOne(payload: seq<u8>)
    requires DecodeHostRequest(1, payload).Some?
    ensures Validate(1, DecodeHostRequest(1, payload).value) == VALID_REQUEST
  {
  }

  /** The Node admits and executes a delivered command that is new to it, and its reply carries its answer. */
  lemma CommandExecuted(w: World, sequence: u8, payload: seq<u8>, s: Setting, d: NodeOperations.Device, k: nat)
    requires DecodeHostRequest(1, payload).Some? && w.position <= k < |w.hub.sent|
    requires w.hub.sent[k].packet == CommandFor(sequence, payload, s)
    requires !w.node.Pending? && !IsDuplicate(w.node, CommandFor(sequence, payload, s))
    ensures var v := WorldStep(WorldStep(w, Deliver(k, s.peer, s.local)), ExecuteOp(d));
      var command := CommandFor(sequence, payload, s);
      && v.hub == w.hub && |v.replies| == |w.replies| + 1
      && var y := v.replies[|w.replies|];
      && Truthful(y) && y.command == command && y.device == d && Execute(d, Pending(command)).1 == Some(y.packet)
  {
    CommandAsks(sequence, payload, s);
    var command := CommandFor(sequence, payload, s);
    hide DecodeHostRequest, DecodeResponse, EncodeRequest, Execute, NodeOperations.ExecuteOperation, StructuredOpcode,
      DecodeRequest, CommandFor, IsDuplicate;
    assert WorldStep(w, Deliver(k, s.peer, s.local)).node == Pending(command);
    ExecutionCompletes(d, Pending(command));
    ExecutionReplies(d, Pending(command));
  }

  /** A correlated result ends the request in progress with its own status and value. */
  lemma ResultEndsRequest(w: World, p: Packet, answer: Response)
    requires w.hub.l.state == ACTIVE_REQUEST && w.hub.log != [] && BridgeInv(w.hub.l.bridge) && w.hub.l.bridge.active
    requires Correlates(w.hub.l.bridge, p) && p.kind == RESPONSE && DecodeResponse(p.opcode, p.payload) == Some(answer)
    requires answer.target == w.hub.l.bridge.transaction.target
    ensures var n := |w.hub.log| - 1;
      var v := WorldStep(w, OnHub(ReceiveOp(p))).hub;
      && |v.log| == n + 1
      && v.log[n].outcomes == w.hub.log[n].outcomes
           + [Outcome(w.hub.l.entry.requestId, HostResponse(w.hub.l.bridge.request, OPERATION_RESULT, answer.status, answer.value))]
  {
    hide DecodeResponse, BridgeReceive;
    BridgeReceiveEffects(w.hub.l.bridge, p);
  }

  /** A truthful reply to a command with this sequence number, operation and target is a result for it. */
  lemma ReplyCorrelates(first: seq<u8>, second: seq<u8>, sequence: u8, s: Setting, y: Reply)
    requires DecodeHostRequest(1, first).Some? && DecodeHostRequest(1, second).Some? && Truthful(y)
    requires y.command == CommandFor(sequence, first, s)
    requires var r, q := DecodeHostRequest(1, first).value, DecodeHostRequest(1, second).value;
      r.operation == q.operation && r.target == q.target
    ensures var r, q := DecodeHostRequest(1, first).value, DecodeHostRequest(1, second).value;
      var answer := NodeOperations.ExecuteOperation(y.device, r.operation, Request(r.target, r.value));
      var command := CommandFor(sequence, second, s);
      && DecodeResponse(y.packet.opcode, y.packet.payload) == Some(answer) && answer.target == q.target && y.packet.kind == RESPONSE
      && command.opcode == y.packet.opcode && command.sequence == y.packet.sequence
      && command.source == y.packet.destination && command.destination == y.packet.source
  {
    CommandAsks(sequence, first, s);
    CommandAsks(sequence, second, s);
    var r := DecodeHostRequest(1, first).value;
    NodeOperations.EveryReplyEncodes(y.device, r.operation, CommandFor(sequence, first, s).payload);
    hide DecodeHostRequest, DecodeRequest, DecodeResponse, EncodeRequest, NodeOperations.ExecuteOperation, CommandFor,
      NodeOperations.ReplyPayload;
  }

  /**
   The whole way and back.  After any run, a valid request that nothing stands
   against, whose command reaches a Node that is idle and has not just executed the
   same one, and whose reply reaches the Hub: the Host gets one response, with the
   status and value of executing exactly that request on that Node.
   */
  lemma RequestRoundTrip(ops: seq<WorldOp>, requestId: u16, payload: seq<u8>, s: Setting, local: LocalOutcome, d: NodeOperations.Device)
    requires var w := RunWorld(ops);
      && DecodeHostRequest(1, payload).Some? && Free(w.hub.l, requestId, DecodeHostRequest(1, payload).value, s)
      && !w.node.Pending? && !IsDuplicate(w.node, CommandFor(w.hub.l.bridge.nextSequence, payload, s))
    ensures var w := RunWorld(ops);
      var r := DecodeHostRequest(1, payload).value;
      var sent := WorldStep(w, OnHub(SubmitOp(requestId, 1, payload, s, local)));
      var done := WorldStep(WorldStep(sent, Deliver(|w.hub.sent|, s.peer, s.local)), ExecuteOp(d));
      var answer := NodeOperations.ExecuteOperation(d, r.operation, Request(r.target, r.value));
      && |done.replies| == |w.replies| + 1
      && var log := WorldStep(done, OnHub(ReceiveOp(done.replies[|w.replies|].packet))).hub.log;
      && |log| == |w.hub.log| + 1 && log[|w.hub.log|].requestId == requestId
      && log[|w.hub.log|].outcomes == [Outcome(requestId, HostResponse(r, OPERATION_RESULT, answer.status, answer.value))]
  {
    var w := RunWorld(ops);
    var sequence := w.hub.l.bridge.nextSequence;
    RunWorldKeeps(ops);
    assert LifecycleInv(w.hub.l);
    Positioned(ops);
    hide RunWorld, DecodeHostRequest, WorldInv, HubStep, Free, CommandFor, Truthful, IsDuplicate, Execute, DecodeResponse,
      NodeOperations.ExecuteOperation, BridgeInv;
    FreeSubmission(w.hub, requestId, payload, s, local);
    var sent := WorldStep(w, OnHub(SubmitOp(requestId, 1, payload, s, local)));
    CommandExecuted(sent, sequence, payload, s, d, |w.hub.sent|);
    var done := WorldStep(WorldStep(sent, Deliver(|w.hub.sent|, s.peer, s.local)), ExecuteOp(d));
    ReplyCorrelates(payload, payload, sequence, s, done.replies[|w.replies|]);
    var r := DecodeHostRequest(1, payload).value;
    ResultEndsRequest(done, done.replies[|w.replies|].packet,
                      NodeOperations.ExecuteOperation(d, r.operation, Request(r.target, r.value)));
  }

  lemma {:induction false} Positioned(ops: seq<WorldOp>)
    ensures RunWorld(ops).position <= |RunWorld(ops).hub.sent|
    decreases |ops|
  {
    hide HubStep, AdmitCommand, Execute;
    if ops != [] {
      Positioned(ops[..|ops| - 1]);
      if ops[|ops| - 1].OnHub? {
        HubKeepsSent(RunWorld(ops[..|ops| - 1]).hub, ops[|ops| - 1].op);
      }
    }
  }

  // ----- why the answer must be prompt

  lemma OneMore(ops: seq<WorldOp>, op: WorldOp)
    ensures RunWorld(ops + [op]) == WorldStep(RunWorld(ops), op)
    ensures Authentic(ops, false)
            && (op.OnHub? && op.op.ReceiveOp? && op.op.packet.kind == RESPONSE ==> Heard(RunWorld(ops), op.op.packet, false))
            ==> Authentic(ops + [op], false)
  {
    hide WorldStep, Heard;
    assert (ops + [op])[..|ops|] == ops;
  }

  lemma RunOfFive(ops: seq<WorldOp>)
    requires |ops| == 5 && forall k :: 0 <= k < 5 ==> !(ops[k].OnHub? && ops[k].op.ReceiveOp?)
    ensures Authentic(ops, false)
    ensures RunWorld(ops)
         == WorldStep(WorldStep(WorldStep(WorldStep(WorldStep(NEW_WORLD, ops[0]), ops[1]), ops[2]), ops[3]), ops[4])
  {
    hide WorldStep, Heard;
    assert RunWorld([]) == NEW_WORLD && Authentic([], false);
    assert [] + [ops[0]] == ops[..1] && ops[..1] + [ops[1]] == ops[..2] && ops[..2] + [ops[2]] == ops[..3]
           && ops[..3] + [ops[3]] == ops[..4] && ops[..4] + [ops[4]] == ops;
    hide RunWorld, Authentic;
    OneMore([], ops[0]);
    OneMore(ops[..1], ops[1]);
    OneMore(ops[..2], ops[2]);
    OneMore(ops[..3], ops[3]);
    OneMore(ops[..4], ops[4]);
  }

  /** Two requests for the peer that differ in nothing but the value. */
  predicate Siblings(first: seq<u8>, second: seq<u8>, s: Setting) {
    match (DecodeHostRequest(1, first), DecodeHostRequest(1, second))
    case (Some(r), Some(q)) =>
      && r.operation == q.operation && r.target == q.target && r.device == q.device == s.peer != s.local
      && s.isHub && s.configured
    case (_, _) => false
  }

  /** The run: a request is executed, the Hub restarts before the reply arrives, and asks its sibling. */
  function StaleRun(first: seq<u8>, second: seq<u8>, s: Setting, d: NodeOperations.Device): seq<WorldOp> {
    [OnHub(SubmitOp(1, 1, first, s, Unhandled)), Deliver(0, s.peer, s.local), ExecuteOp(d), OnHub(ResetOp),
     OnHub(SubmitOp(2, 1, second, s, Unhandled))]
  }

  lemma StaleReset(first: seq<u8>, second: seq<u8>, s: Setting, d: NodeOperations.Device)
    requires Siblings(first, second, s)
    ensures var ops := StaleRun(first, second, s, d);
      var w := WorldStep(WorldStep(WorldStep(WorldStep(NEW_WORLD, ops[0]), ops[1]), ops[2]), ops[3]);
      && w.hub.l == NEW_LIFECYCLE && |w.hub.log| == 1 && |w.replies| == 1 && Truthful(w.replies[0])
      && w.replies[0].command == CommandFor(0, first, s) && w.replies[0].device == d
      && Execute(d, Pending(CommandFor(0, first, s))).1 == Some(w.replies[0].packet)
  {
    hide DecodeHostRequest, CommandFor, Truthful, Execute, BridgeInv, HubSubmit;
    FreeSubmission(NEW_HUB, 1, first, s, Unhandled);
    CommandExecuted(WorldStep(NEW_WORLD, OnHub(SubmitOp(1, 1, first, s, Unhandled))), 0, first, s, d, 0);
  }

  lemma StaleRunReached(first: seq<u8>, second: seq<u8>, s: Setting, d: NodeOperations.Device)
    requires Siblings(first, second, s)
    ensures var w := RunWorld(StaleRun(first, second, s, d));
      && Authentic(StaleRun(first, second, s, d), false)
      && |w.replies| == 1 && w.replies[0].command == CommandFor(0, first, s) && w.replies[0].device == d && Truthful(w.replies[0])
      && Execute(d, Pending(CommandFor(0, first, s))).1 == Some(w.replies[0].packet)
      && |w.hub.log| == 2 && w.hub.log[1].outcomes == [] && w.hub.l.state == ACTIVE_REQUEST
      && w.hub.l.entry.requestId == 2 && w.hub.l.bridge.active && BridgeInv(w.hub.l.bridge)
      && w.hub.l.bridge.request == DecodeHostRequest(1, second).value
      && w.hub.l.bridge.transaction.command == CommandFor(0, second, s)
      && w.hub.l.bridge.transaction.target == w.hub.l.bridge.request.target
  {
    var ops := StaleRun(first, second, s, d);
    RunOfFive(ops);
    hide RunWorld, Authentic, DecodeHostRequest, CommandFor, Truthful, Execute, BridgeInv, HubStep;
    StaleReset(first, second, s, d);
    var w4 := WorldStep(WorldStep(WorldStep(WorldStep(NEW_WORLD, ops[0]), ops[1]), ops[2]), ops[3]);
    FreeSubmission(w4.hub, 2, second, s, Unhandled);
  }

  /**
   Why the answer must be prompt: with nothing forged, the Hub returns the Node's
   answer to one request as the answer to its sibling, for any device and any two
   requests that differ only in the value.
   */
  lemma StaleReplyIsTaken(first: seq<u8>, second: seq<u8>, s: Setting, d: NodeOperations.Device, reply: Packet)
    requires Siblings(first, second, s)
    requires Execute(d, Pending(CommandFor(0, first, s))).1 == Some(reply)
    ensures var ops := StaleRun(first, second, s, d) + [OnHub(ReceiveOp(reply))];
      var r, q := DecodeHostRequest(1, first).value, DecodeHostRequest(1, second).value;
      var answer := NodeOperations.ExecuteOperation(d, r.operation, Request(r.target, r.value));
      && Authentic(ops, false) && |RunWorld(ops).hub.log| == 2
      && RunWorld(ops).hub.log[1].outcomes == [Outcome(2, HostResponse(q, OPERATION_RESULT, answer.status, answer.value))]
  {
    var ops := StaleRun(first, second, s, d);
    var w := RunWorld(ops);
    var r := DecodeHostRequest(1, first).value;
    StaleRunReached(first, second, s, d);
    ReplyCorrelates(first, second, 0, s, w.replies[0]);
    hide DecodeHostRequest, DecodeResponse, Execute, NodeOperations.ExecuteOperation, RunWorld, Authentic, StaleRun, Truthful,
      CommandFor, WorldStep;
    OneMore(ops, OnHub(ReceiveOp(reply)));
    assert Heard(w, reply, false);
    ResultEndsRequest(w, reply, NodeOperations.ExecuteOperation(d, r.operation, Request(r.target, r.value)));
  }
}
