/**
 What the Node answers to an admitted operation
 (lib/radio_operation_bridge/src/radio_operation_bridge.h,
 lib/host_operation_service/src/host_device_service.h and host_operation_service.h).
 The device it runs on is a parameter; every reply is shown to be encodable.
 */
module NodeOperations {
  import opened Words
  import opened WireOperations

  const CAPABILITY_NOT_FOUND: u8 := 1
  const UNSUPPORTED: u8 := 2
  const INVALID_VALUE_TYPE: u8 := 3
  const VALUE_OUT_OF_RANGE: u8 := 4
  const UNAUTHORIZED: u8 := 5
  const OPERATION_FAILED: u8 := 8
  const INVALID_DESCRIPTOR: u8 := 0x0A

  datatype Role = HUB | NODE
  datatype Health = HEALTHY | DEGRADED | FAILING

  datatype Descriptor = Descriptor(id: u16, kind: u8, flags: u8, valueType: u8, unit: u8)

  type Counters = s: seq<u32> | |s| == 10 witness [0, 0, 0, 0, 0, 0, 0, 0, 0, 0]

  /** A registry that validates holds at most sixteen capabilities. */
  type Registry = s: seq<Descriptor> | |s| <= 16

  /**
   The device at the moment of execution.  `registry` is absent when it does not
   validate; `available` may fail; `reading` is what the local handler returns.
   */
  datatype Device = Device(
    id: u8, role: Role, ready: bool, transacting: bool, health: Health, uptime: u32,
    retransmissions: u32, timeouts: u32, counters: Counters,
    registry: Option<Registry>, available: u16 -> Option<bool>, reading: Descriptor -> Response)

  function FindFrom(registry: seq<Descriptor>, id: u16, i: nat): Option<Descriptor>
    decreases |registry| - i
  {
    if i >= |registry| then None else if registry[i].id == id then Some(registry[i]) else FindFrom(registry, id, i + 1)
  }

  function FindCapability(registry: seq<Descriptor>, id: u16): Option<Descriptor> {
    if id == 0 then None else FindFrom(registry, id, 0)
  }

  function Failure(request: Request, status: u8): Response {
    Response(status, request.target, NO_VALUE)
  }

  // ----- capability access by a remote caller

  datatype Caller = FIRMWARE_LOCAL | UI_LOCAL | TEST | FUTURE_REMOTE | HOST_LOCAL

  predicate Readable(c: Descriptor) {
    c.flags / 2 % 2 == 1
  }

  predicate Authorized(caller: Caller) {
    caller != FUTURE_REMOTE
  }

  /** The handler's outcome, accepted only with a status it owns and a value of the declared type. */
  function HandlerOutcome(d: Device, c: Descriptor, request: Request): Response {
    var r := d.reading(c);
    if r.status !in {OK_STATUS, 7, OPERATION_FAILED, 9} then Failure(request, OPERATION_FAILED)
    else if r.status != OK_STATUS then Failure(request, r.status)
    else if !Scalar(r.value) || r.value.kind != c.valueType then Failure(request, OPERATION_FAILED)
    else Response(OK_STATUS, request.target, r.value)
  }

  function AccessCapability(d: Device, caller: Caller, opcode: u8, request: Request): Response {
    if !Scalar(request.value) then Failure(request, INVALID_VALUE_TYPE)
    else
      match d.registry
      case None => Failure(request, INVALID_DESCRIPTOR)
      case Some(registry) =>
        match FindCapability(registry, request.target)
        case None => Failure(request, CAPABILITY_NOT_FOUND)
        case Some(c) =>
          if opcode == SET_INDICATOR then Failure(request, UNAUTHORIZED)
          else if !Readable(c) then Failure(request, UNSUPPORTED)
          else if !Authorized(caller) then Failure(request, UNAUTHORIZED)
          else if request.value != NO_VALUE then Failure(request, INVALID_VALUE_TYPE)
          else HandlerOutcome(d, c, request)
  }

  // ----- device, capability and diagnostic records

  function Saturate16(x: u32): u16 {
    if x > 0xFFFF then 0xFFFF else x
  }

  function StatusFlags(d: Device): u16 {
    (if d.ready then 3 else 0) + (if d.transacting then 4 else 0)
    + (match d.health case HEALTHY => 0 case DEGRADED => 8 case FAILING => 16)
  }

  /** The cursor of a paged request; none means the beginning. */
  function Cursor(v: Value): u32
    requires v == NO_VALUE || Unsigned32(v)
  {
    if v == NO_VALUE then 0 else Read32(v.bytes, 0)
  }

  function Words16(ids: seq<u16>): seq<u8> {
    if ids == [] then [] else Le16(ids[0]) + Words16(ids[1..])
  }

  function Identifiers(registry: seq<Descriptor>, from: nat, to: nat): (ids: seq<u16>)
    requires from <= to <= |registry|
    ensures |ids| == to - from
    decreases |registry| - from
  {
    if from == to then [] else [registry[from].id] + Identifiers(registry, from + 1, to)
  }

  function CapabilityPage(d: Device, request: Request): Response
    requires request.value == NO_VALUE || Unsigned32(request.value)
  {
    match d.registry
    case None => Failure(request, INVALID_DESCRIPTOR)
    case Some(registry) =>
      var cursor := Cursor(request.value);
      if cursor > |registry| then Failure(request, VALUE_OUT_OF_RANGE)
      else
        var end := if cursor + 9 < |registry| then cursor + 9 else |registry|;
        var ids := Identifiers(registry, cursor, end);
        var next: u16 := if end == |registry| then 0xFFFF else end;
        if 0 in ids then Failure(request, OPERATION_FAILED)
        else Response(OK_STATUS, request.target, Value(STRUCTURE_TYPE, Le16(next) + [|ids|] + Words16(ids)))
  }

  function Description(d: Device, request: Request): Response {
    match d.registry
    case None => Failure(request, INVALID_DESCRIPTOR)
    case Some(registry) =>
      match FindCapability(registry, request.target)
      case None => Failure(request, CAPABILITY_NOT_FOUND)
      case Some(c) =>
        match d.available(c.id)
        case None => Failure(request, INVALID_DESCRIPTOR)
        case Some(available) =>
          if !KnownCapabilityClass(c.kind) || !KnownValueType(c.valueType) || !KnownOperationFlags(c.flags) || !KnownUnit(c.unit)
          then Failure(request, OPERATION_FAILED)
          else
            Response(OK_STATUS, request.target,
                     Value(STRUCTURE_TYPE, [c.kind, c.valueType, c.flags, c.unit, if available then 1 else 0, 0]))
  }

  function Metrics(counters: Counters, from: nat, to: nat): seq<u8>
    requires from <= to <= 10
    decreases 10 - from
  {
    if from == to then [] else [from + 1] + Le32(counters[from]) + Metrics(counters, from + 1, to)
  }

  function DiagnosticPage(d: Device, request: Request): Response
    requires request.value == NO_VALUE || Unsigned32(request.value)
  {
    var cursor := Cursor(request.value);
    if cursor > 10 then Failure(request, VALUE_OUT_OF_RANGE)
    else
      var end: u8 := if cursor + 3 < 10 then cursor + 3 else 10;
      var next: u8 := if end == 10 then 0xFF else end;
      Response(OK_STATUS, request.target,
               Value(STRUCTURE_TYPE, [next, end - cursor] + Metrics(d.counters, cursor, end)))
  }

  function DeviceInfo(d: Device): seq<u8> {
    [0, 7, 0, 1, 1, 1, if d.role == HUB then 1 else 2, d.id]
  }

  function DeviceStatus(d: Device): seq<u8> {
    Le16(StatusFlags(d)) + Le32(d.uptime) + Le16(Saturate16(d.retransmissions)) + Le16(Saturate16(d.timeouts))
  }

  /** The category under which the local service handles an operation. */
  function CategoryFor(opcode: u8): u8 {
    if opcode <= GET_STATUS then DEVICE_CATEGORY
    else if opcode <= SET_INDICATOR then CAPABILITY_CATEGORY
    else if opcode == RUN_PROCEDURE then PROCEDURE_CATEGORY
    else DIAGNOSTIC_CATEGORY
  }

  /** The local service's rejection codes double as statuses on the radio. */
  function ServeLocally(d: Device, opcode: u8, request: Request): Response
    requires opcode !in {READ_CAPABILITY, SET_INDICATOR, RUN_PROCEDURE}
  {
    match Validate(1, HostRequest(CategoryFor(opcode), opcode, d.id, request.target, request.value))
    case UNSUPPORTED_PAIR => Failure(request, 2)
    case INVALID_FIELD => Failure(request, 1)
    case VALID_REQUEST =>
      if opcode == PING then Response(OK_STATUS, request.target, Value(UNSIGNED_32_TYPE, Le32(d.uptime)))
      else if opcode == GET_DEVICE_INFO then Response(OK_STATUS, request.target, Value(STRUCTURE_TYPE, DeviceInfo(d)))
      else if opcode == GET_STATUS then Response(OK_STATUS, request.target, Value(STRUCTURE_TYPE, DeviceStatus(d)))
      else if opcode == GET_CAPABILITIES then CapabilityPage(d, request)
      else if opcode == DESCRIBE_CAPABILITY then Description(d, request)
      else DiagnosticPage(d, request)
  }

  function ExecuteOperation(d: Device, opcode: u8, request: Request): Response {
    if opcode == READ_CAPABILITY || opcode == SET_INDICATOR then AccessCapability(d, FUTURE_REMOTE, opcode, request)
    else if opcode == RUN_PROCEDURE then Failure(request, UNAUTHORIZED)
    else ServeLocally(d, opcode, request)
  }

  /** The payload of the reply; empty when it does not encode. */
  function ReplyPayload(d: Device, opcode: u8, payload: seq<u8>): seq<u8> {
    match DecodeRequest(opcode, payload)
    case None => []
    case Some(request) =>
      match EncodeResponse(opcode, ExecuteOperation(d, opcode, request))
      case None => []
      case Some(reply) => reply
  }

  // ----- every reply is encodable

  lemma {:induction false} Words16Reads(ids: seq<u16>, front: seq<u8>)
    requires 0 !in ids
    ensures |Words16(ids)| == 2 * |ids|
    ensures NonzeroWords(front + Words16(ids), |front|, |ids|)
    decreases |ids|
  {
    hide Le16, Read16;
    if ids != [] {
      var b := front + Words16(ids);
      var word := Le16(ids[0]);
      Words16Reads(ids[1..], front + word);
      ConcatAssociative(front, word, Words16(ids[1..]));
      assert b[|front|..|front| + 2] == word;
      Read16OfLe16(b, |front|, ids[0]);
      NonzeroFirst(b, |front|, |ids|);
    }
  }

  lemma NonzeroFirst(b: seq<u8>, at: nat, count: nat)
    requires count > 0 && at + 2 * count <= |b|
    requires Read16(b, at) != 0 && NonzeroWords(b, at + 2, count - 1)
    ensures NonzeroWords(b, at, count)
  {
    hide Read16;
    forall i | 0 <= i < count ensures Read16(b, at + 2 * i) != 0 {
      if i > 0 {
        assert Read16(b, at + 2 + 2 * (i - 1)) != 0;
        assert at + 2 + 2 * (i - 1) == at + 2 * i;
      } else {
        assert at + 2 * i == at;
      }
    }
  }

  lemma {:induction false} MetricsLength(counters: Counters, from: nat, to: nat)
    requires from <= to <= 10
    ensures |Metrics(counters, from, to)| == 5 * (to - from)
    decreases 10 - from
  {
    if from < to {
      MetricsLength(counters, from + 1, to);
    }
  }

  lemma PageIsValid(d: Device, request: Request)
    requires ValidRequest(GET_CAPABILITIES, request)
    ensures ValidResponse(GET_CAPABILITIES, CapabilityPage(d, request))
  {
    var r := CapabilityPage(d, request);
    if r.status == OK_STATUS {
      var registry := d.registry.value;
      var cursor := Cursor(request.value);
      var end := if cursor + 9 < |registry| then cursor + 9 else |registry|;
      var ids := Identifiers(registry, cursor, end);
      var next: u16 := if end == |registry| then 0xFFFF else end;
      Words16Reads(ids, Le16(next) + [|ids|]);
      assert r.value.bytes[2] == |ids|;
    }
  }

  lemma DiagnosticsAreValid(d: Device, request: Request)
    requires ValidRequest(GET_DIAGNOSTICS, request)
    ensures ValidResponse(GET_DIAGNOSTICS, DiagnosticPage(d, request))
  {
    var cursor := Cursor(request.value);
    if cursor <= 10 {
      var end := if cursor + 3 < 10 then cursor + 3 else 10;
      MetricsLength(d.counters, cursor, end);
    }
  }

  /** A remote caller is never authorised, so the local handler is never reached. */
  lemma RemoteCapabilityIsRefused(d: Device, opcode: u8, request: Request)
    ensures var r := AccessCapability(d, FUTURE_REMOTE, opcode, request);
      r.status != OK_STATUS && KnownStatus(r.status) && r.value == NO_VALUE && r.target == request.target
    ensures forall e: Device :: e.registry == d.registry ==>
      AccessCapability(e, FUTURE_REMOTE, opcode, request) == AccessCapability(d, FUTURE_REMOTE, opcode, request)
  {
  }

  lemma StatusIsValid(d: Device)
    ensures |DeviceStatus(d)| == 10 && Read16(DeviceStatus(d), 0) < 0x20
  {
    assert DeviceStatus(d)[0..2] == Le16(StatusFlags(d));
    Read16OfLe16(DeviceStatus(d), 0, StatusFlags(d));
  }

  /** Whatever the device and its registry, the answer to a valid request is a valid response for its target. */
  lemma AnswersAreValid(d: Device, opcode: u8, request: Request)
    requires ValidRequest(opcode, request)
    ensures ValidResponse(opcode, ExecuteOperation(d, opcode, request))
    ensures ExecuteOperation(d, opcode, request).target == request.target
  {
    RemoteCapabilityIsRefused(d, opcode, request);
    HostRequestsAreWireRequests(HostRequest(CategoryFor(opcode), opcode, d.id, request.target, request.value));
    if opcode == GET_CAPABILITIES {
      PageIsValid(d, request);
    } else if opcode == GET_DIAGNOSTICS {
      DiagnosticsAreValid(d, request);
    } else if opcode == GET_STATUS {
      StatusIsValid(d);
    }
    hide CapabilityPage, DiagnosticPage, AccessCapability, DeviceStatus, NonzeroWords, Validate;
  }

  /**
   Every operation the Node admits gets a reply that encodes, decodes to exactly
   what was answered, and carries the target of the request.
   */
  lemma EveryReplyEncodes(d: Device, opcode: u8, payload: seq<u8>)
    requires DecodeRequest(opcode, payload).Some?
    ensures var request := DecodeRequest(opcode, payload).value;
      var reply := ReplyPayload(d, opcode, payload);
      && reply != []
      && DecodeResponse(opcode, reply) == Some(ExecuteOperation(d, opcode, request))
      && DecodeResponse(opcode, reply).value.target == request.target
  {
    hide ValidRequest, ValidResponse, ExecuteOperation;
    var request := DecodeRequest(opcode, payload).value;
    DecodedIsValid(opcode, payload);
    AnswersAreValid(d, opcode, request);
    var r := ExecuteOperation(d, opcode, request);
    ResponseBijection(opcode, r, []);
    ResponseBijection(opcode, r, ReplyPayload(d, opcode, payload));
  }

  lemma DecodedIsValid(opcode: u8, payload: seq<u8>)
    requires DecodeRequest(opcode, payload).Some?
    ensures ValidRequest(opcode, DecodeRequest(opcode, payload).value)
  {
  }

  // ----- what the answers say

  /** A ping answers the device's uptime. */
  lemma PingAnswersUptime(d: Device, request: Request)
    requires ValidRequest(PING, request)
    ensures var r := ExecuteOperation(d, PING, request);
      r.status == OK_STATUS && r.value.kind == UNSIGNED_32_TYPE && |r.value.bytes| == 4 && Read32(r.value.bytes, 0) == d.uptime
  {
    Read32OfLe32(Le32(d.uptime), 0, d.uptime);
    hide Le32, Read32;
  }

  /** One page of a listing as the Host reads it: where to go on, and the entries. */
  datatype Page<T> = Page(next: u16, entries: seq<T>)

  function PageRequest(cursor: u32): Request {
    Request(0, if cursor == 0 then NO_VALUE else Value(UNSIGNED_32_TYPE, Le32(cursor)))
  }

  function ReadWords(b: seq<u8>, at: nat, count: nat): seq<u16>
    requires at + 2 * count <= |b|
    decreases count
  {
    if count == 0 then [] else [Read16(b, at)] + ReadWords(b, at + 2, count - 1)
  }

  function ReadCapabilities(r: Response): Option<Page<u16>> {
    var b := r.value.bytes;
    if r.status != OK_STATUS || |b| < 3 || |b| != 3 + 2 * b[2] as int then None
    else Some(Page(Read16(b, 0), ReadWords(b, 3, b[2])))
  }

  /** The identifiers of the capabilities, following at most `pages` cursors. */
  function ListCapabilities(d: Device, cursor: u32, pages: nat): Option<seq<u16>>
    decreases pages
  {
    if pages == 0 then None
    else
      match ReadCapabilities(ExecuteOperation(d, GET_CAPABILITIES, PageRequest(cursor)))
      case None => None
      case Some(Page(next, ids)) =>
        if next == 0xFFFF then Some(ids)
        else
          match ListCapabilities(d, next, pages - 1)
          case None => None
          case Some(rest) => Some(ids + rest)
  }

  lemma {:induction false} WordsRead(front: seq<u8>, ids: seq<u16>)
    ensures |Words16(ids)| == 2 * |ids| && ReadWords(front + Words16(ids), |front|, |ids|) == ids
    decreases |ids|
  {
    hide Le16, Read16;
    Words16Length(ids);
    if ids != [] {
      var b := front + Words16(ids);
      var word := Le16(ids[0]);
      WordsRead(front + word, ids[1..]);
      ConcatAssociative(front, word, Words16(ids[1..]));
      assert b[|front|..|front| + 2] == word;
      Read16OfLe16(b, |front|, ids[0]);
    }
  }

  lemma {:induction false} Words16Length(ids: seq<u16>)
    ensures |Words16(ids)| == 2 * |ids|
  {
    if ids != [] {
      Words16Length(ids[1..]);
    }
  }

  lemma {:induction false} IdentifiersAre(registry: seq<Descriptor>, from: nat, to: nat)
    requires from <= to <= |registry|
    ensures forall i :: 0 <= i < to - from ==> Identifiers(registry, from, to)[i] == registry[from + i].id
    decreases |registry| - from
  {
    if from < to {
      IdentifiersAre(registry, from + 1, to);
    }
  }

  lemma CursorOf(cursor: u32)
    ensures PageRequest(cursor).value == NO_VALUE || Unsigned32(PageRequest(cursor).value)
    ensures Cursor(PageRequest(cursor).value) == cursor
    ensures ValidRequest(GET_CAPABILITIES, PageRequest(cursor)) && ValidRequest(GET_DIAGNOSTICS, PageRequest(cursor))
  {
    Read32OfLe32(Le32(cursor), 0, cursor);
  }

  /** The identifiers registered, in order. */
  function Registered(registry: seq<Descriptor>): seq<u16> {
    seq(|registry|, i requires 0 <= i < |registry| => registry[i].id)
  }

  /** A page is read as it was written. */
  lemma PageReads(next: u16, ids: seq<u16>)
    requires |ids| <= 9
    ensures ReadCapabilities(Response(OK_STATUS, 0, Value(STRUCTURE_TYPE, Le16(next) + [|ids|] + Words16(ids)))) == Some(Page(next, ids))
  {
    var count: u8 := |ids|;
    var front := Le16(next) + [count];
    hide Words16, Le16, Read16, ReadWords;
    WordsRead(front, ids);
    PageSplits(next, count, Words16(ids));
    ReadsAs(Response(OK_STATUS, 0, Value(STRUCTURE_TYPE, front + Words16(ids))), next, ids);
  }

  lemma PageSplits(next: u16, count: u8, words: seq<u8>)
    ensures var b := Le16(next) + [count] + words;
      |b| == 3 + |words| && b[2] == count && Read16(b, 0) == next
  {
    var b := Le16(next) + [count] + words;
    assert b[0..2] == Le16(next);
    Read16OfLe16(b, 0, next);
    hide Le16, Read16;
  }

  lemma ReadsAs(r: Response, next: u16, ids: seq<u16>)
    requires r.status == OK_STATUS && |r.value.bytes| == 3 + 2 * |ids| && r.value.bytes[2] == |ids|
    requires Read16(r.value.bytes, 0) == next && ReadWords(r.value.bytes, 3, |ids|) == ids
    ensures ReadCapabilities(r) == Some(Page(next, ids))
  {
    hide Read16, ReadWords;
  }

  /** A page lists the next nine capabilities at most, in registry order, and where the rest begins. */
  lemma CapabilitiesOnPage(d: Device, cursor: u32)
    requires d.registry.Some? && cursor <= |d.registry.value|
    requires forall i :: 0 <= i < |d.registry.value| ==> d.registry.value[i].id != 0
    ensures var registry := d.registry.value;
      var end := if cursor + 9 < |registry| then cursor as int + 9 else |registry|;
      ReadCapabilities(ExecuteOperation(d, GET_CAPABILITIES, PageRequest(cursor)))
        == Some(Page(if end == |registry| then 0xFFFF else end, Registered(registry)[cursor..end]))
  {
    var registry := d.registry.value;
    var end := if cursor + 9 < |registry| then cursor + 9 else |registry|;
    CursorOf(cursor);
    PageServed(d, PageRequest(cursor));
    hide ExecuteOperation, Le16, ReadCapabilities, Words16, Cursor, CapabilityPage, Registered;
    PageMade(d, PageRequest(cursor), cursor, end);
    PageReads(if end == |registry| then 0xFFFF else end, Registered(registry)[cursor..end]);
  }

  lemma PageMade(d: Device, request: Request, cursor: nat, end: nat)
    requires request.target == 0 && (request.value == NO_VALUE || Unsigned32(request.value)) && Cursor(request.value) == cursor
    requires d.registry.Some? && cursor <= |d.registry.value|
    requires end == if cursor + 9 < |d.registry.value| then cursor + 9 else |d.registry.value|
    requires forall i :: 0 <= i < |d.registry.value| ==> d.registry.value[i].id != 0
    ensures var next: u16 := if end == |d.registry.value| then 0xFFFF else end;
      var ids := Registered(d.registry.value)[cursor..end];
      CapabilityPage(d, request) == Response(OK_STATUS, 0, Value(STRUCTURE_TYPE, Le16(next) + [|ids|] + Words16(ids)))
  {
    hide Le16, Words16, Cursor, Unsigned32;
    var registry := d.registry.value;
    IdentifiersAre(registry, cursor, end);
    assert Identifiers(registry, cursor, end) == Registered(registry)[cursor..end];
  }

  lemma PageServed(d: Device, request: Request)
    requires ValidRequest(GET_CAPABILITIES, request)
    ensures ExecuteOperation(d, GET_CAPABILITIES, request) == CapabilityPage(d, request)
  {
  }

  /** Following the cursors from the start returns every registered capability once, in order, in two pages at most. */
  lemma ListingIsComplete(d: Device)
    requires d.registry.Some? && forall i :: 0 <= i < |d.registry.value| ==> d.registry.value[i].id != 0
    ensures ListCapabilities(d, 0, 2) == Some(Registered(d.registry.value))
  {
    var registry := d.registry.value;
    CapabilitiesOnPage(d, 0);
    if |registry| > 9 {
      CapabilitiesOnPage(d, 9);
      assert Registered(registry)[0..9] + Registered(registry)[9..|registry|] == Registered(registry);
      hide ExecuteOperation, ReadCapabilities, Registered;
      assert ListCapabilities(d, 9, 1) == Some(Registered(registry)[9..|registry|]);
    } else {
      assert Registered(registry)[0..|registry|] == Registered(registry);
      hide ExecuteOperation, ReadCapabilities, Registered;
    }
  }

  /** A status answer reads back as the device's state, with its counters saturated. */
  lemma StatusReads(d: Device, request: Request)
    requires ValidRequest(GET_STATUS, request)
    ensures var r := ExecuteOperation(d, GET_STATUS, request);
      var b := r.value.bytes;
      && r.status == OK_STATUS && |b| == 10
      && (d.ready <==> Read16(b, 0) % 2 == 1) && (d.ready <==> Read16(b, 0) / 2 % 2 == 1)
      && (d.transacting <==> Read16(b, 0) / 4 % 2 == 1)
      && Read16(b, 0) / 8 == (match d.health case HEALTHY => 0 case DEGRADED => 1 case FAILING => 2)
      && Read32(b, 2) == d.uptime
      && Read16(b, 6) == (if d.retransmissions > 0xFFFF then 0xFFFF else d.retransmissions)
      && Read16(b, 8) == (if d.timeouts > 0xFFFF then 0xFFFF else d.timeouts)
  {
    var b := DeviceStatus(d);
    assert b[0..2] == Le16(StatusFlags(d)) && b[2..6] == Le32(d.uptime);
    assert b[6..8] == Le16(Saturate16(d.retransmissions)) && b[8..10] == Le16(Saturate16(d.timeouts));
    Read16OfLe16(b, 0, StatusFlags(d));
    Read32OfLe32(b, 2, d.uptime);
    Read16OfLe16(b, 6, Saturate16(d.retransmissions));
    Read16OfLe16(b, 8, Saturate16(d.timeouts));
    StatusServed(d, request);
    hide ExecuteOperation, DeviceStatus, Le16, Le32, Read16, Read32;
  }

  lemma StatusServed(d: Device, request: Request)
    requires ValidRequest(GET_STATUS, request)
    ensures ExecuteOperation(d, GET_STATUS, request) == Response(OK_STATUS, request.target, Value(STRUCTURE_TYPE, DeviceStatus(d)))
  {
    hide DeviceStatus;
  }

  /** A description carries the class, type, operations, unit and availability of the first capability with that identifier. */
  lemma DescriptionReads(d: Device, request: Request, i: nat)
    requires ValidRequest(DESCRIBE_CAPABILITY, request) && d.registry.Some? && i < |d.registry.value|
    requires d.registry.value[i].id == request.target != 0
    requires forall j :: 0 <= j < i ==> d.registry.value[j].id != request.target
    requires d.available(request.target).Some?
    ensures var c := d.registry.value[i];
      var r := ExecuteOperation(d, DESCRIBE_CAPABILITY, request);
      if KnownCapabilityClass(c.kind) && KnownValueType(c.valueType) && KnownOperationFlags(c.flags) && KnownUnit(c.unit)
      then r == Response(OK_STATUS, request.target, Value(STRUCTURE_TYPE,
                  [c.kind, c.valueType, c.flags, c.unit, if d.available(c.id).value then 1 else 0, 0]))
      else r == Response(OPERATION_FAILED, request.target, NO_VALUE)
  {
    FindsFirst(d.registry.value, request.target, i, 0);
    hide KnownCapabilityClass, KnownValueType, KnownOperationFlags, KnownUnit;
  }

  lemma {:induction false} FindsFirst(registry: seq<Descriptor>, id: u16, i: nat, from: nat)
    requires from <= i < |registry| && registry[i].id == id && forall j :: from <= j < i ==> registry[j].id != id
    ensures FindFrom(registry, id, from) == Some(registry[i])
    decreases i - from
  {
    if from < i {
      FindsFirst(registry, id, i, from + 1);
    }
  }

  // ----- the diagnostic counters

  /** One counter as the Host reads it: its number and its value. */
  datatype Metric = Metric(number: u8, value: u32)

  function ReadMetrics(b: seq<u8>, at: nat, count: nat): seq<Metric>
    requires at + 5 * count <= |b|
    decreases count
  {
    if count == 0 then [] else [Metric(b[at], Read32(b, at + 1))] + ReadMetrics(b, at + 5, count - 1)
  }

  function ReadDiagnostics(r: Response): Option<Page<Metric>> {
    var b := r.value.bytes;
    if r.status != OK_STATUS || |b| < 2 || |b| != 2 + 5 * b[1] as int then None
    else Some(Page(b[0], ReadMetrics(b, 2, b[1])))
  }

  /** The counters, following at most `pages` cursors. */
  function ListCounters(d: Device, cursor: u32, pages: nat): Option<seq<Metric>>
    decreases pages
  {
    if pages == 0 then None
    else
      match ReadDiagnostics(ExecuteOperation(d, GET_DIAGNOSTICS, PageRequest(cursor)))
      case None => None
      case Some(Page(next, metrics)) =>
        if next == 0xFF then Some(metrics)
        else
          match ListCounters(d, next, pages - 1)
          case None => None
          case Some(rest) => Some(metrics + rest)
  }

  /** Counters `from` to `to`, numbered from one. */
  function Numbered(counters: Counters, from: nat, to: nat): seq<Metric>
    requires from <= to <= 10
    decreases 10 - from
  {
    if from == to then [] else [Metric(from + 1, counters[from])] + Numbered(counters, from + 1, to)
  }

  lemma OneMetric(front: seq<u8>, number: u8, value: u32, rest: seq<u8>, more: nat)
    requires |rest| == 5 * more
    ensures ReadMetrics(front + ([number] + Le32(value) + rest), |front|, more + 1)
         == [Metric(number, value)] + ReadMetrics((front + ([number] + Le32(value))) + rest, |front| + 5, more)
  {
    var first := [number] + Le32(value);
    var b := front + (first + rest);
    assert |first| == 5 && first[0] == number && first[1..] == Le32(value);
    hide Le32, Read32;
    ConcatAssociative(front, first, rest);
    assert b[|front|] == number && b[|front| + 1..|front| + 5] == Le32(value);
    Read32OfLe32(b, |front| + 1, value);
  }

  lemma {:induction false} MetricsRead(front: seq<u8>, counters: Counters, from: nat, to: nat)
    requires from <= to <= 10
    ensures |Metrics(counters, from, to)| == 5 * (to - from)
    ensures ReadMetrics(front + Metrics(counters, from, to), |front|, to - from) == Numbered(counters, from, to)
    decreases 10 - from
  {
    MetricsLength(counters, from, to);
    if from < to {
      var rest := Metrics(counters, from + 1, to);
      MetricsRead(front + ([from + 1] + Le32(counters[from])), counters, from + 1, to);
      OneMetric(front, from + 1, counters[from], rest, to - from - 1);
      hide ReadMetrics, Le32;
      assert Metrics(counters, from, to) == [from + 1] + Le32(counters[from]) + rest;
    }
  }

  lemma DiagnosticsServed(d: Device, request: Request)
    requires ValidRequest(GET_DIAGNOSTICS, request)
    ensures ExecuteOperation(d, GET_DIAGNOSTICS, request) == DiagnosticPage(d, request)
  {
  }

  lemma CountersOnPage(d: Device, cursor: u32)
    requires cursor <= 10
    ensures var end := if cursor + 3 < 10 then cursor as int + 3 else 10;
      ReadDiagnostics(ExecuteOperation(d, GET_DIAGNOSTICS, PageRequest(cursor)))
        == Some(Page(if end == 10 then 0xFF else end, Numbered(d.counters, cursor, end)))
  {
    var end: u8 := if cursor + 3 < 10 then cursor + 3 else 10;
    var next: u8 := if end == 10 then 0xFF else end;
    CursorOf(cursor);
    DiagnosticsServed(d, PageRequest(cursor));
    hide ExecuteOperation, Cursor, Metrics, ReadMetrics, Numbered;
    MetricsRead([next, end - cursor], d.counters, cursor, end);
  }

  /** Following the cursors from the start returns all ten counters, each once and with its number, in four pages. */
  lemma CountersAreComplete(d: Device)
    ensures ListCounters(d, 0, 4) == Some(Numbered(d.counters, 0, 10))
  {
    CountersOnPage(d, 0);
    CountersOnPage(d, 3);
    CountersOnPage(d, 6);
    CountersOnPage(d, 9);
    hide ExecuteOperation, ReadDiagnostics;
    NumberedSplits(d.counters, 0, 3);
    NumberedSplits(d.counters, 3, 6);
    NumberedSplits(d.counters, 6, 9);
    hide Numbered;
    assert ListCounters(d, 9, 1) == Some(Numbered(d.counters, 9, 10));
    assert ListCounters(d, 6, 2) == Some(Numbered(d.counters, 6, 10));
    assert ListCounters(d, 3, 3) == Some(Numbered(d.counters, 3, 10));
  }

  lemma {:induction false} NumberedSplits(counters: Counters, from: nat, mid: nat)
    requires from <= mid <= 10
    ensures Numbered(counters, from, 10) == Numbered(counters, from, mid) + Numbered(counters, mid, 10)
    decreases 10 - from
  {
    if from < mid {
      NumberedSplits(counters, from + 1, mid);
    }
  }
}
