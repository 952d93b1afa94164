/**
 Operation requests and responses: the Wire payload formats and schemas
 (lib/wire_operations/src/wire_operations.h) and the validation of the Host
 requests they carry (lib/host_protocol/src/host_protocol_messages.h).
 */
module WireOperations {
  import opened Words

  const PING: u8 := 0x20
  const GET_DEVICE_INFO: u8 := 0x21
  const GET_STATUS: u8 := 0x22
  const GET_CAPABILITIES: u8 := 0x23
  const DESCRIBE_CAPABILITY: u8 := 0x24
  const READ_CAPABILITY: u8 := 0x25
  const SET_INDICATOR: u8 := 0x26
  const RUN_PROCEDURE: u8 := 0x27
  const GET_DIAGNOSTICS: u8 := 0x28
  const POLL_EVENTS: u8 := 0x29
  const CONSUME_EVENT: u8 := 0x2A
  const GET_EVENT_DIAGNOSTICS: u8 := 0x2B

  predicate StructuredOpcode(opcode: u8) {
    PING <= opcode <= GET_DIAGNOSTICS
  }

  // ----- typed values

  const NONE_TYPE: u8 := 0
  const BOOLEAN_TYPE: u8 := 1
  const UNSIGNED_32_TYPE: u8 := 2
  const STRUCTURE_TYPE: u8 := 0x7F

  /** The length field is the number of bytes. */
  datatype Value = Value(kind: u8, bytes: seq<u8>)

  const NO_VALUE := Value(NONE_TYPE, [])

  predicate KnownValueType(kind: u8) {
    kind <= 6
  }

  function ScalarLength(kind: u8): nat {
    if kind == NONE_TYPE then 0
    else if kind == BOOLEAN_TYPE then 1
    else if kind == 4 || kind == 6 then 2
    else 4
  }

  predicate Scalar(v: Value) {
    && KnownValueType(v.kind) && |v.bytes| == ScalarLength(v.kind)
    && (v.kind == BOOLEAN_TYPE ==> v.bytes[0] <= 1)
  }

  predicate Unsigned32(v: Value) {
    v.kind == UNSIGNED_32_TYPE && Scalar(v)
  }

  // ----- Wire requests

  datatype Request = Request(target: u16, value: Value)

  predicate TargetlessOpcode(opcode: u8) {
    opcode in {PING, GET_DEVICE_INFO, GET_STATUS, GET_CAPABILITIES, GET_DIAGNOSTICS}
  }

  predicate ValidRequest(opcode: u8, r: Request) {
    && StructuredOpcode(opcode) && Scalar(r.value)
    && (TargetlessOpcode(opcode) <==> r.target == 0)
    && (if opcode == GET_CAPABILITIES || opcode == GET_DIAGNOSTICS then r.value == NO_VALUE || Unsigned32(r.value)
        else if opcode == SET_INDICATOR then r.value.kind == BOOLEAN_TYPE
        else opcode != RUN_PROCEDURE ==> r.value == NO_VALUE)
  }

  function EncodeRequest(opcode: u8, r: Request): Option<seq<u8>> {
    if !ValidRequest(opcode, r) then None
    else Some(Le16(r.target) + [r.value.kind, |r.value.bytes|] + r.value.bytes)
  }

  function DecodeRequest(opcode: u8, b: seq<u8>): Option<Request> {
    if !StructuredOpcode(opcode) || |b| < 4 || |b| > 26 || |b| != 4 + b[3] as int then None
    else
      var r := Request(Read16(b, 0), Value(b[2], b[4..]));
      if ValidRequest(opcode, r) then Some(r) else None
  }

  /** Requests and the payloads their decoder accepts correspond one to one. */
  lemma RequestBijection(opcode: u8, r: Request, b: seq<u8>)
    ensures EncodeRequest(opcode, r) == Some(b) <==> DecodeRequest(opcode, b) == Some(r)
  {
    hide Le16, Read16;
    if EncodeRequest(opcode, r) == Some(b) {
      assert b[0..2] == Le16(r.target) && b[4..] == r.value.bytes;
      Read16OfLe16(b, 0, r.target);
    }
    if DecodeRequest(opcode, b) == Some(r) {
      Le16OfRead16(b, 0);
      assert b == b[0..2] + [b[2], b[3]] + b[4..];
    }
  }

  // ----- Wire responses

  datatype Response = Response(status: u8, target: u16, value: Value)

  const OK_STATUS: u8 := 0

  predicate KnownStatus(status: u8) {
    status <= 0x0A
  }

  predicate KnownRole(role: u8) {
    role == 1 || role == 2
  }

  predicate KnownCapabilityClass(kind: u8) {
    1 <= kind <= 0x0A
  }

  predicate KnownOperationFlags(flags: u8) {
    flags < 0x20
  }

  predicate KnownUnit(unit: u8) {
    unit <= 5
  }

  /** The identifiers of a capability page are nonzero. */
  predicate NonzeroWords(b: seq<u8>, at: nat, count: nat)
    requires at + 2 * count <= |b|
  {
    forall i :: 0 <= i < count ==> Read16(b, at + 2 * i) != 0
  }

  /** The records that successful operations return. */
  predicate ValidStructure(opcode: u8, v: Value) {
    && v.kind == STRUCTURE_TYPE
    && if opcode == GET_DEVICE_INFO then |v.bytes| == 8 && v.bytes[5] == 1 && KnownRole(v.bytes[6])
       else if opcode == GET_STATUS then |v.bytes| == 10 && Read16(v.bytes, 0) < 0x20
       else if opcode == GET_CAPABILITIES then
         && 3 <= |v.bytes| <= 21 && v.bytes[2] <= 9 && |v.bytes| == 3 + 2 * v.bytes[2] as int
         && NonzeroWords(v.bytes, 3, v.bytes[2])
       else if opcode == DESCRIBE_CAPABILITY then
         && |v.bytes| == 6 && KnownCapabilityClass(v.bytes[0]) && KnownValueType(v.bytes[1])
         && KnownOperationFlags(v.bytes[2]) && KnownUnit(v.bytes[3]) && v.bytes[4] <= 1 && v.bytes[5] == 0
       else if opcode == GET_DIAGNOSTICS then
         2 <= |v.bytes| <= 17 && v.bytes[1] <= 3 && |v.bytes| == 2 + 5 * v.bytes[1] as int
       else false
  }

  predicate ValidSuccess(opcode: u8, v: Value) {
    if opcode == PING then Unsigned32(v)
    else if opcode == READ_CAPABILITY then Scalar(v) && v != NO_VALUE
    else if opcode == SET_INDICATOR then v == NO_VALUE
    else if opcode == RUN_PROCEDURE then Scalar(v)
    else ValidStructure(opcode, v)
  }

  predicate ValidResponse(opcode: u8, r: Response) {
    && StructuredOpcode(opcode) && KnownStatus(r.status)
    && (TargetlessOpcode(opcode) <==> r.target == 0)
    && if r.status != OK_STATUS then r.value == NO_VALUE else ValidSuccess(opcode, r.value)
  }

  function EncodeResponse(opcode: u8, r: Response): Option<seq<u8>> {
    if !ValidResponse(opcode, r) || |r.value.bytes| > 21 then None
    else Some([r.status] + Le16(r.target) + [r.value.kind, |r.value.bytes|] + r.value.bytes)
  }

  function DecodeResponse(opcode: u8, b: seq<u8>): Option<Response> {
    if !StructuredOpcode(opcode) || |b| < 5 || |b| > 26 || |b| != 5 + b[4] as int then None
    else
      var r := Response(b[0], Read16(b, 1), Value(b[3], b[5..]));
      if ValidResponse(opcode, r) then Some(r) else None
  }

  /** Responses and the payloads their decoder accepts correspond one to one; every valid response fits. */
  lemma ResponseBijection(opcode: u8, r: Response, b: seq<u8>)
    ensures EncodeResponse(opcode, r) == Some(b) <==> DecodeResponse(opcode, b) == Some(r)
    ensures EncodeResponse(opcode, r).Some? <==> ValidResponse(opcode, r)
  {
    if ValidResponse(opcode, r) {
      ValidResponseFits(opcode, r);
    }
    hide Le16, Read16, ValidResponse;
    if EncodeResponse(opcode, r) == Some(b) {
      EncodableIsStructured(opcode, r);
      assert b[1..3] == Le16(r.target) && b[5..] == r.value.bytes;
      Read16OfLe16(b, 1, r.target);
    }
    if DecodeResponse(opcode, b) == Some(r) {
      Le16OfRead16(b, 1);
      assert b == [b[0]] + b[1..3] + [b[3], b[4]] + b[5..];
    }
  }

  lemma EncodableIsStructured(opcode: u8, r: Response)
    requires ValidResponse(opcode, r)
    ensures StructuredOpcode(opcode)
  {
  }

  lemma ValidResponseFits(opcode: u8, r: Response)
    requires ValidResponse(opcode, r)
    ensures |r.value.bytes| <= 21
  {
  }

  // ----- Host requests

  datatype HostRequest = HostRequest(category: u8, operation: u8, device: u8, target: u16, value: Value)

  const DEVICE_CATEGORY: u8 := 1
  const CAPABILITY_CATEGORY: u8 := 2
  const PROCEDURE_CATEGORY: u8 := 3
  const DIAGNOSTIC_CATEGORY: u8 := 4
  const EVENT_CATEGORY: u8 := 5

  datatype Validation = VALID_REQUEST | UNSUPPORTED_PAIR | INVALID_FIELD

  predicate KnownCategory(minor: u8, category: u8) {
    1 <= category <= 4 || (minor == 2 && category == EVENT_CATEGORY)
  }

  predicate KnownOperation(minor: u8, operation: u8) {
    StructuredOpcode(operation) || (minor == 2 && POLL_EVENTS <= operation <= GET_EVENT_DIAGNOSTICS)
  }

  predicate SupportedPair(minor: u8, category: u8, operation: u8) {
    if category == DEVICE_CATEGORY then PING <= operation <= GET_STATUS
    else if category == CAPABILITY_CATEGORY then GET_CAPABILITIES <= operation <= SET_INDICATOR
    else if category == PROCEDURE_CATEGORY then operation == RUN_PROCEDURE
    else if category == DIAGNOSTIC_CATEGORY then
      operation == GET_DIAGNOSTICS || (minor == 2 && operation == GET_EVENT_DIAGNOSTICS)
    else minor == 2 && category == EVENT_CATEGORY && (operation == POLL_EVENTS || operation == CONSUME_EVENT)
  }

  predicate ValidTarget(category: u8, operation: u8, target: u16) {
    if category == CAPABILITY_CATEGORY then (target == 0 <==> operation == GET_CAPABILITIES)
    else if category == PROCEDURE_CATEGORY then target != 0
    else target == 0
  }

  predicate ValidEventIdentity(b: seq<u8>) {
    |b| == 9 && b[0] != 0 && Read32(b, 1) != 0 && Read32(b, 5) != 0
  }

  predicate ValidRequestValue(operation: u8, v: Value) {
    if operation == GET_CAPABILITIES || operation == GET_DIAGNOSTICS then v == NO_VALUE || Unsigned32(v)
    else if operation == SET_INDICATOR then v.kind == BOOLEAN_TYPE && Scalar(v)
    else if operation == RUN_PROCEDURE then Scalar(v)
    else if operation == GET_EVENT_DIAGNOSTICS then v == NO_VALUE || (Unsigned32(v) && Read32(v.bytes, 0) == 1)
    else StructuredOpcode(operation) && v == NO_VALUE
  }

  function Validate(minor: u8, r: HostRequest): Validation {
    if !KnownCategory(minor, r.category) || !KnownOperation(minor, r.operation) then INVALID_FIELD
    else if !SupportedPair(minor, r.category, r.operation) then UNSUPPORTED_PAIR
    else if !ValidTarget(r.category, r.operation, r.target) then INVALID_FIELD
    else if r.category == EVENT_CATEGORY && r.operation == CONSUME_EVENT then
      if r.value.kind == STRUCTURE_TYPE && ValidEventIdentity(r.value.bytes) then VALID_REQUEST else INVALID_FIELD
    else if r.category == EVENT_CATEGORY && r.operation == POLL_EVENTS then
      if r.value == NO_VALUE then VALID_REQUEST else INVALID_FIELD
    else if ValidRequestValue(r.operation, r.value) then VALID_REQUEST
    else INVALID_FIELD
  }

  function DecodeHostRequest(minor: u8, b: seq<u8>): Option<HostRequest> {
    if |b| < 7 || |b| > 128 || |b| != 7 + b[6] as int then None
    else
      var r := HostRequest(b[0], b[1], b[2], Read16(b, 3), Value(b[5], b[7..]));
      if r.value.kind != STRUCTURE_TYPE && !Scalar(r.value) then None
      else if Validate(minor, r) == VALID_REQUEST then Some(r) else None
  }

  function EncodeHostRequest(minor: u8, r: HostRequest): Option<seq<u8>> {
    if Validate(minor, r) != VALID_REQUEST || |r.value.bytes| > 121 then None
    else Some([r.category, r.operation, r.device] + Le16(r.target) + [r.value.kind, |r.value.bytes|] + r.value.bytes)
  }

  /** Host requests and the payloads their decoder accepts correspond one to one. */
  lemma HostRequestBijection(minor: u8, r: HostRequest, b: seq<u8>)
    ensures EncodeHostRequest(minor, r) == Some(b) <==> DecodeHostRequest(minor, b) == Some(r)
  {
    hide Le16, Read16;
    if EncodeHostRequest(minor, r) == Some(b) {
      assert b[3..5] == Le16(r.target) && b[7..] == r.value.bytes;
      Read16OfLe16(b, 3, r.target);
    }
    if DecodeHostRequest(minor, b) == Some(r) {
      Le16OfRead16(b, 3);
      assert b[0..3] == [r.category, r.operation, r.device] && b[5..7] == [r.value.kind, |r.value.bytes|];
      assert b == b[0..3] + b[3..5] + b[5..7] + b[7..];
    }
  }

  /**
   A Host request that is valid under version 0.1 always has a Wire encoding, and
   conversely every Wire request comes from one: the radio carries exactly the
   operations the Host may ask for.
   */
  lemma HostRequestsAreWireRequests(r: HostRequest)
    ensures Validate(1, r) == VALID_REQUEST ==> EncodeRequest(r.operation, Request(r.target, r.value)).Some?
    ensures EncodeRequest(r.operation, Request(r.target, r.value)).Some? && SupportedPair(1, r.category, r.operation)
        ==> Validate(1, r) == VALID_REQUEST
  {
  }
}
