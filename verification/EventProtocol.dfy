/**
 The 32-byte radio packet (lib/redline_protocol/src/redline_protocol.h) and the
 Event and admission-response payloads carried in it
 (lib/event_protocol/src/event_protocol.h).
 */
module EventProtocol {
  import opened Words

  // ----- packets

  datatype PacketType = COMMAND | ACK | ERROR | RESPONSE | EVENT

  datatype Packet = Packet(
    kind: PacketType, source: u8, destination: u8, sequence: u8, opcode: u8, payload: seq<u8>)

  const HEADER_SIZE := 6
  const MAX_PAYLOAD_SIZE := 26

  function TypeCode(kind: PacketType): u8 {
    match kind
    case COMMAND => 1
    case ACK => 2
    case ERROR => 3
    case RESPONSE => 4
    case EVENT => 5
  }

  function TypeOfCode(code: u8): Option<PacketType> {
    if code == 1 then Some(COMMAND)
    else if code == 2 then Some(ACK)
    else if code == 3 then Some(ERROR)
    else if code == 4 then Some(RESPONSE)
    else if code == 5 then Some(EVENT)
    else None
  }

  function EncodePacket(p: Packet): Option<seq<u8>> {
    if |p.payload| > MAX_PAYLOAD_SIZE then None
    else Some([16 + TypeCode(p.kind) as int, p.source, p.destination, p.sequence, p.opcode, |p.payload|] + p.payload)
  }

  function DecodePacket(b: seq<u8>): Option<Packet> {
    if |b| < HEADER_SIZE || b[0] / 16 != 1 || b[5] > MAX_PAYLOAD_SIZE || |b| != HEADER_SIZE + b[5] as int
      || TypeOfCode(b[0] % 16).None? then None
    else Some(Packet(TypeOfCode(b[0] % 16).value, b[1], b[2], b[3], b[4], b[6..]))
  }

  lemma PacketRoundTrip(p: Packet)
    requires |p.payload| <= MAX_PAYLOAD_SIZE
    ensures EncodePacket(p).Some? && DecodePacket(EncodePacket(p).value) == Some(p)
  {
    var b := EncodePacket(p).value;
    assert b[0] / 16 == 1 && b[0] % 16 == TypeCode(p.kind);
    assert b[6..] == p.payload;
  }

  /** No two byte strings decode to the same packet. */
  lemma PacketCanonical(b: seq<u8>)
    requires DecodePacket(b).Some?
    ensures EncodePacket(DecodePacket(b).value) == Some(b)
  {
    var p := DecodePacket(b).value;
    assert b == [b[0], b[1], b[2], b[3], b[4], b[5]] + b[6..];
    assert b[0] as int == 16 * (b[0] as int / 16) + b[0] as int % 16;
  }

  // ----- Events

  const COMMON_PAYLOAD_SIZE := 14
  const MAX_BODY_SIZE := 12
  const MIN_LIFETIME_SECONDS: u32 := 60
  const MAX_LIFETIME_SECONDS: u32 := 86400

  const BUTTON: u8 := 0x40
  const SENSOR_THRESHOLD: u8 := 0x41
  const MANUAL_CHECK_IN: u8 := 0x44

  /** A fixed twelve-byte body buffer; only its first `bodyLength` bytes are meaningful. */
  type Body = s: seq<u8> | |s| == 12 witness [0, 0, 0, 0, 0, 0, 0, 0, 0, 0, 0, 0]

  datatype Identity = Identity(epoch: u32, id: u32)

  datatype Content = Content(family: u8, flags: u8, lifetime: u32, bodyLength: u8, body: Body)

  datatype Event = Event(source: u8, destination: u8, sequence: u8, identity: Identity, content: Content)

  /** Ascending (epoch, id): the order in which identities are issued. */
  predicate Less(x: Identity, y: Identity) {
    x.epoch < y.epoch || (x.epoch == y.epoch && x.id < y.id)
  }

  predicate RegisteredFamily(family: u8) {
    family == BUTTON || family == SENSOR_THRESHOLD || family == MANUAL_CHECK_IN
  }

  function ExpectedBodyLength(family: u8): nat {
    if family == BUTTON || family == MANUAL_CHECK_IN then 1
    else if family == SENSOR_THRESHOLD then 8
    else MAX_BODY_SIZE + 1
  }

  predicate ValidFamilyBody(c: Content) {
    && c.bodyLength == ExpectedBodyLength(c.family)
    && (c.family == BUTTON ==> 1 <= c.body[0] <= 5)
    && (c.family == SENSOR_THRESHOLD ==>
          && (c.body[0] != 0 || c.body[1] != 0)
          && 2 <= c.body[2] <= 6
          && 1 <= c.body[7] <= 2
          && (c.body[2] == 4 || c.body[2] == 6 ==> c.body[5] == 0 && c.body[6] == 0))
    && (c.family == MANUAL_CHECK_IN ==> c.body[0] == 1)
    && RegisteredFamily(c.family)
  }

  predicate ValidContent(c: Content) {
    && c.flags <= 1
    && MIN_LIFETIME_SECONDS <= c.lifetime <= MAX_LIFETIME_SECONDS
    && c.bodyLength <= MAX_BODY_SIZE
    && ValidFamilyBody(c)
  }

  /** Every byte past the body length is zero. */
  predicate ZeroTail(c: Content) {
    forall i :: c.bodyLength <= i < MAX_BODY_SIZE ==> c.body[i] == 0
  }

  predicate ValidIdentity(i: Identity) {
    i.epoch != 0 && i.id != 0
  }

  predicate ValidEndpoints(source: u8, destination: u8) {
    source != 0 && destination != 0 && source != destination
  }

  predicate ValidEvent(e: Event) {
    ValidEndpoints(e.source, e.destination) && ValidIdentity(e.identity) && ValidContent(e.content)
  }

  /** The comparison the protocol makes: the tail of the body buffer is not looked at. */
  predicate SameCanonical(x: Content, y: Content) {
    && x.family == y.family && x.flags == y.flags && x.lifetime == y.lifetime && x.bodyLength == y.bodyLength
    && x.bodyLength <= MAX_BODY_SIZE
    && x.body[..x.bodyLength] == y.body[..x.bodyLength]
  }

  lemma SameCanonicalIsEquality(x: Content, y: Content)
    requires x.bodyLength <= MAX_BODY_SIZE && ZeroTail(x) && ZeroTail(y)
    ensures SameCanonical(x, y) <==> x == y
  {
    if SameCanonical(x, y) {
      forall i | 0 <= i < MAX_BODY_SIZE ensures x.body[i] == y.body[i] {
        if i < x.bodyLength {
          assert x.body[i] == x.body[..x.bodyLength][i] == y.body[..x.bodyLength][i];
        }
      }
      assert x.body == y.body;
    }
  }

  function Padded(s: seq<u8>): Body
    requires |s| <= MAX_BODY_SIZE
  {
    s + seq(MAX_BODY_SIZE - |s|, _ => 0)
  }

  lemma PaddedInverse(c: Content)
    requires c.bodyLength <= MAX_BODY_SIZE
    ensures Padded(c.body[..c.bodyLength]) == c.body <==> ZeroTail(c)
  {
    var p := Padded(c.body[..c.bodyLength]);
    if p == c.body {
      forall i | c.bodyLength <= i < MAX_BODY_SIZE ensures c.body[i] == 0 { assert p[i] == 0; }
    }
  }

  function EventPayload(e: Event): seq<u8>
    requires e.content.bodyLength <= MAX_BODY_SIZE
  {
    Le32(e.identity.epoch) + Le32(e.identity.id) + [e.content.flags] + Le32(e.content.lifetime)
    + [e.content.bodyLength] + e.content.body[..e.content.bodyLength]
  }

  function EventPacket(e: Event): Packet
    requires e.content.bodyLength <= MAX_BODY_SIZE
  {
    Packet(EVENT, e.source, e.destination, e.sequence, e.content.family, EventPayload(e))
  }

  function EncodeEvent(e: Event): Option<seq<u8>> {
    if !ValidEvent(e) then None else EncodePacket(EventPacket(e))
  }

  /** The Event a packet's fields spell, before any validity check. */
  function RawEvent(p: Packet): Event
    requires |p.payload| >= COMMON_PAYLOAD_SIZE
    requires p.payload[13] <= MAX_BODY_SIZE && |p.payload| == COMMON_PAYLOAD_SIZE + p.payload[13] as int
  {
    Event(p.source, p.destination, p.sequence,
          Identity(Read32(p.payload, 0), Read32(p.payload, 4)),
          Content(p.opcode, p.payload[8], Read32(p.payload, 9), p.payload[13], Padded(p.payload[14..])))
  }

  predicate EventShaped(p: Packet) {
    && p.kind == EVENT
    && |p.payload| >= COMMON_PAYLOAD_SIZE
    && p.payload[13] <= MAX_BODY_SIZE
    && |p.payload| == COMMON_PAYLOAD_SIZE + p.payload[13] as int
  }

  function DecodeEvent(b: seq<u8>): Option<Event> {
    match DecodePacket(b)
    case None => None
    case Some(p) =>
      if EventShaped(p) && ValidEvent(RawEvent(p)) then Some(RawEvent(p)) else None
  }

  lemma RawEventOfPacket(e: Event)
    requires e.content.bodyLength <= MAX_BODY_SIZE
    ensures EventShaped(EventPacket(e))
    ensures RawEvent(EventPacket(e)) == e.(content := e.content.(body := Padded(e.content.body[..e.content.bodyLength])))
  {
    var p := EventPacket(e);
    var w := p.payload;
    assert |w| == 14 + e.content.bodyLength as int;
    assert w[0..4] == Le32(e.identity.epoch);
    assert w[4..8] == Le32(e.identity.id);
    assert w[8] == e.content.flags;
    assert w[9..13] == Le32(e.content.lifetime);
    assert w[13] == e.content.bodyLength;
    assert w[14..] == e.content.body[..e.content.bodyLength];
    Read32OfLe32(w, 0, e.identity.epoch);
    Read32OfLe32(w, 4, e.identity.id);
    Read32OfLe32(w, 9, e.content.lifetime);
  }

  lemma PaddingKeepsValidity(c: Content)
    requires ValidContent(c)
    ensures var d := c.(body := Padded(c.body[..c.bodyLength])); ValidContent(d) && ZeroTail(d) && SameCanonical(c, d)
  {
    var d := c.(body := Padded(c.body[..c.bodyLength]));
    assert forall i :: 0 <= i < c.bodyLength ==> d.body[i] == c.body[i];
    assert d.body[..c.bodyLength] == c.body[..c.bodyLength];
  }

  /**
   Encoding succeeds exactly on valid Events; what arrives agrees with what was
   sent in everything the protocol compares, and is identical exactly when the
   unused tail of the body was zero.
   */
  lemma EventRoundTrip(e: Event)
    ensures EncodeEvent(e).Some? <==> ValidEvent(e)
    ensures ValidEvent(e) ==>
      var back := DecodeEvent(EncodeEvent(e).value);
      && back.Some?
      && back.value.(content := e.content) == e
      && SameCanonical(e.content, back.value.content)
      && ZeroTail(back.value.content)
      && (back == Some(e) <==> ZeroTail(e.content))
  {
    if ValidEvent(e) {
      RawEventOfPacket(e);
      PacketRoundTrip(EventPacket(e));
      PaddingKeepsValidity(e.content);
      PaddedInverse(e.content);
    }
  }

  // ----- admission responses

  datatype AdmissionStatus = ADMITTED | CAPACITY | IDENTITY_CONTENT_MISMATCH | UNSUPPORTED_EVENT | MALFORMED_EVENT

  datatype AdmissionResponse = AdmissionResponse(
    source: u8, destination: u8, sequence: u8, family: u8, status: AdmissionStatus, identity: Identity)

  function StatusCode(s: AdmissionStatus): u8 {
    match s
    case ADMITTED => 0
    case CAPACITY => 1
    case IDENTITY_CONTENT_MISMATCH => 2
    case UNSUPPORTED_EVENT => 3
    case MALFORMED_EVENT => 4
  }

  function StatusOfCode(code: u8): Option<AdmissionStatus> {
    if code == 0 then Some(ADMITTED)
    else if code == 1 then Some(CAPACITY)
    else if code == 2 then Some(IDENTITY_CONTENT_MISMATCH)
    else if code == 3 then Some(UNSUPPORTED_EVENT)
    else if code == 4 then Some(MALFORMED_EVENT)
    else None
  }

  predicate CorrelatableFamily(family: u8) {
    0x20 <= family <= 0x7F
  }

  predicate ValidResponse(r: AdmissionResponse) {
    ValidEndpoints(r.source, r.destination) && CorrelatableFamily(r.family) && ValidIdentity(r.identity)
  }

  function ResponsePacket(r: AdmissionResponse): Packet {
    Packet(ACK, r.source, r.destination, r.sequence, r.family,
           [StatusCode(r.status)] + Le32(r.identity.epoch) + Le32(r.identity.id))
  }

  function EncodeAdmissionResponse(r: AdmissionResponse): Option<seq<u8>> {
    if !ValidResponse(r) then None else EncodePacket(ResponsePacket(r))
  }

  function DecodeAdmissionResponse(b: seq<u8>): Option<AdmissionResponse> {
    match DecodePacket(b)
    case None => None
    case Some(p) =>
      if p.kind != ACK || |p.payload| != 9 || StatusOfCode(p.payload[0]).None? then None
      else
        var r := AdmissionResponse(p.source, p.destination, p.sequence, p.opcode, StatusOfCode(p.payload[0]).value,
                                   Identity(Read32(p.payload, 1), Read32(p.payload, 5)));
        if ValidResponse(r) then Some(r) else None
  }

  lemma ResponseRoundTrip(r: AdmissionResponse)
    ensures EncodeAdmissionResponse(r).Some? <==> ValidResponse(r)
    ensures ValidResponse(r) ==> DecodeAdmissionResponse(EncodeAdmissionResponse(r).value) == Some(r)
  {
    if ValidResponse(r) {
      var p := ResponsePacket(r);
      PacketRoundTrip(p);
      assert p.payload[1..5] == Le32(r.identity.epoch) && p.payload[5..9] == Le32(r.identity.id);
      Read32OfLe32(p.payload, 1, r.identity.epoch);
      Read32OfLe32(p.payload, 5, r.identity.id);
    }
  }

  function MakeAdmissionResponse(e: Event, status: AdmissionStatus): AdmissionResponse {
    AdmissionResponse(e.destination, e.source, e.sequence, e.content.family, status, e.identity)
  }

  predicate MatchesEvent(r: AdmissionResponse, e: Event) {
    && ValidResponse(r)
    && r.source == e.destination && r.destination == e.source
    && r.sequence == e.sequence && r.family == e.content.family
    && r.identity == e.identity
  }
}
