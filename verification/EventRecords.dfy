/**
 The four durable record formats (lib/event_storage/src/event_records.h).  The
 codecs are proved to be bijections between records and their encodings, which
 is what lets the rest of the model work with records instead of bytes.
 */
module EventRecords {
  import opened Words
  import opened EventProtocol

  const MAX_ATTEMPTS := 5

  datatype NodeMetadata = NodeMetadata(source: u8, epoch: u32, next: u32)

  datatype HubMetadata = HubMetadata(next: u32)

  datatype Custody = QUEUED | FAILED | EXPIRED

  /** A Node slot; a free slot carries no Event fields at all. */
  datatype NodeRecord =
    | Free
    | Held(custody: Custody, identity: Identity, content: Content, remaining: u32, attempts: u8)
  {
    predicate Queued() {
      Held? && custody == QUEUED
    }
    predicate Terminal() {
      Held? && custody != QUEUED
    }
  }

  datatype Delivery = ACTIVE | CONSUMED

  /** A Hub ledger slot. */
  datatype HubRecord =
    | Empty
    | Entry(delivery: Delivery, source: u8, identity: Identity, content: Content, ordinal: u32)
  {
    predicate Active() {
      Entry? && delivery == ACTIVE
    }
    predicate Tombstone() {
      Entry? && delivery == CONSUMED
    }
  }

  predicate ValidNodeMetadata(m: NodeMetadata) {
    m.source != 0 && m.epoch != 0 && m.next != 0
  }

  predicate ValidHubMetadata(m: HubMetadata) {
    m.next != 0
  }

  predicate ValidNodeRecord(r: NodeRecord) {
    r.Held? ==>
      && r.attempts <= MAX_ATTEMPTS
      && r.remaining <= r.content.lifetime
      && ValidIdentity(r.identity) && ValidContent(r.content) && ZeroTail(r.content)
  }

  predicate ValidHubRecord(r: HubRecord) {
    r.Entry? ==>
      && r.ordinal != 0 && r.source != 0
      && ValidIdentity(r.identity) && ValidContent(r.content) && ZeroTail(r.content)
  }

  // ----- CRC-32/ISO-HDLC, a fixed function of the bytes

  function CrcBit(value: u32): u32 {
    if value % 2 != 0 then Xor32(value / 2, 0xEDB8_8320) else value / 2
  }

  function CrcBits(value: u32, bits: nat): u32 {
    if bits == 0 then value else CrcBit(CrcBits(value, bits - 1))
  }

  function CrcBytes(b: seq<u8>): u32 {
    if b == [] then U32_MAX else CrcBits(Xor32(CrcBytes(b[..|b| - 1]), b[|b| - 1]), 8)
  }

  function Crc32(b: seq<u8>): u32 {
    Xor32(CrcBytes(b), U32_MAX)
  }

  method ComputeCrc32(b: seq<u8>) returns (crc: u32)
    ensures crc == Crc32(b)
  {
    var value: u32 := U32_MAX;
    for i := 0 to |b|
      invariant value == CrcBytes(b[..i])
    {
      var start := Xor32(value, b[i]);
      value := start;
      for bit := 0 to 8
        invariant value == CrcBits(start, bit)
      {
        value := CrcBit(value);
      }
      assert b[..i + 1][..i] == b[..i];
    }
    assert b[..|b|] == b;
    crc := Xor32(value, U32_MAX);
  }

  // ----- the common envelope: magic, schema, length, generation, payload, CRC

  type Magic = s: seq<u8> | |s| == 4 witness [0, 0, 0, 0]

  const NODE_METADATA_MAGIC: Magic := [0x45, 0x49, 0x44, 0x31]
  const HUB_METADATA_MAGIC: Magic := [0x48, 0x41, 0x4F, 0x31]
  const NODE_RECORD_MAGIC: Magic := [0x45, 0x56, 0x54, 0x31]
  const HUB_RECORD_MAGIC: Magic := [0x48, 0x45, 0x56, 0x31]

  /** Everything the CRC covers. */
  function Covered(magic: Magic, generation: u32, payload: seq<u8>): seq<u8>
    requires |payload| < 0x1_0000 - 16
  {
    magic + Le16(1) + Le16(|payload| + 16) + Le32(generation) + payload
  }

  function Seal(magic: Magic, generation: u32, payload: seq<u8>): seq<u8>
    requires |payload| < 0x1_0000 - 16
  {
    Covered(magic, generation, payload) + Le32(Crc32(Covered(magic, generation, payload)))
  }

  datatype Opened = Rejected | Opened(generation: u32, payload: seq<u8>)

  function Open(magic: Magic, size: nat, b: seq<u8>): Opened {
    if |b| != size || size < 16 then Rejected
    else if b[..4] != magic then Rejected
    else if Read16(b, 6) != size then Rejected
    else if Read32(b, size - 4) != Crc32(b[..size - 4]) then Rejected
    else if Read16(b, 4) != 1 then Rejected
    else Opened(Read32(b, 8), b[12..size - 4])
  }

  lemma OpenSeal(magic: Magic, generation: u32, payload: seq<u8>)
    requires |payload| < 0x1_0000 - 16
    ensures Open(magic, |payload| + 16, Seal(magic, generation, payload)) == Opened(generation, payload)
  {
    var c := Covered(magic, generation, payload);
    var b := Seal(magic, generation, payload);
    var size := |payload| + 16;
    assert |c| == size - 4 && |b| == size;
    assert b[..4] == magic && b[4..6] == Le16(1) && b[6..8] == Le16(size) && b[8..12] == Le32(generation);
    assert b[12..size - 4] == payload && b[..size - 4] == c && b[size - 4..size] == Le32(Crc32(c));
    Read16OfLe16(b, 4, 1);
    Read16OfLe16(b, 6, size);
    Read32OfLe32(b, 8, generation);
    Read32OfLe32(b, size - 4, Crc32(c));
  }

  lemma SealOpen(magic: Magic, size: nat, b: seq<u8>)
    requires size < 0x1_0000
    requires Open(magic, size, b).Opened?
    ensures |Open(magic, size, b).payload| == size - 16
    ensures Seal(magic, Open(magic, size, b).generation, Open(magic, size, b).payload) == b
  {
    hide Read32, Le32, Read16, Le16, Crc32;
    var o := Open(magic, size, b);
    Le16OfRead16(b, 4);
    Le16OfRead16(b, 6);
    Le32OfRead32(b, 8);
    Le32OfRead32(b, size - 4);
    assert b[..size - 4] == b[..4] + b[4..6] + b[6..8] + b[8..12] + b[12..size - 4];
    assert Covered(magic, o.generation, o.payload) == b[..size - 4];
    assert b == b[..size - 4] + b[size - 4..size];
  }

  predicate AllZero(b: seq<u8>) {
    forall i :: 0 <= i < |b| ==> b[i] == 0
  }

  const ZERO3: seq<u8> := [0, 0, 0]
  const ZERO4: seq<u8> := [0, 0, 0, 0]

  // ----- payloads

  function NodeMetadataPayload(m: NodeMetadata): seq<u8> {
    [m.source] + ZERO3 + Le32(m.epoch) + Le32(m.next)
  }

  function ParseNodeMetadata(p: seq<u8>): Option<NodeMetadata>
    requires |p| == 12
  {
    var m := NodeMetadata(p[0], Read32(p, 4), Read32(p, 8));
    if AllZero(p[1..4]) && ValidNodeMetadata(m) then Some(m) else None
  }

  function HubMetadataPayload(m: HubMetadata): seq<u8> {
    Le32(m.next) + ZERO4
  }

  function ParseHubMetadata(p: seq<u8>): Option<HubMetadata>
    requires |p| == 8
  {
    var m := HubMetadata(Read32(p, 0));
    if AllZero(p[4..8]) && ValidHubMetadata(m) then Some(m) else None
  }

  function CustodyCode(c: Custody): u8 {
    match c
    case QUEUED => 1
    case FAILED => 2
    case EXPIRED => 3
  }

  function CustodyOfCode(code: u8): Option<Custody> {
    if code == 1 then Some(QUEUED) else if code == 2 then Some(FAILED) else if code == 3 then Some(EXPIRED) else None
  }

  function NodeRecordPayload(r: NodeRecord): seq<u8> {
    if r.Free? then seq(40, _ => 0)
    else
      ([CustodyCode(r.custody), r.content.flags, r.content.family, r.content.bodyLength]
       + Le32(r.identity.epoch) + Le32(r.identity.id))
      + (Le32(r.content.lifetime) + Le32(r.remaining) + ([r.attempts] + ZERO3))
      + (r.content.body + ZERO4)
  }

  function ParseNodeRecord(p: seq<u8>): Option<NodeRecord>
    requires |p| == 40
  {
    if p[0] == 0 then if AllZero(p) then Some(Free) else None
    else if CustodyOfCode(p[0]).None? then None
    else
      var r := Held(CustodyOfCode(p[0]).value, Identity(Read32(p, 4), Read32(p, 8)),
                    Content(p[2], p[1], Read32(p, 12), p[3], p[24..36]), Read32(p, 16), p[20]);
      if AllZero(p[21..24]) && AllZero(p[36..40]) && ValidNodeRecord(r) then Some(r) else None
  }

  function DeliveryCode(d: Delivery): u8 {
    match d
    case ACTIVE => 1
    case CONSUMED => 2
  }

  function DeliveryOfCode(code: u8): Option<Delivery> {
    if code == 1 then Some(ACTIVE) else if code == 2 then Some(CONSUMED) else None
  }

  function HubRecordPayload(r: HubRecord): seq<u8> {
    if r.Empty? then seq(40, _ => 0)
    else
      ([DeliveryCode(r.delivery), r.source, r.content.family, r.content.flags] + ([r.content.bodyLength] + ZERO3)
       + Le32(r.identity.epoch))
      + (Le32(r.identity.id) + Le32(r.content.lifetime) + Le32(r.ordinal))
      + (r.content.body + ZERO4)
  }

  function ParseHubRecord(p: seq<u8>): Option<HubRecord>
    requires |p| == 40
  {
    if p[0] == 0 then if AllZero(p) then Some(Empty) else None
    else if DeliveryOfCode(p[0]).None? then None
    else
      var r := Entry(DeliveryOfCode(p[0]).value, p[1], Identity(Read32(p, 8), Read32(p, 12)),
                     Content(p[2], p[3], Read32(p, 16), p[4], p[24..36]), Read32(p, 20));
      if AllZero(p[5..8]) && AllZero(p[36..40]) && ValidHubRecord(r) then Some(r) else None
  }

  lemma NodeMetadataPayloadBijection(m: NodeMetadata, p: seq<u8>)
    requires |p| == 12
    ensures |NodeMetadataPayload(m)| == 12
    ensures ValidNodeMetadata(m) ==> ParseNodeMetadata(NodeMetadataPayload(m)) == Some(m)
    ensures ParseNodeMetadata(p) == Some(m) ==> NodeMetadataPayload(m) == p
  {
    var q := NodeMetadataPayload(m);
    assert q[4..8] == Le32(m.epoch) && q[8..12] == Le32(m.next);
    Read32OfLe32(q, 4, m.epoch);
    Read32OfLe32(q, 8, m.next);
    Le32OfRead32(p, 4);
    Le32OfRead32(p, 8);
    if ParseNodeMetadata(p) == Some(m) {
      assert p[1..4] == ZERO3;
      assert p == [p[0]] + p[1..4] + p[4..8] + p[8..12];
    }
  }

  lemma HubMetadataPayloadBijection(m: HubMetadata, p: seq<u8>)
    requires |p| == 8
    ensures |HubMetadataPayload(m)| == 8
    ensures ValidHubMetadata(m) ==> ParseHubMetadata(HubMetadataPayload(m)) == Some(m)
    ensures ParseHubMetadata(p) == Some(m) ==> HubMetadataPayload(m) == p
  {
    var q := HubMetadataPayload(m);
    assert q[0..4] == Le32(m.next) && q[4..8] == ZERO4;
    Read32OfLe32(q, 0, m.next);
    Le32OfRead32(p, 0);
    if ParseHubMetadata(p) == Some(m) {
      assert p[4..8] == ZERO4;
      assert p == p[0..4] + p[4..8];
    }
  }

  lemma Cut(p: seq<u8>)
    requires |p| == 40
    ensures p == (p[0..4] + p[4..8] + p[8..12]) + (p[12..16] + p[16..20] + p[20..24]) + (p[24..36] + p[36..40])
  {
  }

  lemma NodeRecordPayloadForward(r: NodeRecord)
    ensures |NodeRecordPayload(r)| == 40
    ensures ValidNodeRecord(r) ==> ParseNodeRecord(NodeRecordPayload(r)) == Some(r)
  {
    if r.Held? {
      var q := NodeRecordPayload(r);
      assert q[4..8] == Le32(r.identity.epoch) && q[8..12] == Le32(r.identity.id);
      assert q[12..16] == Le32(r.content.lifetime) && q[16..20] == Le32(r.remaining);
      assert q[21..24] == ZERO3 && q[24..36] == r.content.body && q[36..40] == ZERO4;
      Read32OfLe32(q, 4, r.identity.epoch);
      Read32OfLe32(q, 8, r.identity.id);
      Read32OfLe32(q, 12, r.content.lifetime);
      Read32OfLe32(q, 16, r.remaining);
    }
  }

  lemma NodeRecordPayloadBackward(p: seq<u8>)
    requires |p| == 40 && ParseNodeRecord(p).Some?
    ensures NodeRecordPayload(ParseNodeRecord(p).value) == p
  {
    hide Read32, Le32, ValidNodeRecord;
    var r := ParseNodeRecord(p).value;
    if r.Held? {
      Le32OfRead32(p, 4);
      Le32OfRead32(p, 8);
      Le32OfRead32(p, 12);
      Le32OfRead32(p, 16);
      assert p[21..24] == ZERO3 && p[36..40] == ZERO4;
      assert p[0..4] == [CustodyCode(r.custody), r.content.flags, r.content.family, r.content.bodyLength];
      assert p[20..24] == [r.attempts] + ZERO3;
      Cut(p);
    }
  }

  lemma HubRecordPayloadForward(r: HubRecord)
    ensures |HubRecordPayload(r)| == 40
    ensures ValidHubRecord(r) ==> ParseHubRecord(HubRecordPayload(r)) == Some(r)
  {
    if r.Entry? {
      var q := HubRecordPayload(r);
      assert q[5..8] == ZERO3 && q[8..12] == Le32(r.identity.epoch) && q[12..16] == Le32(r.identity.id);
      assert q[16..20] == Le32(r.content.lifetime) && q[20..24] == Le32(r.ordinal);
      assert q[24..36] == r.content.body && q[36..40] == ZERO4;
      Read32OfLe32(q, 8, r.identity.epoch);
      Read32OfLe32(q, 12, r.identity.id);
      Read32OfLe32(q, 16, r.content.lifetime);
      Read32OfLe32(q, 20, r.ordinal);
    }
  }

  lemma HubRecordPayloadBackward(p: seq<u8>)
    requires |p| == 40 && ParseHubRecord(p).Some?
    ensures HubRecordPayload(ParseHubRecord(p).value) == p
  {
    hide Read32, Le32, ValidHubRecord;
    var r := ParseHubRecord(p).value;
    if r.Entry? {
      Le32OfRead32(p, 8);
      Le32OfRead32(p, 12);
      Le32OfRead32(p, 16);
      Le32OfRead32(p, 20);
      assert p[5..8] == ZERO3 && p[36..40] == ZERO4;
      assert p[0..4] == [DeliveryCode(r.delivery), r.source, r.content.family, r.content.flags];
      assert p[4..8] == [r.content.bodyLength] + ZERO3;
      Cut(p);
    }
  }

  // ----- whole records

  datatype Decoded<+R> = Corrupt | Record(generation: u32, record: R)

  function EncodeNodeMetadata(generation: u32, m: NodeMetadata): Option<seq<u8>> {
    if ValidNodeMetadata(m) then Some(Seal(NODE_METADATA_MAGIC, generation, NodeMetadataPayload(m))) else None
  }

  function DecodeNodeMetadata(b: seq<u8>): Decoded<NodeMetadata> {
    match Open(NODE_METADATA_MAGIC, 28, b)
    case Rejected => Corrupt
    case Opened(g, p) =>
      match ParseNodeMetadata(p)
      case None => Corrupt
      case Some(m) => Record(g, m)
  }

  function EncodeHubMetadata(generation: u32, m: HubMetadata): Option<seq<u8>> {
    if ValidHubMetadata(m) then Some(Seal(HUB_METADATA_MAGIC, generation, HubMetadataPayload(m))) else None
  }

  function DecodeHubMetadata(b: seq<u8>): Decoded<HubMetadata> {
    match Open(HUB_METADATA_MAGIC, 24, b)
    case Rejected => Corrupt
    case Opened(g, p) =>
      match ParseHubMetadata(p)
      case None => Corrupt
      case Some(m) => Record(g, m)
  }

  function EncodeNodeRecord(generation: u32, r: NodeRecord): Option<seq<u8>> {
    NodeRecordPayloadForward(r);
    if ValidNodeRecord(r) then Some(Seal(NODE_RECORD_MAGIC, generation, NodeRecordPayload(r))) else None
  }

  function DecodeNodeRecord(b: seq<u8>): Decoded<NodeRecord> {
    match Open(NODE_RECORD_MAGIC, 56, b)
    case Rejected => Corrupt
    case Opened(g, p) =>
      match ParseNodeRecord(p)
      case None => Corrupt
      case Some(r) => Record(g, r)
  }

  function EncodeHubRecord(generation: u32, r: HubRecord): Option<seq<u8>> {
    HubRecordPayloadForward(r);
    if ValidHubRecord(r) then Some(Seal(HUB_RECORD_MAGIC, generation, HubRecordPayload(r))) else None
  }

  function DecodeHubRecord(b: seq<u8>): Decoded<HubRecord> {
    match Open(HUB_RECORD_MAGIC, 56, b)
    case Rejected => Corrupt
    case Opened(g, p) =>
      match ParseHubRecord(p)
      case None => Corrupt
      case Some(r) => Record(g, r)
  }

  /**
   Each codec is a bijection between the valid records and the byte strings its
   decoder accepts, so equal bytes and equal records are the same thing.
   */
  lemma NodeMetadataBijection(generation: u32, m: NodeMetadata, b: seq<u8>)
    ensures EncodeNodeMetadata(generation, m) == Some(b) <==> DecodeNodeMetadata(b) == Record(generation, m)
  {
    NodeMetadataPayloadBijection(m, NodeMetadataPayload(m));
    OpenSeal(NODE_METADATA_MAGIC, generation, NodeMetadataPayload(m));
    if DecodeNodeMetadata(b).Record? {
      SealOpen(NODE_METADATA_MAGIC, 28, b);
      NodeMetadataPayloadBijection(DecodeNodeMetadata(b).record, Open(NODE_METADATA_MAGIC, 28, b).payload);
    }
  }

  lemma HubMetadataBijection(generation: u32, m: HubMetadata, b: seq<u8>)
    ensures EncodeHubMetadata(generation, m) == Some(b) <==> DecodeHubMetadata(b) == Record(generation, m)
  {
    HubMetadataPayloadBijection(m, HubMetadataPayload(m));
    OpenSeal(HUB_METADATA_MAGIC, generation, HubMetadataPayload(m));
    if DecodeHubMetadata(b).Record? {
      SealOpen(HUB_METADATA_MAGIC, 24, b);
      HubMetadataPayloadBijection(DecodeHubMetadata(b).record, Open(HUB_METADATA_MAGIC, 24, b).payload);
    }
  }

  lemma NodeRecordBijection(generation: u32, r: NodeRecord, b: seq<u8>)
    ensures EncodeNodeRecord(generation, r) == Some(b) <==> DecodeNodeRecord(b) == Record(generation, r)
  {
    NodeRecordPayloadForward(r);
    OpenSeal(NODE_RECORD_MAGIC, generation, NodeRecordPayload(r));
    if DecodeNodeRecord(b).Record? {
      SealOpen(NODE_RECORD_MAGIC, 56, b);
      NodeRecordPayloadBackward(Open(NODE_RECORD_MAGIC, 56, b).payload);
    }
  }

  lemma HubRecordBijection(generation: u32, r: HubRecord, b: seq<u8>)
    ensures EncodeHubRecord(generation, r) == Some(b) <==> DecodeHubRecord(b) == Record(generation, r)
  {
    HubRecordPayloadForward(r);
    OpenSeal(HUB_RECORD_MAGIC, generation, HubRecordPayload(r));
    if DecodeHubRecord(b).Record? {
      SealOpen(HUB_RECORD_MAGIC, 56, b);
      HubRecordPayloadBackward(Open(HUB_RECORD_MAGIC, 56, b).payload);
    }
  }
}
