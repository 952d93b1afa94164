/**
 Host frames (lib/host_protocol/src/host_protocol.h): an eight-byte header, the
 payload and a CRC-16/CCITT-FALSE, byte-stuffed and ended by one zero byte.
 */
module HostProtocol {
  import opened Words
  import opened HostCobs

  const MAX_PAYLOAD_SIZE := 128
  const MIN_DECODED_FRAME_SIZE := 10
  const MAX_DECODED_FRAME_SIZE := 138
  const MAX_COBS_CANDIDATE_SIZE := 139
  const MAX_ENCODED_FRAME_SIZE := 140
  const PROTOCOL_ERROR: u8 := 0x7F
  const KNOWN_MESSAGE_TYPES: set<u8> := {0x01, 0x02, 0x10, 0x11, PROTOCOL_ERROR}

  // ----- CRC-16/CCITT-FALSE, a fixed function of the bytes

  function Crc16Bit(crc: u16): u16 {
    var shifted := (crc * 2) % 0x1_0000;
    if crc >= 0x8000 then Xor16(shifted, 0x1021) else shifted
  }

  function Crc16Bits(crc: u16, bits: nat): u16 {
    if bits == 0 then crc else Crc16Bit(Crc16Bits(crc, bits - 1))
  }

  /** One message byte enters at the top of the register. */
  function Crc16Enter(crc: u16, value: u8): u16 {
    Xor16(crc, value as int * 0x100)
  }

  function Crc16Step(crc: u16, value: u8): u16 {
    Crc16Bits(Crc16Enter(crc, value), 8)
  }

  function Crc16(b: seq<u8>): u16 {
    if b == [] then 0xFFFF else Crc16Step(Crc16(b[..|b| - 1]), b[|b| - 1])
  }

  method ComputeCrc16(b: seq<u8>) returns (crc: u16)
    ensures crc == Crc16(b)
  {
    hide Crc16Bit, Crc16Enter;
    crc := 0xFFFF;
    for i := 0 to |b|
      invariant crc == Crc16(b[..i])
    {
      var start := Crc16Enter(crc, b[i]);
      crc := start;
      for bit := 0 to 8
        invariant crc == Crc16Bits(start, bit)
      {
        crc := Crc16Bit(crc);
      }
      assert b[..i + 1][..i] == b[..i];
    }
    assert b[..|b|] == b;
  }

  // ----- frames

  datatype Frame = Frame(major: u8, minor: u8, kind: u8, flags: u8, requestId: u16, payload: seq<u8>)

  predicate ValidRequestId(kind: u8, requestId: u16) {
    requestId != 0 || kind == PROTOCOL_ERROR
  }

  datatype EncodeResult =
    | Encoded(bytes: seq<u8>)
    | PAYLOAD_TOO_LARGE | UNSUPPORTED_VERSION | UNSUPPORTED_MESSAGE_TYPE | UNSUPPORTED_FLAGS
    | INVALID_REQUEST_ID | FRAME_OUTPUT_TOO_SMALL

  /** A rejected vocabulary check still reports the CRC-checked envelope. */
  datatype DecodeResult =
    | FrameOk(frame: Frame)
    | BadEnvelope(reason: EnvelopeError)
    | BadVocabulary(error: VocabularyError, envelope: Frame)

  datatype EnvelopeError =
    | EMPTY_FRAME | ENCODED_FRAME_TOO_LARGE | MISSING_DELIMITER | MALFORMED_COBS
    | DECODED_LENGTH_INVALID | DECODED_PAYLOAD_TOO_LARGE | LENGTH_MISMATCH | CRC_MISMATCH

  datatype VocabularyError = BAD_MAJOR | BAD_MINOR | BAD_MESSAGE_TYPE | BAD_FLAGS | BAD_REQUEST_ID

  function Vocabulary(f: Frame): Option<VocabularyError> {
    if f.major != 0 then Some(BAD_MAJOR)
    else if f.minor < 1 || f.minor > 2 then Some(BAD_MINOR)
    else if f.kind !in KNOWN_MESSAGE_TYPES then Some(BAD_MESSAGE_TYPE)
    else if f.flags != 0 then Some(BAD_FLAGS)
    else if !ValidRequestId(f.kind, f.requestId) then Some(BAD_REQUEST_ID)
    else None
  }

  function Header(f: Frame): seq<u8>
    requires |f.payload| <= MAX_PAYLOAD_SIZE
  {
    [f.major, f.minor, f.kind, f.flags] + Le16(f.requestId) + Le16(|f.payload|)
  }

  function Plain(f: Frame): seq<u8>
    requires |f.payload| <= MAX_PAYLOAD_SIZE
  {
    Header(f) + f.payload + Le16(Crc16(Header(f) + f.payload))
  }

  function EncodeFrame(f: Frame, capacity: nat): EncodeResult {
    if |f.payload| > MAX_PAYLOAD_SIZE then PAYLOAD_TOO_LARGE
    else
      match Vocabulary(f)
      case Some(BAD_MAJOR) => UNSUPPORTED_VERSION
      case Some(BAD_MINOR) => UNSUPPORTED_VERSION
      case Some(BAD_MESSAGE_TYPE) => UNSUPPORTED_MESSAGE_TYPE
      case Some(BAD_FLAGS) => UNSUPPORTED_FLAGS
      case Some(BAD_REQUEST_ID) => INVALID_REQUEST_ID
      case None =>
        var candidate := CobsEncode(Plain(f));
        if capacity < |candidate| + 1 then FRAME_OUTPUT_TOO_SMALL else Encoded(candidate + [0])
  }

  /** Interpret decoded bytes. */
  function ParsePlain(d: seq<u8>): DecodeResult {
    if |d| < MIN_DECODED_FRAME_SIZE || |d| > MAX_DECODED_FRAME_SIZE then BadEnvelope(DECODED_LENGTH_INVALID)
    else
      var length: int := Read16(d, 6);
      if length > MAX_PAYLOAD_SIZE then BadEnvelope(DECODED_PAYLOAD_TOO_LARGE)
      else if |d| != MIN_DECODED_FRAME_SIZE + length then BadEnvelope(LENGTH_MISMATCH)
      else if Crc16(d[..8 + length]) != Read16(d, 8 + length) then BadEnvelope(CRC_MISMATCH)
      else
        var f := Frame(d[0], d[1], d[2], d[3], Read16(d, 4), d[8..8 + length]);
        match Vocabulary(f)
        case None => FrameOk(f)
        case Some(error) => BadVocabulary(error, f)
  }

  function DecodeFrame(b: seq<u8>): DecodeResult {
    if b == [] then BadEnvelope(EMPTY_FRAME)
    else if |b| > MAX_ENCODED_FRAME_SIZE then BadEnvelope(ENCODED_FRAME_TOO_LARGE)
    else if b[|b| - 1] != 0 then BadEnvelope(MISSING_DELIMITER)
    else if |b| == 1 then BadEnvelope(EMPTY_FRAME)
    else
      match CobsDecode(b[..|b| - 1])
      case None => BadEnvelope(MALFORMED_COBS)
      case Some(d) => ParsePlain(d)
  }

  // ----- round trip in both directions

  lemma ParseOfPlain(f: Frame)
    requires |f.payload| <= MAX_PAYLOAD_SIZE
    ensures |Plain(f)| == MIN_DECODED_FRAME_SIZE + |f.payload|
    ensures Vocabulary(f).None? ==> ParsePlain(Plain(f)) == FrameOk(f)
  {
    hide Crc16, Le16, Read16;
    var d, n := Plain(f), |f.payload|;
    var crc := Crc16(Header(f) + f.payload);
    assert d[..8 + n] == Header(f) + f.payload && d[8 + n..8 + n + 2] == Le16(crc);
    assert d[4..6] == Le16(f.requestId) && d[6..8] == Le16(n) && d[8..8 + n] == f.payload;
    Read16OfLe16(d, 4, f.requestId);
    Read16OfLe16(d, 6, n);
    Read16OfLe16(d, 8 + n, crc);
  }

  lemma PlainOfParse(d: seq<u8>)
    requires ParsePlain(d).FrameOk?
    ensures |ParsePlain(d).frame.payload| <= MAX_PAYLOAD_SIZE && Plain(ParsePlain(d).frame) == d
    ensures Vocabulary(ParsePlain(d).frame).None?
  {
    hide Crc16, Le16, Read16;
    var f := ParsePlain(d).frame;
    var n := |f.payload|;
    Le16OfRead16(d, 4);
    Le16OfRead16(d, 6);
    Le16OfRead16(d, 8 + n);
    assert d[..8 + n] == [d[0], d[1], d[2], d[3]] + d[4..6] + d[6..8] + d[8..8 + n];
    assert d[..8 + n] == Header(f) + f.payload;
    assert d == d[..8 + n] + d[8 + n..8 + n + 2];
  }

  /**
   Within the size bounds framing is a bijection: a byte string decodes to a
   frame exactly when it is that frame's encoding.  So a frame survives the
   round trip and every accepted byte string is canonical.
   */
  lemma FrameBijection(f: Frame, b: seq<u8>)
    ensures DecodeFrame(b) == FrameOk(f) <==> EncodeFrame(f, MAX_ENCODED_FRAME_SIZE) == Encoded(b)
  {
    hide ParsePlain, Plain, CobsDecode, CobsEncode, Vocabulary;
    if DecodeFrame(b) == FrameOk(f) {
      var c := b[..|b| - 1];
      CanonicalIffLastBlockOpen(c);
      PlainOfParse(CobsDecode(c).value);
      assert b == c + [0];
    }
    if EncodeFrame(f, MAX_ENCODED_FRAME_SIZE) == Encoded(b) {
      CobsRoundTrip(Plain(f));
      ParseOfPlain(f);
      assert b[..|b| - 1] == CobsEncode(Plain(f));
    }
  }

  /** What an encoding looks like on the wire: no zero but the last, at most 140 bytes, never too large to send. */
  lemma EncodedFrameShape(f: Frame)
    requires |f.payload| <= MAX_PAYLOAD_SIZE && Vocabulary(f).None?
    ensures EncodeFrame(f, MAX_ENCODED_FRAME_SIZE).Encoded?
    ensures var b := EncodeFrame(f, MAX_ENCODED_FRAME_SIZE).bytes;
      && MIN_DECODED_FRAME_SIZE + 2 <= |b| <= MAX_ENCODED_FRAME_SIZE
      && b[|b| - 1] == 0 && ZeroFree(b[..|b| - 1])
      && DecodeFrame(b) == FrameOk(f)
  {
    hide Plain, CobsEncode, CobsDecode, DecodeFrame;
    ParseOfPlain(f);
    CobsRoundTrip(Plain(f));
    var b := EncodeFrame(f, MAX_ENCODED_FRAME_SIZE).bytes;
    assert b[..|b| - 1] == CobsEncode(Plain(f));
    FrameBijection(f, b);
  }

  // ----- the buffer-level operations

  /** Place the candidate and its delimiter. */
  method Delimit(candidate: array<u8>, length: nat, output: array<u8>)
    requires length <= candidate.Length < output.Length && candidate != output
    modifies output
    ensures output[..length + 1] == candidate[..length] + [0]
  {
    for i := 0 to length
      invariant output[..i] == candidate[..i]
    {
      output[i] := candidate[i];
      assert output[..i + 1] == output[..i] + [candidate[i]];
      assert candidate[..i + 1] == candidate[..i] + [candidate[i]];
    }
    output[length] := 0;
    assert output[..length + 1] == output[..length] + [0];
  }

  method WriteFrame(f: Frame, output: array<u8>) returns (result: EncodeResult, length: nat)
    modifies output
    ensures result == EncodeFrame(f, output.Length)
    ensures result.Encoded? ==> length == |result.bytes| && output[..length] == result.bytes
  {
    length := 0;
    if |f.payload| > MAX_PAYLOAD_SIZE {
      return PAYLOAD_TOO_LARGE, 0;
    }
    match Vocabulary(f) {
      case Some(BAD_MAJOR) => return UNSUPPORTED_VERSION, 0;
      case Some(BAD_MINOR) => return UNSUPPORTED_VERSION, 0;
      case Some(BAD_MESSAGE_TYPE) => return UNSUPPORTED_MESSAGE_TYPE, 0;
      case Some(BAD_FLAGS) => return UNSUPPORTED_FLAGS, 0;
      case Some(BAD_REQUEST_ID) => return INVALID_REQUEST_ID, 0;
      case None =>
    }
    result, length := WriteVerified(f, output);
  }

  /** Frame bytes of a frame that passed the vocabulary checks. */
  method WriteVerified(f: Frame, output: array<u8>) returns (result: EncodeResult, length: nat)
    requires |f.payload| <= MAX_PAYLOAD_SIZE && Vocabulary(f).None?
    modifies output
    ensures result == EncodeFrame(f, output.Length)
    ensures result.Encoded? ==> length == |result.bytes| && output[..length] == result.bytes
  {
    hide CobsEncode, CobsDecode, Crc16, Le16, Header, Vocabulary;
    ParseOfPlain(f);
    CobsRoundTrip(Plain(f));
    var crc := ComputeCrc16(Header(f) + f.payload);
    var decoded := Header(f) + f.payload + Le16(crc);
    if output.Length == 0 {
      return FRAME_OUTPUT_TOO_SMALL, 0;
    }
    var candidate := new u8[output.Length - 1];
    var stuffed, candidateLength := CobsEncodeInto(decoded, MAX_DECODED_FRAME_SIZE, candidate);
    if stuffed != COBS_OK {
      return FRAME_OUTPUT_TOO_SMALL, 0;
    }
    Delimit(candidate, candidateLength, output);
    return Encoded(candidate[..candidateLength] + [0]), candidateLength + 1;
  }

  method ReadFrame(input: seq<u8>) returns (result: DecodeResult)
    ensures result == DecodeFrame(input)
  {
    if input == [] {
      return BadEnvelope(EMPTY_FRAME);
    }
    if |input| > MAX_ENCODED_FRAME_SIZE {
      return BadEnvelope(ENCODED_FRAME_TOO_LARGE);
    }
    if input[|input| - 1] != 0 {
      return BadEnvelope(MISSING_DELIMITER);
    }
    if |input| == 1 {
      return BadEnvelope(EMPTY_FRAME);
    }
    hide CobsDecode, Crc16;
    var candidate := input[..|input| - 1];
    var decoded := new u8[MAX_DECODED_FRAME_SIZE];
    var unstuffed, length := CobsDecodeInto(candidate, MAX_COBS_CANDIDATE_SIZE, decoded);
    if CobsDecode(candidate).Some? {
      CobsDecodeShortens(candidate);
    }
    if unstuffed != COBS_OK {
      return BadEnvelope(MALFORMED_COBS);
    }
    result := ReadPlain(decoded[..length]);
  }

  lemma CobsDecodeShortens(c: seq<u8>)
    requires CobsDecode(c).Some?
    ensures |CobsDecode(c).value| < |c|
  {
    DecodedShape(c);
  }

  method ReadPlain(d: seq<u8>) returns (result: DecodeResult)
    ensures result == ParsePlain(d)
  {
    if |d| < MIN_DECODED_FRAME_SIZE || |d| > MAX_DECODED_FRAME_SIZE {
      return BadEnvelope(DECODED_LENGTH_INVALID);
    }
    var length: int := Read16(d, 6);
    if length > MAX_PAYLOAD_SIZE {
      return BadEnvelope(DECODED_PAYLOAD_TOO_LARGE);
    }
    if |d| != MIN_DECODED_FRAME_SIZE + length {
      return BadEnvelope(LENGTH_MISMATCH);
    }
    hide Crc16;
    var crc := ComputeCrc16(d[..8 + length]);
    if crc != Read16(d, 8 + length) {
      return BadEnvelope(CRC_MISMATCH);
    }
    var f := Frame(d[0], d[1], d[2], d[3], Read16(d, 4), d[8..8 + length]);
    match Vocabulary(f) {
      case None => return FrameOk(f);
      case Some(error) => return BadVocabulary(error, f);
    }
  }
}
