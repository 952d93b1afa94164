/**
 Consistent Overhead Byte Stuffing (Cheshire and Baker) as
 lib/host_protocol/src/host_protocol.h implements it: a full block of 254 bytes
 closes at once, so an input that ends there is followed by an empty block.
 */
module HostCobs {
  import opened Words

  const FULL_BLOCK := 254

  predicate ZeroFree(s: seq<u8>) {
    forall i :: 0 <= i < |s| ==> s[i] != 0
  }

  // ----- specification

  /** Encode `s` while the bytes of `open` wait for the code byte of their block. */
  function EncodeFrom(open: seq<u8>, s: seq<u8>): seq<u8>
    requires |open| < FULL_BLOCK
    decreases |s|
  {
    if s == [] then [|open| + 1] + open
    else if s[0] == 0 then [|open| + 1] + open + EncodeFrom([], s[1..])
    else if |open| + 1 == FULL_BLOCK then [FULL_BLOCK + 1] + (open + [s[0]]) + EncodeFrom([], s[1..])
    else EncodeFrom(open + [s[0]], s[1..])
  }

  function CobsEncode(s: seq<u8>): seq<u8> {
    EncodeFrom([], s)
  }

  /** Decode block by block; a zero separates blocks unless the earlier one is full. */
  function DecodeBlocks(c: seq<u8>): Option<seq<u8>>
    decreases |c|
  {
    if c == [] then Some([])
    else
      var code: int := c[0];
      if code == 0 || code > |c| || !ZeroFree(c[1..code]) then None
      else
        match DecodeBlocks(c[code..])
        case None => None
        case Some(rest) => Some(c[1..code] + Separator(code, c[code..]) + rest)
  }

  function Separator(code: int, rest: seq<u8>): seq<u8> {
    if code != FULL_BLOCK + 1 && rest != [] then [0] else []
  }

  function CobsDecode(c: seq<u8>): Option<seq<u8>> {
    if c == [] then None else DecodeBlocks(c)
  }

  // ----- round trip

  lemma {:induction false} EncodedShape(open: seq<u8>, s: seq<u8>)
    requires |open| < FULL_BLOCK && ZeroFree(open)
    ensures ZeroFree(EncodeFrom(open, s))
    ensures |open| + |s| + 1 <= |EncodeFrom(open, s)| <= |open| + |s| + 1 + (|open| + |s|) / FULL_BLOCK
    decreases |s|
  {
    if s != [] {
      EncodedShape(if s[0] == 0 || |open| + 1 == FULL_BLOCK then [] else open + [s[0]], s[1..]);
    }
  }

  /** One block in front of the encoding of the rest. */
  lemma DecodeFirstBlock(block: seq<u8>, c: seq<u8>)
    requires |block| <= FULL_BLOCK && ZeroFree(block)
    ensures DecodeBlocks([|block| + 1] + block + c)
         == match DecodeBlocks(c)
            case None => None
            case Some(rest) => Some(block + Separator(|block| + 1, c) + rest)
  {
    var all: seq<u8> := [|block| + 1] + block + c;
    assert all[1..|block| + 1] == block && all[|block| + 1..] == c;
  }

  lemma DecodeNothing()
    ensures DecodeBlocks([]) == Some([])
  {
  }

  lemma {:induction false} DecodeEncodeFrom(open: seq<u8>, s: seq<u8>)
    requires |open| < FULL_BLOCK && ZeroFree(open)
    ensures DecodeBlocks(EncodeFrom(open, s)) == Some(open + s)
    decreases |s|
  {
    hide DecodeBlocks;
    if s == [] {
      DecodeFirstBlock(open, []);
      DecodeNothing();
      assert [|open| + 1] + open + [] == [|open| + 1] + open;
      assert open + [] + [] == open + s;
    } else if s[0] == 0 {
      DecodeEncodeFrom([], s[1..]);
      EncodedShape([], s[1..]);
      DecodeFirstBlock(open, EncodeFrom([], s[1..]));
      assert open + [0] + ([] + s[1..]) == open + s;
    } else if |open| + 1 == FULL_BLOCK {
      DecodeEncodeFrom([], s[1..]);
      EncodedShape([], s[1..]);
      DecodeFirstBlock(open + [s[0]], EncodeFrom([], s[1..]));
      assert open + [s[0]] + [] + ([] + s[1..]) == open + s;
    } else {
      DecodeEncodeFrom(open + [s[0]], s[1..]);
      assert open + [s[0]] + s[1..] == open + s;
    }
  }

  /** For every byte string of any length: the encoding has no zero byte and decodes to the input. */
  lemma CobsRoundTrip(s: seq<u8>)
    ensures ZeroFree(CobsEncode(s)) && CobsDecode(CobsEncode(s)) == Some(s)
    ensures |s| + 1 <= |CobsEncode(s)| <= |s| + 1 + |s| / FULL_BLOCK
  {
    EncodedShape([], s);
    DecodeEncodeFrom([], s);
    assert [] + s == s;
  }

  // ----- which candidates are canonical

  /** The code byte of the last block. */
  function LastCode(c: seq<u8>): u8
    requires c != []
    decreases |c|
  {
    if c[0] == 0 || c[0] >= |c| then c[0] else LastCode(c[c[0]..])
  }

  lemma {:induction false} EncodeRun(open: seq<u8>, block: seq<u8>, t: seq<u8>)
    requires |open| + |block| < FULL_BLOCK && ZeroFree(block)
    ensures EncodeFrom(open, block + t) == EncodeFrom(open + block, t)
    decreases |block|
  {
    if block == [] {
      assert block + t == t && open + block == open;
    } else {
      EncodeRun(open + [block[0]], block[1..], t);
      assert (block + t)[1..] == block[1..] + t;
      assert open + [block[0]] + block[1..] == open + block;
    }
  }

  lemma EncodeFullBlock(block: seq<u8>, t: seq<u8>)
    requires |block| == FULL_BLOCK && ZeroFree(block)
    ensures CobsEncode(block + t) == [FULL_BLOCK + 1] + block + CobsEncode(t)
  {
    var front, last := block[..FULL_BLOCK - 1], block[FULL_BLOCK - 1];
    EncodeRun([], front, [last] + t);
    assert front + ([last] + t) == block + t;
    assert [] + front == front && front + [last] == block;
    assert ([last] + t)[1..] == t;
  }

  lemma EncodeShortBlock(block: seq<u8>, t: seq<u8>)
    requires |block| < FULL_BLOCK && ZeroFree(block)
    ensures CobsEncode(block + [0] + t) == [|block| + 1] + block + CobsEncode(t)
    ensures CobsEncode(block) == [|block| + 1] + block
  {
    EncodeRun([], block, [0] + t);
    assert block + ([0] + t) == block + [0] + t && [] + block == block;
    assert ([0] + t)[1..] == t;
    EncodeRun([], block, []);
    assert block + [] == block;
  }

  lemma {:induction false} EncodedLastCode(open: seq<u8>, s: seq<u8>)
    requires |open| < FULL_BLOCK && ZeroFree(open)
    ensures EncodeFrom(open, s) != [] && LastCode(EncodeFrom(open, s)) != FULL_BLOCK + 1
    decreases |s|
  {
    var c := EncodeFrom(open, s);
    if s != [] {
      var next := if s[0] == 0 || |open| + 1 == FULL_BLOCK then [] else open + [s[0]];
      EncodedLastCode(next, s[1..]);
      if next == [] {
        assert c[c[0]..] == EncodeFrom([], s[1..]);
      }
    }
  }

  lemma {:induction false} ReencodeBlocks(c: seq<u8>)
    requires c != [] && DecodeBlocks(c).Some? && LastCode(c) != FULL_BLOCK + 1
    ensures CobsEncode(DecodeBlocks(c).value) == c
    decreases |c|
  {
    var code: int := c[0];
    var block, rest := c[1..code], c[code..];
    assert c == [c[0]] + block + rest;
    if rest == [] {
      assert DecodeBlocks(rest) == Some([]);
      assert block + [] + [] == block && [c[0]] + block + [] == [c[0]] + block;
      EncodeShortBlock(block, []);
    } else {
      ReencodeBlocks(rest);
      var t := DecodeBlocks(rest).value;
      if code == FULL_BLOCK + 1 {
        assert block + [] + t == block + t;
        EncodeFullBlock(block, t);
      } else {
        EncodeShortBlock(block, t);
      }
    }
  }

  /**
   A decodable candidate is the encoding of what it decodes to exactly when its
   last block is not a full one; below 255 bytes every candidate is canonical.
   */
  lemma CanonicalIffLastBlockOpen(c: seq<u8>)
    requires CobsDecode(c).Some?
    ensures CobsEncode(CobsDecode(c).value) == c <==> LastCode(c) != FULL_BLOCK + 1
    ensures |c| < FULL_BLOCK + 1 ==> CobsEncode(CobsDecode(c).value) == c
  {
    EncodedLastCode([], CobsDecode(c).value);
    if LastCode(c) != FULL_BLOCK + 1 {
      ReencodeBlocks(c);
    }
    LastCodeFits(c);
  }

  lemma {:induction false} LastCodeFits(c: seq<u8>)
    requires c != [] && DecodeBlocks(c).Some?
    ensures LastCode(c) <= |c|
    decreases |c|
  {
    if c[0] < |c| {
      LastCodeFits(c[c[0]..]);
    }
  }

  /** Decoding shortens, and an accepted candidate has no zero byte. */
  lemma {:induction false} DecodedShape(c: seq<u8>)
    requires c != [] && DecodeBlocks(c).Some?
    ensures |DecodeBlocks(c).value| < |c| && ZeroFree(c)
    decreases |c|
  {
    var code: int := c[0];
    var rest := c[code..];
    if rest != [] {
      DecodedShape(rest);
    }
    forall i | 0 <= i < |c| ensures c[i] != 0 {
      if 1 <= i < code {
        assert c[i] == c[1..code][i - 1];
      } else if code <= i {
        assert c[i] == rest[i - code];
      }
    }
  }

  // ----- the loops over buffers

  datatype CobsResult = COBS_OK | INPUT_TOO_LARGE | OUTPUT_TOO_SMALL | MALFORMED_INPUT

  /** The bytes written so far and the open block account for the whole encoding. */
  ghost predicate EncodedSoFar(input: seq<u8>, rest: seq<u8>, buffer: seq<u8>, codeIndex: nat, writeIndex: nat) {
    && codeIndex < writeIndex <= |buffer| && writeIndex - codeIndex <= FULL_BLOCK
    && ZeroFree(buffer[codeIndex + 1..writeIndex])
    && CobsEncode(input) == buffer[..codeIndex] + EncodeFrom(buffer[codeIndex + 1..writeIndex], rest)
  }

  lemma ZeroStep(input: seq<u8>, rest: seq<u8>, was: seq<u8>, codeIndex: nat, writeIndex: nat)
    requires EncodedSoFar(input, rest, was, codeIndex, writeIndex)
    requires rest != [] && rest[0] == 0 && writeIndex < |was|
    ensures EncodedSoFar(input, rest[1..], was[codeIndex := writeIndex - codeIndex], writeIndex, writeIndex + 1)
  {
    var now := was[codeIndex := writeIndex - codeIndex];
    assert now[..writeIndex] == was[..codeIndex] + ([writeIndex - codeIndex] + was[codeIndex + 1..writeIndex]);
    assert now[writeIndex + 1..writeIndex + 1] == [];
  }

  lemma ByteStep(input: seq<u8>, rest: seq<u8>, was: seq<u8>, codeIndex: nat, writeIndex: nat)
    requires EncodedSoFar(input, rest, was, codeIndex, writeIndex)
    requires rest != [] && rest[0] != 0 && writeIndex < |was| && writeIndex - codeIndex < FULL_BLOCK
    ensures EncodedSoFar(input, rest[1..], was[writeIndex := rest[0]], codeIndex, writeIndex + 1)
  {
    var now := was[writeIndex := rest[0]];
    assert now[codeIndex + 1..writeIndex + 1] == was[codeIndex + 1..writeIndex] + [rest[0]];
    assert now[..codeIndex] == was[..codeIndex];
  }

  /** The 254th byte closes its block at once, and another code byte is always needed after it. */
  lemma FullStep(input: seq<u8>, rest: seq<u8>, was: seq<u8>, codeIndex: nat, writeIndex: nat)
    requires EncodedSoFar(input, rest, was, codeIndex, writeIndex)
    requires rest != [] && rest[0] != 0 && writeIndex < |was| && writeIndex - codeIndex == FULL_BLOCK
    ensures |CobsEncode(input)| > writeIndex + 1
    ensures writeIndex + 1 < |was| ==>
      EncodedSoFar(input, rest[1..], was[writeIndex := rest[0]][codeIndex := FULL_BLOCK + 1], writeIndex + 1, writeIndex + 2)
  {
    var now := was[writeIndex := rest[0]][codeIndex := FULL_BLOCK + 1];
    assert now[..writeIndex + 1]
        == was[..codeIndex] + ([FULL_BLOCK + 1] + (was[codeIndex + 1..writeIndex] + [rest[0]]));
    EncodedShape([], rest[1..]);
    if writeIndex + 1 < |was| {
      assert now[writeIndex + 2..writeIndex + 2] == [];
    }
  }

  lemma LastStep(input: seq<u8>, was: seq<u8>, codeIndex: nat, writeIndex: nat)
    requires EncodedSoFar(input, [], was, codeIndex, writeIndex)
    ensures was[codeIndex := writeIndex - codeIndex][..writeIndex] == CobsEncode(input)
  {
    assert was[codeIndex := writeIndex - codeIndex][..writeIndex]
        == was[..codeIndex] + ([writeIndex - codeIndex] + was[codeIndex + 1..writeIndex]);
  }

  /** What is still to be written needs at least one byte per remaining input byte. */
  lemma RoomNeeded(input: seq<u8>, rest: seq<u8>, buffer: seq<u8>, codeIndex: nat, writeIndex: nat)
    requires EncodedSoFar(input, rest, buffer, codeIndex, writeIndex)
    ensures |CobsEncode(input)| >= writeIndex + |rest|
    ensures codeIndex < writeIndex <= |buffer| && writeIndex - codeIndex <= FULL_BLOCK
  {
    EncodedShape(buffer[codeIndex + 1..writeIndex], rest);
  }

  /** One turn of the encoding loop. */
  method EncodeByte(input: seq<u8>, i: nat, output: array<u8>, codeIndex: nat, writeIndex: nat)
      returns (room: bool, codeIndex': nat, writeIndex': nat, code': u8)
    requires i < |input| && EncodedSoFar(input, input[i..], output[..], codeIndex, writeIndex)
    modifies output
    ensures !room ==> output.Length < |CobsEncode(input)|
    ensures room ==> EncodedSoFar(input, input[i..][1..], output[..], codeIndex', writeIndex') && code' == writeIndex' - codeIndex'
  {
    hide EncodedSoFar, CobsEncode;
    ghost var rest: seq<u8>, was: seq<u8> := input[i..], output[..];
    RoomNeeded(input, rest, was, codeIndex, writeIndex);
    room, codeIndex', writeIndex', code' := true, codeIndex, writeIndex, writeIndex - codeIndex;
    if writeIndex >= output.Length {
      room := false;
      return;
    }
    if input[i] == 0 {
      output[codeIndex] := code';
      assert output[..] == was[codeIndex := code'];
      ZeroStep(input, rest, was, codeIndex, writeIndex);
      codeIndex', writeIndex', code' := writeIndex, writeIndex + 1, 1;
      return;
    }
    output[writeIndex] := input[i];
    assert output[..] == was[writeIndex := rest[0]];
    writeIndex', code' := writeIndex + 1, code' + 1;
    if code' == 0xFF {
      output[codeIndex] := code';
      assert output[..] == was[writeIndex := rest[0]][codeIndex := FULL_BLOCK + 1];
      FullStep(input, rest, was, codeIndex, writeIndex);
      if writeIndex' >= output.Length {
        room := false;
        return;
      }
      codeIndex', writeIndex', code' := writeIndex', writeIndex' + 1, 1;
    } else {
      ByteStep(input, rest, was, codeIndex, writeIndex);
    }
  }

  method CobsEncodeInto(input: seq<u8>, limit: nat, output: array<u8>) returns (result: CobsResult, length: nat)
    modifies output
    ensures result == INPUT_TOO_LARGE <==> |input| > limit
    ensures result == OUTPUT_TOO_SMALL <==> |input| <= limit && output.Length < |CobsEncode(input)|
    ensures result == COBS_OK <==> |input| <= limit && |CobsEncode(input)| <= output.Length
    ensures result == COBS_OK ==> length == |CobsEncode(input)| && output[..length] == CobsEncode(input)
  {
    CobsRoundTrip(input);
    if |input| > limit {
      return INPUT_TOO_LARGE, 0;
    }
    if output.Length == 0 {
      return OUTPUT_TOO_SMALL, 0;
    }
    var codeIndex: nat, writeIndex: nat, code: u8 := 0, 1, 1;
    assert EncodedSoFar(input, input[0..], output[..], 0, 1) by {
      assert output[..][1..1] == [] && input[0..] == input;
    }
    hide EncodedSoFar, CobsEncode;
    var room := true;
    for i := 0 to |input|
      invariant code == writeIndex - codeIndex
      invariant EncodedSoFar(input, input[i..], output[..], codeIndex, writeIndex)
    {
      assert input[i..][0] == input[i] && input[i..][1..] == input[i + 1..];
      room, codeIndex, writeIndex, code := EncodeByte(input, i, output, codeIndex, writeIndex);
      if !room {
        return OUTPUT_TOO_SMALL, 0;
      }
    }
    ghost var was: seq<u8> := output[..];
    assert input[|input|..] == [];
    RoomNeeded(input, [], was, codeIndex, writeIndex);
    LastStep(input, was, codeIndex, writeIndex);
    output[codeIndex] := code;
    assert output[..] == was[codeIndex := code];
    assert output[..writeIndex] == output[..][..writeIndex];
    return COBS_OK, writeIndex;
  }

  /** The bytes written so far and the candidate bytes not yet read account for the whole decoding. */
  ghost predicate DecodedSoFar(input: seq<u8>, rest: seq<u8>, written: seq<u8>) {
    DecodeBlocks(input) == match DecodeBlocks(rest) case None => None case Some(t) => Some(written + t)
  }

  /** A block that does not parse makes the candidate malformed. */
  lemma BadBlock(input: seq<u8>, rest: seq<u8>, written: seq<u8>)
    requires DecodedSoFar(input, rest, written) && rest != []
    requires rest[0] == 0 || rest[0] > |rest| || !ZeroFree(rest[1..rest[0]])
    ensures DecodeBlocks(input).None?
  {
  }

  lemma AllRead(input: seq<u8>, written: seq<u8>)
    requires DecodedSoFar(input, [], written)
    ensures DecodeBlocks(input) == Some(written)
  {
    assert written + [] == written;
  }

  lemma GoodBlock(input: seq<u8>, rest: seq<u8>, written: seq<u8>)
    requires DecodedSoFar(input, rest, written) && rest != []
    requires rest[0] != 0 && rest[0] <= |rest| && ZeroFree(rest[1..rest[0]])
    ensures var code: int := rest[0];
      && DecodedSoFar(input, rest[code..], written + rest[1..code] + Separator(code, rest[code..]))
      && (DecodeBlocks(input).Some? ==> |DecodeBlocks(input).value| >= |written| + code - 1 + |Separator(code, rest[code..])|)
  {
    var code: int := rest[0];
    match DecodeBlocks(rest[code..])
    case None =>
    case Some(t) =>
      assert written + (rest[1..code] + Separator(code, rest[code..]) + t)
          == written + rest[1..code] + Separator(code, rest[code..]) + t;
  }

  /** Copy one block; a zero byte inside it stops the copy. */
  method CopyBlock(input: seq<u8>, readIndex: nat, blockLength: nat, output: array<u8>, writeIndex: nat) returns (ok: bool)
    requires readIndex + blockLength <= |input| && writeIndex + blockLength <= output.Length
    modifies output
    ensures ok <==> ZeroFree(input[readIndex..readIndex + blockLength])
    ensures ok ==> output[..writeIndex + blockLength] == old(output[..writeIndex]) + input[readIndex..readIndex + blockLength]
  {
    for index := 0 to blockLength
      invariant ZeroFree(input[readIndex..readIndex + index])
      invariant output[..writeIndex + index] == old(output[..writeIndex]) + input[readIndex..readIndex + index]
    {
      var value := input[readIndex + index];
      if value == 0 {
        assert input[readIndex..readIndex + blockLength][index] == 0;
        return false;
      }
      output[writeIndex + index] := value;
      assert output[..writeIndex + index + 1] == output[..writeIndex + index] + [value];
      assert input[readIndex..readIndex + index + 1] == input[readIndex..readIndex + index] + [value];
    }
    return true;
  }

  /** One turn of the decoding loop. */
  method DecodeBlock(input: seq<u8>, readIndex: nat, output: array<u8>, writeIndex: nat)
      returns (result: CobsResult, readIndex': nat, writeIndex': nat)
    requires writeIndex <= readIndex < |input| && writeIndex <= output.Length
    requires DecodedSoFar(input, input[readIndex..], output[..writeIndex])
    modifies output
    ensures result == COBS_OK ==>
      && readIndex < readIndex' <= |input| && writeIndex' <= readIndex' && writeIndex' <= output.Length
      && (readIndex' == |input| ==> writeIndex' < readIndex')
      && DecodedSoFar(input, input[readIndex'..], output[..writeIndex'])
    ensures result == MALFORMED_INPUT ==> DecodeBlocks(input).None?
    ensures result == OUTPUT_TOO_SMALL ==>
      && output.Length + 1 < |input|
      && (DecodeBlocks(input).Some? ==> |DecodeBlocks(input).value| > output.Length)
    ensures result != INPUT_TOO_LARGE
  {
    hide DecodedSoFar, DecodeBlocks, ZeroFree;
    ghost var rest, written := input[readIndex..], output[..writeIndex];
    var code := input[readIndex];
    result, readIndex', writeIndex' := MALFORMED_INPUT, readIndex + 1, writeIndex;
    var blockLength := code as int - 1;
    if code == 0 || blockLength > |input| - readIndex' {
      BadBlock(input, rest, written);
      return;
    }
    assert rest[1..code] == input[readIndex'..readIndex' + blockLength];
    if ZeroFree(rest[1..code]) {
      GoodBlock(input, rest, written);
    } else {
      BadBlock(input, rest, written);
    }
    if blockLength > output.Length - writeIndex {
      result := OUTPUT_TOO_SMALL;
      return;
    }
    var copied := CopyBlock(input, readIndex', blockLength, output, writeIndex);
    if !copied {
      return;
    }
    readIndex', writeIndex' := readIndex' + blockLength, writeIndex + blockLength;
    assert rest[code..] == input[readIndex'..];
    if code != 0xFF && readIndex' < |input| {
      if writeIndex' >= output.Length {
        result := OUTPUT_TOO_SMALL;
        return;
      }
      output[writeIndex'] := 0;
      assert output[..writeIndex' + 1] == output[..writeIndex'] + [0];
      writeIndex' := writeIndex' + 1;
    } else {
      assert output[..writeIndex'] + [] == output[..writeIndex'];
    }
    result := COBS_OK;
  }

  method CobsDecodeInto(input: seq<u8>, limit: nat, output: array<u8>) returns (result: CobsResult, length: nat)
    modifies output
    ensures result == INPUT_TOO_LARGE <==> |input| > limit
    ensures result == COBS_OK <==>
      |input| <= limit && CobsDecode(input).Some? && |CobsDecode(input).value| <= output.Length
    ensures result == COBS_OK ==> length == |CobsDecode(input).value| && output[..length] == CobsDecode(input).value
    ensures |input| <= limit && |input| <= output.Length + 1 ==> result == COBS_OK || result == MALFORMED_INPUT
  {
    if input == [] {
      return MALFORMED_INPUT, 0;
    }
    if |input| > limit {
      return INPUT_TOO_LARGE, 0;
    }
    var readIndex: nat, writeIndex: nat := 0, 0;
    assert DecodedSoFar(input, input[0..], output[..0]) by {
      assert input[0..] == input && output[..0] == [];
      assert DecodeBlocks(input).Some? ==> [] + DecodeBlocks(input).value == DecodeBlocks(input).value;
    }
    hide DecodedSoFar, DecodeBlocks;
    while readIndex < |input|
      invariant writeIndex <= readIndex <= |input| && writeIndex <= output.Length
      invariant DecodedSoFar(input, input[readIndex..], output[..writeIndex])
    {
      result, readIndex, writeIndex := DecodeBlock(input, readIndex, output, writeIndex);
      if result != COBS_OK {
        return result, 0;
      }
    }
    assert input[readIndex..] == [];
    AllRead(input, output[..writeIndex]);
    return COBS_OK, writeIndex;
  }
}
