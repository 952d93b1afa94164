/**
 The resynchronising receiver (lib/host_protocol/src/host_protocol_stream.h).
 Its reference is: cut the byte stream at every zero and judge each piece.
 */
module HostStream {
  import opened Words
  import opened HostCobs
  import opened HostProtocol

  datatype StreamEvent = FrameReady(frame: Frame) | FrameRejected(why: DecodeResult) | OversizedCandidate

  // ----- the reference

  /** Where the first zero byte is, or the length. */
  function FirstZero(s: seq<u8>): (z: nat)
    ensures z <= |s| && ZeroFree(s[..z]) && (z < |s| ==> s[z] == 0)
  {
    if s == [] || s[0] == 0 then 0
    else
      var z := FirstZero(s[1..]) + 1;
      assert s[..z] == [s[0]] + s[1..][..z - 1];
      z
  }

  /** The pieces that a zero has closed. */
  function Pieces(s: seq<u8>): seq<seq<u8>>
    decreases |s|
  {
    var z := FirstZero(s);
    if z == |s| then [] else [s[..z]] + Pieces(s[z + 1..])
  }

  /** The piece still open at the end. */
  function OpenPiece(s: seq<u8>): seq<u8>
    decreases |s|
  {
    var z := FirstZero(s);
    if z == |s| then s else OpenPiece(s[z + 1..])
  }

  function Judge(piece: seq<u8>): seq<StreamEvent> {
    if piece == [] then []
    else if |piece| > MAX_COBS_CANDIDATE_SIZE then [OversizedCandidate]
    else
      match DecodeFrame(piece + [0])
      case FrameOk(f) => [FrameReady(f)]
      case why => [FrameRejected(why)]
  }

  function JudgeAll(pieces: seq<seq<u8>>): seq<StreamEvent> {
    if pieces == [] then [] else Judge(pieces[0]) + JudgeAll(pieces[1..])
  }

  // ----- the parser, byte by byte

  datatype Parser = Collecting(candidate: seq<u8>) | Discarding

  const IDLE_PARSER := Collecting([])

  function ParseByte(p: Parser, value: u8): (Parser, Option<StreamEvent>) {
    if p.Discarding? then
      if value == 0 then (IDLE_PARSER, Some(OversizedCandidate)) else (p, None)
    else if value != 0 then
      (if |p.candidate| < MAX_COBS_CANDIDATE_SIZE then Collecting(p.candidate + [value]) else Discarding, None)
    else if p.candidate == [] then (p, None)
    else
      (IDLE_PARSER,
       match DecodeFrame(p.candidate + [0])
       case FrameOk(f) => Some(FrameReady(f))
       case why => Some(FrameRejected(why)))
  }

  /** One call: take bytes until the first event or the end of the chunk. */
  function Consume(p: Parser, input: seq<u8>): (r: (Parser, nat, Option<StreamEvent>))
    ensures r.1 <= |input|
    ensures r.2.None? ==> r.1 == |input|
    ensures r.2.Some? ==> r.1 > 0
    decreases |input|
  {
    if input == [] then (p, 0, None)
    else
      var (q, event) := ParseByte(p, input[0]);
      if event.Some? then (q, 1, event)
      else
        var (r, consumed, later) := Consume(q, input[1..]);
        (r, consumed + 1, later)
  }

  /** Calls repeated until the chunk is used up. */
  function ConsumeChunk(p: Parser, chunk: seq<u8>): (Parser, seq<StreamEvent>)
    decreases |chunk|
  {
    var (q, consumed, event) := Consume(p, chunk);
    if event.None? then (q, [])
    else
      var (r, events) := ConsumeChunk(q, chunk[consumed..]);
      (r, [event.value] + events)
  }

  function ConsumeChunks(p: Parser, chunks: seq<seq<u8>>): (Parser, seq<StreamEvent>)
    decreases |chunks|
  {
    if chunks == [] then (p, [])
    else
      var (q, events) := ConsumeChunk(p, chunks[0]);
      var (r, later) := ConsumeChunks(q, chunks[1..]);
      (r, events + later)
  }

  function Flatten(chunks: seq<seq<u8>>): seq<u8> {
    if chunks == [] then [] else chunks[0] + Flatten(chunks[1..])
  }

  // ----- cutting a stream in two

  lemma {:induction false} FirstZeroOf(s: seq<u8>, z: nat)
    requires z <= |s| && ZeroFree(s[..z]) && (z < |s| ==> s[z] == 0)
    ensures FirstZero(s) == z
  {
    var y := FirstZero(s);
    assert forall i :: 0 <= i < z ==> s[..z][i] == s[i];
    assert forall i :: 0 <= i < y ==> s[..y][i] == s[i];
  }

  /** The first zero closes the first piece. */
  lemma PiecesUnfold(s: seq<u8>, z: nat)
    requires z < |s| && ZeroFree(s[..z]) && s[z] == 0
    ensures Pieces(s) == [s[..z]] + Pieces(s[z + 1..]) && OpenPiece(s) == OpenPiece(s[z + 1..])
  {
    FirstZeroOf(s, z);
  }

  /** A stream continued: closed pieces stay closed and the open piece is carried on. */
  lemma {:induction false} PiecesOfConcat(a: seq<u8>, b: seq<u8>)
    ensures Pieces(a + b) == Pieces(a) + Pieces(OpenPiece(a) + b)
    ensures OpenPiece(a + b) == OpenPiece(OpenPiece(a) + b)
    ensures ZeroFree(OpenPiece(a))
    decreases |a|
  {
    var z := FirstZero(a);
    if z == |a| {
      assert a[..z] == a;
      NoPieces(a);
    } else {
      hide Pieces, OpenPiece, FirstZero, ZeroFree;
      var rest := a[z + 1..];
      PiecesUnfold(a, z);
      CutInFront(a, b, z);
      PiecesUnfold(a + b, z);
      PiecesOfConcat(rest, b);
      ConcatAssociative([a[..z]], Pieces(rest), Pieces(OpenPiece(rest) + b));
    }
  }

  lemma CutInFront(a: seq<u8>, b: seq<u8>, z: nat)
    requires z < |a|
    ensures (a + b)[..z] == a[..z] && (a + b)[z] == a[z] && (a + b)[z + 1..] == a[z + 1..] + b
  {
  }

  lemma NoPieces(s: seq<u8>)
    requires ZeroFree(s)
    ensures Pieces(s) == [] && OpenPiece(s) == s
  {
    assert s[..|s|] == s;
    FirstZeroOf(s, |s|);
  }

  lemma {:induction false} JudgeAllOfConcat(p: seq<seq<u8>>, q: seq<seq<u8>>)
    ensures JudgeAll(p + q) == JudgeAll(p) + JudgeAll(q)
  {
    hide Judge;
    if p == [] {
      assert p + q == q;
    } else {
      JudgeAllOfConcat(p[1..], q);
      assert (p + q)[1..] == p[1..] + q;
      ConcatAssociative(Judge(p[0]), JudgeAll(p[1..]), JudgeAll(q));
    }
  }

  function Verdicts(s: seq<u8>): seq<StreamEvent> {
    JudgeAll(Pieces(s))
  }

  lemma VerdictsOfConcat(a: seq<u8>, b: seq<u8>)
    ensures Verdicts(a + b) == Verdicts(a) + Verdicts(OpenPiece(a) + b)
  {
    PiecesOfConcat(a, b);
    JudgeAllOfConcat(Pieces(a), Pieces(OpenPiece(a) + b));
  }

  // ----- the parser refines the reference

  /** The parser holds the open piece, or only the fact that it is too long. */
  predicate Holds(p: Parser, open: seq<u8>) {
    && ZeroFree(open)
    && if |open| > MAX_COBS_CANDIDATE_SIZE then p.Discarding? else p == Collecting(open)
  }

  lemma JudgeOne(piece: seq<u8>)
    ensures JudgeAll([piece]) == Judge(piece) && |Judge(piece)| <= 1
  {
    hide DecodeFrame;
    assert JudgeAll([]) == [];
    assert [piece][1..] == [];
    assert Judge(piece) + [] == Judge(piece);
  }

  lemma ByteStep(p: Parser, open: seq<u8>, value: u8)
    requires Holds(p, open)
    ensures var (q, event) := ParseByte(p, value);
      && Holds(q, OpenPiece(open + [value]))
      && Verdicts(open + [value]) == if event.Some? then [event.value] else []
  {
    hide Pieces, OpenPiece, DecodeFrame;
    var s := open + [value];
    if value == 0 {
      assert s[..|open|] == open && s[|open| + 1..] == [];
      PiecesUnfold(s, |open|);
      NoPieces([]);
      assert [open] + [] == [open];
      JudgeOne(open);
    } else {
      NoPieces(s);
    }
  }

  lemma {:induction false} ConsumeStep(p: Parser, open: seq<u8>, input: seq<u8>)
    requires Holds(p, open)
    ensures var (q, consumed, event) := Consume(p, input);
      && Holds(q, OpenPiece(open + input[..consumed]))
      && Verdicts(open + input[..consumed]) == if event.Some? then [event.value] else []
    decreases |input|
  {
    hide ParseByte, Verdicts, OpenPiece;
    if input == [] {
      assert open + [] == open;
      OpenHasNoVerdict(open);
    } else {
      var value := input[0];
      var (q, event) := ParseByte(p, value);
      ByteStep(p, open, value);
      var (r, consumed, later) := Consume(p, input);
      if event.Some? {
        assert input[..1] == [value];
      } else {
        var next := OpenPiece(open + [value]);
        ConsumeStep(q, next, input[1..]);
        var rest := input[1..][..consumed - 1];
        assert input[..consumed] == [value] + rest;
        assert open + input[..consumed] == open + [value] + rest;
        VerdictsOfConcat(open + [value], rest);
        PiecesOfConcat(open + [value], rest);
        assert [] + Verdicts(next + rest) == Verdicts(next + rest);
      }
    }
  }

  lemma HoldsZeroFree(p: Parser, open: seq<u8>)
    requires Holds(p, open)
    ensures ZeroFree(open)
  {
  }

  lemma OpenHasNoVerdict(open: seq<u8>)
    requires ZeroFree(open)
    ensures Verdicts(open) == [] && OpenPiece(open) == open
  {
    NoPieces(open);
  }

  lemma {:induction false} ChunkStep(p: Parser, open: seq<u8>, chunk: seq<u8>)
    requires Holds(p, open)
    ensures var (q, events) := ConsumeChunk(p, chunk);
      Holds(q, OpenPiece(open + chunk)) && Verdicts(open + chunk) == events
    decreases |chunk|
  {
    hide Consume, Verdicts, OpenPiece, Holds;
    var (q, consumed, event) := Consume(p, chunk);
    ConsumeStep(p, open, chunk);
    var front, rest := chunk[..consumed], chunk[consumed..];
    if event.None? {
      assert front == chunk;
    } else {
      assert chunk == front + rest;
      ConcatAssociative(open, front, rest);
      VerdictsOfConcat(open + front, rest);
      PiecesOfConcat(open + front, rest);
      ChunkStep(q, OpenPiece(open + front), rest);
    }
  }

  lemma {:induction false} ChunksStep(p: Parser, open: seq<u8>, chunks: seq<seq<u8>>)
    requires Holds(p, open)
    ensures var (q, events) := ConsumeChunks(p, chunks);
      Holds(q, OpenPiece(open + Flatten(chunks))) && Verdicts(open + Flatten(chunks)) == events
    decreases |chunks|
  {
    HoldsZeroFree(p, open);
    hide Verdicts, OpenPiece, Holds, ConsumeChunk;
    if chunks == [] {
      assert open + Flatten(chunks) == open;
      OpenHasNoVerdict(open);
    } else {
      var (q, events) := ConsumeChunk(p, chunks[0]);
      ChunkStep(p, open, chunks[0]);
      var before, rest := open + chunks[0], Flatten(chunks[1..]);
      ConcatAssociative(open, chunks[0], rest);
      VerdictsOfConcat(before, rest);
      PiecesOfConcat(before, rest);
      ChunksStep(q, OpenPiece(before), chunks[1..]);
    }
  }

  /**
   For every byte stream and every way of cutting it into chunks, the events the
   parser reports are the verdicts on the pieces between zeros, in order.
   */
  lemma ChunkingIsIrrelevant(chunks: seq<seq<u8>>)
    ensures ConsumeChunks(IDLE_PARSER, chunks).1 == Verdicts(Flatten(chunks))
  {
    ChunksStep(IDLE_PARSER, [], chunks);
    assert [] + Flatten(chunks) == Flatten(chunks);
  }

  // ----- frames on the wire

  /** The encoding of each frame, one after the other. */
  function Wire(frames: seq<Frame>): seq<u8> {
    if frames == [] then [] else FrameBytes(frames[0]) + Wire(frames[1..])
  }

  predicate Sendable(f: Frame) {
    |f.payload| <= MAX_PAYLOAD_SIZE && Vocabulary(f).None?
  }

  function FrameBytes(f: Frame): seq<u8> {
    match EncodeFrame(f, MAX_ENCODED_FRAME_SIZE)
    case Encoded(bytes) => bytes
    case _ => []
  }

  function Received(frames: seq<Frame>): seq<StreamEvent> {
    seq(|frames|, i requires 0 <= i < |frames| => FrameReady(frames[i]))
  }

  /** The stuffed bytes of a frame without the delimiter. */
  function Candidate(f: Frame): seq<u8> {
    var b := FrameBytes(f);
    if b == [] then [] else b[..|b| - 1]
  }

  /** At most one event stands in for the frame that met the garbage; the rest arrive intact. */
  predicate AfterOneLoss(garbage: seq<u8>, frames: seq<Frame>, first: seq<StreamEvent>)
    requires frames != []
  {
    && |first| <= 1
    && Verdicts(garbage + Wire(frames)) == Verdicts(garbage) + first + Received(frames[1..])
  }

  /** One whole frame after an open piece: the piece it completes is judged, and the stream is clean again. */
  lemma FrameClosesPiece(open: seq<u8>, f: Frame, rest: seq<u8>)
    requires Sendable(f) && ZeroFree(open)
    ensures Verdicts(open + FrameBytes(f) + rest) == Judge(open + Candidate(f)) + Verdicts(rest)
    ensures open == [] ==> Judge(open + Candidate(f)) == [FrameReady(f)]
  {
    FrameIsCandidate(f);
    hide FrameBytes, Verdicts, Judge, Candidate, Sendable;
    var piece := open + Candidate(f);
    ClosedPiece(piece, rest);
    Regroup(open, Candidate(f), rest);
    if open == [] {
      assert piece == Candidate(f);
    }
  }

  lemma Regroup(a: seq<u8>, b: seq<u8>, c: seq<u8>)
    ensures a + (b + [0]) + c == (a + b) + [0] + c
  {
  }

  lemma FrameIsCandidate(f: Frame)
    requires Sendable(f)
    ensures FrameBytes(f) == Candidate(f) + [0] && ZeroFree(Candidate(f))
    ensures Judge(Candidate(f)) == [FrameReady(f)]
  {
    EncodedFrameShape(f);
    hide EncodeFrame, DecodeFrame, Sendable;
    assert FrameBytes(f) == Candidate(f) + [0];
  }

  lemma ClosedPiece(piece: seq<u8>, rest: seq<u8>)
    requires ZeroFree(piece)
    ensures Verdicts(piece + [0] + rest) == Judge(piece) + Verdicts(rest)
  {
    hide Judge;
    var s := piece + [0] + rest;
    assert s[..|piece|] == piece && s[|piece| + 1..] == rest;
    PiecesUnfold(s, |piece|);
    JudgeAllOfConcat([piece], Pieces(rest));
    JudgeOne(piece);
  }

  /**
   Resynchronisation: whatever was heard before, at most the first frame after
   it is lost, and none if the earlier bytes ended with a delimiter.
   */
  lemma {:induction false} Resynchronises(garbage: seq<u8>, frames: seq<Frame>)
    requires forall i :: 0 <= i < |frames| ==> Sendable(frames[i])
    ensures OpenPiece(garbage) == [] ==> Verdicts(garbage + Wire(frames)) == Verdicts(garbage) + Received(frames)
    ensures frames != [] ==> AfterOneLoss(garbage, frames, Judge(OpenPiece(garbage) + Candidate(frames[0])))
  {
    hide Verdicts, OpenPiece, FrameBytes, Sendable, Judge, Wire;
    var open := OpenPiece(garbage);
    VerdictsOfConcat(garbage, Wire(frames));
    PiecesOfConcat(garbage, Wire(frames));
    if frames == [] {
      NothingOnTheWire();
      assert open + [] == open;
      OpenHasNoVerdict(open);
      assert Received(frames) == [];
      assert Verdicts(garbage) + [] == Verdicts(garbage);
    } else {
      FrameClosesPiece(open, frames[0], Wire(frames[1..]));
      WireOne(open, frames);
      CleanStream(frames[1..]);
      var first := Judge(open + Candidate(frames[0]));
      JudgeOne(open + Candidate(frames[0]));
      assert Verdicts(garbage) + (first + Received(frames[1..])) == Verdicts(garbage) + first + Received(frames[1..]);
      assert Received(frames) == [FrameReady(frames[0])] + Received(frames[1..]);
    }
  }

  lemma NothingOnTheWire()
    ensures Wire([]) == []
  {
  }

  lemma WireOne(open: seq<u8>, frames: seq<Frame>)
    requires frames != []
    ensures open + Wire(frames) == open + FrameBytes(frames[0]) + Wire(frames[1..])
  {
  }

  /** From a clean start the receiver gets exactly the frames sent, in order. */
  lemma {:induction false} CleanStream(frames: seq<Frame>)
    requires forall i :: 0 <= i < |frames| ==> Sendable(frames[i])
    ensures Verdicts(Wire(frames)) == Received(frames)
    decreases |frames|
  {
    hide Verdicts, FrameBytes, Sendable, Judge;
    if frames == [] {
      OpenHasNoVerdict([]);
      assert Received(frames) == [];
    } else {
      FrameClosesPiece([], frames[0], Wire(frames[1..]));
      assert [] + FrameBytes(frames[0]) + Wire(frames[1..]) == Wire(frames);
      CleanStream(frames[1..]);
      assert Received(frames) == [FrameReady(frames[0])] + Received(frames[1..]);
    }
  }

  // ----- the parser object

  class StreamParser {
    const candidate: array<u8>
    var candidateLength: nat
    var discardingOversize: bool

    constructor ()
      ensures Valid() && State() == IDLE_PARSER && fresh(candidate)
    {
      candidate := new u8[MAX_COBS_CANDIDATE_SIZE];
      candidateLength, discardingOversize := 0, false;
    }

    ghost predicate Valid()
      reads this
    {
      candidate.Length == MAX_COBS_CANDIDATE_SIZE && candidateLength <= MAX_COBS_CANDIDATE_SIZE
    }

    ghost function State(): Parser
      requires Valid()
      reads this, candidate
    {
      if discardingOversize then Discarding else Collecting(candidate[..candidateLength])
    }

    method Reset()
      requires Valid()
      modifies this
      ensures Valid() && State() == IDLE_PARSER
    {
      candidateLength, discardingOversize := 0, false;
    }

    method ConsumeBytes(input: seq<u8>) returns (consumed: nat, event: Option<StreamEvent>)
      requires Valid()
      modifies this, candidate
      ensures Valid() && (State(), consumed, event) == Consume(old(State()), input)
    {
      hide ParseByte;
      consumed, event := 0, None;
      assert input[0..] == input;
      while consumed < |input|
        invariant consumed <= |input| && Valid() && event.None?
        invariant Later(Consume(State(), input[consumed..]), consumed) == Consume(old(State()), input)
      {
        assert input[consumed..][0] == input[consumed] && input[consumed..][1..] == input[consumed + 1..];
        event := TakeByte(input[consumed]);
        consumed := consumed + 1;
        if event.Some? {
          return;
        }
      }
      assert input[consumed..] == [];
    }

    /** One turn of the parsing loop. */
    method TakeByte(value: u8) returns (event: Option<StreamEvent>)
      requires Valid()
      modifies this, candidate
      ensures Valid() && (State(), event) == ParseByte(old(State()), value)
    {
      if discardingOversize {
        if value == 0 {
          Reset();
          return Some(OversizedCandidate);
        }
        return None;
      }
      if value != 0 {
        if candidateLength < MAX_COBS_CANDIDATE_SIZE {
          candidate[candidateLength] := value;
          candidateLength := candidateLength + 1;
          assert candidate[..candidateLength] == old(candidate[..candidateLength]) + [value];
        } else {
          candidateLength := 0;
          discardingOversize := true;
        }
        return None;
      }
      if candidateLength == 0 {
        return None;
      }
      var complete := candidate[..candidateLength] + [0];
      Reset();
      var decoded := ReadFrame(complete);
      match decoded {
        case FrameOk(f) => return Some(FrameReady(f));
        case _ => return Some(FrameRejected(decoded));
      }
    }
  }

  /** The result of a call that had already taken `n` bytes. */
  function Later(r: (Parser, nat, Option<StreamEvent>), n: nat): (Parser, nat, Option<StreamEvent>) {
    (r.0, r.1 + n, r.2)
  }
}
