/**
 The Host link (lib/host_transport/src/host_transport.h): one pending frame,
 written out in whatever portions the device accepts, and a receiver that feeds
 single bytes to the parser.
 */
module HostTransport {
  import opened Words
  import opened HostCobs
  import opened HostProtocol
  import opened HostStream

  datatype SubmitStatus = SUBMITTED | BUSY | INVALID_ARGUMENT | INVALID_FRAME
  datatype TxStatus = IDLE | BLOCKED | TX_PROGRESS | COMPLETE | OUTPUT_ERROR
  datatype RxStatus = NO_ACTIVITY | RX_PROGRESS | PARSER_EVENT | INPUT_ERROR

  // ----- the transmitter

  /** The pending bytes not yet accepted by the device; none when idle. */
  datatype Tx = Tx(pending: seq<u8>, offset: nat) {
    predicate Valid() {
      if pending == [] then offset == 0 else offset < |pending|
    }
    function Remaining(): seq<u8>
      requires Valid()
    {
      pending[offset..]
    }
  }

  const IDLE_TX := Tx([], 0)

  function Submit(t: Tx, frame: seq<u8>): (Tx, SubmitStatus) {
    if t.pending != [] then (t, BUSY)
    else if frame == [] || |frame| > MAX_ENCODED_FRAME_SIZE then (t, INVALID_ARGUMENT)
    else if !DecodeFrame(frame).FrameOk? then (t, INVALID_FRAME)
    else (Tx(frame, 0), SUBMITTED)
  }

  function Min(a: int, b: int): int {
    if a < b then a else b
  }

  /** How many bytes a service call offers to the device. */
  function Offer(t: Tx, budget: nat, writable: int): nat
    requires t.Valid()
  {
    if writable <= 0 then 0 else Min(writable, Min(budget, |t.Remaining()|))
  }

  /** `accepted` is what the device's write reports for the bytes offered. */
  function ServiceTx(t: Tx, budget: nat, writable: int, accepted: nat): (Tx, TxStatus, seq<u8>)
    requires t.Valid()
  {
    var offer := Offer(t, budget, writable);
    if t.pending == [] then (t, IDLE, [])
    else if offer == 0 then (t, BLOCKED, [])
    else if accepted > offer then (t, OUTPUT_ERROR, [])
    else if accepted == 0 then (t, BLOCKED, [])
    else
      var sent := t.Remaining()[..accepted];
      if t.offset + accepted == |t.pending| then (IDLE_TX, COMPLETE, sent)
      else (t.(offset := t.offset + accepted), TX_PROGRESS, sent)
  }

  // ----- every run of a link

  datatype LinkOp = SubmitFrame(bytes: seq<u8>) | ServiceOut(budget: nat, writable: int, accepted: nat)

  /** The transmitter, every byte the device has accepted, and every frame accepted for sending. */
  datatype Link = Link(tx: Tx, wire: seq<u8>, submitted: seq<Frame>)

  const NEW_LINK := Link(IDLE_TX, [], [])

  /** A device never accepts more than it was offered. */
  function LinkStep(l: Link, op: LinkOp): Link
    requires l.tx.Valid()
  {
    match op
    case SubmitFrame(bytes) =>
      var (t, status) := Submit(l.tx, bytes);
      if status == SUBMITTED then Link(t, l.wire, l.submitted + [DecodeFrame(bytes).frame]) else l
    case ServiceOut(budget, writable, accepted) =>
      var (t, _, sent) := ServiceTx(l.tx, budget, writable, Min(accepted, Offer(l.tx, budget, writable)));
      Link(t, l.wire + sent, l.submitted)
  }

  function Delivered(l: Link): seq<Frame> {
    if l.tx.pending == [] || l.submitted == [] then l.submitted else l.submitted[..|l.submitted| - 1]
  }

  predicate AllSendable(frames: seq<Frame>) {
    forall i :: 0 <= i < |frames| ==> Sendable(frames[i])
  }

  /** What the device has accepted is the completed frames and the accepted part of the pending one. */
  predicate LinkInv(l: Link) {
    && l.tx.Valid() && AllSendable(l.submitted)
    && (l.tx.pending != [] ==>
          l.submitted != [] && l.tx.pending == FrameBytes(l.submitted[|l.submitted| - 1]))
    && l.wire == Wire(Delivered(l)) + l.tx.pending[..l.tx.offset]
  }

  lemma {:induction false} WireOfConcat(a: seq<Frame>, b: seq<Frame>)
    ensures Wire(a + b) == Wire(a) + Wire(b)
  {
    hide FrameBytes;
    if a == [] {
      assert a + b == b;
    } else {
      WireOfConcat(a[1..], b);
      assert (a + b)[1..] == a[1..] + b;
      ConcatAssociative(FrameBytes(a[0]), Wire(a[1..]), Wire(b));
    }
  }

  lemma WireOfOne(frames: seq<Frame>)
    requires frames != []
    ensures Wire(frames) == Wire(frames[..|frames| - 1]) + FrameBytes(frames[|frames| - 1])
  {
    hide FrameBytes;
    var front, last := frames[..|frames| - 1], frames[|frames| - 1];
    WireOfConcat(front, [last]);
    assert front + [last] == frames;
    assert [last][1..] == [] && Wire([]) == [];
    assert FrameBytes(last) + [] == FrameBytes(last);
  }

  lemma SubmitStep(l: Link, bytes: seq<u8>)
    requires LinkInv(l)
    ensures LinkInv(LinkStep(l, SubmitFrame(bytes)))
  {
    hide DecodeFrame, EncodeFrame, Wire;
    if Submit(l.tx, bytes).1 == SUBMITTED {
      var f := DecodeFrame(bytes).frame;
      AcceptedIsEncoding(f, bytes);
      var frames := l.submitted + [f];
      assert frames[..|frames| - 1] == l.submitted;
      assert l.tx.pending[..l.tx.offset] == [] && bytes[..0] == [];
    }
  }

  /** What the transmitter accepts is the encoding of a frame. */
  lemma AcceptedIsEncoding(f: Frame, bytes: seq<u8>)
    requires DecodeFrame(bytes) == FrameOk(f)
    ensures Sendable(f) && FrameBytes(f) == bytes
  {
    hide DecodeFrame, Plain, CobsEncode;
    FrameBijection(f, bytes);
  }

  lemma ServiceStep(l: Link, budget: nat, writable: int, accepted: nat)
    requires LinkInv(l)
    ensures LinkInv(LinkStep(l, ServiceOut(budget, writable, accepted)))
  {
    hide Wire, FrameBytes, Sendable;
    var offer := Offer(l.tx, budget, writable);
    var n := Min(accepted, offer);
    if l.tx.pending != [] && offer > 0 && n > 0 {
      var p, k := l.tx.pending, l.tx.offset;
      assert p[..k] + p[k..][..n] == p[..k + n];
      assert l.wire + p[k..][..n] == Wire(Delivered(l)) + p[..k + n];
      if k + n == |p| {
        assert p[..k + n] == p;
        WireOfOne(l.submitted);
        assert Wire(l.submitted) + [] == Wire(l.submitted);
      }
    } else {
      assert l.wire + [] == l.wire;
    }
  }

  function RunLink(ops: seq<LinkOp>): (l: Link)
    ensures LinkInv(l)
    decreases |ops|
  {
    if ops == [] then
      assert Wire([]) + [] == [];
      NEW_LINK
    else
      var l := RunLink(ops[..|ops| - 1]);
      var op := ops[|ops| - 1];
      StepKeepsInv(l, op);
      LinkStep(l, op)
  }

  lemma StepKeepsInv(l: Link, op: LinkOp)
    requires LinkInv(l)
    ensures LinkInv(LinkStep(l, op))
  {
    hide LinkInv;
    match op
    case SubmitFrame(bytes) => SubmitStep(l, bytes);
    case ServiceOut(budget, writable, accepted) => ServiceStep(l, budget, writable, accepted);
  }

  /** A submission is taken exactly when the transmitter is idle and the bytes are a frame's encoding. */
  lemma SubmissionDecided(t: Tx, bytes: seq<u8>)
    ensures var (u, status) := Submit(t, bytes);
      && (status == SUBMITTED <==> t.pending == [] && exists f :: Sendable(f) && FrameBytes(f) == bytes)
      && (status == SUBMITTED ==> u == Tx(bytes, 0)) && (status != SUBMITTED ==> u == t)
      && (status == BUSY <==> t.pending != [])
  {
    if f :| Sendable(f) && FrameBytes(f) == bytes {
      EncodedIsAccepted(f, bytes);
    }
    if Submit(t, bytes).1 == SUBMITTED {
      AcceptedIsEncoding(DecodeFrame(bytes).frame, bytes);
    }
    hide DecodeFrame, EncodeFrame, FrameBytes, Sendable;
  }

  lemma EncodedIsAccepted(f: Frame, bytes: seq<u8>)
    requires Sendable(f) && FrameBytes(f) == bytes
    ensures bytes != [] && |bytes| <= MAX_ENCODED_FRAME_SIZE && DecodeFrame(bytes) == FrameOk(f)
  {
    hide DecodeFrame, Plain, CobsEncode;
    FrameBijection(f, bytes);
    EncodedFrameShape(f);
  }

  function ServiceAll(l: Link, services: seq<LinkOp>): Link
    requires LinkInv(l) && forall k :: 0 <= k < |services| ==> services[k].ServiceOut?
    decreases |services|
  {
    if services == [] then l
    else
      StepKeepsInv(l, services[0]);
      ServiceAll(LinkStep(l, services[0]), services[1..])
  }

  /** While the device takes at least a byte at a time, whatever is pending is sent in as many services as it has bytes. */
  lemma {:induction false} PendingDrains(l: Link, services: seq<LinkOp>)
    requires LinkInv(l) && |services| >= |l.tx.Remaining()|
    requires forall k :: 0 <= k < |services| ==>
      services[k].ServiceOut? && services[k].budget > 0 && services[k].writable > 0 && services[k].accepted > 0
    ensures var m := ServiceAll(l, services);
      m.tx == IDLE_TX && m.submitted == l.submitted && m.wire == Wire(l.submitted)
    decreases |services|
  {
    if |l.tx.Remaining()| == 0 {
      StaysIdle(l);
    }
    if services != [] {
      StepKeepsInv(l, services[0]);
      TakesSome(l, services[0]);
      hide LinkInv, LinkStep, Wire;
      PendingDrains(LinkStep(l, services[0]), services[1..]);
    }
  }

  lemma StaysIdle(l: Link)
    requires LinkInv(l) && |l.tx.Remaining()| == 0
    ensures l.tx == IDLE_TX && l.wire == Wire(l.submitted)
  {
    assert Wire(Delivered(l)) + [] == Wire(Delivered(l));
    hide Wire;
  }

  lemma TakesSome(l: Link, op: LinkOp)
    requires LinkInv(l) && op.ServiceOut? && op.budget > 0 && op.writable > 0 && op.accepted > 0
    ensures var m := LinkStep(l, op);
      && m.submitted == l.submitted && m.tx.Valid()
      && (if l.tx.pending == [] then m.tx == l.tx else |m.tx.Remaining()| < |l.tx.Remaining()|)
  {
    hide Wire, FrameBytes, Sendable;
  }

  /** Part of a frame brings no event. */
  lemma PartialFrameIsSilent(frames: seq<Frame>, f: Frame, k: nat)
    requires AllSendable(frames) && Sendable(f) && k < |FrameBytes(f)|
    ensures Verdicts(Wire(frames) + FrameBytes(f)[..k]) == Received(frames)
  {
    hide FrameBytes, Verdicts, Candidate, Sendable;
    FrameIsCandidate(f);
    CleanStream(frames);
    var part := FrameBytes(f)[..k];
    assert part == Candidate(f)[..k];
    WireIsClosed(frames);
    VerdictsOfConcat(Wire(frames), part);
    assert [] + part == part;
    OpenHasNoVerdict(part);
    assert Received(frames) + [] == Received(frames);
  }

  lemma {:induction false} WireIsClosed(frames: seq<Frame>)
    requires AllSendable(frames)
    ensures OpenPiece(Wire(frames)) == []
    decreases |frames|
  {
    hide FrameBytes, Sendable, Candidate;
    if frames == [] {
      OpenHasNoVerdict([]);
    } else {
      var c, rest := Candidate(frames[0]), Wire(frames[1..]);
      FrameIsCandidate(frames[0]);
      WireIsClosed(frames[1..]);
      var s := c + [0] + rest;
      assert Wire(frames) == s && s[..|c|] == c && s[|c| + 1..] == rest;
      PiecesUnfold(s, |c|);
    }
  }

  /**
   Over every sequence of submissions and partial writes, and every chunking at
   the receiver: the receiver reports exactly the completed frames, in order,
   and once the transmitter is idle that is everything accepted for sending.
   */
  lemma LinkDeliversExactly(ops: seq<LinkOp>, chunks: seq<seq<u8>>)
    requires Flatten(chunks) == RunLink(ops).wire
    ensures var l := RunLink(ops);
      && ConsumeChunks(IDLE_PARSER, chunks).1 == Received(Delivered(l))
      && (l.tx.pending == [] ==> Delivered(l) == l.submitted)
  {
    hide ConsumeChunks, Verdicts, FrameBytes, Sendable, Wire;
    var l := RunLink(ops);
    ChunkingIsIrrelevant(chunks);
    if l.tx.pending == [] {
      assert Wire(l.submitted) + [] == Wire(l.submitted);
      CleanStream(l.submitted);
    } else {
      PartialFrameIsSilent(Delivered(l), l.submitted[|l.submitted| - 1], l.tx.offset);
    }
  }

  // ----- runs in which the transmitter is reset in the middle of a frame

  datatype ResettableOp = Normal(op: LinkOp) | ResetOut

  /** Every byte the device accepted before the last reset, and the link since. */
  datatype Resettable = Resettable(before: seq<u8>, link: Link)

  /** A reset drops the pending frame where it is; what was written stays written. */
  function RunResettable(ops: seq<ResettableOp>): (r: Resettable)
    ensures LinkInv(r.link)
    decreases |ops|
  {
    if ops == [] then
      assert LinkInv(NEW_LINK) by { assert RunLink([]) == NEW_LINK; }
      Resettable([], NEW_LINK)
    else
      var r := RunResettable(ops[..|ops| - 1]);
      match ops[|ops| - 1]
      case Normal(op) =>
        StepKeepsInv(r.link, op);
        r.(link := LinkStep(r.link, op))
      case ResetOut =>
        assert LinkInv(NEW_LINK) by { assert RunLink([]) == NEW_LINK; }
        Resettable(r.before + r.link.wire, NEW_LINK)
  }

  /** Bytes without a delimiter bring no event. */
  lemma TailIsSilent(s: seq<u8>, part: seq<u8>)
    requires ZeroFree(part)
    ensures Verdicts(s + part) == Verdicts(s)
  {
    hide Verdicts, OpenPiece;
    PiecesOfConcat(s, part);
    VerdictsOfConcat(s, part);
    OpenHasNoVerdict(OpenPiece(s) + part);
  }

  /** The accepted bytes of a link are whole frames and a part without a delimiter. */
  lemma LinkBytes(l: Link, before: seq<u8>)
    requires LinkInv(l)
    ensures AllSendable(Delivered(l))
    ensures Verdicts(before + l.wire) == Verdicts(before + Wire(Delivered(l)))
  {
    var part := l.tx.pending[..l.tx.offset];
    if l.tx.pending != [] {
      FrameIsCandidate(l.submitted[|l.submitted| - 1]);
      hide FrameBytes, Candidate, Sendable, Wire, Verdicts;
      assert part == Candidate(l.submitted[|l.submitted| - 1])[..l.tx.offset];
    }
    hide FrameBytes, Candidate, Sendable, Wire, Verdicts;
    assert ZeroFree(part);
    ConcatAssociative(before, Wire(Delivered(l)), part);
    TailIsSilent(before + Wire(Delivered(l)), part);
  }

  /**
   Over every sequence of submissions, partial writes and transmitter resets, and
   every chunking: what was reported before the last reset stands; of the frames
   completed since, at most the first is lost, to at most one event in its place,
   and none if the reset left no partial frame on the wire; the rest are reported
   exactly, in order.
   */
  lemma LinkRecoversAfterReset(ops: seq<ResettableOp>, chunks: seq<seq<u8>>)
    requires Flatten(chunks) == RunResettable(ops).before + RunResettable(ops).link.wire
    ensures var r := RunResettable(ops);
      var frames := Delivered(r.link);
      var events := ConsumeChunks(IDLE_PARSER, chunks).1;
      && (OpenPiece(r.before) == [] || frames == [] ==> events == Verdicts(r.before) + Received(frames))
      && (frames != [] ==>
            var first := Judge(OpenPiece(r.before) + Candidate(frames[0]));
            |first| <= 1 && events == Verdicts(r.before) + first + Received(frames[1..]))
  {
    hide ConsumeChunks, Verdicts, OpenPiece, FrameBytes, Candidate, Judge, Wire, RunResettable;
    var r := RunResettable(ops);
    var frames := Delivered(r.link);
    ChunkingIsIrrelevant(chunks);
    LinkBytes(r.link, r.before);
    Resynchronises(r.before, frames);
    if frames == [] {
      NothingOnTheWire();
      assert r.before + [] == r.before && Received(frames) == [];
      assert Verdicts(r.before) + [] == Verdicts(r.before);
    }
  }

  // ----- the adapter object

  /** What the device's read returns: a byte, or a negative error. */
  type ReadValue = x: int | x < 0x100

  /** The bytes among the first values read, when none of them is an error. */
  function AsBytes(values: seq<ReadValue>): seq<u8>
    requires forall i :: 0 <= i < |values| ==> values[i] >= 0
  {
    seq(|values|, i requires 0 <= i < |values| => values[i])
  }

  class Adapter {
    const parser: StreamParser
    const pending: array<u8>
    var pendingLength: nat
    var pendingOffset: nat

    constructor ()
      ensures Valid() && Transmitter() == IDLE_TX && parser.State() == IDLE_PARSER
    {
      parser := new StreamParser();
      pending := new u8[MAX_ENCODED_FRAME_SIZE];
      pendingLength, pendingOffset := 0, 0;
    }

    ghost predicate Valid()
      reads this, parser
    {
      && pending.Length == MAX_ENCODED_FRAME_SIZE && pendingLength <= pending.Length
      && (if pendingLength == 0 then pendingOffset == 0 else pendingOffset < pendingLength)
      && parser.Valid() && parser.candidate != pending
    }

    ghost function Transmitter(): (t: Tx)
      requires Valid()
      reads this, parser, pending
      ensures t.Valid()
    {
      Tx(pending[..pendingLength], pendingOffset)
    }

    method CopyPending(frame: seq<u8>)
      requires Valid() && |frame| <= MAX_ENCODED_FRAME_SIZE
      modifies pending
      ensures pending[..|frame|] == frame
    {
      for i := 0 to |frame|
        invariant forall j :: 0 <= j < i ==> pending[j] == frame[j]
      {
        pending[i] := frame[i];
      }
    }

    method SubmitBytes(frame: seq<u8>) returns (status: SubmitStatus)
      requires Valid()
      modifies this, pending
      ensures Valid() && parser.State() == old(parser.State())
      ensures (Transmitter(), status) == Submit(old(Transmitter()), frame)
    {
      if pendingLength != 0 {
        return BUSY;
      }
      if frame == [] || |frame| > MAX_ENCODED_FRAME_SIZE {
        return INVALID_ARGUMENT;
      }
      hide DecodeFrame;
      var decoded := ReadFrame(frame);
      if !decoded.FrameOk? {
        return INVALID_FRAME;
      }
      CopyPending(frame);
      pendingLength, pendingOffset := |frame|, 0;
      return SUBMITTED;
    }

    /** `writable` and `accepted` are the device's answers; `sent` is what it took. */
    method ServiceOutput(budget: nat, writable: int, accepted: nat) returns (status: TxStatus, ghost sent: seq<u8>, remaining: nat)
      requires Valid()
      modifies this
      ensures Valid() && parser.State() == old(parser.State())
      ensures (Transmitter(), status, sent) == ServiceTx(old(Transmitter()), budget, writable, accepted)
      ensures remaining == |Transmitter().Remaining()|
    {
      remaining := if pendingLength == 0 then 0 else pendingLength - pendingOffset;
      sent := [];
      if pendingLength == 0 {
        return IDLE, sent, remaining;
      }
      if budget == 0 || writable <= 0 {
        return BLOCKED, sent, remaining;
      }
      var attempt := Min(Min(writable, budget), remaining);
      if accepted > attempt {
        return OUTPUT_ERROR, sent, remaining;
      }
      if accepted == 0 {
        return BLOCKED, sent, remaining;
      }
      sent := pending[..pendingLength][pendingOffset..][..accepted];
      pendingOffset := pendingOffset + accepted;
      remaining := pendingLength - pendingOffset;
      if pendingOffset == pendingLength {
        pendingLength, pendingOffset := 0, 0;
        return COMPLETE, sent, remaining;
      }
      return TX_PROGRESS, sent, remaining;
    }

    /**
     Read single bytes until an event, an error, the budget, or no more input.
     The parser ends exactly where one call on all the bytes read would leave it.
     */
    method ServiceInput(budget: nat, values: seq<ReadValue>)
        returns (status: RxStatus, bytesRead: nat, event: Option<StreamEvent>)
      requires Valid()
      modifies parser, parser.candidate
      ensures Valid() && Transmitter() == old(Transmitter())
      ensures bytesRead <= |values| && bytesRead <= budget
      ensures forall i :: 0 <= i < bytesRead ==> values[i] >= 0
      ensures (parser.State(), bytesRead, event) == Consume(old(parser.State()), AsBytes(values[..bytesRead]))
      ensures status == PARSER_EVENT <==> event.Some?
      ensures status == INPUT_ERROR <==> event.None? && bytesRead < Min(budget, |values|) && values[bytesRead] < 0
      ensures status == NO_ACTIVITY <==> bytesRead == 0 && Min(budget, |values|) == 0
      ensures status == RX_PROGRESS ==> bytesRead == Min(budget, |values|)
    {
      hide Consume;
      bytesRead, event := 0, None;
      ConsumeNothing(parser.State());
      while bytesRead < budget && bytesRead < |values|
        invariant Valid() && bytesRead <= |values| && bytesRead <= budget && event.None?
        invariant forall i :: 0 <= i < bytesRead ==> values[i] >= 0
        invariant (parser.State(), bytesRead, None) == Consume(old(parser.State()), AsBytes(values[..bytesRead]))
      {
        var value := values[bytesRead];
        if value < 0 {
          return INPUT_ERROR, bytesRead, None;
        }
        ConsumeNext(old(parser.State()), values, bytesRead);
        var _, reported := parser.ConsumeBytes([value]);
        bytesRead, event := bytesRead + 1, reported;
        if event.Some? {
          return PARSER_EVENT, bytesRead, event;
        }
      }
      return if bytesRead != 0 then RX_PROGRESS else NO_ACTIVITY, bytesRead, None;
    }

    method Reset()
      requires Valid()
      modifies this, parser
      ensures Valid() && Transmitter() == IDLE_TX && parser.State() == IDLE_PARSER
    {
      parser.Reset();
      pendingLength, pendingOffset := 0, 0;
    }
  }

  lemma ConsumeNothing(p: Parser)
    ensures Consume(p, []) == (p, 0, None)
  {
  }

  lemma ConsumeNext(p: Parser, values: seq<ReadValue>, n: nat)
    requires n < |values| && forall i :: 0 <= i <= n ==> values[i] >= 0
    requires Consume(p, AsBytes(values[..n])).2.None?
    ensures Consume(p, AsBytes(values[..n + 1])) == Later(Consume(Consume(p, AsBytes(values[..n])).0, [values[n]]), n)
  {
    hide Consume;
    ConsumeOneMore(p, AsBytes(values[..n]), values[n]);
    assert AsBytes(values[..n + 1]) == AsBytes(values[..n]) + [values[n]];
  }

  /** Reading on after a quiet call is the same as one call on all the bytes. */
  lemma {:induction false} ConsumeOneMore(p: Parser, input: seq<u8>, value: u8)
    requires Consume(p, input).2.None?
    ensures Consume(p, input + [value]) == Later(Consume(Consume(p, input).0, [value]), |input|)
    decreases |input|
  {
    hide ParseByte;
    if input == [] {
      assert input + [value] == [value];
    } else {
      ConsumeOneMore(ParseByte(p, input[0]).0, input[1..], value);
      assert (input + [value])[1..] == input[1..] + [value];
    }
  }
}
