/** Line framing of `bounded_io.rs`: lines are assembled from whatever chunks the reader delivers,
    under a byte cap that a trailing carriage return does not count against. */
module BoundedIo {
  import opened Wrappers
  import opened Sequences

  type Bytes = seq<byte>

  const MAX_INPUT_LINE_BYTES: nat := 262_144
  const NEWLINE: byte := 10
  const CARRIAGE_RETURN: byte := 13

  /** Index of the first newline, or the length when there is none. */
  function FirstNewline(s: Bytes): (i: nat)
    ensures i <= |s| && NEWLINE !in s[..i] && (i < |s| ==> s[i] == NEWLINE)
  {
    if s == [] || s[0] == NEWLINE then 0
    else
      var i := FirstNewline(s[1..]);
      assert s[..i + 1] == [s[0]] + s[1..][..i];
      i + 1
  }

  function PayloadLength(payload: Bytes): nat {
    if EndsInReturn(payload) then |payload| - 1 else |payload|
  }

  datatype Frame = Line(bytes: Bytes, rest: Bytes) | EndOfStream | TooLong

  /** The frame at the head of a stream, seen as a whole. */
  function FrameOf(stream: Bytes): Frame {
    var i := FirstNewline(stream);
    if i == |stream| then if |stream| <= MAX_INPUT_LINE_BYTES then EndOfStream else TooLong
    else if PayloadLength(stream[..i]) <= MAX_INPUT_LINE_BYTES then Line(stream[..i + 1], stream[i + 1..])
    else TooLong
  }

  /** All frames of a stream, and whether it ends or is refused behind them. */
  datatype Framing = Framing(lines: seq<Bytes>, refused: bool)

  function Frames(stream: Bytes): Framing
    decreases |stream|
  {
    match FrameOf(stream)
    case EndOfStream => Framing([], false)
    case TooLong => Framing([], true)
    case Line(bytes, rest) =>
      var more := Frames(rest);
      Framing([bytes] + more.lines, more.refused)
  }

  lemma FirstNewlineIs(s: Bytes, i: nat)
    requires i <= |s| && NEWLINE !in s[..i] && (i < |s| ==> s[i] == NEWLINE)
    ensures FirstNewline(s) == i
  {
    forall k | 0 <= k < i ensures s[k] != NEWLINE {
      assert s[..i][k] in s[..i];
    }
    forall k | 0 <= k < FirstNewline(s) ensures s[k] != NEWLINE {
      assert s[..FirstNewline(s)][k] in s[..FirstNewline(s)];
    }
  }

  /** A terminated payload is a frame exactly when it fits the cap without its carriage return. */
  lemma TerminatedLineAcceptedIff(payload: Bytes, rest: Bytes)
    requires NEWLINE !in payload
    ensures FrameOf(payload + [NEWLINE] + rest) ==
            if |payload| <= 262_144 || (|payload| == 262_145 && payload[262_144] == 13)
            then Line(payload + [NEWLINE], rest) else TooLong
    ensures FrameOf(payload + [NEWLINE] + rest) ==
            if PayloadLength(payload) <= MAX_INPUT_LINE_BYTES then Line(payload + [NEWLINE], rest) else TooLong
  {
    var s := payload + [NEWLINE] + rest;
    assert s[..|payload|] == payload && s[..|payload| + 1] == payload + [NEWLINE] && s[|payload| + 1..] == rest;
    FirstNewlineIs(s, |payload|);
  }

  predicate Acceptable(payload: Bytes) {
    NEWLINE !in payload && PayloadLength(payload) <= MAX_INPUT_LINE_BYTES
  }

  function Terminated(payloads: seq<Bytes>): seq<Bytes> {
    seq(|payloads|, i requires 0 <= i < |payloads| => payloads[i] + [NEWLINE])
  }

  /** Writing acceptable payloads as lines and framing them again gives the same lines, and what
      follows is framed as if it stood alone. */
  lemma {:induction false} FramesRoundTrip(payloads: seq<Bytes>, tail: Bytes)
    requires forall i :: 0 <= i < |payloads| ==> Acceptable(payloads[i])
    ensures Frames(Concat(Terminated(payloads)) + tail) ==
            Framing(Terminated(payloads) + Frames(tail).lines, Frames(tail).refused)
  {
    hide FrameOf, PayloadLength;
    if payloads == [] {
      assert Concat(Terminated(payloads)) + tail == tail;
      assert Terminated(payloads) + Frames(tail).lines == Frames(tail).lines;
    } else {
      var rest := Concat(Terminated(payloads[1..]));
      assert Terminated(payloads)[1..] == Terminated(payloads[1..]);
      assert Concat(Terminated(payloads)) + tail == payloads[0] + [NEWLINE] + (rest + tail);
      TerminatedLineAcceptedIff(payloads[0], rest + tail);
      FramesRoundTrip(payloads[1..], tail);
      assert Terminated(payloads) == [payloads[0] + [NEWLINE]] + Terminated(payloads[1..]);
      assert Terminated(payloads) + Frames(tail).lines ==
             [payloads[0] + [NEWLINE]] + (Terminated(payloads[1..]) + Frames(tail).lines);
    }
  }

  /** A frame is the head of its stream and ends at its only newline. */
  predicate WellFramed(line: Bytes) {
    line != [] && line[|line| - 1] == NEWLINE && Acceptable(line[..|line| - 1])
  }

  predicate ShortTail(tail: Bytes) { NEWLINE !in tail && |tail| <= MAX_INPUT_LINE_BYTES }

  lemma FrameIsHead(stream: Bytes)
    ensures match FrameOf(stream)
            case Line(bytes, rest) => stream == bytes + rest && WellFramed(bytes)
            case EndOfStream => ShortTail(stream)
            case TooLong => true
  {
    var i := FirstNewline(stream);
    assert stream[..|stream|] == stream;
    assert i < |stream| ==> stream[..i + 1][..i] == stream[..i];
  }

  /** Nothing is lost or invented: the frames are the stream's own bytes in order, each ends at
      its only newline, and an unrefused remainder is a short unterminated tail. */
  lemma {:induction false} FramesPartitionStream(stream: Bytes)
    ensures var f := Frames(stream);
            && Concat(f.lines) <= stream
            && (forall i :: 0 <= i < |f.lines| ==> WellFramed(f.lines[i]))
            && (!f.refused ==> ShortTail(stream[|Concat(f.lines)|..]))
    decreases |stream|
  {
    FrameIsHead(stream);
    hide FrameOf, WellFramed, ShortTail;
    match FrameOf(stream)
    case Line(bytes, rest) =>
      FramesPartitionStream(rest);
      var f := Frames(rest);
      assert Frames(stream).lines == [bytes] + f.lines && ([bytes] + f.lines)[1..] == f.lines;
      var n := |Concat(f.lines)|;
      assert Concat([bytes] + f.lines) == bytes + Concat(f.lines);
      assert stream[|bytes| + n..] == rest[n..];
    case EndOfStream =>
      assert stream[0..] == stream;
    case TooLong =>
  }

  /** Lines already delivered do not change when more bytes arrive. */
  lemma {:induction false} FramesAreCausal(stream: Bytes, more: Bytes)
    ensures Frames(stream).lines <= Frames(stream + more).lines
    decreases |stream|
  {
    FrameIsHead(stream);
    hide FrameOf, WellFramed, ShortTail;
    match FrameOf(stream)
    case Line(bytes, rest) =>
      FrameIsCausal(stream, more);
      FramesAreCausal(rest, more);
    case _ =>
  }

  lemma FrameIsCausal(stream: Bytes, more: Bytes)
    requires FrameOf(stream).Line?
    ensures FrameOf(stream + more) == FrameOf(stream).(rest := FrameOf(stream).rest + more)
  {
    hide PayloadLength, FirstNewline;
    var i, whole := FirstNewline(stream), stream + more;
    assert i < |stream|;
    assert whole[..i] == stream[..i] && whole[i + 1..] == stream[i + 1..] + more && whole[..i + 1] == stream[..i + 1];
    FirstNewlineIs(whole, i);
  }

  /** Frames are read off the stream one at a time. */
  lemma FramesStep(stream: Bytes, before: seq<Bytes>)
    ensures var frame, f := FrameOf(stream), Frames(stream);
            if frame.Line? then
              f == Framing([frame.bytes] + Frames(frame.rest).lines, Frames(frame.rest).refused)
              && before + f.lines == before + [frame.bytes] + Frames(frame.rest).lines
            else before + f.lines == before && f.lines == [] && f.refused == frame.TooLong?
  {
    hide FrameOf;
  }

  /** What an unfinished line may look like between two chunks. */
  predicate Unfinished(line: Bytes) {
    && NEWLINE !in line
    && (|line| <= MAX_INPUT_LINE_BYTES ||
        (|line| == MAX_INPUT_LINE_BYTES + 1 && line[|line| - 1] == CARRIAGE_RETURN))
  }

  lemma CutAt(s: Bytes, i: nat)
    requires i < |s|
    ensures s == s[..i] + [s[i]] + s[i + 1..] && s[..i + 1] == s[..i] + [s[i]]
  {}

  lemma Regroup(line: Bytes, head: Bytes, tail: Bytes, later: Bytes)
    ensures line + ((head + [NEWLINE] + tail) + later) == (line + head) + [NEWLINE] + (tail + later)
    ensures line + (head + [NEWLINE]) == (line + head) + [NEWLINE]
  {}

  lemma SplitFrame(line: Bytes, available: Bytes, later: Bytes)
    requires NEWLINE !in line && FirstNewline(available) < |available|
    ensures var i := FirstNewline(available);
            && NEWLINE !in line + available[..i]
            && FrameOf(line + (available + later)) ==
               if PayloadLength(line + available[..i]) <= MAX_INPUT_LINE_BYTES
               then Line(line + available[..i + 1], available[i + 1..] + later) else TooLong
  {
    hide FrameOf, PayloadLength, FirstNewline;
    var i := FirstNewline(available);
    var head, tail := available[..i], available[i + 1..];
    TerminatedLineAcceptedIff(line + head, tail + later);
    CutAt(available, i);
    Regroup(line, head, tail, later);
  }

  /** The trailing return of a payload in two pieces is in the second one, if that has any bytes. */
  lemma PayloadParts(line: Bytes, piece: Bytes)
    ensures PayloadLength(line + piece) ==
            if piece == [] then PayloadLength(line) else |line| + PayloadLength(piece)
  {
    assert piece == [] ==> line + piece == line;
  }

  lemma EndedFrame(line: Bytes)
    requires NEWLINE !in line
    ensures FrameOf(line) == if |line| <= MAX_INPUT_LINE_BYTES then EndOfStream else TooLong
  {
    assert line[..|line|] == line;
    FirstNewlineIs(line, |line|);
  }

  predicate EndsInReturn(s: Bytes) { s != [] && s[|s| - 1] == CARRIAGE_RETURN }

  /** A stream that begins with an overlong unterminated piece is refused whatever follows. */
  lemma OverlongIsRefused(head: Bytes, later: Bytes)
    requires NEWLINE !in head && !Unfinished(head)
    ensures FrameOf(head + later) == TooLong
  {
    var whole := head + later;
    var i := FirstNewline(whole);
    forall k | 0 <= k < |head| ensures whole[k] != NEWLINE {
      assert head[k] in head;
    }
    assert whole[..i][..|head|] == head;
    assert PayloadLength(whole[..i]) > MAX_INPUT_LINE_BYTES;
  }

  /** Delivered: a complete line is in the buffer. Ended: the stream closed. Refused: the cap. */
  datatype Outcome = Delivered | Ended | Refused

  datatype Decoded<+M> = Message(message: M) | Skipped | Malformed | Fatal

  class BoundedIo<M> {
    /** Bytes the reader holds but has not handed out, and what its later reads will bring. */
    var available: Bytes
    var chunks: seq<Bytes>
    var line: Bytes
    var cancelled: bool
    /** Whether the peer still accepts error replies, and how many it got. */
    var writable: bool
    var replies: nat

    /** An empty read means the end of the stream, so no chunk before it is empty. */
    predicate Valid()
      reads this
    {
      forall i :: 0 <= i < |chunks| ==> chunks[i] != []
    }

    function Stream(): Bytes
      reads this
    {
      available + Concat(chunks)
    }

    method FillBuf()
      requires Valid()
      modifies this`available, this`chunks
      ensures Valid() && Stream() == old(Stream())
      ensures available == [] ==> Stream() == []
    {
      if available == [] && chunks != [] {
        available := chunks[0];
        chunks := chunks[1..];
      }
    }

    /** Read one line, however it is cut into chunks: the outcome, the line and what is left unread
        depend on the stream only. */
    method ReadFrame() returns (outcome: Outcome)
      requires Valid() && Unfinished(line)
      modifies this`available, this`chunks, this`line
      ensures Valid() && |line| <= MAX_INPUT_LINE_BYTES + 2
      ensures match FrameOf(old(line + Stream()))
              case Line(bytes, rest) => outcome == Delivered && line == bytes && Stream() == rest
              case EndOfStream => outcome == Ended && line == old(line + Stream()) && Stream() == []
              case TooLong => outcome == Refused && line <= old(line + Stream())
    {
      hide FrameOf, FirstNewline, Concat;
      ghost var whole := line + Stream();
      while true
        invariant Valid() && Unfinished(line) && line + Stream() == whole
        decreases |Stream()|
      {
        FillBuf();
        if available == [] {
          EndedFrame(line);
          assert whole == line;
          if |line| > MAX_INPUT_LINE_BYTES {
            return Refused;
          }
          return Ended;
        }
        var index := FirstNewline(available);
        var terminated := index < |available|;
        var piece := available[..index];
        if terminated {
          SplitFrame(line, available, Concat(chunks));
        }
        var trailingReturn := terminated && (EndsInReturn(piece) || (index == 0 && EndsInReturn(line)));
        var newPayload := if trailingReturn && index > 0 then index - 1 else index;
        var existingPayload := if trailingReturn && index == 0 then |line| - 1 else |line|;
        var heldReturn :=
          !terminated && |line| + |available| == MAX_INPUT_LINE_BYTES + 1 && EndsInReturn(available);
        PayloadParts(line, piece);
        if existingPayload + newPayload > MAX_INPUT_LINE_BYTES && !heldReturn {
          if !terminated {
            assert available[..index] == available;
            assert line + available + Concat(chunks) == whole;
            OverlongIsRefused(line + available, Concat(chunks));
          }
          return Refused;
        }
        var consumed := if terminated then index + 1 else |available|;
        line := line + available[..consumed];
        available := available[consumed..];
        if terminated {
          return Delivered;
        }
      }
    }

    /** Every line until the stream ends or is refused: reading frame by frame, in chunks, gives the
        frames of the whole stream. */
    method ReadAll() returns (lines: seq<Bytes>, refused: bool)
      requires Valid() && Unfinished(line)
      modifies this`available, this`chunks, this`line
      ensures Valid() && Framing(lines, refused) == Frames(old(line + Stream()))
    {
      hide FrameOf, Concat, Frames, WellFramed, ShortTail;
      ghost var all := Frames(line + Stream());
      lines := [];
      while true
        invariant Valid() && Unfinished(line)
        invariant var rest := Frames(line + Stream()); all == Framing(lines + rest.lines, rest.refused)
        decreases |line + Stream()|
      {
        FrameIsHead(line + Stream());
        FramesStep(line + Stream(), lines);
        var outcome := ReadFrame();
        if outcome != Delivered {
          return lines, outcome == Refused;
        }
        assert [] + Stream() == Stream();
        lines, line := lines + [line], [];
      }
    }

    /** The next message. Lines that decode to nothing are passed over. A refused or ended stream
        closes the transport. What comes back depends on the stream only, not on its chunks, nor on
        how much of a line an earlier call had read when it was dropped. */
    method Receive(decode: Bytes -> Decoded<M>) returns (message: Option<M>)
      requires Valid() && Unfinished(line)
      modifies this
      ensures Valid() && writable == old(writable)
      ensures old(cancelled) ==>
                message == None && cancelled && line == old(line) && Stream() == old(Stream()) &&
                replies == old(replies)
      ensures !old(cancelled) ==>
                var r := ReceivedFrom(old(line + Stream()), decode, writable);
                && message == r.message && cancelled == r.closed && replies == old(replies) + r.replies
                && (!cancelled ==> Stream() == r.rest && line == [])
    {
      hide FrameOf, Concat;
      message := None;
      if cancelled {
        return;
      }
      ghost var all := ReceivedFrom(line + Stream(), decode, writable);
      ghost var sent := 0;
      while true
        invariant Valid() && Unfinished(line) && !cancelled && writable == old(writable)
        invariant replies == old(replies) + sent
        invariant var here := ReceivedFrom(line + Stream(), decode, writable);
                  all == here.(replies := here.replies + sent)
        decreases |line + Stream()|
      {
        FrameIsHead(line + Stream());
        var outcome := ReadFrame();
        if outcome != Delivered {
          cancelled := true;
          return;
        }
        var parsed := decode(line);
        line := [];
        assert line + Stream() == Stream();
        match parsed {
          case Message(m) =>
            return Some(m);
          case Skipped =>
          case Malformed =>
            if !writable {
              return;
            }
            replies := replies + 1;
            sent := sent + 1;
          case Fatal =>
            return;
        }
      }
    }
  }

  datatype Reception<+M> = Reception(message: Option<M>, rest: Bytes, replies: nat, closed: bool)

  /** What one call to receive gets from a stream, how many error replies it sends and what it
      leaves unread. */
  function ReceivedFrom<M>(stream: Bytes, decode: Bytes -> Decoded<M>, writable: bool): Reception<M>
    decreases |stream|
  {
    match FrameOf(stream)
    case Line(bytes, rest) => (
      match decode(bytes)
      case Message(m) => Reception(Some(m), rest, 0, false)
      case Fatal => Reception(None, rest, 0, false)
      case Skipped => ReceivedFrom(rest, decode, writable)
      case Malformed =>
        if !writable then Reception(None, rest, 0, false)
        else
          var later := ReceivedFrom(rest, decode, writable);
          later.(replies := later.replies + 1))
    case _ => Reception(None, [], 0, true)
  }

  /** A line that ends a call to receive: a message, a fatal error, or one that no one can be told of. */
  predicate Final<M>(decoded: Decoded<M>, writable: bool) {
    decoded.Message? || decoded.Fatal? || (decoded.Malformed? && !writable)
  }

  function MalformedLines<M>(lines: seq<Bytes>, decode: Bytes -> Decoded<M>): nat {
    if lines == [] then 0
    else (if decode(lines[0]).Malformed? then 1 else 0) + MalformedLines(lines[1..], decode)
  }

  /** `k` lines were passed over, with one reply for each malformed one; line `k`, if there is one,
      is final and the last that was read. */
  predicate ReceivedAt<M(==)>(
    lines: seq<Bytes>, stream: Bytes, decode: Bytes -> Decoded<M>, writable: bool, r: Reception<M>, k: nat)
  {
    && k <= |lines| && (forall i :: 0 <= i < k ==> !Final(decode(lines[i]), writable))
    && r.replies == MalformedLines(lines[..k], decode) && (r.closed <==> k == |lines|)
    && (k < |lines| ==> Final(decode(lines[k]), writable) && stream == Concat(lines[..k + 1]) + r.rest)
    && r.message == if k < |lines| && decode(lines[k]).Message? then Some(decode(lines[k]).message) else None
  }

  /** What one call gets is told by the first final line among the frames of the stream. */
  lemma {:induction false} ReceivedFromIs<M>(stream: Bytes, decode: Bytes -> Decoded<M>, writable: bool)
    ensures exists k: nat ::
              ReceivedAt(Frames(stream).lines, stream, decode, writable, ReceivedFrom(stream, decode, writable), k)
    decreases |stream|
  {
    FrameIsHead(stream);
    hide FrameOf, WellFramed, ShortTail;
    var r, lines := ReceivedFrom(stream, decode, writable), Frames(stream).lines;
    match FrameOf(stream)
    case Line(bytes, rest) =>
      var later := Frames(rest).lines;
      assert lines == [bytes] + later;
      if Final(decode(bytes), writable) {
        FirstIsFinal(bytes, later, stream, decode, writable, r);
      } else {
        ReceivedFromIs(rest, decode, writable);
        var more := ReceivedFrom(rest, decode, writable);
        var k: nat :| ReceivedAt(later, rest, decode, writable, more, k);
        PassedOver(bytes, later, rest, decode, writable, more, k);
      }
    case _ =>
      assert ReceivedAt(lines, stream, decode, writable, r, 0);
  }

  lemma FirstIsFinal<M>(
    bytes: Bytes, later: seq<Bytes>, stream: Bytes, decode: Bytes -> Decoded<M>, writable: bool, r: Reception<M>)
    requires Final(decode(bytes), writable) && r.replies == 0 && !r.closed && stream == bytes + r.rest
    requires r.message == if decode(bytes).Message? then Some(decode(bytes).message) else None
    ensures ReceivedAt([bytes] + later, stream, decode, writable, r, 0)
  {
    assert ([bytes] + later)[..1] == [bytes] && [bytes][1..] == [];
    assert Concat([bytes]) == bytes;
  }

  lemma PassedOver<M>(
    bytes: Bytes, later: seq<Bytes>, rest: Bytes, decode: Bytes -> Decoded<M>, writable: bool, more: Reception<M>,
    k: nat)
    requires ReceivedAt(later, rest, decode, writable, more, k) && !Final(decode(bytes), writable)
    ensures ReceivedAt([bytes] + later, bytes + rest, decode, writable,
              more.(replies := more.replies + if decode(bytes).Malformed? then 1 else 0), k + 1)
  {
    hide Final;
    var lines := [bytes] + later;
    assert lines[..k + 1] == [bytes] + later[..k];
    assert ([bytes] + later[..k])[1..] == later[..k];
    if k < |later| {
      assert lines[..k + 2] == [bytes] + later[..k + 1];
      assert ([bytes] + later[..k + 1])[1..] == later[..k + 1];
      assert Concat(lines[..k + 2]) == bytes + Concat(later[..k + 1]);
    }
  }
}
