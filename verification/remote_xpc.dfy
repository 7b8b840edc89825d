/** The RemoteXPC connection of src/remotexpc/conn.rs: messages rebuilt from DATA frames. */
module RemoteXpc {
  import opened Bytes
  import opened Wrappers
  import opened Stream
  import opened H2
  import Xpc
  import XpcRoundTrip

  const REPLY: u32 := 0x0002_0000
  const REQUEST_FLAGS: u32 := 0x0001_0101
  const STREAM_CS: u32 := 1

  datatype Outcome =
    | Message(m: Xpc.Message<Xpc.Value>)
    | Malformed(error: Xpc.XpcError)
    | Closed
    | EndOfStream
    | Panicked

  /**
   * One call of `receive`: its outcome, the receive buffer and the unread
   * input it leaves, the bytes it acknowledged with, the frames it read, and
   * the bytes of the message it took out of the buffer.
   */
  datatype Call = Call(
    outcome: Outcome,
    buf: seq<byte>,
    rest: seq<byte>,
    acks: seq<byte>,
    frames: seq<Frame>,
    taken: seq<byte>)

  function DataOf(f: Frame): seq<byte> {
    if f.Data? then f.payload else []
  }

  /** The acknowledgement a frame asks for (RFC 9113 sections 6.5.3 and 6.7). */
  function AckOf(f: Frame): Option<RawFrame> {
    match f
    case Settings(flags, _) => if AckSet(flags) then None else Some(RawFrame(TYPE_SETTINGS, FLAG_ACK, 0, []))
    case Ping(ack, data) => if ack then None else Some(RawFrame(TYPE_PING, FLAG_ACK, 0, data))
    case _ => None
  }

  function AckBytes(f: Frame): seq<byte> {
    if AckOf(f).Some? then EncodeFrame(AckOf(f).value) else []
  }

  /** The length of the message at the front of the buffer, once its header is there. */
  function Total(buf: seq<byte>): (n: nat)
    requires |buf| >= 24
    ensures n >= 24
  {
    24 + U64At(buf, 8)
  }

  /** What the buffer alone decides: a message, an error, or None when more bytes are needed. */
  function Front(buf: seq<byte>): (r: Option<Outcome>)
    ensures r.Some? && r.value.Message? ==> |buf| >= 24 && Total(buf) <= |buf|
  {
    if |buf| < 24 then None
    else if Total(buf) >= TWO_64 then Some(Panicked)
    else if |buf| < Total(buf) then None
    else
      match Xpc.DecodeMessage(buf[..Total(buf)])
      case Ok((m, _)) => Some(Message(m))
      case Err(e) => Some(Malformed(e))
      case Panicked => Some(Panicked)
  }

  function Receive(buf: seq<byte>, input: seq<byte>): (c: Call)
    decreases |input|
  {
    match Front(buf)
    case Some(outcome) =>
      var n := if outcome.Message? then Total(buf) else 0;
      Call(outcome, buf[n..], input, [], [], buf[..n])
    case None =>
      match ParseRaw(input)
      case Eof => Call(EndOfStream, buf, [], [], [], [])
      case Got(raw, used) =>
        match Classify(raw)
        case None => Call(Panicked, buf, input[used..], [], [], [])
        case Some(f) =>
          if f.GoAway? then Call(Closed, buf, input[used..], [], [f], [])
          else
            var c := Receive(buf + DataOf(f), input[used..]);
            c.(acks := AckBytes(f) + c.acks, frames := [f] + c.frames)
  }

  /** One turn of the receive loop. */
  lemma ReceiveUnfolds(buf: seq<byte>, input: seq<byte>)
    ensures var c, p := Receive(buf, input), ParseRaw(input);
      if Front(buf).Some? then
        var n := if Front(buf).value.Message? then Total(buf) else 0;
        c == Call(Front(buf).value, buf[n..], input, [], [], buf[..n])
      else if p.Eof? then c == Call(EndOfStream, buf, [], [], [], [])
      else if Classify(p.raw).None? then c == Call(Panicked, buf, input[p.used..], [], [], [])
      else
        var f := Classify(p.raw).value;
        if f.GoAway? then c == Call(Closed, buf, input[p.used..], [], [f], [])
        else
          var next := Receive(buf + DataOf(f), input[p.used..]);
          c == next.(acks := AckBytes(f) + next.acks, frames := [f] + next.frames)
  {
    hide Front, ParseRaw, Classify, AckBytes;
  }

  function Payloads(frames: seq<Frame>): seq<byte> {
    if frames == [] then [] else DataOf(frames[0]) + Payloads(frames[1..])
  }

  function AckFrames(f: Frame): seq<RawFrame> {
    if AckOf(f).Some? then [AckOf(f).value] else []
  }

  function Acks(frames: seq<Frame>): seq<RawFrame> {
    if frames == [] then [] else AckFrames(frames[0]) + Acks(frames[1..])
  }

  /** The bytes of the frames from the j-th on. */
  function EncodeFrames(frames: seq<RawFrame>, j: nat): seq<byte>
    requires j <= |frames|
    decreases |frames| - j
  {
    if j == |frames| then [] else EncodeFrame(frames[j]) + EncodeFrames(frames, j + 1)
  }

  /** The frames a peer reads out of a byte string. */
  function ParseAll(s: seq<byte>): seq<RawFrame>
    decreases |s|
  {
    match ParseRaw(s)
    case Eof => []
    case Got(raw, used) => [raw] + ParseAll(s[used..])
  }

  // ---- what every call keeps, on every input ----

  lemma PayloadsFirst(f: Frame, frames: seq<Frame>)
    ensures Payloads([f] + frames) == DataOf(f) + Payloads(frames)
  {
    hide DataOf;
    assert ([f] + frames)[1..] == frames;
  }

  /** What a complete message decodes from. */
  lemma FrontTakes(buf: seq<byte>)
    requires Front(buf).Some?
    ensures var n := if Front(buf).value.Message? then Total(buf) else 0;
      && n <= |buf| && buf == buf[..n] + buf[n..]
      && (Front(buf).value.Message? ==>
        Xpc.DecodeMessage(buf[..n]).Ok? && Xpc.DecodeMessage(buf[..n]).value.0 == Front(buf).value.m)
  {
    hide Xpc.DecodeMessage;
  }

  /** No payload byte is lost or repeated: what was buffered and read is what was delivered and is buffered. */
  lemma {:induction false} Conservation(buf: seq<byte>, input: seq<byte>)
    ensures var c := Receive(buf, input);
      && buf + Payloads(c.frames) == c.taken + c.buf
      && (c.outcome.Message? ==> Xpc.DecodeMessage(c.taken).Ok? && Xpc.DecodeMessage(c.taken).value.0 == c.outcome.m)
      && (!c.outcome.Message? ==> c.taken == [])
    decreases |input|
  {
    ReceiveUnfolds(buf, input);
    hide Receive, Front, Total, ParseRaw, Classify, AckBytes, Payloads, DataOf, Xpc.DecodeMessage;
    NothingRead(buf);
    var p := ParseRaw(input);
    if Front(buf).Some? {
      FrontTakes(buf);
    } else if p.Got? && Classify(p.raw).Some? {
      var f := Classify(p.raw).value;
      if f.GoAway? {
        NoData(f, buf);
      } else {
        var next := Receive(buf + DataOf(f), input[p.used..]);
        Conservation(buf + DataOf(f), input[p.used..]);
        PayloadsFirst(f, next.frames);
        Regroup(buf, DataOf(f), Payloads(next.frames));
      }
    }
  }

  /** The buffer starts with a whole message. */
  predicate Whole(buf: seq<byte>) {
    |buf| >= 24 && 24 + U64At(buf, 8) <= |buf|
  }

  /**
   * What an outcome says of the bytes: a message is what was taken, of the length
   * that it declares; an error is that of the message left in front; and a stream
   * ends only while no whole message is there.
   */
  predicate Explained(c: Call) {
    match c.outcome
    case Message(m) =>
      && Whole(c.taken) && |c.taken| == 24 + U64At(c.taken, 8)
      && Xpc.DecodeMessage(c.taken).Ok? && Xpc.DecodeMessage(c.taken).value.0 == m
    case Malformed(e) => Whole(c.buf) && Xpc.DecodeMessage(c.buf[..24 + U64At(c.buf, 8)]) == Xpc.Err(e)
    case EndOfStream => !Whole(c.buf)
    case _ => true
  }

  lemma FrontExplained(buf: seq<byte>, rest: seq<byte>)
    ensures Front(buf).None? ==> !Whole(buf)
    ensures Front(buf).Some? ==>
      var n := if Front(buf).value.Message? then Total(buf) else 0;
      Explained(Call(Front(buf).value, buf[n..], rest, [], [], buf[..n]))
  {
    hide Xpc.DecodeMessage, ReadLe;
    if |buf| >= 24 && Total(buf) <= |buf| {
      assert buf[..Total(buf)][8..16] == buf[8..16];
    }
    assert buf[0..] == buf;
  }

  lemma {:induction false} OutcomeExplained(buf: seq<byte>, input: seq<byte>)
    ensures Explained(Receive(buf, input))
    decreases |input|
  {
    ReceiveUnfolds(buf, input);
    hide Receive, Front, Total, ParseRaw, Classify, AckBytes, DataOf, Whole, Xpc.DecodeMessage;
    FrontExplained(buf, input);
    var p := ParseRaw(input);
    if Front(buf).None? && p.Got? && Classify(p.raw).Some? {
      OutcomeExplained(buf + DataOf(Classify(p.raw).value), input[p.used..]);
    }
  }

  lemma NoData(f: Frame, buf: seq<byte>)
    requires f.GoAway?
    ensures buf + Payloads([f]) == [] + buf
  {
    assert Payloads([f]) == [];
  }

  lemma AckPayload(f: Frame, raw: RawFrame)
    requires Classify(raw) == Some(f)
    ensures AckOf(f).Some? ==> |AckOf(f).value.payload| <= 8 && AckOf(f).value.streamId == 0
  {
    hide SettingsPairs;
  }

  /**
   * What is written is, frame by frame, one acknowledgement per unacknowledged
   * SETTINGS or PING read, in order; whatever is written next is not touched.
   */
  lemma {:induction false} AckedOnce(buf: seq<byte>, input: seq<byte>, more: seq<byte>)
    ensures var c := Receive(buf, input); ParseAll(c.acks + more) == Acks(c.frames) + ParseAll(more)
    decreases |input|
  {
    ReceiveUnfolds(buf, input);
    hide EncodeFrame, Front, Classify, Receive, ParseRaw, ParseAll, Total, AckOf;
    var c, p := Receive(buf, input), ParseRaw(input);
    if Front(buf).Some? || p.Eof? || Classify(p.raw).None? {
      assert c.acks + more == more;
      assert [] + ParseAll(more) == ParseAll(more);
    } else {
      var f := Classify(p.raw).value;
      AckPayload(f, p.raw);
      if f.GoAway? {
        assert c.acks + more == more;
        LastFrame(f, ParseAll(more));
      } else {
        var next := Receive(buf + DataOf(f), input[p.used..]);
        AckedOnce(buf + DataOf(f), input[p.used..], more);
        AckFirst(f, next.acks, more);
        AcksFirst(f, next.frames, ParseAll(more));
      }
    }
  }

  lemma LastFrame(f: Frame, rest: seq<RawFrame>)
    requires f.GoAway?
    ensures Acks([f]) + rest == rest
  {}

  lemma AcksFirst(f: Frame, frames: seq<Frame>, rest: seq<RawFrame>)
    ensures Acks([f] + frames) + rest
      == AckFrames(f) + (Acks(frames) + rest)
  {
    hide AckFrames;
    assert ([f] + frames)[1..] == frames;
  }

  lemma AckFirst(f: Frame, acks: seq<byte>, more: seq<byte>)
    requires AckOf(f).Some? ==> |AckOf(f).value.payload| <= 8 && AckOf(f).value.streamId == 0
    ensures ParseAll(AckBytes(f) + acks + more)
      == AckFrames(f) + ParseAll(acks + more)
  {
    hide EncodeFrame;
    Regroup(AckBytes(f), acks, more);
    if AckOf(f).Some? {
      var a := AckOf(f).value;
      FrameRoundTrip(a, acks + more);
      hide ParseRaw, AckOf;
      assert (EncodeFrame(a) + (acks + more))[|EncodeFrame(a)|..] == acks + more;
    } else {
      assert AckBytes(f) + (acks + more) == acks + more;
    }
  }

  /** Frame for frame, `frames` is what the first of `all` mean. */
  predicate Begins(frames: seq<Frame>, all: seq<RawFrame>) {
    && |frames| <= |all|
    && forall i | 0 <= i < |frames| :: Classify(all[i]) == Some(frames[i])
  }

  lemma FramesFirst(raw: RawFrame, all: seq<RawFrame>, f: Frame, frames: seq<Frame>)
    requires Begins(frames, all) && Classify(raw) == Some(f)
    ensures Begins([f] + frames, [raw] + all)
    ensures ([raw] + all)[|[f] + frames|..] == all[|frames|..]
    ensures |frames| < |all| ==>
      && ([raw] + all)[|[f] + frames|] == all[|frames|]
      && ([raw] + all)[|[f] + frames| + 1..] == all[|frames| + 1..]
  {
    hide Classify;
  }

  /**
   * What a call reads are the frames at the front of `all`, and the rest of them
   * is left; it ends with Closed exactly at a GOAWAY. A WINDOW_UPDATE of fewer
   * than four bytes makes it panic, and is read as well.
   */
  predicate ReadsOff(c: Call, all: seq<RawFrame>) {
    && Begins(c.frames, all)
    && (|| ParseAll(c.rest) == all[|c.frames|..]
        || (&& c.outcome.Panicked? && |c.frames| < |all|
            && all[|c.frames|].ty == 8 && |all[|c.frames|].payload| < 4
            && ParseAll(c.rest) == all[|c.frames| + 1..]))
    && (c.outcome.Closed? <==> c.frames != [] && all[|c.frames| - 1].ty == 7)
  }

  lemma ReadsMore(raw: RawFrame, all: seq<RawFrame>, f: Frame, next: Call, acks: seq<byte>)
    requires ReadsOff(next, all) && Classify(raw) == Some(f) && !f.GoAway?
    ensures ReadsOff(next.(acks := acks, frames := [f] + next.frames), [raw] + all)
  {
    EndsAt(raw);
    FramesFirst(raw, all, f, next.frames);
    hide ParseAll, Classify, Begins;
    assert next.frames != [] ==> ([raw] + all)[|[f] + next.frames| - 1] == all[|next.frames| - 1];
  }

  lemma {:induction false} ReadsInput(buf: seq<byte>, input: seq<byte>)
    ensures ReadsOff(Receive(buf, input), ParseAll(input))
    decreases |input|
  {
    ReceiveUnfolds(buf, input);
    ParsesOn(input);
    FrontOpen(buf);
    hide Receive, Front, Total, ParseRaw, ParseAll, Classify, AckBytes;
    var p := ParseRaw(input);
    if Front(buf).None? && p.Got? {
      EndsAt(p.raw);
      var rest := input[p.used..];
      if Classify(p.raw).Some? && !Classify(p.raw).value.GoAway? {
        var f := Classify(p.raw).value;
        var next := Receive(buf + DataOf(f), rest);
        ReadsInput(buf + DataOf(f), rest);
        ReadsMore(p.raw, ParseAll(rest), f, next, AckBytes(f) + next.acks);
        hide ReadsOff;
      } else {
        assert ([p.raw] + ParseAll(rest))[1..] == ParseAll(rest);
      }
    }
  }

  lemma FrontOpen(buf: seq<byte>)
    ensures Front(buf) != Some(Closed)
  {
    hide Xpc.DecodeMessage;
  }

  lemma EndsAt(raw: RawFrame)
    ensures Classify(raw).None? <==> raw.ty == 8 && |raw.payload| < 4
    ensures Classify(raw).Some? ==> (Classify(raw).value.GoAway? <==> raw.ty == 7)
  {
    hide SettingsPairs;
  }

  lemma ParsesOn(s: seq<byte>)
    ensures ParseAll(s) == if ParseRaw(s).Eof? then [] else [ParseRaw(s).raw] + ParseAll(s[ParseRaw(s).used..])
    ensures ParseAll([]) == []
  {
    hide ParseRaw;
    assert ParseRaw([]).Eof?;
  }

  // ---- the same over whole runs ----

  /** `n` calls in a row. */
  function Calls(n: nat, buf: seq<byte>, input: seq<byte>): (calls: seq<Call>)
    ensures |calls| == n
  {
    if n == 0 then []
    else
      var c := Receive(buf, input);
      [c] + Calls(n - 1, c.buf, c.rest)
  }

  function FramesRead(calls: seq<Call>): seq<Frame> {
    if calls == [] then [] else calls[0].frames + FramesRead(calls[1..])
  }

  function BytesTaken(calls: seq<Call>): seq<byte> {
    if calls == [] then [] else calls[0].taken + BytesTaken(calls[1..])
  }

  function AcksWritten(calls: seq<Call>): seq<byte> {
    if calls == [] then [] else calls[0].acks + AcksWritten(calls[1..])
  }

  function BufferAfter(calls: seq<Call>, buf: seq<byte>): seq<byte> {
    if calls == [] then buf else calls[|calls| - 1].buf
  }

  lemma {:induction false} PayloadsAppend(a: seq<Frame>, b: seq<Frame>)
    ensures Payloads(a + b) == Payloads(a) + Payloads(b)
  {
    hide DataOf;
    if a == [] {
      assert a + b == b;
    } else {
      assert (a + b)[1..] == a[1..] + b;
      PayloadsAppend(a[1..], b);
      Regroup(DataOf(a[0]), Payloads(a[1..]), Payloads(b));
    }
  }

  lemma {:induction false} AcksAppend(a: seq<Frame>, b: seq<Frame>)
    ensures Acks(a + b) == Acks(a) + Acks(b)
  {
    hide AckFrames;
    if a == [] {
      assert a + b == b;
      assert [] + Acks(b) == Acks(b);
    } else {
      assert (a + b)[0] == a[0] && (a + b)[1..] == a[1..] + b;
      AcksAppend(a[1..], b);
      var first, more, last := AckFrames(a[0]), Acks(a[1..]), Acks(b);
      assert first + (more + last) == first + more + last;
    }
  }

  /**
   * Over any number of calls on any input: delivered bytes plus the buffer equal
   * what was buffered and the payload bytes read, and each SETTINGS or PING that
   * was no acknowledgement got exactly one, in order.
   */
  lemma {:induction false} RunKeeps(n: nat, buf: seq<byte>, input: seq<byte>)
    ensures var calls := Calls(n, buf, input);
      && buf + Payloads(FramesRead(calls)) == BytesTaken(calls) + BufferAfter(calls, buf)
      && ParseAll(AcksWritten(calls)) == Acks(FramesRead(calls))
    decreases n
  {
    hide Receive, ParseAll, Payloads, Acks;
    if n == 0 {
      NothingRead(buf);
    } else {
      var c := Receive(buf, input);
      var later := Calls(n - 1, c.buf, c.rest);
      Conservation(buf, input);
      AckedOnce(buf, input, AcksWritten(later));
      RunKeeps(n - 1, c.buf, c.rest);
      PayloadsAppend(c.frames, FramesRead(later));
      AcksAppend(c.frames, FramesRead(later));
      CallsFirst(c, later, buf);
      hide Calls, FramesRead, BytesTaken, AcksWritten, BufferAfter;
      Regroup(buf, Payloads(c.frames), Payloads(FramesRead(later)));
      Regroup(c.taken, c.buf, Payloads(FramesRead(later)));
      Regroup(c.taken, BytesTaken(later), BufferAfter(later, c.buf));
    }
  }

  function RestAfter(calls: seq<Call>, input: seq<byte>): seq<byte> {
    if calls == [] then input else calls[|calls| - 1].rest
  }

  /** Over any number of calls without a panic, what is read are the frames of the input up to what is left of it. */
  lemma {:induction false} RunReads(n: nat, buf: seq<byte>, input: seq<byte>)
    requires forall i | 0 <= i < n :: !Calls(n, buf, input)[i].outcome.Panicked?
    ensures var calls, all := Calls(n, buf, input), ParseAll(input);
      && Begins(FramesRead(calls), all)
      && ParseAll(RestAfter(calls, input)) == all[|FramesRead(calls)|..]
    decreases n
  {
    hide Receive, ParseAll, Classify;
    if n > 0 {
      var c := Receive(buf, input);
      var later := Calls(n - 1, c.buf, c.rest);
      assert Calls(n, buf, input) == [c] + later;
      assert !([c] + later)[0].outcome.Panicked?;
      forall i | 0 <= i < n - 1 ensures !later[i].outcome.Panicked? {
        assert ([c] + later)[i + 1] == later[i];
      }
      ReadsInput(buf, input);
      RunReads(n - 1, c.buf, c.rest);
      CallsFirst(c, later, buf);
      hide Calls, FramesRead, Begins;
      BeginsAgain(c.frames, FramesRead(later), ParseAll(input));
    }
  }

  /** The acknowledgement that the bytes of a frame ask for (RFC 9113 sections 6.5 and 6.7). */
  function RawAck(f: RawFrame): seq<RawFrame> {
    if f.flags % 2 == 1 then []
    else if f.ty == 4 then [RawFrame(4, 1, 0, [])]
    else if f.ty == 6 then [RawFrame(6, 1, 0, if |f.payload| >= 8 then f.payload[..8] else seq(8, _ => 0))]
    else []
  }

  function RawAcks(frames: seq<RawFrame>): seq<RawFrame> {
    if frames == [] then [] else RawAck(frames[0]) + RawAcks(frames[1..])
  }

  /** The payloads of the DATA frames. */
  function RawData(frames: seq<RawFrame>): seq<byte> {
    if frames == [] then [] else (if frames[0].ty == 0 then frames[0].payload else []) + RawData(frames[1..])
  }

  lemma MeansRaw(raw: RawFrame, f: Frame)
    requires Classify(raw) == Some(f)
    ensures AckFrames(f) == RawAck(raw) && DataOf(f) == if raw.ty == 0 then raw.payload else []
  {
    hide SettingsPairs;
  }

  lemma {:induction false} MeanRaw(frames: seq<Frame>, raws: seq<RawFrame>)
    requires Begins(frames, raws) && |frames| == |raws|
    ensures Acks(frames) == RawAcks(raws) && Payloads(frames) == RawData(raws)
    decreases |raws|
  {
    hide Classify, AckFrames, RawAck, DataOf;
    if raws != [] {
      MeansRaw(raws[0], frames[0]);
      MeanRaw(frames[1..], raws[1..]);
    }
  }

  /**
   * The same of the bytes themselves: over any number of calls without a panic, of
   * the frames that the input begins with, the DATA payloads are what was
   * delivered or is buffered, and the acknowledgements are what was written.
   */
  lemma RunOnWire(n: nat, buf: seq<byte>, input: seq<byte>)
    requires forall i | 0 <= i < n :: !Calls(n, buf, input)[i].outcome.Panicked?
    ensures var calls, all := Calls(n, buf, input), ParseAll(input);
      var k := |FramesRead(calls)|;
      && k <= |all| && ParseAll(RestAfter(calls, input)) == all[k..]
      && buf + RawData(all[..k]) == BytesTaken(calls) + BufferAfter(calls, buf)
      && ParseAll(AcksWritten(calls)) == RawAcks(all[..k])
  {
    hide Calls, ParseAll, FramesRead, RestAfter, BytesTaken, BufferAfter, AcksWritten, RawData, RawAcks, Acks, Payloads;
    RunReads(n, buf, input);
    RunKeeps(n, buf, input);
    var frames := FramesRead(Calls(n, buf, input));
    MeanRaw(frames, ParseAll(input)[..|frames|]);
  }

  lemma BeginsAgain(a: seq<Frame>, b: seq<Frame>, all: seq<RawFrame>)
    requires Begins(a, all) && Begins(b, all[|a|..])
    ensures Begins(a + b, all) && all[|a + b|..] == all[|a|..][|b|..]
  {
    hide Classify;
    forall i | 0 <= i < |a + b| ensures Classify(all[i]) == Some((a + b)[i]) {
      if i >= |a| {
        assert all[i] == all[|a|..][i - |a|];
      }
    }
  }

  lemma CallsFirst(c: Call, later: seq<Call>, buf: seq<byte>)
    ensures var calls := [c] + later;
      && FramesRead(calls) == c.frames + FramesRead(later)
      && BytesTaken(calls) == c.taken + BytesTaken(later)
      && AcksWritten(calls) == c.acks + AcksWritten(later)
      && BufferAfter(calls, buf) == BufferAfter(later, c.buf)
  {
    assert ([c] + later)[1..] == later;
  }

  lemma NothingRead(buf: seq<byte>)
    ensures buf + Payloads([]) == [] + buf && ParseAll([]) == Acks([])
  {}

  /** A malformed message is not drained: every later call fails the same way without reading. */
  lemma MalformedStays(buf: seq<byte>, input: seq<byte>, later: seq<byte>)
    requires Receive(buf, input).outcome.Malformed?
    ensures var c := Receive(buf, input);
      Receive(c.buf, later) == Call(c.outcome, c.buf, later, [], [], [])
    decreases |input|
  {
    hide EncodeFrame, Front, Classify, Total;
    if Front(buf).None? {
      var p := ParseRaw(input);
      MalformedStays(buf + DataOf(Classify(p.raw).value), input[p.used..], later);
    }
  }

  // ---- reassembly ----

  /** The bytes of the messages from the i-th on. */
  function EncodeMessages(msgs: seq<Xpc.Message<Xpc.Layout>>, i: nat): seq<byte>
    requires i <= |msgs|
    decreases |msgs| - i
  {
    if i == |msgs| then [] else Xpc.EncodeMessage(msgs[i]) + EncodeMessages(msgs, i + 1)
  }

  function DataIn(f: RawFrame): seq<byte> {
    if f.ty == 0 then f.payload else []
  }

  /** The DATA payloads among the frames from the j-th on, whatever stream they are on. */
  function DataBytes(frames: seq<RawFrame>, j: nat): seq<byte>
    requires j <= |frames|
    decreases |frames| - j
  {
    if j == |frames| then [] else DataIn(frames[j]) + DataBytes(frames, j + 1)
  }

  /** A frame that fits its length field, is no GOAWAY and no short WINDOW_UPDATE. */
  predicate Carries(f: RawFrame) {
    && |f.payload| < TWO_24
    && f.ty != 7
    && (f.ty == 8 ==> |f.payload| >= 4)
  }

  predicate Deliverable(m: Xpc.Message<Xpc.Layout>) {
    && XpcRoundTrip.Sendable(m)
    && XpcRoundTrip.MessageNulFree(XpcRoundTrip.MessageOf(m))
  }

  /** The outcomes of `n` calls in a row. */
  function Receives(n: nat, buf: seq<byte>, input: seq<byte>): (outcomes: seq<Outcome>)
    ensures |outcomes| == n
  {
    if n == 0 then []
    else
      var c := Receive(buf, input);
      [c.outcome] + Receives(n - 1, c.buf, c.rest)
  }

  lemma MessageSize(m: Xpc.Message<Xpc.Layout>)
    requires Deliverable(m)
    ensures 24 <= |Xpc.EncodeMessage(m)| < TWO_64
  {
    hide Xpc.Encode;
    if m.body.Some? {
      XpcRoundTrip.EncodeBounded(m.body.value);
    }
  }

  /** A buffer that starts a message holds all of it exactly when its length field says so. */
  lemma FrontOfBuffer(m: Xpc.Message<Xpc.Layout>, buf: seq<byte>, whole: seq<byte>, after: seq<byte>)
    requires Deliverable(m) && buf <= whole && whole == Xpc.EncodeMessage(m) + after
    ensures |buf| >= 24 ==> Total(buf) == |Xpc.EncodeMessage(m)| < TWO_64
    ensures |buf| >= |Xpc.EncodeMessage(m)| ==>
      && buf[..|Xpc.EncodeMessage(m)|] == Xpc.EncodeMessage(m)
      && Xpc.DecodeMessage(buf[..|Xpc.EncodeMessage(m)|])
         == Xpc.Ok((XpcRoundTrip.MessageOf(m), |Xpc.EncodeMessage(m)|))
  {
    hide Xpc.EncodeMessage, Xpc.DecodeMessage, U64At, Xpc.Payload;
    MessageSize(m);
    XpcRoundTrip.MessageHeader(m, after);
    XpcRoundTrip.MessageRoundTrip(m, []);
    assert Xpc.EncodeMessage(m) + [] == Xpc.EncodeMessage(m);
    if |buf| >= 24 {
      assert buf[8..16] == whole[8..16];
      SameU64(buf, whole);
    }
    if |buf| >= |Xpc.EncodeMessage(m)| {
      assert buf[..|Xpc.EncodeMessage(m)|] == whole[..|Xpc.EncodeMessage(m)|];
    }
  }

  lemma SameU64(a: seq<byte>, b: seq<byte>)
    requires |a| >= 24 && |b| >= 24 && a[8..16] == b[8..16]
    ensures U64At(a, 8) == U64At(b, 8)
  {
    hide ReadLe;
  }

  /** One call, reading frames from the j-th on until the message that the buffer starts is complete. */
  lemma {:induction false} ReceiveNext(
      m: Xpc.Message<Xpc.Layout>, after: seq<byte>, buf: seq<byte>, frames: seq<RawFrame>, j: nat, rest: seq<byte>)
    returns (k: nat)
    requires Deliverable(m) && j <= |frames|
    requires forall i | 0 <= i < |frames| :: Carries(frames[i])
    requires buf + DataBytes(frames, j) == Xpc.EncodeMessage(m) + after
    ensures j <= k <= |frames|
    ensures var c := Receive(buf, EncodeFrames(frames, j) + rest);
      && c.outcome == Message(XpcRoundTrip.MessageOf(m))
      && c.rest == EncodeFrames(frames, k) + rest
      && c.buf + DataBytes(frames, k) == after
    decreases |frames| - j
  {
    hide Xpc.EncodeMessage, XpcRoundTrip.MessageOf, EncodeFrame, Deliverable, Total, Receive, Front, Classify, ParseRaw,
         Carries, DataIn;
    MessageSize(m);
    FrontDecides(m, buf, buf + DataBytes(frames, j), after);
    ReceiveUnfolds(buf, EncodeFrames(frames, j) + rest);
    if |buf| >= |Xpc.EncodeMessage(m)| {
      CutFront(buf, DataBytes(frames, j), Xpc.EncodeMessage(m), after);
      k := j;
    } else {
      assert j < |frames|;
      var d := DataIn(frames[j]);
      Regroup(EncodeFrame(frames[j]), EncodeFrames(frames, j + 1), rest);
      FrameInFront(frames[j], EncodeFrames(frames, j + 1) + rest);
      Regroup(buf, d, DataBytes(frames, j + 1));
      k := ReceiveNext(m, after, buf + d, frames, j + 1, rest);
    }
  }

  lemma FrontDecides(m: Xpc.Message<Xpc.Layout>, buf: seq<byte>, whole: seq<byte>, after: seq<byte>)
    requires Deliverable(m) && buf <= whole && whole == Xpc.EncodeMessage(m) + after
    ensures if |buf| < |Xpc.EncodeMessage(m)| then Front(buf) == None
      else Front(buf) == Some(Message(XpcRoundTrip.MessageOf(m))) && Total(buf) == |Xpc.EncodeMessage(m)|
  {
    hide Xpc.EncodeMessage, Xpc.DecodeMessage, XpcRoundTrip.MessageOf, Deliverable, Total;
    MessageSize(m);
    FrontOfBuffer(m, buf, whole, after);
  }

  /** A frame at the front of the input is read as itself, and adds its DATA payload. */
  lemma FrameInFront(f: RawFrame, tail: seq<byte>)
    requires Carries(f)
    ensures var p := ParseRaw(EncodeFrame(f) + tail);
      && p.Got? && Classify(p.raw).Some? && !Classify(p.raw).value.GoAway?
      && DataOf(Classify(p.raw).value) == DataIn(f)
      && (EncodeFrame(f) + tail)[p.used..] == tail
  {
    hide EncodeFrame, ParseRaw, SettingsPairs;
    FrameRoundTrip(f, tail);
    assert (EncodeFrame(f) + tail)[|EncodeFrame(f)|..] == tail;
  }

  /** The messages from the i-th on, as outcomes. */
  function Delivered(msgs: seq<Xpc.Message<Xpc.Layout>>, i: nat): (outcomes: seq<Outcome>)
    requires i <= |msgs|
    ensures |outcomes| == |msgs| - i
    decreases |msgs| - i
  {
    if i == |msgs| then [] else [Message(XpcRoundTrip.MessageOf(msgs[i]))] + Delivered(msgs, i + 1)
  }

  /** The calls after the first `i` messages and `j` frames. */
  lemma {:induction false} ReassemblyFrom(
      msgs: seq<Xpc.Message<Xpc.Layout>>, i: nat, after: seq<byte>,
      buf: seq<byte>, frames: seq<RawFrame>, j: nat, rest: seq<byte>)
    requires i <= |msgs| && j <= |frames|
    requires forall n | 0 <= n < |msgs| :: Deliverable(msgs[n])
    requires forall n | 0 <= n < |frames| :: Carries(frames[n])
    requires buf + DataBytes(frames, j) == EncodeMessages(msgs, i) + after
    ensures Receives(|msgs| - i, buf, EncodeFrames(frames, j) + rest) == Delivered(msgs, i)
    decreases |msgs| - i
  {
    hide Xpc.EncodeMessage, XpcRoundTrip.MessageOf, Deliverable, Receive, EncodeFrames, DataBytes, Carries, Receives,
         Delivered, EncodeMessages;
    var input := EncodeFrames(frames, j) + rest;
    if i == |msgs| {
      NoCalls(buf, input, msgs);
    } else {
      var later := EncodeMessages(msgs, i + 1) + after;
      MessageFirst(msgs, i, after);
      var k := ReceiveNext(msgs[i], later, buf, frames, j, rest);
      var c := Receive(buf, input);
      ReassemblyFrom(msgs, i + 1, after, c.buf, frames, k, rest);
      FirstCall(|msgs| - i, buf, input, msgs, i);
    }
  }

  lemma MessageFirst(msgs: seq<Xpc.Message<Xpc.Layout>>, i: nat, after: seq<byte>)
    requires i < |msgs|
    ensures EncodeMessages(msgs, i) + after == Xpc.EncodeMessage(msgs[i]) + (EncodeMessages(msgs, i + 1) + after)
  {
    hide Xpc.EncodeMessage;
    Regroup(Xpc.EncodeMessage(msgs[i]), EncodeMessages(msgs, i + 1), after);
  }

  lemma NoCalls(buf: seq<byte>, input: seq<byte>, msgs: seq<Xpc.Message<Xpc.Layout>>)
    ensures Receives(0, buf, input) == Delivered(msgs, |msgs|)
  {}

  lemma FirstCall(n: nat, buf: seq<byte>, input: seq<byte>, msgs: seq<Xpc.Message<Xpc.Layout>>, i: nat)
    requires n > 0 && i < |msgs|
    ensures var c := Receive(buf, input);
      Receives(n, buf, input) == [c.outcome] + Receives(n - 1, c.buf, c.rest)
    ensures Delivered(msgs, i) == [Message(XpcRoundTrip.MessageOf(msgs[i]))] + Delivered(msgs, i + 1)
  {
    hide Receive, XpcRoundTrip.MessageOf;
  }

  /**
   * However the encoded messages are cut into DATA payloads, and whatever other
   * frames come between, repeated calls return those messages in order.
   */
  lemma Reassembly(
      msgs: seq<Xpc.Message<Xpc.Layout>>, after: seq<byte>, buf: seq<byte>, frames: seq<RawFrame>, rest: seq<byte>)
    requires forall i | 0 <= i < |msgs| :: Deliverable(msgs[i])
    requires forall i | 0 <= i < |frames| :: Carries(frames[i])
    requires buf + DataBytes(frames, 0) == EncodeMessages(msgs, 0) + after
    ensures Receives(|msgs|, buf, EncodeFrames(frames, 0) + rest) == Delivered(msgs, 0)
  {
    hide Deliverable, Receives, EncodeFrames, DataBytes, Carries, EncodeMessages, Delivered;
    ReassemblyFrom(msgs, 0, after, buf, frames, 0, rest);
  }

  // ---- the connection ----

  predicate IsReply(m: Xpc.Message<Xpc.Value>) {
    m.flags / REPLY % 2 == 1
  }

  predicate Answers(m: Xpc.Message<Xpc.Value>, id: u64) {
    m.msgId == id || IsReply(m)
  }

  /** The end of a wait: an answer or a failure, what it leaves, and the acknowledgements it wrote. */
  datatype Awaited = Awaited(outcome: Outcome, buf: seq<byte>, rest: seq<byte>, acks: seq<byte>)

  /** What `request` waits for after its own send: the first answer, other messages being dropped. */
  function Await(id: u64, buf: seq<byte>, input: seq<byte>): (a: Awaited)
    decreases |buf| + |input|
  {
    var c := Receive(buf, input);
    ReceiveShrinks(buf, input);
    if c.outcome.Message? && !Answers(c.outcome.m, id) then
      var later := Await(id, c.buf, c.rest);
      later.(acks := c.acks + later.acks)
    else Awaited(c.outcome, c.buf, c.rest, c.acks)
  }

  /** One turn of the wait. */
  lemma AwaitUnfolds(id: u64, buf: seq<byte>, input: seq<byte>)
    ensures var c := Receive(buf, input);
      if c.outcome.Message? && !Answers(c.outcome.m, id) then
        var later := Await(id, c.buf, c.rest);
        Await(id, buf, input) == later.(acks := c.acks + later.acks)
      else Await(id, buf, input) == Awaited(c.outcome, c.buf, c.rest, c.acks)
  {
    hide Receive, Answers;
  }

  datatype Reply = Body(value: Xpc.Value) | Failed(outcome: Outcome)

  /** An answer without a body counts as a closed connection. */
  function ReplyOf(outcome: Outcome): Reply {
    if !outcome.Message? then Failed(outcome)
    else if outcome.m.body.None? then Failed(Closed)
    else Body(outcome.m.body.value)
  }

  lemma {:induction false} ReceiveShrinks(buf: seq<byte>, input: seq<byte>)
    ensures var c := Receive(buf, input);
      c.outcome.Message? ==> |c.buf| + |c.rest| < |buf| + |input|
    decreases |input|
  {
    hide Front, Total;
    if Front(buf).None? && ParseRaw(input).Got? {
      var p := ParseRaw(input);
      if Classify(p.raw).Some? {
        DataShorter(p.raw, input);
        ReceiveShrinks(buf + DataOf(Classify(p.raw).value), input[p.used..]);
      }
    }
  }

  lemma DataShorter(raw: RawFrame, input: seq<byte>)
    requires ParseRaw(input).Got? && ParseRaw(input).raw == raw && Classify(raw).Some?
    ensures |DataOf(Classify(raw).value)| < ParseRaw(input).used
  {
    hide ReadBe, SettingsPairs;
  }

  /** If calls deliver the messages from the i-th on, and the k-th is the first answer, it ends the wait. */
  lemma {:induction false} AwaitDelivered(
      id: u64, k: nat, msgs: seq<Xpc.Message<Xpc.Layout>>, i: nat, buf: seq<byte>, input: seq<byte>)
    requires i <= k < |msgs| && Receives(|msgs| - i, buf, input) == Delivered(msgs, i)
    requires Answers(XpcRoundTrip.MessageOf(msgs[k]), id)
    requires forall n | 0 <= n < k :: !Answers(XpcRoundTrip.MessageOf(msgs[n]), id)
    ensures Await(id, buf, input).outcome == Message(XpcRoundTrip.MessageOf(msgs[k]))
    decreases k - i
  {
    hide Receive, Answers, XpcRoundTrip.MessageOf;
    var c := Receive(buf, input);
    var outcomes := Receives(|msgs| - i, buf, input);
    assert outcomes[0] == c.outcome && outcomes[1..] == Receives(|msgs| - i - 1, c.buf, c.rest);
    assert Delivered(msgs, i)[1..] == Delivered(msgs, i + 1);
    if i < k {
      AwaitDelivered(id, k, msgs, i + 1, c.buf, c.rest);
    }
  }

  /** If the first answer is the k-th message sent by the peer, that message ends the wait. */
  lemma AnswerFound(
      id: u64, k: nat, msgs: seq<Xpc.Message<Xpc.Layout>>, after: seq<byte>,
      buf: seq<byte>, frames: seq<RawFrame>, rest: seq<byte>)
    requires forall i | 0 <= i < |msgs| :: Deliverable(msgs[i])
    requires forall i | 0 <= i < |frames| :: Carries(frames[i])
    requires buf + DataBytes(frames, 0) == EncodeMessages(msgs, 0) + after
    requires k < |msgs| && Answers(XpcRoundTrip.MessageOf(msgs[k]), id)
    requires forall i | 0 <= i < k :: !Answers(XpcRoundTrip.MessageOf(msgs[i]), id)
    ensures Await(id, buf, EncodeFrames(frames, 0) + rest).outcome == Message(XpcRoundTrip.MessageOf(msgs[k]))
  {
    hide XpcRoundTrip.MessageOf, Deliverable, Receives, Delivered, Carries, Answers, Await, DataBytes,
         EncodeMessages, EncodeFrames;
    Reassembly(msgs, after, buf, frames, rest);
    AwaitDelivered(id, k, msgs, 0, buf, EncodeFrames(frames, 0) + rest);
  }

  /**
   * What a request returns: the body of the first message that has its id or the
   * reply flag, or that the connection is closed if that has none.
   */
  lemma RequestAnswered(
      id: u64, k: nat, msgs: seq<Xpc.Message<Xpc.Layout>>, after: seq<byte>,
      buf: seq<byte>, frames: seq<RawFrame>, rest: seq<byte>)
    requires forall i | 0 <= i < |msgs| :: Deliverable(msgs[i])
    requires forall i | 0 <= i < |frames| :: Carries(frames[i])
    requires buf + DataBytes(frames, 0) == EncodeMessages(msgs, 0) + after
    requires k < |msgs| && (msgs[k].msgId == id || msgs[k].flags / 0x2_0000 % 2 == 1)
    requires forall i | 0 <= i < k :: msgs[i].msgId != id && msgs[i].flags / 0x2_0000 % 2 == 0
    ensures ReplyOf(Await(id, buf, EncodeFrames(frames, 0) + rest).outcome) ==
      match msgs[k].body
      case Some(t) => Body(Xpc.ValueOf(t))
      case None => Failed(Closed)
  {
    hide Deliverable, Carries, Await, DataBytes, EncodeMessages, EncodeFrames, Xpc.ValueOf;
    forall i | 0 <= i < k ensures !Answers(XpcRoundTrip.MessageOf(msgs[i]), id) {}
    AnswerFound(id, k, msgs, after, buf, frames, rest);
  }

  /**
   * A request on the wire: one DATA frame on stream 1, read back as such exactly
   * if its length fits 24 bits, whose payload decodes to the flags, the id and
   * the value, exactly if the value is NUL-free.
   */
  lemma RequestReadsBack(id: u64, value: Xpc.Layout, rest: seq<byte>)
    requires Xpc.Fits(value) && Xpc.KeysDistinct(value)
    ensures var frame := EncodeFrame(RequestFrame(id, value));
      var payload := RequestFrame(id, value).payload;
      && (ParseRaw(frame + rest) == Got(RawFrame(0, 0, 1, payload), |frame|) <==> |payload| < TWO_24)
      && (Xpc.DecodeMessage(payload) == Xpc.Ok((Xpc.Message(0x10101, id, Some(Xpc.ValueOf(value))), |payload|))
          <==> Xpc.NulFree(Xpc.ValueOf(value)))
  {
    hide EncodeFrame, ParseRaw, Xpc.EncodeMessage, Xpc.DecodeMessage, Xpc.ValueOf, Xpc.NulFree, Xpc.Fits,
         Xpc.KeysDistinct;
    var m := Xpc.Message(REQUEST_FLAGS, id, Some(value));
    FrameRoundTrip(RequestFrame(id, value), rest);
    XpcRoundTrip.MessageRoundTrip(m, []);
    assert Xpc.EncodeMessage(m) + [] == Xpc.EncodeMessage(m);
  }

  /** With a matching message on its way, the answer is the matching one exactly if no reply comes before it. */
  lemma MatchingAnswer(
      id: u64, j: nat, msgs: seq<Xpc.Message<Xpc.Layout>>, after: seq<byte>,
      buf: seq<byte>, frames: seq<RawFrame>, rest: seq<byte>)
    requires forall i | 0 <= i < |msgs| :: Deliverable(msgs[i])
    requires forall i | 0 <= i < |frames| :: Carries(frames[i])
    requires buf + DataBytes(frames, 0) == EncodeMessages(msgs, 0) + after
    requires j < |msgs| && msgs[j].msgId == id && forall i | 0 <= i < j :: msgs[i].msgId != id
    ensures var a := Await(id, buf, EncodeFrames(frames, 0) + rest);
      && a.outcome.Message?
      && (a.outcome.m.msgId == id <==> forall i | 0 <= i < j :: !IsReply(XpcRoundTrip.MessageOf(msgs[i])))
  {
    var k := FirstAnswer(id, j, msgs, 0);
    hide Deliverable, Carries, Await, DataBytes, EncodeMessages, EncodeFrames, Answers, IsReply;
    AnswerFound(id, k, msgs, after, buf, frames, rest);
  }

  lemma {:induction false} FirstAnswer(id: u64, j: nat, msgs: seq<Xpc.Message<Xpc.Layout>>, i: nat) returns (k: nat)
    requires i <= j < |msgs| && msgs[j].msgId == id
    requires forall n | 0 <= n < j :: msgs[n].msgId != id
    requires forall n | 0 <= n < i :: !Answers(XpcRoundTrip.MessageOf(msgs[n]), id)
    ensures k <= j && Answers(XpcRoundTrip.MessageOf(msgs[k]), id)
    ensures forall n | 0 <= n < k :: !Answers(XpcRoundTrip.MessageOf(msgs[n]), id)
    ensures k == j <==> forall n | 0 <= n < j :: !IsReply(XpcRoundTrip.MessageOf(msgs[n]))
    decreases j - i
  {
    if i == j || Answers(XpcRoundTrip.MessageOf(msgs[i]), id) {
      k := i;
    } else {
      k := FirstAnswer(id, j, msgs, i + 1);
    }
  }

  /** The DATA frame that carries a request. */
  function RequestFrame(id: u64, value: Xpc.Layout): RawFrame {
    RawFrame(TYPE_DATA, 0, STREAM_CS, Xpc.EncodeMessage(Xpc.Message(REQUEST_FLAGS, id, Some(value))))
  }

  class RemoteXpcConn {
    const reader: Reader
    const writer: ByteVec
    var recvBuf: seq<byte>
    var nextMsgId: u64

    /** Requests have odd ids. */
    predicate Valid()
      reads this
    {
      nextMsgId % 2 == 1
    }

    constructor (reader: Reader, writer: ByteVec)
      ensures Valid() && this.reader == reader && this.writer == writer && recvBuf == [] && nextMsgId == 1
    {
      this.reader, this.writer, recvBuf, nextMsgId := reader, writer, [], 1;
    }

    /** Reads frames until the buffer holds a whole message, acknowledging on the way. */
    method ReceiveMessage() returns (outcome: Outcome)
      modifies reader, writer, this`recvBuf
      ensures var c := Receive(old(recvBuf), old(reader.pending));
        && outcome == c.outcome
        && recvBuf == c.buf
        && reader.pending == c.rest
        && writer.data == old(writer.data) + c.acks
    {
      hide Receive, EncodeFrame, Classify, ParseRaw, Front, AckOf;
      ghost var start := Receive(recvBuf, reader.pending);
      ghost var acked: seq<byte> := [];
      while true
        invariant start.outcome == Receive(recvBuf, reader.pending).outcome
        invariant start.buf == Receive(recvBuf, reader.pending).buf
        invariant start.rest == Receive(recvBuf, reader.pending).rest
        invariant start.acks == acked + Receive(recvBuf, reader.pending).acks
        invariant writer.data == old(writer.data) + acked
        decreases |reader.pending|
      {
        ReceiveUnfolds(recvBuf, reader.pending);
        var front := TakeMessage();
        if front.Some? {
          return front.value;
        }
        var raw, frame := ReadFrame(reader);
        if raw.None? {
          return EndOfStream;
        }
        if frame.None? {
          return Outcome.Panicked;
        }
        if frame.value.GoAway? {
          return Closed;
        }
        recvBuf := recvBuf + DataOf(frame.value);
        Acknowledge(frame.value);
        acked := acked + AckBytes(frame.value);
      }
    }

    /** Takes a complete message off the front of the buffer; a message that fails to decode stays there. */
    method TakeMessage() returns (outcome: Option<Outcome>)
      modifies this`recvBuf
      ensures outcome == Front(old(recvBuf))
      ensures var n := if outcome.Some? && outcome.value.Message? then Total(old(recvBuf)) else 0;
        recvBuf == old(recvBuf)[n..]
    {
      hide Xpc.DecodeMessage;
      if |recvBuf| < 24 {
        return None;
      }
      var total := Total(recvBuf);
      if total >= TWO_64 {
        return Some(Outcome.Panicked);
      }
      if |recvBuf| < total {
        return None;
      }
      match Xpc.DecodeMessage(recvBuf[..total])
      case Ok((m, _)) =>
        recvBuf := recvBuf[total..];
        return Some(Message(m));
      case Err(e) =>
        return Some(Malformed(e));
      case Panicked =>
        return Some(Outcome.Panicked);
    }

    method Acknowledge(f: Frame)
      modifies writer
      ensures writer.data == old(writer.data) + AckBytes(f)
    {
      hide EncodeFrame;
      match f
      case Settings(flags, _) =>
        if !AckSet(flags) {
          WriteFrameRaw(writer, RawFrame(TYPE_SETTINGS, FLAG_ACK, 0, []));
        }
      case Ping(ack, data) =>
        if !ack {
          WriteFrameRaw(writer, RawFrame(TYPE_PING, FLAG_ACK, 0, data));
        }
      case _ =>
    }

    method AllocMsgId() returns (id: u64)
      requires Valid()
      modifies this`nextMsgId
      ensures Valid() && id % 2 == 1
      ensures id == old(nextMsgId) && nextMsgId == (old(nextMsgId) + 2) % TWO_64
    {
      id := nextMsgId;
      nextMsgId := (nextMsgId + 2) % TWO_64;
    }

    /** Sends a value and waits for the first answer. */
    method Request(value: Xpc.Layout) returns (r: Reply)
      requires Valid()
      modifies this`recvBuf, this`nextMsgId, reader, writer
      ensures Valid()
      ensures nextMsgId == (old(nextMsgId) + 2) % TWO_64
      ensures var a := Await(old(nextMsgId), old(recvBuf), old(reader.pending));
        && r == ReplyOf(a.outcome)
        && (!a.outcome.Message? ==> r == Failed(a.outcome))
        && recvBuf == a.buf && reader.pending == a.rest
        && writer.data == old(writer.data) + EncodeFrame(RequestFrame(old(nextMsgId), value)) + a.acks
    {
      hide EncodeFrame, RequestFrame, Receive, Answers, Await;
      var id := AllocMsgId();
      WriteFrameRaw(writer, RequestFrame(id, value));
      ghost var sent, whole := writer.data, Await(id, recvBuf, reader.pending);
      ghost var acked: seq<byte> := [];
      while true
        invariant writer.data == sent + acked && nextMsgId == (old(nextMsgId) + 2) % TWO_64
        invariant whole == Await(id, recvBuf, reader.pending).(acks := whole.acks)
        invariant whole.acks == acked + Await(id, recvBuf, reader.pending).acks
        decreases |recvBuf| + |reader.pending|
      {
        ReceiveShrinks(recvBuf, reader.pending);
        AwaitUnfolds(id, recvBuf, reader.pending);
        ghost var c := Receive(recvBuf, reader.pending);
        var outcome := ReceiveMessage();
        if !outcome.Message? || Answers(outcome.m, id) {
          return ReplyOf(outcome);
        }
        Regroup(acked, c.acks, Await(id, recvBuf, reader.pending).acks);
        acked := acked + c.acks;
      }
    }
  }
}
