/** The client of src/lockdown/services/afc.rs and its file transfers. */
module AfcTransfer {
  import opened Afc
  import opened AfcDevice
  import opened Bytes
  import opened Utf8
  import opened Wrappers

  // ---- what a faithful device's replies say ----

  function AnswerOf(r: Reply): Answer {
    Answer(r.op, r.args + r.data)
  }

  lemma StatusReadsBack(code: u64)
    ensures AnswerOf(StatusReply(code)) == Answer(OP_STATUS, Le(code, 8)) && LeU64(Le(code, 8), 0) == code
  {
    HandleReadsBack(code);
    assert Le(code, 8) + [] == Le(code, 8);
  }

  // ---- requests as the device understands them ----

  lemma PathTerminated(path: seq<byte>)
    ensures DevicePath(NulStr(path)) == DevicePath(path)
  {
    var i := NulIndex(path);
    assert NulStr(path)[..i] == path[..i];
    NulIndexIs(NulStr(path), i);
  }

  lemma MakeDirCommand(num: u64, path: seq<byte>)
    ensures CommandOf(MakeDirReq(num, path)) == MakeDir(DevicePath(path))
  {
    PathTerminated(path);
  }

  lemma OpenCommand(num: u64, path: seq<byte>, mode: u64)
    ensures CommandOf(OpenReq(num, path, mode)) == Open(mode, DevicePath(path))
  {
    PathTerminated(path);
    LeFirst(mode, NulStr(path));
    hide Le, LeU64, DevicePath, NulStr;
  }

  lemma ReadCommand(num: u64, handle: u64, size: u64)
    ensures CommandOf(ReadReq(num, handle, size)) == Read(handle, size)
  {
    var args := Le(handle, 8) + Le(size, 8);
    LeFirst(handle, Le(size, 8));
    assert args[8..16] == Le(size, 8);
    U64OfLe(args, 8, size);
    assert LeU64(args, 8) == size;
    hide Le, LeU64;
  }

  lemma HandleCommands(num: u64, handle: u64, data: seq<byte>)
    ensures CommandOf(WriteReq(num, handle, data)) == Write(handle, data)
    ensures CommandOf(CloseReq(num, handle)) == Close(handle)
  {
    HandleReadsBack(handle);
    hide Le, LeU64;
  }

  // ---- what a faithful device's replies become ----

  lemma DirServed(d: Dev, path: seq<byte>, d': Dev, reply: Reply)
    requires Serves(d, MakeDir(path), d', reply)
    ensures d' == d && MadeDir(Ok(AnswerOf(reply))) == Ok(())
  {
    StatusReadsBack(STATUS_SUCCESS);
    StatusReadsBack(STATUS_OBJECT_EXISTS);
  }

  /** Opening fails for a file that is not there, or when no handle is left; otherwise the handle is new. */
  lemma OpenServed(d: Dev, mode: u64, path: seq<byte>, d': Dev, reply: Reply)
    requires Serves(d, Open(mode, path), d', reply)
    ensures var r := Opens(Ok(AnswerOf(reply)));
      && (r.Ok? <==> (mode == FOPEN_RDONLY ==> path in d.files) && HasFreeHandle(d))
      && (mode == FOPEN_RDONLY && path !in d.files ==> r == Err(Status(8)))
      && (r.Err? ==> d' == d)
      && (r.Ok? ==>
        && r.value !in d.open
        && d' == Dev(if mode == FOPEN_RDONLY then d.files else d.files[path := []],
                     d.open[r.value := Handle(path, 0)]))
  {
    hide Le, LeU64, StatusReply, HasFreeHandle;
    if mode == FOPEN_RDONLY && path !in d.files {
      StatusReadsBack(8);
    } else if !HasFreeHandle(d) {
      StatusReadsBack(3);
    } else {
      assert reply.args + reply.data == reply.args;
    }
  }

  lemma MovedNowhere(d: Dev, h: u64)
    requires h in d.open
    ensures Moved(d, h, 0) == d
  {
    assert d.open[h := d.open[h]] == d.open;
  }

  /** A read gives the next bytes; none only at the end of the file. */
  lemma ReadServed(d: Dev, h: u64, size: u64, d': Dev, reply: Reply)
    requires Serves(d, Read(h, size), d', reply)
    requires h in d.open && d.open[h].path in d.files && size > 0
    ensures var r := ReadsOf(Ok(AnswerOf(reply)));
      && r.Ok? && r.value <= Rest(d, h) && (r.value == [] ==> Rest(d, h) == [])
      && d' == Moved(d, h, |r.value|)
  {
    StatusReadsBack(STATUS_SUCCESS);
    StatusReadsBack(STATUS_END_OF_DATA);
    hide Le, LeU64, StatusReply;
    MovedNowhere(d, h);
    hide Rest, Moved;
  }

  lemma WriteServed(d: Dev, h: u64, data: seq<byte>, d': Dev, reply: Reply)
    requires Serves(d, Write(h, data), d', reply)
    requires h in d.open && d.open[h].path in d.files
    ensures Expect(Ok(AnswerOf(reply))) == Ok(())
    ensures var file := d.files[d.open[h].path];
      d' == Moved(d, h, |data|).(files := d.files[d.open[h].path := Overwritten(file, d.open[h].pos, data)])
  {
    StatusReadsBack(STATUS_SUCCESS);
  }

  lemma CloseServed(d: Dev, h: u64, d': Dev, reply: Reply)
    requires Serves(d, Close(h), d', reply) && h in d.open
    ensures Expect(Ok(AnswerOf(reply))) == Ok(()) && d' == d.(open := d.open - {h})
  {
    StatusReadsBack(STATUS_SUCCESS);
  }

  // ---- writing a header ----

  method CopyInto(a: array<byte>, at: nat, s: seq<byte>)
    requires at + |s| <= a.Length
    modifies a
    ensures a[..at + |s|] == old(a[..at]) + s
    ensures a[at + |s|..] == old(a[at + |s|..])
  {
    for i := 0 to |s|
      invariant a[..at + i] == old(a[..at]) + s[..i]
      invariant a[at + i..] == old(a[at + i..])
    {
      a[at + i] := s[i];
      assert s[..i + 1] == s[..i] + [s[i]];
    }
    assert s[..|s|] == s;
  }

  method BuildHeader(entire: u64, here: u64, num: u64, op: u64) returns (hdr: array<byte>)
    ensures fresh(hdr)
    ensures hdr[..] == HeaderBytes(entire, here, num, op)
  {
    hide Le;
    hdr := new byte[HEADER_SIZE](_ => 0);
    CopyInto(hdr, 0, MAGIC);
    assert hdr[..8] == MAGIC;
    CopyInto(hdr, 8, Le(entire, 8));
    CopyInto(hdr, 16, Le(here, 8));
    CopyInto(hdr, 24, Le(num, 8));
    CopyInto(hdr, 32, Le(op, 8));
    assert hdr[..] == hdr[..40];
  }

  class AfcClient {
    const stream: Link
    var packetNum: u64
    /** The requests that were made, whether or not writing them succeeded. */
    ghost var log: seq<Request>
    /** The answer to each of them. */
    ghost var answers: seq<Result<Answer>>
    /** What was written of each of them. */
    ghost var written: seq<seq<byte>>
    // The connection as the client found it.
    ghost const sentBefore: seq<byte>
    ghost const input: seq<byte>
    ghost const failuresBefore: nat

    /** A faithful device owes no reply between calls. */
    ghost predicate Valid()
      reads this, stream, stream.incoming
    {
      && Accounted()
      && (stream.honest ==> stream.incoming.pending == [] && stream.unread == [])
    }

    /** What was sent is what was written of the requests, and the answers were read one after the other. */
    ghost predicate Accounted()
      reads this, stream, stream.incoming
    {
      && Outgoing(log, answers, written)
      && stream.sent == sentBefore + Concat(written)
      && stream.failures == failuresBefore + IoCount(answers)
      && (!stream.honest ==> Replay(input, answers) == Some(stream.incoming.pending))
    }

    constructor (stream: Link)
      requires stream.honest ==> stream.incoming.pending == [] && stream.unread == []
      ensures Valid() && this.stream == stream && packetNum == 0 && log == []
    {
      this.stream := stream;
      packetNum, log, answers, written := 0, [], [], [];
      sentBefore, input, failuresBefore := stream.sent, stream.incoming.pending, stream.failures;
    }

    /** Exactly the requests `t` were made, each was answered; a stream that is not faithful got no longer. */
    twostate predicate Made(t: seq<Request>)
      reads this, stream, stream.incoming
    {
      && log == old(log) + t
      && old(answers) <= answers && |answers| == |old(answers)| + |t|
      && old(written) <= written
      && packetNum == After(old(packetNum), |t|)
      && Valid()
      && (!stream.honest ==> |stream.incoming.pending| <= |old(stream.incoming.pending)|)
    }

    /** Only failed writes leave requests unsent, and the answers are what was read meanwhile. */
    twostate lemma OnWire(t: seq<Request>)
      requires old(Valid()) && Made(t)
      ensures var a := answers[|old(answers)|..];
        && stream.failures == old(stream.failures) + IoCount(a)
        && (NoIo(a) ==> stream.sent == old(stream.sent) + Wire(t))
        && (!stream.honest ==> Replay(old(stream.incoming.pending), a) == Some(stream.incoming.pending))
    {
      hide RequestBytes, Concat, IoCount, Replay, After, Wire;
      var k := |old(answers)|;
      assert answers[..k] == old(answers);
      CountsAdd(answers, k);
      if !stream.honest {
        ReplaySplit(input, answers, k);
      }
      if NoIo(answers[k..]) {
        assert |old(log)| == k && log[k..] == t && written[..k] == old(written);
        AllOnWire(log, answers, written, k);
        Regroup(sentBefore, Concat(old(written)), Wire(t));
      }
    }

    /** The three writes of a request; empty parts are not written. */
    method WriteRequest(r: Request) returns (ok: bool, ghost out: seq<byte>)
      requires HEADER_SIZE + |r.args| + |r.data| < TWO_64
      modifies stream`sent, stream`unread, stream`failures
      ensures stream.honest ==> ok
      ensures out <= RequestBytes(r) && (ok ==> out == RequestBytes(r))
      ensures stream.sent == old(stream.sent) + out && stream.unread == old(stream.unread) + out
      ensures stream.failures == old(stream.failures) + if ok then 0 else 1
    {
      hide HeaderBytes;
      var here := HEADER_SIZE + |r.args|;
      var hdr := BuildHeader(here + |r.data|, here, r.num, r.op);
      ghost var head, part := hdr[..], [];
      Joined(head, r.args, r.data);
      ok, out := stream.WriteAll(hdr[..]);
      if ok && r.args != [] {
        ok, part := stream.WriteAll(r.args);
        Regroup(old(stream.sent), out, part);
        Regroup(old(stream.unread), out, part);
        out := out + part;
      }
      if ok && r.data != [] {
        ok, part := stream.WriteAll(r.data);
        Regroup(old(stream.sent), out, part);
        Regroup(old(stream.unread), out, part);
        out := out + part;
      }
    }

    method SendRequest(op: u64, args: seq<byte>, fileData: seq<byte>)
      returns (ok: bool, ghost request: Request, ghost out: seq<byte>, ghost reply: Reply)
      requires Valid() && HEADER_SIZE + |args| + |fileData| < TWO_64
      modifies this`packetNum, this`log, stream, stream.incoming
      ensures packetNum == After(old(packetNum), 1)
      ensures request == Request(packetNum, op, args, fileData)
      ensures log == old(log) + [request]
      ensures out <= RequestBytes(request) && (ok ==> out == RequestBytes(request))
      ensures stream.sent == old(stream.sent) + out
      ensures stream.failures == old(stream.failures) + if ok then 0 else 1
      ensures !stream.honest ==> stream.incoming.pending == old(stream.incoming.pending)
      ensures stream.honest ==> ok && stream.unread == []
      ensures stream.honest ==>
        && Serves(old(stream.dev), CommandOf(request), stream.dev, reply)
        && stream.incoming.pending == PacketBytes(packetNum, reply.op, reply.args, reply.data)
    {
      hide Accounted, Le, Serves, CommandOf, ParseRequest, PacketBytes, RequestBytes, After, StatusReply;
      packetNum := After(packetNum, 1);
      var r := Request(packetNum, op, args, fileData);
      request := r;
      log := log + [request];
      RequestReadsBack(request);
      ok, out := WriteRequest(r);
      if !ok {
        reply := StatusReply(0);
        return;
      }
      assert [] + RequestBytes(request) == RequestBytes(request);
      ok, reply := stream.Flush();
    }

    method RecvResponse() returns (r: Result<Answer>)
      modifies stream.incoming
      ensures (r, stream.incoming.pending) == Recv(old(stream.incoming.pending))
    {
      var header := stream.incoming.ReadExact(HEADER_SIZE);
      if header.None? {
        return Err(Closed);
      }
      var hdr := header.value;
      ghost var s := old(stream.incoming.pending);
      if hdr[..8] != MAGIC {
        assert s[..8] == hdr[..8];
        return Err(BadMagic);
      }
      HeaderOfStream(s);
      var n := PayloadLen(LeU64(hdr, 8), LeU64(hdr, 16));
      var payload: seq<byte> := [];
      if n > 0 {
        var more := stream.incoming.ReadExact(n);
        if more.None? {
          return Err(Closed);
        }
        payload := more.value;
      }
      assert s[HEADER_SIZE..HEADER_SIZE + n] == payload;
      return Ok(Answer(LeU64(hdr, 32), payload));
    }

    /** One request and its answer. */
    method Exchange(op: u64, args: seq<byte>, fileData: seq<byte>)
      returns (r: Result<Answer>, ghost request: Request, ghost reply: Reply)
      requires Valid() && HEADER_SIZE + |args| + |fileData| < TWO_64
      modifies this`packetNum, this`log, this`answers, this`written, stream, stream.incoming
      ensures request == Request(packetNum, op, args, fileData)
      ensures Made([request])
      ensures answers == old(answers) + [r]
      ensures !stream.honest ==>
        (r, stream.incoming.pending) == (Err(Io), old(stream.incoming.pending))
        || (r, stream.incoming.pending) == Recv(old(stream.incoming.pending))
      ensures stream.honest ==>
        && r == Ok(AnswerOf(reply))
        && Serves(old(stream.dev), CommandOf(request), stream.dev, reply)
    {
      hide Outgoing, Replay, Concat, IoCount, Le, Serves, CommandOf, PacketBytes, RequestBytes, Recv, After;
      ghost var n, out := |answers|, [];
      var ok;
      ok, request, out, reply := SendRequest(op, args, fileData);
      r := Err(Io);
      if ok {
        r := RecvResponse();
        if stream.honest {
          ServedSmall(old(stream.dev), CommandOf(request), stream.dev, reply);
          ReplyReadsBack(packetNum, reply);
        }
      }
      OneMore(old(log), request, old(answers), r, old(written), out);
      if !stream.honest {
        ReplayMore(input, old(answers), r);
      }
      answers, written := answers + [r], written + [out];
      Regroup(sentBefore, Concat(old(written)), out);
    }

    method MakeDir(path: seq<byte>) returns (r: Result<()>)
      requires Valid() && |path| < TWO_63
      modifies this`packetNum, this`log, this`answers, this`written, stream, stream.incoming
      ensures Made([MakeDirReq(packetNum, path)])
      ensures r == MadeDir(answers[|old(answers)|])
      ensures stream.honest ==> r == Ok(()) && stream.dev == old(stream.dev)
    {
      hide Accounted, Serves, CommandOf, Le, After;
      var answer;
      ghost var request, reply;
      answer, request, reply := Exchange(OP_MAKE_DIR, NulStr(path), []);
      if stream.honest {
        MakeDirCommand(packetNum, path);
        DirServed(old(stream.dev), DevicePath(path), stream.dev, reply);
      }
      return MadeDir(answer);
    }

    method FileOpen(path: seq<byte>, mode: u64) returns (r: Result<u64>)
      requires Valid() && |path| < TWO_63
      modifies this`packetNum, this`log, this`answers, this`written, stream, stream.incoming
      ensures Made([OpenReq(packetNum, path, mode)])
      ensures r == Opens(answers[|old(answers)|])
      ensures stream.honest ==>
        var d, p := old(stream.dev), DevicePath(path);
        && (r.Ok? <==> (mode == FOPEN_RDONLY ==> p in d.files) && HasFreeHandle(d))
        && (mode == FOPEN_RDONLY && p !in d.files ==> r == Err(Status(8)))
        && (r.Err? ==> stream.dev == d)
        && (r.Ok? ==>
          && r.value !in d.open
          && stream.dev == Dev(if mode == FOPEN_RDONLY then d.files else d.files[p := []],
                               d.open[r.value := Handle(p, 0)]))
    {
      hide Accounted, Serves, CommandOf, Le, After, HasFreeHandle, Opens;
      var answer;
      ghost var request, reply;
      answer, request, reply := Exchange(OP_FILE_OPEN, Le(mode, 8) + NulStr(path), []);
      if stream.honest {
        OpenCommand(packetNum, path, mode);
        OpenServed(old(stream.dev), mode, DevicePath(path), stream.dev, reply);
      }
      return Opens(answer);
    }

    method FileRead(handle: u64, size: u64) returns (r: Result<seq<byte>>)
      requires Valid()
      modifies this`packetNum, this`log, this`answers, this`written, stream, stream.incoming
      ensures Made([ReadReq(packetNum, handle, size)])
      ensures r == ReadsOf(answers[|old(answers)|])
      ensures !stream.honest && r.Ok? ==> |stream.incoming.pending| < |old(stream.incoming.pending)|
      ensures stream.honest && size > 0 ==>
        var d := old(stream.dev);
        handle in d.open && d.open[handle].path in d.files ==>
          && r.Ok? && r.value <= Rest(d, handle) && (r.value == [] ==> Rest(d, handle) == [])
          && stream.dev == Moved(d, handle, |r.value|)
    {
      hide Accounted, Serves, CommandOf, Le, After, Recv, Rest, Moved;
      var answer;
      ghost var request, reply;
      answer, request, reply := Exchange(OP_FILE_READ, Le(handle, 8) + Le(size, 8), []);
      ghost var d := old(stream.dev);
      if stream.honest && size > 0 && handle in d.open && d.open[handle].path in d.files {
        ReadCommand(packetNum, handle, size);
        ReadServed(d, handle, size, stream.dev, reply);
      }
      return ReadsOf(answer);
    }

    method FileWrite(handle: u64, data: seq<byte>) returns (r: Result<()>)
      requires Valid() && |data| < TWO_63
      modifies this`packetNum, this`log, this`answers, this`written, stream, stream.incoming
      ensures Made([WriteReq(packetNum, handle, data)])
      ensures r == Expect(answers[|old(answers)|])
      ensures stream.honest ==>
        var d := old(stream.dev);
        handle in d.open && d.open[handle].path in d.files ==>
          && r == Ok(())
          && stream.dev == Moved(d, handle, |data|).(files := d.files[
               d.open[handle].path := Overwritten(d.files[d.open[handle].path], d.open[handle].pos, data)])
    {
      hide Accounted, Serves, CommandOf, Le, After, Moved, Overwritten;
      var answer;
      ghost var request, reply;
      answer, request, reply := Exchange(OP_FILE_WRITE, Le(handle, 8), data);
      ghost var d := old(stream.dev);
      if stream.honest && handle in d.open && d.open[handle].path in d.files {
        HandleCommands(packetNum, handle, data);
        WriteServed(d, handle, data, stream.dev, reply);
      }
      return Expect(answer);
    }

    method FileClose(handle: u64) returns (r: Result<()>)
      requires Valid()
      modifies this`packetNum, this`log, this`answers, this`written, stream, stream.incoming
      ensures Made([CloseReq(packetNum, handle)])
      ensures r == Expect(answers[|old(answers)|])
      ensures stream.honest && handle in old(stream.dev).open ==>
        r == Ok(()) && stream.dev == old(stream.dev).(open := old(stream.dev).open - {handle})
    {
      hide Accounted, Serves, CommandOf, Le, After;
      var answer;
      ghost var request, reply;
      answer, request, reply := Exchange(OP_FILE_CLOSE, Le(handle, 8), []);
      if stream.honest && handle in old(stream.dev).open {
        HandleCommands(packetNum, handle, []);
        CloseServed(old(stream.dev), handle, stream.dev, reply);
      }
      return Expect(answer);
    }

    /** Reads to the end of what the handle has not passed. */
    method ReadAll(handle: u64) returns (r: Result<seq<byte>>, ghost n: nat)
      requires Valid()
      requires stream.honest ==> handle in stream.dev.open && stream.dev.open[handle].path in stream.dev.files
      modifies this`packetNum, this`log, this`answers, this`written, stream, stream.incoming
      ensures Made(Reads(old(packetNum), handle, n))
      ensures ReadToEnd(answers[|old(answers)|..]) && r == ReadResult(answers[|old(answers)|..])
      ensures stream.honest ==>
        && r == Ok(Rest(old(stream.dev), handle))
        && stream.dev == Moved(old(stream.dev), handle, |r.value|)
    {
      hide Accounted, After, Rest, Moved, Le, ReadToEnd, ReadResult, ReadsOf, Gathered, GaveBytes;
      ghost var d, num, k := stream.dev, packetNum, |answers|;
      var buf: seq<byte> := [];
      n := 0;
      AfterNone(num);
      NothingRead();
      assert answers[k..] == [];
      if stream.honest {
        MovedNowhere(d, handle);
      }
      while true
        invariant Made(Reads(num, handle, n))
        invariant GaveBytes(answers[k..]) && buf == Gathered(answers[k..])
        invariant stream.honest ==>
          && handle in stream.dev.open && stream.dev.open[handle].path in stream.dev.files
          && stream.dev == Moved(d, handle, |buf|)
          && buf + Rest(stream.dev, handle) == Rest(d, handle)
        decreases if stream.honest then |Rest(stream.dev, handle)| else |stream.incoming.pending|
      {
        ghost var now, before := stream.dev, answers;
        var chunk := FileRead(handle, READ_CHUNK);
        LastOf(before, answers, k);
        ReadOn(before[k..], answers[|before|]);
        AfterAfter(num, n, 1);
        n := n + 1;
        if chunk.Err? {
          return Err(chunk.error), n;
        }
        if stream.honest {
          MovedAgain(d, handle, |buf|, |chunk.value|);
          RestMoved(now, handle, chunk.value);
          Regroup(buf, chunk.value, Rest(stream.dev, handle));
        }
        if chunk.value == [] {
          assert buf + [] == buf;
          break;
        }
        buf := buf + chunk.value;
      }
      return Ok(buf), n;
    }

    /** The whole of a file. A faithful device gives exactly its bytes and is left as it was. */
    method ReadFile(path: seq<byte>) returns (r: Result<seq<byte>>, ghost held: Option<u64>, ghost n: nat)
      requires Valid() && |path| < TWO_63
      modifies this`packetNum, this`log, this`answers, this`written, stream, stream.incoming
      ensures Made(ReadTrace(old(packetNum), path, held, n))
      ensures ReadOutcome(answers[|old(answers)|..], held, n, r)
      ensures Settled(log[|old(log)|..], answers[|old(answers)|..])
      ensures stream.honest ==>
        var d, p := old(stream.dev), DevicePath(path);
        && stream.dev == d
        && (r.Ok? <==> p in d.files && HasFreeHandle(d))
        && (r.Ok? ==> r.value == d.files[p])
        && (p !in d.files ==> r == Err(Status(8)))
    {
      hide Accounted, After, HasFreeHandle, Le, Reads, Moved, Rest, Opens, Expect, ReadToEnd, ReadResult, Settled;
      ghost var d, p, num, k, t := stream.dev, DevicePath(path), packetNum, |answers|, log;
      held, n := None, 0;
      var open := FileOpen(path, FOPEN_RDONLY);
      ghost var first := [OpenReq(packetNum, path, FOPEN_RDONLY)];
      if open.Err? {
        assert first + [] == first;
        r := Err(open.error);
      } else {
        held := Some(open.value);
        ghost var started := answers;
        r, n := ReadAll(open.value);
        ghost var read := answers;
        AfterAfter(num, 1, n);
        AfterAfter(num, n + 1, 1);
        if r.Err? {
          var _ := FileClose(open.value);
        } else {
          var closed := FileClose(open.value);
          if closed.Err? {
            r := Err(closed.error);
          }
        }
        ThreeParts(old(answers), started, read, answers);
        TraceLog(t, first, Reads(After(num, 1), open.value, n), CloseReq(packetNum, open.value));
        if stream.honest {
          WholeFile(d, p, open.value);
        }
      }
      assert log[|t|..] == ReadTrace(num, path, held, n);
      ReadTraceCloses(num, path, held, n, answers[k..], r);
    }

    /** Writes chunk after chunk, up to the first failure. */
    method WriteChunks(handle: u64, data: seq<byte>) returns (r: Result<()>, ghost n: nat)
      requires Valid()
      requires stream.honest ==> Appending(stream.dev, handle)
      modifies this`packetNum, this`log, this`answers, this`written, stream, stream.incoming
      ensures n <= Chunks(data) && Made(Writes(old(packetNum), handle, data, n))
      ensures WrittenUpTo(answers[|old(answers)|..], Chunks(data))
      ensures r == WriteResult(answers[|old(answers)|..])
      ensures stream.honest ==> r == Ok(()) && stream.dev == Appended(old(stream.dev), handle, data)
    {
      hide Accounted, After, Le, Appended, Chunk, Upto, Chunks, Expect, WrittenUpTo, WriteResult, AllDone;
      ghost var d, num, k := stream.dev, packetNum, |answers|;
      n := 0;
      AfterNone(num);
      UptoEnds(data);
      if stream.honest {
        AppendedNothing(d, handle);
      }
      var at := 0;
      NothingWritten();
      assert answers[k..] == [];
      while at < |data|
        invariant n <= Chunks(data) && at == Upto(data, n)
        invariant Made(Writes(num, handle, data, n))
        invariant AllDone(answers[k..])
        invariant stream.honest ==> stream.dev == Appended(d, handle, data[..at])
        decreases |data| - at
      {
        UptoNext(data, n);
        var end := if at + WRITE_CHUNK < |data| then at + WRITE_CHUNK else |data|;
        var chunk := data[at..end];
        if stream.honest {
          AppendedMore(d, handle, data[..at], chunk);
          assert data[..at] + chunk == data[..end];
        }
        ghost var before := answers;
        r := FileWrite(handle, chunk);
        LastOf(before, answers, k);
        WriteOn(before[k..], answers[|before|], Chunks(data));
        AfterAfter(num, n, 1);
        n := n + 1;
        if r.Err? {
          return r, n;
        }
        at := end;
      }
      UptoAll(data, n);
      AllWritten(answers[k..]);
      assert data[..at] == data;
      return Ok(()), n;
    }

    /** The part of `put_file` after the directory: creates the file, writes it and closes it again. */
    method WriteFile(path: seq<byte>, data: seq<byte>) returns (r: Result<()>, ghost stage: PutStage)
      requires Valid() && |path| < TWO_63
      modifies this`packetNum, this`log, this`answers, this`written, stream, stream.incoming
      ensures stage.Opened? ==> stage.writes <= Chunks(data)
      ensures Made(WriteTrace(old(packetNum), path, data, stage))
      ensures WriteOutcome(Chunks(data), answers[|old(answers)|..], stage, r)
      ensures stream.honest ==>
        var d, p := old(stream.dev), DevicePath(path);
        && (r.Ok? <==> HasFreeHandle(d))
        && stream.dev == if r.Ok? then d.(files := d.files[p := data]) else d
    {
      hide Accounted, After, HasFreeHandle, Le, Writes, Appended, Chunks, Opens, Expect, WrittenUpTo, WriteResult;
      ghost var d, p, num, t, was := stream.dev, DevicePath(path), packetNum, log, answers;
      stage := NotOpen;
      var open := FileOpen(path, FOPEN_WR);
      if open.Err? {
        WriteLog(t, num, path, data, stage);
        return Err(open.error), stage;
      }
      var handle := open.value;
      if stream.honest {
        FreshFile(d, p, handle, data);
      }
      ghost var started, n := answers, 0;
      r, n := WriteChunks(handle, data);
      ghost var wrote := answers;
      stage := Opened(handle, n);
      AfterAfter(num, 1, n);
      AfterAfter(num, n + 1, 1);
      var closed := FileClose(handle);
      WriteLog(t, num, path, data, stage);
      ThreeParts(was, started, wrote, answers);
      OnlyUnit(r);
      OnlyUnit(closed);
      if r.Ok? {
        r := closed;
      }
    }

    /** Uploads bytes, making the directory first. A faithful device then holds exactly them. */
    method PutFile(path: seq<byte>, data: seq<byte>) returns (r: Result<()>, ghost stage: PutStage)
      requires Valid() && |path| < TWO_63
      modifies this`packetNum, this`log, this`answers, this`written, stream, stream.incoming
      ensures stage.Opened? ==> stage.writes <= Chunks(data)
      ensures Made(PutTrace(old(packetNum), path, data, stage))
      ensures PutOutcome(path, Chunks(data), answers[|old(answers)|..], stage, r)
      ensures Settled(log[|old(log)|..], answers[|old(answers)|..])
      ensures stream.honest ==>
        var d, p := old(stream.dev), DevicePath(path);
        && (r.Ok? <==> HasFreeHandle(d))
        && stream.dev == if r.Ok? then d.(files := d.files[p := data]) else d
    {
      hide Accounted, After, HasFreeHandle, Le, Chunks, ParentDir, WriteTrace, WriteOutcome, MadeDir, Settled;
      ghost var num, k, t := packetNum, |answers|, log;
      var dir := ParentDir(path);
      AfterNone(num);
      stage := NoDir;
      if dir != [] {
        r := MakeDir(dir);
        if r.Err? {
          PutLog(t, num, path, data, stage);
          PutTraceCloses(num, path, data, answers[k..], stage, r);
          return;
        }
      }
      ghost var made := answers;
      r, stage := WriteFile(path, data);
      AfterAfter(num, 1, |answers| - |made|);
      assert dir != [] ==> answers[k..][1..] == answers[|made|..];
      PutLog(t, num, path, data, stage);
      PutTraceCloses(num, path, data, answers[k..], stage, r);
    }
  }

  lemma WriteLog(t: seq<Request>, num: u64, path: seq<byte>, data: seq<byte>, stage: PutStage)
    requires stage.Opened? ==> stage.writes <= Chunks(data)
    ensures var open, all := [OpenReq(After(num, 1), path, FOPEN_WR)], WriteTrace(num, path, data, stage);
      && (stage.NotOpen? ==> t + open == t + all)
      && (stage.Opened? ==>
        t + open + Writes(After(num, 1), stage.handle, data, stage.writes)
          + [CloseReq(After(num, stage.writes + 2), stage.handle)] == t + all)
  {
    if stage.Opened? {
      TraceLog(t, [OpenReq(After(num, 1), path, FOPEN_WR)], Writes(After(num, 1), stage.handle, data, stage.writes),
        CloseReq(After(num, stage.writes + 2), stage.handle));
    } else {
      assert [OpenReq(After(num, 1), path, FOPEN_WR)] + [] == [OpenReq(After(num, 1), path, FOPEN_WR)];
    }
  }

  lemma PutLog(t: seq<Request>, num: u64, path: seq<byte>, data: seq<byte>, stage: PutStage)
    requires stage.Opened? ==> stage.writes <= Chunks(data)
    ensures var dir, all := ParentDir(path), t + PutTrace(num, path, data, stage);
      if dir == [] then t + WriteTrace(num, path, data, stage) == all
      else t + [MakeDirReq(After(num, 1), dir)] + WriteTrace(After(num, 1), path, data, stage) == all
    ensures stage.NoDir? && ParentDir(path) != [] ==>
      t + [MakeDirReq(After(num, 1), ParentDir(path))] == t + PutTrace(num, path, data, stage)
  {}

  lemma TraceLog(was: seq<Request>, first: seq<Request>, uses: seq<Request>, close: Request)
    ensures was + first + uses + [close] == was + (first + (uses + [close]))
  {}

  lemma LastOf(was: seq<Result<Answer>>, now: seq<Result<Answer>>, k: nat)
    requires k <= |was| && was <= now && |now| == |was| + 1
    ensures now[k..] == was[k..] + [now[|was|]]
  {}

  lemma ThreeParts(a: seq<Result<Answer>>, b: seq<Result<Answer>>, c: seq<Result<Answer>>, d: seq<Result<Answer>>)
    requires a <= b <= c <= d && |b| == |a| + 1 && |d| == |c| + 1
    ensures var all := d[|a|..];
      && |all| == |c| - |b| + 2
      && all[0] == b[|a|] && all[1..|c| - |b| + 1] == c[|b|..] && all[|c| - |b| + 1] == d[|c|]
  {}

  /** A handle at the end of its file. */
  predicate Appending(d: Dev, h: u64) {
    && h in d.open && d.open[h].path in d.files
    && d.open[h].pos == |d.files[d.open[h].path]|
  }

  function Appended(d: Dev, h: u64, data: seq<byte>): Dev
    requires Appending(d, h)
  {
    Moved(d, h, |data|).(files := d.files[d.open[h].path := d.files[d.open[h].path] + data])
  }

  lemma AppendedNothing(d: Dev, h: u64)
    requires Appending(d, h)
    ensures Appended(d, h, []) == d
  {
    var p := d.open[h].path;
    MovedNowhere(d, h);
    assert d.files[p] + [] == d.files[p];
    assert d.files[p := d.files[p]] == d.files;
  }

  /** A write at the end of the file appends to it. */
  lemma AppendedMore(d: Dev, h: u64, a: seq<byte>, b: seq<byte>)
    requires Appending(d, h)
    ensures var m := Appended(d, h, a);
      && Appending(m, h)
      && Moved(m, h, |b|).(files := m.files[m.open[h].path := Overwritten(m.files[m.open[h].path], m.open[h].pos, b)])
        == Appended(d, h, a + b)
  {
    var m, p := Appended(d, h, a), d.open[h].path;
    var file := d.files[p];
    MovedAgain(d, h, |a|, |b|);
    assert Overwritten(file + a, |file + a|, b) == file + (a + b);
    assert m.files[p := file + (a + b)] == d.files[p := file + (a + b)];
  }

  /** Created, written and closed again: the file holds the data, and nothing else changed. */
  lemma FreshFile(d: Dev, p: seq<byte>, h: u64, data: seq<byte>)
    requires h !in d.open
    ensures var o := Dev(d.files[p := []], d.open[h := Handle(p, 0)]);
      && Appending(o, h)
      && var w := Appended(o, h, data);
        h in w.open && w.(open := w.open - {h}) == d.(files := d.files[p := data])
  {
    var o := Dev(d.files[p := []], d.open[h := Handle(p, 0)]);
    var w := Appended(o, h, data);
    assert [] + data == data;
    assert w.open - {h} == d.open;
    assert w.files == d.files[p := data];
  }

  /** How much of `data` the first `n` chunks hold. */
  function Upto(data: seq<byte>, n: nat): (k: nat)
    ensures k <= |data|
  {
    if n * WRITE_CHUNK < |data| then n * WRITE_CHUNK else |data|
  }

  lemma UptoEnds(data: seq<byte>)
    ensures Upto(data, 0) == 0 && data[..0] == []
  {}

  lemma UptoNext(data: seq<byte>, n: nat)
    requires Upto(data, n) < |data| && n <= Chunks(data)
    ensures n < Chunks(data) && n * WRITE_CHUNK < |data|
    ensures var at, end := Upto(data, n), Upto(data, n + 1);
      && end == (if at + WRITE_CHUNK < |data| then at + WRITE_CHUNK else |data|)
      && Chunk(data, n) == data[at..end]
  {}

  lemma UptoAll(data: seq<byte>, n: nat)
    requires Upto(data, n) == |data| && n <= Chunks(data)
    ensures n == Chunks(data)
  {}

  /** Opened, read to its end and closed again: the file's bytes, and nothing changed. */
  lemma WholeFile(d: Dev, p: seq<byte>, h: u64)
    requires h !in d.open && p in d.files
    ensures var o := Dev(d.files, d.open[h := Handle(p, 0)]);
      && h in o.open && o.open[h].path in o.files && Rest(o, h) == d.files[p]
      && forall n: nat :: h in Moved(o, h, n).open && Moved(o, h, n).(open := Moved(o, h, n).open - {h}) == d
  {
    var o := Dev(d.files, d.open[h := Handle(p, 0)]);
    forall n: nat ensures Moved(o, h, n).open - {h} == d.open {}
  }

  lemma AfterNone(num: u64)
    ensures After(num, 0) == num
  {}

  lemma MovedAgain(d: Dev, h: u64, a: nat, b: nat)
    requires h in d.open
    ensures h in Moved(d, h, a).open && Moved(d, h, a).open[h].path == d.open[h].path
    ensures Moved(Moved(d, h, a), h, b) == Moved(d, h, a + b)
  {
    assert Moved(Moved(d, h, a), h, b).open == Moved(d, h, a + b).open;
  }

  lemma RestMoved(d: Dev, h: u64, chunk: seq<byte>)
    requires h in d.open && d.open[h].path in d.files && chunk <= Rest(d, h)
    ensures var d' := Moved(d, h, |chunk|);
      h in d'.open && d'.open[h].path in d'.files && chunk + Rest(d', h) == Rest(d, h)
  {}

  /** Any part of a packet's three writes is a beginning of the packet. */
  lemma Joined(hdr: seq<byte>, args: seq<byte>, data: seq<byte>)
    ensures var all := hdr + (args + data);
      && hdr + args + data == all
      && (args == [] ==> hdr + args == hdr) && (data == [] ==> hdr + args == all)
      && hdr <= all
      && (forall x | x <= args :: hdr + x <= all)
      && (forall x | x <= data :: hdr + args + x <= all)
  {}

  lemma HeaderOfStream(s: seq<byte>)
    requires |s| >= HEADER_SIZE
    ensures var hdr := s[..HEADER_SIZE];
      && hdr[..8] == s[..8]
      && LeU64(hdr, 8) == LeU64(s, 8) && LeU64(hdr, 16) == LeU64(s, 16) && LeU64(hdr, 32) == LeU64(s, 32)
    ensures forall n | 0 <= n <= |s| - HEADER_SIZE ::
      s[HEADER_SIZE..][..n] == s[HEADER_SIZE..HEADER_SIZE + n] && s[HEADER_SIZE..][n..] == s[HEADER_SIZE + n..]
  {
    var hdr := s[..HEADER_SIZE];
    assert hdr[8..16] == s[8..16] && hdr[16..24] == s[16..24] && hdr[32..40] == s[32..40];
  }

  /** What was put is what is read, for every content, however the device cuts its replies. */
  method PutThenRead(client: AfcClient, path: seq<byte>, data: seq<byte>) returns (r: Result<seq<byte>>)
    requires client.Valid() && client.stream.honest && |path| < TWO_63
    requires HasFreeHandle(client.stream.dev)
    modifies client`packetNum, client`log, client`answers, client`written, client.stream, client.stream.incoming
    ensures r == Ok(data) && client.Valid()
    ensures client.stream.dev == old(client.stream.dev).(
      files := old(client.stream.dev).files[DevicePath(path) := data])
  {
    ghost var d := client.stream.dev;
    var put;
    ghost var stage, held, n;
    put, stage := client.PutFile(path, data);
    assert put.Ok?;
    SameHandles(d, client.stream.dev);
    hide HasFreeHandle;
    r, held, n := client.ReadFile(path);
  }

  lemma SameHandles(a: Dev, b: Dev)
    requires a.open == b.open
    ensures HasFreeHandle(a) == HasFreeHandle(b)
  {}
}
