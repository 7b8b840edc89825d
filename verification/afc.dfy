/** The packets of src/lockdown/services/afc.rs, and the requests that its transfers make. */
module Afc {
  import opened Bytes
  import opened Utf8
  import opened Wrappers

  /** "CFA6LPAA" */
  const MAGIC: seq<byte> := [67, 70, 65, 54, 76, 80, 65, 65]

  const HEADER_SIZE := 40
  const READ_CHUNK: u64 := 4 * 1024 * 1024
  const WRITE_CHUNK := 256 * 1024

  const OP_STATUS: u64 := 0x01
  const OP_DATA: u64 := 0x02
  const OP_MAKE_DIR: u64 := 0x09
  const OP_FILE_OPEN: u64 := 0x0d
  const OP_FILE_OPEN_RES: u64 := 0x0e
  const OP_FILE_READ: u64 := 0x0f
  const OP_FILE_WRITE: u64 := 0x10
  const OP_FILE_CLOSE: u64 := 0x14

  const FOPEN_RDONLY: u64 := 0x01
  const FOPEN_WR: u64 := 0x04

  const STATUS_SUCCESS: u64 := 0
  const STATUS_END_OF_DATA: u64 := 14
  const STATUS_OBJECT_EXISTS: u64 := 16

  // ---- packets ----

  datatype Request = Request(num: u64, op: u64, args: seq<byte>, data: seq<byte>)

  function HeaderBytes(entire: nat, here: nat, num: u64, op: u64): (h: seq<byte>)
    ensures |h| == HEADER_SIZE
  {
    MAGIC + Le(entire, 8) + Le(here, 8) + Le(num, 8) + Le(op, 8)
  }

  /** Header, arguments and data; both lengths count the header. */
  function PacketBytes(num: u64, op: u64, args: seq<byte>, data: seq<byte>): (out: seq<byte>) {
    var here := HEADER_SIZE + |args|;
    HeaderBytes(here + |data|, here, num, op) + (args + data)
  }

  function RequestBytes(r: Request): seq<byte> {
    PacketBytes(r.num, r.op, r.args, r.data)
  }

  /** Zero when fewer than eight bytes are left. */
  function LeU64(buf: seq<byte>, offset: nat): u64 {
    if |buf| < offset + 8 then 0 else U64At(buf, offset)
  }

  /** The fields of a header. */
  predicate IsHeader(h: seq<byte>, entire: u64, here: u64, num: u64, op: u64) {
    && |h| >= HEADER_SIZE
    && h[..8] == MAGIC
    && LeU64(h, 8) == entire && LeU64(h, 16) == here && LeU64(h, 24) == num && LeU64(h, 32) == op
  }

  lemma FieldsAt(m: seq<byte>, a: seq<byte>, b: seq<byte>, c: seq<byte>, d: seq<byte>, rest: seq<byte>)
    requires |m| == |a| == |b| == |c| == |d| == 8
    ensures var h := m + a + b + c + d + rest;
      h[..8] == m && At(h, 8, a) && At(h, 16, b) && At(h, 24, c) && At(h, 32, d)
  {}

  lemma HeaderReadsBack(entire: u64, here: u64, num: u64, op: u64, rest: seq<byte>)
    ensures IsHeader(HeaderBytes(entire, here, num, op) + rest, entire, here, num, op)
  {
    hide Le, ReadLe, U64At, At;
    var h := HeaderBytes(entire, here, num, op) + rest;
    FieldsAt(MAGIC, Le(entire, 8), Le(here, 8), Le(num, 8), Le(op, 8), rest);
    U64OfLe(h, 8, entire);
    U64OfLe(h, 16, here);
    U64OfLe(h, 24, num);
    U64OfLe(h, 32, op);
  }

  lemma PacketParts(num: u64, op: u64, args: seq<byte>, data: seq<byte>)
    requires HEADER_SIZE + |args| + |data| < TWO_64
    ensures var b, here := PacketBytes(num, op, args, data), HEADER_SIZE + |args|;
      && |b| == here + |data|
      && IsHeader(b, here + |data|, here, num, op)
      && b[HEADER_SIZE..here] == args && b[here..] == data && b[HEADER_SIZE..] == args + data
  {
    var b, here := PacketBytes(num, op, args, data), HEADER_SIZE + |args|;
    HeaderReadsBack(here + |data|, here, num, op, args + data);
    hide HeaderBytes, IsHeader;
    assert b[HEADER_SIZE..] == args + data;
    assert b[HEADER_SIZE..here] == b[HEADER_SIZE..][..|args|];
    assert b[here..] == b[HEADER_SIZE..][|args|..];
  }

  /** What a device reads out of the bytes of one request. */
  function ParseRequest(b: seq<byte>): Option<Request> {
    if |b| < 40 || b[..8] != [67, 70, 65, 54, 76, 80, 65, 65] then None
    else
      var here := LeU64(b, 16);
      if 40 <= here <= |b| && LeU64(b, 8) == |b| then
        Some(Request(LeU64(b, 24), LeU64(b, 32), b[40..here], b[here..]))
      else None
  }

  /** A device reads exactly the request that was sent. */
  lemma RequestReadsBack(r: Request)
    requires HEADER_SIZE + |r.args| + |r.data| < TWO_64
    ensures ParseRequest(RequestBytes(r)) == Some(r)
  {
    PacketParts(r.num, r.op, r.args, r.data);
    hide PacketBytes;
  }

  // ---- answers ----

  datatype Error = Io | Closed | BadMagic | Status(code: u64) | UnexpectedOp(op: u64)

  datatype Result<+T> = Ok(value: T) | Err(error: Error)

  datatype Answer = Answer(op: u64, payload: seq<byte>)

  datatype Reply = Reply(op: u64, args: seq<byte>, data: seq<byte>)

  /** How many bytes follow a response's header. */
  function PayloadLen(entire: u64, here: u64): nat {
    (if here < HEADER_SIZE then 0 else here - HEADER_SIZE) + (if entire < here then 0 else entire - here)
  }

  /** Lengths that contradict each other count as far as they go beyond one another. */
  lemma PayloadBetween(entire: u64, here: u64)
    ensures PayloadLen(entire, here) + (if here < 40 then here else 40) == if entire < here then here else entire
  {}

  /** What is read from an incoming stream, and what is left of it. */
  function Recv(s: seq<byte>): (r: (Result<Answer>, seq<byte>))
    ensures |r.1| <= |s|
    ensures r.0.Ok? ==> |r.1| + HEADER_SIZE <= |s|
    ensures r.0 != Err(Io)
  {
    if |s| < HEADER_SIZE then (Err(Closed), [])
    else if s[..8] != MAGIC then (Err(BadMagic), s[HEADER_SIZE..])
    else
      var end := HEADER_SIZE + PayloadLen(LeU64(s, 8), LeU64(s, 16));
      if |s| < end then (Err(Closed), [])
      else (Ok(Answer(LeU64(s, 32), s[HEADER_SIZE..end])), s[end..])
  }

  /** A reply is read whole, whichever of its parts the payload travels in. */
  lemma ReplyReadsBack(num: u64, reply: Reply)
    requires HEADER_SIZE + |reply.args| + |reply.data| < TWO_64
    ensures Recv(PacketBytes(num, reply.op, reply.args, reply.data))
      == (Ok(Answer(reply.op, reply.args + reply.data)), [])
  {
    PacketParts(num, reply.op, reply.args, reply.data);
    hide PacketBytes;
    var b := PacketBytes(num, reply.op, reply.args, reply.data);
    assert b[..|b|] == b;
  }

  /** A reply cut short anywhere closes the connection. */
  lemma ReplyCut(num: u64, reply: Reply, k: nat)
    requires HEADER_SIZE + |reply.args| + |reply.data| < TWO_64
    requires k < |PacketBytes(num, reply.op, reply.args, reply.data)|
    ensures Recv(PacketBytes(num, reply.op, reply.args, reply.data)[..k]) == (Err(Closed), [])
  {
    PacketParts(num, reply.op, reply.args, reply.data);
    hide PacketBytes, ReadLe;
    var b := PacketBytes(num, reply.op, reply.args, reply.data);
    if k >= HEADER_SIZE {
      var s := b[..k];
      assert s[..8] == b[..8] && s[8..16] == b[8..16] && s[16..24] == b[16..24] && s[32..40] == b[32..40];
    }
  }

  // ---- what each call makes of an answer ----

  function StatusOf(a: Answer): u64 {
    LeU64(a.payload, 0)
  }

  function Expect(a: Result<Answer>): Result<()> {
    match a
    case Err(e) => Err(e)
    case Ok(ans) =>
      if ans.op != OP_STATUS then Err(UnexpectedOp(ans.op))
      else if StatusOf(ans) == STATUS_SUCCESS then Ok(())
      else Err(Status(StatusOf(ans)))
  }

  function MadeDir(a: Result<Answer>): Result<()> {
    match a
    case Err(e) => Err(e)
    case Ok(ans) =>
      if ans.op != OP_STATUS then Err(UnexpectedOp(ans.op))
      else if StatusOf(ans) == STATUS_SUCCESS || StatusOf(ans) == STATUS_OBJECT_EXISTS then Ok(())
      else Err(Status(StatusOf(ans)))
  }

  function Opens(a: Result<Answer>): Result<u64> {
    match a
    case Err(e) => Err(e)
    case Ok(ans) =>
      if ans.op == OP_FILE_OPEN_RES then Ok(LeU64(ans.payload, 0))
      else if ans.op == OP_STATUS then Err(Status(StatusOf(ans)))
      else Err(UnexpectedOp(ans.op))
  }

  function ReadsOf(a: Result<Answer>): Result<seq<byte>> {
    match a
    case Err(e) => Err(e)
    case Ok(ans) =>
      if ans.op == OP_DATA then Ok(ans.payload)
      else if ans.op != OP_STATUS then Err(UnexpectedOp(ans.op))
      else if StatusOf(ans) == STATUS_SUCCESS || StatusOf(ans) == STATUS_END_OF_DATA then Ok([])
      else Err(Status(StatusOf(ans)))
  }

  /**
   * Which answers are successes; any other status is the failure it says, and any
   * other answer is one that was not expected.
   */
  lemma Successes(a: Answer)
    ensures var status := if |a.payload| < 8 then 0 else ReadLe(a.payload[..8]);
      var failure := if a.op == 1 then Status(status) else UnexpectedOp(a.op);
      && Expect(Ok(a)) == (if a.op == 1 && status == 0 then Ok(()) else Err(failure))
      && MadeDir(Ok(a)) == (if a.op == 1 && status in {0, 16} then Ok(()) else Err(failure))
      && Opens(Ok(a)) == (if a.op == 14 then Ok(status) else Err(failure))
      && ReadsOf(Ok(a)) == (
        if a.op == 2 then Ok(a.payload) else if a.op == 1 && status in {0, 14} then Ok([]) else Err(failure))
  {
    assert LeU64(a.payload, 0) == if |a.payload| < 8 then 0 else ReadLe(a.payload[..8]);
    hide LeU64;
  }

  // ---- the requests ----

  function NulStr(s: seq<byte>): seq<byte> {
    s + [0]
  }

  /** A path as the device sees it: up to its first NUL. */
  function DevicePath(path: seq<byte>): seq<byte> {
    path[..NulIndex(path)]
  }

  function OpenReq(num: u64, path: seq<byte>, mode: u64): Request {
    Request(num, OP_FILE_OPEN, Le(mode, 8) + NulStr(path), [])
  }

  function MakeDirReq(num: u64, path: seq<byte>): Request {
    Request(num, OP_MAKE_DIR, NulStr(path), [])
  }

  function ReadReq(num: u64, handle: u64, size: u64): Request {
    Request(num, OP_FILE_READ, Le(handle, 8) + Le(size, 8), [])
  }

  function WriteReq(num: u64, handle: u64, data: seq<byte>): Request {
    Request(num, OP_FILE_WRITE, Le(handle, 8), data)
  }

  function CloseReq(num: u64, handle: u64): Request {
    Request(num, OP_FILE_CLOSE, Le(handle, 8), [])
  }

  lemma HandleReadsBack(h: u64)
    ensures LeU64(Le(h, 8), 0) == h
  {
    U64OfLe(Le(h, 8), 0, h);
  }

  lemma LeFirst(n: u64, rest: seq<byte>)
    ensures LeU64(Le(n, 8) + rest, 0) == n && (Le(n, 8) + rest)[8..] == rest
  {
    assert (Le(n, 8) + rest)[0..8] == Le(n, 8);
    U64OfLe(Le(n, 8) + rest, 0, n);
  }

  /** The number after `i` more requests; it wraps. */
  function After(num: u64, i: nat): u64 {
    (num + i) % TWO_64
  }

  /** `n` reads of 4 MiB, numbered on from `num`. */
  function Reads(num: u64, handle: u64, n: nat): (t: seq<Request>)
    ensures |t| == n
  {
    if n == 0 then [] else Reads(num, handle, n - 1) + [ReadReq(After(num, n), handle, 0x40_0000)]
  }

  /** The 256 KiB of `data` that write `k` carries. */
  function Chunk(data: seq<byte>, k: nat): (c: seq<byte>)
    requires k * 0x4_0000 < |data|
    ensures 0 < |c| <= 0x4_0000
  {
    var end := (k + 1) * 0x4_0000;
    data[k * 0x4_0000..if end < |data| then end else |data|]
  }

  function Chunks(data: seq<byte>): (n: nat)
    ensures (n - 1) * 0x4_0000 < |data| <= n * 0x4_0000
  {
    (|data| + 0x4_0000 - 1) / 0x4_0000
  }

  /** The writes of the first `n` chunks, numbered on from `num`. */
  function Writes(num: u64, handle: u64, data: seq<byte>, n: nat): (t: seq<Request>)
    requires n <= Chunks(data)
    ensures |t| == n
  {
    if n == 0 then []
    else Writes(num, handle, data, n - 1) + [WriteReq(After(num, n), handle, Chunk(data, n - 1))]
  }

  /** All requests of a `read_file`: one that opens, reads, one that closes what was opened. */
  function ReadTrace(num: u64, path: seq<byte>, held: Option<u64>, n: nat): (t: seq<Request>) {
    [OpenReq(After(num, 1), path, FOPEN_RDONLY)]
    + if held.None? then [] else
        Reads(After(num, 1), held.value, n) + [CloseReq(After(num, n + 2), held.value)]
  }

  /** The directory part that `put_file` creates first; none for an empty one. */
  function ParentDir(path: seq<byte>): (dir: seq<byte>)
    ensures |dir| <= |path|
    decreases |path|
  {
    if path == [] then []
    else if path[|path| - 1] == 47 then path[..|path| - 1]
    else ParentDir(path[..|path| - 1])
  }

  /** It is what stands before the last slash. */
  lemma {:induction false} ParentDirIs(path: seq<byte>, i: nat)
    ensures 47 !in path ==> ParentDir(path) == []
    ensures i < |path| && path[i] == 47 && 47 !in path[i + 1..] ==> ParentDir(path) == path[..i]
    decreases |path|
  {
    if path != [] {
      var n := |path| - 1;
      var front := path[..n];
      assert path == front + [path[n]];
      if i < n && path[i] == 47 && 47 !in path[i + 1..] {
        assert path[n] in path[i + 1..];
        assert path[i + 1..] == front[i + 1..] + [path[n]];
        assert front[..i] == path[..i];
      }
      ParentDirIs(front, i);
    }
  }

  /** How far a `put_file` came. */
  datatype PutStage = NoDir | NotOpen | Opened(handle: u64, writes: nat)

  /** The requests of a `put_file` after the directory's. */
  function WriteTrace(num: u64, path: seq<byte>, data: seq<byte>, stage: PutStage): (t: seq<Request>)
    requires stage.Opened? ==> stage.writes <= Chunks(data)
  {
    if stage.NoDir? then []
    else
      [OpenReq(After(num, 1), path, FOPEN_WR)]
      + if stage.NotOpen? then [] else
          Writes(After(num, 1), stage.handle, data, stage.writes)
          + [CloseReq(After(num, stage.writes + 2), stage.handle)]
  }

  /** All requests of a `put_file`. */
  function PutTrace(num: u64, path: seq<byte>, data: seq<byte>, stage: PutStage): (t: seq<Request>)
    requires stage.Opened? ==> stage.writes <= Chunks(data)
  {
    var dir := ParentDir(path);
    if dir == [] then WriteTrace(num, path, data, stage)
    else [MakeDirReq(After(num, 1), dir)] + WriteTrace(After(num, 1), path, data, stage)
  }

  // ---- what was sent and what came back ----

  function Wire(t: seq<Request>): seq<byte> {
    if t == [] then [] else Wire(t[..|t| - 1]) + RequestBytes(t[|t| - 1])
  }

  predicate NoIo(a: seq<Result<Answer>>) {
    forall i | 0 <= i < |a| :: a[i] != Err(Io)
  }

  /** How many requests could not be written. */
  function IoCount(a: seq<Result<Answer>>): nat {
    if a == [] then 0 else IoCount(a[..|a| - 1]) + if a[|a| - 1] == Err(Io) then 1 else 0
  }

  /** What is left of a stream after these answers, if it gave them one after the other. */
  function Replay(s: seq<byte>, a: seq<Result<Answer>>): Option<seq<byte>> {
    if a == [] then Some(s)
    else
      var last := a[|a| - 1];
      match Replay(s, a[..|a| - 1])
      case None => None
      case Some(now) =>
        if last == Err(Io) then Some(now)
        else if last == Recv(now).0 then Some(Recv(now).1)
        else None
  }

  /** The part of each request that was written: all of it, unless that failed. */
  ghost predicate Outgoing(t: seq<Request>, a: seq<Result<Answer>>, out: seq<seq<byte>>) {
    && |t| == |a| == |out|
    && forall i | 0 <= i < |t| :: out[i] <= RequestBytes(t[i]) && (a[i] != Err(Io) ==> out[i] == RequestBytes(t[i]))
  }

  lemma OneMore(
      t: seq<Request>, r: Request, a: seq<Result<Answer>>, x: Result<Answer>, out: seq<seq<byte>>, part: seq<byte>)
    requires Outgoing(t, a, out)
    requires part <= RequestBytes(r) && (x != Err(Io) ==> part == RequestBytes(r))
    ensures Outgoing(t + [r], a + [x], out + [part])
    ensures Concat(out + [part]) == Concat(out) + part
    ensures IoCount(a + [x]) == IoCount(a) + if x == Err(Io) then 1 else 0
  {
    hide RequestBytes;
    ConcatSnoc(out, part);
    assert (a + [x])[..|a|] == a;
  }

  lemma ReplayMore(s: seq<byte>, a: seq<Result<Answer>>, x: Result<Answer>)
    requires Replay(s, a).Some?
    ensures var now := Replay(s, a).value;
      && (x == Err(Io) ==> Replay(s, a + [x]) == Some(now))
      && (x == Recv(now).0 ==> Replay(s, a + [x]) == Some(Recv(now).1))
  {
    assert (a + [x])[..|a|] == a;
  }

  lemma {:induction false} CountsAdd(a: seq<Result<Answer>>, k: nat)
    requires k <= |a|
    ensures IoCount(a) == IoCount(a[..k]) + IoCount(a[k..])
  {
    if k < |a| {
      var n := |a| - 1;
      assert a[..n][..k] == a[..k] && a[..n][k..] == a[k..][..n - k];
      CountsAdd(a[..n], k);
    } else {
      assert a[..k] == a;
    }
  }

  /** Later answers are read from what earlier ones left. */
  lemma {:induction false} ReplaySplit(s: seq<byte>, a: seq<Result<Answer>>, k: nat)
    requires k <= |a| && Replay(s, a).Some?
    ensures Replay(s, a[..k]).Some? && Replay(s, a) == Replay(Replay(s, a[..k]).value, a[k..])
  {
    hide Recv;
    if k < |a| {
      var n := |a| - 1;
      assert a[..n][..k] == a[..k] && a[..n][k..] == a[k..][..n - k];
      ReplaySplit(s, a[..n], k);
    } else {
      assert a[..k] == a;
    }
  }

  /** Requests that could all be written are on the wire. */
  lemma {:induction false} AllOnWire(t: seq<Request>, a: seq<Result<Answer>>, out: seq<seq<byte>>, k: nat)
    requires Outgoing(t, a, out) && k <= |t| && NoIo(a[k..])
    ensures Concat(out) == Concat(out[..k]) + Wire(t[k..])
  {
    hide RequestBytes;
    if k == |t| {
      assert out[..k] == out && t[k..] == [];
      return;
    }
    var n := |t| - 1;
    assert a[..n][k..] == a[k..][..n - k] && t[..n][k..] == t[k..][..n - k];
    assert out[..n][..k] == out[..k];
    AllOnWire(t[..n], a[..n], out[..n], k);
    ConcatSnoc(out[..n], out[n]);
    assert out[..n] + [out[n]] == out;
    assert a[k..][n - k] == a[n];
    Regroup(Concat(out[..k]), Wire(t[..n][k..]), RequestBytes(t[n]));
  }

  // ---- what the answers make of a transfer ----

  predicate GaveBytes(a: seq<Result<Answer>>) {
    forall i | 0 <= i < |a| :: ReadsOf(a[i]).Ok? && ReadsOf(a[i]).value != []
  }

  /** All that was read. */
  function Gathered(a: seq<Result<Answer>>): seq<byte>
    requires GaveBytes(a)
  {
    if a == [] then [] else Gathered(a[..|a| - 1]) + ReadsOf(a[|a| - 1]).value
  }

  /** Reads that all gave bytes, and a last one that failed or gave none. */
  predicate ReadToEnd(a: seq<Result<Answer>>) {
    && |a| > 0
    && GaveBytes(a[..|a| - 1])
    && (ReadsOf(a[|a| - 1]).Err? || ReadsOf(a[|a| - 1]).value == [])
  }

  function ReadResult(a: seq<Result<Answer>>): Result<seq<byte>>
    requires ReadToEnd(a)
  {
    var last := ReadsOf(a[|a| - 1]);
    if last.Err? then last else Ok(Gathered(a[..|a| - 1]))
  }

  lemma NothingRead()
    ensures GaveBytes([]) && Gathered([]) == []
  {}

  /** One more read: bytes to go on with, or the end. */
  lemma ReadOn(a: seq<Result<Answer>>, x: Result<Answer>)
    requires GaveBytes(a)
    ensures var more, all := ReadsOf(x), a + [x];
      if more.Ok? && more.value != [] then GaveBytes(all) && Gathered(all) == Gathered(a) + more.value
      else ReadToEnd(all) && ReadResult(all) == if more.Err? then more else Ok(Gathered(a))
  {
    assert (a + [x])[..|a|] == a;
    hide ReadsOf;
  }

  /** The outcome, if closing went well. */
  function Closing<T>(r: Result<T>, closed: Result<()>): Result<T> {
    if r.Ok? && closed.Err? then Err(closed.error) else r
  }

  /** What a `read_file` holds, how often it reads and what it returns, given all its answers. */
  ghost predicate ReadOutcome(a: seq<Result<Answer>>, held: Option<u64>, n: nat, r: Result<seq<byte>>) {
    && |a| > 0
    && match Opens(a[0])
       case Err(e) => |a| == 1 && held == None && r == Err(e)
       case Ok(h) =>
         && |a| == n + 2 && held == Some(h)
         && ReadToEnd(a[1..n + 1])
         && r == Closing(ReadResult(a[1..n + 1]), Expect(a[n + 1]))
  }

  predicate AllDone(a: seq<Result<Answer>>) {
    forall i | 0 <= i < |a| :: Expect(a[i]).Ok?
  }

  /** Writes that succeeded: all of them, or as many as came before one that failed. */
  predicate WrittenUpTo(a: seq<Result<Answer>>, all: nat) {
    if |a| > 0 && Expect(a[|a| - 1]).Err? then |a| <= all && AllDone(a[..|a| - 1])
    else |a| == all && AllDone(a)
  }

  function WriteResult(a: seq<Result<Answer>>): Result<()> {
    if a == [] then Ok(()) else Expect(a[|a| - 1])
  }

  lemma NothingWritten()
    ensures AllDone([])
  {}

  /** One more write: go on, or the failure that ends it. */
  lemma WriteOn(a: seq<Result<Answer>>, x: Result<Answer>, all: nat)
    requires AllDone(a) && |a| < all
    ensures if Expect(x).Ok? then AllDone(a + [x])
      else WrittenUpTo(a + [x], all) && WriteResult(a + [x]) == Expect(x)
  {
    assert (a + [x])[..|a|] == a;
    hide Expect;
  }

  lemma AllWritten(a: seq<Result<Answer>>)
    requires AllDone(a)
    ensures WrittenUpTo(a, |a|) && WriteResult(a) == Ok(())
  {
    if a != [] {
      OnlyUnit(Expect(a[|a| - 1]));
    }
    hide Expect;
  }

  lemma OnlyUnit(r: Result<()>)
    ensures r.Ok? ==> r == Ok(())
  {
    if r.Ok? {
      assert r.value == ();
    }
  }

  ghost predicate WriteOutcome(all: nat, a: seq<Result<Answer>>, stage: PutStage, r: Result<()>) {
    && |a| > 0
    && match Opens(a[0])
       case Err(e) => |a| == 1 && stage == NotOpen && r == Err(e)
       case Ok(h) =>
         && stage.Opened? && stage.handle == h && |a| == stage.writes + 2
         && WrittenUpTo(a[1..stage.writes + 1], all)
         && r == Closing(WriteResult(a[1..stage.writes + 1]), Expect(a[stage.writes + 1]))
  }

  /** How far a `put_file` of `all` chunks comes and what it returns, given all its answers. */
  ghost predicate PutOutcome(path: seq<byte>, all: nat, a: seq<Result<Answer>>, stage: PutStage, r: Result<()>) {
    if ParentDir(path) == [] then WriteOutcome(all, a, stage, r)
    else
      && |a| > 0
      && if MadeDir(a[0]).Err? then |a| == 1 && stage == NoDir && r == MadeDir(a[0])
         else WriteOutcome(all, a[1..], stage, r)
  }

  // ---- every handle opened is closed once, and used in between only ----

  function FirstArg(r: Request): u64 {
    LeU64(r.args, 0)
  }

  /** The handles held after one more request and its answer; None if it uses one that is not. */
  function HeldNext(m: multiset<u64>, r: Request, a: Result<Answer>): Option<multiset<u64>> {
    if r.op == OP_FILE_OPEN then Some(if Opens(a).Ok? then m + multiset{Opens(a).value} else m)
    else if r.op == OP_FILE_READ || r.op == OP_FILE_WRITE then if FirstArg(r) in m then Some(m) else None
    else if r.op == OP_FILE_CLOSE then if FirstArg(r) in m then Some(m - multiset{FirstArg(r)}) else None
    else Some(m)
  }

  function Held(m: multiset<u64>, t: seq<Request>, a: seq<Result<Answer>>): Option<multiset<u64>>
    requires |t| == |a|
  {
    if t == [] then Some(m)
    else
      var n := |t| - 1;
      match Held(m, t[..n], a[..n])
      case None => None
      case Some(now) => HeldNext(now, t[n], a[n])
  }

  /** All that was opened has been closed, and no handle was used before it was opened or after it was closed. */
  predicate Settled(t: seq<Request>, a: seq<Result<Answer>>) {
    |t| == |a| && Held(multiset{}, t, a) == Some(multiset{})
  }

  /** How many requests close a handle. */
  function CloseCount(t: seq<Request>, handle: u64): nat {
    if t == [] then 0
    else
      var r := t[|t| - 1];
      CloseCount(t[..|t| - 1], handle) + if r.op == OP_FILE_CLOSE && FirstArg(r) == handle then 1 else 0
  }

  /** How many requests were answered with a handle to open. */
  function OpenCount(t: seq<Request>, a: seq<Result<Answer>>, handle: u64): nat
    requires |t| == |a|
  {
    if t == [] then 0
    else
      var n := |t| - 1;
      OpenCount(t[..n], a[..n], handle) + if t[n].op == OP_FILE_OPEN && Opens(a[n]) == Ok(handle) then 1 else 0
  }

  /** What is held is what was opened and not closed. */
  lemma {:induction false} HeldCounts(t: seq<Request>, a: seq<Result<Answer>>, handle: u64)
    requires |t| == |a| && Held(multiset{}, t, a).Some?
    ensures Held(multiset{}, t, a).value[handle] + CloseCount(t, handle) == OpenCount(t, a, handle)
  {
    hide Opens, FirstArg;
    if t != [] {
      HeldCounts(t[..|t| - 1], a[..|a| - 1], handle);
    }
  }

  /** In a settled exchange each handle is closed as often as a device gave it out. */
  lemma SettledCounts(t: seq<Request>, a: seq<Result<Answer>>, handle: u64)
    requires Settled(t, a)
    ensures CloseCount(t, handle) == OpenCount(t, a, handle)
  {
    HeldCounts(t, a, handle);
  }

  lemma {:induction false} HeldAppend(m: multiset<u64>, t: seq<Request>, u: seq<Request>, a: seq<Result<Answer>>)
    requires |t + u| == |a| && Held(m, t, a[..|t|]).Some?
    ensures Held(m, t + u, a) == Held(Held(m, t, a[..|t|]).value, u, a[|t|..])
  {
    hide HeldNext;
    if u == [] {
      assert t + u == t && a[..|t|] == a;
    } else {
      var n := |a| - 1;
      assert (t + u)[..n] == t + u[..|u| - 1];
      assert a[..n][..|t|] == a[..|t|];
      assert a[..n][|t|..] == a[|t|..][..|u| - 1];
      HeldAppend(m, t, u[..|u| - 1], a[..n]);
    }
  }

  lemma HeldOne(m: multiset<u64>, r: Request, a: Result<Answer>)
    ensures Held(m, [r], [a]) == HeldNext(m, r, a)
  {
    assert Held(m, [r][..0], [a][..0]) == Some(m);
  }

  /** Requests that only read and write through a handle leave it held. */
  lemma {:induction false} UsesKeep(h: u64, t: seq<Request>, a: seq<Result<Answer>>)
    requires |t| == |a| && UsesOnly(t, h)
    ensures Held(multiset{h}, t, a) == Some(multiset{h})
  {
    hide FirstArg;
    if t != [] {
      UsesKeep(h, t[..|t| - 1], a[..|a| - 1]);
    }
  }

  predicate UsesOnly(t: seq<Request>, h: u64) {
    forall i | 0 <= i < |t| :: (t[i].op == OP_FILE_READ || t[i].op == OP_FILE_WRITE) && FirstArg(t[i]) == h
  }

  /** Opened, used and closed. */
  lemma OpenUseClose(open: Request, uses: seq<Request>, close: Request, h: u64, a: seq<Result<Answer>>)
    requires |a| == |uses| + 2
    requires open.op == OP_FILE_OPEN && Opens(a[0]) == Ok(h)
    requires UsesOnly(uses, h)
    requires close.op == OP_FILE_CLOSE && FirstArg(close) == h
    ensures Settled([open] + (uses + [close]), a)
  {
    hide Opens, FirstArg, UsesOnly;
    var n := |uses|;
    HeldOne(multiset{}, open, a[0]);
    assert a[..1] == [a[0]] && multiset{} + multiset{h} == multiset{h};
    HeldAppend(multiset{}, [open], uses + [close], a);
    UsesKeep(h, uses, a[1..][..n]);
    HeldAppend(multiset{h}, uses, [close], a[1..]);
    assert a[1..][n..] == [a[n + 1]] && multiset{h} - multiset{h} == multiset{};
    HeldOne(multiset{h}, close, a[n + 1]);
  }

  lemma OpenFails(open: Request, a: Result<Answer>)
    requires open.op == OP_FILE_OPEN && Opens(a).Err?
    ensures Settled([open], [a])
  {
    HeldOne(multiset{}, open, a);
  }

  predicate Numbered(t: seq<Request>, num: u64) {
    forall i | 0 <= i < |t| :: t[i].num == After(num, i + 1)
  }

  lemma AfterAfter(num: u64, i: nat, j: nat)
    ensures After(After(num, i), j) == After(num, i + j)
  {}

  lemma NumberedAppend(a: seq<Request>, b: seq<Request>, num: u64)
    requires Numbered(a, num) && Numbered(b, After(num, |a|))
    ensures Numbered(a + b, num)
  {
    forall i | 0 <= i < |a + b| ensures (a + b)[i].num == After(num, i + 1) {
      if i >= |a| {
        AfterAfter(num, |a|, i - |a| + 1);
        assert (a + b)[i] == b[i - |a|];
      }
    }
  }

  lemma {:induction false} ReadsUse(num: u64, handle: u64, n: nat)
    ensures Numbered(Reads(num, handle, n), num) && UsesOnly(Reads(num, handle, n), handle)
  {
    LeFirst(handle, Le(0x40_0000, 8));
    hide After, Le, LeU64;
    if n > 0 {
      ReadsUse(num, handle, n - 1);
    }
  }

  lemma {:induction false} WritesUse(num: u64, handle: u64, data: seq<byte>, n: nat)
    requires n <= Chunks(data)
    ensures Numbered(Writes(num, handle, data, n), num) && UsesOnly(Writes(num, handle, data, n), handle)
  {
    HandleReadsBack(handle);
    hide After, Le, LeU64;
    if n > 0 {
      WritesUse(num, handle, data, n - 1);
    }
  }

  /** Opened, used and closed with consecutive numbers. */
  lemma NumberedUses(open: Request, uses: seq<Request>, close: Request, num: u64)
    requires open.num == After(num, 1) && Numbered(uses, After(num, 1)) && close.num == After(num, |uses| + 2)
    ensures Numbered([open] + (uses + [close]), num)
  {
    hide After;
    AfterAfter(num, 1, |uses| + 1);
    AfterAfter(After(num, 1), |uses|, 1);
    AfterAfter(num, 1, |uses|);
    assert Numbered([open], num);
    assert Numbered([close], After(After(num, 1), |uses|));
    hide Numbered;
    NumberedAppend(uses, [close], After(num, 1));
    NumberedAppend([open], uses + [close], num);
  }

  /** However a `read_file` ends: the handle the device gave is closed once, after all reads, and nothing else is. */
  lemma ReadTraceCloses(
      num: u64, path: seq<byte>, held: Option<u64>, n: nat, a: seq<Result<Answer>>, r: Result<seq<byte>>)
    requires ReadOutcome(a, held, n, r)
    ensures Settled(ReadTrace(num, path, held, n), a)
    ensures Numbered(ReadTrace(num, path, held, n), num)
  {
    var open := OpenReq(After(num, 1), path, FOPEN_RDONLY);
    if held.Some? {
      var reading := Reads(After(num, 1), held.value, n);
      var close := CloseReq(After(num, n + 2), held.value);
      ReadsUse(After(num, 1), held.value, n);
      HandleReadsBack(held.value);
      hide After, Le, LeU64, Reads, ReadResult, ReadToEnd;
      OpenUseClose(open, reading, close, held.value, a);
      NumberedUses(open, reading, close, num);
    } else {
      OpenFails(open, a[0]);
      hide Opens, Held, Numbered;
      assert a == [a[0]];
      assert [open] + [] == [open];
    }
  }

  lemma WriteTraceCloses(
      num: u64, path: seq<byte>, data: seq<byte>, a: seq<Result<Answer>>, stage: PutStage, r: Result<()>)
    requires stage.Opened? ==> stage.writes <= Chunks(data)
    requires WriteOutcome(Chunks(data), a, stage, r)
    ensures Settled(WriteTrace(num, path, data, stage), a)
    ensures Numbered(WriteTrace(num, path, data, stage), num)
  {
    var open := OpenReq(After(num, 1), path, FOPEN_WR);
    if stage.Opened? {
      var n := stage.writes;
      var writing := Writes(After(num, 1), stage.handle, data, n);
      var close := CloseReq(After(num, n + 2), stage.handle);
      WritesUse(After(num, 1), stage.handle, data, n);
      HandleReadsBack(stage.handle);
      hide After, Le, LeU64, Writes, WriteResult, WrittenUpTo, Chunks;
      OpenUseClose(open, writing, close, stage.handle, a);
      NumberedUses(open, writing, close, num);
    } else {
      OpenFails(open, a[0]);
      hide Opens, Held, Numbered;
      assert a == [a[0]];
      assert [open] + [] == [open];
    }
  }

  /** However a `put_file` ends: the handle the device gave is closed once, after all writes, and nothing else is. */
  lemma PutTraceCloses(
      num: u64, path: seq<byte>, data: seq<byte>, a: seq<Result<Answer>>, stage: PutStage, r: Result<()>)
    requires stage.Opened? ==> stage.writes <= Chunks(data)
    requires PutOutcome(path, Chunks(data), a, stage, r)
    ensures Settled(PutTrace(num, path, data, stage), a)
    ensures Numbered(PutTrace(num, path, data, stage), num)
  {
    hide After, Le, LeU64, Writes, Chunks, ParentDir, WriteOutcome;
    var dir := ParentDir(path);
    if dir == [] {
      WriteTraceCloses(num, path, data, a, stage, r);
    } else {
      var make := MakeDirReq(After(num, 1), dir);
      var rest := WriteTrace(After(num, 1), path, data, stage);
      HeldOne(multiset{}, make, a[0]);
      assert a[..1] == [a[0]];
      if MadeDir(a[0]).Err? {
        assert [make] + [] == [make];
        assert a == [a[0]];
      } else {
        WriteTraceCloses(After(num, 1), path, data, a[1..], stage, r);
        hide Held, Numbered, WriteTrace;
        HeldAppend(multiset{}, [make], rest, a);
        NumberedAppend([make], rest, num);
      }
    }
  }
}
