/** A device on the other end of a file conduit: a faithful one, or one that answers anything at all. */
module AfcDevice {
  import opened Afc
  import opened Bytes
  import opened Stream
  import opened Wrappers

  datatype Handle = Handle(path: seq<byte>, pos: nat)

  datatype Dev = Dev(files: map<seq<byte>, seq<byte>>, open: map<u64, Handle>)

  datatype Command =
    | MakeDir(path: seq<byte>)
    | Open(mode: u64, path: seq<byte>)
    | Read(handle: u64, size: u64)
    | Write(handle: u64, data: seq<byte>)
    | Close(handle: u64)
    | Other

  /** The protocol's opcodes; below, 1 is a status, 2 is data, and 14 and 16 are end of data and object exists. */
  function CommandOf(r: Request): Command {
    if r.op == 0x09 then MakeDir(DevicePath(r.args))
    else if r.op == 0x0d && |r.args| >= 8 then Open(LeU64(r.args, 0), DevicePath(r.args[8..]))
    else if r.op == 0x0f then Read(LeU64(r.args, 0), LeU64(r.args, 8))
    else if r.op == 0x10 then Write(LeU64(r.args, 0), r.data)
    else if r.op == 0x14 then Close(LeU64(r.args, 0))
    else Other
  }

  function StatusReply(code: u64): Reply {
    Reply(0x01, Le(code, 8), [])
  }

  predicate HasFreeHandle(d: Dev) {
    exists h: u64 :: h !in d.open
  }

  /** The bytes of the file that a handle has not passed. */
  function Rest(d: Dev, h: u64): seq<byte>
    requires h in d.open && d.open[h].path in d.files
  {
    var file, pos := d.files[d.open[h].path], d.open[h].pos;
    if pos <= |file| then file[pos..] else []
  }

  function Moved(d: Dev, h: u64, n: nat): Dev
    requires h in d.open
  {
    d.(open := d.open[h := d.open[h].(pos := d.open[h].pos + n)])
  }

  /** The file with `data` put at `pos`, zeros before it if it was shorter. */
  function Overwritten(file: seq<byte>, pos: nat, data: seq<byte>): seq<byte> {
    var head := if pos <= |file| then file[..pos] else file + seq(pos - |file|, _ => 0);
    head + data + if pos + |data| <= |file| then file[pos + |data|..] else []
  }

  /** A read gives some of what is left, nothing only at the end, as data or as a status. */
  predicate ServesRead(d: Dev, h: u64, size: u64, d': Dev, reply: Reply)
    requires h in d.open && d.open[h].path in d.files
  {
    var rest := Rest(d, h);
    || (rest == [] && d' == d && (reply == StatusReply(14) || reply == StatusReply(0)))
    || (&& reply.op == 0x02
        && |reply.args| + |reply.data| <= size && |reply.args| + |reply.data| < TWO_63
        && reply.args + reply.data <= rest
        && (|reply.args| + |reply.data| == 0 ==> rest == [] || size == 0)
        && d' == Moved(d, h, |reply.args| + |reply.data|))
  }

  predicate ServesOpen(d: Dev, mode: u64, path: seq<byte>, d': Dev, reply: Reply) {
    if mode == 0x01 && path !in d.files then d' == d && reply == StatusReply(8)
    else if !HasFreeHandle(d) then d' == d && reply == StatusReply(3)
    else
      && reply.op == 0x0e && |reply.args| == 8 && reply.data == []
      && var h := LeU64(reply.args, 0);
        h !in d.open
        && d'.open == d.open[h := Handle(path, 0)]
        && d'.files == if mode == 0x01 then d.files else d.files[path := []]
  }

  /** What a faithful device may answer, and what becomes of it. */
  predicate Serves(d: Dev, c: Command, d': Dev, reply: Reply) {
    match c
    case MakeDir(_) =>
      d' == d && (reply == StatusReply(0) || reply == StatusReply(16))
    case Open(mode, path) => ServesOpen(d, mode, path, d', reply)
    case Read(h, size) =>
      if h in d.open && d.open[h].path in d.files then ServesRead(d, h, size, d', reply)
      else d' == d && reply == StatusReply(7)
    case Write(h, data) =>
      if h in d.open && d.open[h].path in d.files then
        var file := d.files[d.open[h].path];
        && reply == StatusReply(0)
        && d' == Moved(d, h, |data|).(
          files := d.files[d.open[h].path := Overwritten(file, d.open[h].pos, data)])
      else d' == d && reply == StatusReply(7)
    case Close(h) =>
      if h in d.open then d' == d.(open := d.open - {h}) && reply == StatusReply(0)
      else d' == d && reply == StatusReply(7)
    case Other => d' == d && reply == StatusReply(15)
  }

  lemma ServedSmall(d: Dev, c: Command, d': Dev, reply: Reply)
    requires Serves(d, c, d', reply)
    ensures HEADER_SIZE + |reply.args| + |reply.data| < TWO_64
  {}

  /** One faithful answer, any of those allowed. */
  method Serve(d: Dev, c: Command) returns (d': Dev, reply: Reply)
    ensures Serves(d, c, d', reply)
  {
    d' := d;
    match c
    case MakeDir(_) =>
      var existed: bool :| true;
      reply := StatusReply(if existed then 16 else 0);
    case Open(mode, path) =>
      d', reply := ServeOpen(d, mode, path);
    case Read(h, size) =>
      if h in d.open && d.open[h].path in d.files {
        d', reply := ServeRead(d, h, size);
      } else {
        reply := StatusReply(7);
      }
    case Write(h, data) =>
      if h in d.open && d.open[h].path in d.files {
        var path := d.open[h].path;
        d' := Moved(d, h, |data|).(files := d.files[path := Overwritten(d.files[path], d.open[h].pos, data)]);
        reply := StatusReply(0);
      } else {
        reply := StatusReply(7);
      }
    case Close(h) =>
      if h in d.open {
        d' := d.(open := d.open - {h});
        reply := StatusReply(0);
      } else {
        reply := StatusReply(7);
      }
    case Other =>
      reply := StatusReply(15);
  }

  method ServeOpen(d: Dev, mode: u64, path: seq<byte>) returns (d': Dev, reply: Reply)
    ensures ServesOpen(d, mode, path, d', reply)
  {
    if mode == 0x01 && path !in d.files {
      return d, StatusReply(8);
    }
    var h := 0;
    while h < TWO_64 && h in d.open
      invariant 0 <= h <= TWO_64
      invariant forall i | 0 <= i < h :: i in d.open
    {
      h := h + 1;
    }
    if h == TWO_64 {
      return d, StatusReply(3);
    }
    HandleReadsBack(h);
    d' := Dev(if mode == 0x01 then d.files else d.files[path := []], d.open[h := Handle(path, 0)]);
    reply := Reply(0x0e, Le(h, 8), []);
  }

  method ServeRead(d: Dev, h: u64, size: u64) returns (d': Dev, reply: Reply)
    requires h in d.open && d.open[h].path in d.files
    ensures ServesRead(d, h, size, d', reply)
  {
    var rest := Rest(d, h);
    var status: bool :| true;
    if rest == [] && status {
      var success: bool :| true;
      return d, StatusReply(if success then 0 else 14);
    }
    var n := 0;
    if rest != [] && size > 0 {
      n :| 1 <= n <= |rest| && n <= size && n < TWO_63;
    }
    var k :| 0 <= k <= n;
    d' := Moved(d, h, n);
    reply := Reply(0x02, rest[..k], rest[k..n]);
    assert rest[..k] + rest[k..n] == rest[..n];
  }

  /** The connection: what the client writes, and what it is going to read. */
  class Link {
    const honest: bool
    const incoming: Reader
    /** Everything written so far. */
    var sent: seq<byte>
    /** The part of it that a faithful device has not served. */
    var unread: seq<byte>
    var dev: Dev
    /** How many writes and flushes have failed. */
    ghost var failures: nat

    /** A faithful device starts silent; any other will send `input`, whatever it is asked. */
    constructor (honest: bool, dev: Dev, input: seq<byte>)
      ensures this.honest == honest && this.dev == dev
      ensures sent == [] && unread == [] && failures == 0
      ensures fresh(incoming) && incoming.pending == if honest then [] else input
    {
      this.honest := honest;
      this.dev := dev;
      sent, unread, failures := [], [], 0;
      incoming := new Reader(if honest then [] else input);
    }

    /** A write to a device that is not faithful may fail with any part of it written. */
    method WriteAll(bytes: seq<byte>) returns (ok: bool, ghost out: seq<byte>)
      modifies this`sent, this`unread, this`failures
      ensures honest ==> ok
      ensures out <= bytes && (ok ==> out == bytes)
      ensures sent == old(sent) + out && unread == old(unread) + out
      ensures failures == old(failures) + if ok then 0 else 1
    {
      ok :| honest ==> ok;
      var n: nat := |bytes|;
      if !ok {
        n :| n <= |bytes|;
        failures := failures + 1;
      }
      out := bytes[..n];
      sent, unread := sent + bytes[..n], unread + bytes[..n];
    }

    /** A faithful device serves the request that has been written and its reply is under way. */
    method Flush() returns (ok: bool, ghost reply: Reply)
      modifies this`unread, this`dev, this`failures, incoming
      ensures honest ==> ok
      ensures failures == old(failures) + if ok then 0 else 1
      ensures !honest ==> incoming.pending == old(incoming.pending)
      ensures honest && ParseRequest(old(unread)).Some? ==>
        var r := ParseRequest(old(unread)).value;
        && unread == []
        && Serves(old(dev), CommandOf(r), dev, reply)
        && incoming.pending == old(incoming.pending) + PacketBytes(r.num, reply.op, reply.args, reply.data)
    {
      ok :| honest ==> ok;
      reply := StatusReply(0);
      if !ok {
        failures := failures + 1;
      }
      if honest {
        var request := ParseRequest(unread);
        if request.Some? {
          var r := request.value;
          var d', answer := Serve(dev, CommandOf(r));
          reply := answer;
          dev, unread := d', [];
          incoming.pending := incoming.pending + PacketBytes(r.num, answer.op, answer.args, answer.data);
        }
      }
    }
  }
}
