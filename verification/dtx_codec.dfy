/** The DTX codec as the program runs it: buffers extended field by field, cursors, the fragment loop. */
module DtxCodec {
  import opened Bytes
  import opened Wrappers
  import opened Stream
  import opened Dtx
  import DtxRoundTrip

  method AppendArg(buf: ByteVec, arg: AuxValue)
    modifies buf
    ensures buf.data == old(buf.data) + EncodeArg(arg)
  {
    hide Le;
    buf.Extend(Le(T_NULL, 4));
    match arg
    case Int32(v) =>
      buf.Extend(Le(T_UINT32, 4));
      buf.Extend(Le(ToU32(v), 4));
    case Int64(v) =>
      buf.Extend(Le(T_INT64, 4));
      buf.Extend(Le(ToU64(v), 8));
    case Bytes(b) =>
      buf.Extend(Le(T_BYTEARRAY, 4));
      buf.Extend(Le(|b|, 4));
      buf.Extend(b);
  }

  method EncodeAuxEntries(args: seq<AuxValue>) returns (buf: ByteVec)
    ensures fresh(buf) && buf.data == EncodeArgs(args, 0)
  {
    hide EncodeArg;
    buf := new ByteVec();
    for i := 0 to |args|
      invariant fresh(buf) && buf.data + EncodeArgs(args, i) == EncodeArgs(args, 0)
    {
      Regroup(buf.data, EncodeArg(args[i]), EncodeArgs(args, i + 1));
      AppendArg(buf, args[i]);
    }
  }

  method AppendHeader(
      buf: ByteVec, index: u16, count: u16, len: nat, id: u32, conv: u32, channel: i32, expects: u32)
    modifies buf
    ensures buf.data == old(buf.data) + Header(index, count, len, id, conv, channel, expects)
  {
    hide Le;
    buf.Extend(MAGIC);
    buf.Extend(Le(32, 4));
    buf.Extend(Le(index, 2));
    buf.Extend(Le(count, 2));
    buf.Extend(Le(len, 4));
    buf.Extend(Le(id, 4));
    buf.Extend(Le(conv, 4));
    buf.Extend(Le(ToU32(channel), 4));
    buf.Extend(Le(expects, 4));
  }

  /** The sixteen bytes before the arguments. */
  method AppendPayloadHeader(buf: ByteVec, msgType: u32, auxLen: nat, total: nat)
    modifies buf
    ensures buf.data == old(buf.data) + (Le(msgType, 4) + (Le(auxLen, 4) + (Le(total, 4) + Le(0, 4))))
  {
    hide Le;
    buf.Extend(Le(msgType, 4));
    buf.Extend(Le(auxLen, 4));
    buf.Extend(Le(total, 4));
    buf.Extend(Le(0, 4));
  }

  method AppendAux(buf: ByteVec, entries: seq<byte>)
    modifies buf
    ensures buf.data == old(buf.data) + AuxSection(entries)
  {
    hide Le;
    if entries != [] {
      buf.Extend(Le(AUX_MAGIC, 4));
      buf.Extend(Le(0, 4));
      buf.Extend(Le(|entries|, 4));
      buf.Extend(Le(0, 4));
      buf.Extend(entries);
    }
  }

  method EncodeMessage(
      id: u32, conv: u32, channel: i32, expects: bool, msgType: u32, args: seq<AuxValue>, payload: seq<byte>)
    returns (buf: ByteVec)
    ensures fresh(buf) && buf.data == EncodeRaw(id, conv, channel, expects, msgType, args, payload)
  {
    hide Le, EncodeArgs, Header, AuxSection;
    var entries := EncodeAuxEntries(args);
    var auxLen := if |entries.data| > 0 then |entries.data| + 16 else 0;
    var total := auxLen + |payload|;
    var messageLen := if total > 0 then 16 + total else 0;
    buf := new ByteVec();
    AppendHeader(buf, 0, 1, messageLen, id, conv, channel, if expects then 1 else 0);
    if messageLen == 0 {
      return;
    }
    AppendPayloadHeader(buf, msgType, auxLen, total);
    AppendAux(buf, entries.data);
    buf.Extend(payload);
    BodyParts(msgType, entries.data, payload);
    hide Body;
  }

  lemma BodyParts(msgType: u32, entries: seq<byte>, payload: seq<byte>)
    requires entries != [] || payload != []
    ensures var aux := AuxSection(entries);
      Body(msgType, entries, payload)
      == (Le(msgType, 4) + (Le(|aux|, 4) + (Le(|aux| + |payload|, 4) + Le(0, 4)))) + aux + payload
  {
    hide Le, AuxSection;
  }

  /** One argument at `pos`, and where the next begins; None where reading stops. */
  method DecodeArg(data: seq<byte>, pos: nat) returns (arg: Option<AuxValue>, next: nat)
    requires pos <= |data|
    ensures arg.None? ==> DecodeArgs(data, pos) == []
    ensures arg.Some? ==> pos < next <= |data| && DecodeArgs(data, pos) == [arg.value] + DecodeArgs(data, next)
  {
    hide U32At, U64At;
    arg, next := None, pos;
    if pos + 4 > |data| || U32At(data, pos) != T_NULL || pos + 8 > |data| {
      return;
    }
    var ty, p := U32At(data, pos + 4), pos + 8;
    if ty == T_UINT32 && p + 4 <= |data| {
      return Some(Int32(ToI32(U32At(data, p)))), p + 4;
    }
    if ty == T_INT64 && p + 8 <= |data| {
      return Some(Int64(ToI64(U64At(data, p)))), p + 8;
    }
    if ty == T_BYTEARRAY && p + 4 <= |data| {
      var end: nat := p + 4 + U32At(data, p);
      if end <= |data| {
        return Some(Bytes(data[p + 4..end])), end;
      }
    }
  }

  method DecodeAuxEntries(data: seq<byte>) returns (out: seq<AuxValue>)
    ensures out == DecodeArgs(data, 0)
  {
    hide DecodeArgs;
    out := [];
    var pos := 0;
    while true
      invariant pos <= |data| && out + DecodeArgs(data, pos) == DecodeArgs(data, 0)
      decreases |data| - pos
    {
      var arg, next := DecodeArg(data, pos);
      if arg.None? {
        return;
      }
      assert out + DecodeArgs(data, pos) == out + [arg.value] + DecodeArgs(data, next);
      out, pos := out + [arg.value], next;
    }
  }

  /** One sub-fragment: its header, an acknowledgement if it asks for one, its chunk. */
  method ReadFragment(r: Reader, writer: Option<ByteVec>) returns (chunk: Option<seq<byte>>, ghost acked: seq<byte>)
    modifies r, if writer.Some? then {writer.value} else {}
    ensures writer.Some? ==> writer.value.data == old(writer.value.data) + acked
    ensures var s := old(r.pending);
      if |s| < 32 then chunk == None && r.pending == [] && acked == []
      else
        var h := ReadHead(s);
        && acked == AckOf(h)
        && if |s| < 32 + h.len then chunk == None && r.pending == []
           else chunk == Some(s[32..][..h.len]) && r.pending == s[32..][h.len..]
  {
    hide ReadHead, EncodeAck;
    acked := [];
    var hdr := r.ReadExact(32);
    if hdr.None? {
      return None, acked;
    }
    DtxRoundTrip.HeadOfPrefix(old(r.pending), hdr.value);
    var h := ReadHead(hdr.value);
    if h.expects && writer.Some? {
      writer.value.Extend(EncodeAck(h.id, (h.conv + 1) % TWO_32, h.channel));
    }
    acked := AckOf(h);
    chunk := r.ReadExact(h.len);
  }

  /** The fragment loop: chunks appended to one buffer. */
  method GatherFragments(r: Reader, n: nat, writer: Option<ByteVec>) returns (data: Option<seq<byte>>)
    modifies r, if writer.Some? then {writer.value} else {}
    ensures var g := Gather(old(r.pending), n);
      && data == g.data && r.pending == g.rest
      && (writer.Some? ==> writer.value.data == old(writer.value.data) + g.acks)
  {
    hide Gather, ReadHead, AckOf, Prepended;
    ghost var whole := Gather(r.pending, n);
    ghost var acked: seq<byte> := [];
    var got: seq<byte> := [];
    PrependNothing(whole.data);
    for i := 0 to n
      invariant whole.rest == Gather(r.pending, n - i).rest
      invariant whole.acks == acked + Gather(r.pending, n - i).acks
      invariant whole.data == Prepended(got, Gather(r.pending, n - i).data)
      invariant writer.Some? ==> writer.value.data == old(writer.value.data) + acked
    {
      GatherUnfolds(r.pending, n - i);
      ghost var was := acked;
      var chunk, acks := ReadFragment(r, writer);
      acked := acked + acks;
      if chunk.None? {
        return None;
      }
      ghost var next := Gather(r.pending, n - i - 1);
      Regroup(was, acks, next.acks);
      PrependTwice(got, chunk.value, next.data);
      got := got + chunk.value;
    }
    GatherUnfolds(r.pending, 0);
    PrependEnd(got);
    return Some(got);
  }

  function Prepended(got: seq<byte>, data: Option<seq<byte>>): (r: Option<seq<byte>>)
    ensures data.None? ==> r.None?
  {
    if data.Some? then Some(got + data.value) else None
  }

  lemma PrependNothing(data: Option<seq<byte>>)
    ensures Prepended([], data) == data
  {
    if data.Some? {
      assert [] + data.value == data.value;
    }
  }

  lemma PrependEnd(got: seq<byte>)
    ensures Prepended(got, Some([])) == Some(got)
  {
    assert got + [] == got;
  }

  lemma PrependTwice(a: seq<byte>, b: seq<byte>, data: Option<seq<byte>>)
    ensures Prepended(a, Prepended(b, data)) == Prepended(a + b, data)
  {
    if data.Some? {
      Regroup(a, b, data.value);
    }
  }

  /** One turn of the fragment loop. */
  lemma GatherUnfolds(s: seq<byte>, n: nat)
    ensures Gather(s, n) ==
      if n == 0 then Gathered(Some([]), s, [])
      else if |s| < 32 then Gathered(None, [], [])
      else
        var h := ReadHead(s);
        if |s| < 32 + h.len then Gathered(None, [], AckOf(h))
        else
          var g := Gather(s[32..][h.len..], n - 1);
          Gathered(Prepended(s[32..][..h.len], g.data), g.rest, AckOf(h) + g.acks)
  {
    hide ReadHead, AckOf;
    if n > 0 && |s| >= 32 && |s| >= 32 + ReadHead(s).len {
      assert s[32..][ReadHead(s).len..] == s[32 + ReadHead(s).len..];
      assert s[32..][..ReadHead(s).len] == s[32..32 + ReadHead(s).len];
    }
  }

  method ReadMessageInner<P>(r: Reader, plist: seq<byte> -> Option<P>, writer: Option<ByteVec>)
    returns (outcome: Outcome<P>)
    modifies r, if writer.Some? then {writer.value} else {}
    ensures var read := ReadMessage(old(r.pending), plist, writer.Some?);
      && outcome == read.outcome && r.pending == read.rest
      && (writer.Some? ==> writer.value.data == old(writer.value.data) + read.acks)
  {
    hide ReadHead, Interpret, MagicOf, Gather;
    ghost var s := r.pending;
    var hdr := r.ReadExact(32);
    if hdr.None? {
      return EndOfStream;
    }
    assert hdr.value[..4] == s[..4];
    if hdr.value[..4] != MAGIC {
      SameMagic(hdr.value, s);
      return BadMagic(MagicOf(hdr.value));
    }
    DtxRoundTrip.HeadOfPrefix(s, hdr.value);
    var h := ReadHead(hdr.value);
    if h.len == 0 {
      return Ok(DtxMessage(h.id, h.conv, h.channel, h.expects, 0, [], None));
    }
    var data: Option<seq<byte>>;
    if h.fragIndex == 0 && h.fragCount > 1 {
      data := GatherFragments(r, h.fragCount - 1, writer);
    } else {
      data := r.ReadExact(h.len);
    }
    if data.None? {
      return EndOfStream;
    }
    outcome := InterpretBytes(h, data.value, plist);
  }

  lemma SameMagic(a: seq<byte>, b: seq<byte>)
    requires |a| >= 4 && |b| >= 4 && a[..4] == b[..4]
    ensures MagicOf(a) == MagicOf(b)
  {}

  method InterpretBytes<P>(h: Head, p: seq<byte>, plist: seq<byte> -> Option<P>) returns (outcome: Outcome<P>)
    ensures outcome == Interpret(h, p, plist)
  {
    hide U32At, DecodeArgs;
    if |p| < 12 {
      return Panicked;
    }
    var msgType := U32At(p, 0);
    var auxLen: nat, total: nat := U32At(p, 4), U32At(p, 8);
    var aux: seq<AuxValue> := [];
    if auxLen > 0 {
      var size := if auxLen >= 16 then auxLen - 16 else 0;
      if |p| >= 32 + size {
        aux := DecodeAuxEntries(p[32..32 + size]);
      }
    }
    var start, len := 16 + auxLen, if total >= auxLen then total - auxLen else 0;
    var body: Option<P> := None;
    if len > 0 && |p| >= start + len {
      body := plist(p[start..start + len]);
      if body.None? {
        return BadPlist;
      }
    }
    return Ok(DtxMessage(h.id, h.conv, h.channel, h.expects, msgType, aux, body));
  }
}
