/** What the DTX decoder makes of encoded messages, whole, truncated or fragmented. */
module DtxRoundTrip {
  import opened Bytes
  import opened Wrappers
  import opened Dtx

  /** Magic, the header's own size, and seven fields, each at its offset. */
  lemma HeaderFields(
      buf: seq<byte>, index: u16, count: u16, len: nat, id: u32, conv: u32, channel: i32, expects: u32)
    requires len < TWO_32
    requires At(buf, 0, Header(index, count, len, id, conv, channel, expects))
    ensures |buf| >= 32 && buf[..4] == [0x79, 0x5B, 0x3D, 0x1F] && U32At(buf, 4) == 32
    ensures ReadHead(buf) == Head(index, count, len, id, conv, channel, expects != 0)
  {
    hide Le, U16At, U32At;
    var h8 := Le(expects, 4);
    var h7 := Le(ToU32(channel), 4) + h8;
    var h6 := Le(conv, 4) + h7;
    var h5 := Le(id, 4) + h6;
    var h4 := Le(len, 4) + h5;
    var h3 := Le(count, 2) + h4;
    var h2 := Le(index, 2) + h3;
    var h1 := Le(32, 4) + h2;
    AtAppend(buf, 0, MAGIC, h1);
    AtAppend(buf, 4, Le(32, 4), h2);
    AtAppend(buf, 8, Le(index, 2), h3);
    AtAppend(buf, 10, Le(count, 2), h4);
    AtAppend(buf, 12, Le(len, 4), h5);
    AtAppend(buf, 16, Le(id, 4), h6);
    AtAppend(buf, 20, Le(conv, 4), h7);
    AtAppend(buf, 24, Le(ToU32(channel), 4), h8);
    U32OfLe(buf, 4, 32);
    U16OfLe(buf, 8, index);
    U16OfLe(buf, 10, count);
    U32OfLe(buf, 12, len);
    U32OfLe(buf, 16, id);
    U32OfLe(buf, 20, conv);
    U32OfLe(buf, 24, ToU32(channel));
    U32OfLe(buf, 28, expects);
  }

  // ---- arguments ----

  predicate ArgFits(a: AuxValue) {
    a.Bytes? ==> |a.b| < TWO_32
  }

  /** The longest run of arguments from the i-th on whose encodings lie entirely in `n` bytes. */
  function Fitting(args: seq<AuxValue>, i: nat, n: nat): seq<AuxValue>
    requires i <= |args|
    decreases |args| - i
  {
    if i == |args| || |EncodeArg(args[i])| > n then []
    else [args[i]] + Fitting(args, i + 1, n - |EncodeArg(args[i])|)
  }

  lemma ArgFields(a: AuxValue, data: seq<byte>, pos: nat)
    requires ArgFits(a) && At(data, pos, EncodeArg(a))
    ensures DecodeArgs(data, pos) == [a] + DecodeArgs(data, pos + |EncodeArg(a)|)
  {
    match a
    case Int32(v) => Int32Field(v, data, pos);
    case Int64(v) => Int64Field(v, data, pos);
    case Bytes(b) => BytesField(b, data, pos);
  }

  lemma Int32Field(v: i32, data: seq<byte>, pos: nat)
    requires At(data, pos, EncodeArg(Int32(v)))
    ensures DecodeArgs(data, pos) == [Int32(v)] + DecodeArgs(data, pos + 12)
  {
    hide Le, U32At, U64At, At;
    U32Then(data, pos, T_NULL, Le(T_UINT32, 4) + Le(ToU32(v), 4));
    U32Then(data, pos + 4, T_UINT32, Le(ToU32(v), 4));
    WholeAt(data, pos + 8, Le(ToU32(v), 4));
    U32OfLe(data, pos + 8, ToU32(v));
  }

  lemma Int64Field(v: i64, data: seq<byte>, pos: nat)
    requires At(data, pos, EncodeArg(Int64(v)))
    ensures DecodeArgs(data, pos) == [Int64(v)] + DecodeArgs(data, pos + 16)
  {
    hide Le, U32At, U64At, At;
    U32Then(data, pos, T_NULL, Le(T_INT64, 4) + Le(ToU64(v), 8));
    U32Then(data, pos + 4, T_INT64, Le(ToU64(v), 8));
    WholeAt(data, pos + 8, Le(ToU64(v), 8));
    U64OfLe(data, pos + 8, ToU64(v));
  }

  lemma BytesField(b: seq<byte>, data: seq<byte>, pos: nat)
    requires |b| < TWO_32 && At(data, pos, EncodeArg(Bytes(b)))
    ensures DecodeArgs(data, pos) == [Bytes(b)] + DecodeArgs(data, pos + 12 + |b|)
  {
    hide Le, U32At, U64At, At;
    U32Then(data, pos, T_NULL, Le(T_BYTEARRAY, 4) + (Le(|b|, 4) + b));
    U32Then(data, pos + 4, T_BYTEARRAY, Le(|b|, 4) + b);
    U32Then(data, pos + 8, |b|, b);
    WholeAt(data, pos + 12, b);
  }

  lemma WholeAt(data: seq<byte>, pos: nat, s: seq<byte>)
    requires At(data, pos, s)
    ensures pos + |s| <= |data| && data[pos..pos + |s|] == s
  {}

  /** From `pos` on, `data` is the beginning of `s`. */
  predicate Starts(data: seq<byte>, pos: nat, s: seq<byte>) {
    && pos <= |data| <= pos + |s|
    && forall k | pos <= k < |data| :: data[k] == s[k - pos]
  }

  lemma SameU32(data: seq<byte>, pos: nat, s: seq<byte>, k: nat)
    requires Starts(data, pos, s) && pos + k + 4 <= |data|
    ensures U32At(data, pos + k) == U32At(s, k)
  {
    hide ReadLe;
    assert data[pos + k..pos + k + 4] == s[k..k + 4];
  }

  lemma StartsAppend(data: seq<byte>, pos: nat, a: seq<byte>, b: seq<byte>)
    requires Starts(data, pos, a + b)
    ensures if |data| < pos + |a| then Starts(data, pos, a) else At(data, pos, a) && Starts(data, pos + |a|, b)
  {
    if |data| >= pos + |a| {
      forall k | pos + |a| <= k < |data| ensures data[k] == b[k - pos - |a|] {
        assert data[k] == (a + b)[k - pos];
      }
    }
  }

  /** An argument cut short is not read at all. */
  lemma ArgCut(a: AuxValue, data: seq<byte>, pos: nat)
    requires ArgFits(a) && |data| < pos + |EncodeArg(a)| && Starts(data, pos, EncodeArg(a))
    ensures DecodeArgs(data, pos) == []
  {
    hide U32At, U64At, Le, Starts;
    var enc := EncodeArg(a);
    assert At(enc, 0, enc);
    ArgTag(a, enc, 0);
    if pos + 8 <= |data| {
      SameU32(data, pos, enc, 0);
      SameU32(data, pos, enc, 4);
      if a.Bytes? && pos + 12 <= |data| {
        SameU32(data, pos, enc, 8);
      }
    }
  }

  lemma ArgTag(a: AuxValue, data: seq<byte>, pos: nat)
    requires ArgFits(a) && At(data, pos, EncodeArg(a))
    ensures U32At(data, pos) == 0x0A
    ensures U32At(data, pos + 4) == if a.Int32? then 0x03 else if a.Int64? then 0x06 else 0x02
    ensures a.Bytes? ==> U32At(data, pos + 8) == |a.b|
  {
    hide Le, U32At, U64At;
    match a
    case Int32(v) =>
      U32Then(data, pos, T_NULL, Le(T_UINT32, 4) + Le(ToU32(v), 4));
      U32Then(data, pos + 4, T_UINT32, Le(ToU32(v), 4));
    case Int64(v) =>
      U32Then(data, pos, T_NULL, Le(T_INT64, 4) + Le(ToU64(v), 8));
      U32Then(data, pos + 4, T_INT64, Le(ToU64(v), 8));
    case Bytes(b) =>
      U32Then(data, pos, T_NULL, Le(T_BYTEARRAY, 4) + (Le(|b|, 4) + b));
      U32Then(data, pos + 4, T_BYTEARRAY, Le(|b|, 4) + b);
      U32Then(data, pos + 8, |b|, b);
  }

  /** Decoding any truncation of an encoded argument list gives the arguments that lie entirely inside it. */
  lemma {:induction false} TruncatedArgs(args: seq<AuxValue>, i: nat, data: seq<byte>, pos: nat)
    requires i <= |args|
    requires forall k | 0 <= k < |args| :: ArgFits(args[k])
    requires Starts(data, pos, EncodeArgs(args, i))
    ensures DecodeArgs(data, pos) == Fitting(args, i, |data| - pos)
    decreases |args| - i
  {
    hide EncodeArg, ArgFits, DecodeArgs;
    if i == |args| {
      NoArgs(data, pos);
    } else {
      var a := EncodeArg(args[i]);
      StartsAppend(data, pos, a, EncodeArgs(args, i + 1));
      hide EncodeArgs;
      if |data| < pos + |a| {
        ArgCut(args[i], data, pos);
      } else {
        ArgFields(args[i], data, pos);
        TruncatedArgs(args, i + 1, data, pos + |a|);
      }
    }
  }

  lemma NoArgs(data: seq<byte>, pos: nat)
    requires |data| <= pos
    ensures DecodeArgs(data, pos) == []
  {}

  lemma {:induction false} AllFit(args: seq<AuxValue>, i: nat)
    requires i <= |args|
    ensures Fitting(args, i, |EncodeArgs(args, i)|) == args[i..]
    decreases |args| - i
  {
    hide EncodeArg;
    if i < |args| {
      AllFit(args, i + 1);
    }
  }

  lemma ArgsRoundTrip(args: seq<AuxValue>)
    requires forall k | 0 <= k < |args| :: ArgFits(args[k])
    ensures DecodeArgs(EncodeArgs(args, 0), 0) == args
  {
    hide EncodeArgs, Fitting, DecodeArgs, ArgFits;
    var data := EncodeArgs(args, 0);
    TruncatedArgs(args, 0, data, 0);
    AllFit(args, 0);
    assert args[0..] == args;
  }

  lemma ArgsTruncated(args: seq<AuxValue>, n: nat)
    requires forall k | 0 <= k < |args| :: ArgFits(args[k])
    requires n <= |EncodeArgs(args, 0)|
    ensures DecodeArgs(EncodeArgs(args, 0)[..n], 0) == Fitting(args, 0, n)
  {
    hide EncodeArgs, Fitting, DecodeArgs, ArgFits;
    TruncatedArgs(args, 0, EncodeArgs(args, 0)[..n], 0);
  }

  // ---- whole messages ----

  /** A body is its header fields, each at its offset. */
  lemma HeaderParts(buf: seq<byte>, msgType: u32, auxLen: nat, total: nat, rest: seq<byte>)
    requires auxLen < TWO_32 && total < TWO_32
    requires At(buf, 0, Le(msgType, 4) + (Le(auxLen, 4) + (Le(total, 4) + (Le(0, 4) + rest))))
    ensures |buf| >= 16 && U32At(buf, 0) == msgType && U32At(buf, 4) == auxLen && U32At(buf, 8) == total
    ensures At(buf, 16, rest)
  {
    hide Le, U32At, At;
    var r3 := Le(0, 4) + rest;
    var r2 := Le(total, 4) + r3;
    var r1 := Le(auxLen, 4) + r2;
    U32Then(buf, 0, msgType, r1);
    U32Then(buf, 4, auxLen, r2);
    U32Then(buf, 8, total, r3);
    U32Then(buf, 12, 0, rest);
  }

  lemma BodyFields(buf: seq<byte>, msgType: u32, entries: seq<byte>, payload: seq<byte>)
    requires entries != [] || payload != []
    requires At(buf, 0, Body(msgType, entries, payload)) && |Body(msgType, entries, payload)| < TWO_32
    ensures |buf| >= 16 && U32At(buf, 0) == msgType
    ensures U32At(buf, 4) == |AuxSection(entries)|
    ensures U32At(buf, 8) == |AuxSection(entries)| + |payload|
    ensures At(buf, 16, AuxSection(entries)) && At(buf, 16 + |AuxSection(entries)|, payload)
  {
    hide Le, U32At, AuxSection, At;
    var aux := AuxSection(entries);
    HeaderParts(buf, msgType, |aux|, |aux| + |payload|, aux + payload);
    AtAppend(buf, 16, aux, payload);
  }

  /** The section header before the arguments: magic, a zero, their size, a zero. */
  lemma EntriesAt(buf: seq<byte>, entries: seq<byte>)
    requires entries != [] && At(buf, 16, AuxSection(entries))
    ensures At(buf, 32, entries)
    ensures U32At(buf, 16) == 0x1F0 && U32At(buf, 20) == 0 && U32At(buf, 28) == 0
    ensures |entries| < TWO_32 ==> U32At(buf, 24) == |entries|
  {
    hide Le, U32At;
    AtAppend(buf, 16, Le(AUX_MAGIC, 4), Le(0, 4) + (Le(|entries|, 4) + (Le(0, 4) + entries)));
    AtAppend(buf, 20, Le(0, 4), Le(|entries|, 4) + (Le(0, 4) + entries));
    AtAppend(buf, 24, Le(|entries|, 4), Le(0, 4) + entries);
    AtAppend(buf, 28, Le(0, 4), entries);
    U32OfLe(buf, 16, 0x1F0);
    U32OfLe(buf, 20, 0);
    if |entries| < TWO_32 {
      U32OfLe(buf, 24, |entries|);
    }
    U32OfLe(buf, 28, 0);
  }

  /** What a reader understands of a body: its type, arguments and, if the library accepts it, payload. */
  function Understood<P>(
      h: Head, msgType: u32, args: seq<AuxValue>, payload: seq<byte>, plist: seq<byte> -> Option<P>): Outcome<P>
  {
    if payload != [] && plist(payload).None? then BadPlist
    else
      Ok(DtxMessage(h.id, h.conv, h.channel, h.expects, msgType, args,
        if payload == [] then None else plist(payload)))
  }

  lemma {:induction false} EntriesEmpty(args: seq<AuxValue>)
    ensures EncodeArgs(args, 0) == [] <==> args == []
  {}

  /** The decoder's reading of a body whose three length fields and parts are as encoded. */
  lemma InterpretFields<P>(
      h: Head, buf: seq<byte>, msgType: u32, size: nat, args: seq<AuxValue>, payload: seq<byte>,
      plist: seq<byte> -> Option<P>)
    requires size == 0 || size > 16
    requires |buf| == 16 + size + |payload|
    requires U32At(buf, 0) == msgType && U32At(buf, 4) == size && U32At(buf, 8) == size + |payload|
    requires if size == 0 then args == [] else DecodeArgs(buf[32..16 + size], 0) == args
    requires buf[16 + size..] == payload
    ensures Interpret(h, buf, plist) == Understood(h, msgType, args, payload, plist)
  {
    hide U32At, DecodeArgs;
    assert buf[16 + size..16 + size + |payload|] == payload;
  }

  lemma InterpretBody<P>(
      h: Head, msgType: u32, args: seq<AuxValue>, payload: seq<byte>, plist: seq<byte> -> Option<P>)
    requires args != [] || payload != []
    requires forall k | 0 <= k < |args| :: ArgFits(args[k])
    requires |Body(msgType, EncodeArgs(args, 0), payload)| < TWO_32
    ensures Interpret(h, Body(msgType, EncodeArgs(args, 0), payload), plist)
      == Understood(h, msgType, args, payload, plist)
  {
    hide EncodeArgs, DecodeArgs, U32At, Body, ArgFits, Interpret, AuxSection, Understood;
    var entries := EncodeArgs(args, 0);
    EntriesEmpty(args);
    var buf := Body(msgType, entries, payload);
    assert At(buf, 0, buf);
    BodyFields(buf, msgType, entries, payload);
    var size := |AuxSection(entries)|;
    if entries != [] {
      EntriesAt(buf, entries);
      ArgsRoundTrip(args);
    }
    InterpretFields(h, buf, msgType, size, args, payload, plist);
  }

  /**
   * A body cut short at any byte: without its three fields reading panics, without
   * all of its arguments it has none, and without all of its payload it has none.
   */
  lemma BodyTruncated<P>(
      h: Head, msgType: u32, args: seq<AuxValue>, payload: seq<byte>, plist: seq<byte> -> Option<P>, n: nat)
    requires args != [] || payload != []
    requires forall k | 0 <= k < |args| :: ArgFits(args[k])
    requires |Body(msgType, EncodeArgs(args, 0), payload)| < TWO_32
    requires n < |Body(msgType, EncodeArgs(args, 0), payload)|
    ensures var entries := EncodeArgs(args, 0);
      var whole := if entries == [] then 0 else 16 + |entries|;
      Interpret(h, Body(msgType, entries, payload)[..n], plist)
      == if n < 12 then Panicked
         else Ok(DtxMessage(h.id, h.conv, h.channel, h.expects, msgType, if n >= 16 + whole then args else [], None))
  {
    hide EncodeArgs, DecodeArgs, U32At, Body, ArgFits, Interpret, AuxSection;
    var entries := EncodeArgs(args, 0);
    EntriesEmpty(args);
    var buf := Body(msgType, entries, payload);
    assert At(buf, 0, buf);
    BodyFields(buf, msgType, entries, payload);
    if entries != [] {
      EntriesAt(buf, entries);
      ArgsRoundTrip(args);
    }
    InterpretCut(h, buf, buf[..n], msgType, |AuxSection(entries)|, args, |payload|, plist);
  }

  lemma InterpretCut<P>(
      h: Head, buf: seq<byte>, cut: seq<byte>, msgType: u32, size: nat, args: seq<AuxValue>, len: nat,
      plist: seq<byte> -> Option<P>)
    requires cut <= buf && |cut| < |buf| == 16 + size + len
    requires size == 0 || size > 16
    requires U32At(buf, 0) == msgType && U32At(buf, 4) == size && U32At(buf, 8) == size + len
    requires if size == 0 then args == [] else DecodeArgs(buf[32..16 + size], 0) == args
    ensures Interpret(h, cut, plist)
      == if |cut| < 12 then Panicked
         else Ok(DtxMessage(h.id, h.conv, h.channel, h.expects, msgType, if |cut| >= 16 + size then args else [], None))
  {
    hide DecodeArgs, ReadLe;
    if |cut| >= 12 {
      assert cut[0..4] == buf[0..4] && cut[4..8] == buf[4..8] && cut[8..12] == buf[8..12];
      assert U32At(cut, 0) == msgType && U32At(cut, 4) == size && U32At(cut, 8) == size + len;
      hide U32At;
      if size > 0 && |cut| >= 16 + size {
        assert cut[32..16 + size] == buf[32..16 + size];
      }
    }
  }

  /** Reading a message whose header is `hdr`. */
  lemma ReadAfterHeader<P>(
      hdr: seq<byte>, tail: seq<byte>, h: Head, plist: seq<byte> -> Option<P>, acking: bool)
    requires |hdr| == 32 && (hdr + tail)[..4] == [0x79, 0x5B, 0x3D, 0x1F] && ReadHead(hdr + tail) == h
    ensures ReadMessage(hdr + tail, plist, acking)
      == if h.len == 0 then Read(Ok(DtxMessage(h.id, h.conv, h.channel, h.expects, 0, [], None)), tail, [])
         else
           var g := Collect(h, tail);
           Read(if g.data.None? then EndOfStream else Interpret(h, g.data.value, plist), g.rest,
             if acking then g.acks else [])
  {
    hide ReadHead, Collect, Interpret, MagicOf;
    assert (hdr + tail)[32..] == tail;
  }

  /** An unfragmented message: the bytes its header counts. */
  lemma ReadWhole<P>(
      id: u32, conv: u32, channel: i32, expects: u32, body: seq<byte>, plist: seq<byte> -> Option<P>, acking: bool,
      rest: seq<byte>)
    requires |body| < TWO_32
    ensures var h := Head(0, 1, |body|, id, conv, channel, expects != 0);
      ReadMessage(Header(0, 1, |body|, id, conv, channel, expects) + (body + rest), plist, acking)
      == if body == [] then Read(Ok(DtxMessage(id, conv, channel, expects != 0, 0, [], None)), rest, [])
         else Read(Interpret(h, body, plist), rest, [])
  {
    hide Header, ReadHead, Interpret, ReadMessage;
    var hdr := Header(0, 1, |body|, id, conv, channel, expects);
    HeaderFields(hdr + (body + rest), 0, 1, |body|, id, conv, channel, expects);
    ReadAfterHeader(hdr, body + rest, Head(0, 1, |body|, id, conv, channel, expects != 0), plist, acking);
    assert (body + rest)[..|body|] == body && (body + rest)[|body|..] == rest;
  }

  /**
   * Reading an encoded message gives back its ids, signed channel, flag,
   * arguments and payload, and leaves exactly what follows it. Its type comes
   * back exactly when it has a body or is an acknowledgement.
   */
  lemma MessageRoundTrip<P>(
      id: u32, conv: u32, channel: i32, expects: bool, msgType: u32, args: seq<AuxValue>, payload: seq<byte>,
      plist: seq<byte> -> Option<P>, acking: bool, rest: seq<byte>)
    requires forall k | 0 <= k < |args| :: ArgFits(args[k])
    requires |Body(msgType, EncodeArgs(args, 0), payload)| < TWO_32
    ensures var h := Head(0, 1, |Body(msgType, EncodeArgs(args, 0), payload)|, id, conv, channel, expects);
      var bare := args == [] && payload == [];
      ReadMessage(EncodeRaw(id, conv, channel, expects, msgType, args, payload) + rest, plist, acking)
        == Read(Understood(h, if bare then 0 else msgType, args, payload, plist), rest, [])
  {
    hide Header, EncodeArgs, Interpret, ReadMessage, ArgFits;
    var body := Body(msgType, EncodeArgs(args, 0), payload);
    EntriesEmpty(args);
    hide Body;
    var flag := if expects then 1 else 0;
    Regroup(Header(0, 1, |body|, id, conv, channel, flag), body, rest);
    ReadWhole(id, conv, channel, flag, body, plist, acking, rest);
    if args != [] || payload != [] {
      InterpretBody(Head(0, 1, |body|, id, conv, channel, expects), msgType, args, payload, plist);
    }
  }

  /** A stream that ends inside a message gives no message. */
  lemma MessageCut<P>(
      id: u32, conv: u32, channel: i32, expects: bool, msgType: u32, args: seq<AuxValue>, payload: seq<byte>,
      plist: seq<byte> -> Option<P>, acking: bool, k: nat)
    requires |Body(msgType, EncodeArgs(args, 0), payload)| < TWO_32
    requires k < |EncodeRaw(id, conv, channel, expects, msgType, args, payload)|
    ensures ReadMessage(EncodeRaw(id, conv, channel, expects, msgType, args, payload)[..k], plist, acking)
      == Read(EndOfStream, [], [])
  {
    hide Header, EncodeArgs, Interpret, Body, ReadMessage;
    var body, flag := Body(msgType, EncodeArgs(args, 0), payload), if expects then 1 else 0;
    var hdr := Header(0, 1, |body|, id, conv, channel, flag);
    var cut := (hdr + body)[..k];
    if k < 32 {
      NoHeader(cut, plist, acking);
    } else {
      assert cut == hdr + body[..k - 32];
      HeaderFields(cut, 0, 1, |body|, id, conv, channel, flag);
      ReadAfterHeader(hdr, body[..k - 32], Head(0, 1, |body|, id, conv, channel, expects), plist, acking);
    }
  }

  lemma NoHeader<P>(s: seq<byte>, plist: seq<byte> -> Option<P>, acking: bool)
    requires |s| < 32
    ensures ReadMessage(s, plist, acking) == Read(EndOfStream, [], [])
  {}

  /** A header with another magic is refused, with its first four bytes as they stand, and taken off the stream. */
  lemma WrongMagic<P>(magic: u32, more: seq<byte>, plist: seq<byte> -> Option<P>, acking: bool)
    requires magic != 0x795B3D1F && |more| >= 28
    ensures ReadMessage(Be(magic, 4) + more, plist, acking) == Read(BadMagic(magic), more[28..], [])
  {
    hide ReadBe, ReadHead, Be;
    var s := Be(magic, 4) + more;
    assert s[..4] == Be(magic, 4) && s[32..] == more[28..];
    Widths();
    ReadBeOfBe(magic, 4);
    MagicNumber();
    hide Collect, Interpret;
  }

  lemma MagicNumber()
    ensures ReadBe([0x79, 0x5B, 0x3D, 0x1F]) == 0x795B3D1F
  {
    var a: seq<byte>, b: seq<byte>, c: seq<byte> := [0x79], [0x79, 0x5B], [0x79, 0x5B, 0x3D];
    assert a[..0] == [] && b[..1] == a && c[..2] == b && [0x79, 0x5B, 0x3D, 0x1F][..3] == c;
    assert ReadBe(a) == 0x79 && ReadBe(b) == 0x795B && ReadBe(c) == 0x795B3D;
  }

  // ---- fragments ----

  type HeaderBytes = s: seq<byte> | |s| == 32 witness seq(32, _ => 0)

  /** A sub-fragment: any header whose length field matches its chunk, and the chunk. */
  datatype Sub = Sub(header: HeaderBytes, chunk: seq<byte>)

  predicate SubOk(sub: Sub) {
    U32At(sub.header, 12) == |sub.chunk|
  }

  function Chunks(subs: seq<Sub>, i: nat): seq<byte>
    requires i <= |subs|
    decreases |subs| - i
  {
    if i == |subs| then [] else subs[i].chunk + Chunks(subs, i + 1)
  }

  function SubBytes(subs: seq<Sub>, i: nat): seq<byte>
    requires i <= |subs|
    decreases |subs| - i
  {
    if i == |subs| then [] else subs[i].header + (subs[i].chunk + SubBytes(subs, i + 1))
  }

  /** One acknowledgement per sub-fragment that asks for one, with its id, conversation + 1 and channel. */
  function SubAcks(subs: seq<Sub>, i: nat): seq<byte>
    requires i <= |subs|
    decreases |subs| - i
  {
    if i == |subs| then []
    else
      var h := ReadHead(subs[i].header);
      (if h.expects then EncodeAck(h.id, (h.conv + 1) % TWO_32, h.channel) else []) + SubAcks(subs, i + 1)
  }

  lemma HeadOfPrefix(s: seq<byte>, hdr: seq<byte>)
    requires |hdr| == 32 && hdr <= s
    ensures ReadHead(s) == ReadHead(hdr)
  {
    hide ReadLe;
    assert s[8..10] == hdr[8..10] && s[10..12] == hdr[10..12] && s[12..16] == hdr[12..16];
    assert s[16..20] == hdr[16..20] && s[20..24] == hdr[20..24];
    assert s[24..28] == hdr[24..28] && s[28..32] == hdr[28..32];
  }

  lemma GatherOne(sub: Sub, tail: seq<byte>, n: nat)
    requires SubOk(sub) && n > 0
    ensures var g := Gather(tail, n - 1);
      Gather(sub.header + (sub.chunk + tail), n)
      == Gathered(
        if g.data.Some? then Some(sub.chunk + g.data.value) else None,
        g.rest,
        AckOf(ReadHead(sub.header)) + g.acks)
  {
    var s := sub.header + (sub.chunk + tail);
    HeadOfPrefix(s, sub.header);
    assert ReadHead(sub.header).len == |sub.chunk|;
    hide U32At, U16At, ReadHead, AckOf;
    assert s[32..32 + |sub.chunk|] == sub.chunk && s[32 + |sub.chunk|..] == tail;
  }

  lemma GatherNone(s: seq<byte>)
    ensures Gather(s, 0) == Gathered(Some([]), s, [])
  {}

  lemma {:induction false} GatherAll(subs: seq<Sub>, i: nat, rest: seq<byte>)
    requires i <= |subs| && forall k | 0 <= k < |subs| :: SubOk(subs[k])
    ensures Gather(SubBytes(subs, i) + rest, |subs| - i)
      == Gathered(Some(Chunks(subs, i)), rest, SubAcks(subs, i))
    decreases |subs| - i
  {
    hide SubOk, ReadHead, EncodeAck, Gather, AckOf;
    if i == |subs| {
      assert SubBytes(subs, i) + rest == rest;
      GatherNone(rest);
    } else {
      var sub, tail := subs[i], SubBytes(subs, i + 1);
      GatherAll(subs, i + 1, rest);
      Regroup(sub.header, sub.chunk + tail, rest);
      Regroup(sub.chunk, tail, rest);
      GatherOne(sub, tail + rest, |subs| - i);
      FirstSub(subs, i);
      hide SubBytes, Chunks, SubAcks;
    }
  }

  lemma FirstSub(subs: seq<Sub>, i: nat)
    requires i < |subs|
    ensures SubBytes(subs, i) == subs[i].header + (subs[i].chunk + SubBytes(subs, i + 1))
    ensures Chunks(subs, i) == subs[i].chunk + Chunks(subs, i + 1)
    ensures SubAcks(subs, i) == AckOf(ReadHead(subs[i].header)) + SubAcks(subs, i + 1)
  {
    hide ReadHead, EncodeAck;
  }

  /**
   * However a body is cut into sub-fragments, some possibly empty, the
   * fragmented stream reads as the same message as the unfragmented one, with
   * the same bytes left, and writes exactly the acknowledgements asked for.
   */
  lemma FragmentationTransparent<P>(
      id: u32, conv: u32, channel: i32, expects: u32, body: seq<byte>, len: u32, subs: seq<Sub>,
      plist: seq<byte> -> Option<P>, acking: bool, rest: seq<byte>)
    requires 0 < |body| < TWO_32 && len != 0
    requires 1 <= |subs| <= 65534 && forall k | 0 <= k < |subs| :: SubOk(subs[k])
    requires Chunks(subs, 0) == body
    ensures var whole := ReadMessage(Header(0, 1, |body|, id, conv, channel, expects) + (body + rest), plist, acking);
      var cut := ReadMessage(
        Header(0, |subs| + 1, len, id, conv, channel, expects) + (SubBytes(subs, 0) + rest), plist, acking);
      && cut.outcome == whole.outcome && cut.rest == whole.rest == rest
      && whole.acks == [] && cut.acks == if acking then SubAcks(subs, 0) else []
  {
    hide Header, ReadHead, Gather, SubAcks, SubBytes, Chunks, SubOk, ReadMessage, Interpret;
    var hdr := Header(0, |subs| + 1, len, id, conv, channel, expects);
    var h := Head(0, |subs| + 1, len, id, conv, channel, expects != 0);
    HeaderFields(hdr + (SubBytes(subs, 0) + rest), 0, |subs| + 1, len, id, conv, channel, expects);
    ReadAfterHeader(hdr, SubBytes(subs, 0) + rest, h, plist, acking);
    GatherAll(subs, 0, rest);
    ReadWhole(id, conv, channel, expects, body, plist, acking, rest);
    LenIrrelevant(h, Head(0, 1, |body|, id, conv, channel, expects != 0), body, plist);
  }

  /** Only the identifying fields of a header reach the message. */
  lemma LenIrrelevant<P>(h: Head, k: Head, p: seq<byte>, plist: seq<byte> -> Option<P>)
    requires h.id == k.id && h.conv == k.conv && h.channel == k.channel && h.expects == k.expects
    ensures Interpret(h, p, plist) == Interpret(k, p, plist)
  {
    hide U32At, DecodeArgs;
  }

  /** An acknowledgement reads as a bodiless message of type 0 that asks for nothing. */
  lemma AckRoundTrip<P>(id: u32, conv: u32, channel: i32, plist: seq<byte> -> Option<P>, acking: bool, rest: seq<byte>)
    ensures ReadMessage(EncodeAck(id, conv, channel) + rest, plist, acking)
      == Read(Ok(DtxMessage(id, conv, channel, false, 0, [], None)), rest, [])
  {
    hide Header, Le, Interpret, ReadMessage;
    var body := Le(ACK, 4) + seq(12, _ => 0);
    var h := Head(0, 1, 16, id, conv, channel, false);
    Regroup(Header(0, 1, 16, id, conv, channel, 0), body, rest);
    ReadWhole(id, conv, channel, 0, body, plist, acking, rest);
    AckBody(body);
    InterpretFields(h, body, ACK, 0, [], [], plist);
  }

  lemma AckBody(body: seq<byte>)
    requires body == Le(ACK, 4) + seq(12, _ => 0)
    ensures |body| == 16 && U32At(body, 0) == ACK && U32At(body, 4) == 0 && U32At(body, 8) == 0
  {
    hide U32At;
    assert At(body, 0, Le(0, 4)) && At(body, 4, Le(0, 4)) && At(body, 8, Le(0, 4));
    U32OfLe(body, 0, 0);
    U32OfLe(body, 4, 0);
    U32OfLe(body, 8, 0);
  }
}
