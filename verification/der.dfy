/** The DER encoders of src/lockdown/pairing.rs and the parser that peels them apart. */
module Der {
  import opened Bytes
  import opened Wrappers

  // ---- encoding ----

  /** Tag and length; lengths from 65536 on keep only their low 16 bits. */
  function HeaderOf(tag: byte, len: nat): (h: seq<byte>)
    ensures |h| == if len < 0x80 then 2 else if len < 0x100 then 3 else 4
  {
    if len < 0x80 then [tag, len]
    else if len < 0x100 then [tag, 0x81, len]
    else [tag, 0x82, len / 256 % 256, len % 256]
  }

  function DerTag(tag: byte, content: seq<byte>): (out: seq<byte>)
    ensures |out| > |content|
  {
    HeaderOf(tag, |content|) + content
  }

  method EncodeTag(tag: byte, content: seq<byte>) returns (out: seq<byte>)
    ensures out == DerTag(tag, content)
  {
    out := [tag];
    var len := |content|;
    if len < 0x80 {
      out := out + [len];
    } else if len < 0x100 {
      out := out + [0x81];
      out := out + [len];
    } else {
      out := out + [0x82];
      out := out + [len / 256 % 256];
      out := out + [len % 256];
    }
    out := out + content;
  }

  /** A positive integer: a zero byte keeps the sign bit clear. */
  function DerInt(v: seq<byte>): (out: seq<byte>)
    requires v != []
  {
    DerTag(0x02, (if v[0] >= 0x80 then [0] else []) + v)
  }

  // ---- peeling ----

  /** Content and rest; nothing; or the panic of an end beyond the machine's integers. */
  datatype Peeled = Piece(content: seq<byte>, rest: seq<byte>) | Nothing | Panic

  /** The length bytes folded into 64 bits, high bits shifted out. */
  function FoldLength(bytes: seq<byte>): (len: u64) {
    if bytes == [] then 0
    else (FoldLength(bytes[..|bytes| - 1]) * 256 + bytes[|bytes| - 1]) % TWO_64
  }

  method FoldLengthLoop(bytes: seq<byte>) returns (len: u64)
    ensures len == FoldLength(bytes)
  {
    len := 0;
    for i := 0 to |bytes|
      invariant len == FoldLength(bytes[..i])
    {
      assert bytes[..i + 1][..i] == bytes[..i];
      len := (len * 256 + bytes[i]) % TWO_64;
    }
    assert bytes[..|bytes|] == bytes;
  }

  function PeelLength(buf: seq<byte>): (p: Peeled)
    ensures p.Piece? ==> |p.content| + |p.rest| < |buf|
  {
    if buf == [] then Nothing
    else
      var n := if buf[0] < 0x80 then 0 else buf[0] - 0x80;
      if buf[0] >= 0x80 && |buf| < 1 + n then Nothing
      else
        var len := if buf[0] < 0x80 then buf[0] else FoldLength(buf[1..1 + n]);
        var start := 1 + n;
        if start + len >= TWO_64 then Panic
        else if |buf| < start + len then Nothing
        else Piece(buf[start..start + len], buf[start + len..])
  }

  function PeelTag(buf: seq<byte>, tag: byte): (p: Peeled)
    ensures p.Piece? ==> |p.content| + |p.rest| + 2 <= |buf|
  {
    if buf == [] || buf[0] != tag then Nothing else PeelLength(buf[1..])
  }

  function PeelTlv(buf: seq<byte>): (p: Peeled) {
    if buf == [] then Nothing else PeelLength(buf[1..])
  }

  // ---- peeling undoes tagging ----

  lemma FoldOne(a: byte)
    ensures FoldLength([a]) == a
  {
    assert [a][..0] == [];
    assert FoldLength([]) == 0;
  }

  lemma FoldTwo(a: byte, b: byte)
    ensures FoldLength([a, b]) == 256 * a + b
  {
    assert [a, b][..1] == [a];
    FoldOne(a);
  }

  /** `header` spells the length `len` in one of the three forms. */
  predicate Spells(header: seq<byte>, len: nat) {
    || (header == [len] && len < 0x80)
    || (|header| == 2 && header[0] == 0x81 && header[1] == len)
    || (|header| == 3 && header[0] == 0x82 && header[1] as int * 256 + header[2] as int == len)
  }

  /** The length that an encoded header spells. */
  function Spelled(n: nat): (len: nat)
    ensures len <= n
    ensures len == n <==> n < 65536
  {
    if n < 65536 then n else n % 65536
  }

  lemma HeaderSpells(tag: byte, n: nat)
    ensures HeaderOf(tag, n)[0] == tag && Spells(HeaderOf(tag, n)[1..], Spelled(n))
  {
    assert 256 * (n / 256 % 256) + n % 256 == n % 65536;
  }

  lemma PeelHeader(buf: seq<byte>, start: nat, len: nat)
    requires 1 <= start && start + len <= |buf| && Spells(buf[..start], len)
    ensures PeelLength(buf) == Piece(buf[start..start + len], buf[start + len..])
  {
    if start == 2 {
      assert buf[1..2] == [buf[1]];
      FoldOne(buf[1]);
    } else if start == 3 {
      assert buf[1..3] == [buf[1], buf[2]];
      FoldTwo(buf[1], buf[2]);
    }
    hide FoldLength;
  }

  lemma LongForm(buf: seq<byte>, length: seq<byte>, len: nat)
    requires |length| < 0x80 && FoldLength(length) == len && 1 + |length| + len <= |buf| < TWO_63
    requires buf[0] == 0x80 + |length| && buf[1..1 + |length|] == length
    ensures var start := 1 + |length|;
      PeelLength(buf) == Piece(buf[start..start + len], buf[start + len..])
  {
    hide FoldLength;
    var n := buf[0] - 0x80;
    assert buf[1..1 + n] == length && FoldLength(buf[1..1 + n]) == len;
    assert buf[0] >= 0x80 && 1 + n + len < TWO_64;
  }

  lemma FirstThen(a: seq<byte>, b: seq<byte>, c: seq<byte>)
    ensures a + (b + c) == a + b + c && (a + (b + c))[|a|..|a| + |b|] == b
  {}

  /** Any long form is read, minimal or not: up to 127 bytes of length. */
  lemma PeelLongForm(tag: byte, length: seq<byte>, content: seq<byte>, rest: seq<byte>)
    requires |length| < 0x80 && FoldLength(length) == |content| && 1 + |length| + |content| + |rest| < TWO_63
    ensures PeelTag([tag, 0x80 + |length|] + (length + (content + rest)), tag) == Piece(content, rest)
  {
    hide FoldLength, PeelLength;
    var first: byte := 0x80 + |length|;
    var buf := [first] + (length + (content + rest));
    assert ([tag, first] + (length + (content + rest)))[1..] == buf;
    FirstThen([first], length, content + rest);
    CutAfter([first] + length, content + rest, |content|);
    TakeWithin(content, rest, |content|);
    assert content[..|content|] == content && content[|content|..] + rest == rest;
    LongForm(buf, length, |content|);
  }

  lemma SpelledLength(header: seq<byte>, len: nat)
    requires Spells(header, len)
    ensures header != [] && |header| <= 3
    ensures header[0] < 0x80 ==> |header| == 1 && header[0] == len
    ensures header[0] >= 0x80 ==> header[0] == 0x80 + (|header| - 1) && FoldLength(header[1..]) == len
  {
    if |header| == 2 {
      FoldOne(header[1]);
      assert header[1..] == [header[1]];
    } else if |header| == 3 {
      FoldTwo(header[1], header[2]);
      assert header[1..] == [header[1], header[2]];
    }
    hide FoldLength;
  }

  /** A length whose content is not all there, or which is not all there itself. */
  lemma LengthCut(header: seq<byte>, len: nat, buf: seq<byte>)
    requires Spells(header, len) && |buf| < |header| + len < TWO_63
    requires if |buf| < |header| then buf == header[..|buf|] else buf[..|header|] == header
    ensures PeelLength(buf) == Nothing
  {
    SpelledLength(header, len);
    hide Spells, FoldLength;
    if buf != [] {
      assert buf[0] == header[0];
      var n := |header| - 1;
      if n > 0 && |buf| > n {
        assert buf[1..1 + n] == buf[..|header|][1..] == header[1..];
      }
    }
  }

  /** A tagged content cut short anywhere is none, and neither is one under another tag. */
  lemma PeelCut(tag: byte, content: seq<byte>, k: nat, other: byte, rest: seq<byte>)
    requires |content| < 65536
    ensures k < |DerTag(tag, content)| ==> PeelTag(DerTag(tag, content)[..k], tag) == Nothing
    ensures other != tag ==> PeelTag(DerTag(tag, content) + rest, other) == Nothing
  {
    TagFirst(tag, content, rest);
    if 0 < k < |DerTag(tag, content)| {
      var h := HeaderOf(tag, |content|);
      HeaderSpells(tag, |content|);
      hide PeelLength, Spells, HeaderOf;
      var s := DerTag(tag, content)[..k];
      CutHeader(h, content, k);
      LengthCut(h[1..], |content|, s[1..]);
    }
  }

  lemma CutHeader(h: seq<byte>, content: seq<byte>, k: nat)
    requires h != [] && 0 < k < |h| + |content|
    ensures var s, t := (h + content)[..k], h[1..];
      && s[0] == h[0] && |s[1..]| == k - 1
      && if k - 1 < |t| then s[1..] == t[..k - 1] else s[1..][..|t|] == t
  {}

  /** A length read from `header`: the content that follows it is cut off there. */
  lemma PeelAfter(header: seq<byte>, len: nat, s: seq<byte>)
    requires Spells(header, len) && len <= |s|
    ensures PeelLength(header + s) == Piece(s[..len], s[len..])
  {
    assert (header + s)[..|header|] == header;
    assert header != [];
    hide PeelLength, Spells;
    PeelHeader(header + s, |header|, len);
    CutAfter(header, s, len);
  }

  lemma CutAfter(h: seq<byte>, s: seq<byte>, len: nat)
    requires len <= |s|
    ensures (h + s)[|h|..|h| + len] == s[..len] && (h + s)[|h| + len..] == s[len..]
  {}

  lemma TakeWithin(a: seq<byte>, b: seq<byte>, len: nat)
    requires len <= |a|
    ensures (a + b)[..len] == a[..len] && (a + b)[len..] == a[len..] + b
  {}

  lemma TagFirst(tag: byte, content: seq<byte>, rest: seq<byte>)
    ensures var buf := DerTag(tag, content) + rest;
      && buf != [] && buf[0] == tag
      && buf[1..] == HeaderOf(tag, |content|)[1..] + (content + rest)
  {
    HeaderSpells(tag, |content|);
    hide Spells, HeaderOf;
    Regroup(HeaderOf(tag, |content|), content, rest);
    TakeWithin(HeaderOf(tag, |content|), content + rest, 1);
  }

  /** What the parser makes of an encoded tag, followed by anything. */
  lemma PeelEncoded(tag: byte, content: seq<byte>, rest: seq<byte>)
    ensures var len := Spelled(|content|);
      PeelTag(DerTag(tag, content) + rest, tag) == Piece(content[..len], content[len..] + rest)
    ensures PeelTlv(DerTag(tag, content) + rest) == PeelTag(DerTag(tag, content) + rest, tag)
  {
    var len := Spelled(|content|);
    HeaderSpells(tag, |content|);
    hide FoldLength, PeelLength, HeaderOf, Spelled, Spells, DerTag;
    TagFirst(tag, content, rest);
    PeelAfter(HeaderOf(tag, |content|)[1..], len, content + rest);
    TakeWithin(content, rest, len);
  }

  /** Peeling returns exactly the tagged content, and what follows it, for contents below 65536 bytes and no others. */
  lemma PeelUndoesTag(tag: byte, content: seq<byte>, rest: seq<byte>)
    ensures PeelTag(DerTag(tag, content) + rest, tag) == Piece(content, rest) <==> |content| < 65536
  {
    PeelEncoded(tag, content, rest);
    hide DerTag, PeelTag;
    if |content| < 65536 {
      assert content[..|content|] == content && content[|content|..] + rest == rest;
    }
  }

  lemma {:induction false} FoldBound(bytes: seq<byte>)
    ensures |bytes| == 0 ==> FoldLength(bytes) == 0
    ensures |bytes| == 1 ==> FoldLength(bytes) < 256
  {
    if |bytes| == 1 {
      FoldOne(bytes[0]);
      assert bytes == [bytes[0]];
    }
  }

  /** No accepted encoding of a content is shorter (X.690 section 10.1). */
  lemma MinimalLength(buf: seq<byte>, tag: byte, content: seq<byte>)
    requires PeelTag(buf, tag) == Piece(content, []) && |content| < 65536
    ensures |DerTag(tag, content)| <= |buf|
  {
    var tail := buf[1..];
    if tail[0] >= 0x80 {
      FoldBound(tail[1..1 + (tail[0] - 0x80)]);
    }
    hide FoldLength;
  }

  // ---- object identifiers ----

  /** The continuation bytes of an arc, most significant first. */
  function High(h: nat): (s: seq<byte>)
    ensures s != []
  {
    if h < 128 then [h + 128] else High(h / 128) + [h % 128 + 128]
  }

  /** An arc in base 128 (X.690 section 8.19.2). */
  function Arc(a: nat): (s: seq<byte>)
    ensures s != []
  {
    if a < 128 then [a] else High(a / 128) + [a % 128]
  }

  function Arcs(arcs: seq<u32>, i: nat): seq<byte>
    requires i <= |arcs|
    decreases |arcs| - i
  {
    if i == |arcs| then [] else Arc(arcs[i]) + Arcs(arcs, i + 1)
  }

  function DerOid(arcs: seq<u32>): seq<byte>
    requires |arcs| >= 2 && 40 * arcs[0] + arcs[1] < TWO_32
  {
    DerTag(0x06, [(40 * arcs[0] + arcs[1]) % 256] + Arcs(arcs, 2))
  }

  /** How many base-128 digits an arc has; a 32-bit arc has at most five. */
  lemma FiveDigits(a: nat)
    requires a < 128 * 128 * 128 * 128 * 128
    ensures |Arc(a)| <= 5
  {
    assert a < 128 ==> |Arc(a)| == 1;
    var b := a / 128;
    assert b < 128 ==> |High(b)| == 1;
    var c := b / 128;
    assert c < 128 ==> |High(c)| == 1;
    var d := c / 128;
    assert d < 128 ==> |High(d)| == 1;
    var e := d / 128;
    assert |High(e)| == 1;
    assert |High(d)| <= 2;
    assert |High(c)| <= 3;
    assert |High(b)| <= 4;
  }

  /** What is left to write of an arc once `a` remains. */
  function Left(a: nat): seq<byte> {
    if a == 0 then [] else High(a)
  }

  lemma LeftStep(a: nat)
    requires a > 0
    ensures Left(a) == Left(a / 128) + [a % 128 + 128]
  {}

  /** One more digit in front of those written; there was room for it. */
  lemma MoreDigits(arc: u32, a: nat, written: seq<byte>, digit: byte, rest: nat)
    requires a > 0 && Arc(arc) == Left(a) + written
    requires digit == a % 128 + 128 && rest == a / 128
    ensures |written| < 5 && rest < a
    ensures Arc(arc) == Left(rest) + ([digit] + written)
  {
    FiveDigits(arc);
    LeftStep(a);
    hide Arc, Left;
    Regroup(Left(rest), [digit], written);
  }

  lemma FirstDigit(arc: u32, digit: byte, rest: nat)
    requires digit == arc % 128 && rest == arc / 128
    ensures Arc(arc) == Left(rest) + [digit]
  {}

  /** Fills the scratch from its end; the index never runs below zero. */
  method EncodeArc(arc: u32) returns (out: seq<byte>)
    ensures out == Arc(arc)
  {
    hide Arc, Left;
    var buf := new byte[5](_ => 0);
    var i := 4;
    var digit: byte, a: nat := arc % 128, arc / 128;
    FirstDigit(arc, digit, a);
    buf[i] := digit;
    ghost var written := [digit];
    while a > 0
      invariant 0 <= i <= 4
      invariant buf[i..] == written
      invariant Arc(arc) == Left(a) + written
      decreases a
    {
      ghost var whole := a;
      digit, a := a % 128 + 128, a / 128;
      MoreDigits(arc, whole, written, digit, a);
      written := [digit] + written;
      i := i - 1;
      buf[i] := digit;
    }
    NothingLeft();
    return buf[i..];
  }

  lemma NothingLeft()
    ensures Left(0) == []
  {}

  method EncodeOid(arcs: seq<u32>) returns (out: seq<byte>)
    requires |arcs| >= 2 && 40 * arcs[0] + arcs[1] < TWO_32
    ensures out == DerOid(arcs)
  {
    hide Arc;
    var body: seq<byte> := [(40 * arcs[0] + arcs[1]) % 256];
    ghost var first := body;
    for i := 2 to |arcs|
      invariant body + Arcs(arcs, i) == first + Arcs(arcs, 2)
    {
      var digits := EncodeArc(arcs[i]);
      Regroup(body, digits, Arcs(arcs, i + 1));
      body := body + digits;
    }
    out := EncodeTag(0x06, body);
  }

  /** Reads one arc: its value so far and what follows; None when the bytes end inside it. */
  function ReadArc(s: seq<byte>, acc: nat): Option<(nat, seq<byte>)> {
    if s == [] then None
    else if s[0] >= 128 then ReadArc(s[1..], 128 * acc + (s[0] - 128))
    else Some((128 * acc + s[0], s[1..]))
  }

  lemma {:induction false} ReadArcShrinks(s: seq<byte>, acc: nat)
    ensures ReadArc(s, acc).Some? ==> |ReadArc(s, acc).value.1| < |s|
  {
    if s != [] && s[0] >= 128 {
      ReadArcShrinks(s[1..], 128 * acc + (s[0] - 128));
    }
  }

  /** Reads arcs to the end. */
  function ReadArcs(s: seq<byte>): Option<seq<nat>>
    decreases |s|
  {
    if s == [] then Some([])
    else
      ReadArcShrinks(s, 0);
      var a := ReadArc(s, 0);
      if a.None? then None
      else
        var more := ReadArcs(a.value.1);
        if more.None? then None else Some([a.value.0] + more.value)
  }

  /** The two arcs joined in the first byte; the first one is at most 2. */
  function FirstTwo(v: byte): (arcs: seq<nat>)
    ensures |arcs| == 2
  {
    if v < 40 then [0, v] else if v < 80 then [1, v - 40] else [2, v - 80]
  }

  /** The content of an object identifier read back (X.690 section 8.19). */
  function ReadOid(content: seq<byte>): Option<seq<nat>> {
    if content == [] then None
    else
      var more := ReadArcs(content[1..]);
      if more.None? then None else Some(FirstTwo(content[0]) + more.value)
  }

  lemma {:induction false} ReadHigh(h: nat, t: seq<byte>)
    ensures ReadArc(High(h) + t, 0) == ReadArc(t, h)
  {
    if h < 128 {
      assert (High(h) + t)[1..] == t;
    } else {
      var digit := h % 128 + 128;
      Regroup(High(h / 128), [digit], t);
      ReadHigh(h / 128, [digit] + t);
      assert ([digit] + t)[1..] == t;
    }
  }

  lemma ReadOneArc(a: nat, t: seq<byte>)
    ensures ReadArc(Arc(a) + t, 0) == Some((a, t))
  {
    if a < 128 {
      assert (Arc(a) + t)[1..] == t;
    } else {
      var last := a % 128;
      Regroup(High(a / 128), [last], t);
      ReadHigh(a / 128, [last] + t);
      assert ([last] + t)[1..] == t;
    }
  }

  lemma {:induction false} ReadAllArcs(arcs: seq<u32>, i: nat)
    requires i <= |arcs|
    ensures ReadArcs(Arcs(arcs, i)) == Some(arcs[i..])
    decreases |arcs| - i
  {
    hide Arc, ReadArc;
    if i == |arcs| {
      assert arcs[i..] == [];
    } else {
      var s, t := Arcs(arcs, i), Arcs(arcs, i + 1);
      ReadOneArc(arcs[i], t);
      ReadAllArcs(arcs, i + 1);
      assert s == Arc(arcs[i]) + t && s != [];
      assert ReadArc(s, 0) == Some((arcs[i] as nat, t));
      assert arcs[i..] == [arcs[i]] + arcs[i + 1..];
    }
  }

  lemma ReadContent(v: byte, arcs: seq<u32>)
    requires |arcs| >= 2
    ensures ReadOid([v] + Arcs(arcs, 2)) == Some(FirstTwo(v) + arcs[2..])
  {
    assert ([v] + Arcs(arcs, 2))[1..] == Arcs(arcs, 2);
    ReadAllArcs(arcs, 2);
    hide Arcs, ReadArcs, FirstTwo;
  }

  /** An identifier reads back as its arcs exactly when its first two fit the byte that joins them. */
  lemma OidRoundTrip(arcs: seq<u32>)
    requires |arcs| >= 2 && 40 * arcs[0] + arcs[1] < TWO_32
    ensures ReadOid([(40 * arcs[0] + arcs[1]) % 256] + Arcs(arcs, 2)) == Some(arcs)
      <==> (arcs[0] < 2 && arcs[1] < 40) || (arcs[0] == 2 && arcs[1] < 176)
  {
    hide ReadOid, Arcs, FirstTwo;
    var v: byte := (40 * arcs[0] + arcs[1]) % 256;
    ReadContent(v, arcs);
    FirstTwoExact(arcs[0], arcs[1]);
    SamePrefix(FirstTwo(v), arcs);
  }

  lemma SamePrefix(first: seq<nat>, arcs: seq<nat>)
    requires |first| == 2 <= |arcs|
    ensures first + arcs[2..] == arcs <==> first == [arcs[0], arcs[1]]
  {
    if first == [arcs[0], arcs[1]] {
      assert first + arcs[2..] == arcs;
    } else {
      var k := if first[0] != arcs[0] then 0 else 1;
      assert (first + arcs[2..])[k] != arcs[k];
    }
  }

  lemma FirstTwoExact(a: nat, b: nat)
    ensures FirstTwo((40 * a + b) % 256) == [a, b] <==> (a < 2 && b < 40) || (a == 2 && b < 176)
  {}

  lemma {:induction false} ReadBeZero(v: seq<byte>)
    ensures ReadBe([0] + v) == ReadBe(v)
  {
    var s := [0] + v;
    if v == [] {
      assert s[..|s| - 1] == [];
      assert ReadBe([]) == 0;
    } else {
      assert s[..|s| - 1] == [0] + v[..|v| - 1];
      ReadBeZero(v[..|v| - 1]);
    }
  }

  /** An integer is read back with the same magnitude and a clear sign bit (X.690 section 8.3). */
  lemma IntReadsBack(v: seq<byte>, rest: seq<byte>)
    requires v != [] && |v| < 65535
    ensures var p := PeelTag(DerInt(v) + rest, 0x02);
      && p.Piece? && p.rest == rest
      && p.content != [] && p.content[0] < 0x80 && ReadBe(p.content) == ReadBe(v)
  {
    hide PeelTag, DerTag, ReadBe;
    var body := (if v[0] >= 0x80 then [0] else []) + v;
    assert DerInt(v) == DerTag(0x02, body);
    PeelUndoesTag(0x02, body, rest);
    ReadBeZero(v);
    assert [] + v == v;
  }

  // ---- issuer and serial of a certificate ----

  datatype Extracted = Found(issuer: seq<byte>, serial: seq<byte>) | Malformed | Panicked

  /** What the code subtracts as the header length of a content. */
  function AssumedHeader(len: nat): nat {
    if len < 0x80 then 2 else if len < 0x100 then 3 else 4
  }

  function OrFail(p: Peeled): Extracted
    requires !p.Piece?
  {
    if p.Panic? then Panicked else Malformed
  }

  /** From the serial number on: serial, signature algorithm, issuer. */
  function ExtractFrom(pos: seq<byte>): Extracted {
    var serial := PeelTag(pos, 0x02);
    if !serial.Piece? then OrFail(serial)
    else if |pos| < |serial.content| + AssumedHeader(|serial.content|) then Panicked
    else
      var algorithm := PeelTlv(serial.rest);
      if !algorithm.Piece? then OrFail(algorithm)
      else
        var issuer := PeelTag(algorithm.rest, 0x30);
        if !issuer.Piece? then OrFail(issuer)
        else
          Found(algorithm.rest[..|algorithm.rest| - |issuer.rest|], pos[..|pos| - |serial.rest|])
  }

  function Extract(cert: seq<byte>): Extracted {
    var outer := PeelTag(cert, 0x30);
    if !outer.Piece? then OrFail(outer)
    else
      var tbs := PeelTag(outer.content, 0x30);
      if !tbs.Piece? then OrFail(tbs)
      else if tbs.content != [] && tbs.content[0] == 0xa0 then
        var version := PeelTlv(tbs.content);
        if !version.Piece? then OrFail(version) else ExtractFrom(version.rest)
      else ExtractFrom(tbs.content)
  }

  /** On every input the header subtraction stays at or above zero. */
  lemma HeaderNeverUnderflows(pos: seq<byte>, tag: byte)
    requires PeelTag(pos, tag).Piece?
    ensures var c := PeelTag(pos, tag).content; |c| + AssumedHeader(|c|) <= |pos|
  {
    var tail := pos[1..];
    if tail[0] >= 0x80 {
      FoldBound(tail[1..1 + (tail[0] - 0x80)]);
    }
    hide FoldLength;
  }

  /** A certificate as the encoders assemble it. */
  datatype Parts = Parts(
    version: Option<seq<byte>>,
    serial: seq<byte>,
    algorithmTag: byte,
    algorithm: seq<byte>,
    issuer: seq<byte>,
    tbsRest: seq<byte>,
    certRest: seq<byte>)

  function SerialOn(p: Parts): seq<byte>
    requires p.serial != []
  {
    DerInt(p.serial) + (DerTag(p.algorithmTag, p.algorithm) + (DerTag(0x30, p.issuer) + p.tbsRest))
  }

  function Tbs(p: Parts): seq<byte>
    requires p.serial != []
  {
    (if p.version.Some? then DerTag(0xa0, p.version.value) else []) + SerialOn(p)
  }

  function Assemble(p: Parts): seq<byte>
    requires p.serial != []
  {
    DerTag(0x30, DerTag(0x30, Tbs(p)) + p.certRest)
  }

  /** Every content fits a two-byte length. */
  predicate Fits(p: Parts)
    requires p.serial != []
  {
    && |DerTag(0x30, Tbs(p)) + p.certRest| < 65536
  }

  lemma PeelPiece(tag: byte, content: seq<byte>, rest: seq<byte>)
    requires |content| < 65536
    ensures PeelTag(DerTag(tag, content) + rest, tag) == Piece(content, rest)
    ensures PeelTlv(DerTag(tag, content) + rest) == Piece(content, rest)
    ensures (DerTag(tag, content) + rest)[..|DerTag(tag, content)|] == DerTag(tag, content)
  {
    PeelUndoesTag(tag, content, rest);
    PeelEncoded(tag, content, rest);
    hide PeelTag, PeelTlv, DerTag;
  }

  lemma ExtractFromAssembled(p: Parts)
    requires p.serial != [] && |SerialOn(p)| < 65536
    ensures ExtractFrom(SerialOn(p)) == Found(DerTag(0x30, p.issuer), DerInt(p.serial))
  {
    var body := (if p.serial[0] >= 0x80 then [0] else []) + p.serial;
    var issuerOn := DerTag(0x30, p.issuer) + p.tbsRest;
    var algorithmOn := DerTag(p.algorithmTag, p.algorithm) + issuerOn;
    var pos := DerTag(0x02, body) + algorithmOn;
    assert pos == SerialOn(p);
    hide DerTag, PeelTag, PeelTlv, DerInt, SerialOn;
    PeelPiece(0x02, body, algorithmOn);
    PeelPiece(p.algorithmTag, p.algorithm, issuerOn);
    PeelPiece(0x30, p.issuer, p.tbsRest);
    HeaderNeverUnderflows(pos, 0x02);
    assert |pos| - |algorithmOn| == |DerTag(0x02, body)|;
    assert |issuerOn| - |p.tbsRest| == |DerTag(0x30, p.issuer)|;
    assert DerInt(p.serial) == DerTag(0x02, body);
  }

  /** From every assembled certificate, with or without version, exactly its serial and issuer come out. */
  lemma ExtractAssembled(p: Parts)
    requires p.serial != [] && Fits(p)
    ensures Extract(Assemble(p)) == Found(DerTag(0x30, p.issuer), DerInt(p.serial))
  {
    var outer, tbs := DerTag(0x30, Tbs(p)) + p.certRest, Tbs(p);
    ExtractFromAssembled(p);
    SerialFirst(p);
    hide ExtractFrom, DerInt, SerialOn, PeelTag, PeelTlv;
    assert Assemble(p) + [] == Assemble(p);
    PeelPiece(0x30, outer, []);
    PeelPiece(0x30, tbs, p.certRest);
    if p.version.Some? {
      PeelPiece(0xa0, p.version.value, SerialOn(p));
      assert tbs[0] == 0xa0;
    } else {
      assert tbs == SerialOn(p);
    }
  }

  /** A certificate cut short anywhere is malformed. */
  lemma ExtractCut(p: Parts, k: nat)
    requires p.serial != [] && Fits(p) && k < |Assemble(p)|
    ensures Extract(Assemble(p)[..k]) == Malformed
  {
    hide DerTag, PeelTag, Tbs, ExtractFrom;
    PeelCut(0x30, DerTag(0x30, Tbs(p)) + p.certRest, k, 0x30, []);
  }

  /** A certificate that starts with neither a version nor a serial number is malformed. */
  lemma ExtractOther(tag: byte, content: seq<byte>, rest: seq<byte>)
    requires tag != 0xa0 && tag != 0x02
    requires |DerTag(0x30, DerTag(tag, content) + rest)| < 65536
    ensures Extract(DerTag(0x30, DerTag(0x30, DerTag(tag, content) + rest))) == Malformed
  {
    var tbs := DerTag(tag, content) + rest;
    PeelPiece(0x30, DerTag(0x30, tbs), []);
    PeelPiece(0x30, tbs, []);
    assert DerTag(0x30, DerTag(0x30, tbs)) + [] == DerTag(0x30, DerTag(0x30, tbs));
    assert DerTag(0x30, tbs) + [] == DerTag(0x30, tbs);
    PeelCut(tag, content, 0, 0x02, rest);
    assert tbs[0] == tag;
    hide DerTag, PeelTag;
  }

  lemma SerialFirst(p: Parts)
    requires p.serial != []
    ensures SerialOn(p) != [] && SerialOn(p)[0] == 0x02
  {}
}
