/** Well-formed UTF-8, as RFC 3629 section 4 defines it and `str::from_utf8` checks it. */
module Utf8 {
  import opened Bytes

  predicate Continuation(b: byte) {
    0x80 <= b < 0xC0
  }

  predicate ValidUtf8(s: seq<byte>) {
    if s == [] then true
    else if s[0] < 0x80 then ValidUtf8(s[1..])
    else if 0xC2 <= s[0] <= 0xDF then
      |s| >= 2 && Continuation(s[1]) && ValidUtf8(s[2..])
    else if 0xE0 <= s[0] <= 0xEF then
      && |s| >= 3
      && Continuation(s[1]) && Continuation(s[2])
      && (s[0] == 0xE0 ==> s[1] >= 0xA0)
      && (s[0] == 0xED ==> s[1] < 0xA0)
      && ValidUtf8(s[3..])
    else if 0xF0 <= s[0] <= 0xF4 then
      && |s| >= 4
      && Continuation(s[1]) && Continuation(s[2]) && Continuation(s[3])
      && (s[0] == 0xF0 ==> s[1] >= 0x90)
      && (s[0] == 0xF4 ==> s[1] < 0x90)
      && ValidUtf8(s[4..])
    else false
  }

  /** A Rust string: its UTF-8 bytes. */
  type Str = s: seq<byte> | ValidUtf8(s) witness []

  // ---- exactly the encodings of characters ----

  /** A Unicode scalar value. */
  type Char = c: int | 0 <= c < 0x110000 && !(0xD800 <= c < 0xE000)

  function EncodeChar(c: Char): (s: seq<byte>)
    ensures s != []
  {
    if c < 0x80 then [c]
    else if c < 0x800 then [0xC0 + c / 64, 0x80 + c % 64]
    else if c < 0x10000 then [0xE0 + c / 4096, 0x80 + c / 64 % 64, 0x80 + c % 64]
    else [0xF0 + c / 262144, 0x80 + c / 4096 % 64, 0x80 + c / 64 % 64, 0x80 + c % 64]
  }

  function EncodeText(cs: seq<Char>): seq<byte> {
    if cs == [] then [] else EncodeChar(cs[0]) + EncodeText(cs[1..])
  }

  lemma Digits2(a: int, b: int)
    requires 0 <= a && 0 <= b < 64
    ensures (64 * a + b) / 64 == a && (64 * a + b) % 64 == b
  {}

  /** The character that a first byte and continuation bytes spell. */
  lemma SpellTwo(a: byte, b: byte) returns (c: Char)
    requires 0xC2 <= a <= 0xDF && Continuation(b)
    ensures EncodeChar(c) == [a, b]
  {
    var x: int, y: int := a - 0xC0, b - 0x80;
    Digits2(x, y);
    c := 64 * x + y;
  }

  lemma SpellThree(a: byte, b: byte, d: byte) returns (c: Char)
    requires 0xE0 <= a <= 0xEF && Continuation(b) && Continuation(d)
    requires (a == 0xE0 ==> b >= 0xA0) && (a == 0xED ==> b < 0xA0)
    ensures EncodeChar(c) == [a, b, d]
  {
    var x: int, y: int, z: int := a - 0xE0, b - 0x80, d - 0x80;
    c := 4096 * x + 64 * y + z;
    assert c == 64 * (64 * x + y) + z;
    Digits2(64 * x + y, z);
    Digits2(x, y);
    ByLarge(c, x, 64 * y + z);
  }

  lemma ByLarge(c: int, x: int, r: int)
    requires c == 4096 * x + r && 0 <= x && 0 <= r < 4096
    ensures c / 4096 == x
  {}

  lemma SpellFour(a: byte, b: byte, d: byte, e: byte) returns (c: Char)
    requires 0xF0 <= a <= 0xF4 && Continuation(b) && Continuation(d) && Continuation(e)
    requires (a == 0xF0 ==> b >= 0x90) && (a == 0xF4 ==> b < 0x90)
    ensures EncodeChar(c) == [a, b, d, e]
  {
    var w: int, x: int, y: int, z: int := a - 0xF0, b - 0x80, d - 0x80, e - 0x80;
    c := 262144 * w + 4096 * x + 64 * y + z;
    assert c == 64 * (64 * (64 * w + x) + y) + z;
    Digits2(64 * (64 * w + x) + y, z);
    Digits2(64 * w + x, y);
    Digits2(w, x);
    ByLarge(c, 64 * w + x, 64 * y + z);
    ByLargest(c, w, 4096 * x + 64 * y + z);
  }

  lemma ByLargest(c: int, w: int, r: int)
    requires c == 262144 * w + r && 0 <= w && 0 <= r < 262144
    ensures c / 262144 == w
  {}

  /** Every well-formed byte string is the encoding of a text. */
  lemma {:induction false} ValidText(s: seq<byte>) returns (cs: seq<Char>)
    requires ValidUtf8(s)
    ensures EncodeText(cs) == s
    decreases |s|
  {
    hide EncodeChar;
    if s == [] {
      cs := [];
    } else if s[0] < 0x80 {
      var more := ValidText(s[1..]);
      cs := [s[0]] + more;
      OneByte(s[0]);
      TextFirst(cs, s, 1);
    } else if s[0] < 0xE0 {
      var more := ValidText(s[2..]);
      var c := SpellTwo(s[0], s[1]);
      cs := [c] + more;
      TextFirst(cs, s, 2);
    } else if s[0] < 0xF0 {
      var more := ValidText(s[3..]);
      var c := SpellThree(s[0], s[1], s[2]);
      cs := [c] + more;
      TextFirst(cs, s, 3);
    } else {
      var more := ValidText(s[4..]);
      var c := SpellFour(s[0], s[1], s[2], s[3]);
      cs := [c] + more;
      TextFirst(cs, s, 4);
    }
  }

  lemma OneByte(b: byte)
    requires b < 0x80
    ensures EncodeChar(b) == [b]
  {}

  lemma TextFirst(cs: seq<Char>, s: seq<byte>, n: nat)
    requires cs != [] && n <= |s| && EncodeChar(cs[0]) == s[..n] && EncodeText(cs[1..]) == s[n..]
    ensures EncodeText(cs) == s
  {
    hide EncodeChar;
    assert s == s[..n] + s[n..];
  }

  lemma CharBounds(c: Char)
    ensures 0x80 <= c < 0x800 ==> 2 <= c / 64 < 32
    ensures 0x800 <= c < 0x10000 ==> 0 <= c / 4096 < 16 && c / 64 == 64 * (c / 4096) + c / 64 % 64
    ensures 0x10000 <= c ==> 0 <= c / 262144 <= 4 && c / 4096 == 64 * (c / 262144) + c / 4096 % 64
  {
    var q := c / 64;
    assert c / 4096 == q / 64;
    assert c / 262144 == c / 4096 / 64;
  }

  lemma CharValid(c: Char, rest: seq<byte>)
    ensures ValidUtf8(EncodeChar(c) + rest) <==> ValidUtf8(rest)
  {
    var e := EncodeChar(c);
    CharBounds(c);
    assert (e + rest)[|e|..] == rest;
    assert forall i | 0 <= i < |e| :: (e + rest)[i] == e[i];
  }

  lemma {:induction false} TextValid(cs: seq<Char>)
    ensures ValidUtf8(EncodeText(cs))
  {
    hide EncodeChar;
    if cs != [] {
      TextValid(cs[1..]);
      CharValid(cs[0], EncodeText(cs[1..]));
    }
  }

  /** A byte string is well-formed exactly if it encodes a text. */
  lemma ValidExactly(s: seq<byte>)
    ensures ValidUtf8(s) <==> exists cs :: EncodeText(cs) == s
  {
    hide ValidUtf8, EncodeText;
    if ValidUtf8(s) {
      var cs := ValidText(s);
    }
    if cs :| EncodeText(cs) == s {
      TextValid(cs);
    }
  }

  /** The position of the first NUL of `s`, or |s| when there is none. */
  function NulIndex(s: seq<byte>): (i: nat)
    ensures i <= |s|
    ensures 0 !in s[..i]
    ensures i < |s| ==> s[i] == 0
  {
    if s == [] || s[0] == 0 then 0
    else
      var i := 1 + NulIndex(s[1..]);
      assert s[..i] == [s[0]] + s[1..][..i - 1];
      i
  }

  lemma NulIndexIs(s: seq<byte>, i: nat)
    requires i <= |s| && 0 !in s[..i] && (i < |s| ==> s[i] == 0)
    ensures NulIndex(s) == i
  {
  }
}
