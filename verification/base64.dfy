/** Base64 as src/lockdown/pairing.rs encodes it and src/bin/ios/cmd/pair.rs decodes it. */
module Base64 {
  import opened Bytes

  // ---- bitwise or ----

  /** The bits set in `a` or in `b`. */
  function Or(a: nat, b: nat): nat {
    if a == 0 && b == 0 then 0
    else 2 * Or(a / 2, b / 2) + if a % 2 == 1 || b % 2 == 1 then 1 else 0
  }

  function Pow2(k: nat): (p: nat)
    ensures p >= 1
  {
    if k == 0 then 1 else 2 * Pow2(k - 1)
  }

  lemma {:induction false} OrZero(a: nat)
    ensures Or(a, 0) == a
  {
    if a != 0 {
      OrZero(a / 2);
    }
  }

  /** Disjoint bits add. */
  lemma {:induction false} OrAdds(q: nat, b: nat, k: nat)
    requires b < Pow2(k)
    ensures Or(q * Pow2(k), b) == q * Pow2(k) + b
  {
    if k == 0 {
      OrZero(q);
    } else {
      var h := q * Pow2(k - 1);
      assert q * Pow2(k) == 2 * h;
      OrAdds(q, b / 2, k - 1);
    }
  }

  lemma {:induction false} OrBelow(a: nat, b: nat, k: nat)
    requires a < Pow2(k) && b < Pow2(k)
    ensures Or(a, b) < Pow2(k)
  {
    if k > 0 {
      OrBelow(a / 2, b / 2, k - 1);
    }
  }

  /** The or of two bytes. */
  function Or8(a: byte, b: byte): byte {
    Powers(); OrBelow(a, b, 8); Or(a, b)
  }

  lemma Powers()
    ensures Pow2(2) == 4 && Pow2(4) == 16 && Pow2(6) == 64 && Pow2(8) == 256 && Pow2(16) == 65536
  {
    assert Pow2(1) == 2;
    assert Pow2(3) == 8;
    assert Pow2(5) == 32;
    assert Pow2(7) == 128;
    assert Pow2(10) == 4 * Pow2(8);
    assert Pow2(12) == 4 * Pow2(10);
    assert Pow2(14) == 4 * Pow2(12);
  }

  // ---- the alphabet (RFC 4648 section 4) ----

  const PAD: byte := 61
  const LF: byte := 10
  const CR: byte := 13

  predicate Skipped(c: byte) {
    c == PAD || c == LF || c == CR
  }

  type sextet = x: int | 0 <= x < 64

  function Symbol(v: sextet): (c: byte)
    ensures !Skipped(c)
    ensures ValueOf(c) == v
  {
    if v < 26 then 65 + v
    else if v < 52 then 97 + (v - 26)
    else if v < 62 then 48 + (v - 52)
    else if v == 62 then 43
    else 47
  }

  /** What the decoder's table holds: 0xff outside the alphabet. */
  function ValueOf(c: byte): byte {
    if 65 <= c <= 90 then c - 65
    else if 97 <= c <= 122 then c - 97 + 26
    else if 48 <= c <= 57 then c - 48 + 52
    else if c == 43 then 62
    else if c == 47 then 63
    else 0xff
  }

  method BuildTable() returns (table: array<byte>)
    ensures fresh(table) && table.Length == 256
    ensures forall c: byte :: table[c] == ValueOf(c)
  {
    table := new byte[256](_ => 0xff);
    for i := 0 to 64
      invariant forall c: byte :: table[c] == if ValueOf(c) < i then ValueOf(c) else 0xff
    {
      table[Symbol(i)] := i;
      assert forall c: byte :: ValueOf(c) == i ==> c == Symbol(i);
    }
  }

  // ---- encoding ----

  /** The four symbols of a 24-bit group. */
  function Quad(b: nat): (s: seq<byte>)
    ensures |s| == 4
  {
    [Symbol(b / 0x40000 % 64), Symbol(b / 0x1000 % 64), Symbol(b / 0x40 % 64), Symbol(b % 64)]
  }

  /** Three bytes as one group. */
  function Group(x: nat, y: nat, z: nat): nat {
    Or(Or(x * 0x10000, y * 0x100), z)
  }

  function Encode(s: seq<byte>): (text: seq<byte>)
    decreases |s|
  {
    if |s| == 0 then []
    else if |s| == 1 then Quad(Group(s[0], 0, 0))[..2] + [PAD, PAD]
    else if |s| == 2 then Quad(Group(s[0], s[1], 0))[..3] + [PAD]
    else Quad(Group(s[0], s[1], s[2])) + Encode(s[3..])
  }

  method EncodeLoop(input: seq<byte>) returns (out: seq<byte>)
    ensures out == Encode(input)
  {
    hide Quad, Group;
    out := [];
    var i := 0;
    while i + 3 <= |input|
      invariant i <= |input|
      invariant out + Encode(input[i..]) == Encode(input)
    {
      ghost var left := input[i..];
      assert left[3..] == input[i + 3..];
      var quad := Quad(Group(input[i], input[i + 1], input[i + 2]));
      Regroup(out, quad, Encode(left[3..]));
      out := out + quad;
      i := i + 3;
    }
    if |input| - i == 1 {
      OneByte(input[i]);
      out := out + (Quad(input[i] as nat * 0x10000)[..2] + [PAD, PAD]);
    } else if |input| - i == 2 {
      TwoBytes(input[i], input[i + 1]);
      out := out + (Quad(Or(input[i] as nat * 0x10000, input[i + 1] as nat * 0x100))[..3] + [PAD]);
    }
  }

  lemma OneByte(x: nat)
    ensures Group(x, 0, 0) == x * 0x10000
  {
    OrZero(x * 0x10000);
  }

  lemma TwoBytes(x: nat, y: nat)
    ensures Group(x, y, 0) == Or(x * 0x10000, y * 0x100)
  {
    OrZero(Or(x * 0x10000, y * 0x100));
  }

  // ---- decoding ----

  /** Padding and line ends taken out, wherever they stand. */
  function Clean(s: seq<byte>): (t: seq<byte>) {
    if s == [] then []
    else (if Skipped(s[0]) then [] else [s[0]]) + Clean(s[1..])
  }

  // The shifts of the decoder are on eight bits.

  function First(a: byte, b: byte): byte {
    Or8(a * 4 % 256, b / 16)
  }

  function Second(b: byte, c: byte): byte {
    Or8(b * 16 % 256, c / 4)
  }

  function Third(c: byte, d: byte): byte {
    Or8(c * 64 % 256, d)
  }

  /** The bytes of a group of two, three or four symbols. */
  function Decoded(chunk: seq<byte>): seq<byte>
    requires 2 <= |chunk| <= 4
  {
    [First(ValueOf(chunk[0]), ValueOf(chunk[1]))]
    + (if |chunk| > 2 then [Second(ValueOf(chunk[1]), ValueOf(chunk[2]))] else [])
    + (if |chunk| > 3 then [Third(ValueOf(chunk[2]), ValueOf(chunk[3]))] else [])
  }

  /** Groups of four; a last group of one is dropped. */
  function Ungroup(t: seq<byte>): (s: seq<byte>)
    decreases |t|
  {
    if |t| < 2 then []
    else
      var n := if |t| < 4 then |t| else 4;
      Decoded(t[..n]) + Ungroup(t[n..])
  }

  function Decode(text: seq<byte>): seq<byte> {
    Ungroup(Clean(text))
  }

  // ---- round trip ----

  lemma {:induction false} CleanAppend(a: seq<byte>, b: seq<byte>)
    ensures Clean(a + b) == Clean(a) + Clean(b)
  {
    if a == [] {
      assert a + b == b;
    } else {
      assert (a + b)[1..] == a[1..] + b;
      CleanAppend(a[1..], b);
    }
  }

  lemma {:induction false} CleanKeeps(a: seq<byte>)
    requires forall i | 0 <= i < |a| :: !Skipped(a[i])
    ensures Clean(a) == a
  {
    if a != [] {
      CleanKeeps(a[1..]);
      assert a == [a[0]] + a[1..];
    }
  }

  lemma CleanPads()
    ensures Clean([PAD]) == [] && Clean([PAD, PAD]) == []
  {
    assert [PAD, PAD][1..] == [PAD];
  }

  lemma GroupAdds(x: nat, y: byte, z: byte)
    ensures Group(x, y, z) == x * 0x10000 + y as nat * 0x100 + z
  {
    Powers();
    OrAdds(x, y as nat * 0x100, 16);
    OrAdds(x * 0x100 + y, z, 8);
  }

  lemma Digits(x: byte, y: byte, z: byte, b: nat)
    requires b == x as nat * 0x10000 + y as nat * 0x100 + z
    ensures b / 0x40000 % 64 == x / 4
    ensures b / 0x1000 % 64 == x % 4 * 16 + y / 16
    ensures b / 0x40 % 64 == y % 16 * 4 + z / 64
    ensures b % 64 == z % 64
  {
    assert b / 0x40000 == x / 4;
    assert b / 0x1000 == x as nat * 16 + y / 16;
    assert b / 0x40 == x as nat * 0x400 + y as nat * 4 + z / 64;
  }

  // The shifts of the decoder rebuild bytes from digits of six bits.

  /** A byte whose low bits are free takes them from another. */
  lemma FillsLowBits(q: nat, low: nat, k: nat)
    requires low < Pow2(k) && q * Pow2(k) + low < 256
    ensures Or8(q * Pow2(k), low) == q * Pow2(k) + low
  {
    OrAdds(q, low, k);
  }

  /** The three places where the decoder joins digits. */
  lemma Fills(q: nat, low: nat)
    ensures low < 4 && q * 4 + low < 256 ==> Or8(q * 4, low) == q * 4 + low
    ensures low < 16 && q * 16 + low < 256 ==> Or8(q * 16, low) == q * 16 + low
    ensures low < 64 && q * 64 + low < 256 ==> Or8(q * 64, low) == q * 64 + low
  {
    hide Or8, Pow2;
    Powers();
    if low < 4 && q * 4 + low < 256 {
      FillsLowBits(q, low, 2);
    }
    if low < 16 && q * 16 + low < 256 {
      FillsLowBits(q, low, 4);
    }
    if low < 64 && q * 64 + low < 256 {
      FillsLowBits(q, low, 6);
    }
  }

  /** Shifts on eight bits drop what goes beyond. */
  lemma Shifts(b: sextet)
    ensures b * 4 % 256 == b * 4 && b * 16 % 256 == b % 16 * 16 && b * 64 % 256 == b % 4 * 64
  {}

  lemma FirstAdds(a: sextet, b: sextet)
    ensures First(a, b) == a * 4 + b / 16
  {
    hide Or8;
    Shifts(a);
    Fills(a, b / 16);
  }

  lemma SecondAdds(b: sextet, c: sextet)
    ensures Second(b, c) == b % 16 * 16 + c / 4
  {
    hide Or8;
    Shifts(b);
    Fills(b % 16, c / 4);
  }

  lemma ThirdAdds(c: sextet, d: sextet)
    ensures Third(c, d) == c % 4 * 64 + d
  {
    hide Or8;
    Shifts(c);
    Fills(c % 4, d);
  }

  lemma Quads(x: byte, y: byte, z: byte)
    ensures Quad(Group(x, y, z)) == [
      Symbol(x / 4), Symbol(x % 4 * 16 + y / 16), Symbol(y % 16 * 4 + z / 64), Symbol(z % 64)]
  {
    GroupAdds(x, y, z);
    Digits(x, y, z, Group(x, y, z));
    hide Group;
  }

  lemma BytesBack(x: byte, y: byte, z: byte)
    ensures First(x / 4, x % 4 * 16 + y / 16) == x
    ensures Second(x % 4 * 16 + y / 16, y % 16 * 4 + z / 64) == y
    ensures Third(y % 16 * 4 + z / 64, z % 64) == z
  {
    var a: sextet, b: sextet, c: sextet, d: sextet := x / 4, x % 4 * 16 + y / 16, y % 16 * 4 + z / 64, z % 64;
    FirstAdds(a, b);
    SecondAdds(b, c);
    ThirdAdds(c, d);
    hide First, Second, Third;
    assert b / 16 == x % 4 && b % 16 == y / 16;
    assert c / 4 == y % 16 && c % 4 == z / 64;
  }

  lemma LastSymbols(s: seq<byte>)
    requires 1 <= |s| <= 2
    ensures Clean(Encode(s)) == Quad(Group(s[0], if |s| == 1 then 0 else s[1], 0))[..|s| + 1]
  {
    hide Quad, Group, Symbol, ValueOf, Skipped, Clean;
    var x: byte, y: byte := s[0], if |s| == 1 then 0 else s[1];
    var quad := Quad(Group(x, y, 0));
    var q := quad[..|s| + 1];
    Quads(x, y, 0);
    assert forall i | 0 <= i < |q| :: q[i] == quad[i];
    CleanKeeps(q);
    CleanPads();
    CleanAppend(q, if |s| == 1 then [PAD, PAD] else [PAD]);
    assert q + [] == q;
  }

  lemma UngroupOne(t: seq<byte>)
    requires 2 <= |t| <= 4
    ensures Ungroup(t) == Decoded(t)
  {
    assert t[..|t|] == t;
    hide Decoded;
  }

  lemma DecodedGroup(x: byte, y: byte, z: byte, n: nat)
    requires 2 <= n <= 4
    ensures Decoded(Quad(Group(x, y, z))[..n]) == [x, y, z][..n - 1]
  {
    Quads(x, y, z);
    BytesBack(x, y, z);
    hide Quad, Group, First, Second, Third, Symbol, ValueOf;
    var p, q, r, s := Symbol(x / 4), Symbol(x % 4 * 16 + y / 16), Symbol(y % 16 * 4 + z / 64), Symbol(z % 64);
    assert n == 2 ==> [p, q, r, s][..n] == [p, q];
    assert n == 3 ==> [p, q, r, s][..n] == [p, q, r];
    assert n == 4 ==> [p, q, r, s][..n] == [p, q, r, s];
  }

  lemma LastGroup(s: seq<byte>)
    requires 1 <= |s| <= 2
    ensures Ungroup(Clean(Encode(s))) == s
  {
    hide Ungroup, Decoded, Quad, Group, Clean, Encode;
    var y: byte := if |s| == 1 then 0 else s[1];
    LastSymbols(s);
    UngroupOne(Clean(Encode(s)));
    DecodedGroup(s[0], y, 0, |s| + 1);
    assert [s[0], y, 0][..|s|] == s;
  }

  /** Every byte string comes back from its encoding. */
  lemma {:induction false} RoundTrip(s: seq<byte>)
    ensures Decode(Encode(s)) == s
    decreases |s|
  {
    hide Quad, Group, Decoded, Symbol, ValueOf, Skipped;
    if |s| == 0 {
    } else if |s| < 3 {
      LastGroup(s);
    } else {
      var q, t := Quad(Group(s[0], s[1], s[2])), Encode(s[3..]);
      Quads(s[0], s[1], s[2]);
      DecodedGroup(s[0], s[1], s[2], 4);
      assert q[..4] == q;
      CleanKeeps(q);
      CleanAppend(q, t);
      RoundTrip(s[3..]);
      assert (q + Clean(t))[..4] == q && (q + Clean(t))[4..] == Clean(t);
      assert [s[0], s[1], s[2]][..3] == [s[0], s[1], s[2]];
      assert s == [s[0], s[1], s[2]] + s[3..];
    }
  }

  lemma {:induction false} EncodingSymbols(s: seq<byte>, k: nat)
    requires k < |Encode(s)|
    ensures var c := Encode(s)[k]; c == PAD || ValueOf(c) < 64
    decreases |s|
  {
    hide Group;
    if 3 <= |s| && 4 <= k {
      EncodingSymbols(s[3..], k - 4);
    }
  }

  // ---- the decoder's loops ----

  lemma CleanFrom(text: seq<byte>, i: nat)
    requires i < |text|
    ensures Clean(text[i..]) == (if Skipped(text[i]) then [] else [text[i]]) + Clean(text[i + 1..])
    ensures Clean(text[i..]) == if Skipped(text[i]) then Clean(text[i + 1..]) else [text[i]] + Clean(text[i + 1..])
  {
    assert text[i..][1..] == text[i + 1..];
  }

  method CleanLoop(text: seq<byte>) returns (bytes: seq<byte>)
    ensures bytes == Clean(text)
  {
    bytes := [];
    for i := 0 to |text|
      invariant bytes + Clean(text[i..]) == Clean(text)
    {
      CleanFrom(text, i);
      hide Clean, Skipped;
      if !Skipped(text[i]) {
        Regroup(bytes, [text[i]], Clean(text[i + 1..]));
        bytes := bytes + [text[i]];
      }
    }
  }

  method DecodeChunk(table: array<byte>, chunk: seq<byte>) returns (part: seq<byte>)
    requires table.Length == 256 && forall c: byte :: table[c] == ValueOf(c)
    requires 2 <= |chunk| <= 4
    ensures part == Decoded(chunk)
  {
    hide First, Second, Third, ValueOf;
    var b0, b1 := table[chunk[0]], table[chunk[1]];
    part := [First(b0, b1)];
    if |chunk| > 2 {
      var b2 := table[chunk[2]];
      part := part + [Second(b1, b2)];
      if |chunk| > 3 {
        part := part + [Third(b2, table[chunk[3]])];
      }
    }
  }

  method DecodeLoop(text: seq<byte>) returns (out: seq<byte>)
    ensures out == Decode(text)
  {
    hide ValueOf, Clean, Decoded;
    var table := BuildTable();
    var bytes := CleanLoop(text);
    out := [];
    var i := 0;
    while i < |bytes|
      invariant i <= |bytes|
      invariant forall c: byte :: table[c] == ValueOf(c)
      invariant out + Ungroup(bytes[i..]) == Ungroup(bytes)
    {
      var end := if i + 4 <= |bytes| then i + 4 else |bytes|;
      var chunk := bytes[i..end];
      if |chunk| < 2 {
        break;
      }
      var part := DecodeChunk(table, chunk);
      ghost var left := bytes[i..];
      assert left[..|chunk|] == chunk && left[|chunk|..] == bytes[end..];
      Regroup(out, part, Ungroup(bytes[end..]));
      out := out + part;
      i := end;
    }
  }
}
