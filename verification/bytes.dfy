/** Bytes, machine integers and their little- and big-endian encodings. */
module Bytes {

  type byte = x: int | 0 <= x < 256

  const TWO_16: int := 0x1_0000
  const TWO_24: int := 0x100_0000
  const TWO_31: int := 0x8000_0000
  const TWO_32: int := 0x1_0000_0000
  const TWO_63: int := 0x8000_0000_0000_0000
  const TWO_64: int := 0x1_0000_0000_0000_0000

  type u16 = x: int | 0 <= x < TWO_16
  type u32 = x: int | 0 <= x < TWO_32
  type u64 = x: int | 0 <= x < TWO_64
  type i32 = x: int | -TWO_31 <= x < TWO_31
  type i64 = x: int | -TWO_63 <= x < TWO_63

  // The casts `as u32`, `as i32`, `as u64` and `as i64` reinterpret two's complement.

  function ToU32(v: i32): u32 {
    if v < 0 then v + TWO_32 else v
  }

  function ToI32(v: u32): i32 {
    if v >= TWO_31 then v - TWO_32 else v
  }

  function ToU64(v: i64): u64 {
    if v < 0 then v + TWO_64 else v
  }

  function ToI64(v: u64): i64 {
    if v >= TWO_63 then v - TWO_64 else v
  }

  function Pow256(w: nat): (p: nat)
    ensures p >= 1
  {
    if w == 0 then 1 else 256 * Pow256(w - 1)
  }

  /** The low `w` bytes of `n`, least significant first: a truncating cast followed by `to_le_bytes`. */
  function Le(n: nat, w: nat): (s: seq<byte>)
    ensures |s| == w
  {
    if w == 0 then [] else [n % 256] + Le(n / 256, w - 1)
  }

  function ReadLe(s: seq<byte>): (n: nat)
    ensures n < Pow256(|s|)
  {
    if s == [] then 0 else s[0] + 256 * ReadLe(s[1..])
  }

  /** Writing and reading back truncates modulo 256^w. */
  lemma {:induction false} ReadLeOfLe(n: nat, w: nat)
    requires n < Pow256(w)
    ensures ReadLe(Le(n, w)) == n
  {
    if w > 0 {
      assert Le(n, w)[1..] == Le(n / 256, w - 1);
      ReadLeOfLe(n / 256, w - 1);
    }
  }

  /** The low `w` bytes of `n`, most significant first. */
  function Be(n: nat, w: nat): (s: seq<byte>)
    ensures |s| == w
  {
    if w == 0 then [] else Be(n / 256, w - 1) + [n % 256]
  }

  function ReadBe(s: seq<byte>): (n: nat)
    ensures n < Pow256(|s|)
  {
    if s == [] then 0 else 256 * ReadBe(s[..|s| - 1]) + s[|s| - 1]
  }

  lemma {:induction false} ReadBeOfBe(n: nat, w: nat)
    requires n < Pow256(w)
    ensures ReadBe(Be(n, w)) == n
  {
    if w > 0 {
      assert Be(n, w)[..w - 1] == Be(n / 256, w - 1);
      ReadBeOfBe(n / 256, w - 1);
    }
  }

  lemma Widths()
    ensures Pow256(2) == TWO_16 && Pow256(3) == TWO_24 && Pow256(4) == TWO_32 && Pow256(8) == TWO_64
  {
    assert Pow256(1) == 256;
    assert Pow256(3) == 256 * Pow256(2);
    assert Pow256(5) == 256 * Pow256(4);
    assert Pow256(6) == 256 * Pow256(5);
    assert Pow256(7) == 256 * Pow256(6);
  }

  /** `s` occupies `buf` from `pos` on. */
  predicate At(buf: seq<byte>, pos: nat, s: seq<byte>) {
    pos + |s| <= |buf| && buf[pos..pos + |s|] == s
  }

  lemma AtAppend(buf: seq<byte>, pos: nat, a: seq<byte>, b: seq<byte>)
    ensures At(buf, pos, a + b) <==> At(buf, pos, a) && At(buf, pos + |a|, b)
  {
    if At(buf, pos, a + b) {
      assert buf[pos..pos + |a|] == buf[pos..pos + |a + b|][..|a|] == a;
      assert buf[pos + |a|..pos + |a| + |b|] == buf[pos..pos + |a + b|][|a|..] == b;
    }
  }

  lemma CutFront(a: seq<byte>, b: seq<byte>, c: seq<byte>, d: seq<byte>)
    requires a + b == c + d && |c| <= |a|
    ensures a[..|c|] == c && a[|c|..] + b == d
  {
    assert a[..|c|] == (a + b)[..|c|] == c;
    assert a[|c|..] + b == (a + b)[|c|..] == (c + d)[|c|..] == d;
  }

  lemma Regroup(a: seq<byte>, b: seq<byte>, c: seq<byte>)
    ensures a + b + c == a + (b + c)
  {}

  function Concat(parts: seq<seq<byte>>): seq<byte> {
    if parts == [] then [] else parts[0] + Concat(parts[1..])
  }

  lemma {:induction false} ConcatSnoc(parts: seq<seq<byte>>, last: seq<byte>)
    ensures Concat(parts + [last]) == Concat(parts) + last
  {
    if parts != [] {
      assert (parts + [last])[1..] == parts[1..] + [last];
      ConcatSnoc(parts[1..], last);
      Regroup(parts[0], Concat(parts[1..]), last);
    } else {
      assert (parts + [last])[1..] == [];
      assert Concat([]) == [] && last + [] == last && [] + last == last;
    }
  }

  /** The unsigned integers that `from_le_bytes` reads at a position. */
  function U16At(buf: seq<byte>, pos: nat): u16
    requires pos + 2 <= |buf|
  {
    Widths(); ReadLe(buf[pos..pos + 2])
  }

  function U32At(buf: seq<byte>, pos: nat): u32
    requires pos + 4 <= |buf|
  {
    Widths(); ReadLe(buf[pos..pos + 4])
  }

  function U64At(buf: seq<byte>, pos: nat): u64
    requires pos + 8 <= |buf|
  {
    Widths(); ReadLe(buf[pos..pos + 8])
  }

  lemma U16OfLe(buf: seq<byte>, pos: nat, n: u16)
    requires At(buf, pos, Le(n, 2))
    ensures U16At(buf, pos) == n
  {
    Widths(); ReadLeOfLe(n, 2);
  }

  lemma U32OfLe(buf: seq<byte>, pos: nat, n: u32)
    requires At(buf, pos, Le(n, 4))
    ensures U32At(buf, pos) == n
  {
    Widths(); ReadLeOfLe(n, 4);
  }

  lemma U64OfLe(buf: seq<byte>, pos: nat, n: u64)
    requires At(buf, pos, Le(n, 8))
    ensures U64At(buf, pos) == n
  {
    Widths(); ReadLeOfLe(n, 8);
  }

  /** A 32-bit field and what follows it. */
  lemma U32Then(buf: seq<byte>, pos: nat, n: u32, rest: seq<byte>)
    requires At(buf, pos, Le(n, 4) + rest)
    ensures pos + 4 <= |buf| && U32At(buf, pos) == n && At(buf, pos + 4, rest)
  {
    AtAppend(buf, pos, Le(n, 4), rest);
    U32OfLe(buf, pos, n);
  }

  /** A growing byte vector, the `&mut Vec<u8>` that encoders append to. */
  class ByteVec {
    var data: seq<byte>

    constructor ()
      ensures data == []
    {
      data := [];
    }

    method Extend(s: seq<byte>)
      modifies this
      ensures data == old(data) + s
    {
      data := data + s;
    }
  }
}
