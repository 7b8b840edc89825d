/** The TLV8 codec of src/tunnel/remote_pairing/tlv8.rs. */
module Tlv8 {
  import opened Bytes

  datatype Entry = Entry(ty: byte, val: seq<byte>)

  // ---- encoding ----

  /** The chunks of a value from position `p` on, each under its own header. */
  function EncodeChunks(ty: byte, val: seq<byte>, p: nat): (out: seq<byte>)
    requires p <= |val|
    decreases |val| - p
  {
    if p == |val| then []
    else
      var n := if |val| - p < 255 then |val| - p else 255;
      [ty, n] + val[p..p + n] + EncodeChunks(ty, val, p + n)
  }

  function EncodeEntry(e: Entry): (out: seq<byte>) {
    if e.val == [] then [e.ty, 0] else EncodeChunks(e.ty, e.val, 0)
  }

  function Encode(entries: seq<Entry>, i: nat): (out: seq<byte>)
    requires i <= |entries|
    decreases |entries| - i
  {
    if i == |entries| then [] else EncodeEntry(entries[i]) + Encode(entries, i + 1)
  }

  // ---- decoding ----

  function Extend(m: map<byte, seq<byte>>, ty: byte, more: seq<byte>): map<byte, seq<byte>> {
    m[ty := (if ty in m then m[ty] else []) + more]
  }

  /** Reads items from `i` on; the last may be cut short. */
  function Decode(data: seq<byte>, i: nat, m: map<byte, seq<byte>>): map<byte, seq<byte>>
    decreases |data| - i
  {
    if i + 1 >= |data| then m
    else
      var end := i + 2 + data[i + 1];
      var stop := if end < |data| then end else |data|;
      Decode(data, stop, Extend(m, data[i], data[i + 2..stop]))
  }

  // ---- round trip ----

  /** The values listed for a type, joined in order. */
  function Listed(entries: seq<Entry>, ty: byte): seq<byte> {
    if entries == [] then []
    else
      var last := entries[|entries| - 1];
      Listed(entries[..|entries| - 1], ty) + if last.ty == ty then last.val else []
  }

  /** Exactly the listed types, each with its values joined in order. */
  ghost predicate Means(m: map<byte, seq<byte>>, entries: seq<Entry>) {
    && (forall ty :: ty in m <==> exists i :: 0 <= i < |entries| && entries[i].ty == ty)
    && (forall ty | ty in m :: m[ty] == Listed(entries, ty))
  }

  lemma ExtendTwice(m: map<byte, seq<byte>>, ty: byte, a: seq<byte>, b: seq<byte>)
    ensures Extend(Extend(m, ty, a), ty, b) == Extend(m, ty, a + b)
  {
    Regroup(if ty in m then m[ty] else [], a, b);
  }

  lemma DecodeItem(data: seq<byte>, i: nat, m: map<byte, seq<byte>>, ty: byte, n: byte, body: seq<byte>)
    requires |body| == n && At(data, i, [ty, n] + body)
    ensures Decode(data, i, m) == Decode(data, i + 2 + n, Extend(m, ty, body))
  {
    AtAppend(data, i, [ty, n], body);
    assert data[i] == data[i..i + 2][0] && data[i + 1] == data[i..i + 2][1];
  }

  lemma {:induction false} DecodeChunks(
      data: seq<byte>, i: nat, m: map<byte, seq<byte>>, ty: byte, val: seq<byte>, p: nat)
    requires p < |val| && At(data, i, EncodeChunks(ty, val, p))
    ensures Decode(data, i, m) == Decode(data, i + |EncodeChunks(ty, val, p)|, Extend(m, ty, val[p..]))
    decreases |val| - p
  {
    hide Decode, Extend;
    var n := if |val| - p < 255 then |val| - p else 255;
    var body := val[p..p + n];
    var rest := EncodeChunks(ty, val, p + n);
    AtAppend(data, i, [ty, n] + body, rest);
    DecodeItem(data, i, m, ty, n, body);
    if p + n < |val| {
      DecodeChunks(data, i + 2 + n, Extend(m, ty, body), ty, val, p + n);
      ExtendTwice(m, ty, body, val[p + n..]);
      assert body + val[p + n..] == val[p..];
    } else {
      assert body == val[p..];
    }
  }

  lemma DecodeEntry(data: seq<byte>, i: nat, m: map<byte, seq<byte>>, e: Entry)
    requires At(data, i, EncodeEntry(e))
    ensures Decode(data, i, m) == Decode(data, i + |EncodeEntry(e)|, Extend(m, e.ty, e.val))
  {
    hide Decode, EncodeChunks, Extend, At;
    if e.val == [] {
      assert [e.ty, 0] == [e.ty, 0] + [];
      DecodeItem(data, i, m, e.ty, 0, []);
    } else {
      DecodeChunks(data, i, m, e.ty, e.val, 0);
      assert e.val[0..] == e.val;
    }
  }

  lemma MeansMore(m: map<byte, seq<byte>>, entries: seq<Entry>, e: Entry)
    requires Means(m, entries)
    ensures Means(Extend(m, e.ty, e.val), entries + [e])
  {
    var after, more := entries + [e], Extend(m, e.ty, e.val);
    assert after[..|entries|] == entries;
    forall ty ensures ty in more <==> exists i :: 0 <= i < |after| && after[i].ty == ty {
      if ty == e.ty {
        assert after[|entries|].ty == ty;
      } else if ty in m {
        var i :| 0 <= i < |entries| && entries[i].ty == ty;
        assert after[i].ty == ty;
      }
    }
    forall ty | ty in more ensures more[ty] == Listed(after, ty) {
      if ty !in m {
        ListedNone(entries, ty);
      }
    }
  }

  lemma {:induction false} ListedNone(entries: seq<Entry>, ty: byte)
    requires forall i | 0 <= i < |entries| :: entries[i].ty != ty
    ensures Listed(entries, ty) == []
  {
    if entries != [] {
      ListedNone(entries[..|entries| - 1], ty);
    }
  }

  lemma {:induction false} DecodeAll(data: seq<byte>, at: nat, m: map<byte, seq<byte>>, entries: seq<Entry>, i: nat)
    requires i <= |entries| && At(data, at, Encode(entries, i)) && at + |Encode(entries, i)| == |data|
    requires Means(m, entries[..i])
    ensures Means(Decode(data, at, m), entries)
    decreases |entries| - i
  {
    hide Means, EncodeEntry;
    if i < |entries| {
      hide Decode, Extend;
      AtAppend(data, at, EncodeEntry(entries[i]), Encode(entries, i + 1));
      DecodeEntry(data, at, m, entries[i]);
      MeansMore(m, entries[..i], entries[i]);
      assert entries[..i + 1] == entries[..i] + [entries[i]];
      DecodeAll(data, at + |EncodeEntry(entries[i])|, Extend(m, entries[i].ty, entries[i].val), entries, i + 1);
    } else {
      assert entries[..i] == entries;
    }
  }

  /** Decoding an encoded list gives exactly the listed types, empty, long and repeated values included. */
  lemma RoundTrip(entries: seq<Entry>)
    ensures Means(Decode(Encode(entries, 0), 0, map[]), entries)
  {
    hide Encode, Decode;
    assert Means(map[], entries[..0]);
    DecodeAll(Encode(entries, 0), 0, map[], entries, 0);
  }

  // ---- as the program runs them ----

  method EncodeLoop(entries: seq<Entry>) returns (out: seq<byte>)
    ensures out == Encode(entries, 0)
  {
    hide EncodeChunks;
    out := [];
    for i := 0 to |entries|
      invariant out + Encode(entries, i) == Encode(entries, 0)
    {
      Regroup(out, EncodeEntry(entries[i]), Encode(entries, i + 1));
      if entries[i].val == [] {
        out := out + [entries[i].ty, 0];
      } else {
        var chunks := ChunksLoop(entries[i].ty, entries[i].val);
        out := out + chunks;
      }
    }
  }

  method ChunksLoop(ty: byte, val: seq<byte>) returns (out: seq<byte>)
    ensures out == EncodeChunks(ty, val, 0)
  {
    out := [];
    var p := 0;
    while p < |val|
      invariant p <= |val| && out + EncodeChunks(ty, val, p) == EncodeChunks(ty, val, 0)
      decreases |val| - p
    {
      var n := if |val| - p < 255 then |val| - p else 255;
      Regroup(out, [ty, n] + val[p..p + n], EncodeChunks(ty, val, p + n));
      out := out + ([ty, n] + val[p..p + n]);
      p := p + n;
    }
  }

  method DecodeLoop(data: seq<byte>) returns (m: map<byte, seq<byte>>)
    ensures m == Decode(data, 0, map[])
  {
    m := map[];
    var i := 0;
    while i + 1 < |data|
      invariant i <= |data| && Decode(data, i, m) == Decode(data, 0, map[])
      decreases |data| - i
    {
      var ty: byte, len: nat := data[i], data[i + 1];
      i := i + 2;
      var end := if i + len < |data| then i + len else |data|;
      m := Extend(m, ty, data[i..end]);
      i := end;
    }
  }
}
