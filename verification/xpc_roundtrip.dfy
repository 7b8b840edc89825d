/** Decoding undoes encoding, for every value tree, iteration order and surrounding bytes. */
module XpcRoundTrip {
  import opened Bytes
  import opened Utf8
  import opened Xpc
  import opened XpcPeer
  import opened Wrappers

  // ---- what the encoder writes, as a peer's value ----

  /** A leaf with zeros for padding. */
  function PeerLeaf(s: Scalar): Peer {
    match s
    case Null => Nothing
    case Bool(b) => Flag(if b then 1 else 0, Zeros(3))
    case Int64(n) => Signed(n)
    case Uint64(n) => Unsigned(n)
    case Double(bits) => Real(bits)
    case Data(bytes) => Blob(bytes, Zeros(Pad4(|bytes|) - |bytes|))
    case String(s) => Text(s + [0], Zeros(Pad4(|s| + 1) - (|s| + 1)))
    case UuidBytes(id) => Id(id)
  }

  function PeerOf(t: Layout): Peer {
    match t
    case Leaf(s) => PeerLeaf(s)
    case Items(items) => List(PeersOf(items), [])
    case Pairs(pairs) => Table(PeerPairsOf(pairs), [])
  }

  function PeersOf(items: seq<Layout>): (ps: seq<Peer>)
    ensures |ps| == |items|
    ensures forall i | 0 <= i < |items| :: ps[i] == PeerOf(items[i])
  {
    seq(|items|, i requires 0 <= i < |items| => PeerOf(items[i]))
  }

  function KeyPad(key: Str): seq<byte> {
    Zeros(Pad4(|key| + 1) - (|key| + 1))
  }

  function PeerPairsOf(pairs: seq<Pair>): (ps: seq<PeerPair>)
    ensures |ps| == |pairs|
    ensures forall i | 0 <= i < |pairs| ::
      ps[i] == PeerPair(pairs[i].key, KeyPad(pairs[i].key), PeerOf(pairs[i].val))
  {
    seq(|pairs|, i requires 0 <= i < |pairs| =>
      PeerPair(pairs[i].key, KeyPad(pairs[i].key), PeerOf(pairs[i].val)))
  }

  /** The strings and keys of a layout hold no NUL. */
  predicate NulFreeLayout(t: Layout) {
    match t
    case Leaf(s) => s.String? ==> 0 !in s.s
    case Items(items) => forall i | 0 <= i < |items| :: NulFreeLayout(items[i])
    case Pairs(pairs) =>
      forall i | 0 <= i < |pairs| :: 0 !in pairs[i].key && NulFreeLayout(pairs[i].val)
  }

  /** Well-formed, with texts and keys in UTF-8. */
  predicate Sound(t: Peer) {
    WellFormed(t) && AllText(t)
  }

  /** A layout is written as a sound value of the same meaning. */
  predicate SamePeer(t: Layout) {
    && Wire(PeerOf(t)) == Encode(t)
    && Sound(PeerOf(t))
    && Meaning(PeerOf(t)) == ValueOf(t)
  }

  lemma LeafSame(s: Scalar)
    requires Fits(Leaf(s)) && NulFreeLayout(Leaf(s))
    ensures SamePeer(Leaf(s))
  {
    hide Le, ValidUtf8, NulIndex;
    if s.String? {
      assert (s.s + [0])[..|s.s|] == s.s;
      NulIndexIs(s.s + [0], |s.s|);
    }
  }

  lemma {:induction false} LayoutSame(t: Layout)
    requires Fits(t) && NulFreeLayout(t)
    ensures SamePeer(t)
    decreases t, 0
  {
    hide SamePeer;
    match t
    case Leaf(s) => LeafSame(s);
    case Items(items) =>
      ItemsSame(items);
      ListSame(items);
    case Pairs(pairs) =>
      PairsSame(pairs);
      TableSame(pairs);
  }

  /** Without slack. */
  lemma SizedSame(count: nat, body: seq<byte>)
    ensures Sized(count, body, []) == Le(4 + |body|, 4) + (Le(count, 4) + body)
  {
    hide Le;
    assert body + [] == body;
  }

  lemma PeerOfItems(items: seq<Layout>)
    ensures PeerOf(Items(items)) == List(PeersOf(items), [])
  {}

  lemma ListWire(items: seq<Layout>, ps: seq<Peer>)
    requires ItemBytes(ps) == EncodeItems(items) && |ps| == |items|
    ensures Wire(List(ps, [])) == Encode(Items(items))
  {
    hide Sized, Le, ItemBytes, EncodeItems, PairBytes, ValidUtf8;
    SizedSame(|items|, EncodeItems(items));
  }

  lemma ListMeaning(items: seq<Layout>, ps: seq<Peer>)
    requires Meanings(ps) == ValuesOf(items)
    ensures Meaning(List(ps, [])) == ValueOf(Items(items))
  {
    hide Meanings, ValuesOf, ValidUtf8;
  }

  lemma ListSound(items: seq<Layout>, ps: seq<Peer>)
    requires Fits(Items(items)) && ItemBytes(ps) == EncodeItems(items)
    requires forall i | 0 <= i < |ps| :: Sound(ps[i])
    ensures Sound(List(ps, []))
  {
    hide ItemBytes, EncodeItems;
  }

  lemma ListSame(items: seq<Layout>)
    requires Fits(Items(items))
    requires ItemBytes(PeersOf(items)) == EncodeItems(items) && Meanings(PeersOf(items)) == ValuesOf(items)
    requires forall i | 0 <= i < |items| :: Sound(PeerOf(items[i]))
    ensures SamePeer(Items(items))
  {
    hide PeerOf, Sound, Wire, Encode, Meaning, ValueOf, ItemBytes, EncodeItems, Meanings, ValuesOf, Fits;
    PeerOfItems(items);
    ListWire(items, PeersOf(items));
    ListMeaning(items, PeersOf(items));
    ListSound(items, PeersOf(items));
  }

  lemma TableSame(pairs: seq<Pair>)
    requires Fits(Pairs(pairs)) && NulFreeLayout(Pairs(pairs))
    requires PairBytes(PeerPairsOf(pairs)) == EncodePairs(pairs) && Entries(PeerPairsOf(pairs)) == MapOf(pairs)
    requires forall i | 0 <= i < |pairs| ::
      Padded(|pairs[i].key| + 1, |PeerPairsOf(pairs)[i].pad|) && Sound(PeerOf(pairs[i].val))
    ensures SamePeer(Pairs(pairs))
  {
    hide Sized, Le, PairBytes, EncodePairs, Entries, MapOf, Padded, ItemBytes, Meanings, ValidUtf8;
    SizedSame(|pairs|, EncodePairs(pairs));
  }

  lemma {:induction false} ItemsSame(items: seq<Layout>)
    requires forall i | 0 <= i < |items| :: Fits(items[i]) && NulFreeLayout(items[i])
    ensures ItemBytes(PeersOf(items)) == EncodeItems(items) && Meanings(PeersOf(items)) == ValuesOf(items)
    ensures forall i | 0 <= i < |items| :: Sound(PeerOf(items[i]))
    decreases items, 0
  {
    hide Wire, Encode, PeerOf, Meaning, ValueOf, Sound, Fits, NulFreeLayout;
    if items != [] {
      LayoutSame(items[0]);
      ItemsSame(items[1..]);
      assert PeersOf(items)[1..] == PeersOf(items[1..]);
      forall i | 0 <= i < |items| ensures Sound(PeerOf(items[i])) {
        assert i > 0 ==> items[i] == items[1..][i - 1];
      }
    }
  }

  lemma PadSame(p: Pair, q: PeerPair)
    requires q == PeerPair(p.key, KeyPad(p.key), PeerOf(p.val))
    ensures KeyBytes(q) == EncodeKey(p.key) && Padded(|q.key| + 1, |q.pad|)
  {
    hide PeerOf, ValidUtf8;
  }

  lemma {:induction false} PairsSame(pairs: seq<Pair>)
    requires Fits(Pairs(pairs)) && NulFreeLayout(Pairs(pairs))
    ensures PairBytes(PeerPairsOf(pairs)) == EncodePairs(pairs) && Entries(PeerPairsOf(pairs)) == MapOf(pairs)
    ensures forall i | 0 <= i < |pairs| ::
      Padded(|pairs[i].key| + 1, |PeerPairsOf(pairs)[i].pad|) && Sound(PeerOf(pairs[i].val))
    decreases pairs, 0
  {
    hide ValidUtf8;
    var qs := PeerPairsOf(pairs);
    forall i | 0 <= i < |pairs|
      ensures SamePeer(pairs[i].val) && KeyBytes(qs[i]) == EncodeKey(pairs[i].key)
      ensures Padded(|pairs[i].key| + 1, |qs[i].pad|)
    {
      LayoutSame(pairs[i].val);
      hide Wire, Encode, PeerOf, Meaning, ValueOf, Sound;
      PadSame(pairs[i], qs[i]);
    }
    hide Wire, Encode, PeerOf, Meaning, ValueOf, Sound, KeyBytes, EncodeKey, PeerPairsOf, Fits, NulFreeLayout;
    PairBytesSame(pairs, qs);
    EntriesSame(pairs, qs);
  }

  lemma {:induction false} PairBytesSame(pairs: seq<Pair>, qs: seq<PeerPair>)
    requires |pairs| == |qs|
    requires forall i | 0 <= i < |pairs| ::
      KeyBytes(qs[i]) == EncodeKey(pairs[i].key) && Wire(qs[i].val) == Encode(pairs[i].val)
    ensures PairBytes(qs) == EncodePairs(pairs)
    decreases |pairs|
  {
    hide Wire, Encode, KeyBytes, EncodeKey, ValidUtf8;
    if pairs != [] {
      PairBytesSame(pairs[1..], qs[1..]);
    }
  }

  lemma {:induction false} EntriesSame(pairs: seq<Pair>, qs: seq<PeerPair>)
    requires |pairs| == |qs|
    requires forall i | 0 <= i < |pairs| ::
      qs[i].key == pairs[i].key && Meaning(qs[i].val) == ValueOf(pairs[i].val)
    ensures Entries(qs) == MapOf(pairs)
    decreases |pairs|
  {
    hide Meaning, ValueOf, ValidUtf8;
    if pairs != [] {
      EntriesSame(pairs[..|pairs| - 1], qs[..|qs| - 1]);
    }
  }

  // ---- decoding undoes encoding ----

  lemma DecodeOfEncode(t: Layout, buf: seq<byte>, pos: nat)
    requires At(buf, pos, Encode(t))
    requires Fits(t) && NulFreeLayout(t)
    ensures DecodeValue(buf, pos) == Ok((ValueOf(t), pos + |Encode(t)|))
  {
    hide DecodeValue, Encode, ValueOf, Wire, Meaning, WellFormed, AllText, PeerOf, Fits, NulFreeLayout;
    LayoutSame(t);
    PeerDecodes(PeerOf(t), buf, pos);
  }

  lemma MapOfSnoc(done: seq<Pair>, p: Pair)
    ensures MapOf(done + [p]) == MapOf(done)[p.key := ValueOf(p.val)]
  {
    assert (done + [p])[..|done|] == done;
  }

  // ---- exactly the NUL-free values come back ----

  lemma {:induction false} DecodedNulFree(buf: seq<byte>, pos: nat)
    ensures DecodeValue(buf, pos).Ok? ==> NulFree(DecodeValue(buf, pos).value.0)
    decreases Left(buf, pos), 0, 0
  {
    hide Le, U32At, DecodeItems, DecodePairs;
    if pos + 12 <= |buf| {
      ItemsNulFree(buf, pos + 12, U32At(buf, pos + 8), []);
      PairsNulFree(buf, pos + 12, U32At(buf, pos + 8), map[]);
    }
  }

  lemma {:induction false} ItemsNulFree(buf: seq<byte>, cur: nat, n: nat, acc: seq<Value>)
    requires forall i | 0 <= i < |acc| :: NulFree(acc[i])
    ensures DecodeItems(buf, cur, n, acc).Ok? ==>
      forall i | 0 <= i < |DecodeItems(buf, cur, n, acc).value| :: NulFree(DecodeItems(buf, cur, n, acc).value[i])
    decreases Left(buf, cur), 1, n
  {
    hide DecodeValue;
    if n > 0 {
      DecodedNulFree(buf, cur);
      var r := DecodeValue(buf, cur);
      if r.Ok? {
        ItemsNulFree(buf, r.value.1, n - 1, acc + [r.value.0]);
      }
    }
  }

  lemma {:induction false} PairsNulFree(buf: seq<byte>, cur: nat, n: nat, acc: map<Str, Value>)
    requires NulFree(Dictionary(acc))
    ensures DecodePairs(buf, cur, n, acc).Ok? ==> NulFree(Dictionary(DecodePairs(buf, cur, n, acc).value))
    decreases Left(buf, cur), 1, n
  {
    hide DecodeValue, ValidUtf8, NulIndex;
    if n > 0 && cur <= |buf| {
      var nul := NulIndex(buf[cur..]);
      if cur + nul < |buf| && ValidUtf8(buf[cur..cur + nul]) {
        var key: Str := buf[cur..cur + nul];
        assert key == buf[cur..][..nul];
        DecodedNulFree(buf, cur + Pad4(nul + 1));
        var r := DecodeValue(buf, cur + Pad4(nul + 1));
        if r.Ok? {
          PairsNulFree(buf, r.value.1, n - 1, acc[key := r.value.0]);
        }
      }
    }
  }

  lemma {:induction false} MapOfEntry(pairs: seq<Pair>, i: nat)
    requires i < |pairs| && KeysDistinct(Pairs(pairs))
    ensures pairs[i].key in MapOf(pairs) && MapOf(pairs)[pairs[i].key] == ValueOf(pairs[i].val)
    decreases pairs
  {
    var n := |pairs| - 1;
    if i < n {
      MapOfEntry(pairs[..n], i);
    }
  }

  lemma {:induction false} MapOfKeys(pairs: seq<Pair>, k: Str)
    requires k in MapOf(pairs)
    ensures exists i :: 0 <= i < |pairs| && pairs[i].key == k && MapOf(pairs)[k] == ValueOf(pairs[i].val)
  {
    var n := |pairs| - 1;
    if pairs[n].key != k {
      MapOfKeys(pairs[..n], k);
      var i :| 0 <= i < n && pairs[..n][i].key == k && MapOf(pairs[..n])[k] == ValueOf(pairs[..n][i].val);
      assert pairs[i].key == k;
    }
  }

  lemma ValuesAt(items: seq<Layout>, i: nat)
    requires i < |items|
    ensures ValuesOf(items)[i] == ValueOf(items[i])
  {
    if i > 0 {
      ValuesAt(items[1..], i - 1);
    }
  }

  lemma {:induction false} NulFreeOfLayout(t: Layout)
    requires KeysDistinct(t)
    ensures NulFree(ValueOf(t)) <==> NulFreeLayout(t)
  {
    match t
    case Leaf(_) =>
    case Items(items) =>
      forall i | 0 <= i < |items|
        ensures NulFree(ValuesOf(items)[i]) <==> NulFreeLayout(items[i])
      {
        ValuesAt(items, i);
        NulFreeOfLayout(items[i]);
      }
    case Pairs(pairs) =>
      forall i | 0 <= i < |pairs|
        ensures pairs[i].key in MapOf(pairs)
        ensures NulFree(MapOf(pairs)[pairs[i].key]) <==> NulFreeLayout(pairs[i].val)
      {
        MapOfEntry(pairs, i);
        NulFreeOfLayout(pairs[i].val);
      }
      forall k | k in MapOf(pairs)
        ensures NulFreeLayout(t) ==> 0 !in k && NulFree(MapOf(pairs)[k])
      {
        MapOfKeys(pairs, k);
      }
  }

  /** The codec's law: wherever a value was encoded, decoding returns it and its end, exactly when it is NUL-free. */
  lemma RoundTrip(v: Value, t: Layout, buf: seq<byte>, pos: nat)
    requires ValueOf(t) == v && KeysDistinct(t) && Fits(t)
    requires At(buf, pos, Encode(t))
    ensures DecodeValue(buf, pos) == Ok((v, pos + |Encode(t)|)) <==> NulFree(v)
  {
    hide DecodeValue, Encode, ValueOf, NulFree, NulFreeLayout, Fits;
    NulFreeOfLayout(t);
    DecodedNulFree(buf, pos);
    if NulFree(v) {
      DecodeOfEncode(t, buf, pos);
    }
  }

  /** Every value has a layout, so `RoundTrip` speaks of every value. */
  lemma {:induction false} LayoutExists(v: Value) returns (t: Layout)
    ensures ValueOf(t) == v && KeysDistinct(t)
    decreases v, 0
  {
    match v
    case Scalar(s) => t := Leaf(s);
    case Array(items) =>
      var ls := LayoutsExist(items);
      t := Items(ls);
    case Dictionary(m) =>
      var ps := PairsExist(v, m.Keys);
      assert m == map k | k in m.Keys :: m[k];
      t := Pairs(ps);
  }

  lemma {:induction false} LayoutsExist(items: seq<Value>) returns (ls: seq<Layout>)
    ensures ValuesOf(ls) == items && forall i | 0 <= i < |ls| :: KeysDistinct(ls[i])
    decreases items, 0
  {
    if items == [] {
      ls := [];
    } else {
      var head := LayoutExists(items[0]);
      var tail := LayoutsExist(items[1..]);
      ls := [head] + tail;
      assert ls[1..] == tail;
    }
  }

  lemma {:induction false} PairsExist(v: Value, keys: set<Str>) returns (ps: seq<Pair>)
    requires v.Dictionary? && keys <= v.entries.Keys
    ensures MapOf(ps) == map k | k in keys :: v.entries[k]
    ensures KeysDistinct(Pairs(ps))
    ensures forall i | 0 <= i < |ps| :: ps[i].key in keys
    decreases v, 0, |keys|
  {
    hide MapOf, ValueOf, ValidUtf8;
    if keys == {} {
      ps := [];
      MapOfNone();
    } else {
      var k :| k in keys;
      var rest := PairsExist(v, keys - {k});
      var t := LayoutExists(v.entries[k]);
      ps := rest + [Pair(k, t)];
      MapOfSnoc(rest, Pair(k, t));
      DistinctSnoc(rest, Pair(k, t));
      var less := map j | j in keys - {k} :: v.entries[j];
      assert less[k := v.entries[k]] == map j | j in keys :: v.entries[j];
    }
  }

  lemma MapOfNone()
    ensures MapOf([]) == map[]
  {}

  lemma DistinctSnoc(ps: seq<Pair>, p: Pair)
    requires KeysDistinct(Pairs(ps)) && KeysDistinct(p.val)
    requires forall i | 0 <= i < |ps| :: ps[i].key != p.key
    ensures KeysDistinct(Pairs(ps + [p]))
  {}

  // ---- nesting ----

  /** Containers of `v` nest at most `d` deep. */
  predicate NestsWithin(v: Value, d: nat) {
    match v
    case Scalar(_) => true
    case Array(items) => d > 0 && forall i | 0 <= i < |items| :: NestsWithin(items[i], d - 1)
    case Dictionary(m) => d > 0 && forall k | k in m :: NestsWithin(m[k], d - 1)
  }

  lemma NestsWithinMore(v: Value, d: nat, e: nat)
    requires NestsWithin(v, d) && d <= e
    ensures NestsWithin(v, e)
  {
    match v
    case Scalar(_) =>
    case Array(items) =>
      forall i | 0 <= i < |items| ensures NestsWithin(items[i], e - 1) {
        NestsWithinMore(items[i], d - 1, e - 1);
      }
    case Dictionary(m) =>
      forall k | k in m ensures NestsWithin(m[k], e - 1) {
        NestsWithinMore(m[k], d - 1, e - 1);
      }
  }

  /** Whatever sizes and counts the bytes declare, each level of nesting costs twelve bytes of buffer. */
  lemma {:induction false} NestingBounded(buf: seq<byte>, pos: nat)
    ensures DecodeValue(buf, pos).Ok? ==>
      pos + 4 <= |buf| && NestsWithin(DecodeValue(buf, pos).value.0, (|buf| - pos) / 12)
    decreases Left(buf, pos), 0, 0
  {
    hide Le, U32At, DecodeItems, DecodePairs;
    if pos + 12 <= |buf| {
      var d := (|buf| - pos) / 12 - 1;
      ItemsNesting(buf, pos + 12, U32At(buf, pos + 8), [], d);
      PairsNesting(buf, pos + 12, U32At(buf, pos + 8), map[], d);
    }
  }

  lemma {:induction false} ItemsNesting(buf: seq<byte>, cur: nat, n: nat, acc: seq<Value>, d: nat)
    requires |buf| <= cur + 12 * d + 11
    requires forall i | 0 <= i < |acc| :: NestsWithin(acc[i], d)
    ensures DecodeItems(buf, cur, n, acc).Ok? ==> NestsWithin(Array(DecodeItems(buf, cur, n, acc).value), d + 1)
    decreases Left(buf, cur), 1, n
  {
    hide DecodeValue;
    if n > 0 {
      NestingBounded(buf, cur);
      var r := DecodeValue(buf, cur);
      if r.Ok? {
        NestsWithinMore(r.value.0, (|buf| - cur) / 12, d);
        ItemsNesting(buf, r.value.1, n - 1, acc + [r.value.0], d);
      }
    }
  }

  lemma {:induction false} PairsNesting(buf: seq<byte>, cur: nat, n: nat, acc: map<Str, Value>, d: nat)
    requires |buf| <= cur + 12 * d + 11
    requires forall k | k in acc :: NestsWithin(acc[k], d)
    ensures DecodePairs(buf, cur, n, acc).Ok? ==>
      NestsWithin(Dictionary(DecodePairs(buf, cur, n, acc).value), d + 1)
    decreases Left(buf, cur), 1, n
  {
    hide DecodeValue, ValidUtf8, NulIndex;
    if n > 0 && cur <= |buf| {
      var nul := NulIndex(buf[cur..]);
      if cur + nul < |buf| && ValidUtf8(buf[cur..cur + nul]) {
        var key: Str := buf[cur..cur + nul];
        var at := cur + Pad4(nul + 1);
        NestingBounded(buf, at);
        var r := DecodeValue(buf, at);
        if r.Ok? {
          NestsWithinMore(r.value.0, (|buf| - at) / 12, d);
          PairsNesting(buf, r.value.1, n - 1, acc[key := r.value.0], d);
        }
      }
    }
  }

  /** Decoding with at most `depth` calls for a value at a time; None is needing more of them. */
  function ValueWithin(buf: seq<byte>, pos: nat, depth: nat): (r: Option<Result<(Value, nat)>>)
    decreases depth, 0, 0
  {
    if depth == 0 then None
    else if pos + 12 <= |buf| && U32At(buf, pos) == TYPE_ARRAY then
      var r := ItemsWithin(buf, pos + 12, U32At(buf, pos + 8), [], depth - 1);
      if r.None? then None
      else if r.value.Ok? then Some(Ok((Array(r.value.value), pos + 8 + U32At(buf, pos + 4))))
      else Some(r.value.PropagateFailure())
    else if pos + 12 <= |buf| && U32At(buf, pos) == TYPE_DICTIONARY then
      var r := PairsWithin(buf, pos + 12, U32At(buf, pos + 8), map[], depth - 1);
      if r.None? then None
      else if r.value.Ok? then Some(Ok((Dictionary(r.value.value), pos + 8 + U32At(buf, pos + 4))))
      else Some(r.value.PropagateFailure())
    else Some(DecodeValue(buf, pos))  // which calls nothing for a value
  }

  function ItemsWithin(buf: seq<byte>, cur: nat, n: nat, acc: seq<Value>, depth: nat): (r: Option<Result<seq<Value>>>)
    decreases depth, 1, n
  {
    if n == 0 then Some(Ok(acc))
    else
      var r := ValueWithin(buf, cur, depth);
      if r.None? then None
      else if r.value.Ok? then ItemsWithin(buf, r.value.value.1, n - 1, acc + [r.value.value.0], depth)
      else Some(r.value.PropagateFailure())
  }

  function PairsWithin(buf: seq<byte>, cur: nat, n: nat, acc: map<Str, Value>, depth: nat)
    : (r: Option<Result<map<Str, Value>>>)
    decreases depth, 1, n
  {
    if n == 0 then Some(Ok(acc))
    else if cur > |buf| then Some(Panicked)
    else
      var nul := NulIndex(buf[cur..]);
      if cur + nul == |buf| || !ValidUtf8(buf[cur..cur + nul]) then Some(Err(InvalidUtf8))
      else
        var r := ValueWithin(buf, cur + Pad4(nul + 1), depth);
        if r.None? then None
        else if r.value.Ok? then
          PairsWithin(buf, r.value.value.1, n - 1, acc[buf[cur..cur + nul] := r.value.value.0], depth)
        else Some(r.value.PropagateFailure())
  }

  /** On every input, whether it decodes or not, at most one call for each twelve bytes is under way, and one more. */
  lemma {:induction false} DepthBounded(buf: seq<byte>, pos: nat, depth: nat)
    requires Left(buf, pos) / 12 < depth
    ensures ValueWithin(buf, pos, depth) == Some(DecodeValue(buf, pos))
    decreases Left(buf, pos), 0, 0
  {
    hide Le, U32At, DecodeItems, DecodePairs, ItemsWithin, PairsWithin;
    if pos + 12 <= |buf| {
      ItemsDepth(buf, pos + 12, U32At(buf, pos + 8), [], depth - 1);
      PairsDepth(buf, pos + 12, U32At(buf, pos + 8), map[], depth - 1);
    }
  }

  lemma {:induction false} ItemsDepth(buf: seq<byte>, cur: nat, n: nat, acc: seq<Value>, depth: nat)
    requires Left(buf, cur) / 12 < depth
    ensures ItemsWithin(buf, cur, n, acc, depth) == Some(DecodeItems(buf, cur, n, acc))
    decreases Left(buf, cur), 1, n
  {
    hide DecodeValue, ValueWithin;
    if n > 0 {
      DepthBounded(buf, cur, depth);
      var r := DecodeValue(buf, cur);
      if r.Ok? {
        ItemsDepth(buf, r.value.1, n - 1, acc + [r.value.0], depth);
      }
    }
  }

  lemma {:induction false} PairsDepth(buf: seq<byte>, cur: nat, n: nat, acc: map<Str, Value>, depth: nat)
    requires Left(buf, cur) / 12 < depth
    ensures PairsWithin(buf, cur, n, acc, depth) == Some(DecodePairs(buf, cur, n, acc))
    decreases Left(buf, cur), 1, n
  {
    hide DecodeValue, ValueWithin, ValidUtf8, NulIndex;
    if n > 0 && cur <= |buf| {
      var nul := NulIndex(buf[cur..]);
      if cur + nul < |buf| && ValidUtf8(buf[cur..cur + nul]) {
        var key: Str := buf[cur..cur + nul];
        var at := cur + Pad4(nul + 1);
        DepthBounded(buf, at, depth);
        var r := DecodeValue(buf, at);
        if r.Ok? {
          PairsDepth(buf, r.value.1, n - 1, acc[key := r.value.0], depth);
        }
      }
    }
  }

  // ---- messages ----

  /** The fields `decode_message` reads back from `encode_message`'s output. */
  lemma MessageHeader(m: Message<Layout>, rest: seq<byte>)
    requires |Payload(m.body)| < TWO_64
    ensures var buf := EncodeMessage(m) + rest;
      && U32At(buf, 0) == 0x29b0_0b92 && U32At(buf, 4) == m.flags
      && U64At(buf, 8) == |Payload(m.body)| && U64At(buf, 16) == m.msgId
      && buf[24..24 + |Payload(m.body)|] == Payload(m.body)
  {
    hide Le, U32At, U64At, Payload;
    var p := Payload(m.body);
    var buf := EncodeMessage(m) + rest;
    assert At(buf, 0, EncodeMessage(m));
    AtAppend(buf, 0, Le(WRAPPER_MAGIC, 4), Le(m.flags, 4) + (Le(|p|, 8) + (Le(m.msgId, 8) + p)));
    AtAppend(buf, 4, Le(m.flags, 4), Le(|p|, 8) + (Le(m.msgId, 8) + p));
    AtAppend(buf, 8, Le(|p|, 8), Le(m.msgId, 8) + p);
    AtAppend(buf, 16, Le(m.msgId, 8), p);
    U32OfLe(buf, 0, WRAPPER_MAGIC);
    U32OfLe(buf, 4, m.flags);
    U64OfLe(buf, 8, |p|);
    U64OfLe(buf, 16, m.msgId);
  }

  predicate Sendable(m: Message<Layout>) {
    m.body.Some? ==> Fits(m.body.value) && KeysDistinct(m.body.value)
  }

  function MessageOf(m: Message<Layout>): Message<Value> {
    Message(m.flags, m.msgId, if m.body.Some? then Some(ValueOf(m.body.value)) else None)
  }

  predicate MessageNulFree(m: Message<Value>) {
    m.body.Some? ==> NulFree(m.body.value)
  }

  lemma EncodeBounded(t: Layout)
    requires Fits(t)
    ensures |Encode(t)| < TWO_32 + 16
  {
    if t.Leaf? {
      hide Le;
    }
  }

  /** A body stands after its own magic and version 5. */
  lemma PayloadLayout(t: Layout)
    ensures U32At(Payload(Some(t)), 0) == 0x4213_3742 && U32At(Payload(Some(t)), 4) == 5
    ensures At(Payload(Some(t)), 8, Encode(t))
  {
    hide Encode, Le, U32At;
    var pb := Payload(Some(t));
    AtAppend(pb, 0, Le(PAYLOAD_MAGIC, 4), Le(PAYLOAD_VERSION, 4) + Encode(t));
    AtAppend(pb, 4, Le(PAYLOAD_VERSION, 4), Encode(t));
    U32OfLe(pb, 0, PAYLOAD_MAGIC);
    U32OfLe(pb, 4, PAYLOAD_VERSION);
  }

  /** A message followed by any bytes decodes to itself and its own length, exactly when its body is NUL-free. */
  lemma MessageRoundTrip(m: Message<Layout>, rest: seq<byte>)
    requires Sendable(m)
    ensures DecodeMessage(EncodeMessage(m) + rest) == Ok((MessageOf(m), |EncodeMessage(m)|))
      <==> MessageNulFree(MessageOf(m))
  {
    hide EncodeMessage, Payload, Le, U32At, U64At, DecodeValue, Encode, Fits;
    if m.body.Some? {
      var t := m.body.value;
      EncodeBounded(t);
      MessageHeader(m, rest);
      PayloadLayout(t);
      RoundTrip(ValueOf(t), t, Payload(m.body), 8);
      DecodeEndIrrelevant(Payload(m.body), t);
    } else {
      MessageHeader(m, rest);
    }
  }

  /** A message cut short anywhere is too short: of its header, or of what the header declares. */
  lemma MessageCut(m: Message<Layout>, k: nat)
    requires Sendable(m) && k < |EncodeMessage(m)|
    ensures DecodeMessage(EncodeMessage(m)[..k]) == Err(TooShort(if k < 24 then 24 else |EncodeMessage(m)|, k))
  {
    hide EncodeMessage, Payload, ReadLe, DecodeValue, Encode, Fits;
    var s := EncodeMessage(m);
    var cut := s[..k];
    if k >= 24 {
      if m.body.Some? {
        EncodeBounded(m.body.value);
      }
      MessageHeader(m, []);
      assert s + [] == s;
      assert cut[0..4] == s[0..4] && cut[4..8] == s[4..8] && cut[8..16] == s[8..16] && cut[16..24] == s[16..24];
    }
  }

  /** A message around any payload. */
  function Wrapped(flags: u32, id: u64, pb: seq<byte>): seq<byte> {
    Le(0x29b0_0b92, 4) + (Le(flags, 4) + (Le(|pb|, 8) + (Le(id, 8) + pb)))
  }

  lemma WrappedFields(flags: u32, id: u64, pb: seq<byte>, rest: seq<byte>)
    requires |pb| + 24 < TWO_64
    ensures var buf := Wrapped(flags, id, pb) + rest;
      && U32At(buf, 0) == 0x29b0_0b92 && U32At(buf, 4) == flags && U64At(buf, 8) == |pb| && U64At(buf, 16) == id
      && buf[24..24 + |pb|] == pb && |buf| >= 24 + |pb|
  {
    hide Le, U32At, U64At;
    var buf := Wrapped(flags, id, pb) + rest;
    assert At(buf, 0, Wrapped(flags, id, pb));
    U32Then(buf, 0, 0x29b0_0b92, Le(flags, 4) + (Le(|pb|, 8) + (Le(id, 8) + pb)));
    U32Then(buf, 4, flags, Le(|pb|, 8) + (Le(id, 8) + pb));
    AtAppend(buf, 8, Le(|pb|, 8), Le(id, 8) + pb);
    AtAppend(buf, 16, Le(id, 8), pb);
    U64OfLe(buf, 8, |pb|);
    U64OfLe(buf, 16, id);
  }

  /** What a message around a payload decodes to: fewer than eight bytes are no body. */
  lemma WrappedDecodes(flags: u32, id: u64, pb: seq<byte>, rest: seq<byte>)
    requires |pb| + 24 < TWO_64
    ensures DecodeMessage(Wrapped(flags, id, pb) + rest) ==
      if |pb| < 8 then Ok((Message(flags, id, None), 24 + |pb|))
      else if U32At(pb, 0) != 0x4213_3742 then Err(BadMagic(U32At(pb, 0)))
      else
        var r := DecodeValue(pb, 8);
        if r.Ok? then Ok((Message(flags, id, Some(r.value.0)), 24 + |pb|)) else r.PropagateFailure()
  {
    hide U32At, U64At, DecodeValue, Wrapped;
    WrappedFields(flags, id, pb, rest);
  }

  /** A peer's message has the meaning of its value, whatever version it is and whatever follows it. */
  lemma PeerMessage(flags: u32, id: u64, version: u32, t: Peer, slack: seq<byte>, rest: seq<byte>)
    requires Sound(t) && |Wire(t)| + |slack| + 32 < TWO_64
    ensures var pb := Le(0x4213_3742, 4) + (Le(version, 4) + (Wire(t) + slack));
      DecodeMessage(Wrapped(flags, id, pb) + rest) == Ok((Message(flags, id, Some(Meaning(t))), 24 + |pb|))
  {
    hide Le, U32At, DecodeValue, Wire, Meaning, Wrapped, WellFormed, AllText, DecodeMessage;
    var pb := Le(0x4213_3742, 4) + (Le(version, 4) + (Wire(t) + slack));
    WrappedDecodes(flags, id, pb, rest);
    assert At(pb, 0, pb);
    U32Then(pb, 0, 0x4213_3742, Le(version, 4) + (Wire(t) + slack));
    U32Then(pb, 4, version, Wire(t) + slack);
    AtAppend(pb, 8, Wire(t), slack);
    PeerDecodes(t, pb, 8);
  }

  /** Only the value matters to a message: a NUL makes it differ, not just its end. */
  lemma DecodeEndIrrelevant(pb: seq<byte>, t: Layout)
    requires KeysDistinct(t)
    ensures DecodeValue(pb, 8).Ok? && DecodeValue(pb, 8).value.0 == ValueOf(t) ==> NulFree(ValueOf(t))
  {
    DecodedNulFree(pb, 8);
  }
}
