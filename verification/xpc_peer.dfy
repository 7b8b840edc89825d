/**
 * What a peer may send: values as they stand on the wire, with every form that
 * src/xpc/codec.rs reads, whether or not it writes it, and what decoding makes
 * of them when the buffer ends at any byte.
 */
module XpcPeer {
  import opened Bytes
  import opened Utf8
  import opened Xpc

  /**
   * A flag is set by any byte but zero; a text is read up to its first NUL; an
   * unknown scalar has eight bytes. Padding is arbitrary, and a container may
   * declare more bytes than its children take up.
   */
  datatype Peer =
    | Nothing
    | Flag(b: byte, pad: seq<byte>)
    | Signed(i: i64)
    | Unsigned(u: u64)
    | Real(bits: u64)
    | Date(bits: u64)
    | Blob(bytes: seq<byte>, pad: seq<byte>)
    | Text(raw: seq<byte>, pad: seq<byte>)
    | Id(id: Uuid)
    | Unknown(tag: u32, skipped: seq<byte>)
    | List(items: seq<Peer>, slack: seq<byte>)
    | Table(pairs: seq<PeerPair>, slack: seq<byte>)

  datatype PeerPair = PeerPair(key: seq<byte>, pad: seq<byte>, val: Peer)

  function Tag(t: Peer): u32 {
    match t
    case Nothing => 0x1000
    case Flag(_, _) => 0x2000
    case Signed(_) => 0x3000
    case Unsigned(_) => 0x4000
    case Real(_) => 0x5000
    case Date(_) => 0x7000
    case Blob(_, _) => 0x8000
    case Text(_, _) => 0x9000
    case Id(_) => 0xa000
    case Unknown(tag, _) => tag
    case List(_, _) => 0xe000
    case Table(_, _) => 0xf000
  }

  const KNOWN: set<u32> :=
    {0x1000, 0x2000, 0x3000, 0x4000, 0x5000, 0x7000, 0x8000, 0x9000, 0xa000, 0xe000, 0xf000}

  /** The bytes after the tag. */
  function Body(t: Peer): (b: seq<byte>)
    decreases t, 1
  {
    match t
    case Nothing => []
    case Flag(b, pad) => [b] + pad
    case Signed(i) => Le(ToU64(i), 8)
    case Unsigned(u) => Le(u, 8)
    case Real(bits) => Le(bits, 8)
    case Date(bits) => Le(bits, 8)
    case Blob(bytes, pad) => Le(|bytes|, 4) + (bytes + pad)
    case Text(raw, pad) => Le(|raw|, 4) + (raw + pad)
    case Id(id) => id
    case Unknown(_, skipped) => skipped
    case List(items, slack) => Sized(|items|, ItemBytes(items), slack)
    case Table(pairs, slack) => Sized(|pairs|, PairBytes(pairs), slack)
  }

  /** The size of what follows it, the count, and as many children. */
  function Sized(count: nat, children: seq<byte>, slack: seq<byte>): (b: seq<byte>) {
    Le(4 + |children| + |slack|, 4) + (Le(count, 4) + (children + slack))
  }

  function Wire(t: Peer): (b: seq<byte>)
    ensures |b| == 4 + |Body(t)|
    decreases t, 2
  {
    Le(Tag(t), 4) + Body(t)
  }

  function ItemBytes(items: seq<Peer>): (b: seq<byte>)
    ensures |b| >= 4 * |items|
    decreases items, 0
  {
    if items == [] then [] else Wire(items[0]) + ItemBytes(items[1..])
  }

  function KeyBytes(p: PeerPair): seq<byte> {
    p.key + [0] + p.pad
  }

  function PairBytes(pairs: seq<PeerPair>): (b: seq<byte>)
    ensures |b| >= 4 * |pairs|
    decreases pairs, 0
  {
    if pairs == [] then [] else KeyBytes(pairs[0]) + (Wire(pairs[0].val) + PairBytes(pairs[1..]))
  }

  /** Padding fills up to four bytes, sizes fit their fields, keys end at their NUL. */
  predicate WellFormed(t: Peer) {
    match t
    case Flag(_, pad) => |pad| == 3
    case Blob(bytes, pad) => |bytes| < TWO_32 && Padded(|bytes|, |pad|)
    case Text(raw, pad) => |raw| < TWO_32 && Padded(|raw|, |pad|)
    case Unknown(tag, skipped) => tag !in KNOWN && |skipped| == 8
    case List(items, slack) =>
      4 + |ItemBytes(items)| + |slack| < TWO_32 && forall i | 0 <= i < |items| :: WellFormed(items[i])
    case Table(pairs, slack) =>
      && 4 + |PairBytes(pairs)| + |slack| < TWO_32
      && forall i | 0 <= i < |pairs| ::
        0 !in pairs[i].key && Padded(|pairs[i].key| + 1, |pairs[i].pad|) && WellFormed(pairs[i].val)
    case _ => true
  }

  predicate Padded(n: nat, pad: nat) {
    pad < 4 && (n + pad) % 4 == 0
  }

  lemma PaddedIs(n: nat, pad: nat)
    requires Padded(n, pad)
    ensures Pad4(n) == n + pad
  {}

  function Until0(raw: seq<byte>): seq<byte> {
    raw[..NulIndex(raw)]
  }

  /** Texts and keys are UTF-8. */
  predicate AllText(t: Peer) {
    match t
    case Text(raw, _) => ValidUtf8(Until0(raw))
    case List(items, _) => forall i | 0 <= i < |items| :: AllText(items[i])
    case Table(pairs, _) => forall i | 0 <= i < |pairs| :: ValidUtf8(pairs[i].key) && AllText(pairs[i].val)
    case _ => true
  }

  /** What it means: a date is its bits, an unknown scalar is nothing, a later entry replaces an earlier one. */
  function Meaning(t: Peer): Value {
    match t
    case Nothing => Scalar(Null)
    case Flag(b, _) => Scalar(Bool(b != 0))
    case Signed(i) => Scalar(Int64(i))
    case Unsigned(u) => Scalar(Uint64(u))
    case Real(bits) => Scalar(Double(bits))
    case Date(bits) => Scalar(Double(bits))
    case Blob(bytes, _) => Scalar(Data(bytes))
    case Text(raw, _) => if ValidUtf8(Until0(raw)) then Scalar(String(Until0(raw))) else Scalar(Null)
    case Id(id) => Scalar(UuidBytes(id))
    case Unknown(_, _) => Scalar(Null)
    case List(items, _) => Array(Meanings(items))
    case Table(pairs, _) => Dictionary(Entries(pairs))
  }

  function Meanings(items: seq<Peer>): (vs: seq<Value>)
    ensures |vs| == |items|
  {
    if items == [] then [] else [Meaning(items[0])] + Meanings(items[1..])
  }

  function Entries(pairs: seq<PeerPair>): (m: map<Str, Value>) {
    if pairs == [] then map[]
    else
      var last := pairs[|pairs| - 1];
      var m := Entries(pairs[..|pairs| - 1]);
      if ValidUtf8(last.key) then m[last.key := Meaning(last.val)] else m
  }

  // ---- what decoding makes of it in a buffer of n bytes ----

  /** How many bytes of a leaf's body are looked at. */
  function Looked(t: Peer): nat {
    match t
    case Nothing => 0
    case Flag(_, _) => 1
    case Blob(bytes, _) => 4 + |bytes|
    case Text(raw, _) => 4 + |raw|
    case Id(_) => 16
    case Unknown(_, _) => 0
    case _ => 8
  }

  predicate IsLeaf(t: Peer) {
    !t.List? && !t.Table?
  }

  function Short(need: nat, n: nat): Result<()> {
    Err(TooShort(need, n))
  }

  /** Success, or the first thing that is missing or not UTF-8; a dictionary that goes on beyond the end panics. */
  function Outcome(t: Peer, pos: nat, n: nat): (r: Result<()>)
    decreases t, 1
  {
    if n < pos + 4 then Short(pos + 4, n)
    else if IsLeaf(t) then
      if (t.Blob? || t.Text?) && n < pos + 8 then Short(pos + 8, n)
      else if n < pos + 4 + Looked(t) then Short(pos + 4 + Looked(t), n)
      else if t.Text? && !ValidUtf8(Until0(t.raw)) then Err(InvalidUtf8)
      else Ok(())
    else if n < pos + 8 then Short(pos + 8, n)
    else if n < pos + 12 then Short(pos + 12, n)
    else
      match t
      case List(items, _) => ItemsOutcome(items, pos + 12, n)
      case Table(pairs, _) => PairsOutcome(pairs, pos + 12, n)
  }

  function ItemsOutcome(items: seq<Peer>, cur: nat, n: nat): (r: Result<()>)
    decreases items, 0
  {
    if items == [] then Ok(())
    else
      var r := Outcome(items[0], cur, n);
      if r.Ok? then ItemsOutcome(items[1..], cur + |Wire(items[0])|, n) else r
  }

  function PairsOutcome(pairs: seq<PeerPair>, cur: nat, n: nat): (r: Result<()>)
    decreases pairs, 0
  {
    if pairs == [] then Ok(())
    else if n < cur then Panicked
    else if n <= cur + |pairs[0].key| || !ValidUtf8(pairs[0].key) then Err(InvalidUtf8)
    else
      var at := cur + |KeyBytes(pairs[0])|;
      var r := Outcome(pairs[0].val, at, n);
      if r.Ok? then PairsOutcome(pairs[1..], at + |Wire(pairs[0].val)|, n) else r
  }

  /** The bytes from the start of a value to the last one that decoding it looks at. */
  function Needed(t: Peer): (k: nat)
    ensures k >= 4
    decreases t, 1
  {
    match t
    case List(items, _) => 12 + ItemsNeeded(items)
    case Table(pairs, _) => 12 + PairsNeeded(pairs)
    case _ => 4 + Looked(t)
  }

  function ItemsNeeded(items: seq<Peer>): (k: nat)
    decreases items, 0
  {
    if items == [] then 0
    else if |items| == 1 then Needed(items[0])
    else |Wire(items[0])| + ItemsNeeded(items[1..])
  }

  function PairsNeeded(pairs: seq<PeerPair>): (k: nat)
    decreases pairs, 0
  {
    if pairs == [] then 0
    else
      var v := pairs[0].val;
      |KeyBytes(pairs[0])| + if |pairs| == 1 then Needed(v) else |Wire(v)| + PairsNeeded(pairs[1..])
  }

  // ---- reading in a buffer that may end early ----

  /** From `pos` on, as far as it goes, `buf` is `s`. */
  predicate Agrees(buf: seq<byte>, pos: nat, s: seq<byte>) {
    forall k | 0 <= k < |s| && pos + k < |buf| :: buf[pos + k] == s[k]
  }

  lemma AtAgrees(buf: seq<byte>, pos: nat, s: seq<byte>)
    ensures At(buf, pos, s) ==> Agrees(buf, pos, s)
    ensures Agrees(buf, pos, s) && pos + |s| <= |buf| ==> At(buf, pos, s)
  {
    if At(buf, pos, s) {
      forall k | 0 <= k < |s| ensures buf[pos + k] == s[k] {
        assert buf[pos..pos + |s|][k] == s[k];
      }
    }
  }

  lemma AgreesAppend(buf: seq<byte>, pos: nat, a: seq<byte>, b: seq<byte>)
    requires Agrees(buf, pos, a + b)
    ensures Agrees(buf, pos, a) && Agrees(buf, pos + |a|, b)
  {
    forall k | 0 <= k < |a| && pos + k < |buf| ensures buf[pos + k] == a[k] {
      assert (a + b)[k] == a[k];
    }
    forall k | 0 <= k < |b| && pos + |a| + k < |buf| ensures buf[pos + |a| + k] == b[k] {
      assert (a + b)[|a| + k] == b[k] && buf[pos + (|a| + k)] == (a + b)[|a| + k];
    }
  }

  lemma U32Read(buf: seq<byte>, pos: nat, v: u32, rest: seq<byte>)
    requires Agrees(buf, pos, Le(v, 4) + rest)
    ensures ReadU32(buf, pos) == if pos + 4 <= |buf| then Ok(v) else Err(TooShort(pos + 4, |buf|))
    ensures Agrees(buf, pos + 4, rest)
  {
    hide Agrees, Le, U32At;
    AgreesAppend(buf, pos, Le(v, 4), rest);
    AtAgrees(buf, pos, Le(v, 4));
    if pos + 4 <= |buf| {
      U32OfLe(buf, pos, v);
    }
  }

  lemma U64Read(buf: seq<byte>, pos: nat, v: u64)
    requires Agrees(buf, pos, Le(v, 8))
    ensures ReadU64(buf, pos) == if pos + 8 <= |buf| then Ok(v) else Err(TooShort(pos + 8, |buf|))
  {
    hide Agrees, Le, U64At;
    AtAgrees(buf, pos, Le(v, 8));
    if pos + 8 <= |buf| {
      U64OfLe(buf, pos, v);
    }
  }

  lemma BytesRead(buf: seq<byte>, p: nat, bytes: seq<byte>, pad: seq<byte>)
    requires Agrees(buf, p, bytes + pad)
    ensures Slice(buf, p, |bytes|) == if p + |bytes| <= |buf| then Ok(bytes) else Err(TooShort(p + |bytes|, |buf|))
  {
    hide Agrees;
    AgreesAppend(buf, p, bytes, pad);
    AtAgrees(buf, p, bytes);
  }

  /** What decoding gives for a result: the value and its end, or the failure. */
  function Given(t: Peer, pos: nat, r: Result<()>): Result<(Value, nat)> {
    if r.Ok? then Ok((Meaning(t), pos + |Wire(t)|)) else r.PropagateFailure()
  }

  // ---- leaves ----

  /** A leaf's outcome once its tag is read. */
  function BodyOutcome(t: Peer, p: nat, n: nat): Result<()> {
    if (t.Blob? || t.Text?) && n < p + 4 then Short(p + 4, n)
    else if n < p + Looked(t) then Short(p + Looked(t), n)
    else if t.Text? && !ValidUtf8(Until0(t.raw)) then Err(InvalidUtf8)
    else Ok(())
  }

  predicate ReadsAs(t: Peer, buf: seq<byte>, p: nat)
    requires IsLeaf(t)
  {
    var r := BodyOutcome(t, p, |buf|);
    DecodeScalar(buf, Tag(t), p)
    == if r.Ok? then Ok((Meaning(t).scalar, p + |Body(t)|)) else r.PropagateFailure()
  }

  lemma FlagRead(t: Peer, buf: seq<byte>, p: nat)
    requires t.Flag? && WellFormed(t) && Agrees(buf, p, Body(t))
    ensures ReadsAs(t, buf, p)
  {
    BytesRead(buf, p, [t.b], t.pad);
    assert Slice(buf, p, 1) == if p + 1 <= |buf| then Ok([t.b]) else Err(TooShort(p + 1, |buf|));
    hide Agrees, DecodeString, Slice;
  }

  lemma NumberRead(t: Peer, buf: seq<byte>, p: nat)
    requires t.Signed? || t.Unsigned? || t.Real? || t.Date?
    requires Agrees(buf, p, Body(t))
    ensures ReadsAs(t, buf, p)
  {
    hide Le, ReadU64, DecodeString, Agrees;
    match t
    case Signed(i) => U64Read(buf, p, ToU64(i));
    case Unsigned(u) => U64Read(buf, p, u);
    case Real(bits) => U64Read(buf, p, bits);
    case Date(bits) => U64Read(buf, p, bits);
  }

  lemma BlobRead(t: Peer, buf: seq<byte>, p: nat)
    requires t.Blob? && WellFormed(t) && Agrees(buf, p, Body(t))
    ensures ReadsAs(t, buf, p)
  {
    hide Le, ReadU32, Slice, DecodeString, Agrees;
    U32Read(buf, p, |t.bytes|, t.bytes + t.pad);
    BytesRead(buf, p + 4, t.bytes, t.pad);
    PaddedIs(|t.bytes|, |t.pad|);
  }

  lemma TextRead(t: Peer, buf: seq<byte>, p: nat)
    requires t.Text? && WellFormed(t) && Agrees(buf, p, Body(t))
    ensures ReadsAs(t, buf, p)
  {
    hide Le, ReadU32, Slice, ValidUtf8, NulIndex, Agrees;
    U32Read(buf, p, |t.raw|, t.raw + t.pad);
    BytesRead(buf, p + 4, t.raw, t.pad);
    PaddedIs(|t.raw|, |t.pad|);
  }

  lemma OtherRead(t: Peer, buf: seq<byte>, p: nat)
    requires t.Nothing? || t.Id? || t.Unknown?
    requires WellFormed(t) && Agrees(buf, p, Body(t)) && p <= |buf|
    ensures ReadsAs(t, buf, p)
  {
    hide Slice, DecodeString, Agrees;
    if t.Id? {
      assert t.id + [] == t.id;
      BytesRead(buf, p, t.id, []);
      assert Slice(buf, p, 16) == if p + 16 <= |buf| then Ok(t.id) else Err(TooShort(p + 16, |buf|));
    }
  }

  lemma BodyRead(t: Peer, buf: seq<byte>, p: nat)
    requires IsLeaf(t) && WellFormed(t) && Agrees(buf, p, Body(t)) && p <= |buf|
    ensures ReadsAs(t, buf, p)
  {
    hide ReadsAs, Agrees, Body;
    match t
    case Flag(_, _) => FlagRead(t, buf, p);
    case Blob(_, _) => BlobRead(t, buf, p);
    case Text(_, _) => TextRead(t, buf, p);
    case Nothing => OtherRead(t, buf, p);
    case Id(_) => OtherRead(t, buf, p);
    case Unknown(_, _) => OtherRead(t, buf, p);
    case _ => NumberRead(t, buf, p);
  }

  /** Decoding after the tag is read. */
  lemma ValueOfScalar(buf: seq<byte>, pos: nat, tag: u32)
    requires tag != TYPE_ARRAY && tag != TYPE_DICTIONARY
    requires ReadU32(buf, pos) == if pos + 4 <= |buf| then Ok(tag) else Err(TooShort(pos + 4, |buf|))
    ensures DecodeValue(buf, pos) ==
      if pos + 4 > |buf| then Err(TooShort(pos + 4, |buf|))
      else
        var s := DecodeScalar(buf, tag, pos + 4);
        if s.Ok? then Ok((Scalar(s.value.0), s.value.1)) else s.PropagateFailure()
  {
    hide ReadU32, DecodeScalar;
  }

  lemma LeafTag(t: Peer)
    requires IsLeaf(t) && WellFormed(t)
    ensures Tag(t) != TYPE_ARRAY && Tag(t) != TYPE_DICTIONARY && Meaning(t).Scalar?
  {
    hide ValidUtf8, NulIndex;
  }

  lemma LeafRead(t: Peer, buf: seq<byte>, pos: nat)
    requires IsLeaf(t) && WellFormed(t) && Agrees(buf, pos, Wire(t))
    ensures DecodeValue(buf, pos) == Given(t, pos, Outcome(t, pos, |buf|))
  {
    hide Agrees, Body, Le, ReadU32, DecodeScalar, DecodeValue, ValidUtf8, NulIndex, Tag, WellFormed, Meaning, Looked;
    U32Read(buf, pos, Tag(t), Body(t));
    LeafTag(t);
    ValueOfScalar(buf, pos, Tag(t));
    if pos + 4 <= |buf| {
      BodyRead(t, buf, pos + 4);
    }
  }

  // ---- containers ----

  /** A container whose tag is read: its two size fields, then its children. */
  lemma ValueOfContainer(buf: seq<byte>, pos: nat, tag: u32, total: u32, count: u32)
    requires tag == TYPE_ARRAY || tag == TYPE_DICTIONARY
    requires ReadU32(buf, pos) == if pos + 4 <= |buf| then Ok(tag) else Err(TooShort(pos + 4, |buf|))
    requires ReadU32(buf, pos + 4) == if pos + 8 <= |buf| then Ok(total) else Err(TooShort(pos + 8, |buf|))
    requires ReadU32(buf, pos + 8) == if pos + 12 <= |buf| then Ok(count) else Err(TooShort(pos + 12, |buf|))
    ensures DecodeValue(buf, pos) ==
      if pos + 4 > |buf| then Err(TooShort(pos + 4, |buf|))
      else if pos + 8 > |buf| then Err(TooShort(pos + 8, |buf|))
      else if pos + 12 > |buf| then Err(TooShort(pos + 12, |buf|))
      else if tag == TYPE_ARRAY then
        var r := DecodeItems(buf, pos + 12, count, []);
        if r.Ok? then Ok((Array(r.value), pos + 8 + total)) else r.PropagateFailure()
      else
        var r := DecodePairs(buf, pos + 12, count, map[]);
        if r.Ok? then Ok((Dictionary(r.value), pos + 8 + total)) else r.PropagateFailure()
  {
    hide ReadU32, DecodeItems, DecodePairs, DecodeScalar;
  }

  lemma SizedRead(buf: seq<byte>, pos: nat, tag: u32, count: nat, children: seq<byte>, slack: seq<byte>)
    requires 4 + |children| + |slack| < TWO_32 && 4 * count <= |children|
    requires Agrees(buf, pos, Le(tag, 4) + Sized(count, children, slack))
    ensures ReadU32(buf, pos) == if pos + 4 <= |buf| then Ok(tag) else Err(TooShort(pos + 4, |buf|))
    ensures ReadU32(buf, pos + 4)
      == if pos + 8 <= |buf| then Ok(4 + |children| + |slack|) else Err(TooShort(pos + 8, |buf|))
    ensures ReadU32(buf, pos + 8) == if pos + 12 <= |buf| then Ok(count) else Err(TooShort(pos + 12, |buf|))
    ensures Agrees(buf, pos + 12, children)
  {
    hide ReadU32, Le, Agrees;
    var total := 4 + |children| + |slack|;
    U32Read(buf, pos, tag, Sized(count, children, slack));
    U32Read(buf, pos + 4, total, Le(count, 4) + (children + slack));
    U32Read(buf, pos + 8, count, children + slack);
    AgreesAppend(buf, pos + 12, children, slack);
  }

  /**
   * Whatever a peer writes, anywhere in a buffer that ends anywhere, decoding
   * gives the outcome: what it means and exactly its end, or the failure.
   */
  lemma {:induction false} PeerOutcome(t: Peer, buf: seq<byte>, pos: nat)
    requires WellFormed(t) && Agrees(buf, pos, Wire(t))
    ensures DecodeValue(buf, pos) == Given(t, pos, Outcome(t, pos, |buf|))
    decreases t, 0
  {
    hide Le, ReadU32, DecodeValue, DecodeItems, DecodePairs, ValidUtf8, NulIndex, ItemBytes, PairBytes, Agrees,
         ItemsOutcome, PairsOutcome, Sized;
    match t
    case List(items, slack) =>
      SizedRead(buf, pos, 0xe000, |items|, ItemBytes(items), slack);
      ValueOfContainer(buf, pos, 0xe000, 4 + |ItemBytes(items)| + |slack|, |items|);
      PeerItems(items, buf, pos + 12, []);
      assert [] + Meanings(items) == Meanings(items);
      SizedLength(|items|, ItemBytes(items), slack);
    case Table(pairs, slack) =>
      SizedRead(buf, pos, 0xf000, |pairs|, PairBytes(pairs), slack);
      ValueOfContainer(buf, pos, 0xf000, 4 + |PairBytes(pairs)| + |slack|, |pairs|);
      assert pairs[0..] == pairs && pairs[..0] == [];
      PeerPairs(pairs, slack, 0, buf, pos + 12);
      SizedLength(|pairs|, PairBytes(pairs), slack);
    case _ =>
      LeafRead(t, buf, pos);
  }

  lemma SizedLength(count: nat, children: seq<byte>, slack: seq<byte>)
    ensures |Sized(count, children, slack)| == 8 + |children| + |slack|
  {}

  lemma ItemsFirst(items: seq<Peer>, acc: seq<Value>, cur: nat, n: nat)
    requires items != []
    ensures ItemBytes(items) == Wire(items[0]) + ItemBytes(items[1..])
    ensures acc + Meanings(items) == acc + [Meaning(items[0])] + Meanings(items[1..])
    ensures ItemsOutcome(items, cur, n) ==
      var r := Outcome(items[0], cur, n);
      if r.Ok? then ItemsOutcome(items[1..], cur + |Wire(items[0])|, n) else r
  {
    hide Wire, Meaning, Outcome;
  }

  lemma ItemsNone(acc: seq<Value>, buf: seq<byte>, cur: nat)
    ensures DecodeItems(buf, cur, 0, acc) == Ok(acc + Meanings([])) && ItemsOutcome([], cur, |buf|) == Ok(())
  {
    assert acc + Meanings([]) == acc;
  }

  lemma ItemStep(buf: seq<byte>, cur: nat, m: nat, acc: seq<Value>)
    requires m > 0
    ensures DecodeItems(buf, cur, m, acc) ==
      var r := DecodeValue(buf, cur);
      if r.Ok? then DecodeItems(buf, r.value.1, m - 1, acc + [r.value.0]) else r.PropagateFailure()
  {
    hide DecodeValue;
  }

  /** The array loop, whatever was read before. */
  lemma {:induction false} PeerItems(items: seq<Peer>, buf: seq<byte>, cur: nat, acc: seq<Value>)
    requires Agrees(buf, cur, ItemBytes(items))
    requires forall i | 0 <= i < |items| :: WellFormed(items[i])
    ensures var r := ItemsOutcome(items, cur, |buf|);
      DecodeItems(buf, cur, |items|, acc) == if r.Ok? then Ok(acc + Meanings(items)) else r.PropagateFailure()
    decreases items, 0
  {
    hide DecodeValue, DecodeItems, Wire, Meaning, WellFormed, Agrees, Outcome, ItemBytes, ItemsOutcome, Meanings;
    if items == [] {
      ItemsNone(acc, buf, cur);
    } else {
      ItemsFirst(items, acc, cur, |buf|);
      AgreesAppend(buf, cur, Wire(items[0]), ItemBytes(items[1..]));
      PeerOutcome(items[0], buf, cur);
      ItemStep(buf, cur, |items|, acc);
      PeerItems(items[1..], buf, cur + |Wire(items[0])|, acc + [Meaning(items[0])]);
    }
  }

  lemma PairsFrom(pairs: seq<PeerPair>, i: nat, cur: nat, n: nat)
    requires i < |pairs|
    ensures PairBytes(pairs[i..]) == KeyBytes(pairs[i]) + (Wire(pairs[i].val) + PairBytes(pairs[i + 1..]))
    ensures var p, at := pairs[i], cur + |KeyBytes(pairs[i])|;
      PairsOutcome(pairs[i..], cur, n) ==
        if n < cur then Panicked
        else if n <= cur + |p.key| || !ValidUtf8(p.key) then Err(InvalidUtf8)
        else
          var r := Outcome(p.val, at, n);
          if r.Ok? then PairsOutcome(pairs[i + 1..], at + |Wire(p.val)|, n) else r
  {
    hide KeyBytes, Wire, ValidUtf8, Outcome;
    assert pairs[i..][1..] == pairs[i + 1..];
  }

  /** One turn of the dictionary loop. */
  lemma {:induction false} PairTurn(pairs: seq<PeerPair>, i: nat, buf: seq<byte>, cur: nat)
    requires i < |pairs| && Agrees(buf, cur, KeyBytes(pairs[i]) + (Wire(pairs[i].val) + PairBytes(pairs[i + 1..])))
    requires WellFormed(pairs[i].val) && 0 !in pairs[i].key && Padded(|pairs[i].key| + 1, |pairs[i].pad|)
    ensures var p, at := pairs[i], cur + |KeyBytes(pairs[i])|;
      var next := at + |Wire(p.val)|;
      && Agrees(buf, next, PairBytes(pairs[i + 1..]))
      && DecodePairs(buf, cur, |pairs| - i, Entries(pairs[..i])) ==
        if |buf| < cur then Panicked
        else if |buf| <= cur + |p.key| || !ValidUtf8(p.key) then Err(InvalidUtf8)
        else
          var r := Outcome(p.val, at, |buf|);
          if r.Ok? then DecodePairs(buf, next, |pairs| - i - 1, Entries(pairs[..i + 1])) else r.PropagateFailure()
    decreases pairs, |pairs| - i, 0
  {
    hide Wire, KeyBytes, PairBytes, DecodeValue, DecodePairs, Entries, ValidUtf8, NulIndex, Meaning, Agrees, Padded,
         Outcome, WellFormed;
    var p := pairs[i];
    var at := cur + |KeyBytes(p)|;
    AgreesAppend(buf, cur, KeyBytes(p), Wire(p.val) + PairBytes(pairs[i + 1..]));
    AgreesAppend(buf, at, Wire(p.val), PairBytes(pairs[i + 1..]));
    KeyStep(p, buf, cur, |pairs| - i, Entries(pairs[..i]));
    if cur + |p.key| < |buf| && ValidUtf8(p.key) {
      PeerOutcome(p.val, buf, at);
      EntriesSnoc(pairs, i);
    }
  }

  /** The dictionary loop, with the first `i` entries read. */
  lemma {:induction false} PeerPairs(pairs: seq<PeerPair>, slack: seq<byte>, i: nat, buf: seq<byte>, cur: nat)
    requires i <= |pairs| && Agrees(buf, cur, PairBytes(pairs[i..]))
    requires WellFormed(Table(pairs, slack))
    ensures var r := PairsOutcome(pairs[i..], cur, |buf|);
      DecodePairs(buf, cur, |pairs| - i, Entries(pairs[..i]))
      == if r.Ok? then Ok(Entries(pairs)) else r.PropagateFailure()
    decreases pairs, |pairs| - i, 1
  {
    hide Wire, KeyBytes, PairBytes, DecodeValue, Entries, ValidUtf8, NulIndex, Meaning, Agrees, Padded, Outcome;
    if i < |pairs| {
      hide PairsOutcome, DecodePairs;
      PairsFrom(pairs, i, cur, |buf|);
      assert WellFormed(pairs[i].val) && 0 !in pairs[i].key && Padded(|pairs[i].key| + 1, |pairs[i].pad|);
      PairTurn(pairs, i, buf, cur);
      PeerPairs(pairs, slack, i + 1, buf, cur + |KeyBytes(pairs[i])| + |Wire(pairs[i].val)|);
      hide WellFormed;
    } else {
      hide WellFormed;
      assert pairs[..i] == pairs;
    }
  }

  lemma EntriesSnoc(pairs: seq<PeerPair>, i: nat)
    requires i < |pairs| && ValidUtf8(pairs[i].key)
    ensures Entries(pairs[..i + 1]) == Entries(pairs[..i])[pairs[i].key := Meaning(pairs[i].val)]
  {
    assert pairs[..i + 1][..i] == pairs[..i];
  }

  /** One turn of the dictionary loop: the key is found by its NUL, if that is there. */
  lemma KeyStep(p: PeerPair, buf: seq<byte>, cur: nat, m: nat, acc: map<Str, Value>)
    requires m > 0 && Agrees(buf, cur, KeyBytes(p)) && 0 !in p.key && Padded(|p.key| + 1, |p.pad|)
    ensures DecodePairs(buf, cur, m, acc) ==
      if |buf| < cur then Panicked
      else if |buf| <= cur + |p.key| || !ValidUtf8(p.key) then Err(InvalidUtf8)
      else
        var r := DecodeValue(buf, cur + |KeyBytes(p)|);
        if r.Ok? then DecodePairs(buf, r.value.1, m - 1, acc[p.key := r.value.0]) else r.PropagateFailure()
  {
    hide DecodeValue, ValidUtf8, NulIndex, Agrees;
    PaddedIs(|p.key| + 1, |p.pad|);
    hide Padded, Pad4;
    if cur <= |buf| {
      KeyFound(p, buf, cur);
      if cur + |p.key| < |buf| {
        KeyPadded(buf, cur, m, acc, p.key);
      }
    }
  }

  lemma KeyPadded(buf: seq<byte>, cur: nat, m: nat, acc: map<Str, Value>, key: seq<byte>)
    requires m > 0 && cur + |key| < |buf| && NulIndex(buf[cur..]) == |key| && buf[cur..cur + |key|] == key
    ensures DecodePairs(buf, cur, m, acc) ==
      if !ValidUtf8(key) then Err(InvalidUtf8)
      else
        var r := DecodeValue(buf, cur + Pad4(|key| + 1));
        if r.Ok? then DecodePairs(buf, r.value.1, m - 1, acc[key := r.value.0]) else r.PropagateFailure()
  {
    hide DecodeValue, ValidUtf8, NulIndex;
  }

  lemma KeyFound(p: PeerPair, buf: seq<byte>, cur: nat)
    requires Agrees(buf, cur, KeyBytes(p)) && 0 !in p.key && cur <= |buf|
    ensures if |buf| <= cur + |p.key| then cur + NulIndex(buf[cur..]) == |buf|
      else NulIndex(buf[cur..]) == |p.key| && buf[cur..cur + |p.key|] == p.key
  {
    var s := buf[cur..];
    if |buf| <= cur + |p.key| {
      assert forall k | 0 <= k < |s| :: s[k] == buf[cur + k] == KeyBytes(p)[k] == p.key[k];
      assert s == p.key[..|s|];
      NulIndexIs(s, |s|);
    } else {
      assert forall k | 0 <= k < |p.key| :: s[k] == buf[cur + k] == KeyBytes(p)[k] == p.key[k];
      assert s[..|p.key|] == p.key;
      assert buf[cur + |p.key|] == KeyBytes(p)[|p.key|] == 0;
      NulIndexIs(s, |p.key|);
    }
  }

  // ---- when it succeeds ----

  /** Decoding succeeds exactly if all is UTF-8 and at most padding or slack at the very end is missing. */
  lemma {:induction false} OutcomeExactly(t: Peer, pos: nat, n: nat)
    requires WellFormed(t)
    ensures Outcome(t, pos, n).Ok? <==> AllText(t) && pos + Needed(t) <= n
    decreases t, 1
  {
    hide ValidUtf8, NulIndex, ItemBytes, PairBytes, ItemsOutcome, PairsOutcome, Padded;
    match t
    case List(items, _) => ItemsExactly(items, pos + 12, n);
    case Table(pairs, _) => PairsExactly(pairs, pos + 12, n);
    case _ =>
  }

  lemma {:induction false} ItemsExactly(items: seq<Peer>, cur: nat, n: nat)
    requires forall i | 0 <= i < |items| :: WellFormed(items[i])
    ensures ItemsOutcome(items, cur, n).Ok? <==>
      && (forall i | 0 <= i < |items| :: AllText(items[i]))
      && (items != [] ==> cur + ItemsNeeded(items) <= n)
    decreases items, 0
  {
    hide Outcome, WellFormed, Wire, AllText, Needed;
    if items != [] {
      OutcomeExactly(items[0], cur, n);
      NeededWithin(items[0]);
      ItemsExactly(items[1..], cur + |Wire(items[0])|, n);
      assert forall i | 0 < i < |items| :: items[i] == items[1..][i - 1];
    }
  }

  lemma {:induction false} PairsExactly(pairs: seq<PeerPair>, cur: nat, n: nat)
    requires forall i | 0 <= i < |pairs| :: Padded(|pairs[i].key| + 1, |pairs[i].pad|) && WellFormed(pairs[i].val)
    ensures PairsOutcome(pairs, cur, n).Ok? <==>
      && (forall i | 0 <= i < |pairs| :: ValidUtf8(pairs[i].key) && AllText(pairs[i].val))
      && (pairs != [] ==> cur + PairsNeeded(pairs) <= n)
    decreases pairs, 0
  {
    hide Outcome, WellFormed, Wire, AllText, Needed, ValidUtf8;
    if pairs != [] {
      var at := cur + |KeyBytes(pairs[0])|;
      OutcomeExactly(pairs[0].val, at, n);
      NeededWithin(pairs[0].val);
      PairsExactly(pairs[1..], at + |Wire(pairs[0].val)|, n);
      assert forall i | 0 < i < |pairs| :: pairs[i] == pairs[1..][i - 1];
    }
  }

  /** What is looked at lies within the value. */
  lemma {:induction false} NeededWithin(t: Peer)
    requires WellFormed(t)
    ensures Needed(t) <= |Wire(t)|
    decreases t, 1
  {
    match t
    case List(items, slack) => ItemsWithinWire(items); hide ItemsNeeded, ItemBytes;
    case Table(pairs, slack) => PairsWithinWire(pairs); hide PairsNeeded, PairBytes;
    case _ =>
  }

  lemma {:induction false} ItemsWithinWire(items: seq<Peer>)
    requires forall i | 0 <= i < |items| :: WellFormed(items[i])
    ensures ItemsNeeded(items) <= |ItemBytes(items)|
    decreases items, 0
  {
    hide WellFormed, Wire, Needed;
    if items != [] {
      NeededWithin(items[0]);
      ItemsWithinWire(items[1..]);
    }
  }

  lemma {:induction false} PairsWithinWire(pairs: seq<PeerPair>)
    requires forall i | 0 <= i < |pairs| :: WellFormed(pairs[i].val)
    ensures PairsNeeded(pairs) <= |PairBytes(pairs)|
    decreases pairs, 0
  {
    hide WellFormed, Wire, Needed, KeyBytes;
    if pairs != [] {
      NeededWithin(pairs[0].val);
      PairsWithinWire(pairs[1..]);
    }
  }

  /** A whole value decodes to what it means, wherever it stands. */
  lemma PeerDecodes(t: Peer, buf: seq<byte>, pos: nat)
    requires WellFormed(t) && AllText(t) && At(buf, pos, Wire(t))
    ensures DecodeValue(buf, pos) == Ok((Meaning(t), pos + |Wire(t)|))
  {
    hide WellFormed, AllText, Wire, Agrees, Needed, Outcome, DecodeValue;
    AtAgrees(buf, pos, Wire(t));
    PeerOutcome(t, buf, pos);
    NeededWithin(t);
    OutcomeExactly(t, pos, |buf|);
  }
}
