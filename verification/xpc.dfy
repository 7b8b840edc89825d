/** The XPC binary codec of src/xpc: values, encoder and decoder. */
module Xpc {
  import opened Bytes
  import opened Utf8
  import opened Wrappers

  const TYPE_NULL: u32 := 0x0000_1000
  const TYPE_BOOL: u32 := 0x0000_2000
  const TYPE_INT64: u32 := 0x0000_3000
  const TYPE_UINT64: u32 := 0x0000_4000
  const TYPE_DOUBLE: u32 := 0x0000_5000
  const TYPE_DATE: u32 := 0x0000_7000
  const TYPE_DATA: u32 := 0x0000_8000
  const TYPE_STRING: u32 := 0x0000_9000
  const TYPE_UUID: u32 := 0x0000_a000
  const TYPE_ARRAY: u32 := 0x0000_e000
  const TYPE_DICTIONARY: u32 := 0x0000_f000

  const WRAPPER_MAGIC: u32 := 0x29b0_0b92
  const PAYLOAD_MAGIC: u32 := 0x4213_3742
  const PAYLOAD_VERSION: u32 := 0x0000_0005

  type Uuid = s: seq<byte> | |s| == 16 witness seq(16, _ => 0)

  /** The values without children; a double is its bit pattern. */
  datatype Scalar =
    | Null
    | Bool(b: bool)
    | Int64(i: i64)
    | Uint64(u: u64)
    | Double(bits: u64)
    | Data(bytes: seq<byte>)
    | String(s: Str)
    | UuidBytes(id: Uuid)

  datatype Value =
    | Scalar(scalar: Scalar)
    | Array(items: seq<Value>)
    | Dictionary(entries: map<Str, Value>)

  /**
   * A value as the encoder walks it: a hash map is visited in some order, so
   * each dictionary is the list of its entries in one iteration order.
   */
  datatype Layout =
    | Leaf(scalar: Scalar)
    | Items(items: seq<Layout>)
    | Pairs(pairs: seq<Pair>)

  datatype Pair = Pair(key: Str, val: Layout)

  /** The value a layout is an iteration of. */
  function ValueOf(t: Layout): Value {
    match t
    case Leaf(s) => Scalar(s)
    case Items(items) => Array(ValuesOf(items))
    case Pairs(pairs) => Dictionary(MapOf(pairs))
  }

  function ValuesOf(items: seq<Layout>): (vs: seq<Value>)
    ensures |vs| == |items|
  {
    if items == [] then [] else [ValueOf(items[0])] + ValuesOf(items[1..])
  }

  function MapOf(pairs: seq<Pair>): (m: map<Str, Value>) {
    if pairs == [] then map[]
    else
      var last := pairs[|pairs| - 1];
      MapOf(pairs[..|pairs| - 1])[last.key := ValueOf(last.val)]
  }

  /** A hash map yields each key once. */
  predicate KeysDistinct(t: Layout) {
    match t
    case Leaf(_) => true
    case Items(items) => forall i | 0 <= i < |items| :: KeysDistinct(items[i])
    case Pairs(pairs) =>
      && (forall i, j | 0 <= i < j < |pairs| :: pairs[i].key != pairs[j].key)
      && (forall i | 0 <= i < |pairs| :: KeysDistinct(pairs[i].val))
  }

  predicate NulFree(v: Value) {
    match v
    case Scalar(s) => s.String? ==> 0 !in s.s
    case Array(items) => forall i | 0 <= i < |items| :: NulFree(items[i])
    case Dictionary(m) => forall k | k in m :: 0 !in k && NulFree(m[k])
  }

  /** Lengths and sizes fit the 32-bit fields that carry them. */
  predicate Fits(t: Layout) {
    match t
    case Leaf(Data(bytes)) => |bytes| < TWO_32
    case Leaf(String(s)) => |s| + 1 < TWO_32
    case Leaf(_) => true
    case Items(items) =>
      4 + |EncodeItems(items)| < TWO_32 && forall i | 0 <= i < |items| :: Fits(items[i])
    case Pairs(pairs) =>
      4 + |EncodePairs(pairs)| < TWO_32 && forall i | 0 <= i < |pairs| :: Fits(pairs[i].val)
  }

  // ---- encoding ----

  function Pad4(n: nat): (p: nat)
    ensures n <= p < n + 4 && p % 4 == 0
  {
    (n + 3) / 4 * 4
  }

  function Zeros(n: nat): (s: seq<byte>)
    ensures |s| == n
  {
    seq(n, _ => 0)
  }

  function EncodeScalar(s: Scalar): (out: seq<byte>) {
    match s
    case Null => Le(TYPE_NULL, 4)
    case Bool(b) => Le(TYPE_BOOL, 4) + ([if b then 1 else 0] + Zeros(3))
    case Int64(n) => Le(TYPE_INT64, 4) + Le(ToU64(n), 8)
    case Uint64(n) => Le(TYPE_UINT64, 4) + Le(n, 8)
    case Double(bits) => Le(TYPE_DOUBLE, 4) + Le(bits, 8)
    case Data(bytes) =>
      Le(TYPE_DATA, 4) + (Le(|bytes|, 4) + (bytes + Zeros(Pad4(|bytes|) - |bytes|)))
    case String(s) =>
      Le(TYPE_STRING, 4) + (Le(|s| + 1, 4) + (s + [0] + Zeros(Pad4(|s| + 1) - (|s| + 1))))
    case UuidBytes(u) => Le(TYPE_UUID, 4) + u
  }

  function EncodeKey(key: Str): (out: seq<byte>)
    ensures |out| == Pad4(|key| + 1)
  {
    key + [0] + Zeros(Pad4(|key| + 1) - (|key| + 1))
  }

  function Encode(t: Layout): (out: seq<byte>)
    ensures |out| >= 4
    decreases t, 1
  {
    match t
    case Leaf(s) => EncodeScalar(s)
    case Items(items) =>
      var body := EncodeItems(items);
      Le(TYPE_ARRAY, 4) + (Le(4 + |body|, 4) + (Le(|items|, 4) + body))
    case Pairs(pairs) =>
      var body := EncodePairs(pairs);
      Le(TYPE_DICTIONARY, 4) + (Le(4 + |body|, 4) + (Le(|pairs|, 4) + body))
  }

  function EncodeItems(items: seq<Layout>): (out: seq<byte>)
    ensures |out| >= 4 * |items|
    decreases items, 0
  {
    if items == [] then [] else Encode(items[0]) + EncodeItems(items[1..])
  }

  function EncodePairs(pairs: seq<Pair>): (out: seq<byte>)
    ensures |out| >= 4 * |pairs|
    decreases pairs, 0
  {
    if pairs == [] then []
    else EncodeKey(pairs[0].key) + (Encode(pairs[0].val) + EncodePairs(pairs[1..]))
  }

  /** The entries from the i-th on. */
  lemma EncodePairsFrom(pairs: seq<Pair>, i: nat)
    requires i <= |pairs|
    ensures i == |pairs| ==> EncodePairs(pairs[i..]) == []
    ensures i < |pairs| ==>
      EncodePairs(pairs[i..]) == EncodeKey(pairs[i].key) + (Encode(pairs[i].val) + EncodePairs(pairs[i + 1..]))
  {
    hide EncodeKey, Encode, ValidUtf8;
    if i < |pairs| {
      assert pairs[i..][1..] == pairs[i + 1..];
    }
  }

  // ---- decoding ----

  datatype XpcError =
    | TooShort(need: nat, got: nat)
    | BadMagic(magic: u32)
    | InvalidUtf8

  /** A result, an error, or the panic of an out-of-range slice or an overflowing sum. */
  datatype Result<+T> = Ok(value: T) | Err(error: XpcError) | Panicked {
    predicate IsFailure() {
      !Ok?
    }

    function PropagateFailure<U>(): Result<U>
      requires !Ok?
    {
      if Err? then Err(error) else Panicked
    }

    function Extract(): T
      requires Ok?
    {
      value
    }
  }

  function ReadU32(buf: seq<byte>, pos: nat): Result<u32> {
    if pos + 4 <= |buf| then Ok(U32At(buf, pos)) else Err(TooShort(pos + 4, |buf|))
  }

  function ReadU64(buf: seq<byte>, pos: nat): Result<u64> {
    if pos + 8 <= |buf| then Ok(U64At(buf, pos)) else Err(TooShort(pos + 8, |buf|))
  }

  function Slice(buf: seq<byte>, pos: nat, len: nat): Result<seq<byte>> {
    if pos + len <= |buf| then Ok(buf[pos..pos + len]) else Err(TooShort(pos + len, |buf|))
  }

  function Left(buf: seq<byte>, pos: nat): nat {
    if pos <= |buf| then |buf| - pos else 0
  }

  /** Decodes the body, at `p`, of a value without children. Unknown tags count as eight bytes of Null. */
  function DecodeScalar(buf: seq<byte>, tag: u32, p: nat): (r: Result<(Scalar, nat)>)
    ensures r.Ok? ==> p <= r.value.1
  {
    if tag == TYPE_NULL then
      Ok((Null, p))
    else if tag == TYPE_BOOL then
      var b :- Slice(buf, p, 1);
      Ok((Bool(b[0] != 0), p + 4))
    else if tag == TYPE_INT64 then
      var n :- ReadU64(buf, p);
      Ok((Int64(ToI64(n)), p + 8))
    else if tag == TYPE_UINT64 then
      var n :- ReadU64(buf, p);
      Ok((Uint64(n), p + 8))
    else if tag == TYPE_DOUBLE || tag == TYPE_DATE then
      var bits :- ReadU64(buf, p);
      Ok((Double(bits), p + 8))
    else if tag == TYPE_DATA then
      var len :- ReadU32(buf, p);
      var data :- Slice(buf, p + 4, len);
      Ok((Data(data), p + 4 + Pad4(len)))
    else if tag == TYPE_STRING then
      DecodeString(buf, p)
    else if tag == TYPE_UUID then
      var id :- Slice(buf, p, 16);
      Ok((UuidBytes(id), p + 16))
    else
      Ok((Null, p + 8))
  }

  /** A string ends at its first NUL, whatever the declared length. */
  function DecodeString(buf: seq<byte>, p: nat): (r: Result<(Scalar, nat)>)
    ensures r.Ok? ==> p <= r.value.1
  {
    var len :- ReadU32(buf, p);
    var raw :- Slice(buf, p + 4, len);
    var s := raw[..NulIndex(raw)];
    if ValidUtf8(s) then Ok((String(s), p + 4 + Pad4(len))) else Err(InvalidUtf8)
  }

  /** Decodes one value at `pos`; the second component is where the caller goes on. */
  function DecodeValue(buf: seq<byte>, pos: nat): (r: Result<(Value, nat)>)
    ensures r.Ok? ==> pos + 4 <= |buf| && pos + 4 <= r.value.1
    decreases Left(buf, pos), 0, 0
  {
    var tag :- ReadU32(buf, pos);
    var p := pos + 4;
    if tag == TYPE_ARRAY then
      var total :- ReadU32(buf, p);
      var count :- ReadU32(buf, p + 4);
      var items :- DecodeItems(buf, p + 8, count, []);
      Ok((Array(items), p + 4 + total))
    else if tag == TYPE_DICTIONARY then
      var total :- ReadU32(buf, p);
      var count :- ReadU32(buf, p + 4);
      var entries :- DecodePairs(buf, p + 8, count, map[]);
      Ok((Dictionary(entries), p + 4 + total))
    else
      var (s, next) :- DecodeScalar(buf, tag, p);
      Ok((Scalar(s), next))
  }

  /** The array loop: `n` more items from `cur`, after the items `acc` already read. */
  function DecodeItems(buf: seq<byte>, cur: nat, n: nat, acc: seq<Value>): (r: Result<seq<Value>>)
    decreases Left(buf, cur), 1, n
  {
    if n == 0 then Ok(acc)
    else
      var (v, next) :- DecodeValue(buf, cur);
      DecodeItems(buf, next, n - 1, acc + [v])
  }

  /** The dictionary loop; slicing from beyond the end of the buffer panics. */
  function DecodePairs(buf: seq<byte>, cur: nat, n: nat, acc: map<Str, Value>): (r: Result<map<Str, Value>>)
    decreases Left(buf, cur), 1, n
  {
    if n == 0 then Ok(acc)
    else if cur > |buf| then Panicked
    else
      var nul := NulIndex(buf[cur..]);
      if cur + nul == |buf| then Err(InvalidUtf8)
      else
        var key := buf[cur..cur + nul];
        if !ValidUtf8(key) then Err(InvalidUtf8)
        else
          var (v, next) :- DecodeValue(buf, cur + Pad4(nul + 1));
          DecodePairs(buf, next, n - 1, acc[key := v])
  }

  // ---- messages ----

  datatype Message<+V> = Message(flags: u32, msgId: u64, body: Option<V>)

  function Payload(body: Option<Layout>): (p: seq<byte>)
    ensures body.None? ==> p == []
    ensures body.Some? ==> |p| == 8 + |Encode(body.value)|
  {
    match body
    case None => []
    case Some(t) => Le(PAYLOAD_MAGIC, 4) + (Le(PAYLOAD_VERSION, 4) + Encode(t))
  }

  function EncodeMessage(m: Message<Layout>): (out: seq<byte>)
    ensures |out| == 24 + |Payload(m.body)|
  {
    var p := Payload(m.body);
    Le(WRAPPER_MAGIC, 4) + (Le(m.flags, 4) + (Le(|p|, 8) + (Le(m.msgId, 8) + p)))
  }

  function DecodeMessage(buf: seq<byte>): (r: Result<(Message<Value>, nat)>) {
    if |buf| < 24 then Err(TooShort(24, |buf|))
    else
      var magic := U32At(buf, 0);
      if magic != WRAPPER_MAGIC then Err(BadMagic(magic))
      else
        var flags, bodyLen, msgId := U32At(buf, 4), U64At(buf, 8), U64At(buf, 16);
        var total := 24 + bodyLen;
        if total >= TWO_64 then Panicked
        else if |buf| < total then Err(TooShort(total, |buf|))
        else if bodyLen < 8 then Ok((Message(flags, msgId, None), total))
        else
          var pb := buf[24..total];
          var pmag := U32At(pb, 0);
          if pmag != PAYLOAD_MAGIC then Err(BadMagic(pmag))
          else
            var (v, _) :- DecodeValue(pb, 8);
            Ok((Message(flags, msgId, Some(v)), total))
  }
}
