/** The codec as the program runs it: loops that append to a vector and that advance a cursor. */
module XpcCodec {
  import opened Bytes
  import opened Utf8
  import opened Xpc

  method EncodeDictKey(key: Str, out: ByteVec)
    modifies out
    ensures out.data == old(out.data) + EncodeKey(key)
  {
    var len := |key| + 1;
    out.Extend(key);
    out.Extend([0]);
    out.Extend(Zeros(Pad4(len) - len));
    assert out.data == old(out.data) + (key + [0] + Zeros(Pad4(len) - len));
  }

  method EncodeValue(val: Layout, out: ByteVec)
    modifies out
    ensures out.data == old(out.data) + Encode(val)
    decreases val, 1
  {
    hide EncodeScalar, EncodeItems, EncodePairs, Le;
    match val
    case Leaf(s) =>
      out.Extend(EncodeScalar(s));
    case Items(items) =>
      var itemsBuf := EncodeItemsLoop(items);
      AppendContainer(TYPE_ARRAY, |items|, itemsBuf.data, out);
    case Pairs(pairs) =>
      var kvBuf := EncodePairsLoop(pairs);
      AppendContainer(TYPE_DICTIONARY, |pairs|, kvBuf.data, out);
  }

  method AppendContainer(tag: u32, count: nat, body: seq<byte>, out: ByteVec)
    modifies out
    ensures out.data == old(out.data) + (Le(tag, 4) + (Le(4 + |body|, 4) + (Le(count, 4) + body)))
  {
    hide Le;
    out.Extend(Le(tag, 4));
    out.Extend(Le(4 + |body|, 4));
    out.Extend(Le(count, 4));
    out.Extend(body);
  }

  method EncodeItemsLoop(items: seq<Layout>) returns (buf: ByteVec)
    ensures fresh(buf) && buf.data == EncodeItems(items)
    decreases items, 0
  {
    hide Encode;
    buf := new ByteVec();
    for i := 0 to |items|
      invariant fresh(buf)
      invariant buf.data + EncodeItems(items[i..]) == EncodeItems(items)
    {
      assert items[i..][1..] == items[i + 1..];
      EncodeValue(items[i], buf);
    }
  }

  method EncodePairsLoop(pairs: seq<Pair>) returns (buf: ByteVec)
    ensures fresh(buf) && buf.data == EncodePairs(pairs)
    decreases pairs, 0
  {
    hide Encode, EncodeKey, ValidUtf8, EncodePairs;
    buf := new ByteVec();
    assert pairs[0..] == pairs;
    for i := 0 to |pairs|
      invariant fresh(buf)
      invariant buf.data + EncodePairs(pairs[i..]) == EncodePairs(pairs)
    {
      EncodePairsFrom(pairs, i);
      EncodeDictKey(pairs[i].key, buf);
      EncodeValue(pairs[i].val, buf);
    }
    EncodePairsFrom(pairs, |pairs|);
  }

  method DecodeValueAt(buf: seq<byte>, pos: nat) returns (r: Result<(Value, nat)>)
    ensures r == DecodeValue(buf, pos)
    decreases Left(buf, pos), 0
  {
    hide ValidUtf8, U32At, DecodeScalar, NulIndex;
    var tag := ReadU32(buf, pos);
    if !tag.Ok? {
      return tag.PropagateFailure();
    }
    var p := pos + 4;
    if tag.value != TYPE_ARRAY && tag.value != TYPE_DICTIONARY {
      var s := DecodeScalar(buf, tag.value, p);
      return if s.Ok? then Ok((Scalar(s.value.0), s.value.1)) else s.PropagateFailure();
    }
    var total, count := ReadU32(buf, p), ReadU32(buf, p + 4);
    if !total.Ok? {
      return total.PropagateFailure();
    }
    if !count.Ok? {
      return count.PropagateFailure();
    }
    var end := p + 4 + total.value;
    if tag.value == TYPE_ARRAY {
      var items := ItemsLoop(buf, p + 8, count.value);
      return if items.Ok? then Ok((Array(items.value), end)) else items.PropagateFailure();
    }
    var entries := PairsLoop(buf, p + 8, count.value);
    return if entries.Ok? then Ok((Dictionary(entries.value), end)) else entries.PropagateFailure();
  }

  method ItemsLoop(buf: seq<byte>, start: nat, count: nat) returns (r: Result<seq<Value>>)
    ensures r == DecodeItems(buf, start, count, [])
    decreases Left(buf, start), 1
  {
    hide DecodeValue;
    var cur, items := start, [];
    for i := 0 to count
      invariant cur >= start
      invariant DecodeItems(buf, start, count, []) == DecodeItems(buf, cur, count - i, items)
    {
      var next := DecodeValueAt(buf, cur);
      if !next.Ok? {
        return next.PropagateFailure();
      }
      items, cur := items + [next.value.0], next.value.1;
    }
    return Ok(items);
  }

  method PairsLoop(buf: seq<byte>, start: nat, count: nat) returns (r: Result<map<Str, Value>>)
    ensures r == DecodePairs(buf, start, count, map[])
    decreases Left(buf, start), 1
  {
    hide DecodeValue, ValidUtf8, NulIndex;
    var cur := start;
    var entries: map<Str, Value> := map[];
    for i := 0 to count
      invariant cur >= start
      invariant DecodePairs(buf, start, count, map[]) == DecodePairs(buf, cur, count - i, entries)
    {
      if cur > |buf| {
        return Panicked;
      }
      var nul := NulIndex(buf[cur..]);
      if cur + nul == |buf| || !ValidUtf8(buf[cur..cur + nul]) {
        return Err(InvalidUtf8);
      }
      var key: Str := buf[cur..cur + nul];
      var next := DecodeValueAt(buf, cur + Pad4(nul + 1));
      if !next.Ok? {
        return next.PropagateFailure();
      }
      entries, cur := entries[key := next.value.0], next.value.1;
    }
    return Ok(entries);
  }
}
