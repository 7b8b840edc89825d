/** What NSKeyedArchiver decoding gives for each form of a value, for every table. */
module NskaShape {
  import opened Wrappers
  import opened Plist
  import opened Nska
  import opened NskaBuild

  /** Each value with what it decodes to. */
  ghost predicate Decoded(items: seq<Plist>, rs: seq<Plist>, objects: seq<Plist>, debug: Plist -> string, f: nat) {
    |rs| == |items| && forall j | 0 <= j < |items| :: Decode(items[j], objects, debug, f) == Some(rs[j])
  }

  /** As a key: a string as it is, anything else as it prints. */
  predicate IsKey(key: string, r: Option<Plist>, debug: Plist -> string) {
    match r
    case Some(String(s)) => key == s
    case Some(k) => key == debug(k)
    case None => false
  }

  /** The entries of keys and values in parallel, as far as both go. */
  ghost predicate Zipped(
      keys: seq<Plist>, vals: seq<Plist>, m: seq<Entry>, objects: seq<Plist>, debug: Plist -> string, f: nat)
  {
    && |m| == (if |keys| < |vals| then |keys| else |vals|)
    && forall j | 0 <= j < |m| ::
      && IsKey(m[j].key, Decode(keys[j], objects, debug, f), debug)
      && Decode(vals[j], objects, debug, f) == Some(m[j].val)
  }

  /** The entries but for the class. */
  function Unclassed(d: seq<Entry>): (e: seq<Entry>) {
    if d == [] then [] else (if d[0].key == "$class" then [] else [d[0]]) + Unclassed(d[1..])
  }

  /** Each entry with its value decoded. */
  ghost predicate Valued(e: seq<Entry>, m: seq<Entry>, objects: seq<Plist>, debug: Plist -> string, f: nat) {
    |m| == |e| && forall j | 0 <= j < |e| ::
      m[j].key == e[j].key && Decode(e[j].val, objects, debug, f) == Some(m[j].val)
  }

  lemma {:induction false} ItemsShape(
      items: seq<Plist>, i: nat, out: seq<Plist>, objects: seq<Plist>, debug: Plist -> string, f: nat)
    returns (rs: seq<Plist>)
    requires i <= |items| && DecodeItems(items, i, out, objects, debug, f).Some?
    ensures Decoded(items[i..], rs, objects, debug, f)
    ensures DecodeItems(items, i, out, objects, debug, f) == Some(Array(out + rs))
    decreases |items| - i
  {
    hide Decode;
    if i == |items| {
      rs := [];
      assert out + [] == out;
    } else {
      var r := Decode(items[i], objects, debug, f).value;
      var more := ItemsShape(items, i + 1, out + [r], objects, debug, f);
      rs := [r] + more;
      assert out + rs == out + [r] + more;
      assert items[i..] == [items[i]] + items[i + 1..];
    }
  }

  lemma {:induction false} PairsShape(
      keys: seq<Plist>, vals: seq<Plist>, objects: seq<Plist>, debug: Plist -> string, f: nat)
    returns (m: seq<Entry>)
    requires DecodePairs(keys, vals, 0, [], objects, debug, f).Some?
    ensures Zipped(keys, vals, m, objects, debug, f)
    ensures DecodePairs(keys, vals, 0, [], objects, debug, f) == Some(DictOf(m))
  {
    hide Decode, DecodePairs;
    var n := if |keys| < |vals| then |keys| else |vals|;
    forall j | 0 <= j < n
      ensures Decode(keys[j], objects, debug, f).Some? && Decode(vals[j], objects, debug, f).Some?
    {
      PairsDecode(keys, vals, 0, [], j, objects, debug, f);
    }
    m := seq(n, j requires 0 <= j < n =>
      Entry(KeyText(Decode(keys[j], objects, debug, f).value, debug), Decode(vals[j], objects, debug, f).value));
    PairsMean(keys, vals, 0, [], m, objects, debug, f);
  }

  /** Inserting one entry and then the others. */
  lemma {:induction false} InsertOn(out: seq<Entry>, e: Entry, m: seq<Entry>, i: nat)
    requires i <= |m|
    ensures InsertFrom(out, [e] + m, i + 1) == InsertFrom(out, m, i)
    decreases |m| - i
  {
    hide Insert;
    if i < |m| {
      InsertOn(Insert(out, m[i].key, m[i].val), e, m, i + 1);
    }
  }

  lemma {:induction false} EntriesShape(
      d: seq<Entry>, i: nat, out: seq<Entry>, objects: seq<Plist>, debug: Plist -> string, f: nat)
    returns (m: seq<Entry>)
    requires i <= |d| && DecodeEntries(d, i, out, objects, debug, f).Some?
    ensures Valued(Unclassed(d[i..]), m, objects, debug, f)
    ensures DecodeEntries(d, i, out, objects, debug, f) == Some(Dict(InsertFrom(out, m, 0)))
    decreases |d| - i
  {
    hide Decode, Insert;
    if i == |d| {
      m := [];
    } else {
      assert d[i..][1..] == d[i + 1..];
      if d[i].key == "$class" {
        m := EntriesShape(d, i + 1, out, objects, debug, f);
        assert [] + Unclassed(d[i + 1..]) == Unclassed(d[i + 1..]);
      } else {
        var e := Entry(d[i].key, Decode(d[i].val, objects, debug, f).value);
        var more := EntriesShape(d, i + 1, Insert(out, e.key, e.val), objects, debug, f);
        m := [e] + more;
        InsertOn(Insert(out, e.key, e.val), e, more, 0);
      }
    }
  }

  /** What a value of each form decodes to, in terms of what its parts decode to. */
  ghost predicate Shape(v: Plist, r: Plist, objects: seq<Plist>, debug: Plist -> string, f: nat) {
    match v
    case Uid(u) => if u < |objects| then Decode(objects[u], objects, debug, f) == Some(r) else r == String("$null")
    case Array(items) => r.Array? && Decoded(items, r.items, objects, debug, f)
    case Dict(d) =>
      var keys, vals := Get(d, "NS.keys"), Get(d, "NS.objects");
      if keys.Some? && vals.Some? then
        exists m ::
          Zipped(if keys.value.Array? then keys.value.items else [], if vals.value.Array? then vals.value.items else [],
            m, objects, debug, f)
          && r == DictOf(m)
      else if vals.Some? && vals.value.Array? then
        r.Array? && Decoded(vals.value.items, r.items, objects, debug, f)
      else
        exists m :: Valued(Unclassed(d), m, objects, debug, f) && r == DictOf(m)
    case _ => r == v
  }

  /**
   * Every decoded value has the shape of its form: a reference stands for its
   * object, or nothing beyond the table; an array, or a dictionary with items
   * only, becomes the array of its items; keys and values are paired; any other
   * dictionary keeps its entries but the class.
   */
  lemma {:induction false} DecodedShape(v: Plist, objects: seq<Plist>, debug: Plist -> string, fuel: nat)
    requires Decode(v, objects, debug, fuel).Some?
    ensures fuel > 0 && Shape(v, Decode(v, objects, debug, fuel).value, objects, debug, fuel - 1)
  {
    var f := fuel - 1;
    match v
    case Array(items) =>
      var rs := ItemsShape(items, 0, [], objects, debug, f);
      assert items[0..] == items && [] + rs == rs;
    case Dict(d) =>
      DictShape(d, objects, debug, fuel);
    case _ =>
  }

  lemma DictShape(d: seq<Entry>, objects: seq<Plist>, debug: Plist -> string, fuel: nat)
    requires Decode(Dict(d), objects, debug, fuel).Some? && fuel > 0
    ensures Shape(Dict(d), Decode(Dict(d), objects, debug, fuel).value, objects, debug, fuel - 1)
  {
    hide Get, DecodeItems, DecodePairs, DecodeEntries, Decoded, Zipped, Valued, DictOf;
    var f := fuel - 1;
    var keys, vals := Get(d, "NS.keys"), Get(d, "NS.objects");
    if keys.Some? && vals.Some? {
      var ks, vs := ItemsOr(keys), ItemsOr(vals);
      assert Decode(Dict(d), objects, debug, fuel) == DecodePairs(ks, vs, 0, [], objects, debug, f);
      hide Decode;
      var m := PairsShape(ks, vs, objects, debug, f);
    } else if vals.Some? && vals.value.Array? {
      var items := vals.value.items;
      assert Decode(Dict(d), objects, debug, fuel) == DecodeItems(items, 0, [], objects, debug, f);
      hide Decode;
      var rs := ItemsShape(items, 0, [], objects, debug, f);
      assert items[0..] == items && [] + rs == rs;
    } else {
      assert Decode(Dict(d), objects, debug, fuel) == DecodeEntries(d, 0, [], objects, debug, f);
      hide Decode;
      EntriesDict(d, objects, debug, f);
    }
  }

  lemma EntriesDict(d: seq<Entry>, objects: seq<Plist>, debug: Plist -> string, f: nat)
    requires DecodeEntries(d, 0, [], objects, debug, f).Some?
    ensures exists m ::
      Valued(Unclassed(d), m, objects, debug, f) && DecodeEntries(d, 0, [], objects, debug, f) == Some(DictOf(m))
  {
    hide DecodeEntries, Valued;
    var m := EntriesShape(d, 0, [], objects, debug, f);
    assert d[0..] == d;
  }
}
