/**
 * NSKeyedArchiver: the recursive decoder of src/bin/ios/cmd/perf.rs, which
 * follows references into the object table.
 */
module Nska {
  import opened Wrappers
  import opened Plist

  const NULL: Plist := String("$null")

  function ItemsOr(v: Option<Plist>): seq<Plist> {
    if v.Some? && v.value.Array? then v.value.items else []
  }

  /**
   * Decodes a value against its table. `fuel` bounds the depth of the recursion
   * and None is running out of it; `debug` is how a key that is no string prints.
   */
  function Decode(v: Plist, objects: seq<Plist>, debug: Plist -> string, fuel: nat): (r: Option<Plist>)
    decreases fuel, 0, 0
  {
    if fuel == 0 then None
    else
      match v
      case Uid(u) => if u < |objects| then Decode(objects[u], objects, debug, fuel - 1) else Some(NULL)
      case Dict(d) =>
        var keys, vals := Get(d, "NS.keys"), Get(d, "NS.objects");
        if keys.Some? && vals.Some? then
          DecodePairs(ItemsOr(keys), ItemsOr(vals), 0, [], objects, debug, fuel - 1)
        else if vals.Some? && vals.value.Array? then
          DecodeItems(vals.value.items, 0, [], objects, debug, fuel - 1)
        else
          DecodeEntries(d, 0, [], objects, debug, fuel - 1)
      case Array(items) => DecodeItems(items, 0, [], objects, debug, fuel - 1)
      case _ => Some(v)
  }

  function DecodeItems(
      items: seq<Plist>, i: nat, out: seq<Plist>, objects: seq<Plist>, debug: Plist -> string, fuel: nat)
    : (r: Option<Plist>)
    requires i <= |items|
    decreases fuel, 1, |items| - i
  {
    if i == |items| then Some(Array(out))
    else
      var v := Decode(items[i], objects, debug, fuel);
      if v.None? then None else DecodeItems(items, i + 1, out + [v.value], objects, debug, fuel)
  }

  function KeyText(k: Plist, debug: Plist -> string): string {
    if k.String? then k.s else debug(k)
  }

  /** Keys and values in parallel, up to the shorter list; a repeated key overwrites. */
  function DecodePairs(
      keys: seq<Plist>, vals: seq<Plist>, i: nat, out: seq<Entry>,
      objects: seq<Plist>, debug: Plist -> string, fuel: nat)
    : (r: Option<Plist>)
    requires i <= |keys|
    decreases fuel, 1, |keys| - i
  {
    if i == |keys| || i >= |vals| then Some(Dict(out))
    else
      var k, v := Decode(keys[i], objects, debug, fuel), Decode(vals[i], objects, debug, fuel);
      if k.None? || v.None? then None
      else DecodePairs(keys, vals, i + 1, Insert(out, KeyText(k.value, debug), v.value), objects, debug, fuel)
  }

  /** The entries of a plain dictionary, without its class. */
  function DecodeEntries(
      d: seq<Entry>, i: nat, out: seq<Entry>, objects: seq<Plist>, debug: Plist -> string, fuel: nat)
    : (r: Option<Plist>)
    requires i <= |d|
    decreases fuel, 1, |d| - i
  {
    if i == |d| then Some(Dict(out))
    else if d[i].key == "$class" then DecodeEntries(d, i + 1, out, objects, debug, fuel)
    else
      var v := Decode(d[i].val, objects, debug, fuel);
      if v.None? then None
      else DecodeEntries(d, i + 1, Insert(out, d[i].key, v.value), objects, debug, fuel)
  }

  // ---- more fuel changes nothing ----

  lemma {:induction false} MoreFuel(v: Plist, objects: seq<Plist>, debug: Plist -> string, f: nat, g: nat)
    requires f <= g && Decode(v, objects, debug, f).Some?
    ensures Decode(v, objects, debug, g) == Decode(v, objects, debug, f)
    decreases f, 0, 0
  {
    match v
    case Uid(u) =>
      if u < |objects| {
        MoreFuel(objects[u], objects, debug, f - 1, g - 1);
      }
    case Dict(d) =>
      var keys, vals := Get(d, "NS.keys"), Get(d, "NS.objects");
      if keys.Some? && vals.Some? {
        MoreFuelPairs(ItemsOr(keys), ItemsOr(vals), 0, [], objects, debug, f - 1, g - 1);
      } else if vals.Some? && vals.value.Array? {
        MoreFuelItems(vals.value.items, 0, [], objects, debug, f - 1, g - 1);
      } else {
        MoreFuelEntries(d, 0, [], objects, debug, f - 1, g - 1);
      }
    case Array(items) => MoreFuelItems(items, 0, [], objects, debug, f - 1, g - 1);
    case _ =>
  }

  lemma {:induction false} MoreFuelItems(
      items: seq<Plist>, i: nat, out: seq<Plist>, objects: seq<Plist>, debug: Plist -> string, f: nat, g: nat)
    requires i <= |items| && f <= g && DecodeItems(items, i, out, objects, debug, f).Some?
    ensures DecodeItems(items, i, out, objects, debug, g) == DecodeItems(items, i, out, objects, debug, f)
    decreases f, 1, |items| - i
  {
    hide Decode;
    if i < |items| {
      MoreFuel(items[i], objects, debug, f, g);
      MoreFuelItems(items, i + 1, out + [Decode(items[i], objects, debug, f).value], objects, debug, f, g);
    }
  }

  lemma {:induction false} MoreFuelPairs(
      keys: seq<Plist>, vals: seq<Plist>, i: nat, out: seq<Entry>,
      objects: seq<Plist>, debug: Plist -> string, f: nat, g: nat)
    requires i <= |keys| && f <= g && DecodePairs(keys, vals, i, out, objects, debug, f).Some?
    ensures DecodePairs(keys, vals, i, out, objects, debug, g) == DecodePairs(keys, vals, i, out, objects, debug, f)
    decreases f, 1, |keys| - i
  {
    hide Decode;
    if i < |keys| && i < |vals| {
      MoreFuel(keys[i], objects, debug, f, g);
      MoreFuel(vals[i], objects, debug, f, g);
      var k, v := Decode(keys[i], objects, debug, f).value, Decode(vals[i], objects, debug, f).value;
      MoreFuelPairs(keys, vals, i + 1, Insert(out, KeyText(k, debug), v), objects, debug, f, g);
    }
  }

  lemma {:induction false} MoreFuelEntries(
      d: seq<Entry>, i: nat, out: seq<Entry>, objects: seq<Plist>, debug: Plist -> string, f: nat, g: nat)
    requires i <= |d| && f <= g && DecodeEntries(d, i, out, objects, debug, f).Some?
    ensures DecodeEntries(d, i, out, objects, debug, g) == DecodeEntries(d, i, out, objects, debug, f)
    decreases f, 1, |d| - i
  {
    hide Decode;
    if i < |d| {
      if d[i].key == "$class" {
        MoreFuelEntries(d, i + 1, out, objects, debug, f, g);
      } else {
        MoreFuel(d[i].val, objects, debug, f, g);
        var v := Decode(d[i].val, objects, debug, f).value;
        MoreFuelEntries(d, i + 1, Insert(out, d[i].key, v), objects, debug, f, g);
      }
    }
  }

  // ---- back references ----

  /** Every reference in `v` is below `k`. */
  predicate Earlier(v: Plist, k: nat) {
    match v
    case Uid(u) => u < k
    case Array(items) => forall i | 0 <= i < |items| :: Earlier(items[i], k)
    case Dict(d) => forall i | 0 <= i < |d| :: Earlier(d[i].val, k)
    case _ => true
  }

  /** Each object refers only to earlier objects of its table. */
  predicate BackRefs(objects: seq<Plist>) {
    forall i | 0 <= i < |objects| :: Earlier(objects[i], i)
  }

  // ---- references that decoding follows ----

  /** The place of the first entry with this key. */
  function IndexOf(d: seq<Entry>, key: string): (i: nat)
    ensures i <= |d|
    ensures Get(d, key) == if i < |d| then Some(d[i].val) else None
  {
    if d == [] || d[0].key == key then 0 else 1 + IndexOf(d[1..], key)
  }

  /** Which way a dictionary is decoded: keys and values at these places, items at this place, or plain entries. */
  datatype Form = Keyed(keys: nat, vals: nat) | Listed(vals: nat) | Plain

  function FormOf(d: seq<Entry>): (f: Form)
    ensures f.Keyed? ==> f.keys < |d| && f.vals < |d|
    ensures f.Listed? ==> f.vals < |d| && d[f.vals].val.Array?
  {
    var k, v := IndexOf(d, "NS.keys"), IndexOf(d, "NS.objects");
    if k < |d| && v < |d| then Keyed(k, v)
    else if v < |d| && d[v].val.Array? then Listed(v)
    else Plain
  }

  function ItemsOf(v: Plist): (items: seq<Plist>)
    ensures items == ItemsOr(Some(v))
    ensures items == [] || (v.Array? && items == v.items)
  {
    if v.Array? then v.items else []
  }

  /**
   * The indices that decoding a value looks up in the table: its keys and
   * values as far as both go, its items, or its entries but the class.
   */
  ghost predicate Follows(v: Plist, w: nat) {
    match v
    case Uid(u) => u == w
    case Array(items) => exists i :: 0 <= i < |items| && Follows(items[i], w)
    case Dict(d) =>
      (match FormOf(d)
       case Keyed(k, l) =>
         (match d[k].val
          case Array(keys) =>
            (match d[l].val
             case Array(vals) =>
               exists i :: 0 <= i < |keys| && i < |vals| && (Follows(keys[i], w) || Follows(vals[i], w))
             case _ => false)
          case _ => false)
       case Listed(l) =>
         (match d[l].val
          case Array(vals) => exists i :: 0 <= i < |vals| && Follows(vals[i], w)
          case _ => false)
       case Plain => exists i :: 0 <= i < |d| && d[i].key != "$class" && Follows(d[i].val, w))
    case _ => false
  }

  /** The indices that decoding follows from `v` are ranked, below `k`. */
  ghost predicate Under(v: Plist, k: nat, rank: map<nat, nat>, objects: seq<Plist>) {
    forall w: nat | Follows(v, w) && w < |objects| :: w in rank && rank[w] < k
  }

  /** From each ranked object only lower ones are followed. */
  ghost predicate Descends(rank: map<nat, nat>, objects: seq<Plist>) {
    forall u | u in rank :: u < |objects| && Under(objects[u], rank[u], rank, objects)
  }

  /** The objects that decoding reaches from `v` can be ranked downwards. */
  ghost predicate Acyclic(v: Plist, objects: seq<Plist>) {
    exists rank, k :: Descends(rank, objects) && Under(v, k, rank, objects)
  }

  // ---- acyclic tables decode ----

  lemma DictDecodes(d: seq<Entry>, objects: seq<Plist>, debug: Plist -> string, fuel: nat)
    requires fuel > 0
    ensures Decode(Dict(d), objects, debug, fuel) ==
      match FormOf(d)
      case Keyed(k, l) => DecodePairs(ItemsOf(d[k].val), ItemsOf(d[l].val), 0, [], objects, debug, fuel - 1)
      case Listed(l) => DecodeItems(d[l].val.items, 0, [], objects, debug, fuel - 1)
      case Plain => DecodeEntries(d, 0, [], objects, debug, fuel - 1)
  {
    hide DecodePairs, DecodeItems, DecodeEntries, Get, IndexOf;
  }

  function Max(a: nat, b: nat): nat {
    if a < b then b else a
  }

  /** Where references descend decoding ends: the rank of the object, then the size of the term, goes down. */
  lemma {:induction false} Terminates(
      v: Plist, k: nat, rank: map<nat, nat>, objects: seq<Plist>, debug: Plist -> string)
    returns (fuel: nat)
    requires Descends(rank, objects) && Under(v, k, rank, objects)
    ensures Decode(v, objects, debug, fuel).Some?
    decreases k, v, 0
  {
    match v
    case Uid(u) =>
      assert Follows(v, u);
      fuel := 1;
      if u < |objects| {
        var f := Terminates(objects[u], rank[u], rank, objects, debug);
        fuel := f + 1;
      }
    case Dict(d) =>
      var f: nat;
      match FormOf(d) {
        case Keyed(a, b) =>
          KeyedUnder(d, k, rank, objects);
          f := PairsTerminate(v, a, b, 0, [], k, rank, objects, debug);
        case Listed(b) =>
          forall i | 0 <= i < |d[b].val.items| ensures Under(d[b].val.items[i], k, rank, objects) {
            assert forall w | Follows(d[b].val.items[i], w) :: Follows(v, w);
          }
          f := ItemsTerminate(d[b].val.items, 0, [], k, rank, objects, debug);
        case Plain =>
          forall i | 0 <= i < |d| && d[i].key != "$class" ensures Under(d[i].val, k, rank, objects) {
            assert forall w | Follows(d[i].val, w) :: Follows(v, w);
          }
          f := EntriesTerminate(d, 0, [], k, rank, objects, debug);
      }
      fuel := f + 1;
      DictDecodes(d, objects, debug, fuel);
    case Array(items) =>
      forall i | 0 <= i < |items| ensures Under(items[i], k, rank, objects) {
        assert forall w | Follows(items[i], w) :: Follows(v, w);
      }
      var f := ItemsTerminate(items, 0, [], k, rank, objects, debug);
      fuel := f + 1;
    case _ => fuel := 1;
  }

  lemma KeyedUnder(d: seq<Entry>, k: nat, rank: map<nat, nat>, objects: seq<Plist>)
    requires FormOf(d).Keyed? && Under(Dict(d), k, rank, objects)
    ensures var keys, vals := ItemsOf(d[FormOf(d).keys].val), ItemsOf(d[FormOf(d).vals].val);
      forall i | 0 <= i < |keys| && i < |vals| ::
        Under(keys[i], k, rank, objects) && Under(vals[i], k, rank, objects)
  {
    var keys, vals := ItemsOf(d[FormOf(d).keys].val), ItemsOf(d[FormOf(d).vals].val);
    forall i | 0 <= i < |keys| && i < |vals|
      ensures Under(keys[i], k, rank, objects) && Under(vals[i], k, rank, objects)
    {
      assert forall w | Follows(keys[i], w) || Follows(vals[i], w) :: Follows(Dict(d), w);
    }
  }

  lemma {:induction false} ItemsTerminate(
      items: seq<Plist>, i: nat, out: seq<Plist>,
      k: nat, rank: map<nat, nat>, objects: seq<Plist>, debug: Plist -> string)
    returns (fuel: nat)
    requires Descends(rank, objects) && i <= |items|
    requires forall j | 0 <= j < |items| :: Under(items[j], k, rank, objects)
    ensures DecodeItems(items, i, out, objects, debug, fuel).Some?
    decreases k, items, |items| - i
  {
    hide Decode, Descends, Under;
    if i < |items| {
      var f := Terminates(items[i], k, rank, objects, debug);
      var v := Decode(items[i], objects, debug, f).value;
      var g := ItemsTerminate(items, i + 1, out + [v], k, rank, objects, debug);
      fuel := Max(f, g);
      MoreFuel(items[i], objects, debug, f, fuel);
      MoreFuelItems(items, i + 1, out + [v], objects, debug, g, fuel);
    } else {
      fuel := 0;
    }
  }

  lemma {:induction false} EntriesTerminate(
      d: seq<Entry>, i: nat, out: seq<Entry>,
      k: nat, rank: map<nat, nat>, objects: seq<Plist>, debug: Plist -> string)
    returns (fuel: nat)
    requires Descends(rank, objects) && i <= |d|
    requires forall j | 0 <= j < |d| && d[j].key != "$class" :: Under(d[j].val, k, rank, objects)
    ensures DecodeEntries(d, i, out, objects, debug, fuel).Some?
    decreases k, d, |d| - i
  {
    hide Decode, Descends, Under;
    if i == |d| {
      fuel := 0;
    } else if d[i].key == "$class" {
      fuel := EntriesTerminate(d, i + 1, out, k, rank, objects, debug);
    } else {
      var f := Terminates(d[i].val, k, rank, objects, debug);
      var v := Decode(d[i].val, objects, debug, f).value;
      var next := Insert(out, d[i].key, v);
      var g := EntriesTerminate(d, i + 1, next, k, rank, objects, debug);
      fuel := Max(f, g);
      MoreFuel(d[i].val, objects, debug, f, fuel);
      MoreFuelEntries(d, i + 1, next, objects, debug, g, fuel);
    }
  }

  /** Keys and values are entries `a` and `b` of the dictionary `v`. */
  lemma {:induction false} PairsTerminate(
      v: Plist, a: nat, b: nat, i: nat, out: seq<Entry>,
      k: nat, rank: map<nat, nat>, objects: seq<Plist>, debug: Plist -> string)
    returns (fuel: nat)
    requires Descends(rank, objects) && v.Dict? && a < |v.entries| && b < |v.entries|
    requires i <= |ItemsOf(v.entries[a].val)|
    requires forall j | 0 <= j < |ItemsOf(v.entries[a].val)| && j < |ItemsOf(v.entries[b].val)| ::
      && Under(ItemsOf(v.entries[a].val)[j], k, rank, objects)
      && Under(ItemsOf(v.entries[b].val)[j], k, rank, objects)
    ensures DecodePairs(ItemsOf(v.entries[a].val), ItemsOf(v.entries[b].val), i, out, objects, debug, fuel).Some?
    decreases k, v.entries, 0, |ItemsOf(v.entries[a].val)| - i
  {
    hide Decode, Descends, Under;
    var keys, vals := ItemsOf(v.entries[a].val), ItemsOf(v.entries[b].val);
    if i == |keys| || i >= |vals| {
      fuel := 0;
    } else {
      var f := Terminates(keys[i], k, rank, objects, debug);
      var g := Terminates(vals[i], k, rank, objects, debug);
      var x, y := Decode(keys[i], objects, debug, f).value, Decode(vals[i], objects, debug, g).value;
      var next := Insert(out, KeyText(x, debug), y);
      var h := PairsTerminate(v, a, b, i + 1, next, k, rank, objects, debug);
      fuel := Max(f, Max(g, h));
      MoreFuel(keys[i], objects, debug, f, fuel);
      MoreFuel(vals[i], objects, debug, g, fuel);
      MoreFuelPairs(keys, vals, i + 1, next, objects, debug, h, fuel);
    }
  }

  // ---- and only they do ----

  lemma {:induction false} ItemsDecode(
      items: seq<Plist>, i: nat, out: seq<Plist>, j: nat, objects: seq<Plist>, debug: Plist -> string, fuel: nat)
    requires i <= j < |items| && DecodeItems(items, i, out, objects, debug, fuel).Some?
    ensures Decode(items[j], objects, debug, fuel).Some?
    decreases j - i
  {
    hide Decode;
    if i < j {
      ItemsDecode(items, i + 1, out + [Decode(items[i], objects, debug, fuel).value], j, objects, debug, fuel);
    }
  }

  lemma {:induction false} PairsDecode(
      keys: seq<Plist>, vals: seq<Plist>, i: nat, out: seq<Entry>, j: nat,
      objects: seq<Plist>, debug: Plist -> string, fuel: nat)
    requires i <= j < |keys| && j < |vals| && DecodePairs(keys, vals, i, out, objects, debug, fuel).Some?
    ensures Decode(keys[j], objects, debug, fuel).Some? && Decode(vals[j], objects, debug, fuel).Some?
    decreases j - i
  {
    hide Decode;
    if i < j {
      var k, v := Decode(keys[i], objects, debug, fuel).value, Decode(vals[i], objects, debug, fuel).value;
      PairsDecode(keys, vals, i + 1, Insert(out, KeyText(k, debug), v), j, objects, debug, fuel);
    }
  }

  lemma {:induction false} EntriesDecode(
      d: seq<Entry>, i: nat, out: seq<Entry>, j: nat, objects: seq<Plist>, debug: Plist -> string, fuel: nat)
    requires i <= j < |d| && d[j].key != "$class" && DecodeEntries(d, i, out, objects, debug, fuel).Some?
    ensures Decode(d[j].val, objects, debug, fuel).Some?
    decreases j - i
  {
    hide Decode;
    if i < j {
      if d[i].key == "$class" {
        EntriesDecode(d, i + 1, out, j, objects, debug, fuel);
      } else {
        var v := Decode(d[i].val, objects, debug, fuel).value;
        EntriesDecode(d, i + 1, Insert(out, d[i].key, v), j, objects, debug, fuel);
      }
    }
  }

  /** What a decoded value follows was decoded with less fuel. */
  lemma {:induction false} FollowedDecodes(
      v: Plist, w: nat, objects: seq<Plist>, debug: Plist -> string, fuel: nat)
    requires Decode(v, objects, debug, fuel).Some? && Follows(v, w) && w < |objects|
    ensures fuel > 0 && Decode(objects[w], objects, debug, fuel - 1).Some?
    decreases v, 1
  {
    match v
    case Uid(u) =>
    case Array(items) =>
      var i :| 0 <= i < |items| && Follows(items[i], w);
      ItemsDecode(items, 0, [], i, objects, debug, fuel - 1);
      PartDecodes(items[i], w, objects, debug, fuel);
    case Dict(d) =>
      DictDecodes(d, objects, debug, fuel);
      FollowedInDict(v, w, objects, debug, fuel);
    case _ =>
    hide Decode;
  }

  lemma {:induction false} PartDecodes(
      part: Plist, w: nat, objects: seq<Plist>, debug: Plist -> string, fuel: nat)
    requires fuel > 0 && Decode(part, objects, debug, fuel - 1).Some? && Follows(part, w) && w < |objects|
    ensures Decode(objects[w], objects, debug, fuel - 1).Some?
    decreases part, 2
  {
    FollowedDecodes(part, w, objects, debug, fuel - 1);
    MoreFuel(objects[w], objects, debug, fuel - 2, fuel - 1);
    hide Decode, Follows;
  }

  lemma {:induction false} FollowedInDict(
      v: Plist, w: nat, objects: seq<Plist>, debug: Plist -> string, fuel: nat)
    requires v.Dict? && Follows(v, w) && w < |objects| && fuel > 0
    requires match FormOf(v.entries)
      case Keyed(k, l) =>
        DecodePairs(ItemsOf(v.entries[k].val), ItemsOf(v.entries[l].val), 0, [], objects, debug, fuel - 1).Some?
      case Listed(l) => DecodeItems(v.entries[l].val.items, 0, [], objects, debug, fuel - 1).Some?
      case Plain => DecodeEntries(v.entries, 0, [], objects, debug, fuel - 1).Some?
    ensures Decode(objects[w], objects, debug, fuel - 1).Some?
    decreases v, 0
  {
    hide Decode, DecodePairs, DecodeItems, DecodeEntries, Get, IndexOf;
    var d := v.entries;
    match FormOf(d)
    case Keyed(a, b) =>
      var keys, vals := ItemsOf(d[a].val), ItemsOf(d[b].val);
      var i :| 0 <= i < |keys| && i < |vals| && (Follows(keys[i], w) || Follows(vals[i], w));
      PairsDecode(keys, vals, 0, [], i, objects, debug, fuel - 1);
      if Follows(keys[i], w) {
        PartDecodes(keys[i], w, objects, debug, fuel);
      } else {
        PartDecodes(vals[i], w, objects, debug, fuel);
      }
    case Listed(b) =>
      var i :| 0 <= i < |d[b].val.items| && Follows(d[b].val.items[i], w);
      ItemsDecode(d[b].val.items, 0, [], i, objects, debug, fuel - 1);
      PartDecodes(d[b].val.items[i], w, objects, debug, fuel);
    case Plain =>
      var i :| 0 <= i < |d| && d[i].key != "$class" && Follows(d[i].val, w);
      EntriesDecode(d, 0, [], i, objects, debug, fuel - 1);
      PartDecodes(d[i].val, w, objects, debug, fuel);
  }

  /** The least fuel that decodes `v`, given one that does. */
  function Least(v: Plist, objects: seq<Plist>, debug: Plist -> string, fuel: nat): (f: nat)
    requires Decode(v, objects, debug, fuel).Some?
    ensures f <= fuel && Decode(v, objects, debug, f).Some?
    ensures f > 0 ==> Decode(v, objects, debug, f - 1).None?
    decreases fuel
  {
    if fuel > 0 && Decode(v, objects, debug, fuel - 1).Some? then Least(v, objects, debug, fuel - 1) else fuel
  }

  lemma LeastBelow(v: Plist, objects: seq<Plist>, debug: Plist -> string, fuel: nat, f: nat)
    requires Decode(v, objects, debug, fuel).Some? && Decode(v, objects, debug, f).Some?
    ensures Least(v, objects, debug, fuel) <= f
  {
    var l := Least(v, objects, debug, fuel);
    if f < l {
      MoreFuel(v, objects, debug, f, l - 1);
    }
    hide Decode;
  }

  /** Objects ranked by the least fuel they need descend. */
  lemma LeastDescends(rank: map<nat, nat>, objects: seq<Plist>, debug: Plist -> string, fuel: nat)
    requires forall u: nat :: u in rank <==> u < |objects| && Decode(objects[u], objects, debug, fuel).Some?
    requires forall u | u in rank :: rank[u] == Least(objects[u], objects, debug, fuel)
    ensures Descends(rank, objects)
  {
    hide Decode, Follows;
    forall u | u in rank ensures u < |objects| && Under(objects[u], rank[u], rank, objects) {
      forall w: nat | Follows(objects[u], w) && w < |objects| ensures w in rank && rank[w] < rank[u] {
        FollowedDecodes(objects[u], w, objects, debug, rank[u]);
        MoreFuel(objects[w], objects, debug, rank[u] - 1, fuel);
        LeastBelow(objects[w], objects, debug, fuel, rank[u] - 1);
      }
    }
  }

  /** The objects decoded along with `v` are ranked by the least fuel they need. */
  lemma DecodedAcyclic(v: Plist, objects: seq<Plist>, debug: Plist -> string, fuel: nat)
    requires Decode(v, objects, debug, fuel).Some?
    ensures Acyclic(v, objects)
  {
    hide Decode, Follows;
    var rank := map u: nat | 0 <= u < |objects| && Decode(objects[u], objects, debug, fuel).Some?
      :: Least(objects[u], objects, debug, fuel);
    LeastDescends(rank, objects, debug, fuel);
    forall w: nat | Follows(v, w) && w < |objects| ensures w in rank && rank[w] < fuel {
      FollowedDecodes(v, w, objects, debug, fuel);
      MoreFuel(objects[w], objects, debug, fuel - 1, fuel);
      LeastBelow(objects[w], objects, debug, fuel, fuel - 1);
    }
    assert Under(v, fuel, rank, objects);
  }

  /** Decoding ends exactly if the references that it follows can be ranked downwards. */
  lemma DecodesExactly(v: Plist, objects: seq<Plist>, debug: Plist -> string)
    ensures (exists fuel :: Decode(v, objects, debug, fuel).Some?) <==> Acyclic(v, objects)
  {
    hide Decode, Descends, Under;
    if fuel: nat :| Decode(v, objects, debug, fuel).Some? {
      DecodedAcyclic(v, objects, debug, fuel);
    }
    if Acyclic(v, objects) {
      var rank, k :| Descends(rank, objects) && Under(v, k, rank, objects);
      var fuel := Terminates(v, k, rank, objects, debug);
    }
  }

  // ---- tables of back references ----

  lemma {:induction false} FollowedEarlier(v: Plist, k: nat, w: nat)
    requires Earlier(v, k) && Follows(v, w)
    ensures w < k
    decreases v
  {
    match v
    case Uid(u) =>
    case Array(items) =>
      var i :| 0 <= i < |items| && Follows(items[i], w);
      FollowedEarlier(items[i], k, w);
    case Dict(d) =>
      match FormOf(d) {
        case Keyed(a, b) =>
          var keys, vals := ItemsOf(d[a].val), ItemsOf(d[b].val);
          assert Earlier(d[a].val, k) && Earlier(d[b].val, k);
          var i :| 0 <= i < |keys| && i < |vals| && (Follows(keys[i], w) || Follows(vals[i], w));
          if Follows(keys[i], w) {
            FollowedEarlier(keys[i], k, w);
          } else {
            FollowedEarlier(vals[i], k, w);
          }
        case Listed(b) =>
          assert Earlier(d[b].val, k);
          var i :| 0 <= i < |d[b].val.items| && Follows(d[b].val.items[i], w);
          FollowedEarlier(d[b].val.items[i], k, w);
        case Plain =>
          var i :| 0 <= i < |d| && d[i].key != "$class" && Follows(d[i].val, w);
          FollowedEarlier(d[i].val, k, w);
      }
    case _ =>
  }

  /** Each of the first `n` indices ranked by itself. */
  function OwnIndex(n: nat): (rank: map<nat, nat>)
    ensures forall u: nat :: u in rank <==> u < n
    ensures forall u | u in rank :: rank[u] == u
  {
    if n == 0 then map[] else OwnIndex(n - 1)[n - 1 := n - 1]
  }

  /** Tables of back references, which the builders make, decode from anywhere. */
  lemma BackRefsDecode(v: Plist, objects: seq<Plist>, debug: Plist -> string)
    requires BackRefs(objects)
    ensures exists fuel :: Decode(v, objects, debug, fuel).Some?
  {
    hide Decode, Earlier, Follows, OwnIndex;
    var rank := OwnIndex(|objects|);
    forall u | u in rank ensures Under(objects[u], rank[u], rank, objects) {
      forall w: nat | Follows(objects[u], w) && w < |objects| ensures w in rank && rank[w] < rank[u] {
        FollowedEarlier(objects[u], u, w);
      }
    }
    assert Descends(rank, objects) && Under(v, |objects|, rank, objects);
    DecodesExactly(v, objects, debug);
  }

  // ---- cycles ----

  /** `path` is followed from `v`. */
  ghost predicate Path(v: Plist, path: seq<nat>, objects: seq<Plist>) {
    && (forall i | 0 <= i < |path| :: path[i] < |objects|)
    && (path != [] ==> Follows(v, path[0]))
    && (forall i | 0 < i < |path| :: Follows(objects[path[i - 1]], path[i]))
  }

  /** A path that ends where it has been before. */
  ghost predicate Cycle(v: Plist, path: seq<nat>, objects: seq<Plist>) {
    && Path(v, path, objects)
    && exists i | 0 <= i < |path| - 1 :: path[i] == path[|path| - 1]
  }

  lemma {:induction false} PathDescends(
      v: Plist, path: seq<nat>, i: nat, j: nat, k: nat, rank: map<nat, nat>, objects: seq<Plist>)
    requires Descends(rank, objects) && Under(v, k, rank, objects)
    requires Path(v, path, objects) && i <= j < |path|
    ensures path[i] in rank && path[j] in rank && rank[path[j]] + (j - i) <= rank[path[i]]
    decreases j
  {
    hide Follows;
    if i < j {
      PathDescends(v, path, i, j - 1, k, rank, objects);
    } else if i > 0 {
      PathDescends(v, path, i - 1, j - 1, k, rank, objects);
    }
  }

  /** A value from which a cycle is followed is never decoded, however deep the recursion may go. */
  lemma CycleDiverges(v: Plist, path: seq<nat>, objects: seq<Plist>, debug: Plist -> string, fuel: nat)
    requires Cycle(v, path, objects)
    ensures Decode(v, objects, debug, fuel) == None
  {
    hide Decode, Follows;
    if Decode(v, objects, debug, fuel).Some? {
      DecodedAcyclic(v, objects, debug, fuel);
      var rank, k :| Descends(rank, objects) && Under(v, k, rank, objects);
      var i :| 0 <= i < |path| - 1 && path[i] == path[|path| - 1];
      PathDescends(v, path, i, |path| - 1, k, rank, objects);
    }
  }

  /** An object that refers to itself is the shortest such cycle. */
  lemma {:induction false} SelfReferenceDiverges(debug: Plist -> string, fuel: nat)
    ensures Decode(Uid(0), [Uid(0)], debug, fuel) == None
  {
    var path := [0, 0];
    assert path[0] == path[|path| - 1];
    CycleDiverges(Uid(0), path, [Uid(0)], debug, fuel);
  }

  ghost predicate Diverges(v: Plist, objects: seq<Plist>, debug: Plist -> string) {
    forall fuel :: Decode(v, objects, debug, fuel) == None
  }

  /** Fuel that decodes each of the first `n` objects that any fuel decodes. */
  lemma {:induction false} EnoughFuel(n: nat, objects: seq<Plist>, debug: Plist -> string) returns (fuel: nat)
    requires n <= |objects|
    ensures forall u: nat | u < n && !Diverges(objects[u], objects, debug) ::
      Decode(objects[u], objects, debug, fuel).Some?
  {
    hide Decode;
    fuel := 0;
    if n > 0 {
      var f := EnoughFuel(n - 1, objects, debug);
      var g: nat := 0;
      if !Diverges(objects[n - 1], objects, debug) {
        g :| Decode(objects[n - 1], objects, debug, g) != None;
      }
      fuel := Max(f, g);
      forall u: nat | u < n && !Diverges(objects[u], objects, debug)
        ensures Decode(objects[u], objects, debug, fuel).Some?
      {
        MoreFuel(objects[u], objects, debug, if u == n - 1 then g else f, fuel);
      }
    }
  }

  /** A value that is never decoded leads to an object that is never decoded. */
  lemma DivergesOn(v: Plist, objects: seq<Plist>, debug: Plist -> string) returns (w: nat)
    requires Diverges(v, objects, debug)
    ensures w < |objects| && Follows(v, w) && Diverges(objects[w], objects, debug)
  {
    hide Decode, Follows;
    if forall w: nat | Follows(v, w) && w < |objects| :: !Diverges(objects[w], objects, debug) {
      var fuel := EnoughFuel(|objects|, objects, debug);
      var rank := map u: nat | 0 <= u < |objects| && Decode(objects[u], objects, debug, fuel).Some?
        :: Least(objects[u], objects, debug, fuel);
      LeastDescends(rank, objects, debug, fuel);
      assert Under(v, fuel + 1, rank, objects);
      var f := Terminates(v, fuel + 1, rank, objects, debug);
      assert false;
    }
    w :| Follows(v, w) && w < |objects| && Diverges(objects[w], objects, debug);
  }

  lemma {:induction false} DivergingPath(v: Plist, n: nat, objects: seq<Plist>, debug: Plist -> string)
    returns (path: seq<nat>)
    requires Diverges(v, objects, debug)
    ensures |path| == n && Path(v, path, objects)
    decreases n
  {
    hide Follows, Diverges;
    path := [];
    if n > 0 {
      var w := DivergesOn(v, objects, debug);
      var rest := DivergingPath(objects[w], n - 1, objects, debug);
      path := [w] + rest;
    }
  }

  /** More numbers than there are to choose from: two of them are the same. */
  lemma {:induction false} Repeats(s: seq<nat>, n: nat) returns (i: nat, j: nat)
    requires |s| > n && forall k | 0 <= k < |s| :: s[k] < n
    ensures i < j < |s| && s[i] == s[j]
    decreases n
  {
    var last := |s| - 1;
    assert s[last] < n;
    if k: nat :| k < last && s[k] == s[last] {
      return k, last;
    }
    // The last number is not used again and can stand for the largest.
    var rest: seq<nat> := seq(last, k requires 0 <= k < last => if s[k] == n - 1 then s[last] else s[k]);
    i, j := Repeats(rest, n - 1);
  }

  /** The references that decoding follows can be ranked downwards exactly if they lead into no cycle. */
  lemma NoCycle(v: Plist, objects: seq<Plist>)
    ensures Acyclic(v, objects) <==> !exists path :: Cycle(v, path, objects)
  {
    var debug := (p: Plist) => "";
    hide Decode, Follows, Acyclic;
    DecodesExactly(v, objects, debug);
    if path :| Cycle(v, path, objects) {
      forall fuel: nat ensures Decode(v, objects, debug, fuel) == None {
        CycleDiverges(v, path, objects, debug, fuel);
      }
    } else if !Acyclic(v, objects) {
      assert Diverges(v, objects, debug) by {
        forall fuel: nat ensures Decode(v, objects, debug, fuel) == None {
          assert !Decode(v, objects, debug, fuel).Some?;
        }
      }
      var path := DivergingPath(v, |objects| + 1, objects, debug);
      var i, j := Repeats(path, |objects|);
      assert Cycle(v, path[..j + 1], objects);
    }
  }

  /** Decoding ends exactly if it meets no cycle. */
  lemma CyclesExactly(v: Plist, objects: seq<Plist>, debug: Plist -> string)
    ensures (exists fuel :: Decode(v, objects, debug, fuel).Some?) <==> !exists path :: Cycle(v, path, objects)
  {
    hide Decode, Acyclic, Cycle;
    DecodesExactly(v, objects, debug);
    NoCycle(v, objects);
  }
}
