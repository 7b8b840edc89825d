/** The NSKeyedArchiver builders: object tables pushed one object at a time. */
module NskaBuild {
  import opened Bytes
  import opened Wrappers
  import opened Plist
  import opened Nska

  function Strings(ss: seq<string>): (ps: seq<Plist>)
    ensures |ps| == |ss| && forall i | 0 <= i < |ss| :: ps[i] == String(ss[i])
  {
    seq(|ss|, i requires 0 <= i < |ss| => String(ss[i]))
  }

  function Uids(us: seq<nat>): (ps: seq<Plist>)
    ensures |ps| == |us| && forall i | 0 <= i < |us| :: ps[i] == Uid(us[i])
  {
    seq(|us|, i requires 0 <= i < |us| => Uid(us[i]))
  }

  function Range(first: nat, n: nat): (us: seq<nat>)
    ensures |us| == n && forall i | 0 <= i < n :: us[i] == first + i
  {
    seq(n, i => first + i)
  }

  function ClassObject(name: string, supers: seq<string>): Plist {
    Dict([Entry("$classname", String(name)), Entry("$classes", Array([String(name)] + Strings(supers)))])
  }

  function ArrayObject(uids: seq<nat>, class_: nat): Plist {
    Dict([Entry("NS.objects", Array(Uids(uids))), Entry("$class", Uid(class_))])
  }

  function DictObject(keys: seq<nat>, vals: seq<nat>, class_: nat): Plist {
    Dict([Entry("NS.keys", Array(Uids(keys))), Entry("NS.objects", Array(Uids(vals))), Entry("$class", Uid(class_))])
  }

  /** An object of a class: its `$class` leads to one that names the class and its superclasses. */
  predicate IsInstance(t: seq<Plist>, u: nat, name: string, supers: seq<string>) {
    && u < |t| && t[u].Dict?
    && match Get(t[u].entries, "$class")
       case Some(Uid(c)) =>
         && c < |t| && t[c].Dict?
         && Get(t[c].entries, "$classname") == Some(String(name))
         && Get(t[c].entries, "$classes") == Some(Array(Strings([name] + supers)))
       case _ => false
  }

  /** The entry at place `i` is the class, and that is at its index. */
  lemma InstanceOf(t: seq<Plist>, u: nat, i: nat, c: nat, name: string, supers: seq<string>)
    requires u < |t| && t[u].Dict? && i < |t[u].entries| && t[u].entries[i] == Entry("$class", Uid(c))
    requires forall j | 0 <= j < i :: t[u].entries[j].key != "$class"
    requires c < |t| && t[c] == ClassObject(name, supers)
    ensures IsInstance(t, u, name, supers)
  {
    GetAt(t[u].entries, i, "$class");
    var d := t[c].entries;
    assert |"$classname"| != |"$classes"|;
    GetAt(d, 0, "$classname");
    GetAt(d, 1, "$classes");
    assert [String(name)] + Strings(supers) == Strings([name] + supers);
    hide Get, Strings;
  }

  // ---- the object table ----

  class ObjectTable {
    var objects: seq<Plist>

    constructor ()
      ensures objects == [NULL]
    {
      objects := [NULL];
    }

    /** Pushes an object and returns its index. */
    method PushVal(v: Plist) returns (uid: nat)
      modifies this
      ensures uid == |old(objects)| && objects == old(objects) + [v]
    {
      uid := |objects|;
      objects := objects + [v];
    }

    method PushClass(name: string, supers: seq<string>) returns (uid: nat)
      modifies this
      ensures uid == |old(objects)| && objects == old(objects) + [ClassObject(name, supers)]
    {
      uid := PushVal(ClassObject(name, supers));
    }

    /** Pushes each string and returns their indices. */
    method PushStrings(ss: seq<string>) returns (uids: seq<nat>)
      modifies this
      ensures uids == Range(|old(objects)|, |ss|) && objects == old(objects) + Strings(ss)
    {
      uids := [];
      for i := 0 to |ss|
        invariant uids == Range(|old(objects)|, i)
        invariant objects == old(objects) + Strings(ss[..i])
      {
        var uid := PushVal(String(ss[i]));
        uids := uids + [uid];
        assert Strings(ss[..i + 1]) == Strings(ss[..i]) + [String(ss[i])];
      }
      assert ss[..|ss|] == ss;
    }

    method PushArray(ss: seq<string>, class_: nat) returns (uid: nat)
      modifies this
      ensures uid == |old(objects)| + |ss|
      ensures objects
        == old(objects) + Strings(ss) + [ArrayObject(Range(|old(objects)|, |ss|), class_)]
    {
      var uids := PushStrings(ss);
      uid := PushVal(ArrayObject(uids, class_));
    }
  }

  // ---- the sysmontap configuration ----

  /** Milliseconds to nanoseconds in 64 bits, read as signed. */
  function Nanoseconds(intervalMs: u64): i64 {
    ToI64(intervalMs * 1_000_000 % TWO_64)
  }

  /** So in nanoseconds the interval is what was asked for, as far as 63 bits go, and the same modulo 2^64 beyond. */
  lemma NanosecondsAre(intervalMs: u64)
    ensures (Nanoseconds(intervalMs) - intervalMs * 1_000_000) % 0x1_0000_0000_0000_0000 == 0
    ensures intervalMs * 1_000_000 < 0x8000_0000_0000_0000 ==> Nanoseconds(intervalMs) == intervalMs * 1_000_000
  {
    var n, q := intervalMs * 1_000_000, intervalMs * 1_000_000 / TWO_64;
    assert n == q * TWO_64 + n % TWO_64;
    var k := if n % TWO_64 >= TWO_63 then -q - 1 else -q;
    assert Nanoseconds(intervalMs) - n == k * TWO_64;
  }

  const KEYS: seq<string> :=
    ["ur", "bm", "sampleInterval", "cpuUsage", "physFootprint", "procAttrs", "sysAttrs"]

  function Fixed(ns: i64): (objects: seq<Plist>)
    ensures |objects| == 7
  {
    [NULL, ClassObject("NSMutableDictionary", ["NSDictionary", "NSObject"]), ClassObject("NSArray", ["NSObject"]),
     Integer(1), Integer(0), Integer(ns), Boolean(true)]
  }

  /** The table: fixed objects, both attribute lists with their arrays, the keys, the root. */
  function ConfigTable(ns: i64, proc: seq<string>, sys: seq<string>): (objects: seq<Plist>)
    ensures |objects| == 17 + |proc| + |sys|
  {
    var p := 7 + |proc|;
    var s := p + 1 + |sys|;
    Fixed(ns)
    + Strings(proc) + [ArrayObject(Range(7, |proc|), 2)]
    + Strings(sys) + [ArrayObject(Range(p + 1, |sys|), 2)]
    + Strings(KEYS)
    + [DictObject(Range(s + 1, 7), [3, 4, 5, 6, 6, p, s], 1)]
  }

  method BuildConfig(intervalMs: u64, proc: seq<string>, sys: seq<string>)
    returns (table: ObjectTable, root: nat)
    ensures table.objects == ConfigTable(Nanoseconds(intervalMs), proc, sys)
    ensures root == |table.objects| - 1
  {
    var ns := Nanoseconds(intervalMs);
    table := new ObjectTable();
    var clsDict := table.PushClass("NSMutableDictionary", ["NSDictionary", "NSObject"]);
    var clsArray := table.PushClass("NSArray", ["NSObject"]);
    var vUr := table.PushVal(Integer(1));
    var vBm := table.PushVal(Integer(0));
    var vSi := table.PushVal(Integer(ns));
    var vTrue := table.PushVal(Boolean(true));
    assert table.objects == Fixed(ns);
    hide ClassObject, Fixed, Strings, ArrayObject;
    var vProc := table.PushArray(proc, clsArray);
    var vSys := table.PushArray(sys, clsArray);
    var keys := table.PushStrings(KEYS);
    root := table.PushVal(DictObject(keys, [vUr, vBm, vSi, vTrue, vTrue, vProc, vSys], clsDict));
  }

  /** What is at each index of the configuration table. */
  predicate IsConfig(t: seq<Plist>, ns: i64, proc: seq<string>, sys: seq<string>) {
    var p := 7 + |proc|;
    var s := p + 1 + |sys|;
    && |t| == s + 9
    && (forall j | 0 <= j < 7 :: t[j] == Fixed(ns)[j])
    && (forall j | 0 <= j < |proc| :: t[7 + j] == String(proc[j]))
    && t[p] == ArrayObject(Range(7, |proc|), 2)
    && (forall j | 0 <= j < |sys| :: t[p + 1 + j] == String(sys[j]))
    && t[s] == ArrayObject(Range(p + 1, |sys|), 2)
    && (forall j | 0 <= j < 7 :: t[s + 1 + j] == String(KEYS[j]))
    && t[s + 8] == DictObject(Range(s + 1, 7), [3, 4, 5, 6, 6, p, s], 1)
  }

  lemma ConfigAt(ns: i64, proc: seq<string>, sys: seq<string>)
    ensures IsConfig(ConfigTable(ns, proc, sys), ns, proc, sys)
  {
    hide Fixed, ArrayObject, DictObject, Strings, Range;
  }

  /** Each object of the configuration table refers only to earlier ones. */
  lemma ConfigBackRefs(ns: i64, proc: seq<string>, sys: seq<string>)
    ensures BackRefs(ConfigTable(ns, proc, sys))
  {
    hide Strings;
    var t := ConfigTable(ns, proc, sys);
    ConfigAt(ns, proc, sys);
    hide ConfigTable;
    var p := 7 + |proc|;
    var s := p + 1 + |sys|;
    forall i | 0 <= i < |t| ensures Earlier(t[i], i) {
      if i < 7 {
      } else if i < p {
        assert t[7 + (i - 7)] == String(proc[i - 7]);
      } else if i == p {
        ArrayEarlier(Range(7, |proc|), 2, p);
      } else if i < s {
        assert t[p + 1 + (i - p - 1)] == String(sys[i - p - 1]);
      } else if i == s {
        ArrayEarlier(Range(p + 1, |sys|), 2, s);
      } else if i < s + 8 {
        assert t[s + 1 + (i - s - 1)] == String(KEYS[i - s - 1]);
      } else {
        DictEarlier(Range(s + 1, 7), [3, 4, 5, 6, 6, p, s], 1, s + 8);
      }
    }
  }

  /** The root is a mutable dictionary, the attribute lists are arrays. */
  lemma ConfigClasses(ns: i64, proc: seq<string>, sys: seq<string>)
    ensures var t := ConfigTable(ns, proc, sys);
      && IsInstance(t, |t| - 1, "NSMutableDictionary", ["NSDictionary", "NSObject"])
      && IsInstance(t, 7 + |proc|, "NSArray", ["NSObject"])
      && IsInstance(t, 8 + |proc| + |sys|, "NSArray", ["NSObject"])
  {
    var t := ConfigTable(ns, proc, sys);
    ConfigAt(ns, proc, sys);
    hide ConfigTable, ClassObject, IsInstance, Range, Uids, Strings;
    assert t[1] == ClassObject("NSMutableDictionary", ["NSDictionary", "NSObject"]) by {
      assert t[1] == Fixed(ns)[1];
    }
    assert t[2] == ClassObject("NSArray", ["NSObject"]) by {
      assert t[2] == Fixed(ns)[2];
    }
    InstanceOf(t, |t| - 1, 2, 1, "NSMutableDictionary", ["NSDictionary", "NSObject"]);
    InstanceOf(t, 7 + |proc|, 1, 2, "NSArray", ["NSObject"]);
    InstanceOf(t, 8 + |proc| + |sys|, 1, 2, "NSArray", ["NSObject"]);
  }

  lemma ClassEarlier(name: string, supers: seq<string>, k: nat)
    ensures Earlier(ClassObject(name, supers), k)
  {}

  lemma ArrayEarlier(uids: seq<nat>, class_: nat, k: nat)
    requires class_ < k && forall i | 0 <= i < |uids| :: uids[i] < k
    ensures Earlier(ArrayObject(uids, class_), k)
  {}

  lemma DictEarlier(keys: seq<nat>, vals: seq<nat>, class_: nat, k: nat)
    requires class_ < k
    requires forall i | 0 <= i < |keys| :: keys[i] < k
    requires forall i | 0 <= i < |vals| :: vals[i] < k
    ensures Earlier(DictObject(keys, vals, class_), k)
  {}

  // ---- decoding the configuration ----

  /** What the configuration says. */
  function ConfigMeaning(ns: i64, proc: seq<string>, sys: seq<string>): (r: Plist)
    ensures r.Dict? && |r.entries| == 7
  {
    Dict([
      Entry("ur", Integer(1)),
      Entry("bm", Integer(0)),
      Entry("sampleInterval", Integer(ns)),
      Entry("cpuUsage", Boolean(true)),
      Entry("physFootprint", Boolean(true)),
      Entry("procAttrs", Array(Strings(proc))),
      Entry("sysAttrs", Array(Strings(sys)))])
  }

  lemma LeafDecodes(objects: seq<Plist>, debug: Plist -> string, u: nat, fuel: nat)
    requires u < |objects| && fuel >= 2
    requires objects[u].String? || objects[u].Integer? || objects[u].Boolean?
    ensures Decode(Uid(u), objects, debug, fuel) == Some(objects[u])
  {}

  lemma {:induction false} StringsDecode(
      ss: seq<string>, first: nat, i: nat, objects: seq<Plist>, debug: Plist -> string, fuel: nat)
    requires i <= |ss| && fuel >= 2 && first + |ss| <= |objects|
    requires forall j | 0 <= j < |ss| :: objects[first + j] == String(ss[j])
    ensures DecodeItems(Uids(Range(first, |ss|)), i, Strings(ss[..i]), objects, debug, fuel)
      == Some(Array(Strings(ss)))
    decreases |ss| - i
  {
    hide Decode, Strings, Uids, Range;
    if i < |ss| {
      assert objects[first + i] == String(ss[i]);
      LeafDecodes(objects, debug, first + i, fuel);
      assert Strings(ss[..i + 1]) == Strings(ss[..i]) + [String(ss[i])];
      StringsDecode(ss, first, i + 1, objects, debug, fuel);
    } else {
      assert ss[..i] == ss;
    }
  }

  lemma ArrayDecodes(
      u: nat, ss: seq<string>, first: nat, class_: nat, objects: seq<Plist>, debug: Plist -> string, fuel: nat)
    requires u < |objects| && fuel >= 5 && first + |ss| <= |objects|
    requires objects[u] == ArrayObject(Range(first, |ss|), class_)
    requires forall j | 0 <= j < |ss| :: objects[first + j] == String(ss[j])
    ensures Decode(Uid(u), objects, debug, fuel) == Some(Array(Strings(ss)))
  {
    hide DecodeItems, Range, Uids;
    StringsDecode(ss, first, 0, objects, debug, fuel - 2);
    assert ss[..0] == [] && Strings([]) == [];
    var d := objects[u].entries;
    GetNone(d, "NS.keys");
    GetAt(d, 0, "NS.objects");
    hide Get, Strings, ArrayObject;
    assert Decode(objects[u], objects, debug, fuel - 1)
      == DecodeItems(Uids(Range(first, |ss|)), 0, [], objects, debug, fuel - 2);
  }

  // ---- dictionaries ----

  /** A dictionary after inserting the entries from the i-th on; a repeated key overwrites. */
  function InsertFrom(out: seq<Entry>, m: seq<Entry>, i: nat): seq<Entry>
    requires i <= |m|
    decreases |m| - i
  {
    if i == |m| then out else InsertFrom(Insert(out, m[i].key, m[i].val), m, i + 1)
  }

  function DictOf(m: seq<Entry>): Plist {
    Dict(InsertFrom([], m, 0))
  }

  predicate DistinctKeys(m: seq<Entry>) {
    forall j, k | 0 <= j < k < |m| :: m[j].key != m[k].key
  }

  lemma InsertNew(d: seq<Entry>, key: string, val: Plist)
    requires forall i | 0 <= i < |d| :: d[i].key != key
    ensures Insert(d, key, val) == d + [Entry(key, val)]
  {
    if d != [] {
      InsertNew(d[1..], key, val);
      assert d + [Entry(key, val)] == [d[0]] + (d[1..] + [Entry(key, val)]);
    }
  }

  /** Distinct keys overwrite nothing. */
  lemma {:induction false} InsertAllNew(m: seq<Entry>, i: nat)
    requires DistinctKeys(m) && i <= |m|
    ensures InsertFrom(m[..i], m, i) == m
    decreases |m| - i
  {
    if i < |m| {
      InsertNew(m[..i], m[i].key, m[i].val);
      assert m[..i + 1] == m[..i] + [m[i]];
      hide Insert;
      InsertAllNew(m, i + 1);
    } else {
      assert m[..i] == m;
    }
  }

  lemma DistinctDict(m: seq<Entry>)
    requires DistinctKeys(m)
    ensures DictOf(m) == Dict(m)
  {
    InsertAllNew(m, 0);
    assert m[..0] == [];
  }

  /** Keys and values in parallel, as far as both go; a key that is no string stands as it prints. */
  lemma {:induction false} PairsMean(
      keys: seq<Plist>, vals: seq<Plist>, i: nat, out: seq<Entry>, m: seq<Entry>,
      objects: seq<Plist>, debug: Plist -> string, f: nat)
    requires |m| == (if |keys| < |vals| then |keys| else |vals|) && i <= |m|
    requires forall j | 0 <= j < |m| ::
      && Decode(vals[j], objects, debug, f) == Some(m[j].val)
      && match Decode(keys[j], objects, debug, f)
         case Some(String(s)) => m[j].key == s
         case Some(k) => m[j].key == debug(k)
         case None => false
    ensures DecodePairs(keys, vals, i, out, objects, debug, f) == Some(Dict(InsertFrom(out, m, i)))
    decreases |m| - i
  {
    hide Decode, Insert;
    if i < |m| {
      PairsMean(keys, vals, i + 1, Insert(out, m[i].key, m[i].val), m, objects, debug, f);
    }
  }

  /** A dictionary object with keys and values behind references. */
  lemma KeyedMeans(
      u: nat, keys: seq<nat>, vals: seq<nat>, class_: nat, m: seq<Entry>,
      objects: seq<Plist>, debug: Plist -> string, f: nat)
    requires u < |objects| && objects[u] == DictObject(keys, vals, class_)
    requires |keys| == |vals| == |m|
    requires forall j | 0 <= j < |m| ::
      && Decode(Uid(keys[j]), objects, debug, f) == Some(String(m[j].key))
      && Decode(Uid(vals[j]), objects, debug, f) == Some(m[j].val)
    ensures Decode(Uid(u), objects, debug, f + 2) == Some(DictOf(m))
  {
    PairsMean(Uids(keys), Uids(vals), 0, [], m, objects, debug, f);
    var d := objects[u].entries;
    GetAt(d, 0, "NS.keys");
    GetAt(d, 1, "NS.objects");
    hide Get, DecodePairs, InsertFrom;
    assert Decode(objects[u], objects, debug, f + 1)
      == DecodePairs(Uids(keys), Uids(vals), 0, [], objects, debug, f);
  }

  lemma KeysDistinct()
    ensures forall j, k | 0 <= j < k < 7 :: KEYS[j] != KEYS[k]
  {
    assert "ur"[0] != "bm"[0] && "cpuUsage"[0] != "sysAttrs"[0];
  }

  /** Decoding the archived configuration gives the intended dictionary, for every interval and attribute list. */
  lemma ConfigDecodes(ns: i64, proc: seq<string>, sys: seq<string>, debug: Plist -> string, fuel: nat)
    requires fuel >= 8
    ensures var t := ConfigTable(ns, proc, sys);
      Decode(Uid(|t| - 1), t, debug, fuel) == Some(ConfigMeaning(ns, proc, sys))
  {
    hide Decode, IsConfig, ConfigTable, Uids, ConfigMeaning;
    var t := ConfigTable(ns, proc, sys);
    var p := 7 + |proc|;
    var s := p + 1 + |sys|;
    ConfigAt(ns, proc, sys);
    ConfigKeys(t, ns, proc, sys, debug, fuel - 2);
    ConfigVals(t, ns, proc, sys, debug, fuel - 2);
    MeaningKeys(ns, proc, sys);
    RootAt(t, ns, proc, sys);
    var m := ConfigMeaning(ns, proc, sys).entries;
    KeyedMeans(|t| - 1, Range(s + 1, 7), [3, 4, 5, 6, 6, p, s], 1, m, t, debug, fuel - 2);
    DistinctDict(m);
  }

  lemma RootAt(t: seq<Plist>, ns: i64, proc: seq<string>, sys: seq<string>)
    requires IsConfig(t, ns, proc, sys)
    ensures var p := 7 + |proc|; var s := p + 1 + |sys|;
      |t| == s + 9 && t[|t| - 1] == DictObject(Range(s + 1, 7), [3, 4, 5, 6, 6, p, s], 1)
  {
    hide DictObject, ArrayObject, Fixed;
  }

  lemma MeaningKeys(ns: i64, proc: seq<string>, sys: seq<string>)
    ensures var m := ConfigMeaning(ns, proc, sys).entries;
      && |m| == 7 && (forall j | 0 <= j < 7 :: m[j].key == KEYS[j])
      && DistinctKeys(m)
  {
    hide Strings;
    var m := ConfigMeaning(ns, proc, sys).entries;
    assert forall j | 0 <= j < 7 :: m[j].key == KEYS[j];
    KeysDistinct();
  }

  lemma ConfigKeys(t: seq<Plist>, ns: i64, proc: seq<string>, sys: seq<string>, debug: Plist -> string, f: nat)
    requires IsConfig(t, ns, proc, sys) && f >= 2
    ensures var s := 8 + |proc| + |sys|;
      forall j | 0 <= j < 7 :: Decode(Uid(Range(s + 1, 7)[j]), t, debug, f) == Some(String(KEYS[j]))
  {
    hide Decode, DictObject, ArrayObject, Fixed;
    var s := 8 + |proc| + |sys|;
    forall j | 0 <= j < 7 ensures Decode(Uid(Range(s + 1, 7)[j]), t, debug, f) == Some(String(KEYS[j])) {
      assert t[s + 1 + j] == String(KEYS[j]);
      LeafDecodes(t, debug, s + 1 + j, f);
    }
  }

  lemma ConfigVals(t: seq<Plist>, ns: i64, proc: seq<string>, sys: seq<string>, debug: Plist -> string, f: nat)
    requires IsConfig(t, ns, proc, sys) && f >= 5
    ensures var p := 7 + |proc|; var s := p + 1 + |sys|;
      var m := ConfigMeaning(ns, proc, sys).entries;
      forall j | 0 <= j < 7 :: Decode(Uid([3, 4, 5, 6, 6, p, s][j]), t, debug, f) == Some(m[j].val)
  {
    hide Decode, Fixed, ArrayObject, DictObject, Range, Strings;
    var p := 7 + |proc|;
    var s := p + 1 + |sys|;
    ConfigValues(ns, t, debug, f);
    ArrayDecodes(p, proc, 7, 2, t, debug, f);
    ArrayDecodes(s, sys, p + 1, 2, t, debug, f);
    hide IsConfig;
  }

  lemma ConfigValues(ns: i64, t: seq<Plist>, debug: Plist -> string, f: nat)
    requires f >= 2 && |t| >= 7 && forall j | 0 <= j < 7 :: t[j] == Fixed(ns)[j]
    ensures Decode(Uid(3), t, debug, f) == Some(Integer(1))
    ensures Decode(Uid(4), t, debug, f) == Some(Integer(0))
    ensures Decode(Uid(5), t, debug, f) == Some(Integer(ns))
    ensures Decode(Uid(6), t, debug, f) == Some(Boolean(true))
  {
    LeafDecodes(t, debug, 3, f);
    LeafDecodes(t, debug, 4, f);
    LeafDecodes(t, debug, 5, f);
    LeafDecodes(t, debug, 6, f);
    hide Decode;
  }

  // ---- capabilities ----

  /** Keys and values alternating. */
  function CapObjects(caps: seq<Entry>): (objects: seq<Plist>)
    ensures |objects| == 2 * |caps|
    ensures forall i | 0 <= i < |caps| :: objects[2 * i] == String(caps[i].key) && objects[2 * i + 1] == caps[i].val
  {
    if caps == [] then []
    else
      var last := caps[|caps| - 1];
      CapObjects(caps[..|caps| - 1]) + [String(last.key), last.val]
  }

  function Evens(first: nat, n: nat): (us: seq<nat>)
    ensures |us| == n && forall i | 0 <= i < n :: us[i] == first + 2 * i
  {
    seq(n, i => first + 2 * i)
  }

  function CapsTable(caps: seq<Entry>): (objects: seq<Plist>)
    ensures |objects| == 5 + 2 * |caps|
  {
    var n := |caps|;
    [NULL, ClassObject("XCTCapabilities", ["NSObject"]), ClassObject("NSDictionary", ["NSObject"])]
    + CapObjects(caps)
    + [DictObject(Evens(3, n), Evens(4, n), 2),
       Dict([Entry("capabilities-dictionary", Uid(3 + 2 * n)), Entry("$class", Uid(1))])]
  }

  /** `caps` in the order in which the map is visited. */
  method BuildCapabilities(caps: seq<Entry>) returns (table: ObjectTable, root: nat)
    ensures table.objects == CapsTable(caps) && root == |table.objects| - 1
  {
    hide ClassObject, CapObjects, DictObject, Evens;
    table := new ObjectTable();
    var capsClass := table.PushClass("XCTCapabilities", ["NSObject"]);
    var dictClass := table.PushClass("NSDictionary", ["NSObject"]);
    ghost var fixed := table.objects;
    var keys, vals := [], [];
    CapObjectsSnoc(caps, 0);
    for i := 0 to |caps|
      invariant |fixed| == 3 && table.objects == fixed + CapObjects(caps[..i])
      invariant keys == Evens(3, i) && vals == Evens(4, i)
    {
      CapObjectsSnoc(caps, i);
      var k := table.PushVal(String(caps[i].key));
      var v := table.PushVal(caps[i].val);
      keys, vals := keys + [k], vals + [v];
    }
    assert caps[..|caps|] == caps;
    var dict := table.PushVal(DictObject(keys, vals, dictClass));
    root := table.PushVal(Dict([Entry("capabilities-dictionary", Uid(dict)), Entry("$class", Uid(capsClass))]));
  }

  lemma CapObjectsSnoc(caps: seq<Entry>, i: nat)
    requires i <= |caps|
    ensures CapObjects(caps[..0]) == []
    ensures i < |caps| ==>
      CapObjects(caps[..i + 1]) == CapObjects(caps[..i]) + [String(caps[i].key), caps[i].val]
  {
    if i < |caps| {
      assert caps[..i + 1][..i] == caps[..i];
    }
  }

  /** The root is of the capabilities' class and leads to a dictionary. */
  lemma CapsClasses(caps: seq<Entry>)
    ensures var t, n := CapsTable(caps), |caps|;
      && IsInstance(t, |t| - 1, "XCTCapabilities", ["NSObject"])
      && t[|t| - 1].entries[0] == Entry("capabilities-dictionary", Uid(3 + 2 * n))
      && IsInstance(t, 3 + 2 * n, "NSDictionary", ["NSObject"])
  {
    hide Evens, CapObjects, ClassObject, IsInstance, Uids;
    var t, n := CapsTable(caps), |caps|;
    InstanceOf(t, 4 + 2 * n, 1, 1, "XCTCapabilities", ["NSObject"]);
    assert t[3 + 2 * n] == DictObject(Evens(3, n), Evens(4, n), 2);
    InstanceOf(t, 3 + 2 * n, 2, 2, "NSDictionary", ["NSObject"]);
  }

  /** The table refers backwards exactly when each value does at the place where it is pushed. */
  lemma CapsBackRefs(caps: seq<Entry>)
    ensures BackRefs(CapsTable(caps)) <==> forall i | 0 <= i < |caps| :: Earlier(caps[i].val, 4 + 2 * i)
  {
    hide Evens, CapObjects, ClassObject, DictObject;
    var t, n := CapsTable(caps), |caps|;
    assert forall i | 0 <= i < n :: t[3 + 2 * i] == String(caps[i].key) && t[4 + 2 * i] == caps[i].val;
    DictEarlier(Evens(3, n), Evens(4, n), 2, 3 + 2 * n);
    if BackRefs(t) {
      forall i | 0 <= i < n ensures Earlier(caps[i].val, 4 + 2 * i) {
        assert Earlier(t[4 + 2 * i], 4 + 2 * i);
      }
    }
    if forall i | 0 <= i < n :: Earlier(caps[i].val, 4 + 2 * i) {
      forall j | 0 <= j < |t| ensures Earlier(t[j], j) {
        if j < 3 {
          ClassEarlier("XCTCapabilities", ["NSObject"], j);
          ClassEarlier("NSDictionary", ["NSObject"], j);
        } else if j < 3 + 2 * n {
          var i := (j - 3) / 2;
          assert j == 3 + 2 * i || j == 4 + 2 * i;
          assert t[3 + 2 * i] == String(caps[i].key) && t[4 + 2 * i] == caps[i].val;
        }
      }
    }
  }
}
