/** Property lists, and the library that writes and reads them. */
module Plist {
  import opened Bytes
  import opened Wrappers

  datatype Entry = Entry(key: string, val: Plist)

  /** A dictionary keeps its entries in insertion order, each key once. */
  datatype Plist =
    | String(s: string)
    | Integer(n: int)
    | Boolean(b: bool)
    | Data(bytes: seq<byte>)
    | Uid(index: nat)
    | Array(items: seq<Plist>)
    | Dict(entries: seq<Entry>)

  function Get(d: seq<Entry>, key: string): (v: Option<Plist>)
    ensures v.Some? <==> exists i :: 0 <= i < |d| && d[i].key == key
  {
    if d == [] then None
    else if d[0].key == key then Some(d[0].val)
    else
      var v := Get(d[1..], key);
      assert v.Some? ==> exists i :: 0 <= i < |d[1..]| && d[1..][i].key == key && d[i + 1].key == key;
      assert forall i | 1 <= i < |d| :: d[i] == d[1..][i - 1];
      v
  }

  lemma {:induction false} GetAt(d: seq<Entry>, i: nat, key: string)
    requires i < |d| && d[i].key == key && forall j | 0 <= j < i :: d[j].key != key
    ensures Get(d, key) == Some(d[i].val)
    decreases d
  {
    if i > 0 {
      assert d[1..][i - 1] == d[i];
      GetAt(d[1..], i - 1, key);
    }
  }

  lemma GetNone(d: seq<Entry>, key: string)
    requires forall j | 0 <= j < |d| :: d[j].key != key
    ensures Get(d, key) == None
  {}

  /** Replaces the value of a present key in place; appends a new one. */
  function Insert(d: seq<Entry>, key: string, val: Plist): (r: seq<Entry>) {
    if d == [] then [Entry(key, val)]
    else if d[0].key == key then [Entry(key, val)] + d[1..]
    else [d[0]] + Insert(d[1..], key, val)
  }

  lemma GetFirst(e: Entry, d: seq<Entry>, key: string)
    ensures Get([e] + d, key) == if e.key == key then Some(e.val) else Get(d, key)
  {
    assert ([e] + d)[1..] == d;
  }

  /** A look-up finds what was inserted, and everything else as before. */
  lemma {:induction false} InsertLookup(d: seq<Entry>, key: string, val: Plist, other: string)
    ensures Get(Insert(d, key, val), other) == if other == key then Some(val) else Get(d, other)
    decreases |d|
  {
    hide Get;
    if d == [] {
      GetFirst(Entry(key, val), [], other);
      assert [Entry(key, val)] + [] == [Entry(key, val)];
      GetNone([], other);
    } else {
      assert d == [d[0]] + d[1..];
      GetFirst(d[0], d[1..], other);
      if d[0].key == key {
        GetFirst(Entry(key, val), d[1..], other);
      } else {
        InsertLookup(d[1..], key, val, other);
        GetFirst(d[0], Insert(d[1..], key, val), other);
      }
    }
  }

  /** A present key keeps its place. */
  lemma {:induction false} InsertPlaces(d: seq<Entry>, key: string, val: Plist)
    requires exists i :: 0 <= i < |d| && d[i].key == key
    ensures |Insert(d, key, val)| == |d| && forall i | 0 <= i < |d| :: Insert(d, key, val)[i].key == d[i].key
    decreases |d|
  {
    if d[0].key != key {
      var i :| 0 <= i < |d| && d[i].key == key;
      assert d[1..][i - 1].key == key;
      InsertPlaces(d[1..], key, val);
    }
  }

  /** The plist crate: an encoder and a decoder. */
  datatype Library = Library(encode: Plist -> seq<byte>, decode: seq<byte> -> Option<Plist>) {
    /** The list is read back as it was written. */
    predicate Carries(v: Plist) {
      decode(encode(v)) == Some(v)
    }
  }
}
