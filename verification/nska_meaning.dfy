/** What the archives of src/xctest decode to. */
module NskaMeaning {
  import opened Bytes
  import opened Wrappers
  import opened Plist
  import opened Nska
  import opened NskaBuild
  import opened XctestConfig

  // ---- plain dictionaries ----

  /** The entries of `d`, its class at place `c` left out, decode to those of `m`. */
  ghost predicate Means(
      d: seq<Entry>, c: nat, m: seq<Entry>, objects: seq<Plist>, debug: Plist -> string, f: nat)
  {
    && |d| == |m| + 1 && c < |d| && d[c].key == "$class"
    && forall j | 0 <= j < |m| :: EntryMeans(d[if j < c then j else j + 1], m[j], objects, debug, f)
  }

  predicate NotClass(key: string) {
    key != "" && key[0] != '$'
  }

  predicate EntryMeans(e: Entry, m: Entry, objects: seq<Plist>, debug: Plist -> string, f: nat) {
    e.key == m.key && NotClass(e.key) && Decode(e.val, objects, debug, f) == Some(m.val)
  }

  lemma {:induction false} EntriesMean(
      d: seq<Entry>, c: nat, m: seq<Entry>, i: nat, out: seq<Entry>,
      objects: seq<Plist>, debug: Plist -> string, f: nat)
    requires Means(d, c, m, objects, debug, f) && i <= |d|
    ensures DecodeEntries(d, i, out, objects, debug, f)
      == Some(Dict(InsertFrom(out, m, if i <= c then i else i - 1)))
    decreases |d| - i
  {
    hide Decode, Insert;
    if i < |d| {
      if i == c {
        EntriesMean(d, c, m, i + 1, out, objects, debug, f);
      } else {
        var j := if i < c then i else i - 1;
        assert EntryMeans(d[if j < c then j else j + 1], m[j], objects, debug, f);
        EntriesMean(d, c, m, i + 1, Insert(out, m[j].key, m[j].val), objects, debug, f);
      }
    }
  }

  /** A dictionary object without keys and items decodes entry by entry. */
  lemma PlainMeans(
      u: nat, d: seq<Entry>, c: nat, m: seq<Entry>, objects: seq<Plist>, debug: Plist -> string, f: nat)
    requires u < |objects| && objects[u] == Dict(d)
    requires Means(d, c, m, objects, debug, f)
    requires forall j | 0 <= j < |d| :: d[j].key != "NS.keys" && d[j].key != "NS.objects"
    ensures Decode(Uid(u), objects, debug, f + 2) == Some(DictOf(m))
  {
    EntriesMean(d, c, m, 0, [], objects, debug, f);
    GetNone(d, "NS.keys");
    GetNone(d, "NS.objects");
    hide Get, DecodeEntries, InsertFrom, Means;
    assert Decode(objects[u], objects, debug, f + 1) == DecodeEntries(d, 0, [], objects, debug, f);
  }

  // ---- capabilities ----

  /** The archived capabilities decode to their dictionary, each value as it decodes by itself. */
  lemma CapabilitiesDecode(caps: seq<Entry>, m: seq<Entry>, debug: Plist -> string, f: nat)
    requires |m| == |caps| && f > 0
    requires forall i | 0 <= i < |caps| ::
      m[i].key == caps[i].key && Decode(caps[i].val, CapsTable(caps), debug, f) == Some(m[i].val)
    ensures var t := CapsTable(caps);
      Decode(Uid(|t| - 1), t, debug, f + 5) == Some(DictOf([Entry("capabilities-dictionary", DictOf(m))]))
  {
    var t, n := CapsTable(caps), |caps|;
    hide CapObjects, Evens, DictObject, ClassObject;
    assert t[3 + 2 * n] == DictObject(Evens(3, n), Evens(4, n), 2);
    forall j | 0 <= j < n
      ensures Decode(Uid(Evens(3, n)[j]), t, debug, f + 1) == Some(String(m[j].key))
      ensures Decode(Uid(Evens(4, n)[j]), t, debug, f + 1) == Some(m[j].val)
    {
      assert t[3 + 2 * j] == String(caps[j].key) && t[4 + 2 * j] == caps[j].val;
      LeafDecodes(t, debug, 3 + 2 * j, f + 1);
    }
    KeyedMeans(3 + 2 * n, Evens(3, n), Evens(4, n), 2, m, t, debug, f + 1);
    var d := [Entry("capabilities-dictionary", Uid(3 + 2 * n)), Entry("$class", Uid(1))];
    assert t[4 + 2 * n] == Dict(d);
    hide Decode, CapsTable, InsertFrom;
    PlainMeans(4 + 2 * n, d, 1, [Entry("capabilities-dictionary", DictOf(m))], t, debug, f + 3);
  }

  // ---- the parts of a test configuration ----

  lemma StringMeans(t: seq<Plist>, u: nat, s: string, debug: Plist -> string, f: nat)
    requires IsString(t, u, s) && f >= 2
    ensures Decode(Uid(u), t, debug, f) == Some(String(s))
  {
    LeafDecodes(t, debug, u, f);
  }

  lemma ClassMeans(d: seq<Entry>, m: seq<Entry>, t: seq<Plist>, debug: Plist -> string, f: nat)
    requires |d| == |m| + 1 && d[|m|].key == "$class"
    requires forall j | 0 <= j < |m| :: EntryMeans(d[j], m[j], t, debug, f)
    ensures Means(d, |m|, m, t, debug, f)
  {
    hide EntryMeans;
  }

  function UrlMeaning(url: string): Plist {
    DictOf([Entry("NS.base", NULL), Entry("NS.relative", String(url))])
  }

  lemma UrlMeans(t: seq<Plist>, u: nat, url: string, debug: Plist -> string, f: nat)
    requires IsUrl(t, u, url) && t[0] == NULL && f >= 2
    ensures Decode(Uid(u), t, debug, f + 2) == Some(UrlMeaning(url))
  {
    var d := t[u].entries;
    StringMeans(t, d[1].val.index, url, debug, f);
    LeafDecodes(t, debug, 0, f);
    hide Decode, InsertFrom;
    var m := [Entry("NS.base", NULL), Entry("NS.relative", String(url))];
    ClassMeans(d, m, t, debug, f);
    PlainMeans(u, d, 2, m, t, debug, f);
  }

  lemma SessionMeans(t: seq<Plist>, u: nat, id: seq<byte>, debug: Plist -> string, f: nat)
    requires u < |t| && t[u] == Dict([Entry("NS.uuidbytes", Data(id)), Entry("$class", Uid(UUID_CLASS))])
    requires f >= 1
    ensures Decode(Uid(u), t, debug, f + 2) == Some(DictOf([Entry("NS.uuidbytes", Data(id))]))
  {
    var d, m := t[u].entries, [Entry("NS.uuidbytes", Data(id))];
    assert Decode(Data(id), t, debug, f) == Some(Data(id));
    hide Decode, InsertFrom;
    ClassMeans(d, m, t, debug, f);
    PlainMeans(u, d, 1, m, t, debug, f);
  }

  lemma StatisticsMeans(t: seq<Plist>, u: nat, debug: Plist -> string, f: nat)
    requires u < |t| && t[u] == Dict([Entry("XCSuiteRecordsKey", Dict([])), Entry("$class", Uid(DICT_CLASS))])
    requires f >= 2
    ensures Decode(Uid(u), t, debug, f + 2) == Some(DictOf([Entry("XCSuiteRecordsKey", Dict([]))]))
  {
    var d, m := t[u].entries, [Entry("XCSuiteRecordsKey", Dict([]))];
    assert Decode(Dict([]), t, debug, f) == Some(Dict([]));
    hide Decode, InsertFrom;
    ClassMeans(d, m, t, debug, f);
    PlainMeans(u, d, 1, m, t, debug, f);
  }

  lemma {:induction false} InlineStrings(
      names: seq<string>, i: nat, t: seq<Plist>, debug: Plist -> string, f: nat)
    requires i <= |names| && f >= 1
    ensures DecodeItems(Strings(names), i, Strings(names[..i]), t, debug, f) == Some(Array(Strings(names)))
    decreases |names| - i
  {
    if i < |names| {
      assert Decode(Strings(names)[i], t, debug, f) == Some(String(names[i]));
      hide Decode, Strings;
      assert Strings(names[..i + 1]) == Strings(names[..i]) + [String(names[i])];
      InlineStrings(names, i + 1, t, debug, f);
    } else {
      assert names[..i] == names;
    }
  }

  lemma FilterMeans(t: seq<Plist>, u: nat, names: seq<string>, debug: Plist -> string, f: nat)
    requires IsFilter(t, u, names) && names != [] && f >= 1
    ensures Decode(Uid(u), t, debug, f + 2) == Some(Array(Strings(names)))
  {
    InlineStrings(names, 0, t, debug, f);
    assert names[..0] == [] && Strings([]) == [];
    var d := t[u].entries;
    GetNone(d, "NS.keys");
    GetAt(d, 0, "NS.objects");
    hide Get, DecodeItems, Strings;
    assert Decode(t[u], t, debug, f + 1) == DecodeItems(Strings(names), 0, [], t, debug, f);
  }

  predicate IsLeaf(v: Plist) {
    v.String? || v.Integer? || v.Boolean?
  }

  lemma DictionaryMeans(
      t: seq<Plist>, u: nat, keys: seq<string>, vals: seq<Plist>, m: seq<Entry>, debug: Plist -> string, f: nat)
    requires IsDictionary(t, u, Strings(keys), vals) && f >= 2
    requires |m| == |keys| == |vals|
    requires forall j | 0 <= j < |m| :: m[j] == Entry(keys[j], vals[j]) && IsLeaf(vals[j])
    ensures Decode(Uid(u), t, debug, f + 2) == Some(DictOf(m))
  {
    var ks, vs :| u < |t| && t[u] == DictObject(ks, vs, DICT_CLASS)
      && Behind(t, ks, Strings(keys)) && Behind(t, vs, vals);
    forall j | 0 <= j < |m|
      ensures Decode(Uid(ks[j]), t, debug, f) == Some(String(m[j].key))
      ensures Decode(Uid(vs[j]), t, debug, f) == Some(m[j].val)
    {
      assert t[ks[j]] == String(keys[j]) && t[vs[j]] == vals[j];
      LeafDecodes(t, debug, ks[j], f);
      LeafDecodes(t, debug, vs[j], f);
    }
    hide Decode, InsertFrom, DictObject, Strings;
    KeyedMeans(u, ks, vs, DICT_CLASS, m, t, debug, f);
  }

  function Dependencies(pairs: seq<(string, string)>): (m: seq<Entry>)
    ensures |m| == |pairs|
    ensures forall j | 0 <= j < |pairs| :: m[j] == Entry(pairs[j].0, String(pairs[j].1))
  {
    seq(|pairs|, j requires 0 <= j < |pairs| => Entry(pairs[j].0, String(pairs[j].1)))
  }

  lemma DependenciesMean(
      t: seq<Plist>, u: nat, pairs: seq<(string, string)>, debug: Plist -> string, f: nat)
    requires IsDictionary(t, u, Strings(Firsts(pairs)), Strings(Seconds(pairs))) && f >= 2
    ensures Decode(Uid(u), t, debug, f + 2) == Some(DictOf(Dependencies(pairs)))
  {
    hide Decode, InsertFrom, IsDictionary;
    DictionaryMeans(t, u, Firsts(pairs), Strings(Seconds(pairs)), Dependencies(pairs), debug, f);
  }

  function CapabilityEntries(): (m: seq<Entry>)
    ensures |m| == |CAPABILITIES| + 1
    ensures forall j | 0 <= j < |CAPABILITIES| :: m[j] == Entry(CAPABILITIES[j], Integer(1))
    ensures m[|CAPABILITIES|] == Entry("test iterations", Integer(2))
  {
    seq(|CAPABILITIES|, j requires 0 <= j < |CAPABILITIES| => Entry(CAPABILITIES[j], Integer(1)))
    + [Entry("test iterations", Integer(2))]
  }

  function CapabilitiesMeaning(): Plist {
    DictOf([Entry("capabilities-dictionary", DictOf(CapabilityEntries()))])
  }

  lemma CapabilitiesMean(t: seq<Plist>, u: nat, debug: Plist -> string, f: nat)
    requires IsCapabilities(t, u) && f >= 2
    ensures Decode(Uid(u), t, debug, f + 4) == Some(CapabilitiesMeaning())
  {
    hide Decode, InsertFrom, IsDictionary;
    var keys, vals := CAPABILITIES + ["test iterations"], seq(|CAPABILITIES|, _ => Integer(1)) + [Integer(2)];
    assert Strings(keys) == Strings(CAPABILITIES) + [String("test iterations")];
    var d :| u < |t| && t[u] == Dict([Entry("capabilities-dictionary", Uid(d)), Entry("$class", Uid(CAPS_CLASS))])
      && IsDictionary(t, d, Strings(CAPABILITIES) + [String("test iterations")], vals);
    hide Strings;
    var inner := CapabilityEntries();
    DictionaryMeans(t, d, keys, vals, inner, debug, f);
    var e, m := t[u].entries, [Entry("capabilities-dictionary", DictOf(inner))];
    hide DictOf;
    ClassMeans(e, m, t, debug, f + 2);
    PlainMeans(u, e, 1, m, t, debug, f + 2);
  }

  // ---- the whole configuration ----

  function Optionally(key: string, given: bool, v: Plist): seq<Entry> {
    if given then [Entry(key, v)] else []
  }

  function PathMeaning(): seq<Entry> {
    [Entry("aggregateStatisticsBeforeCrash", DictOf([Entry("XCSuiteRecordsKey", Dict([]))])),
     Entry("automationFrameworkPath", String(AUTOMATION_PATH)),
     Entry("baselineFileRelativePath", NULL),
     Entry("baselineFileURL", NULL)]
  }

  function LogMeaning(): seq<Entry> {
    [Entry("defaultTestExecutionTimeAllowance", NULL),
     Entry("disablePerformanceMetrics", Boolean(false)),
     Entry("emitOSLogs", Boolean(false)),
     Entry("gatherLocalizableStringsData", Boolean(false))]
  }

  function StartMeaning(ui: bool): seq<Entry> {
    [Entry("initializeForUITesting", Boolean(ui)),
     Entry("maximumTestExecutionTimeAllowance", NULL),
     Entry("randomExecutionOrderingSeed", NULL),
     Entry("reportActivities", Boolean(true)),
     Entry("reportResultsToIDE", Boolean(true))]
  }

  function SessionMeaning(a: Args): seq<Entry> {
    [Entry("sessionIdentifier", DictOf([Entry("NS.uuidbytes", Data(a.sessionId))])),
     Entry("systemAttachmentLifetime", Integer(2)),
     Entry("testApplicationUserOverrides", NULL),
     Entry("testBundleRelativePath", NULL),
     Entry("testBundleURL", UrlMeaning("file://" + a.testBundlePath))]
  }

  function OrderMeaning(): seq<Entry> {
    [Entry("testExecutionOrdering", Integer(0)),
     Entry("testTimeoutsEnabled", Boolean(false)),
     Entry("testsDrivenByIDE", Boolean(false)),
     Entry("testsMustRunOnMainThread", Boolean(true)),
     Entry("treatMissingBaselinesAsFailures", Boolean(false))]
  }

  function DriverMeaning(a: Args): seq<Entry> {
    [Entry("userAttachmentLifetime", Integer(1)),
     Entry("preferredScreenCaptureFormat", Integer(2)),
     Entry("IDECapabilities", CapabilitiesMeaning()),
     Entry("productModuleName", String(a.productModuleName)),
     Entry("testApplicationDependencies", DictOf(Dependencies(a.appDependencies)))]
  }

  function FixedMeaning(a: Args): seq<Entry> {
    PathMeaning() + LogMeaning() + StartMeaning(a.initializeForUi) + SessionMeaning(a) + OrderMeaning()
    + DriverMeaning(a)
  }

  /** What the configuration says: every setting, and the optional ones that are asked for. */
  function ConfigurationMeaning(a: Args): seq<Entry> {
    FixedMeaning(a)
    + Optionally("testsToRun", a.testsToRun != [], Array(Strings(a.testsToRun)))
    + Optionally("testsToSkip", a.testsToSkip != [], Array(Strings(a.testsToSkip)))
    + Optionally("targetApplicationBundleID", a.targetBundleId != "", String(a.targetBundleId))
    + Optionally("targetApplicationPath", a.targetPath != "", String(a.targetPath))
  }

  /** Entries none of which is a class, each decoding to its counterpart. */
  predicate AllMean(d: seq<Entry>, m: seq<Entry>, t: seq<Plist>, debug: Plist -> string, f: nat) {
    |d| == |m| && forall j | 0 <= j < |m| :: EntryMeans(d[j], m[j], t, debug, f)
  }

  lemma AllMeanAppend(
      d: seq<Entry>, m: seq<Entry>, d': seq<Entry>, m': seq<Entry>, t: seq<Plist>, debug: Plist -> string, f: nat)
    requires AllMean(d, m, t, debug, f) && AllMean(d', m', t, debug, f)
    ensures AllMean(d + d', m + m', t, debug, f)
  {
    hide EntryMeans;
  }

  /** What every reference of a configuration decodes to. */
  predicate RefsMean(t: seq<Plist>, u: XctestConfig.Uids, a: Args, debug: Plist -> string, f: nat) {
    && Decode(Uid(0), t, debug, f) == Some(NULL)
    && Decode(Uid(u.aggStats), t, debug, f) == Some(DictOf([Entry("XCSuiteRecordsKey", Dict([]))]))
    && Decode(Uid(u.automationPath), t, debug, f) == Some(String(AUTOMATION_PATH))
    && Decode(Uid(u.session), t, debug, f) == Some(DictOf([Entry("NS.uuidbytes", Data(a.sessionId))]))
    && Decode(Uid(u.bundleUrl), t, debug, f) == Some(UrlMeaning("file://" + a.testBundlePath))
    && Decode(Uid(u.ideCaps), t, debug, f) == Some(CapabilitiesMeaning())
    && Decode(Uid(u.moduleName), t, debug, f) == Some(String(a.productModuleName))
    && Decode(Uid(u.appDeps), t, debug, f) == Some(DictOf(Dependencies(a.appDependencies)))
  }

  lemma DescribedMean(t: seq<Plist>, u: XctestConfig.Uids, a: Args, debug: Plist -> string, f: nat)
    requires t != [] && t[0] == NULL && Describes(t, u, a) && f >= 6
    ensures RefsMean(t, u, a, debug, f)
  {
    hide Decode, DictOf, IsUrl, IsString, IsFilter, IsCapabilities, IsDictionary, IsOptionalString, Strings,
         UrlMeaning, CapabilitiesMeaning, Dependencies;
    LeafDecodes(t, debug, 0, f);
    StatisticsMeans(t, u.aggStats, debug, f - 2);
    StringMeans(t, u.automationPath, AUTOMATION_PATH, debug, f);
    SessionMeans(t, u.session, a.sessionId, debug, f - 2);
    UrlMeans(t, u.bundleUrl, "file://" + a.testBundlePath, debug, f - 2);
    CapabilitiesMean(t, u.ideCaps, debug, f - 4);
    StringMeans(t, u.moduleName, a.productModuleName, debug, f);
    DependenciesMean(t, u.appDeps, a.appDependencies, debug, f - 2);
  }

  lemma Settings(t: seq<Plist>, debug: Plist -> string, f: nat)
    requires f >= 1
    ensures Decode(Boolean(true), t, debug, f) == Some(Boolean(true))
    ensures Decode(Boolean(false), t, debug, f) == Some(Boolean(false))
    ensures Decode(Integer(0), t, debug, f) == Some(Integer(0))
    ensures Decode(Integer(1), t, debug, f) == Some(Integer(1))
    ensures Decode(Integer(2), t, debug, f) == Some(Integer(2))
  {}

  lemma PathsMean(t: seq<Plist>, u: XctestConfig.Uids, a: Args, debug: Plist -> string, f: nat)
    requires RefsMean(t, u, a, debug, f) && f >= 1
    ensures AllMean(PathEntries(u), PathMeaning(), t, debug, f)
  {
    hide Decode, DictOf, UrlMeaning, CapabilitiesMeaning, Dependencies, AUTOMATION_PATH, CAPABILITIES;
    Settings(t, debug, f);
  }

  lemma LogsMean(t: seq<Plist>, u: XctestConfig.Uids, a: Args, debug: Plist -> string, f: nat)
    requires RefsMean(t, u, a, debug, f) && f >= 1
    ensures AllMean(LogEntries(), LogMeaning(), t, debug, f)
  {
    hide Decode, DictOf, UrlMeaning, CapabilitiesMeaning, Dependencies, AUTOMATION_PATH, CAPABILITIES;
    Settings(t, debug, f);
  }

  lemma StartsMean(t: seq<Plist>, u: XctestConfig.Uids, a: Args, debug: Plist -> string, f: nat)
    requires RefsMean(t, u, a, debug, f) && f >= 1
    ensures AllMean(StartEntries(a.initializeForUi), StartMeaning(a.initializeForUi), t, debug, f)
  {
    hide Decode, DictOf, UrlMeaning, CapabilitiesMeaning, Dependencies, AUTOMATION_PATH, CAPABILITIES;
    Settings(t, debug, f);
  }

  lemma SessionsMean(t: seq<Plist>, u: XctestConfig.Uids, a: Args, debug: Plist -> string, f: nat)
    requires RefsMean(t, u, a, debug, f) && f >= 1
    ensures AllMean(SessionEntries(u), SessionMeaning(a), t, debug, f)
  {
    hide Decode, DictOf, UrlMeaning, CapabilitiesMeaning, Dependencies, AUTOMATION_PATH, CAPABILITIES;
    Settings(t, debug, f);
  }

  lemma OrdersMean(t: seq<Plist>, u: XctestConfig.Uids, a: Args, debug: Plist -> string, f: nat)
    requires RefsMean(t, u, a, debug, f) && f >= 1
    ensures AllMean(OrderEntries(), OrderMeaning(), t, debug, f)
  {
    hide Decode, DictOf, UrlMeaning, CapabilitiesMeaning, Dependencies, AUTOMATION_PATH, CAPABILITIES;
    Settings(t, debug, f);
  }

  lemma DriversMean(t: seq<Plist>, u: XctestConfig.Uids, a: Args, debug: Plist -> string, f: nat)
    requires RefsMean(t, u, a, debug, f) && f >= 1
    ensures AllMean(DriverEntries(u), DriverMeaning(a), t, debug, f)
  {
    hide Decode, DictOf, UrlMeaning, CapabilitiesMeaning, Dependencies, AUTOMATION_PATH, CAPABILITIES;
    Settings(t, debug, f);
  }

  lemma FixedMean(t: seq<Plist>, u: XctestConfig.Uids, a: Args, debug: Plist -> string, f: nat)
    requires RefsMean(t, u, a, debug, f) && f >= 1
    ensures AllMean(FixedEntries(u, a.initializeForUi), FixedMeaning(a), t, debug, f)
  {
    PathsMean(t, u, a, debug, f);
    LogsMean(t, u, a, debug, f);
    StartsMean(t, u, a, debug, f);
    SessionsMean(t, u, a, debug, f);
    OrdersMean(t, u, a, debug, f);
    DriversMean(t, u, a, debug, f);
    hide AllMean, RefsMean, Decode, PathEntries, LogEntries, StartEntries, SessionEntries, OrderEntries, DriverEntries,
         PathMeaning, LogMeaning, StartMeaning, SessionMeaning, OrderMeaning, DriverMeaning;
    var d1, d2, d3 := PathEntries(u), LogEntries(), StartEntries(a.initializeForUi);
    var d4, d5, d6 := SessionEntries(u), OrderEntries(), DriverEntries(u);
    var m1, m2, m3 := PathMeaning(), LogMeaning(), StartMeaning(a.initializeForUi);
    var m4, m5, m6 := SessionMeaning(a), OrderMeaning(), DriverMeaning(a);
    AllMeanAppend(d1, m1, d2, m2, t, debug, f);
    AllMeanAppend(d1 + d2, m1 + m2, d3, m3, t, debug, f);
    AllMeanAppend(d1 + d2 + d3, m1 + m2 + m3, d4, m4, t, debug, f);
    AllMeanAppend(d1 + d2 + d3 + d4, m1 + m2 + m3 + m4, d5, m5, t, debug, f);
    AllMeanAppend(d1 + d2 + d3 + d4 + d5, m1 + m2 + m3 + m4 + m5, d6, m6, t, debug, f);
  }

  lemma GivenMeans(
      key: string, u: nat, given: bool, v: Plist, t: seq<Plist>, debug: Plist -> string, f: nat)
    requires NotClass(key) && (given <==> u != 0)
    requires given ==> Decode(Uid(u), t, debug, f) == Some(v)
    ensures AllMean(Given(key, u), Optionally(key, given, v), t, debug, f)
  {
    hide Decode;
  }

  lemma OptionalMean(t: seq<Plist>, u: XctestConfig.Uids, a: Args, debug: Plist -> string, f: nat)
    requires t != [] && Describes(t, u, a) && f >= 3
    ensures AllMean(Given("testsToRun", u.testsToRun),
      Optionally("testsToRun", a.testsToRun != [], Array(Strings(a.testsToRun))), t, debug, f)
    ensures AllMean(Given("testsToSkip", u.testsToSkip),
      Optionally("testsToSkip", a.testsToSkip != [], Array(Strings(a.testsToSkip))), t, debug, f)
    ensures AllMean(Given("targetApplicationBundleID", u.targetBundle),
      Optionally("targetApplicationBundleID", a.targetBundleId != "", String(a.targetBundleId)), t, debug, f)
    ensures AllMean(Given("targetApplicationPath", u.targetPath),
      Optionally("targetApplicationPath", a.targetPath != "", String(a.targetPath)), t, debug, f)
  {
    hide Decode, AllMean, Given, Optionally, Strings, IsUrl, IsCapabilities, IsDictionary;
    if a.testsToRun != [] {
      FilterMeans(t, u.testsToRun, a.testsToRun, debug, f - 2);
    }
    if a.testsToSkip != [] {
      FilterMeans(t, u.testsToSkip, a.testsToSkip, debug, f - 2);
    }
    if a.targetBundleId != "" {
      StringMeans(t, u.targetBundle, a.targetBundleId, debug, f);
    }
    if a.targetPath != "" {
      StringMeans(t, u.targetPath, a.targetPath, debug, f);
    }
    GivenMeans("testsToRun", u.testsToRun, a.testsToRun != [], Array(Strings(a.testsToRun)), t, debug, f);
    GivenMeans("testsToSkip", u.testsToSkip, a.testsToSkip != [], Array(Strings(a.testsToSkip)), t, debug, f);
    GivenMeans("targetApplicationBundleID", u.targetBundle, a.targetBundleId != "", String(a.targetBundleId), t, debug,
      f);
    GivenMeans("targetApplicationPath", u.targetPath, a.targetPath != "", String(a.targetPath), t, debug, f);
  }

  lemma SettingsMean(t: seq<Plist>, u: XctestConfig.Uids, a: Args, debug: Plist -> string, f: nat)
    requires t != [] && t[0] == NULL && Describes(t, u, a) && f >= 6
    ensures AllMean(SettingEntries(u, a.initializeForUi), ConfigurationMeaning(a), t, debug, f)
  {
    hide AllMean, Describes, RefsMean, FixedEntries, FixedMeaning, Given, Optionally, Strings, Decode;
    DescribedMean(t, u, a, debug, f);
    FixedMean(t, u, a, debug, f);
    OptionalMean(t, u, a, debug, f);
    var d1, d2 := Given("testsToRun", u.testsToRun), Given("testsToSkip", u.testsToSkip);
    var d3, d4 := Given("targetApplicationBundleID", u.targetBundle), Given("targetApplicationPath", u.targetPath);
    var m1 := Optionally("testsToRun", a.testsToRun != [], Array(Strings(a.testsToRun)));
    var m2 := Optionally("testsToSkip", a.testsToSkip != [], Array(Strings(a.testsToSkip)));
    var m3 := Optionally("targetApplicationBundleID", a.targetBundleId != "", String(a.targetBundleId));
    var m4 := Optionally("targetApplicationPath", a.targetPath != "", String(a.targetPath));
    var d, m := FixedEntries(u, a.initializeForUi), FixedMeaning(a);
    AllMeanAppend(d, m, d1, m1, t, debug, f);
    AllMeanAppend(d + d1, m + m1, d2, m2, t, debug, f);
    AllMeanAppend(d + d1 + d2, m + m1 + m2, d3, m3, t, debug, f);
    AllMeanAppend(d + d1 + d2 + d3, m + m1 + m2 + m3, d4, m4, t, debug, f);
  }

  /** No key that the decoder treats specially. */
  predicate Ordinary(m: seq<Entry>) {
    forall j | 0 <= j < |m| :: OrdinaryKey(m[j].key)
  }

  predicate OrdinaryKey(key: string) {
    key != "" && key[0] != 'N'
  }

  lemma OrdinaryAppend(m: seq<Entry>, m': seq<Entry>)
    requires Ordinary(m) && Ordinary(m')
    ensures Ordinary(m + m')
  {
    hide OrdinaryKey;
  }

  lemma PartsOrdinary(a: Args)
    ensures Ordinary(PathMeaning()) && Ordinary(LogMeaning()) && Ordinary(StartMeaning(a.initializeForUi))
    ensures Ordinary(SessionMeaning(a)) && Ordinary(OrderMeaning()) && Ordinary(DriverMeaning(a))
  {
    hide DictOf, UrlMeaning, CapabilitiesMeaning, Dependencies, AUTOMATION_PATH, CAPABILITIES;
  }

  lemma FixedOrdinary(a: Args)
    ensures Ordinary(FixedMeaning(a))
  {
    PartsOrdinary(a);
    hide Ordinary, PathMeaning, LogMeaning, StartMeaning, SessionMeaning, OrderMeaning, DriverMeaning;
    var m1, m2, m3 := PathMeaning(), LogMeaning(), StartMeaning(a.initializeForUi);
    var m4, m5, m6 := SessionMeaning(a), OrderMeaning(), DriverMeaning(a);
    OrdinaryAppend(m1, m2);
    OrdinaryAppend(m1 + m2, m3);
    OrdinaryAppend(m1 + m2 + m3, m4);
    OrdinaryAppend(m1 + m2 + m3 + m4, m5);
    OrdinaryAppend(m1 + m2 + m3 + m4 + m5, m6);
  }

  lemma OptionalOrdinary(key: string, given: bool, v: Plist)
    requires OrdinaryKey(key)
    ensures Ordinary(Optionally(key, given, v))
  {}

  lemma SettingsOrdinary(a: Args)
    ensures Ordinary(ConfigurationMeaning(a))
  {
    FixedOrdinary(a);
    OptionalOrdinary("testsToRun", a.testsToRun != [], Array(Strings(a.testsToRun)));
    OptionalOrdinary("testsToSkip", a.testsToSkip != [], Array(Strings(a.testsToSkip)));
    OptionalOrdinary("targetApplicationBundleID", a.targetBundleId != "", String(a.targetBundleId));
    OptionalOrdinary("targetApplicationPath", a.targetPath != "", String(a.targetPath));
    hide FixedMeaning, Optionally, Strings, Ordinary;
    var m := FixedMeaning(a);
    var m1 := Optionally("testsToRun", a.testsToRun != [], Array(Strings(a.testsToRun)));
    var m2 := Optionally("testsToSkip", a.testsToSkip != [], Array(Strings(a.testsToSkip)));
    var m3 := Optionally("targetApplicationBundleID", a.targetBundleId != "", String(a.targetBundleId));
    var m4 := Optionally("targetApplicationPath", a.targetPath != "", String(a.targetPath));
    OrdinaryAppend(m, m1);
    OrdinaryAppend(m + m1, m2);
    OrdinaryAppend(m + m1 + m2, m3);
    OrdinaryAppend(m + m1 + m2 + m3, m4);
  }

  // ---- its keys ----

  /** The length and the seventh letter tell the keys of a configuration apart. */
  function KeyCode(key: string): (int, char) {
    (|key|, if |key| > 6 then key[6] else ' ')
  }

  ghost predicate Coded(m: seq<Entry>, codes: set<(int, char)>) {
    DistinctKeys(m) && forall j | 0 <= j < |m| :: KeyCode(m[j].key) in codes
  }

  lemma CodedAppend(m: seq<Entry>, m': seq<Entry>, codes: set<(int, char)>, codes': set<(int, char)>)
    requires Coded(m, codes) && Coded(m', codes') && codes !! codes'
    ensures Coded(m + m', codes + codes')
  {
    hide KeyCode;
    var all := m + m';
    forall j, k | 0 <= j < k < |all| ensures all[j].key != all[k].key {
      if j < |m| <= k {
        assert KeyCode(all[j].key) in codes && KeyCode(all[k].key) in codes';
      }
    }
  }

  const PATH_CODES: set<(int, char)> := {(30, 'a'), (23, 't'), (24, 'n'), (15, 'n')}
  const LOG_CODES: set<(int, char)> := {(33, 't'), (25, 'e'), (10, 'L'), (28, 'L')}
  const START_CODES: set<(int, char)> := {(22, 'l'), (33, 'm'), (27, 'E'), (16, 'A'), (18, 'R')}
  const SESSION_CODES: set<(int, char)> := {(17, 'n'), (24, 'A'), (28, 'p'), (22, 'n'), (13, 'n')}
  const ORDER_CODES: set<(int, char)> := {(21, 'e'), (19, 'm'), (16, 'r'), (24, 'u'), (31, 'i')}
  const DRIVER_CODES: set<(int, char)> := {(22, 't'), (28, 'r'), (15, 'a'), (17, 't'), (27, 'p')}

  lemma PathsCoded()
    ensures Coded(PathMeaning(), PATH_CODES)
  {
    hide DictOf, AUTOMATION_PATH, CAPABILITIES;
  }

  lemma LogsCoded()
    ensures Coded(LogMeaning(), LOG_CODES)
  {
    hide DictOf, AUTOMATION_PATH, CAPABILITIES;
  }

  lemma StartsCoded(a: Args)
    ensures Coded(StartMeaning(a.initializeForUi), START_CODES)
  {
    hide DictOf, UrlMeaning, CapabilitiesMeaning, Dependencies, AUTOMATION_PATH, CAPABILITIES;
  }

  lemma SessionsCoded(a: Args)
    ensures Coded(SessionMeaning(a), SESSION_CODES)
  {
    hide DictOf, UrlMeaning, CapabilitiesMeaning, Dependencies, AUTOMATION_PATH, CAPABILITIES;
  }

  lemma OrdersCoded()
    ensures Coded(OrderMeaning(), ORDER_CODES)
  {
    hide DictOf, AUTOMATION_PATH, CAPABILITIES;
  }

  lemma DriversCoded(a: Args)
    ensures Coded(DriverMeaning(a), DRIVER_CODES)
  {
    hide DictOf, UrlMeaning, CapabilitiesMeaning, Dependencies, AUTOMATION_PATH, CAPABILITIES;
  }

  lemma FixedCoded(a: Args)
    ensures Coded(FixedMeaning(a),
      PATH_CODES + LOG_CODES + START_CODES + SESSION_CODES + ORDER_CODES + DRIVER_CODES)
  {
    PathsCoded();
    LogsCoded();
    StartsCoded(a);
    SessionsCoded(a);
    OrdersCoded();
    DriversCoded(a);
    hide Coded, PathMeaning, LogMeaning, StartMeaning, SessionMeaning, OrderMeaning, DriverMeaning;
    var m1, m2, m3 := PathMeaning(), LogMeaning(), StartMeaning(a.initializeForUi);
    var m4, m5, m6 := SessionMeaning(a), OrderMeaning(), DriverMeaning(a);
    CodedAppend(m1, m2, PATH_CODES, LOG_CODES);
    CodedAppend(m1 + m2, m3, PATH_CODES + LOG_CODES, START_CODES);
    CodedAppend(m1 + m2 + m3, m4, PATH_CODES + LOG_CODES + START_CODES, SESSION_CODES);
    CodedAppend(m1 + m2 + m3 + m4, m5, PATH_CODES + LOG_CODES + START_CODES + SESSION_CODES, ORDER_CODES);
    CodedAppend(m1 + m2 + m3 + m4 + m5, m6,
      PATH_CODES + LOG_CODES + START_CODES + SESSION_CODES + ORDER_CODES, DRIVER_CODES);
  }

  lemma OptionalCoded(m: seq<Entry>, codes: set<(int, char)>, key: string, given: bool, v: Plist)
    requires Coded(m, codes) && KeyCode(key) !in codes
    ensures Coded(m + Optionally(key, given, v), codes + {KeyCode(key)})
  {
    assert Coded(Optionally(key, given, v), {KeyCode(key)});
    CodedAppend(m, Optionally(key, given, v), codes, {KeyCode(key)});
  }

  lemma OptionalCodes()
    ensures KeyCode("testsToRun") == (10, 'o') && KeyCode("testsToSkip") == (11, 'o')
    ensures KeyCode("targetApplicationBundleID") == (25, 'A') && KeyCode("targetApplicationPath") == (21, 'A')
  {
    hide PATH_CODES, LOG_CODES, START_CODES, SESSION_CODES, ORDER_CODES, DRIVER_CODES, AUTOMATION_PATH, CAPABILITIES;
  }

  lemma OptionalFresh()
    ensures forall c | c in {(10, 'o'), (11, 'o'), (25, 'A'), (21, 'A')} ::
      && c !in PATH_CODES && c !in LOG_CODES && c !in START_CODES
      && c !in SESSION_CODES && c !in ORDER_CODES && c !in DRIVER_CODES
  {
    hide AUTOMATION_PATH, CAPABILITIES;
  }

  /** No setting occurs twice, so that none overwrites another. */
  lemma SettingsDistinct(a: Args)
    ensures DistinctKeys(ConfigurationMeaning(a))
  {
    OptionalCodes();
    OptionalFresh();
    FixedCoded(a);
    hide FixedMeaning, Optionally, Strings, Coded, KeyCode;
    var c := PATH_CODES + LOG_CODES + START_CODES + SESSION_CODES + ORDER_CODES + DRIVER_CODES;
    hide PATH_CODES, LOG_CODES, START_CODES, SESSION_CODES, ORDER_CODES, DRIVER_CODES;
    var m := FixedMeaning(a);
    var m1 := Optionally("testsToRun", a.testsToRun != [], Array(Strings(a.testsToRun)));
    var m2 := Optionally("testsToSkip", a.testsToSkip != [], Array(Strings(a.testsToSkip)));
    var m3 := Optionally("targetApplicationBundleID", a.targetBundleId != "", String(a.targetBundleId));
    var c1 := c + {(10, 'o')};
    var c2 := c1 + {(11, 'o')};
    var c3 := c2 + {(25, 'A')};
    OptionalCoded(m, c, "testsToRun", a.testsToRun != [], Array(Strings(a.testsToRun)));
    OptionalCoded(m + m1, c1, "testsToSkip", a.testsToSkip != [], Array(Strings(a.testsToSkip)));
    OptionalCoded(m + m1 + m2, c2, "targetApplicationBundleID", a.targetBundleId != "", String(a.targetBundleId));
    OptionalCoded(m + m1 + m2 + m3, c3, "targetApplicationPath", a.targetPath != "", String(a.targetPath));
    CodedDistinct(ConfigurationMeaning(a), c3 + {(21, 'A')});
  }

  lemma CodedDistinct(m: seq<Entry>, codes: set<(int, char)>)
    requires Coded(m, codes)
    ensures DistinctKeys(m)
  {}

  // ---- the archive ----

  lemma ClassAndSettings(
      d: seq<Entry>, s: seq<Entry>, m: seq<Entry>, t: seq<Plist>, debug: Plist -> string, f: nat)
    requires d == [Entry("$class", Uid(CONFIG_CLASS))] + s && AllMean(s, m, t, debug, f) && Ordinary(m)
    ensures Means(d, 0, m, t, debug, f)
    ensures forall j | 0 <= j < |d| :: d[j].key != "NS.keys" && d[j].key != "NS.objects"
  {
    hide Decode;
    forall j | 0 <= j < |m| ensures EntryMeans(d[j + 1], m[j], t, debug, f) && OrdinaryKey(d[j + 1].key) {
      assert d[j + 1] == s[j];
    }
    forall j | 0 <= j < |d| ensures d[j].key != "NS.keys" && d[j].key != "NS.objects" {
      if j > 0 {
        assert OrdinaryKey(d[j - 1 + 1].key);
      }
    }
  }

  /**
   * Decoding the archive of a test configuration gives every setting with what
   * the arguments ask for, and the optional settings exactly when asked for.
   */
  lemma ConfigurationDecodes(
      t: seq<Plist>, root: nat, u: XctestConfig.Uids, a: Args, debug: Plist -> string, f: nat)
    requires |t| == root + 1 && t[0] == NULL && Describes(t, u, a)
    requires t[root] == Dict(ConfigEntries(u, a.initializeForUi)) && f >= 6
    ensures Decode(Uid(root), t, debug, f + 2) == Some(Dict(ConfigurationMeaning(a)))
  {
    hide Describes, ConfigurationMeaning, SettingEntries, Decode, DictOf, AllMean, Means, Ordinary, DistinctKeys;
    SettingsMean(t, u, a, debug, f);
    SettingsOrdinary(a);
    var d, m := ConfigEntries(u, a.initializeForUi), ConfigurationMeaning(a);
    ClassAndSettings(d, SettingEntries(u, a.initializeForUi), m, t, debug, f);
    PlainMeans(root, d, 0, m, t, debug, f);
    SettingsDistinct(a);
    DistinctDict(m);
  }

  /** The archive that is built for any arguments decodes to what they ask for. */
  method ArchiveConfiguration(a: Args) returns (table: ObjectTable, root: nat)
    ensures BackRefs(table.objects) && |table.objects| == root + 1
    ensures forall debug ::
      Decode(Uid(root), table.objects, debug, 8) == Some(Dict(ConfigurationMeaning(a)))
  {
    hide BackRefs, ConfigEntries, Describes, Decode, ConfigurationMeaning;
    table, root := BuildConfiguration(a);
    ghost var u: XctestConfig.Uids :|
      table.objects[root] == Dict(ConfigEntries(u, a.initializeForUi)) && Describes(table.objects, u, a);
    forall debug: Plist -> string
      ensures Decode(Uid(root), table.objects, debug, 8) == Some(Dict(ConfigurationMeaning(a)))
    {
      ConfigurationDecodes(table.objects, root, u, a, debug, 6);
    }
  }
}
