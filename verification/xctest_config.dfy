/** The XCTestConfiguration archive of src/xctest/config.rs. */
module XctestConfig {
  import opened Bytes
  import opened Plist
  import opened Nska
  import opened NskaBuild

  datatype Args = Args(
    sessionId: seq<byte>,
    testBundlePath: string,
    productModuleName: string,
    targetBundleId: string,
    targetPath: string,
    testsToRun: seq<string>,
    testsToSkip: seq<string>,
    initializeForUi: bool,
    appDependencies: seq<(string, string)>)

  const AUTOMATION_PATH: string :=
    "/System/Developer/Library/PrivateFrameworks/XCTAutomationSupport.framework"

  const CAPABILITIES: seq<string> := [
    "XCTIssue capability",
    "daemon container sandbox extension",
    "delayed attachment transfer",
    "expected failure test capability",
    "in-process test parallelization capability",
    "request diagnostics for specific devices",
    "runner plan",
    "skipped suite capability",
    "skipped test capability",
    "test case run configurations",
    "test timeout capability",
    "traits",
    "ubiquitous test identifiers",
    "unified issue recorded"]

  // The class objects come first, so their indices are fixed.
  const CONFIG_CLASS: nat := 1
  const UUID_CLASS: nat := 2
  const URL_CLASS: nat := 3
  const SET_CLASS: nat := 4
  const DICT_CLASS: nat := 5
  const CAPS_CLASS: nat := 6

  /** The indices of the objects the configuration refers to; 0 is `$null`. */
  datatype Uids = Uids(
    session: nat, bundleUrl: nat, moduleName: nat, testsToRun: nat, testsToSkip: nat, aggStats: nat,
    automationPath: nat, ideCaps: nat, appDeps: nat, targetBundle: nat, targetPath: nat)

  function Given(key: string, uid: nat): seq<Entry> {
    if uid == 0 then [] else [Entry(key, Uid(uid))]
  }

  /** The entries of the configuration object; optional ones only when there is an object. */
  function ConfigEntries(u: Uids, ui: bool): seq<Entry> {
    [Entry("$class", Uid(CONFIG_CLASS))] + SettingEntries(u, ui)
  }

  function SettingEntries(u: Uids, ui: bool): seq<Entry> {
    FixedEntries(u, ui)
    + Given("testsToRun", u.testsToRun)
    + Given("testsToSkip", u.testsToSkip)
    + Given("targetApplicationBundleID", u.targetBundle)
    + Given("targetApplicationPath", u.targetPath)
  }

  function FixedEntries(u: Uids, ui: bool): seq<Entry> {
    PathEntries(u) + LogEntries() + StartEntries(ui) + SessionEntries(u) + OrderEntries() + DriverEntries(u)
  }

  function PathEntries(u: Uids): seq<Entry> {
    [Entry("aggregateStatisticsBeforeCrash", Uid(u.aggStats)),
     Entry("automationFrameworkPath", Uid(u.automationPath)),
     Entry("baselineFileRelativePath", Uid(0)),
     Entry("baselineFileURL", Uid(0))]
  }

  function LogEntries(): seq<Entry> {
    [Entry("defaultTestExecutionTimeAllowance", Uid(0)),
     Entry("disablePerformanceMetrics", Boolean(false)),
     Entry("emitOSLogs", Boolean(false)),
     Entry("gatherLocalizableStringsData", Boolean(false))]
  }

  function StartEntries(ui: bool): seq<Entry> {
    [Entry("initializeForUITesting", Boolean(ui)),
     Entry("maximumTestExecutionTimeAllowance", Uid(0)),
     Entry("randomExecutionOrderingSeed", Uid(0)),
     Entry("reportActivities", Boolean(true)),
     Entry("reportResultsToIDE", Boolean(true))]
  }

  function SessionEntries(u: Uids): seq<Entry> {
    [Entry("sessionIdentifier", Uid(u.session)),
     Entry("systemAttachmentLifetime", Integer(2)),
     Entry("testApplicationUserOverrides", Uid(0)),
     Entry("testBundleRelativePath", Uid(0)),
     Entry("testBundleURL", Uid(u.bundleUrl))]
  }

  function OrderEntries(): seq<Entry> {
    [Entry("testExecutionOrdering", Integer(0)),
     Entry("testTimeoutsEnabled", Boolean(false)),
     Entry("testsDrivenByIDE", Boolean(false)),
     Entry("testsMustRunOnMainThread", Boolean(true)),
     Entry("treatMissingBaselinesAsFailures", Boolean(false))]
  }

  function DriverEntries(u: Uids): seq<Entry> {
    [Entry("userAttachmentLifetime", Integer(1)),
     Entry("preferredScreenCaptureFormat", Integer(2)),
     Entry("IDECapabilities", Uid(u.ideCaps)),
     Entry("productModuleName", Uid(u.moduleName)),
     Entry("testApplicationDependencies", Uid(u.appDeps))]
  }

  // ---- what an object is ----

  predicate IsString(t: seq<Plist>, u: nat, s: string) {
    u < |t| && t[u] == String(s)
  }

  /** Absent for the empty string, otherwise an object holding it. */
  predicate IsOptionalString(t: seq<Plist>, u: nat, s: string) {
    if s == "" then u == 0 else u > 0 && IsString(t, u, s)
  }

  predicate IsUrl(t: seq<Plist>, u: nat, url: string) {
    && u < |t| && t[u].Dict? && |t[u].entries| == 3
    && t[u].entries[0] == Entry("NS.base", Uid(0))
    && t[u].entries[1].key == "NS.relative" && t[u].entries[1].val.Uid?
    && IsString(t, t[u].entries[1].val.index, url)
    && t[u].entries[2] == Entry("$class", Uid(URL_CLASS))
  }

  /** A test filter: absent when empty, otherwise a set with the names inline. */
  predicate IsFilter(t: seq<Plist>, u: nat, names: seq<string>) {
    if names == [] then u == 0
    else
      0 < u < |t| && t[u] == Dict([Entry("NS.objects", Array(Strings(names))), Entry("$class", Uid(SET_CLASS))])
  }

  /** A dictionary object with these keys and values behind its references, in order. */
  ghost predicate IsDictionary(t: seq<Plist>, u: nat, keys: seq<Plist>, vals: seq<Plist>) {
    exists ks, vs ::
      && u < |t| && t[u] == DictObject(ks, vs, DICT_CLASS)
      && Behind(t, ks, keys) && Behind(t, vs, vals)
  }

  predicate Behind(t: seq<Plist>, uids: seq<nat>, vals: seq<Plist>) {
    |uids| == |vals| && forall i | 0 <= i < |uids| :: uids[i] < |t| && t[uids[i]] == vals[i]
  }

  ghost predicate IsCapabilities(t: seq<Plist>, u: nat) {
    exists d ::
      && u < |t| && t[u] == Dict([Entry("capabilities-dictionary", Uid(d)), Entry("$class", Uid(CAPS_CLASS))])
      && IsDictionary(t, d, Strings(CAPABILITIES) + [String("test iterations")],
           seq(|CAPABILITIES|, _ => Integer(1)) + [Integer(2)])
  }

  function Firsts(pairs: seq<(string, string)>): seq<string> {
    seq(|pairs|, i requires 0 <= i < |pairs| => pairs[i].0)
  }

  function Seconds(pairs: seq<(string, string)>): seq<string> {
    seq(|pairs|, i requires 0 <= i < |pairs| => pairs[i].1)
  }

  /** Each reference leads to the object that the arguments ask for. */
  ghost predicate Describes(t: seq<Plist>, u: Uids, a: Args) {
    && u.session < |t|
    && t[u.session] == Dict([Entry("NS.uuidbytes", Data(a.sessionId)), Entry("$class", Uid(UUID_CLASS))])
    && IsUrl(t, u.bundleUrl, "file://" + a.testBundlePath)
    && IsString(t, u.moduleName, a.productModuleName)
    && IsFilter(t, u.testsToRun, a.testsToRun)
    && IsFilter(t, u.testsToSkip, a.testsToSkip)
    && u.aggStats < |t|
    && t[u.aggStats] == Dict([Entry("XCSuiteRecordsKey", Dict([])), Entry("$class", Uid(DICT_CLASS))])
    && IsString(t, u.automationPath, AUTOMATION_PATH)
    && IsCapabilities(t, u.ideCaps)
    && IsDictionary(t, u.appDeps, Strings(Firsts(a.appDependencies)), Strings(Seconds(a.appDependencies)))
    && IsOptionalString(t, u.targetBundle, a.targetBundleId)
    && IsOptionalString(t, u.targetPath, a.targetPath)
  }

  lemma PushKeeps(t: seq<Plist>, v: Plist)
    requires BackRefs(t) && Earlier(v, |t|)
    ensures BackRefs(t + [v])
  {}

  /** Objects stay where they are as the table grows. */
  lemma DictionaryStays(t: seq<Plist>, more: seq<Plist>, u: nat, keys: seq<Plist>, vals: seq<Plist>)
    requires t <= more && IsDictionary(t, u, keys, vals)
    ensures IsDictionary(more, u, keys, vals)
  {
    var ks, vs :| u < |t| && t[u] == DictObject(ks, vs, DICT_CLASS) && Behind(t, ks, keys) && Behind(t, vs, vals);
    assert Behind(more, ks, keys) && Behind(more, vs, vals);
  }

  lemma CapabilitiesStay(t: seq<Plist>, more: seq<Plist>, u: nat)
    requires t <= more && IsCapabilities(t, u)
    ensures IsCapabilities(more, u)
  {
    hide IsDictionary, Strings;
    var d :| u < |t| && t[u] == Dict([Entry("capabilities-dictionary", Uid(d)), Entry("$class", Uid(CAPS_CLASS))])
      && IsDictionary(t, d, Strings(CAPABILITIES) + [String("test iterations")],
           seq(|CAPABILITIES|, _ => Integer(1)) + [Integer(2)]);
    DictionaryStays(t, more, d, Strings(CAPABILITIES) + [String("test iterations")],
      seq(|CAPABILITIES|, _ => Integer(1)) + [Integer(2)]);
  }

  // ---- pushing the parts ----

  method Push(table: ObjectTable, v: Plist) returns (uid: nat)
    requires BackRefs(table.objects) && Earlier(v, |table.objects|)
    modifies table
    ensures BackRefs(table.objects)
    ensures uid == |old(table.objects)| && table.objects == old(table.objects) + [v]
  {
    PushKeeps(table.objects, v);
    uid := table.PushVal(v);
  }

  method PushUrl(table: ObjectTable, url: string) returns (uid: nat)
    requires BackRefs(table.objects) && URL_CLASS < |table.objects|
    modifies table
    ensures BackRefs(table.objects) && old(table.objects) <= table.objects
    ensures IsUrl(table.objects, uid, url)
  {
    hide BackRefs;
    var str := Push(table, String(url));
    uid := Push(table, Dict([Entry("NS.base", Uid(0)), Entry("NS.relative", Uid(str)), Entry("$class", Uid(URL_CLASS))]));
  }

  method PushFilter(table: ObjectTable, names: seq<string>) returns (uid: nat)
    requires BackRefs(table.objects) && SET_CLASS < |table.objects|
    modifies table
    ensures BackRefs(table.objects) && old(table.objects) <= table.objects
    ensures IsFilter(table.objects, uid, names)
  {
    hide BackRefs;
    if names == [] {
      return 0;
    }
    uid := Push(table, Dict([Entry("NS.objects", Array(Strings(names))), Entry("$class", Uid(SET_CLASS))]));
  }

  method PushOptional(table: ObjectTable, s: string) returns (uid: nat)
    requires BackRefs(table.objects) && table.objects != []
    modifies table
    ensures BackRefs(table.objects) && old(table.objects) <= table.objects
    ensures IsOptionalString(table.objects, uid, s)
  {
    hide BackRefs;
    if s == "" {
      return 0;
    }
    uid := Push(table, String(s));
  }

  /** The keys of the capabilities with value 1, each paired with the object `one`. */
  method PushCapabilityKeys(table: ObjectTable, one: nat) returns (keys: seq<nat>, vals: seq<nat>)
    requires BackRefs(table.objects) && one < |table.objects| && table.objects[one] == Integer(1)
    modifies table
    ensures BackRefs(table.objects) && old(table.objects) <= table.objects
    ensures Behind(table.objects, keys, Strings(CAPABILITIES))
    ensures Behind(table.objects, vals, seq(|CAPABILITIES|, _ => Integer(1)))
  {
    hide BackRefs;
    keys, vals := [], [];
    for i := 0 to |CAPABILITIES|
      invariant BackRefs(table.objects) && old(table.objects) <= table.objects
      invariant |keys| == |vals| == i
      invariant Behind(table.objects, keys, Strings(CAPABILITIES[..i]))
      invariant Behind(table.objects, vals, seq(i, _ => Integer(1)))
    {
      var k := Push(table, String(CAPABILITIES[i]));
      keys, vals := keys + [k], vals + [one];
    }
    assert CAPABILITIES[..|CAPABILITIES|] == CAPABILITIES;
  }

  method PushCapabilities(table: ObjectTable) returns (uid: nat)
    requires BackRefs(table.objects) && CAPS_CLASS < |table.objects|
    modifies table
    ensures BackRefs(table.objects) && old(table.objects) <= table.objects
    ensures IsCapabilities(table.objects, uid)
  {
    hide BackRefs, Strings;
    var one := Push(table, Integer(1));
    var two := Push(table, Integer(2));
    var keys, vals := PushCapabilityKeys(table, one);
    var k := Push(table, String("test iterations"));
    keys, vals := keys + [k], vals + [two];
    ghost var ks, vs := Strings(CAPABILITIES) + [String("test iterations")],
      seq(|CAPABILITIES|, _ => Integer(1)) + [Integer(2)];
    assert Behind(table.objects, keys, ks) && Behind(table.objects, vals, vs);
    hide Behind;
    var d := PushDictionary(table, keys, vals, ks, vs);
    ghost var before := table.objects;
    uid := Push(table, Dict([Entry("capabilities-dictionary", Uid(d)), Entry("$class", Uid(CAPS_CLASS))]));
    DictionaryStays(before, table.objects, d, ks, vs);
  }

  method PushDictionary(table: ObjectTable, keys: seq<nat>, vals: seq<nat>, ghost ks: seq<Plist>, ghost vs: seq<Plist>)
    returns (uid: nat)
    requires BackRefs(table.objects) && DICT_CLASS < |table.objects|
    requires Behind(table.objects, keys, ks) && Behind(table.objects, vals, vs)
    modifies table
    ensures BackRefs(table.objects) && old(table.objects) < table.objects
    ensures uid < |table.objects| && IsDictionary(table.objects, uid, ks, vs)
  {
    hide BackRefs;
    DictEarlier(keys, vals, DICT_CLASS, |table.objects|);
    uid := Push(table, DictObject(keys, vals, DICT_CLASS));
    assert Behind(table.objects, keys, ks) && Behind(table.objects, vals, vs);
  }

  method PushDependencies(table: ObjectTable, deps: seq<(string, string)>) returns (uid: nat)
    requires BackRefs(table.objects) && DICT_CLASS < |table.objects|
    modifies table
    ensures BackRefs(table.objects) && old(table.objects) <= table.objects
    ensures uid < |table.objects| && IsDictionary(table.objects, uid, Strings(Firsts(deps)), Strings(Seconds(deps)))
  {
    hide BackRefs;
    var keys, vals := [], [];
    for i := 0 to |deps|
      invariant BackRefs(table.objects) && old(table.objects) <= table.objects
      invariant Behind(table.objects, keys, Strings(Firsts(deps[..i])))
      invariant Behind(table.objects, vals, Strings(Seconds(deps[..i])))
    {
      var k := Push(table, String(deps[i].0));
      var v := Push(table, String(deps[i].1));
      keys, vals := keys + [k], vals + [v];
    }
    assert deps[..|deps|] == deps;
    uid := PushDictionary(table, keys, vals, Strings(Firsts(deps)), Strings(Seconds(deps)));
  }

  // ---- the whole configuration ----

  method PushClassObject(table: ObjectTable, name: string, supers: seq<string>) returns (uid: nat)
    requires BackRefs(table.objects)
    modifies table
    ensures BackRefs(table.objects)
    ensures uid == |old(table.objects)| && table.objects == old(table.objects) + [ClassObject(name, supers)]
  {
    ClassEarlier(name, supers, |table.objects|);
    uid := Push(table, ClassObject(name, supers));
  }

  /** The class objects that the indices stand for. */
  predicate HasClasses(t: seq<Plist>) {
    && |t| >= 8
    && t[CONFIG_CLASS] == ClassObject("XCTestConfiguration", ["NSObject"])
    && t[UUID_CLASS] == ClassObject("NSUUID", ["NSObject"])
    && t[URL_CLASS] == ClassObject("NSURL", ["NSObject"])
    && t[SET_CLASS] == ClassObject("NSSet", ["NSObject"])
    && t[DICT_CLASS] == ClassObject("NSDictionary", ["NSObject"])
    && t[CAPS_CLASS] == ClassObject("XCTCapabilities", ["NSObject"])
    && t[7] == ClassObject("NSMutableArray", ["NSArray", "NSObject"])
  }

  /** Every object is of the class that its reader expects. */
  ghost predicate Classified(t: seq<Plist>, root: nat, u: Uids) {
    && IsInstance(t, root, "XCTestConfiguration", ["NSObject"])
    && IsInstance(t, u.session, "NSUUID", ["NSObject"])
    && IsInstance(t, u.bundleUrl, "NSURL", ["NSObject"])
    && (u.testsToRun != 0 ==> IsInstance(t, u.testsToRun, "NSSet", ["NSObject"]))
    && (u.testsToSkip != 0 ==> IsInstance(t, u.testsToSkip, "NSSet", ["NSObject"]))
    && IsInstance(t, u.aggStats, "NSDictionary", ["NSObject"])
    && IsInstance(t, u.appDeps, "NSDictionary", ["NSObject"])
    && IsInstance(t, u.ideCaps, "XCTCapabilities", ["NSObject"])
    && exists d ::
      t[u.ideCaps].entries[..1] == [Entry("capabilities-dictionary", Uid(d))]
      && IsInstance(t, d, "NSDictionary", ["NSObject"])
  }

  lemma DictionaryClass(t: seq<Plist>, u: nat, keys: seq<Plist>, vals: seq<Plist>)
    requires HasClasses(t) && IsDictionary(t, u, keys, vals)
    ensures IsInstance(t, u, "NSDictionary", ["NSObject"])
  {
    hide IsInstance, ClassObject, Behind;
    InstanceOf(t, u, 2, DICT_CLASS, "NSDictionary", ["NSObject"]);
  }

  lemma CapabilitiesClass(t: seq<Plist>, u: nat)
    requires HasClasses(t) && IsCapabilities(t, u)
    ensures IsInstance(t, u, "XCTCapabilities", ["NSObject"])
    ensures exists d ::
      t[u].entries[..1] == [Entry("capabilities-dictionary", Uid(d))] && IsInstance(t, d, "NSDictionary", ["NSObject"])
  {
    hide IsInstance, ClassObject, IsDictionary, Strings;
    InstanceOf(t, u, 1, CAPS_CLASS, "XCTCapabilities", ["NSObject"]);
    var keys := Strings(CAPABILITIES) + [String("test iterations")];
    var vals := seq(|CAPABILITIES|, _ => Integer(1)) + [Integer(2)];
    var d :| t[u] == Dict([Entry("capabilities-dictionary", Uid(d)), Entry("$class", Uid(CAPS_CLASS))])
      && IsDictionary(t, d, keys, vals);
    DictionaryClass(t, d, keys, vals);
    assert t[u].entries[..1] == [Entry("capabilities-dictionary", Uid(d))];
  }

  lemma ClassesFollow(t: seq<Plist>, root: nat, u: Uids, a: Args)
    requires HasClasses(t) && Describes(t, u, a)
    requires root < |t| && t[root] == Dict(ConfigEntries(u, a.initializeForUi))
    ensures Classified(t, root, u)
  {
    hide IsInstance, ClassObject, IsDictionary, IsCapabilities, Strings, SettingEntries;
    InstanceOf(t, root, 0, CONFIG_CLASS, "XCTestConfiguration", ["NSObject"]);
    InstanceOf(t, u.session, 1, UUID_CLASS, "NSUUID", ["NSObject"]);
    InstanceOf(t, u.bundleUrl, 2, URL_CLASS, "NSURL", ["NSObject"]);
    if u.testsToRun != 0 {
      InstanceOf(t, u.testsToRun, 1, SET_CLASS, "NSSet", ["NSObject"]);
    }
    if u.testsToSkip != 0 {
      InstanceOf(t, u.testsToSkip, 1, SET_CLASS, "NSSet", ["NSObject"]);
    }
    InstanceOf(t, u.aggStats, 1, DICT_CLASS, "NSDictionary", ["NSObject"]);
    DictionaryClass(t, u.appDeps, Strings(Firsts(a.appDependencies)), Strings(Seconds(a.appDependencies)));
    CapabilitiesClass(t, u.ideCaps);
  }

  method PushClasses(table: ObjectTable)
    requires table.objects == [NULL]
    modifies table
    ensures BackRefs(table.objects) && |table.objects| == 8 && table.objects[0] == NULL
    ensures HasClasses(table.objects)
  {
    hide ClassObject;
    var config := PushClassObject(table, "XCTestConfiguration", ["NSObject"]);
    hide BackRefs;
    var uuid := PushClassObject(table, "NSUUID", ["NSObject"]);
    var url := PushClassObject(table, "NSURL", ["NSObject"]);
    var set_ := PushClassObject(table, "NSSet", ["NSObject"]);
    var dict := PushClassObject(table, "NSDictionary", ["NSObject"]);
    var caps := PushClassObject(table, "XCTCapabilities", ["NSObject"]);
    var array_ := PushClassObject(table, "NSMutableArray", ["NSArray", "NSObject"]);
    assert config == CONFIG_CLASS && uuid == UUID_CLASS && url == URL_CLASS && set_ == SET_CLASS
      && dict == DICT_CLASS && caps == CAPS_CLASS;
  }

  /** The parts pushed first, which later objects leave in place. */
  ghost predicate FirstParts(t: seq<Plist>, u: Uids, a: Args) {
    && u.session < |t|
    && t[u.session] == Dict([Entry("NS.uuidbytes", Data(a.sessionId)), Entry("$class", Uid(UUID_CLASS))])
    && IsUrl(t, u.bundleUrl, "file://" + a.testBundlePath)
    && IsString(t, u.moduleName, a.productModuleName)
    && IsFilter(t, u.testsToRun, a.testsToRun)
    && IsFilter(t, u.testsToSkip, a.testsToSkip)
    && u.aggStats < |t|
    && t[u.aggStats] == Dict([Entry("XCSuiteRecordsKey", Dict([])), Entry("$class", Uid(DICT_CLASS))])
    && IsString(t, u.automationPath, AUTOMATION_PATH)
  }

  lemma FirstPartsStay(t: seq<Plist>, more: seq<Plist>, u: Uids, a: Args)
    requires FirstParts(t, u, a) && t <= more
    ensures FirstParts(more, u, a)
  {
    hide Strings;
  }

  method PushFirstParts(table: ObjectTable, a: Args) returns (u: Uids)
    requires BackRefs(table.objects) && |table.objects| == 8
    modifies table
    ensures BackRefs(table.objects) && old(table.objects) <= table.objects
    ensures FirstParts(table.objects, u, a)
  {
    hide BackRefs, Strings, Behind, IsOptionalString, AUTOMATION_PATH, CAPABILITIES;
    var session := Push(table, Dict([Entry("NS.uuidbytes", Data(a.sessionId)), Entry("$class", Uid(UUID_CLASS))]));
    var bundleUrl := PushUrl(table, "file://" + a.testBundlePath);
    var moduleName := Push(table, String(a.productModuleName));
    var testsToRun := PushFilter(table, a.testsToRun);
    var testsToSkip := PushFilter(table, a.testsToSkip);
    var aggStats := Push(table, Dict([Entry("XCSuiteRecordsKey", Dict([])), Entry("$class", Uid(DICT_CLASS))]));
    var automationPath := Push(table, String(AUTOMATION_PATH));
    u := Uids(session, bundleUrl, moduleName, testsToRun, testsToSkip, aggStats, automationPath, 0, 0, 0, 0);
  }

  predicate Below(u: Uids, n: nat) {
    && u.session < n && u.bundleUrl < n && u.moduleName < n && u.testsToRun < n && u.testsToSkip < n
    && u.aggStats < n && u.automationPath < n && u.ideCaps < n && u.appDeps < n
    && u.targetBundle < n && u.targetPath < n
  }

  lemma DescribedBelow(t: seq<Plist>, u: Uids, a: Args)
    requires t != [] && Describes(t, u, a)
    ensures Below(u, |t|)
  {
    hide Strings, DictObject;
  }

  lemma EarlierConcat(d: seq<Entry>, e: seq<Entry>, k: nat)
    requires Earlier(Dict(d), k) && Earlier(Dict(e), k)
    ensures Earlier(Dict(d + e), k)
  {}

  lemma ClassFirst(u: Uids, ui: bool, n: nat)
    requires n >= 8 && Earlier(Dict(SettingEntries(u, ui)), n)
    ensures Earlier(Dict(ConfigEntries(u, ui)), n)
  {
    hide SettingEntries;
    EarlierConcat([Entry("$class", Uid(CONFIG_CLASS))], SettingEntries(u, ui), n);
  }

  lemma GivenEarlier(key: string, uid: nat, n: nat)
    requires uid < n
    ensures Earlier(Dict(Given(key, uid)), n)
  {}

  lemma PartsEarlier(u: Uids, ui: bool, n: nat)
    requires n >= 8 && Below(u, n)
    ensures Earlier(Dict(PathEntries(u)), n) && Earlier(Dict(LogEntries()), n)
    ensures Earlier(Dict(StartEntries(ui)), n) && Earlier(Dict(SessionEntries(u)), n)
    ensures Earlier(Dict(OrderEntries()), n) && Earlier(Dict(DriverEntries(u)), n)
  {
    hide AUTOMATION_PATH, CAPABILITIES;
  }

  lemma FixedEarlier(u: Uids, ui: bool, n: nat)
    requires n >= 8 && Below(u, n)
    ensures Earlier(Dict(FixedEntries(u, ui)), n)
  {
    PartsEarlier(u, ui, n);
    hide PathEntries, LogEntries, StartEntries, SessionEntries, OrderEntries, DriverEntries, Earlier;
    var a, b, c := PathEntries(u), LogEntries(), StartEntries(ui);
    var d, e, f := SessionEntries(u), OrderEntries(), DriverEntries(u);
    EarlierConcat(a, b, n);
    EarlierConcat(a + b, c, n);
    EarlierConcat(a + b + c, d, n);
    EarlierConcat(a + b + c + d, e, n);
    EarlierConcat(a + b + c + d + e, f, n);
  }

  lemma EntriesEarlier(u: Uids, ui: bool, n: nat)
    requires n >= 8 && Below(u, n)
    ensures Earlier(Dict(ConfigEntries(u, ui)), n)
  {
    var a := FixedEntries(u, ui);
    FixedEarlier(u, ui, n);
    hide FixedEntries, Given, Earlier;
    GivenEarlier("testsToRun", u.testsToRun, n);
    GivenEarlier("testsToSkip", u.testsToSkip, n);
    GivenEarlier("targetApplicationBundleID", u.targetBundle, n);
    GivenEarlier("targetApplicationPath", u.targetPath, n);
    var d, e := Given("testsToRun", u.testsToRun), Given("testsToSkip", u.testsToSkip);
    var f, g := Given("targetApplicationBundleID", u.targetBundle), Given("targetApplicationPath", u.targetPath);
    EarlierConcat(a, d, n);
    EarlierConcat(a + d, e, n);
    EarlierConcat(a + d + e, f, n);
    EarlierConcat(a + d + e + f, g, n);
    ClassFirst(u, ui, n);
  }

  /**
   * Builds the archive: every object refers only to earlier ones, and the
   * configuration is the last object, its references leading to what the
   * arguments ask for.
   */
  method BuildConfiguration(a: Args) returns (table: ObjectTable, root: nat)
    ensures BackRefs(table.objects) && |table.objects| == root + 1 && table.objects[0] == NULL
    ensures exists u: Uids ::
      && table.objects[root] == Dict(ConfigEntries(u, a.initializeForUi)) && Describes(table.objects, u, a)
      && Classified(table.objects, root, u)
  {
    hide BackRefs, ConfigEntries, FirstParts, IsDictionary, IsCapabilities, Strings, Firsts, Seconds, Describes, Below,
         Earlier, Classified, HasClasses;
    table := new ObjectTable();
    PushClasses(table);
    ghost var t0 := table.objects;
    var first := PushFirstParts(table, a);
    ghost var t1 := table.objects;
    var ideCaps := PushCapabilities(table);
    ghost var t2 := table.objects;
    var appDeps := PushDependencies(table, a.appDependencies);
    ghost var t3 := table.objects;
    var targetBundle := PushOptional(table, a.targetBundleId);
    var targetPath := PushOptional(table, a.targetPath);
    var u := first.(ideCaps := ideCaps, appDeps := appDeps, targetBundle := targetBundle, targetPath := targetPath);
    ghost var t4 := table.objects;
    PartsDescribe(t1, t2, t3, t4, t4, first, u, a);
    DescribedBelow(t4, u, a);
    EntriesEarlier(u, a.initializeForUi, |t4|);
    root := Push(table, Dict(ConfigEntries(u, a.initializeForUi)));
    PartsDescribe(t1, t2, t3, t4, table.objects, first, u, a);
    ClassesStay(t0, table.objects);
    ClassesFollow(table.objects, root, u, a);
  }

  lemma ClassesStay(t: seq<Plist>, more: seq<Plist>)
    requires HasClasses(t) && t <= more
    ensures HasClasses(more)
  {
    hide ClassObject;
  }

  lemma PartsDescribe(
      t1: seq<Plist>, t2: seq<Plist>, t3: seq<Plist>, t4: seq<Plist>, t: seq<Plist>, first: Uids, u: Uids, a: Args)
    requires t1 <= t2 <= t3 <= t4 <= t && FirstParts(t1, first, a)
    requires u == first.(
      ideCaps := u.ideCaps, appDeps := u.appDeps, targetBundle := u.targetBundle, targetPath := u.targetPath)
    requires IsCapabilities(t2, u.ideCaps)
    requires IsDictionary(t3, u.appDeps, Strings(Firsts(a.appDependencies)), Strings(Seconds(a.appDependencies)))
    requires IsOptionalString(t4, u.targetBundle, a.targetBundleId) && IsOptionalString(t4, u.targetPath, a.targetPath)
    ensures Describes(t, u, a)
  {
    hide IsCapabilities, IsDictionary, Strings, Firsts, Seconds;
    FirstPartsStay(t1, t, first, a);
    CapabilitiesStay(t2, t, u.ideCaps);
    DictionaryStays(t3, t, u.appDeps, Strings(Firsts(a.appDependencies)), Strings(Seconds(a.appDependencies)));
  }
}
