/**
 What migration finds and what it leaves, said of the config's own keys: each finding is reported
 exactly for the config it is about, and a migrated config holds what the loader accepts.
 */
module MigrateLaws {
  import opened Texts
  import opened Wrappers
  import opened Migrate

  // ------------------------------------------------------------------ keys of a document

  /** The value of a key in a top-level table. */
  function Entry(doc: Fields, section: string, key: string): Option<Value> {
    if section in doc && doc[section].Table? && key in doc[section].fields then Some(doc[section].fields[key]) else None
  }

  /** The items of a list of the document, read as texts. */
  function Listed(env: Env, doc: Fields, section: string, key: string): seq<string> {
    match Entry(doc, section, key)
    case None => []
    case Some(v) => Items(env, v)
  }

  /** The background names configured for one system; none when only the system's key is absent. */
  function Background(env: Env, doc: Fields, os: string): seq<string> {
    match Entry(doc, "process_detection", "background_process_names")
    case Some(Table(fields)) => if os in fields then Items(env, fields[os]) else []
    case _ => []
  }

  const NAMES := ["codex.exe", "codex", "codex-app-server"]

  const MARKERS: map<string, seq<string>> := map[
    "windows" := ["codex-windows-sandbox", "codex-windows-sandbox-setup", "codex-command-runner"],
    "macos" := ["ChatGPT.app/Contents/MacOS/", "codex-app-server", "codex-execve-wrapper", "codex-code-mode-host"],
    "linux" := ["/usr/lib/chatgpt/", "codex-app-server", "codex-linux-sandbox", "codex-execve-wrapper", "codex-code-mode-host"]]

  const BINARIES := ["plugins/.plugin-appserver/**", "plugins/.remote-plugin-install-staging/**"]

  /** Some name of `wanted` is in no item of the list, whatever its case and the space around it. */
  predicate Misses(env: Env, configured: seq<string>, wanted: seq<string>) {
    exists n | n in wanted ::
      forall k | 0 <= k < |configured| :: Strip(configured[k]) == "" || env.fold(Strip(configured[k])) != env.fold(n)
  }

  predicate IsNumber(v: Value) { v.Int? || v.Float? }

  /** An old period in minutes that nothing has replaced. */
  predicate OldPeriod(doc: Fields) {
    && Entry(doc, "scheduler", "interval_minutes").Some? && IsNumber(Entry(doc, "scheduler", "interval_minutes").value)
    && Entry(doc, "scheduler", "interval_seconds") == None
  }

  /** What a finding of the code says of the document. */
  predicate Outdated(env: Env, doc: Fields, defaults: bool, c: Code) {
    match c
    case TerminateFlagSet => Entry(doc, "process_detection", "allow_terminate_if_running") == Some(Bool(true))
    case BackupDisabled => Entry(doc, "backup", "backup_before_overwrite") == Some(Bool(false))
    case SessionModeLastDate =>
      && Entry(doc, "sync", "session_mode").Some?
      && Lower(Strip(env.text(Entry(doc, "sync", "session_mode").value))) == "last_date_only"
    case SchedulerIntervalTooShort =>
      && Entry(doc, "scheduler", "interval_seconds").Some? && Entry(doc, "scheduler", "interval_seconds").value.Int?
      && 0 < Entry(doc, "scheduler", "interval_seconds").value.n < 300
    case DetectionListOutdated =>
      || (Entry(doc, "process_detection", "process_names").Some? && Misses(env, Listed(env, doc, "process_detection", "process_names"), NAMES))
      || (&& Entry(doc, "process_detection", "background_process_names").Some?
          && Entry(doc, "process_detection", "background_process_names").value.Table?
          && exists os | os in MARKERS :: Misses(env, Background(env, doc, os), MARKERS[os]))
    case MissingExcludeSkillsSystem =>
      Entry(doc, "filters", "exclude_globs").Some? && "skills/.system/**" !in Listed(env, doc, "filters", "exclude_globs")
    case MissingExcludeCodexBinaries =>
      Entry(doc, "filters", "exclude_globs").Some? && exists g | g in BINARIES :: g !in Listed(env, doc, "filters", "exclude_globs")
    case ObsoleteIncludeRoot =>
      exists root | root in Listed(env, doc, "targets", "include_roots") :: Owned(root) && root !in env.template
    case SchedulerIntervalMigrated => OldPeriod(doc)
    case LegacySchedulerKeys =>
      Entry(doc, "scheduler", "kind").Some? || (Entry(doc, "scheduler", "interval_minutes").Some? && !OldPeriod(doc))
    case SectionAbsentGuardian => defaults && "guardian" !in doc
    case SectionAbsentSemantic => defaults && "semantic" !in doc
  }

  // ------------------------------------------------------------------ exactly what is found

  lemma EntryIs(doc: Fields, section: string, key: string)
    ensures Entry(doc, section, key) == if key in TableIn(doc, section) then Some(TableIn(doc, section)[key]) else None
  {
  }

  lemma ListedIs(env: Env, doc: Fields, section: string, key: string)
    ensures Listed(env, doc, section, key) == ItemsAt(env, TableIn(doc, section), key)
  {
  }

  lemma MissesIs(env: Env, configured: seq<string>, wanted: seq<string>)
    ensures NotKnown(env, configured, wanted) != [] <==> Misses(env, configured, wanted)
  {
    NotKnownIs(env, configured, wanted);
    assert forall n :: Knows(env, configured, n) <==>
      !(forall k | 0 <= k < |configured| :: Strip(configured[k]) == "" || env.fold(Strip(configured[k])) != env.fold(n));
  }

  lemma MarkersMissed(env: Env, doc: Fields, os: string)
    requires os in MARKERS
    ensures var t := TableIn(doc, "process_detection");
      MarkersMissing(env, t, os, MARKERS[os]) != [] <==>
      && Entry(doc, "process_detection", "background_process_names").Some?
      && Entry(doc, "process_detection", "background_process_names").value.Table?
      && Misses(env, Background(env, doc, os), MARKERS[os])
  {
    hide Misses, NotKnown, Items;
    EntryIs(doc, "process_detection", "background_process_names");
    MissesIs(env, Background(env, doc, os), MARKERS[os]);
  }

  lemma DetectionFound(env: Env, doc: Fields, defaults: bool)
    ensures Reports(env, doc, defaults, DetectionListOutdated) <==> Outdated(env, doc, defaults, DetectionListOutdated)
  {
    hide Misses, NotKnown, Items, MarkersMissing, NamesMissing, Entry, Listed, Background;
    var t := TableIn(doc, "process_detection");
    NamesMissed(env, doc);
    MarkersMissed(env, doc, "windows");
    MarkersMissed(env, doc, "macos");
    MarkersMissed(env, doc, "linux");
    DetectionEditsEmpty(env, t);
  }

  lemma NamesMissed(env: Env, doc: Fields)
    ensures NamesMissing(env, TableIn(doc, "process_detection")) != [] <==>
      Entry(doc, "process_detection", "process_names").Some? && Misses(env, Listed(env, doc, "process_detection", "process_names"), NAMES)
  {
    hide Misses, NotKnown, Items;
    EntryIs(doc, "process_detection", "process_names");
    ListedIs(env, doc, "process_detection", "process_names");
    MissesIs(env, Listed(env, doc, "process_detection", "process_names"), NAMES);
  }

  lemma DetectionEditsEmpty(env: Env, t: Fields)
    ensures DetectionEdits(env, t) == [] <==>
      && NamesMissing(env, t) == [] && MarkersMissing(env, t, "windows", WINDOWS_MARKERS) == []
      && MarkersMissing(env, t, "macos", MACOS_MARKERS) == [] && MarkersMissing(env, t, "linux", LINUX_MARKERS) == []
  {
    hide NamesMissing, MarkersMissing;
  }

  lemma GlobsFound(env: Env, doc: Fields, defaults: bool)
    ensures Reports(env, doc, defaults, MissingExcludeSkillsSystem) <==> Outdated(env, doc, defaults, MissingExcludeSkillsSystem)
    ensures Reports(env, doc, defaults, MissingExcludeCodexBinaries) <==> Outdated(env, doc, defaults, MissingExcludeCodexBinaries)
  {
    hide NotIn, Items, Entry, Listed;
    EntryIs(doc, "filters", "exclude_globs");
    ListedIs(env, doc, "filters", "exclude_globs");
    var globs := Listed(env, doc, "filters", "exclude_globs");
    NotInIs(globs, BINARIES);
    NotInSome(globs, BINARIES);
  }

  lemma NotInSome(a: seq<string>, names: seq<string>)
    ensures NotIn(a, names) != [] <==> exists g | g in names :: g !in a
  {
    NotInIs(a, names);
    if NotIn(a, names) != [] { assert NotIn(a, names)[0] in NotIn(a, names); }
  }

  lemma RootsFound(env: Env, doc: Fields, defaults: bool)
    ensures Reports(env, doc, defaults, ObsoleteIncludeRoot) <==> Outdated(env, doc, defaults, ObsoleteIncludeRoot)
  {
    hide Obsolete, Owned, Items, Listed;
    ListedIs(env, doc, "targets", "include_roots");
    var roots := Listed(env, doc, "targets", "include_roots");
    ObsoleteIs(env, roots);
    if Obsolete(env, roots) != [] { assert Obsolete(env, roots)[0] in Obsolete(env, roots); }
  }

  lemma SchedulerFound(env: Env, doc: Fields, defaults: bool, c: Code)
    requires c == SchedulerIntervalTooShort || c == SchedulerIntervalMigrated || c == LegacySchedulerKeys
    ensures Reports(env, doc, defaults, c) <==> Outdated(env, doc, defaults, c)
  {
    hide Entry;
    EntryIs(doc, "scheduler", "interval_seconds");
    EntryIs(doc, "scheduler", "interval_minutes");
    EntryIs(doc, "scheduler", "kind");
  }

  lemma FlagsFound(env: Env, doc: Fields, defaults: bool, c: Code)
    requires c == TerminateFlagSet || c == BackupDisabled || c == SessionModeLastDate || IsAbsence(c)
    ensures Reports(env, doc, defaults, c) <==> Outdated(env, doc, defaults, c)
  {
    hide Entry;
    EntryIs(doc, "process_detection", "allow_terminate_if_running");
    EntryIs(doc, "backup", "backup_before_overwrite");
    EntryIs(doc, "sync", "session_mode");
  }

  lemma ReportsMeans(env: Env, doc: Fields, defaults: bool, c: Code)
    ensures Reports(env, doc, defaults, c) <==> Outdated(env, doc, defaults, c)
  {
    hide Reports, Outdated;
    match c
    case DetectionListOutdated => DetectionFound(env, doc, defaults);
    case MissingExcludeSkillsSystem => GlobsFound(env, doc, defaults);
    case MissingExcludeCodexBinaries => GlobsFound(env, doc, defaults);
    case ObsoleteIncludeRoot => RootsFound(env, doc, defaults);
    case SchedulerIntervalTooShort => SchedulerFound(env, doc, defaults, c);
    case SchedulerIntervalMigrated => SchedulerFound(env, doc, defaults, c);
    case LegacySchedulerKeys => SchedulerFound(env, doc, defaults, c);
    case _ => FlagsFound(env, doc, defaults, c);
  }

  /** A code is found exactly when the document is outdated in the way it names, and then once. */
  lemma FoundExactly(env: Env, doc: Fields, defaults: bool, c: Code)
    ensures (exists k :: 0 <= k < |Findings(env, doc, defaults)| && Findings(env, doc, defaults)[k].code == c) <==> Outdated(env, doc, defaults, c)
    ensures forall j, k | 0 <= j < k < |Findings(env, doc, defaults)| ::
      Rank(Findings(env, doc, defaults)[j].code) < Rank(Findings(env, doc, defaults)[k].code)
  {
    hide Reports, Outdated, EditsFor, Collect, Rank;
    ReportsMeans(env, doc, defaults, c);
    InOrder();
    CollectElements(env, doc, defaults, RANKED);
    CollectAscending(env, doc, defaults, RANKED);
    var found := Findings(env, doc, defaults);
    if Reports(env, doc, defaults, c) {
      assert FindingOf(env, doc, c) in found;
      var k :| 0 <= k < |found| && found[k] == FindingOf(env, doc, c);
      assert found[k].code == c;
    }
    if k :| 0 <= k < |found| && found[k].code == c { assert found[k] in found; }
  }

  // ------------------------------------------------------------------ what is left

  /** Nothing that migration looks for and can settle is left. */
  lemma NothingOutdatedIsLeft(env: Env, doc: Fields, defaults: bool, out: Fields, c: Code)
    requires Sensible(env) && Rendered(doc, Findings(env, doc, defaults), {}) == Some(out) && !IsAbsence(c)
    ensures !Outdated(env, out, defaults, c)
  {
    hide Reports, Outdated, EditsFor, Collect, Rendered;
    NothingFixableRemains(env, doc, defaults, out);
    ReportsMeans(env, out, defaults, c);
    ReportedIsFixable(env, out, defaults, c);
    CollectElements(env, out, defaults, RANKED);
    InOrder();
    assert Reports(env, out, defaults, c) ==> FindingOf(env, out, c) in Findings(env, out, defaults);
  }

  lemma ReportedIsFixable(env: Env, doc: Fields, defaults: bool, c: Code)
    requires !IsAbsence(c)
    ensures Reports(env, doc, defaults, c) ==> Fixable(FindingOf(env, doc, c))
  {
    hide EditsFor;
  }

  // ------------------------------------------------------------------ what the edits leave at their keys

  lemma EntryLookup(doc: Fields, section: string, key: string)
    ensures Entry(doc, section, key) == Lookup(doc, [section, key])
  {
    assert [section, key][1..] == [key];
  }

  /** The edits a finding of the code makes in this document. */
  function EditsOf(env: Env, doc: Fields, c: Code): seq<Edit> { FindingOf(env, doc, c).edits }

  lemma UnnamedBy(env: Env, doc: Fields, defaults: bool, codes: seq<Code>, skip: set<Code>, p: seq<string>)
    requires forall e, edit | e in codes && edit in EditsOf(env, doc, e) :: !Related(p, PathOf(edit))
    ensures Unnamed(Collect(env, doc, defaults, codes), skip, p)
  {
    hide Reports, EditsFor, Collect, Related;
    CollectElements(env, doc, defaults, codes);
    var found := Collect(env, doc, defaults, codes);
    forall k, edit | 0 <= k < |found| && found[k].code !in skip && edit in found[k].edits
      ensures !Related(p, PathOf(edit))
    {
      assert found[k] in found;
      assert edit in EditsOf(env, doc, found[k].code);
    }
  }

  /** Where only the edits of one finding name a key, they alone decide what is there in the end. */
  lemma OnlyThatFinding(env: Env, doc: Fields, defaults: bool, skip: set<Code>, out: Fields, c: Code, p: seq<string>) returns (d: Fields)
    requires p != [] && Rendered(doc, Findings(env, doc, defaults), skip) == Some(out)
    requires c !in skip && Reports(env, doc, defaults, c)
    requires forall e, edit | e != c && edit in EditsOf(env, doc, e) :: !Related(p, PathOf(edit))
    ensures Lookup(d, p) == Lookup(doc, p)
    ensures ApplyAll(d, EditsOf(env, doc, c)).Some? && Lookup(out, p) == Lookup(ApplyAll(d, EditsOf(env, doc, c)).value, p)
  {
    hide *;
    PlaceOf(c);
    var a, b := RANKED[..Rank(c)], RANKED[Rank(c) + 1..];
    FindingsIs(env, doc, defaults);
    CollectConcat(env, doc, defaults, a, [c] + b);
    CollectConcat(env, doc, defaults, [c], b);
    var fa, fb := Collect(env, doc, defaults, a), Collect(env, doc, defaults, b);
    RenderedConcat(doc, fa, Collect(env, doc, defaults, [c] + b), skip);
    d := Rendered(doc, fa, skip).value;
    UnnamedBy(env, doc, defaults, a, skip, p);
    UnnamedStays(doc, fa, skip, p);
    OneCode(env, doc, defaults, c, d, fb, skip);
    UnnamedBy(env, doc, defaults, b, skip, p);
    UnnamedStays(ApplyAll(d, EditsOf(env, doc, c)).value, fb, skip, p);
  }

  lemma PlaceOf(c: Code)
    ensures Rank(c) < |RANKED| && RANKED == RANKED[..Rank(c)] + ([c] + RANKED[Rank(c) + 1..])
    ensures c !in RANKED[..Rank(c)] && c !in RANKED[Rank(c) + 1..]
  {
    RankedAt(c);
    InOrder();
    hide Rank;
    Around(RANKED, Rank(c));
  }

  lemma Around(codes: seq<Code>, r: nat)
    requires r < |codes| && forall j, k | 0 <= j < k < |codes| :: Rank(codes[j]) < Rank(codes[k])
    ensures codes == codes[..r] + ([codes[r]] + codes[r + 1..])
    ensures codes[r] !in codes[..r] && codes[r] !in codes[r + 1..]
  {
    hide Rank;
  }

  lemma RankedAt(c: Code)
    ensures Rank(c) < |RANKED| && RANKED[Rank(c)] == c
  {
  }

  lemma OneCode(env: Env, doc: Fields, defaults: bool, c: Code, d: Fields, rest: seq<Finding>, skip: set<Code>)
    requires Reports(env, doc, defaults, c) && c !in skip
    requires Rendered(d, Collect(env, doc, defaults, [c]) + rest, skip).Some?
    ensures ApplyAll(d, EditsOf(env, doc, c)).Some?
    ensures Rendered(d, Collect(env, doc, defaults, [c]) + rest, skip) == Rendered(ApplyAll(d, EditsOf(env, doc, c)).value, rest, skip)
  {
    hide Reports, EditsFor, ApplyAll;
    var f := FindingOf(env, doc, c);
    assert [c][1..] == [];
    assert Collect(env, doc, defaults, [c]) == [f] + [];
    assert ([f] + rest)[1..] == rest && ([f] + []) + rest == [f] + rest;
  }

  /** Edits in other sections name nothing in this one. */
  lemma OtherSection(env: Env, doc: Fields, e: Code, p: seq<string>)
    requires p != [] && p[0] != Section(e)
    ensures forall edit | edit in EditsOf(env, doc, e) :: !Related(p, PathOf(edit))
  {
    hide EditsFor;
    EditsAreInSection(env, e, TableIn(doc, Section(e)));
  }

  lemma SetThere(d: Fields, e: Edit, v: Value)
    requires e.inner == [] && e.op == SetTo(v)
    ensures ApplyAll(d, [e]).Some? && Lookup(ApplyAll(d, [e]).value, [e.section, e.key]) == Some(v)
  {
    hide Lookup, Apply, Entry;
    assert [e][1..] == [];
    ApplyIsIn(d, e);
    var after := Apply(d, e).value;
    EntryIs(after, e.section, e.key);
    EntryLookup(after, e.section, e.key);
  }

  /** The paths of edits right in a section, and of those one table below it. */
  lemma Paths(e: Edit)
    ensures e.inner == [] ==> PathOf(e) == [e.section, e.key]
    ensures |e.inner| == 1 ==> PathOf(e) == [e.section, e.inner[0], e.key]
    ensures forall a, b: string | e.inner == [] :: Related([a, b], PathOf(e)) <==> a == e.section && b == e.key
    ensures forall a, b: string | |e.inner| == 1 :: Related([a, b], PathOf(e)) <==> a == e.section && b == e.inner[0]
  {
    hide Related;
    if |e.inner| == 1 { assert e.inner == [e.inner[0]]; }
    forall a, b: string
      ensures e.inner == [] ==> (Related([a, b], PathOf(e)) <==> a == e.section && b == e.key)
      ensures |e.inner| == 1 ==> (Related([a, b], PathOf(e)) <==> a == e.section && b == e.inner[0])
    {
      if e.inner == [] {
        assert PathOf(e) == [e.section, e.key];
        TwoRelated(a, b, e.section, e.key);
      } else if |e.inner| == 1 {
        assert PathOf(e) == [e.section, e.inner[0], e.key];
        ThreeRelated(a, b, e.section, e.inner[0], e.key);
      }
    }
  }

  lemma TwoRelated(a: string, b: string, x: string, y: string)
    ensures Related([a, b], [x, y]) <==> a == x && b == y
  {
    assert [a, b] <= [x, y] ==> [a, b] == [x, y][..2] == [x, y];
    assert [x, y] <= [a, b] ==> [x, y] == [a, b][..2] == [a, b];
    assert [a, b][0] == a && [a, b][1] == b && [x, y][0] == x && [x, y][1] == y;
  }

  lemma ThreeRelated(a: string, b: string, x: string, y: string, z: string)
    ensures Related([a, b], [x, y, z]) <==> a == x && b == y
  {
    assert [a, b] <= [x, y, z] ==> [a, b] == [x, y, z][..2] == [x, y];
    assert [a, b][0] == a && [a, b][1] == b && [x, y][0] == x && [x, y][1] == y;
    assert [x, y] == [x, y, z][..2];
  }

  /** The value a code's only edit sets. */
  function Sets(c: Code): Option<(string, Value)> {
    match c
    case TerminateFlagSet => Some(("allow_terminate_if_running", Bool(false)))
    case BackupDisabled => Some(("backup_before_overwrite", Bool(true)))
    case SessionModeLastDate => Some(("session_mode", Str("all")))
    case SchedulerIntervalTooShort => Some(("interval_seconds", Int(300)))
    case _ => None
  }

  lemma OneEdit(env: Env, doc: Fields, defaults: bool, c: Code)
    requires Sets(c).Some? && Reports(env, doc, defaults, c)
    ensures EditsOf(env, doc, c) == [Edit(Section(c), [], Sets(c).value.0, SetTo(Sets(c).value.1))]
  {
  }

  /** Only its own finding names the key a blocking finding sets. */
  lemma OnlyItself(env: Env, doc: Fields, defaults: bool, c: Code, e: Code)
    requires Sets(c).Some? && Outdated(env, doc, defaults, c) && e != c
    ensures forall edit | edit in EditsOf(env, doc, e) :: !Related([Section(c), Sets(c).value.0], PathOf(edit))
  {
    hide *;
    var p := [Section(c), Sets(c).value.0];
    if Section(e) != Section(c) {
      OtherSection(env, doc, e, p);
    } else {
      forall edit | edit in EditsOf(env, doc, e)
        ensures !Related(p, PathOf(edit))
      {
        Paths(edit);
        ElsewhereInSection(env, doc, defaults, c, e, edit);
        BackgroundIsNoKey(c);
      }
    }
  }

  lemma BackgroundIsNoKey(c: Code)
    ensures Sets(c).Some? ==> Sets(c).value.0 != BACKGROUND
  {
  }

  lemma ElsewhereInSection(env: Env, doc: Fields, defaults: bool, c: Code, e: Code, edit: Edit)
    requires Sets(c).Some? && Outdated(env, doc, defaults, c) && e != c && Section(e) == Section(c) && edit in EditsOf(env, doc, e)
    ensures (edit.inner == [] && edit.key != Sets(c).value.0) || edit.inner == [BACKGROUND]
  {
    SectionMates(c, e);
    if c == TerminateFlagSet {
      hide DetectionEdits, Outdated, Entry, TableIn;
      DetectionKeys(env, TableIn(doc, "process_detection"), edit);
    } else {
      hide Outdated, EditsFor, Entry, TableIn;
      SchedulerKeys(env, doc, defaults, e, edit);
    }
  }

  lemma SectionMates(c: Code, e: Code)
    requires Sets(c).Some? && e != c && Section(e) == Section(c)
    ensures (c == TerminateFlagSet && e == DetectionListOutdated)
         || (c == SchedulerIntervalTooShort && (e == SchedulerIntervalMigrated || e == LegacySchedulerKeys))
  {
  }

  lemma SchedulerKeys(env: Env, doc: Fields, defaults: bool, e: Code, edit: Edit)
    requires Outdated(env, doc, defaults, SchedulerIntervalTooShort)
    requires (e == SchedulerIntervalMigrated || e == LegacySchedulerKeys) && edit in EditsOf(env, doc, e)
    ensures edit.inner == [] && edit.key != "interval_seconds"
  {
    hide Entry, TableIn;
    EntryIs(doc, "scheduler", "interval_seconds");
  }

  lemma DetectionKeys(env: Env, t: Fields, edit: Edit)
    requires edit in DetectionEdits(env, t)
    ensures (edit.inner == [] && edit.key == "process_names") || edit.inner == [BACKGROUND]
  {
    hide NamesMissing, MarkersMissing;
  }

  /** A migrated document holds the accepted value at every key a blocking finding is about. */
  lemma BlockersAreSet(env: Env, doc: Fields, defaults: bool, skip: set<Code>, out: Fields, c: Code)
    requires Rendered(doc, Findings(env, doc, defaults), skip) == Some(out) && c !in skip
    requires Outdated(env, doc, defaults, c)
    ensures c == TerminateFlagSet ==> Entry(out, "process_detection", "allow_terminate_if_running") == Some(Bool(false))
    ensures c == BackupDisabled ==> Entry(out, "backup", "backup_before_overwrite") == Some(Bool(true))
    ensures c == SessionModeLastDate ==> Entry(out, "sync", "session_mode") == Some(Str("all"))
    ensures c == SchedulerIntervalTooShort ==> Entry(out, "scheduler", "interval_seconds") == Some(Int(300))
  {
    hide Reports, Outdated, EditsFor, Findings, Rendered, Entry, Lookup, ApplyAll, Related;
    if Sets(c).Some? {
      var p := [Section(c), Sets(c).value.0];
      ReportsMeans(env, doc, defaults, c);
      forall e | e != c
        ensures forall edit | edit in EditsOf(env, doc, e) :: !Related(p, PathOf(edit))
      {
        OnlyItself(env, doc, defaults, c, e);
      }
      var d := OnlyThatFinding(env, doc, defaults, skip, out, c, p);
      OneEdit(env, doc, defaults, c);
      SetThere(d, EditsOf(env, doc, c)[0], Sets(c).value.1);
      EntryLookup(out, Section(c), Sets(c).value.0);
    }
  }

  // ------------------------------------------------------------------ lists

  /** The edit appends to the list at `p`, and only what `allowed` holds. */
  predicate AppendsTo(e: Edit, p: seq<string>, allowed: set<string>) {
    PathOf(e) == p && e.op.Append? && forall s | s in e.op.items :: s in allowed
  }

  /** `after` begins with all of `before`, and what follows is allowed. */
  predicate Grown(before: seq<Value>, after: seq<Value>, allowed: set<string>) {
    before <= after && forall k | |before| <= k < |after| :: after[k].Str? && after[k].s in allowed
  }

  lemma {:induction false} MissingAllowed(items: seq<string>, current: seq<Value>, allowed: set<string>)
    requires forall s | s in items :: s in allowed
    ensures forall v | v in Missing(items, current) :: v.Str? && v.s in allowed
  {
    if items != [] { MissingAllowed(items[1..], current, allowed); }
  }

  lemma {:induction false} AppendGrows(fields: Fields, path: seq<string>, key: string, items: seq<string>, allowed: set<string>, current: seq<Value>)
    requires Lookup(fields, path + [key]) == Some(Array(current)) && forall s | s in items :: s in allowed
    requires ApplyBelow(fields, path, key, Append(items)).Some?
    ensures var after := Lookup(ApplyBelow(fields, path, key, Append(items)).value, path + [key]);
      after.Some? && after.value.Array? && Grown(current, after.value.items, allowed)
    decreases |path|
  {
    if path == [] {
      assert [] + [key] == [key];
      MissingAllowed(items, current, allowed);
    } else {
      var rest := path[1..] + [key];
      assert path + [key] == [path[0]] + rest;
      AppendGrows(TableIn(fields, path[0]), path[1..], key, items, allowed, current);
    }
  }

  lemma GrownTwice(a: seq<Value>, b: seq<Value>, c: seq<Value>, allowed: set<string>)
    requires Grown(a, b, allowed) && Grown(b, c, allowed)
    ensures Grown(a, c, allowed)
  {
  }

  lemma {:induction false} EditsGrow(doc: Fields, edits: seq<Edit>, p: seq<string>, allowed: set<string>, current: seq<Value>)
    requires p != [] && Lookup(doc, p) == Some(Array(current)) && ApplyAll(doc, edits).Some?
    requires forall e | e in edits :: AppendsTo(e, p, allowed) || !Related(p, PathOf(e))
    ensures var after := Lookup(ApplyAll(doc, edits).value, p);
      after.Some? && after.value.Array? && Grown(current, after.value.items, allowed)
    decreases |edits|
  {
    hide Lookup, ApplyBelow, Related, Grown;
    if edits == [] {
      GrownByNothing(current, allowed);
    } else {
      var e := edits[0];
      assert e in edits;
      var path := [e.section] + e.inner;
      var d := Apply(doc, e).value;
      if AppendsTo(e, p, allowed) {
        AppendGrows(doc, path, e.key, e.op.items, allowed, current);
      } else {
        BelowKeeps(doc, path, e.key, e.op, p);
        GrownByNothing(current, allowed);
      }
      var now := Lookup(d, p).value.items;
      EditsGrow(d, edits[1..], p, allowed, now);
      GrownTwice(current, now, Lookup(ApplyAll(doc, edits).value, p).value.items, allowed);
    }
  }

  lemma GrownByNothing(current: seq<Value>, allowed: set<string>)
    ensures Grown(current, current, allowed)
  {
  }

  lemma {:induction false} FindingsGrow(doc: Fields, findings: seq<Finding>, skip: set<Code>, p: seq<string>, allowed: set<string>, current: seq<Value>, out: Fields)
    requires p != [] && Lookup(doc, p) == Some(Array(current)) && Rendered(doc, findings, skip) == Some(out)
    requires forall f, e | f in findings && e in f.edits :: AppendsTo(e, p, allowed) || !Related(p, PathOf(e))
    ensures Lookup(out, p).Some? && Lookup(out, p).value.Array? && Grown(current, Lookup(out, p).value.items, allowed)
    decreases |findings|
  {
    hide Lookup, ApplyAll, Related, Grown, AppendsTo;
    if findings == [] {
      GrownByNothing(current, allowed);
    } else if findings[0].code in skip {
      FindingsGrow(doc, findings[1..], skip, p, allowed, current, out);
    } else {
      assert findings[0] in findings;
      EditsGrow(doc, findings[0].edits, p, allowed, current);
      var d := ApplyAll(doc, findings[0].edits).value;
      var now := Lookup(d, p).value.items;
      FindingsGrow(d, findings[1..], skip, p, allowed, now, out);
      GrownTwice(current, now, Lookup(out, p).value.items, allowed);
    }
  }

  /** A list keeps every item it had, in place, and gains only names the list is for. */
  lemma ListsGrow(env: Env, doc: Fields, defaults: bool, skip: set<Code>, out: Fields, section: string, key: string, current: seq<Value>, allowed: set<string>)
    requires Rendered(doc, Findings(env, doc, defaults), skip) == Some(out)
    requires Entry(doc, section, key) == Some(Array(current))
    requires || (section == "process_detection" && key == "process_names" && allowed == set n | n in NAMES)
             || (section == "filters" && key == "exclude_globs" && allowed == (set g | g in BINARIES) + {"skills/.system/**"})
    ensures Entry(out, section, key).Some? && Entry(out, section, key).value.Array?
         && Grown(current, Entry(out, section, key).value.items, allowed)
  {
    hide Reports, EditsFor, Rendered, Entry, Lookup, Related, Grown, AppendsTo, Collect;
    var p := [section, key];
    EntryLookup(doc, section, key);
    EntryLookup(out, section, key);
    CollectElements(env, doc, defaults, RANKED);
    forall f, e | f in Findings(env, doc, defaults) && e in f.edits
      ensures AppendsTo(e, p, allowed) || !Related(p, PathOf(e))
    {
      ListEdits(env, doc, f.code, section, key, allowed, e);
    }
    FindingsGrow(doc, Findings(env, doc, defaults), skip, p, allowed, current, out);
  }

  lemma ListEdits(env: Env, doc: Fields, c: Code, section: string, key: string, allowed: set<string>, e: Edit)
    requires e in EditsOf(env, doc, c)
    requires || (section == "process_detection" && key == "process_names" && allowed == set n | n in NAMES)
             || (section == "filters" && key == "exclude_globs" && allowed == (set g | g in BINARIES) + {"skills/.system/**"})
    ensures AppendsTo(e, [section, key], allowed) || !Related([section, key], PathOf(e))
  {
    if Section(c) != section {
      hide EditsFor;
      OtherSection(env, doc, c, [section, key]);
    } else if c == DetectionListOutdated {
      DetectionListEdits(env, TableIn(doc, "process_detection"), e);
    } else if section == "filters" {
      GlobEdits(env, doc, c, allowed, e);
    } else {
      hide Related, PathOf;
      Paths(e);
    }
  }

  lemma GlobEdits(env: Env, doc: Fields, c: Code, allowed: set<string>, e: Edit)
    requires Section(c) == "filters" && e in EditsOf(env, doc, c) && allowed == (set g | g in BINARIES) + {"skills/.system/**"}
    ensures AppendsTo(e, ["filters", "exclude_globs"], allowed)
  {
    hide NotIn, PathOf;
    NotInIs(ItemsAt(env, TableIn(doc, "filters"), "exclude_globs"), BINARIES);
    Paths(e);
  }

  lemma DetectionListEdits(env: Env, t: Fields, e: Edit)
    requires e in DetectionEdits(env, t)
    ensures AppendsTo(e, ["process_detection", "process_names"], set n | n in NAMES) || !Related(["process_detection", "process_names"], PathOf(e))
  {
    hide MarkersMissing, NotKnown, PathOf, Related;
    NotKnownIs(env, ItemsAt(env, t, "process_names"), NAMES);
    Paths(e);
  }

  /** Of the include roots exactly those go that Codex owns and the template does not list; the others stay in order. */
  lemma RootsLeft(env: Env, doc: Fields, defaults: bool, skip: set<Code>, out: Fields, current: seq<Value>)
    requires Rendered(doc, Findings(env, doc, defaults), skip) == Some(out) && ObsoleteIncludeRoot !in skip
    requires Sensible(env) && Entry(doc, "targets", "include_roots") == Some(Array(current))
    ensures Entry(out, "targets", "include_roots") == Some(Array(Kept(env, current)))
  {
    hide Reports, Outdated, EditsFor, Findings, Rendered, Entry, Lookup, ApplyAll, Related, Kept, Obsolete;
    var c, p := ObsoleteIncludeRoot, ["targets", "include_roots"];
    EntryLookup(doc, "targets", "include_roots");
    EntryLookup(out, "targets", "include_roots");
    forall e | e != c
      ensures forall edit | edit in EditsOf(env, doc, e) :: !Related(p, PathOf(edit))
    {
      OtherSection(env, doc, e, p);
    }
    var obsolete := Obsolete(env, TextsOf(env, current));
    RootsAre(env, doc, defaults, current);
    KeptIs(env, current, current);
    if Reports(env, doc, defaults, c) {
      var d := OnlyThatFinding(env, doc, defaults, skip, out, c, p);
      DroppedThere(d, obsolete, current);
    } else {
      UnnamedBy(env, doc, defaults, RANKED, skip, p);
      FindingsIs(env, doc, defaults);
      UnnamedStays(doc, Findings(env, doc, defaults), skip, p);
      NothingDropped(current);
    }
  }

  /** The items that are no obsolete root. */
  function Kept(env: Env, items: seq<Value>): seq<Value> {
    if items == [] then []
    else (if items[0].Str? && Owned(items[0].s) && items[0].s !in env.template then [] else [items[0]]) + Kept(env, items[1..])
  }

  lemma RootsAre(env: Env, doc: Fields, defaults: bool, current: seq<Value>)
    requires Entry(doc, "targets", "include_roots") == Some(Array(current))
    ensures var obsolete := Obsolete(env, TextsOf(env, current));
      && (Reports(env, doc, defaults, ObsoleteIncludeRoot) <==> obsolete != [])
      && EditsOf(env, doc, ObsoleteIncludeRoot) == if obsolete == [] then [] else [Edit("targets", [], "include_roots", Drop(obsolete))]
  {
    hide Obsolete;
    EntryIs(doc, "targets", "include_roots");
  }

  lemma DroppedThere(d: Fields, items: seq<string>, current: seq<Value>)
    requires Lookup(d, ["targets", "include_roots"]) == Some(Array(current))
    ensures var e := Edit("targets", [], "include_roots", Drop(items));
      ApplyAll(d, [e]).Some? && Lookup(ApplyAll(d, [e]).value, ["targets", "include_roots"]) == Some(Array(Without(current, items)))
  {
    var e := Edit("targets", [], "include_roots", Drop(items));
    assert [e][1..] == [] && ["targets"] + [] == ["targets"] && ["targets"][1..] == [];
    assert ["targets", "include_roots"][1..] == ["include_roots"];
  }

  /** Dropping the obsolete roots of a list keeps what `Kept` says. */
  lemma {:induction false} KeptIs(env: Env, all: seq<Value>, items: seq<Value>)
    requires Sensible(env) && forall v | v in items :: v in all
    ensures Without(items, Obsolete(env, TextsOf(env, all))) == Kept(env, items)
    decreases |items|
  {
    hide Obsolete, Owned, TextsOf;
    if items != [] {
      KeptIs(env, all, items[1..]);
      var v := items[0];
      ObsoleteIs(env, TextsOf(env, all));
      TextIn(env, all, v);
      assert v.Str? ==> env.text(v) == v.s;
    }
  }

  lemma {:induction false} NothingDropped(items: seq<Value>)
    ensures Without(items, []) == items
  {
    if items != [] { NothingDropped(items[1..]); }
  }

  /** Cutting a number goes towards zero, by less than one. */
  lemma TruncatedIs(x: real)
    ensures x >= 0.0 ==> Truncated(x) as real <= x < (Truncated(x) + 1) as real
    ensures x < 0.0 ==> (Truncated(x) - 1) as real < x <= Truncated(x) as real
  {
  }

  /** An old period, in whole or broken minutes, becomes the same number of seconds within what the loader accepts. */
  lemma PeriodIsMigrated(env: Env, doc: Fields, defaults: bool, skip: set<Code>, out: Fields)
    requires Sensible(env) && Rendered(doc, Findings(env, doc, defaults), skip) == Some(out)
    requires OldPeriod(doc) && SchedulerIntervalMigrated !in skip
    ensures Entry(out, "scheduler", "interval_minutes") == None
    ensures var minutes := Entry(doc, "scheduler", "interval_minutes").value;
      var raw := if minutes.Int? then minutes.n * 60 else Truncated(minutes.x * 60.0);
      Entry(out, "scheduler", "interval_seconds") == Some(Int(if raw < 300 then 300 else if raw > 2678400 then 2678400 else raw))
  {
    hide Reports, EditsFor, Rendered, Collect, Entry, Truncated;
    ReportsMeans(env, doc, defaults, SchedulerIntervalMigrated);
    MigratedPeriod(env, doc, defaults, skip, out);
    EntryIs(doc, "scheduler", "interval_minutes");
    EntryIs(out, "scheduler", "interval_minutes");
    EntryIs(out, "scheduler", "interval_seconds");
  }
}
