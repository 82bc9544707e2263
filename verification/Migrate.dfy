/**
 Bringing an older config up to date: the findings of `inspect_config` and what applying their
 edits leaves. A config is its parsed document; each edit of the text is modelled by what the
 editor verifies of it, the intended change of the document and no other, or a refusal.
 */
module Migrate {
  import opened Texts
  import opened Wrappers

  datatype Value =
    | Bool(b: bool) | Int(n: int) | Float(x: real) | NonFinite | Str(s: string) | Moment(id: int)
    | Array(items: seq<Value>) | Table(fields: map<string, Value>)

  type Fields = map<string, Value>

  /** `_table`: a section that is missing or no table counts as empty. */
  function TableIn(fields: Fields, name: string): Fields {
    if name in fields && fields[name].Table? then fields[name].fields else map[]
  }

  /**
   What the model leaves open: `text` is `str`, `order` lists the keys of a table as iterating it
   does, `fold` is case folding, `template` is the include roots of the shipped template.
   */
  datatype Env = Env(text: Value -> string, order: Fields -> seq<string>, fold: string -> string, template: set<string>)

  predicate Owned(root: string) {
    var rel := Trim(Slashes(root), c => c == '/');
    var name := AfterLastSlash(rel);
    || rel == ".codex-global-state.json" || rel == "session_index.jsonl"
    || Starts(rel, 0, "sessions/") || Starts(rel, 0, "archived_sessions/") || Starts(rel, 0, "sqlite/")
    || (Starts(name, 0, "state_")
        && (Ends(name, ".sqlite") || Ends(name, ".sqlite-wal") || Ends(name, ".sqlite-shm") || Ends(name, ".sqlite-journal")))
  }

  function AfterLastSlash(s: string): string {
    if s == "" || s[|s| - 1] == '/' then "" else AfterLastSlash(s[..|s| - 1]) + [s[|s| - 1]]
  }

  predicate Ends(s: string, w: string) { |w| <= |s| && s[|s| - |w|..] == w }

  /** A string is its own text; the text of anything else names no file that Codex owns. */
  ghost predicate Sensible(env: Env) {
    && (forall s :: env.text(Str(s)) == s)
    && (forall v: Value | !v.Str? :: !Owned(env.text(v)))
  }

  // ------------------------------------------------------------------ edits

  datatype Op = SetTo(v: Value) | Append(items: seq<string>) | Drop(items: seq<string>) | RemoveKey

  /** `section` names the top-level table, `inner` the tables below it that lead to `key`. */
  datatype Edit = Edit(section: string, inner: seq<string>, key: string, op: Op)

  function Strings(items: seq<string>): seq<Value> { seq(|items|, k requires 0 <= k < |items| => Str(items[k])) }

  function Missing(items: seq<string>, current: seq<Value>): seq<Value> {
    if items == [] then []
    else (if Str(items[0]) in current then [] else [Str(items[0])]) + Missing(items[1..], current)
  }

  function Without(current: seq<Value>, items: seq<string>): seq<Value> {
    if current == [] then []
    else (if current[0].Str? && current[0].s in items then [] else [current[0]]) + Without(current[1..], items)
  }

  /** `None` is the editor's refusal. */
  function ApplyOp(fields: Fields, key: string, op: Op): Option<Fields> {
    match op
    case SetTo(v) => Some(fields[key := v])
    case Append(items) =>
      if key !in fields then Some(fields[key := Array(Strings(items))])
      else if !fields[key].Array? then None
      else Some(fields[key := Array(fields[key].items + Missing(items, fields[key].items))])
    case Drop(items) =>
      if key !in fields then Some(fields)
      else if !fields[key].Array? then None
      else Some(fields[key := Array(Without(fields[key].items, items))])
    case RemoveKey => Some(fields - {key})
  }

  /** An edit that changes nothing leaves even the absence of a table alone. */
  function ApplyBelow(fields: Fields, path: seq<string>, key: string, op: Op): Option<Fields>
    decreases |path|
  {
    if path == [] then ApplyOp(fields, key, op)
    else
      var sub := TableIn(fields, path[0]);
      match ApplyBelow(sub, path[1..], key, op)
      case None => None
      case Some(r) => Some(if r == sub then fields else fields[path[0] := Table(r)])
  }

  function Apply(doc: Fields, e: Edit): Option<Fields> { ApplyBelow(doc, [e.section] + e.inner, e.key, e.op) }

  function ApplyAll(doc: Fields, edits: seq<Edit>): Option<Fields>
    decreases |edits|
  {
    if edits == [] then Some(doc)
    else match Apply(doc, edits[0])
      case None => None
      case Some(d) => ApplyAll(d, edits[1..])
  }

  // ------------------------------------------------------------------ findings

  /** In the order of level and code, the order findings are reported in. */
  datatype Code =
    | BackupDisabled | SchedulerIntervalTooShort | SessionModeLastDate | TerminateFlagSet
    | DetectionListOutdated
    | LegacySchedulerKeys | MissingExcludeCodexBinaries | MissingExcludeSkillsSystem | ObsoleteIncludeRoot | SchedulerIntervalMigrated
    | SectionAbsentGuardian | SectionAbsentSemantic

  function Rank(c: Code): nat {
    match c
    case BackupDisabled => 0
    case SchedulerIntervalTooShort => 1
    case SessionModeLastDate => 2
    case TerminateFlagSet => 3
    case DetectionListOutdated => 4
    case LegacySchedulerKeys => 5
    case MissingExcludeCodexBinaries => 6
    case MissingExcludeSkillsSystem => 7
    case ObsoleteIncludeRoot => 8
    case SchedulerIntervalMigrated => 9
    case SectionAbsentGuardian => 10
    case SectionAbsentSemantic => 11
  }

  predicate IsBlocker(c: Code) { Rank(c) < 4 }

  datatype Finding = Finding(code: Code, edits: seq<Edit>)

  const PROCESS_NAMES := ["codex.exe", "codex", "codex-app-server"]
  const WINDOWS_MARKERS := ["codex-windows-sandbox", "codex-windows-sandbox-setup", "codex-command-runner"]
  const MACOS_MARKERS := ["ChatGPT.app/Contents/MacOS/", "codex-app-server", "codex-execve-wrapper", "codex-code-mode-host"]
  const LINUX_MARKERS := ["/usr/lib/chatgpt/", "codex-app-server", "codex-linux-sandbox", "codex-execve-wrapper", "codex-code-mode-host"]
  const SKILLS_GLOB := "skills/.system/**"
  const BINARY_GLOBS := ["plugins/.plugin-appserver/**", "plugins/.remote-plugin-install-staging/**"]
  const MIN_SECONDS := 300
  const MAX_SECONDS := 31 * 24 * 3600

  const BACKGROUND := "background_process_names"

  predicate Iterable(v: Value) { v.Array? || v.Str? || v.Table? }

  /** `[str(item) for item in value]`, for what can be iterated. */
  function Items(env: Env, v: Value): seq<string> {
    match v
    case Array(items) => TextsOf(env, items)
    case Str(s) => seq(|s|, k requires 0 <= k < |s| => [s[k]])
    case Table(fields) => env.order(fields)
    case _ => []
  }

  function TextsOf(env: Env, items: seq<Value>): seq<string> {
    if items == [] then [] else [env.text(items[0])] + TextsOf(env, items[1..])
  }

  function ItemsAt(env: Env, fields: Fields, key: string): seq<string> {
    if key in fields then Items(env, fields[key]) else []
  }

  predicate IterableAt(fields: Fields, key: string) { key in fields ==> Iterable(fields[key]) }

  function Strip(s: string): string { Trim(s, IsSpace) }

  /** The configured list has the name, whatever its case and the space around it. */
  predicate Knows(env: Env, configured: seq<string>, name: string) {
    exists k | 0 <= k < |configured| :: Strip(configured[k]) != "" && env.fold(Strip(configured[k])) == env.fold(name)
  }

  function NotKnown(env: Env, configured: seq<string>, names: seq<string>): seq<string> {
    if names == [] then []
    else (if Knows(env, configured, names[0]) then [] else [names[0]]) + NotKnown(env, configured, names[1..])
  }

  function NotIn(configured: seq<string>, names: seq<string>): seq<string> {
    if names == [] then [] else (if names[0] in configured then [] else [names[0]]) + NotIn(configured, names[1..])
  }

  function NamesMissing(env: Env, process: Fields): seq<string> {
    if "process_names" in process then NotKnown(env, ItemsAt(env, process, "process_names"), PROCESS_NAMES) else []
  }

  function MarkersMissing(env: Env, process: Fields, os: string, markers: seq<string>): seq<string> {
    if BACKGROUND in process && process[BACKGROUND].Table? then
      NotKnown(env, ItemsAt(env, process[BACKGROUND].fields, os), markers)
    else []
  }

  function NameEdit(env: Env, process: Fields): seq<Edit> {
    var missing := NamesMissing(env, process);
    if missing == [] then [] else [Edit("process_detection", [], "process_names", Append(missing))]
  }

  function MarkerEdit(env: Env, process: Fields, os: string, markers: seq<string>): seq<Edit> {
    var missing := MarkersMissing(env, process, os, markers);
    if missing == [] then [] else [Edit("process_detection", [BACKGROUND], os, Append(missing))]
  }

  function DetectionEdits(env: Env, process: Fields): seq<Edit> {
    NameEdit(env, process) + MarkerEdit(env, process, "windows", WINDOWS_MARKERS)
    + MarkerEdit(env, process, "macos", MACOS_MARKERS) + MarkerEdit(env, process, "linux", LINUX_MARKERS)
  }

  /** Semantic-owned roots that the shipped template does not list itself. */
  function Obsolete(env: Env, roots: seq<string>): seq<string> {
    if roots == [] then []
    else (if Owned(roots[0]) && roots[0] !in env.template then [roots[0]] else []) + Obsolete(env, roots[1..])
  }

  function Truncated(x: real): int { if x >= 0.0 then x.Floor else -((-x).Floor) }

  /** `interval_minutes` holds a finite number, and no period in seconds stands beside it. */
  predicate CarriesPeriod(scheduler: Fields) {
    && "interval_minutes" in scheduler && (scheduler["interval_minutes"].Int? || scheduler["interval_minutes"].Float?)
    && "interval_seconds" !in scheduler
  }

  function MigratedSeconds(minutes: Value): int {
    var raw := match minutes
      case Int(n) => n * 60
      case Float(x) => Truncated(x * 60.0)
      case _ => 0;
    var low := if raw < MIN_SECONDS then MIN_SECONDS else raw;
    if low > MAX_SECONDS then MAX_SECONDS else low
  }

  const TWO_TO_256 := 0x1_0000_0000_0000_0000 * 0x1_0000_0000_0000_0000 * 0x1_0000_0000_0000_0000 * 0x1_0000_0000_0000_0000
  const TWO_TO_1024 := TWO_TO_256 * TWO_TO_256 * TWO_TO_256 * TWO_TO_256

  /** Half a unit in the last place above the largest double, where rounding leaves the range. */
  const BEYOND_DOUBLES := TWO_TO_1024 - TWO_TO_1024 / 0x40_0000_0000_0000

  predicate FitsDouble(x: real) { -(BEYOND_DOUBLES as real) < x < BEYOND_DOUBLES as real }

  /** The period can be examined: an integer too large for a float, or seconds that are, raise. */
  predicate PeriodReadable(scheduler: Fields) {
    "interval_minutes" in scheduler ==>
      match scheduler["interval_minutes"]
      case Int(n) => FitsDouble(n as real)
      case Float(x) => "interval_seconds" in scheduler || FitsDouble(x * 60.0)
      case _ => true
  }

  function LegacyKeys(scheduler: Fields): seq<string> {
    (if "kind" in scheduler then ["kind"] else [])
    + (if "interval_minutes" in scheduler && !CarriesPeriod(scheduler) then ["interval_minutes"] else [])
  }

  function RemoveKeys(keys: seq<string>): seq<Edit> {
    seq(|keys|, k requires 0 <= k < |keys| => Edit("scheduler", [], keys[k], RemoveKey))
  }

  /** The section a finding is about. */
  function Section(c: Code): string {
    match c
    case BackupDisabled => "backup"
    case SessionModeLastDate => "sync"
    case TerminateFlagSet => "process_detection"
    case DetectionListOutdated => "process_detection"
    case MissingExcludeCodexBinaries => "filters"
    case MissingExcludeSkillsSystem => "filters"
    case ObsoleteIncludeRoot => "targets"
    case SchedulerIntervalTooShort => "scheduler"
    case LegacySchedulerKeys => "scheduler"
    case SchedulerIntervalMigrated => "scheduler"
    case SectionAbsentGuardian => "guardian"
    case SectionAbsentSemantic => "semantic"
  }

  predicate IsAbsence(c: Code) { c == SectionAbsentGuardian || c == SectionAbsentSemantic }

  /** The edits that settle a finding, from its section; none when there is nothing to find. */
  function EditsFor(env: Env, c: Code, t: Fields): seq<Edit> {
    match c
    case TerminateFlagSet =>
      if "allow_terminate_if_running" in t && t["allow_terminate_if_running"] == Bool(true) then
        [Edit("process_detection", [], "allow_terminate_if_running", SetTo(Bool(false)))] else []
    case BackupDisabled =>
      if "backup_before_overwrite" in t && t["backup_before_overwrite"] == Bool(false) then
        [Edit("backup", [], "backup_before_overwrite", SetTo(Bool(true)))] else []
    case SessionModeLastDate =>
      if "session_mode" in t && Lower(Strip(env.text(t["session_mode"]))) == "last_date_only" then
        [Edit("sync", [], "session_mode", SetTo(Str("all")))] else []
    case SchedulerIntervalTooShort =>
      if "interval_seconds" in t && t["interval_seconds"].Int? && 0 < t["interval_seconds"].n < MIN_SECONDS then
        [Edit("scheduler", [], "interval_seconds", SetTo(Int(MIN_SECONDS)))] else []
    case DetectionListOutdated => DetectionEdits(env, t)
    case MissingExcludeSkillsSystem =>
      if "exclude_globs" in t && SKILLS_GLOB !in ItemsAt(env, t, "exclude_globs") then
        [Edit("filters", [], "exclude_globs", Append([SKILLS_GLOB]))] else []
    case MissingExcludeCodexBinaries =>
      var missing := NotIn(ItemsAt(env, t, "exclude_globs"), BINARY_GLOBS);
      if "exclude_globs" in t && missing != [] then [Edit("filters", [], "exclude_globs", Append(missing))] else []
    case ObsoleteIncludeRoot =>
      var obsolete := Obsolete(env, ItemsAt(env, t, "include_roots"));
      if obsolete != [] then [Edit("targets", [], "include_roots", Drop(obsolete))] else []
    case SchedulerIntervalMigrated =>
      if CarriesPeriod(t) then
        [Edit("scheduler", [], "interval_seconds", SetTo(Int(MigratedSeconds(t["interval_minutes"])))),
         Edit("scheduler", [], "interval_minutes", RemoveKey)]
      else []
    case LegacySchedulerKeys => RemoveKeys(LegacyKeys(t))
    case SectionAbsentGuardian => []
    case SectionAbsentSemantic => []
  }

  predicate Reports(env: Env, doc: Fields, defaults: bool, c: Code) {
    if IsAbsence(c) then defaults && Section(c) !in doc else EditsFor(env, c, TableIn(doc, Section(c))) != []
  }

  function FindingOf(env: Env, doc: Fields, c: Code): Finding { Finding(c, EditsFor(env, c, TableIn(doc, Section(c)))) }

  /** What the generators iterate can be iterated, and the period examined; anything else ends the inspection with an error. */
  predicate Readable(doc: Fields) {
    && IterableAt(TableIn(doc, "process_detection"), "process_names")
    && (forall os | os in {"windows", "macos", "linux"} ::
          IterableAt(TableIn(TableIn(doc, "process_detection"), BACKGROUND), os))
    && IterableAt(TableIn(doc, "filters"), "exclude_globs")
    && IterableAt(TableIn(doc, "targets"), "include_roots")
    && PeriodReadable(TableIn(doc, "scheduler"))
  }

  const RANKED := [BackupDisabled, SchedulerIntervalTooShort, SessionModeLastDate, TerminateFlagSet, DetectionListOutdated,
    LegacySchedulerKeys, MissingExcludeCodexBinaries, MissingExcludeSkillsSystem, ObsoleteIncludeRoot, SchedulerIntervalMigrated,
    SectionAbsentGuardian, SectionAbsentSemantic]

  function Collect(env: Env, doc: Fields, defaults: bool, codes: seq<Code>): seq<Finding> {
    if codes == [] then []
    else (if Reports(env, doc, defaults, codes[0]) then [FindingOf(env, doc, codes[0])] else []) + Collect(env, doc, defaults, codes[1..])
  }

  /** The findings of a document, most serious first. */
  function Findings(env: Env, doc: Fields, defaults: bool): seq<Finding> { Collect(env, doc, defaults, RANKED) }

  // ------------------------------------------------------------------ edits stay in their section

  /** The same edits, seen from their section. */
  function ApplyIn(t: Fields, edits: seq<Edit>): Option<Fields>
    decreases |edits|
  {
    if edits == [] then Some(t)
    else match ApplyBelow(t, edits[0].inner, edits[0].key, edits[0].op)
      case None => None
      case Some(u) => ApplyIn(u, edits[1..])
  }

  predicate AllIn(edits: seq<Edit>, section: string) { forall k | 0 <= k < |edits| :: edits[k].section == section }

  lemma ApplyIsIn(doc: Fields, e: Edit)
    ensures var below := ApplyBelow(TableIn(doc, e.section), e.inner, e.key, e.op);
      && (Apply(doc, e).Some? <==> below.Some?)
      && (below.Some? ==> TableIn(Apply(doc, e).value, e.section) == below.value)
      && (below.Some? ==> Apply(doc, e).value - {e.section} == doc - {e.section})
  {
    assert ([e.section] + e.inner)[1..] == e.inner;
  }

  lemma {:induction false} ApplyAllIsIn(doc: Fields, edits: seq<Edit>, section: string)
    requires AllIn(edits, section)
    ensures ApplyAll(doc, edits).Some? <==> ApplyIn(TableIn(doc, section), edits).Some?
    ensures ApplyAll(doc, edits).Some? ==>
      TableIn(ApplyAll(doc, edits).value, section) == ApplyIn(TableIn(doc, section), edits).value
    ensures ApplyAll(doc, edits).Some? ==> ApplyAll(doc, edits).value - {section} == doc - {section}
    decreases |edits|
  {
    hide Apply, ApplyBelow, TableIn;
    if edits != [] {
      ApplyIsIn(doc, edits[0]);
      if Apply(doc, edits[0]).Some? {
        ApplyAllIsIn(Apply(doc, edits[0]).value, edits[1..], section);
      }
    }
  }

  lemma EditsAreInSection(env: Env, c: Code, t: Fields)
    ensures AllIn(EditsFor(env, c, t), Section(c))
  {
    if c == DetectionListOutdated {
      DetectionEditsIn(env, t);
    } else if c == LegacySchedulerKeys {
      assert AllIn(RemoveKeys(LegacyKeys(t)), "scheduler");
    }
  }

  lemma DetectionEditsIn(env: Env, t: Fields)
    ensures AllIn(DetectionEdits(env, t), "process_detection")
  {
    hide NamesMissing, MarkersMissing;
  }

  /** Sections other than the edited one read as before. */
  lemma OtherSections(a: Fields, b: Fields, section: string, other: string)
    requires a - {section} == b - {section} && other != section
    ensures TableIn(a, other) == TableIn(b, other) && (other in a <==> other in b)
  {
    assert other in a ==> other in a - {section} && (a - {section})[other] == a[other];
    assert other in b ==> other in b - {section} && (b - {section})[other] == b[other];
  }

  // ------------------------------------------------------------------ lists that grow and shrink

  lemma {:induction false} TextIn(env: Env, items: seq<Value>, v: Value)
    requires v in items
    ensures env.text(v) in TextsOf(env, items)
  {
    if items[0] != v { TextIn(env, items[1..], v); }
  }

  lemma {:induction false} TextsConcat(env: Env, a: seq<Value>, b: seq<Value>)
    ensures TextsOf(env, a + b) == TextsOf(env, a) + TextsOf(env, b)
    decreases |a|
  {
    if a == [] {
      assert a + b == b;
    } else {
      assert (a + b)[1..] == a[1..] + b;
      TextsConcat(env, a[1..], b);
    }
  }

  lemma {:induction false} MissingAdded(items: seq<string>, current: seq<Value>, name: string)
    requires name in items
    ensures Str(name) in current + Missing(items, current)
  {
    if name != items[0] { MissingAdded(items[1..], current, name); }
  }

  /** What an append leaves at its key: all that was there, in place, and every appended item. */
  lemma Appended(env: Env, t: Fields, key: string, items: seq<string>)
    requires Sensible(env) && ApplyOp(t, key, Append(items)).Some?
    ensures var u := ApplyOp(t, key, Append(items)).value;
      && key in u && u[key].Array? && u - {key} == t - {key}
      && (forall s | s in items || s in ItemsAt(env, t, key) :: s in ItemsAt(env, u, key))
      && (forall s | s in ItemsAt(env, u, key) :: s in items || s in ItemsAt(env, t, key))
  {
    hide TextsOf, Missing, Owned;
    NoTexts(env);
    var u := ApplyOp(t, key, Append(items)).value;
    var current := if key in t then t[key].items else [];
    var added := u[key].items[|current|..];
    assert u[key].items == current + added;
    TextsConcat(env, current, added);
    forall s | s in items
      ensures s in ItemsAt(env, u, key)
    {
      if key in t {
        MissingAdded(items, current, s);
      } else {
        var k :| 0 <= k < |items| && items[k] == s;
        assert Strings(items)[k] == Str(s);
      }
      TextIn(env, u[key].items, Str(s));
    }
    AddedAreItems(env, items, current, added, key in t);
  }

  lemma NoTexts(env: Env)
    ensures TextsOf(env, []) == []
  {
  }

  lemma AddedAreItems(env: Env, items: seq<string>, current: seq<Value>, added: seq<Value>, had: bool)
    requires Sensible(env) && added == if had then Missing(items, current) else Strings(items)
    ensures forall s | s in TextsOf(env, added) :: s in items
  {
    if had {
      MissingTexts(env, items, current);
    } else {
      StringTexts(env, items);
    }
  }

  lemma {:induction false} MissingTexts(env: Env, items: seq<string>, current: seq<Value>)
    requires Sensible(env)
    ensures forall s | s in TextsOf(env, Missing(items, current)) :: s in items
  {
    if items != [] {
      MissingTexts(env, items[1..], current);
      var head := if Str(items[0]) in current then [] else [Str(items[0])];
      TextsConcat(env, head, Missing(items[1..], current));
      assert env.text(Str(items[0])) == items[0];
      assert TextsOf(env, head) == if head == [] then [] else [items[0]];
    }
  }

  lemma {:induction false} StringTexts(env: Env, items: seq<string>)
    requires Sensible(env)
    ensures TextsOf(env, Strings(items)) == items
  {
    if items != [] {
      StringTexts(env, items[1..]);
      assert Strings(items)[1..] == Strings(items[1..]);
    }
  }

  lemma {:induction false} NotKnownIs(env: Env, configured: seq<string>, names: seq<string>)
    ensures forall n :: n in NotKnown(env, configured, names) <==> n in names && !Knows(env, configured, n)
    ensures NotKnown(env, configured, names) == [] <==> forall k | 0 <= k < |names| :: Knows(env, configured, names[k])
  {
    hide Knows;
    if names != [] {
      NotKnownIs(env, configured, names[1..]);
      assert forall k | 1 <= k < |names| :: names[k] == names[1..][k - 1];
    }
  }

  lemma {:induction false} NotInIs(configured: seq<string>, names: seq<string>)
    ensures forall n :: n in NotIn(configured, names) <==> n in names && n !in configured
  {
    if names != [] { NotInIs(configured, names[1..]); }
  }

  predicate Trimmed(names: seq<string>) { forall k | 0 <= k < |names| :: Strip(names[k]) == names[k] && names[k] != "" }

  predicate Solid(s: string) { s != "" && '!' <= s[0] <= '~' && '!' <= s[|s| - 1] <= '~' }

  lemma SolidTrimmed(names: seq<string>)
    requires forall k | 0 <= k < |names| :: Solid(names[k])
    ensures Trimmed(names)
  {
  }

  lemma KnownNamesTrimmed()
    ensures Trimmed(PROCESS_NAMES) && Trimmed(WINDOWS_MARKERS) && Trimmed(MACOS_MARKERS) && Trimmed(LINUX_MARKERS)
  {
    hide Trimmed;
    SolidTrimmed(PROCESS_NAMES);
    SolidTrimmed(WINDOWS_MARKERS);
    SolidTrimmed(MACOS_MARKERS);
    SolidTrimmed(LINUX_MARKERS);
  }

  /** A list that has all it had and all that was missing misses nothing. */
  lemma NothingMissing(env: Env, before: seq<string>, after: seq<string>, names: seq<string>)
    requires Trimmed(names)
    requires forall s | s in before || s in NotKnown(env, before, names) :: s in after
    ensures NotKnown(env, after, names) == []
  {
    NotKnownIs(env, before, names);
    NotKnownIs(env, after, names);
    forall k | 0 <= k < |names|
      ensures Knows(env, after, names[k])
    {
      if Knows(env, before, names[k]) {
        var j :| 0 <= j < |before| && Strip(before[j]) != "" && env.fold(Strip(before[j])) == env.fold(names[k]);
        assert before[j] in after;
        var i :| 0 <= i < |after| && after[i] == before[j];
      } else {
        assert names[k] in after;
        var i :| 0 <= i < |after| && after[i] == names[k];
      }
    }
  }

  // ------------------------------------------------------------------ each finding is settled, and only that one

  lemma {:induction false} ApplyInConcat(t: Fields, a: seq<Edit>, b: seq<Edit>)
    ensures ApplyIn(t, a + b) == match ApplyIn(t, a) case None => None case Some(u) => ApplyIn(u, b)
    decreases |a|
  {
    if a == [] {
      assert a + b == b;
    } else {
      assert (a + b)[1..] == a[1..] + b;
      var u := ApplyBelow(t, a[0].inner, a[0].key, a[0].op);
      if u.Some? { ApplyInConcat(u.value, a[1..], b); }
    }
  }

  lemma ApplyInOne(t: Fields, e: Edit)
    ensures ApplyIn(t, [e]) == ApplyBelow(t, e.inner, e.key, e.op)
  {
    assert [e][1..] == [];
  }

  predicate SameKey(a: Fields, b: Fields, key: string) { (key in a <==> key in b) && (key in a ==> a[key] == b[key]) }

  /** The list one platform has under `background_process_names`, or what stands in its way. */
  predicate SameMarkers(a: Fields, b: Fields, os: string) {
    && (BACKGROUND in a && a[BACKGROUND].Table? <==> BACKGROUND in b && b[BACKGROUND].Table?)
    && (BACKGROUND in a && a[BACKGROUND].Table? && BACKGROUND in b && b[BACKGROUND].Table? ==>
          SameKey(a[BACKGROUND].fields, b[BACKGROUND].fields, os))
  }

  lemma NameStep(env: Env, t: Fields)
    requires Sensible(env) && ApplyIn(t, NameEdit(env, t)).Some?
    ensures var u := ApplyIn(t, NameEdit(env, t)).value;
      NamesMissing(env, u) == [] && (forall k | k != "process_names" :: SameKey(t, u, k)) && IterableAt(u, "process_names") == IterableAt(t, "process_names")
  {
    hide NotKnown;
    var missing := NamesMissing(env, t);
    if missing != [] {
      ApplyInOne(t, NameEdit(env, t)[0]);
      Appended(env, t, "process_names", missing);
      var u := ApplyIn(t, NameEdit(env, t)).value;
      KnownNamesTrimmed();
      NothingMissing(env, ItemsAt(env, t, "process_names"), ItemsAt(env, u, "process_names"), PROCESS_NAMES);
      Kept(t, u, "process_names");
    }
  }

  lemma Kept(t: Fields, u: Fields, key: string)
    requires u - {key} == t - {key}
    ensures forall k | k != key :: SameKey(t, u, k)
  {
    forall k | k != key
      ensures SameKey(t, u, k)
    {
      assert k in t ==> k in t - {key} && (t - {key})[k] == t[k];
      assert k in u ==> k in u - {key} && (u - {key})[k] == u[k];
    }
  }

  lemma MarkerStep(env: Env, t: Fields, os: string, markers: seq<string>)
    requires Sensible(env) && Trimmed(markers) && ApplyIn(t, MarkerEdit(env, t, os, markers)).Some?
    ensures var u := ApplyIn(t, MarkerEdit(env, t, os, markers)).value;
      && MarkersMissing(env, u, os, markers) == []
      && (forall k | k != BACKGROUND :: SameKey(t, u, k))
      && (forall other | other != os :: SameMarkers(t, u, other))
      && IterableAt(TableIn(u, BACKGROUND), os) == IterableAt(TableIn(t, BACKGROUND), os)
  {
    hide NotKnown;
    var missing := MarkersMissing(env, t, os, markers);
    if missing != [] {
      var e := MarkerEdit(env, t, os, markers)[0];
      ApplyInOne(t, e);
      var sub := TableIn(t, BACKGROUND);
      assert [BACKGROUND][1..] == [];
      assert ApplyBelow(sub, [], os, Append(missing)) == ApplyOp(sub, os, Append(missing));
      Appended(env, sub, os, missing);
      var after := ApplyOp(sub, os, Append(missing)).value;
      NothingMissing(env, ItemsAt(env, sub, os), ItemsAt(env, after, os), markers);
      Kept(sub, after, os);
      var u := ApplyIn(t, MarkerEdit(env, t, os, markers)).value;
      assert u == if after == sub then t else t[BACKGROUND := Table(after)];
      assert TableIn(u, BACKGROUND) == after;
    }
  }

  /** Applying one list's edit changes neither what another list misses nor the edit for it. */
  lemma SameMarkerEdit(env: Env, t: Fields, u: Fields, os: string, markers: seq<string>)
    requires SameMarkers(t, u, os)
    ensures MarkersMissing(env, u, os, markers) == MarkersMissing(env, t, os, markers)
    ensures MarkerEdit(env, u, os, markers) == MarkerEdit(env, t, os, markers)
    ensures IterableAt(TableIn(u, BACKGROUND), os) == IterableAt(TableIn(t, BACKGROUND), os)
  {
  }

  lemma SameNames(env: Env, t: Fields, u: Fields)
    requires SameKey(t, u, "process_names")
    ensures NamesMissing(env, u) == NamesMissing(env, t) && IterableAt(u, "process_names") == IterableAt(t, "process_names")
  {
  }

  lemma SameBackground(t: Fields, u: Fields)
    requires SameKey(t, u, BACKGROUND)
    ensures forall os :: SameMarkers(t, u, os)
  {
  }

  lemma FourEdits(t: Fields, a: seq<Edit>, b: seq<Edit>, c: seq<Edit>, d: seq<Edit>)
    requires ApplyIn(t, a + b + c + d).Some?
    ensures ApplyIn(t, a).Some? && ApplyIn(ApplyIn(t, a).value, b).Some?
    ensures ApplyIn(ApplyIn(ApplyIn(t, a).value, b).value, c).Some?
    ensures ApplyIn(t, a + b + c + d) == ApplyIn(ApplyIn(ApplyIn(ApplyIn(t, a).value, b).value, c).value, d)
  {
    ApplyInConcat(t, a + b + c, d);
    ApplyInConcat(t, a + b, c);
    ApplyInConcat(t, a, b);
  }

  lemma DetectionSettles(env: Env, t: Fields)
    requires Sensible(env) && ApplyIn(t, DetectionEdits(env, t)).Some?
    ensures var u := ApplyIn(t, DetectionEdits(env, t)).value;
      && DetectionEdits(env, u) == []
      && SameKey(t, u, "allow_terminate_if_running")
      && IterableAt(u, "process_names") == IterableAt(t, "process_names")
      && forall os | os in {"windows", "macos", "linux"} ::
           IterableAt(TableIn(u, BACKGROUND), os) == IterableAt(TableIn(t, BACKGROUND), os)
  {
    hide ApplyIn, NameEdit, MarkerEdit, MarkersMissing, NamesMissing, TableIn, IterableAt, SameKey, SameMarkers;
    var w, m, l := MarkerEdit(env, t, "windows", WINDOWS_MARKERS), MarkerEdit(env, t, "macos", MACOS_MARKERS), MarkerEdit(env, t, "linux", LINUX_MARKERS);
    KnownNamesTrimmed();
    FourEdits(t, NameEdit(env, t), w, m, l);
    NameStep(env, t);
    var t1 := ApplyIn(t, NameEdit(env, t)).value;
    SameBackground(t, t1);
    SameMarkerEdit(env, t, t1, "windows", WINDOWS_MARKERS);
    MarkerStep(env, t1, "windows", WINDOWS_MARKERS);
    var t2 := ApplyIn(t1, w).value;
    SameMarkerEdit(env, t, t1, "macos", MACOS_MARKERS);
    SameMarkerEdit(env, t1, t2, "macos", MACOS_MARKERS);
    MarkerStep(env, t2, "macos", MACOS_MARKERS);
    var t3 := ApplyIn(t2, m).value;
    SameMarkerEdit(env, t, t1, "linux", LINUX_MARKERS);
    SameMarkerEdit(env, t1, t2, "linux", LINUX_MARKERS);
    SameMarkerEdit(env, t2, t3, "linux", LINUX_MARKERS);
    MarkerStep(env, t3, "linux", LINUX_MARKERS);
    var u := ApplyIn(t3, l).value;
    SameMarkerEdit(env, t2, t3, "windows", WINDOWS_MARKERS);
    SameMarkerEdit(env, t3, u, "windows", WINDOWS_MARKERS);
    SameMarkerEdit(env, t3, u, "macos", MACOS_MARKERS);
    SameNames(env, t1, t2);
    SameNames(env, t2, t3);
    SameNames(env, t3, u);
    SameFlag(t, t1, t2, t3, u);
    NoEdits(env, u);
  }

  lemma SameFlag(t: Fields, t1: Fields, t2: Fields, t3: Fields, u: Fields)
    ensures var k := "allow_terminate_if_running";
      SameKey(t, t1, k) && SameKey(t1, t2, k) && SameKey(t2, t3, k) && SameKey(t3, u, k) ==> SameKey(t, u, k)
  {
  }

  lemma NoEdits(env: Env, u: Fields)
    requires NamesMissing(env, u) == [] && MarkersMissing(env, u, "windows", WINDOWS_MARKERS) == []
    requires MarkersMissing(env, u, "macos", MACOS_MARKERS) == [] && MarkersMissing(env, u, "linux", LINUX_MARKERS) == []
    ensures DetectionEdits(env, u) == []
  {
  }

  /** `u` is what applying a finding's edits to its section leaves. */
  predicate Becomes(env: Env, c: Code, t: Fields, u: Fields) { ApplyIn(t, EditsFor(env, c, t)) == Some(u) }

  lemma GlobsGrow(env: Env, c: Code, t: Fields, u: Fields)
    requires Sensible(env) && Becomes(env, c, t, u) && EditsFor(env, c, t) != []
    requires c == MissingExcludeSkillsSystem || c == MissingExcludeCodexBinaries
    ensures "exclude_globs" in t && "exclude_globs" in u && IterableAt(u, "exclude_globs")
    ensures var missing := if c == MissingExcludeSkillsSystem then [SKILLS_GLOB] else NotIn(ItemsAt(env, t, "exclude_globs"), BINARY_GLOBS);
      forall s :: s in ItemsAt(env, u, "exclude_globs") <==> s in missing || s in ItemsAt(env, t, "exclude_globs")
  {
    hide NotIn;
    var missing := if c == MissingExcludeSkillsSystem then [SKILLS_GLOB] else NotIn(ItemsAt(env, t, "exclude_globs"), BINARY_GLOBS);
    ApplyInOne(t, EditsFor(env, c, t)[0]);
    Appended(env, t, "exclude_globs", missing);
  }

  lemma {:induction false} SameNotIn(a: seq<string>, b: seq<string>, names: seq<string>)
    requires forall k | 0 <= k < |names| :: names[k] in a <==> names[k] in b
    ensures NotIn(a, names) == NotIn(b, names)
  {
    if names != [] {
      assert forall k | 0 <= k < |names| - 1 :: names[1..][k] == names[k + 1];
      SameNotIn(a, b, names[1..]);
    }
  }

  lemma NothingNotIn(a: seq<string>, names: seq<string>)
    requires forall k | 0 <= k < |names| :: names[k] in a
    ensures NotIn(a, names) == []
  {
    NotInIs(a, names);
    assert NotIn(a, names) != [] ==> NotIn(a, names)[0] in NotIn(a, names);
  }

  lemma GlobsSettle(env: Env, c: Code, t: Fields, u: Fields)
    requires Sensible(env) && Becomes(env, c, t, u) && EditsFor(env, c, t) != []
    requires c == MissingExcludeSkillsSystem || c == MissingExcludeCodexBinaries
    ensures EditsFor(env, c, u) == []
    ensures c != MissingExcludeSkillsSystem ==> EditsFor(env, MissingExcludeSkillsSystem, u) == EditsFor(env, MissingExcludeSkillsSystem, t)
    ensures c != MissingExcludeCodexBinaries ==> EditsFor(env, MissingExcludeCodexBinaries, u) == EditsFor(env, MissingExcludeCodexBinaries, t)
    ensures IterableAt(u, "exclude_globs")
  {
    hide NotIn, Becomes, ItemsAt;
    GlobsGrow(env, c, t, u);
    var before, after := ItemsAt(env, t, "exclude_globs"), ItemsAt(env, u, "exclude_globs");
    NotInIs(before, BINARY_GLOBS);
    assert SKILLS_GLOB !in BINARY_GLOBS;
    if c == MissingExcludeSkillsSystem {
      assert SKILLS_GLOB in [SKILLS_GLOB];
      SameNotIn(before, after, BINARY_GLOBS);
    } else {
      NothingNotIn(after, BINARY_GLOBS);
    }
  }

  lemma {:induction false} WithoutTexts(env: Env, current: seq<Value>, items: seq<string>)
    requires Sensible(env)
    ensures forall s | s in TextsOf(env, Without(current, items)) && Owned(s) :: s in TextsOf(env, current) && s !in items
    decreases |current|
  {
    hide Owned;
    if current != [] {
      WithoutTexts(env, current[1..], items);
      var head := if current[0].Str? && current[0].s in items then [] else [current[0]];
      TextsConcat(env, head, Without(current[1..], items));
      assert TextsOf(env, head) == if head == [] then [] else [env.text(current[0])];
    }
  }

  lemma {:induction false} ObsoleteIs(env: Env, roots: seq<string>)
    ensures forall s :: s in Obsolete(env, roots) <==> s in roots && Owned(s) && s !in env.template
    ensures (forall s | s in roots :: !Owned(s) || s in env.template) ==> Obsolete(env, roots) == []
  {
    hide Owned;
    if roots != [] { ObsoleteIs(env, roots[1..]); }
  }

  lemma RootsSettle(env: Env, t: Fields, u: Fields)
    requires Sensible(env) && Becomes(env, ObsoleteIncludeRoot, t, u) && EditsFor(env, ObsoleteIncludeRoot, t) != []
    ensures EditsFor(env, ObsoleteIncludeRoot, u) == [] && IterableAt(u, "include_roots")
  {
    hide Obsolete, Owned;
    var roots := ItemsAt(env, t, "include_roots");
    var obsolete := Obsolete(env, roots);
    ApplyInOne(t, EditsFor(env, ObsoleteIncludeRoot, t)[0]);
    ObsoleteIs(env, roots);
    assert obsolete[0] in obsolete;
    WithoutTexts(env, t["include_roots"].items, obsolete);
    var left := ItemsAt(env, u, "include_roots");
    ObsoleteIs(env, left);
  }

  lemma SchedulerSettles(env: Env, c: Code, t: Fields, u: Fields)
    requires Becomes(env, c, t, u) && EditsFor(env, c, t) != [] && Section(c) == "scheduler"
    ensures EditsFor(env, c, u) == []
    ensures forall e: Code | e != c && Section(e) == "scheduler" :: EditsFor(env, e, u) == EditsFor(env, e, t)
  {
    match c
    case SchedulerIntervalTooShort =>
      ApplyInOne(t, EditsFor(env, c, t)[0]);
      assert LegacyKeys(u) == LegacyKeys(t);
    case SchedulerIntervalMigrated =>
      var es := EditsFor(env, c, t);
      assert es == [es[0]] + [es[1]];
      ApplyInConcat(t, [es[0]], [es[1]]);
      ApplyInOne(t, es[0]);
      ApplyInOne(t["interval_seconds" := es[0].op.v], es[1]);
      assert LegacyKeys(u) == LegacyKeys(t);
    case LegacySchedulerKeys =>
      LegacyRemoved(env, t, u);
  }

  lemma LegacyRemoved(env: Env, t: Fields, u: Fields)
    requires Becomes(env, LegacySchedulerKeys, t, u) && LegacyKeys(t) != []
    ensures LegacyKeys(u) == []
    ensures SameKey(t, u, "interval_seconds") && (CarriesPeriod(t) <==> CarriesPeriod(u))
    ensures CarriesPeriod(t) ==> SameKey(t, u, "interval_minutes")
  {
    var keys := LegacyKeys(t);
    var es := RemoveKeys(keys);
    assert |es| == |keys| <= 2;
    if |keys| == 2 {
      assert es == [es[0]] + [es[1]];
      ApplyInConcat(t, [es[0]], [es[1]]);
      ApplyInOne(t, es[0]);
      ApplyInOne(t - {keys[0]}, es[1]);
    } else {
      assert es == [es[0]];
      ApplyInOne(t, es[0]);
    }
  }

  lemma FlagsSettle(env: Env, c: Code, t: Fields, u: Fields)
    requires Sensible(env) && Becomes(env, c, t, u) && EditsFor(env, c, t) != []
    requires c == TerminateFlagSet || c == BackupDisabled || c == SessionModeLastDate
    ensures EditsFor(env, c, u) == []
    ensures c == TerminateFlagSet ==> SameKey(t, u, "process_names") && SameKey(t, u, BACKGROUND)
  {
    ApplyInOne(t, EditsFor(env, c, t)[0]);
    if c == SessionModeLastDate {
      assert env.text(Str("all")) == "all";
      assert |Lower(Strip("all"))| == |Strip("all")| <= 3 by { StripShorter("all"); }
    }
  }

  lemma {:induction false} TrimShorter(s: string, drop: char -> bool)
    ensures |TrimLeft(s, drop)| <= |s| && |TrimRight(s, drop)| <= |s|
    decreases |s|
  {
    if s != "" {
      TrimShorter(s[1..], drop);
      TrimShorter(s[..|s| - 1], drop);
    }
  }

  lemma StripShorter(s: string)
    ensures |Strip(s)| <= |s|
  {
    TrimShorter(s, IsSpace);
    TrimShorter(TrimLeft(s, IsSpace), IsSpace);
  }

  /** Settling one finding of a section leaves the others of that section as they were. */
  lemma SectionSettles(env: Env, c: Code, t: Fields, u: Fields)
    requires Sensible(env) && Becomes(env, c, t, u) && EditsFor(env, c, t) != []
    ensures EditsFor(env, c, u) == []
    ensures forall e: Code | e != c && Section(e) == Section(c) :: EditsFor(env, e, u) == EditsFor(env, e, t)
  {
    hide Becomes, DetectionEdits, NotIn, Lower, Obsolete, LegacyKeys, CarriesPeriod;
    match c
    case DetectionListOutdated => DetectionIsSettled(env, t, u);
    case TerminateFlagSet => FlagsSettle(env, c, t, u); SameDetection(env, t, u);
    case BackupDisabled => FlagsSettle(env, c, t, u);
    case SessionModeLastDate => FlagsSettle(env, c, t, u);
    case MissingExcludeCodexBinaries => GlobsSettle(env, c, t, u);
    case MissingExcludeSkillsSystem => GlobsSettle(env, c, t, u);
    case ObsoleteIncludeRoot => RootsSettle(env, t, u);
    case SchedulerIntervalTooShort => SchedulerSettles(env, c, t, u);
    case SchedulerIntervalMigrated => SchedulerSettles(env, c, t, u);
    case LegacySchedulerKeys => SchedulerSettles(env, c, t, u);
  }

  lemma DetectionIsSettled(env: Env, t: Fields, u: Fields)
    requires Sensible(env) && Becomes(env, DetectionListOutdated, t, u)
    ensures EditsFor(env, DetectionListOutdated, u) == [] && SameKey(t, u, "allow_terminate_if_running")
  {
    hide DetectionEdits, ApplyIn;
    DetectionSettles(env, t);
  }

  lemma SameDetection(env: Env, t: Fields, u: Fields)
    requires SameKey(t, u, "process_names") && SameKey(t, u, BACKGROUND)
    ensures DetectionEdits(env, u) == DetectionEdits(env, t)
  {
    hide SameMarkers, NamesMissing, MarkersMissing, MarkerEdit;
    SameNames(env, t, u);
    SameBackground(t, u);
    SameMarkerEdit(env, t, u, "windows", WINDOWS_MARKERS);
    SameMarkerEdit(env, t, u, "macos", MACOS_MARKERS);
    SameMarkerEdit(env, t, u, "linux", LINUX_MARKERS);
  }

  /** What the inspection needs of one section. */
  predicate ReadableIn(section: string, t: Fields) {
    && (section == "process_detection" ==> IterableAt(t, "process_names"))
    && (forall os | section == "process_detection" && os in {"windows", "macos", "linux"} :: IterableAt(TableIn(t, BACKGROUND), os))
    && (section == "filters" ==> IterableAt(t, "exclude_globs"))
    && (section == "targets" ==> IterableAt(t, "include_roots"))
    && (section == "scheduler" ==> PeriodReadable(t))
  }

  lemma SectionStaysReadable(env: Env, c: Code, t: Fields, u: Fields)
    requires Sensible(env) && Becomes(env, c, t, u) && EditsFor(env, c, t) != [] && ReadableIn(Section(c), t)
    ensures ReadableIn(Section(c), u)
  {
    hide Becomes, DetectionEdits, NotIn, Lower, Obsolete, LegacyKeys, CarriesPeriod, PeriodReadable;
    match c
    case DetectionListOutdated => DetectionStaysReadable(env, t, u);
    case TerminateFlagSet => FlagsSettle(env, c, t, u); SameNames(env, t, u); SameBackground(t, u); SameLists(env, t, u);
    case BackupDisabled =>
    case SessionModeLastDate =>
    case MissingExcludeCodexBinaries => GlobsSettle(env, c, t, u);
    case MissingExcludeSkillsSystem => GlobsSettle(env, c, t, u);
    case ObsoleteIncludeRoot => RootsSettle(env, t, u);
    case SchedulerIntervalTooShort => PeriodStaysReadable(env, c, t, u);
    case SchedulerIntervalMigrated => PeriodStaysReadable(env, c, t, u);
    case LegacySchedulerKeys => PeriodStaysReadable(env, c, t, u);
  }

  lemma PeriodStaysReadable(env: Env, c: Code, t: Fields, u: Fields)
    requires Becomes(env, c, t, u) && EditsFor(env, c, t) != [] && Section(c) == "scheduler" && PeriodReadable(t)
    ensures PeriodReadable(u)
  {
    hide FitsDouble;
    match c
    case SchedulerIntervalTooShort =>
      ApplyInOne(t, EditsFor(env, c, t)[0]);
    case SchedulerIntervalMigrated =>
      var es := EditsFor(env, c, t);
      assert es == [es[0]] + [es[1]];
      ApplyInConcat(t, [es[0]], [es[1]]);
      ApplyInOne(t, es[0]);
      ApplyInOne(t["interval_seconds" := es[0].op.v], es[1]);
    case LegacySchedulerKeys =>
      LegacyRemoved(env, t, u);
  }

  lemma DetectionStaysReadable(env: Env, t: Fields, u: Fields)
    requires Sensible(env) && Becomes(env, DetectionListOutdated, t, u) && ReadableIn("process_detection", t)
    ensures ReadableIn("process_detection", u)
  {
    hide DetectionEdits, ApplyIn, IterableAt, TableIn;
    DetectionSettles(env, t);
  }

  lemma SameLists(env: Env, t: Fields, u: Fields)
    requires forall os :: SameMarkers(t, u, os)
    ensures forall os :: IterableAt(TableIn(u, BACKGROUND), os) == IterableAt(TableIn(t, BACKGROUND), os)
  {
    forall os
      ensures IterableAt(TableIn(u, BACKGROUND), os) == IterableAt(TableIn(t, BACKGROUND), os)
    {
      SameMarkerEdit(env, t, u, os, []);
    }
  }

  predicate Distinct(codes: seq<Code>) { forall j, k | 0 <= j < k < |codes| :: codes[j] != codes[k] }

  /** Both documents report the code alike. */
  predicate Alike(env: Env, a: Fields, b: Fields, defaults: bool, c: Code) {
    FindingOf(env, a, c) == FindingOf(env, b, c) && (Reports(env, a, defaults, c) <==> Reports(env, b, defaults, c))
  }

  /** Applying one finding's edits removes that finding and touches no other. */
  lemma OneFinding(env: Env, doc: Fields, c: Code, d: Fields)
    requires Sensible(env) && FindingOf(env, doc, c).edits != []
    requires ApplyAll(doc, FindingOf(env, doc, c).edits) == Some(d)
    ensures forall defaults :: FindingOf(env, d, c).edits == [] && !Reports(env, d, defaults, c)
    ensures forall defaults, e: Code | e != c :: Alike(env, d, doc, defaults, e)
    ensures Readable(doc) ==> Readable(d)
  {
    hide *;
    OnlyItsSection(env, doc, c, d);
    FindingsElsewhere(env, doc, c, d);
    SameReports(env, doc, c, d);
    if Readable(doc) {
      ReadableElsewhere(env, doc, c, d);
    }
  }

  lemma SameReports(env: Env, doc: Fields, c: Code, d: Fields)
    requires FindingOf(env, doc, c).edits != [] && FindingOf(env, d, c).edits == []
    requires forall e: Code | e != c :: FindingOf(env, d, e) == FindingOf(env, doc, e)
    requires forall e: Code | IsAbsence(e) :: Section(e) in d <==> Section(e) in doc
    ensures forall defaults :: !Reports(env, d, defaults, c)
    ensures forall defaults, e: Code | e != c :: Alike(env, d, doc, defaults, e)
  {
    NoneForAbsence(env, c, TableIn(doc, Section(c)));
    hide EditsFor, TableIn, Section;
  }

  lemma OnlyItsSection(env: Env, doc: Fields, c: Code, d: Fields)
    requires ApplyAll(doc, FindingOf(env, doc, c).edits) == Some(d)
    ensures Becomes(env, c, TableIn(doc, Section(c)), TableIn(d, Section(c)))
    ensures forall s | s != Section(c) :: TableIn(d, s) == TableIn(doc, s) && (s in d <==> s in doc)
  {
    hide EditsFor, ApplyAll, ApplyIn, TableIn;
    var s := Section(c);
    EditsAreInSection(env, c, TableIn(doc, s));
    ApplyAllIsIn(doc, EditsFor(env, c, TableIn(doc, s)), s);
    forall other | other != s
      ensures TableIn(d, other) == TableIn(doc, other) && (other in d <==> other in doc)
    {
      OtherSections(d, doc, s, other);
    }
  }

  lemma FindingsElsewhere(env: Env, doc: Fields, c: Code, d: Fields)
    requires Sensible(env) && FindingOf(env, doc, c).edits != []
    requires Becomes(env, c, TableIn(doc, Section(c)), TableIn(d, Section(c)))
    requires forall s | s != Section(c) :: TableIn(d, s) == TableIn(doc, s) && (s in d <==> s in doc)
    ensures FindingOf(env, d, c).edits == []
    ensures forall e: Code | e != c :: FindingOf(env, d, e) == FindingOf(env, doc, e)
    ensures forall e: Code | IsAbsence(e) :: Section(e) in d <==> Section(e) in doc
  {
    hide EditsFor, Becomes, TableIn;
    NoneForAbsence(env, c, TableIn(doc, Section(c)));
    SectionSettles(env, c, TableIn(doc, Section(c)), TableIn(d, Section(c)));
  }

  lemma NoneForAbsence(env: Env, c: Code, t: Fields)
    ensures IsAbsence(c) ==> EditsFor(env, c, t) == []
  {
  }

  lemma ReadableElsewhere(env: Env, doc: Fields, c: Code, d: Fields)
    requires Sensible(env) && FindingOf(env, doc, c).edits != [] && Readable(doc)
    requires Becomes(env, c, TableIn(doc, Section(c)), TableIn(d, Section(c)))
    requires forall s | s != Section(c) :: TableIn(d, s) == TableIn(doc, s) && (s in d <==> s in doc)
    ensures Readable(d)
  {
    hide EditsFor, Becomes, TableIn, IterableAt;
    assert ReadableIn(Section(c), TableIn(doc, Section(c)));
    SectionStaysReadable(env, c, TableIn(doc, Section(c)), TableIn(d, Section(c)));
  }

  // ------------------------------------------------------------------ rendering

  /** All edits of the findings not skipped, in order; `None` when the editor refuses one. */
  function Rendered(doc: Fields, findings: seq<Finding>, skip: set<Code>): Option<Fields>
    decreases |findings|
  {
    if findings == [] then Some(doc)
    else if findings[0].code in skip then Rendered(doc, findings[1..], skip)
    else match ApplyAll(doc, findings[0].edits)
      case None => None
      case Some(d) => Rendered(d, findings[1..], skip)
  }

  /** What is left to report: what was skipped, and what has no edit. */
  function Left(findings: seq<Finding>, skip: set<Code>): seq<Finding> {
    if findings == [] then []
    else (if findings[0].code in skip || findings[0].edits == [] then [findings[0]] else []) + Left(findings[1..], skip)
  }

  lemma {:induction false} CollectAlike(env: Env, a: Fields, b: Fields, defaults: bool, codes: seq<Code>)
    requires forall c | c in codes :: Alike(env, a, b, defaults, c)
    ensures Collect(env, a, defaults, codes) == Collect(env, b, defaults, codes)
  {
    hide Reports, FindingOf;
    if codes != [] {
      assert Alike(env, a, b, defaults, codes[0]);
      CollectAlike(env, a, b, defaults, codes[1..]);
    }
  }

  /** Each code in the list is settled or, if skipped or without edits, as it was; so are all others. */
  ghost predicate Settled(env: Env, doc: Fields, out: Fields, defaults: bool, codes: seq<Code>, skip: set<Code>) {
    && (forall c: Code | c !in codes || c in skip || FindingOf(env, doc, c).edits == [] :: Alike(env, out, doc, defaults, c))
    && (forall c: Code | c in codes && c !in skip && FindingOf(env, doc, c).edits != [] ::
         FindingOf(env, out, c).edits == [] && !Reports(env, out, defaults, c))
  }

  lemma {:induction false} RenderSettles(env: Env, doc: Fields, defaults: bool, codes: seq<Code>, skip: set<Code>, out: Fields)
    requires Sensible(env) && Distinct(codes)
    requires Rendered(doc, Collect(env, doc, defaults, codes), skip) == Some(out)
    ensures Settled(env, doc, out, defaults, codes, skip)
    ensures Readable(doc) ==> Readable(out)
    decreases |codes|
  {
    hide EditsFor, Readable, ApplyAll, Reports, TableIn, Section, IsAbsence, Settled;
    if codes == [] {
      NothingSettled(env, doc, defaults, skip);
    } else {
      var c, rest := codes[0], codes[1..];
      assert codes == [c] + rest && c !in rest;
      var f := FindingOf(env, doc, c);
      var found := Collect(env, doc, defaults, codes);
      if Reports(env, doc, defaults, c) {
        assert found == [f] + Collect(env, doc, defaults, rest);
        assert found[1..] == Collect(env, doc, defaults, rest);
      } else {
        assert found == Collect(env, doc, defaults, rest);
      }
      if Reports(env, doc, defaults, c) && c !in skip && f.edits != [] {
        var d := ApplyAll(doc, f.edits).value;
        OneFinding(env, doc, c, d);
        CollectAlike(env, d, doc, defaults, rest);
        RenderSettles(env, d, defaults, rest, skip, out);
        SettledAfter(env, doc, d, out, defaults, c, rest, skip);
      } else {
        NoEditsNoChange(doc, f.edits);
        EditsAreReported(env, doc, defaults, c);
        RenderSettles(env, doc, defaults, rest, skip, out);
        SettledWithout(env, doc, out, defaults, c, rest, skip);
      }
    }
  }

  lemma NothingSettled(env: Env, doc: Fields, defaults: bool, skip: set<Code>)
    ensures Settled(env, doc, doc, defaults, [], skip)
  {
  }

  lemma SettledAfter(env: Env, doc: Fields, d: Fields, out: Fields, defaults: bool, c: Code, rest: seq<Code>, skip: set<Code>)
    requires FindingOf(env, d, c).edits == [] && !Reports(env, d, defaults, c)
    requires forall e: Code | e != c :: Alike(env, d, doc, defaults, e)
    requires Settled(env, d, out, defaults, rest, skip)
    requires c !in rest && c !in skip && FindingOf(env, doc, c).edits != []
    ensures Settled(env, doc, out, defaults, [c] + rest, skip)
  {
    hide EditsFor, Reports, TableIn, Section;
    assert Alike(env, out, d, defaults, c);
    var codes := [c] + rest;
    forall e: Code | e !in codes || e in skip || FindingOf(env, doc, e).edits == []
      ensures Alike(env, out, doc, defaults, e)
    {
      assert e != c && Alike(env, d, doc, defaults, e) && Alike(env, out, d, defaults, e);
    }
    forall e: Code | e in codes && e !in skip && FindingOf(env, doc, e).edits != []
      ensures FindingOf(env, out, e).edits == [] && !Reports(env, out, defaults, e)
    {
      if e != c {
        assert Alike(env, d, doc, defaults, e);
      }
    }
  }

  lemma SettledWithout(env: Env, doc: Fields, out: Fields, defaults: bool, c: Code, rest: seq<Code>, skip: set<Code>)
    requires Settled(env, doc, out, defaults, rest, skip) && c !in rest
    requires c in skip || FindingOf(env, doc, c).edits == []
    ensures Settled(env, doc, out, defaults, [c] + rest, skip)
  {
    hide EditsFor, Reports, TableIn, Section;
  }

  lemma EditsAreReported(env: Env, doc: Fields, defaults: bool, c: Code)
    ensures FindingOf(env, doc, c).edits != [] ==> Reports(env, doc, defaults, c)
  {
  }

  lemma NoEditsNoChange(doc: Fields, edits: seq<Edit>)
    ensures edits == [] ==> ApplyAll(doc, edits) == Some(doc)
  {
  }

  lemma {:induction false} CollectLeft(env: Env, doc: Fields, out: Fields, defaults: bool, codes: seq<Code>, skip: set<Code>)
    requires forall c: Code | c in codes && (c in skip || FindingOf(env, doc, c).edits == []) :: Alike(env, out, doc, defaults, c)
    requires forall c: Code | c in codes && c !in skip && FindingOf(env, doc, c).edits != [] :: !Reports(env, out, defaults, c)
    ensures Collect(env, out, defaults, codes) == Left(Collect(env, doc, defaults, codes), skip)
    decreases |codes|
  {
    hide Reports, EditsFor;
    if codes != [] {
      CollectLeft(env, doc, out, defaults, codes[1..], skip);
      var f, rest := FindingOf(env, doc, codes[0]), Collect(env, doc, defaults, codes[1..]);
      assert ([f] + rest)[1..] == rest && codes[0] in codes;
      EditsAreReported(env, doc, defaults, codes[0]);
      if codes[0] in skip || f.edits == [] {
        assert Alike(env, out, doc, defaults, codes[0]);
      }
      var found := Collect(env, doc, defaults, codes);
      if Reports(env, doc, defaults, codes[0]) {
        assert found == [f] + rest;
      } else {
        assert found == rest;
      }
      assert Left([f] + rest, skip) == (if codes[0] in skip || f.edits == [] then [f] else []) + Left(rest, skip);
    }
  }

  /**
   Migration reaches its fixed point in one application: inspecting what was rendered reports
   exactly the skipped findings and those without an edit, each as before.
   */
  lemma OneApplicationIsEnough(env: Env, doc: Fields, defaults: bool, skip: set<Code>, out: Fields)
    requires Sensible(env) && Rendered(doc, Findings(env, doc, defaults), skip) == Some(out)
    ensures Findings(env, out, defaults) == Left(Findings(env, doc, defaults), skip)
    ensures Readable(doc) ==> Readable(out)
  {
    hide EditsFor, Readable, Rendered, Collect, Left;
    RenderSettles(env, doc, defaults, RANKED, skip, out);
    CollectLeft(env, doc, out, defaults, RANKED, skip);
  }

  predicate Fixable(f: Finding) { f.edits != [] }

  /** With nothing skipped nothing fixable remains. */
  lemma NothingFixableRemains(env: Env, doc: Fields, defaults: bool, out: Fields)
    requires Sensible(env) && Rendered(doc, Findings(env, doc, defaults), {}) == Some(out)
    ensures forall f | f in Findings(env, out, defaults) :: !Fixable(f)
  {
    hide EditsFor, Rendered, Collect;
    OneApplicationIsEnough(env, doc, defaults, {}, out);
    LeftUnskipped(Findings(env, doc, defaults));
  }

  lemma {:induction false} LeftUnskipped(findings: seq<Finding>)
    ensures forall f | f in Left(findings, {}) :: !Fixable(f)
  {
    if findings != [] { LeftUnskipped(findings[1..]); }
  }

  // ------------------------------------------------------------------ what stays

  /** The value at a path of names, if there is one. */
  function Lookup(fields: Fields, path: seq<string>): Option<Value>
    requires path != []
    decreases |path|
  {
    if path[0] !in fields then None
    else if |path| == 1 then Some(fields[path[0]])
    else Lookup(TableIn(fields, path[0]), path[1..])
  }

  /** One of the paths leads through the other. */
  predicate Related(p: seq<string>, q: seq<string>) { p <= q || q <= p }

  function PathOf(e: Edit): seq<string> { [e.section] + e.inner + [e.key] }

  lemma {:induction false} BelowKeeps(fields: Fields, path: seq<string>, key: string, op: Op, p: seq<string>)
    requires p != [] && !Related(p, path + [key]) && ApplyBelow(fields, path, key, op).Some?
    ensures Lookup(ApplyBelow(fields, path, key, op).value, p) == Lookup(fields, p)
    decreases |path|
  {
    if path == [] {
      assert p[0] == key ==> [key] <= p;
      assert [] + [key] == [key];
    } else if p[0] == path[0] {
      assert |p| == 1 ==> p <= path + [key];
      var sub := TableIn(fields, path[0]);
      assert path + [key] == [path[0]] + (path[1..] + [key]) && p == [p[0]] + p[1..];
      BelowKeeps(sub, path[1..], key, op, p[1..]);
      EmptyLookup(p[1..]);
    }
  }

  lemma EmptyLookup(p: seq<string>)
    requires p != []
    ensures Lookup(map[], p) == None
  {
  }

  lemma {:induction false} EditsKeep(doc: Fields, edits: seq<Edit>, p: seq<string>)
    requires p != [] && forall k | 0 <= k < |edits| :: !Related(p, PathOf(edits[k]))
    ensures ApplyAll(doc, edits).Some? ==> Lookup(ApplyAll(doc, edits).value, p) == Lookup(doc, p)
    decreases |edits|
  {
    hide Lookup, ApplyBelow;
    if edits != [] && Apply(doc, edits[0]).Some? {
      BelowKeeps(doc, [edits[0].section] + edits[0].inner, edits[0].key, edits[0].op, p);
      EditsKeep(Apply(doc, edits[0]).value, edits[1..], p);
    }
  }

  /** No edit that is applied names `p`, anything on the way to it, or anything below it. */
  predicate Unnamed(findings: seq<Finding>, skip: set<Code>, p: seq<string>) {
    forall k | 0 <= k < |findings| && findings[k].code !in skip ::
      forall e | e in findings[k].edits :: !Related(p, PathOf(e))
  }

  /** Keys that no applied edit names keep their values, or their absence. */
  lemma {:induction false} UnnamedStays(doc: Fields, findings: seq<Finding>, skip: set<Code>, p: seq<string>)
    requires p != [] && Unnamed(findings, skip, p)
    ensures Rendered(doc, findings, skip).Some? ==> Lookup(Rendered(doc, findings, skip).value, p) == Lookup(doc, p)
    decreases |findings|
  {
    hide Lookup, ApplyAll;
    if findings != [] {
      assert forall k | 0 <= k < |findings| - 1 :: findings[1..][k] == findings[k + 1];
      if findings[0].code in skip {
        UnnamedStays(doc, findings[1..], skip, p);
      } else {
        EditsKeep(doc, findings[0].edits, p);
        if ApplyAll(doc, findings[0].edits).Some? {
          UnnamedStays(ApplyAll(doc, findings[0].edits).value, findings[1..], skip, p);
        }
      }
    }
  }

  // ------------------------------------------------------------------ the migrated period

  lemma {:induction false} CollectConcat(env: Env, doc: Fields, defaults: bool, a: seq<Code>, b: seq<Code>)
    ensures Collect(env, doc, defaults, a + b) == Collect(env, doc, defaults, a) + Collect(env, doc, defaults, b)
    decreases |a|
  {
    hide Reports, FindingOf;
    if a == [] {
      assert a + b == b;
    } else {
      assert (a + b)[1..] == a[1..] + b;
      CollectConcat(env, doc, defaults, a[1..], b);
    }
  }

  lemma {:induction false} RenderedConcat(doc: Fields, a: seq<Finding>, b: seq<Finding>, skip: set<Code>)
    ensures Rendered(doc, a + b, skip) == match Rendered(doc, a, skip) case None => None case Some(d) => Rendered(d, b, skip)
    decreases |a|
  {
    hide ApplyAll;
    if a == [] {
      assert a + b == b;
    } else {
      assert (a + b)[1..] == a[1..] + b;
      if a[0].code in skip {
        RenderedConcat(doc, a[1..], b, skip);
      } else if ApplyAll(doc, a[0].edits).Some? {
        RenderedConcat(ApplyAll(doc, a[0].edits).value, a[1..], b, skip);
      }
    }
  }

  const BEFORE_PERIOD := RANKED[..9]
  const AFTER_PERIOD := RANKED[10..]

  /** What applying only the period's edits gives, and that the findings after it change nothing. */
  lemma PeriodSet(env: Env, d: Fields, skip: set<Code>, out: Fields, defaults: bool)
    requires SchedulerIntervalMigrated !in skip && CarriesPeriod(TableIn(d, "scheduler"))
    requires Rendered(d, Collect(env, d, defaults, [SchedulerIntervalMigrated] + AFTER_PERIOD), skip) == Some(out)
    ensures var s, t := TableIn(d, "scheduler"), TableIn(out, "scheduler");
      "interval_minutes" !in t && "interval_seconds" in t && t["interval_seconds"] == Int(MigratedSeconds(s["interval_minutes"]))
  {
    var c := SchedulerIntervalMigrated;
    var s := TableIn(d, "scheduler");
    var es := FindingOf(env, d, c).edits;
    CollectConcat(env, d, defaults, [c], AFTER_PERIOD);
    assert [c][1..] == [];
    assert Collect(env, d, defaults, [c]) == [FindingOf(env, d, c)];
    RenderedConcat(d, [FindingOf(env, d, c)], Collect(env, d, defaults, AFTER_PERIOD), skip);
    assert [FindingOf(env, d, c)][1..] == [];
    EditsAreInSection(env, c, s);
    ApplyAllIsIn(d, es, "scheduler");
    assert es == [es[0]] + [es[1]];
    ApplyInConcat(s, [es[0]], [es[1]]);
    ApplyInOne(s, es[0]);
    ApplyInOne(s["interval_seconds" := es[0].op.v], es[1]);
    AbsencesChangeNothing(env, d, defaults, ApplyAll(d, es).value, skip);
  }

  lemma AbsencesChangeNothing(env: Env, doc: Fields, defaults: bool, d: Fields, skip: set<Code>)
    ensures Rendered(d, Collect(env, doc, defaults, AFTER_PERIOD), skip) == Some(d)
  {
    assert AFTER_PERIOD == [SectionAbsentGuardian, SectionAbsentSemantic];
    var found := Collect(env, doc, defaults, AFTER_PERIOD);
    CollectConcat(env, doc, defaults, [SectionAbsentGuardian], [SectionAbsentSemantic]);
    assert AFTER_PERIOD == [SectionAbsentGuardian] + [SectionAbsentSemantic];
    assert [SectionAbsentGuardian][1..] == [] && [SectionAbsentSemantic][1..] == [];
    assert forall k | 0 <= k < |found| :: found[k].edits == [];
    NoEditsRender(d, found, skip);
  }

  lemma {:induction false} NoEditsRender(d: Fields, findings: seq<Finding>, skip: set<Code>)
    requires forall k | 0 <= k < |findings| :: findings[k].edits == []
    ensures Rendered(d, findings, skip) == Some(d)
    decreases |findings|
  {
    if findings != [] {
      assert forall k | 0 <= k < |findings| - 1 :: findings[1..][k] == findings[k + 1];
      NoEditsRender(d, findings[1..], skip);
    }
  }

  /**
   A period in minutes that is migrated ends as seconds within the bounds the loader accepts, the
   same period, down to the second, when it was within them, and the old key is gone.
   */
  lemma MigratedPeriod(env: Env, doc: Fields, defaults: bool, skip: set<Code>, out: Fields)
    requires Sensible(env) && Rendered(doc, Findings(env, doc, defaults), skip) == Some(out)
    requires Reports(env, doc, defaults, SchedulerIntervalMigrated) && SchedulerIntervalMigrated !in skip
    ensures var minutes := TableIn(doc, "scheduler")["interval_minutes"];
      var t := TableIn(out, "scheduler");
      && "interval_minutes" !in t && "interval_seconds" in t && t["interval_seconds"] == Int(MigratedSeconds(minutes))
      && MIN_SECONDS <= t["interval_seconds"].n <= MAX_SECONDS
      && (minutes.Int? && MIN_SECONDS <= minutes.n * 60 <= MAX_SECONDS ==> t["interval_seconds"].n == minutes.n * 60)
      && (minutes.Float? && MIN_SECONDS <= Truncated(minutes.x * 60.0) <= MAX_SECONDS ==>
            t["interval_seconds"].n == Truncated(minutes.x * 60.0))
  {
    hide *;
    ReportsPeriod(env, doc, defaults);
    var d := UpToPeriod(env, doc, defaults, skip, out);
    CarriedAlike(env, doc, d);
    PeriodSet(env, d, skip, out, defaults);
    PeriodInBounds(TableIn(doc, "scheduler")["interval_minutes"]);
  }

  lemma ReportsPeriod(env: Env, doc: Fields, defaults: bool)
    ensures Reports(env, doc, defaults, SchedulerIntervalMigrated) <==> EditsFor(env, SchedulerIntervalMigrated, TableIn(doc, "scheduler")) != []
  {
  }

  lemma PeriodInBounds(minutes: Value)
    ensures MIN_SECONDS <= MigratedSeconds(minutes) <= MAX_SECONDS
    ensures minutes.Int? && MIN_SECONDS <= minutes.n * 60 <= MAX_SECONDS ==> MigratedSeconds(minutes) == minutes.n * 60
    ensures minutes.Float? && MIN_SECONDS <= Truncated(minutes.x * 60.0) <= MAX_SECONDS ==>
              MigratedSeconds(minutes) == Truncated(minutes.x * 60.0)
  {
  }

  /** The document when the period's turn comes: it reports the period as the first did. */
  lemma UpToPeriod(env: Env, doc: Fields, defaults: bool, skip: set<Code>, out: Fields) returns (d: Fields)
    requires Sensible(env) && Rendered(doc, Findings(env, doc, defaults), skip) == Some(out)
    ensures Rendered(d, Collect(env, d, defaults, [SchedulerIntervalMigrated] + AFTER_PERIOD), skip) == Some(out)
    ensures FindingOf(env, d, SchedulerIntervalMigrated) == FindingOf(env, doc, SchedulerIntervalMigrated)
  {
    hide *;
    var c := SchedulerIntervalMigrated;
    PeriodPlace();
    FindingsIs(env, doc, defaults);
    CollectConcat(env, doc, defaults, BEFORE_PERIOD, [c] + AFTER_PERIOD);
    RenderedConcat(doc, Collect(env, doc, defaults, BEFORE_PERIOD), Collect(env, doc, defaults, [c] + AFTER_PERIOD), skip);
    d := Rendered(doc, Collect(env, doc, defaults, BEFORE_PERIOD), skip).value;
    RenderSettles(env, doc, defaults, BEFORE_PERIOD, skip, d);
    OthersAlike(env, doc, d, defaults, BEFORE_PERIOD, skip, [c] + AFTER_PERIOD);
    CollectAlike(env, d, doc, defaults, [c] + AFTER_PERIOD);
  }

  lemma FindingsIs(env: Env, doc: Fields, defaults: bool)
    ensures Findings(env, doc, defaults) == Collect(env, doc, defaults, RANKED)
  {
  }

  lemma PeriodPlace()
    ensures RANKED == BEFORE_PERIOD + ([SchedulerIntervalMigrated] + AFTER_PERIOD)
    ensures Distinct(BEFORE_PERIOD) && forall e | e in [SchedulerIntervalMigrated] + AFTER_PERIOD :: e !in BEFORE_PERIOD
  {
  }

  lemma OthersAlike(env: Env, doc: Fields, d: Fields, defaults: bool, codes: seq<Code>, skip: set<Code>, others: seq<Code>)
    requires Settled(env, doc, d, defaults, codes, skip) && forall e | e in others :: e !in codes
    ensures forall e | e in others :: Alike(env, d, doc, defaults, e)
    ensures forall e | e in others :: FindingOf(env, d, e) == FindingOf(env, doc, e)
  {
    hide EditsFor, Reports, TableIn;
    assert forall e | e in others :: Alike(env, d, doc, defaults, e);
  }

  /** The same edits for the period mean the same period. */
  lemma CarriedAlike(env: Env, doc: Fields, d: Fields)
    requires FindingOf(env, d, SchedulerIntervalMigrated) == FindingOf(env, doc, SchedulerIntervalMigrated)
    requires EditsFor(env, SchedulerIntervalMigrated, TableIn(doc, "scheduler")) != []
    ensures CarriesPeriod(TableIn(doc, "scheduler")) && CarriesPeriod(TableIn(d, "scheduler"))
    ensures MigratedSeconds(TableIn(d, "scheduler")["interval_minutes"]) == MigratedSeconds(TableIn(doc, "scheduler")["interval_minutes"])
  {
    var a, b := EditsFor(env, SchedulerIntervalMigrated, TableIn(doc, "scheduler")), EditsFor(env, SchedulerIntervalMigrated, TableIn(d, "scheduler"));
    assert a[0] == b[0];
  }

  // ------------------------------------------------------------------ the procedures

  datatype MigrationError = NotReadable | NotInPlan | CannotBeKept | Refused

  /** The generators of a group of codes, one after another. */
  method Generate(env: Env, doc: Fields, defaults: bool, codes: seq<Code>) returns (r: seq<Finding>)
    ensures r == Collect(env, doc, defaults, codes)
  {
    r := [];
    for k := 0 to |codes|
      invariant r == Collect(env, doc, defaults, codes[..k])
    {
      assert codes[..k + 1] == codes[..k] + [codes[k]];
      CollectConcat(env, doc, defaults, codes[..k], [codes[k]]);
      assert [codes[k]][1..] == [];
      if Reports(env, doc, defaults, codes[k]) {
        r := r + [FindingOf(env, doc, codes[k])];
      }
    }
    assert codes[..|codes|] == codes;
  }

  predicate Ascending(findings: seq<Finding>) {
    forall j, k | 0 <= j < k < |findings| :: Rank(findings[j].code) < Rank(findings[k].code)
  }

  ghost predicate SameElements(a: seq<Finding>, b: seq<Finding>) { forall f :: f in a <==> f in b }

  /** The sort by level and code. */
  method SortFindings(findings: seq<Finding>) returns (r: seq<Finding>)
    requires DistinctCodes(findings)
    ensures Ascending(r) && SameElements(r, findings)
  {
    r := [];
    for k := 0 to |findings|
      invariant Ascending(r) && SameElements(r, findings[..k])
    {
      var f := findings[k];
      assert findings[..k + 1] == findings[..k] + [f];
      assert forall g | g in findings[..k] :: g.code != f.code;
      var i := 0;
      while i < |r| && Rank(r[i].code) < Rank(f.code)
        invariant i <= |r|
        invariant forall j | 0 <= j < i :: Rank(r[j].code) < Rank(f.code)
      {
        i := i + 1;
      }
      InsertAscending(r, i, f);
      r := r[..i] + [f] + r[i..];
    }
    assert findings[..|findings|] == findings;
  }

  lemma RankIsCode(a: Code, b: Code)
    ensures Rank(a) == Rank(b) ==> a == b
  {
  }

  lemma InsertAscending(r: seq<Finding>, i: nat, f: Finding)
    requires Ascending(r) && i <= |r| && forall g | g in r :: g.code != f.code
    requires forall j | 0 <= j < i :: Rank(r[j].code) < Rank(f.code)
    requires i < |r| ==> Rank(r[i].code) >= Rank(f.code)
    ensures Ascending(r[..i] + [f] + r[i..])
    ensures forall g :: g in r[..i] + [f] + r[i..] <==> g in r || g == f
  {
    hide Rank, Ascending;
    InsertElements(r, i, f);
    if i < |r| {
      assert r[i] in r;
      RankIsCode(r[i].code, f.code);
    }
    InsertedAscends(r, i, f);
  }

  lemma InsertElements(r: seq<Finding>, i: nat, f: Finding)
    requires i <= |r|
    ensures forall g :: g in r[..i] + [f] + r[i..] <==> g in r || g == f
  {
    assert r == r[..i] + r[i..];
  }

  lemma InsertedAscends(r: seq<Finding>, i: nat, f: Finding)
    requires Ascending(r) && i <= |r|
    requires forall j | 0 <= j < i :: Rank(r[j].code) < Rank(f.code)
    requires i < |r| ==> Rank(r[i].code) > Rank(f.code)
    ensures Ascending(r[..i] + [f] + r[i..])
  {
    hide Rank;
    assert forall j | i <= j < |r| :: Rank(r[j].code) >= Rank(r[i].code);
    var all := r[..i] + [f] + r[i..];
    forall j, k | 0 <= j < k < |all|
      ensures Rank(all[j].code) < Rank(all[k].code)
    {
      if k < i {
        assert all[j] == r[j] && all[k] == r[k];
      } else if k == i {
        assert all[j] == r[j] && all[k] == f;
      } else {
        assert all[k] == r[k - 1];
        assert all[j] == if j < i then r[j] else if j == i then f else r[j - 1];
      }
    }
  }

  /** Two ascending lists with the same elements are the same list. */
  lemma {:induction false} AscendingUnique(a: seq<Finding>, b: seq<Finding>)
    requires Ascending(a) && Ascending(b) && SameElements(a, b)
    ensures a == b
    decreases |a|
  {
    hide Rank;
    assert a != [] ==> a[0] in b;
    assert b != [] ==> b[0] in a;
    if a != [] && b != [] {
      assert a[0] in b && b[0] in a;
      var i :| 0 <= i < |b| && b[i] == a[0];
      var j :| 0 <= j < |a| && a[j] == b[0];
      assert a[0] == b[0];
      assert a == [a[0]] + a[1..] && b == [b[0]] + b[1..];
      assert a[0] !in a[1..] && b[0] !in b[1..];
      forall f
        ensures f in a[1..] <==> f in b[1..]
      {
        assert f in a[1..] <==> f in a && f != a[0];
        assert f in b[1..] <==> f in b && f != b[0];
      }
      AscendingUnique(a[1..], b[1..]);
    }
  }

  lemma {:induction false} CollectElements(env: Env, doc: Fields, defaults: bool, codes: seq<Code>)
    ensures forall f :: f in Collect(env, doc, defaults, codes) <==>
      f.code in codes && Reports(env, doc, defaults, f.code) && f == FindingOf(env, doc, f.code)
  {
    hide Reports, EditsFor;
    if codes != [] { CollectElements(env, doc, defaults, codes[1..]); }
  }

  lemma ConsAscending(f: Finding, rest: seq<Finding>)
    requires Ascending(rest) && forall g | g in rest :: Rank(f.code) < Rank(g.code)
    ensures Ascending([f] + rest)
  {
    hide Rank;
    var all := [f] + rest;
    assert forall k | 0 <= k < |all| :: all[k] == if k == 0 then f else rest[k - 1];
  }

  lemma {:induction false} CollectAscending(env: Env, doc: Fields, defaults: bool, codes: seq<Code>)
    requires forall j, k | 0 <= j < k < |codes| :: Rank(codes[j]) < Rank(codes[k])
    ensures Ascending(Collect(env, doc, defaults, codes))
  {
    hide Reports, EditsFor, Rank, Ascending;
    if codes == [] {
      NoneAscending();
    } else {
      var rest := Collect(env, doc, defaults, codes[1..]);
      CollectAscending(env, doc, defaults, codes[1..]);
      CollectElements(env, doc, defaults, codes[1..]);
      assert forall c | c in codes[1..] :: Rank(codes[0]) < Rank(c);
      ConsAscending(FindingOf(env, doc, codes[0]), rest);
      assert [] + rest == rest;
    }
  }

  lemma NoneAscending()
    ensures Ascending([])
  {
  }

  predicate DistinctCodes(findings: seq<Finding>) {
    forall j, k | 0 <= j < k < |findings| :: findings[j].code != findings[k].code
  }

  lemma ConsDistinct(f: Finding, rest: seq<Finding>)
    requires DistinctCodes(rest) && forall g | g in rest :: f.code != g.code
    ensures DistinctCodes([f] + rest)
  {
    var all := [f] + rest;
    assert forall k | 0 <= k < |all| :: all[k] == if k == 0 then f else rest[k - 1];
  }

  lemma {:induction false} CollectDistinct(env: Env, doc: Fields, defaults: bool, codes: seq<Code>)
    requires Distinct(codes)
    ensures DistinctCodes(Collect(env, doc, defaults, codes))
  {
    hide Reports, EditsFor, DistinctCodes;
    if codes == [] {
      NoneDistinct();
    } else {
      var rest := Collect(env, doc, defaults, codes[1..]);
      CollectDistinct(env, doc, defaults, codes[1..]);
      CollectElements(env, doc, defaults, codes[1..]);
      assert forall c | c in codes[1..] :: codes[0] != c;
      ConsDistinct(FindingOf(env, doc, codes[0]), rest);
      assert [] + rest == rest;
    }
  }

  lemma NoneDistinct()
    ensures DistinctCodes([])
  {
  }

  const BLOCKING := [TerminateFlagSet, BackupDisabled, SessionModeLastDate, SchedulerIntervalTooShort]
  const DETECTION := [DetectionListOutdated]
  const CORRECTNESS := [MissingExcludeSkillsSystem, MissingExcludeCodexBinaries, ObsoleteIncludeRoot, SchedulerIntervalMigrated, LegacySchedulerKeys]
  const ABSENCES := [SectionAbsentGuardian, SectionAbsentSemantic]

  /** `inspect_config`, once the text is parsed: the generators in turn, then the sort. */
  method InspectConfig(env: Env, doc: Fields, defaults: bool) returns (r: Result<seq<Finding>, MigrationError>)
    ensures r == if Readable(doc) then Success(Findings(env, doc, defaults)) else Failure(NotReadable)
  {
    hide Collect, Reports, EditsFor, Rank, Readable, Distinct;
    if !Readable(doc) { return Failure(NotReadable); }
    var blocking := Generate(env, doc, defaults, BLOCKING);
    var detection := Generate(env, doc, defaults, DETECTION);
    var correctness := Generate(env, doc, defaults, CORRECTNESS);
    var absent := Generate(env, doc, defaults, ABSENCES);
    var findings := blocking + detection + correctness + absent;
    CollectConcat(env, doc, defaults, BLOCKING, DETECTION);
    CollectConcat(env, doc, defaults, BLOCKING + DETECTION, CORRECTNESS);
    CollectConcat(env, doc, defaults, BLOCKING + DETECTION + CORRECTNESS, ABSENCES);
    InOrder();
    CollectDistinct(env, doc, defaults, BLOCKING + DETECTION + CORRECTNESS + ABSENCES);
    var sorted := SortFindings(findings);
    CollectElements(env, doc, defaults, BLOCKING + DETECTION + CORRECTNESS + ABSENCES);
    CollectElements(env, doc, defaults, RANKED);
    CollectAscending(env, doc, defaults, RANKED);
    AscendingUnique(sorted, Collect(env, doc, defaults, RANKED));
    r := Success(sorted);
  }

  lemma InOrder()
    ensures Distinct(BLOCKING + DETECTION + CORRECTNESS + ABSENCES)
    ensures forall j, k | 0 <= j < k < |RANKED| :: Rank(RANKED[j]) < Rank(RANKED[k])
    ensures forall c: Code :: c in RANKED && c in BLOCKING + DETECTION + CORRECTNESS + ABSENCES
  {
    forall c: Code
      ensures c in RANKED && c in BLOCKING + DETECTION + CORRECTNESS + ABSENCES
    {
      assert RANKED[Rank(c)] == c;
      var all := BLOCKING + DETECTION + CORRECTNESS + ABSENCES;
      var at := [1, 3, 2, 0, 4, 9, 6, 5, 7, 8, 10, 11];
      assert all[at[Rank(c)]] == c;
    }
  }

  predicate InPlan(findings: seq<Finding>, c: Code) { exists k | 0 <= k < |findings| :: findings[k].code == c }

  /** What a skip set may not hold. */
  predicate KeepsABlocker(findings: seq<Finding>, skip: set<Code>) {
    exists k | 0 <= k < |findings| :: findings[k].code in skip && IsBlocker(findings[k].code)
  }

  /** `render_migrated_text`: `refuses` says which edits the editor cannot make in this text. */
  method RenderMigrated(doc: Fields, findings: seq<Finding>, skip: set<Code>, refuses: Edit -> bool) returns (r: Result<Fields, MigrationError>)
    ensures r == Failure(NotInPlan) <==> exists c | c in skip :: !InPlan(findings, c)
    ensures r == Failure(CannotBeKept) <==> (forall c | c in skip :: InPlan(findings, c)) && KeepsABlocker(findings, skip)
    ensures r.Success? ==> Rendered(doc, findings, skip) == Some(r.value)
    ensures r == Failure(Refused) ==> Rendered(doc, findings, skip) == None || exists k, e | 0 <= k < |findings| && e in findings[k].edits :: refuses(e)
    ensures r != Failure(NotReadable)
  {
    if exists c | c in skip :: !InPlan(findings, c) { return Failure(NotInPlan); }
    if KeepsABlocker(findings, skip) { return Failure(CannotBeKept); }
    var result := doc;
    for k := 0 to |findings|
      invariant Rendered(doc, findings, skip) == Rendered(result, findings[k..], skip)
    {
      assert findings[k..][1..] == findings[k + 1..];
      if findings[k].code !in skip {
        var edits := findings[k].edits;
        for i := 0 to |edits|
          invariant Rendered(doc, findings, skip) == match ApplyAll(result, edits[i..]) case None => None case Some(d) => Rendered(d, findings[k + 1..], skip)
        {
          assert edits[i..][1..] == edits[i + 1..];
          var applied := Apply(result, edits[i]);
          if refuses(edits[i]) || applied == None {
            assert edits[i] in findings[k].edits;
            return Failure(Refused);
          }
          result := applied.value;
        }
        assert edits[|edits|..] == [];
      }
    }
    assert findings[|findings|..] == [];
    r := Success(result);
  }
}
