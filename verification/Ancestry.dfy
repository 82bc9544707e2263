/**
 Finding a Codex that no Codex app started: the walk up the parents of a process, in a table whose
 parent links may form cycles, against the set of its ancestors.
 */
module Ancestry {
  import opened Texts
  import opened Wrappers

  datatype Process = Process(pid: int, parent: int, name: string, path: string)

  /** The process table, by pid. */
  type Table = map<int, Process>

  const WINDOWS_MARKER := "\\openai.codex_"
  const LINUX_MARKER := "/usr/lib/chatgpt/"

  predicate IsWindowsApp(p: Process) { Lower(p.name) == "chatgpt.exe" && Contains(Lower(p.path), WINDOWS_MARKER) }

  predicate IsLinuxApp(p: Process) { Starts(p.path, 0, LINUX_MARKER) }

  predicate UniquePids(processes: seq<Process>) {
    forall j, k | 0 <= j < k < |processes| :: processes[j].pid != processes[k].pid
  }

  /** `{proc.pid: proc for proc in processes}`. */
  function TableFrom(processes: seq<Process>): Table {
    if processes == [] then map[]
    else
      var last := processes[|processes| - 1];
      TableFrom(processes[..|processes| - 1])[last.pid := last]
  }

  ghost predicate TableOf(processes: seq<Process>, table: Table) {
    && (forall p | p in processes :: p.pid in table && table[p.pid] == p)
    && (forall pid | pid in table :: table[pid] in processes && table[pid].pid == pid)
  }

  function At(table: Table, pid: int): Option<Process> { if pid in table then Some(table[pid]) else None }

  /** The `n`-th ancestor of a process; the first is its parent. */
  function Ancestor(table: Table, p: Process, n: nat): Option<Process>
    requires n >= 1
  {
    if n == 1 then At(table, p.parent)
    else
      match Ancestor(table, p, n - 1)
      case None => None
      case Some(q) => At(table, q.parent)
  }

  /** Some process of the app lies on the chain of ancestors. */
  ghost predicate HasAppAncestor(table: Table, p: Process, isApp: Process -> bool) {
    exists n: nat | n >= 1 :: Ancestor(table, p, n).Some? && isApp(Ancestor(table, p, n).value)
  }

  method BuildTable(processes: seq<Process>) returns (table: Table)
    ensures table == TableFrom(processes)
  {
    table := map[];
    for k := 0 to |processes|
      invariant table == TableFrom(processes[..k])
    {
      assert processes[..k + 1][..k] == processes[..k];
      table := table[processes[k].pid := processes[k]];
    }
    assert processes[..|processes|] == processes;
  }

  /** With unique pids the table holds exactly the processes, each under its pid. */
  lemma {:induction false} TableIs(processes: seq<Process>)
    requires UniquePids(processes)
    ensures TableOf(processes, TableFrom(processes))
    decreases |processes|
  {
    if processes != [] {
      var front, last := processes[..|processes| - 1], processes[|processes| - 1];
      TableIs(front);
      assert processes == front + [last];
    }
  }

  /** `table` lists each process under its own pid. */
  predicate Consistent(table: Table) { forall pid | pid in table :: table[pid].pid == pid }

  /** `line` is the beginning of the chain of ancestors, none of it of the app. */
  ghost predicate Line(table: Table, p: Process, isApp: Process -> bool, line: seq<Process>) {
    forall i | 0 <= i < |line| ::
      Ancestor(table, p, i + 1) == Some(line[i]) && !isApp(line[i]) && line[i].pid in table && table[line[i].pid] == line[i]
  }

  ghost function Pids(line: seq<Process>): set<int> { set q | q in line :: q.pid }

  /**
   The walk: it ends in every table, cycles included, and finds an app process exactly when one is
   an ancestor.
   */
  method WalkUp(table: Table, p: Process, isApp: Process -> bool) returns (found: bool)
    requires Consistent(table)
    ensures found <==> HasAppAncestor(table, p, isApp)
  {
    hide Line, HasAppAncestor, Ancestor;
    var seen: set<int> := {};
    var parent := At(table, p.parent);
    ghost var line: seq<Process> := [];
    Parent(table, p, isApp);
    while parent.Some? && parent.value.pid !in seen && !isApp(parent.value)
      invariant parent == Ancestor(table, p, |line| + 1)
      invariant parent.Some? ==> parent.value.pid in table && table[parent.value.pid] == parent.value
      invariant seen == Pids(line) && seen <= table.Keys && Line(table, p, isApp, line)
      decreases table.Keys - seen
    {
      LineMore(table, p, isApp, line);
      seen := seen + {parent.value.pid};
      line := line + [parent.value];
      parent := At(table, parent.value.parent);
    }
    found := parent.Some? && isApp(parent.value);
    if found {
      FoundApp(table, p, isApp, |line| + 1);
    } else if parent.None? {
      NoneAbove(table, p, isApp, line);
    } else {
      Trapped(table, p, isApp, line);
    }
  }

  lemma Parent(table: Table, p: Process, isApp: Process -> bool)
    ensures Line(table, p, isApp, []) && Ancestor(table, p, 1) == At(table, p.parent)
  {
  }

  lemma LineMore(table: Table, p: Process, isApp: Process -> bool, line: seq<Process>)
    requires Line(table, p, isApp, line)
    requires var q := Ancestor(table, p, |line| + 1);
      q.Some? && q.value.pid in table && table[q.value.pid] == q.value && !isApp(q.value)
    ensures var q := Ancestor(table, p, |line| + 1).value;
      && Line(table, p, isApp, line + [q]) && Pids(line + [q]) == Pids(line) + {q.pid}
      && Ancestor(table, p, |line| + 2) == At(table, q.parent)
  {
  }

  lemma FoundApp(table: Table, p: Process, isApp: Process -> bool, n: nat)
    requires n >= 1 && Ancestor(table, p, n).Some? && isApp(Ancestor(table, p, n).value)
    ensures HasAppAncestor(table, p, isApp)
  {
  }

  lemma {:induction false} StillNone(table: Table, p: Process, n: nat, m: nat)
    requires 1 <= n <= m && Ancestor(table, p, n) == None
    ensures Ancestor(table, p, m) == None
    decreases m
  {
    if n < m { StillNone(table, p, n, m - 1); }
  }

  /** The chain ends above the line. */
  lemma NoneAbove(table: Table, p: Process, isApp: Process -> bool, line: seq<Process>)
    requires Line(table, p, isApp, line) && Ancestor(table, p, |line| + 1) == None
    ensures !HasAppAncestor(table, p, isApp)
  {
    hide Ancestor;
    forall m: nat | m >= 1
      ensures Ancestor(table, p, m).Some? ==> !isApp(Ancestor(table, p, m).value)
    {
      if m > |line| {
        StillNone(table, p, |line| + 1, m);
      } else {
        assert Ancestor(table, p, (m - 1) + 1) == Some(line[m - 1]);
      }
    }
  }

  lemma FromTable(table: Table, p: Process, m: nat)
    requires m >= 1 && Consistent(table)
    ensures Ancestor(table, p, m).Some? ==>
      var q := Ancestor(table, p, m).value; q.pid in table && table[q.pid] == q
  {
  }

  /** The chain runs in a circle within the line. */
  lemma {:induction false} Circles(table: Table, p: Process, isApp: Process -> bool, line: seq<Process>, m: nat)
    requires m >= 1 && Consistent(table) && Line(table, p, isApp, line)
    requires Ancestor(table, p, |line| + 1).Some? && Ancestor(table, p, |line| + 1).value in line
    ensures Ancestor(table, p, m).Some? && Ancestor(table, p, m).value in line
    decreases m
  {
    if m <= |line| {
      assert Ancestor(table, p, (m - 1) + 1) == Some(line[m - 1]);
    } else if m > |line| + 1 {
      Circles(table, p, isApp, line, m - 1);
      var q := Ancestor(table, p, m - 1).value;
      var i :| 0 <= i < |line| && line[i] == q;
      assert Ancestor(table, p, i + 1) == Some(q);
      assert Ancestor(table, p, m) == At(table, q.parent) == Ancestor(table, p, i + 2);
      if i + 1 < |line| {
        assert Ancestor(table, p, (i + 1) + 1) == Some(line[i + 1]);
      }
    }
  }

  lemma Trapped(table: Table, p: Process, isApp: Process -> bool, line: seq<Process>)
    requires Consistent(table) && Line(table, p, isApp, line)
    requires Ancestor(table, p, |line| + 1).Some? && Ancestor(table, p, |line| + 1).value.pid in Pids(line)
    ensures !HasAppAncestor(table, p, isApp)
  {
    hide Ancestor;
    FromTable(table, p, |line| + 1);
    var q :| q in line && q.pid == Ancestor(table, p, |line| + 1).value.pid;
    forall m: nat | m >= 1
      ensures Ancestor(table, p, m).Some? ==> !isApp(Ancestor(table, p, m).value)
    {
      Circles(table, p, isApp, line, m);
    }
  }

  // ------------------------------------------------------------------ the two platforms

  /** The processes in question that no app process is an ancestor of, in the order of the table. */
  ghost function Orphans(processes: seq<Process>, table: Table, isCodex: Process -> bool, isApp: Process -> bool): seq<Process> {
    if processes == [] then []
    else
      var last := processes[|processes| - 1];
      Orphans(processes[..|processes| - 1], table, isCodex, isApp)
      + if isCodex(last) && !HasAppAncestor(table, last, isApp) then [last] else []
  }

  method Find(processes: seq<Process>, isCodex: Process -> bool, isApp: Process -> bool) returns (found: seq<Process>)
    requires UniquePids(processes)
    ensures found == Orphans(processes, TableFrom(processes), isCodex, isApp)
  {
    hide HasAppAncestor;
    var table := BuildTable(processes);
    TableIs(processes);
    found := [];
    for k := 0 to |processes|
      invariant found == Orphans(processes[..k], table, isCodex, isApp)
    {
      assert processes[..k + 1][..k] == processes[..k];
      if isCodex(processes[k]) {
        var under := WalkUp(table, processes[k], isApp);
        if !under { found := found + [processes[k]]; }
      }
    }
    assert processes[..|processes|] == processes;
  }

  predicate IsWindowsCodex(p: Process) { Lower(p.name) == "codex.exe" }

  predicate IsLinuxCodex(p: Process) { p.name == "codex" && !IsLinuxApp(p) }

  /** `terminal_codex`. */
  method TerminalCodex(processes: seq<Process>) returns (found: seq<Process>)
    requires UniquePids(processes)
    ensures found == Orphans(processes, TableFrom(processes), IsWindowsCodex, IsWindowsApp)
  {
    found := Find(processes, IsWindowsCodex, IsWindowsApp);
  }

  /** `linux_terminal_codex`. */
  method LinuxTerminalCodex(processes: seq<Process>) returns (found: seq<Process>)
    requires UniquePids(processes)
    ensures found == Orphans(processes, TableFrom(processes), IsLinuxCodex, IsLinuxApp)
  {
    found := Find(processes, IsLinuxCodex, IsLinuxApp);
  }

  /** A process is reported exactly when it is one in question and no app process is an ancestor. */
  lemma {:induction false} OrphansAre(processes: seq<Process>, table: Table, isCodex: Process -> bool, isApp: Process -> bool)
    ensures forall p :: p in Orphans(processes, table, isCodex, isApp) <==>
      p in processes && isCodex(p) && !HasAppAncestor(table, p, isApp)
    decreases |processes|
  {
    hide HasAppAncestor;
    if processes != [] {
      var front := processes[..|processes| - 1];
      OrphansAre(front, table, isCodex, isApp);
      assert processes == front + [processes[|processes| - 1]];
    }
  }

  // ------------------------------------------------------------------ the app's root processes

  /** The processes `codex_app_roots` names: of the app, and not a child of the app. */
  predicate IsRoot(processes: seq<Process>, isApp: Process -> bool, p: Process) {
    p in processes && isApp(p) && forall q | q in processes && isApp(q) :: q.pid != p.parent
  }

  /** The first `n` ancestors are all of the app. */
  ghost predicate AppsUpTo(table: Table, p: Process, isApp: Process -> bool, n: nat) {
    forall i: nat | 1 <= i <= n :: Ancestor(table, p, i).Some? && isApp(Ancestor(table, p, i).value)
  }

  /** Where the unbroken line of app ancestors of an app process ends there is a root: the process itself or the last of the line. */
  lemma LineEndsInRoot(processes: seq<Process>, table: Table, isApp: Process -> bool, p: Process, n: nat)
    requires TableOf(processes, table) && p in processes && isApp(p) && AppsUpTo(table, p, isApp, n) && !AppsUpTo(table, p, isApp, n + 1)
    ensures var top := if n == 0 then p else Ancestor(table, p, n).value; IsRoot(processes, isApp, top)
  {
    var top := if n == 0 then p else Ancestor(table, p, n).value;
    assert Consistent(table);
    if n > 0 { FromTable(table, p, n); }
    var above := Ancestor(table, p, n + 1);
    assert above == At(table, top.parent);
    assert !(above.Some? && isApp(above.value));
    forall q | q in processes && isApp(q)
      ensures q.pid != top.parent
    {
      assert table[q.pid] == q;
    }
  }
}
