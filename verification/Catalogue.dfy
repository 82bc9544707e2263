/**
 Writes into Codex's thread catalogue: the guarded transaction of `apply_names` and
 `apply_archive_changes`, and the envelope `_write_codex_catalogue` puts around it. The database
 is a map from thread ids to rows; a transaction is a working copy that a commit makes real and
 a rollback or a closed connection drops.
 */
module Catalogue {
  import opened Runs
  import opened Wrappers
  import E = Envelope

  datatype Row = Row(name: Option<string>, title: string, path: string, archived: int, archivedAt: Option<int>)

  type Rows = map<string, Row>

  /** One planned UPDATE: the values it requires and the values it sets. */
  datatype Change =
    | SetName(id: string, current: Option<string>, name: string)
    | Follow(id: string, pathBefore: string, archivedBefore: int, pathAfter: string, archivedAfter: int, archivedAtAfter: Option<int>)

  predicate Guard(row: Row, c: Change) {
    match c
    case SetName(_, current, _) => row.name == current
    case Follow(_, pathBefore, archivedBefore, _, _, _) => row.path == pathBefore && row.archived == archivedBefore
  }

  function Updated(row: Row, c: Change): Row {
    match c
    case SetName(_, _, name) => row.(name := Some(name))
    case Follow(_, _, _, pathAfter, archivedAfter, archivedAtAfter) =>
      row.(path := pathAfter, archived := archivedAfter, archivedAt := archivedAtAfter)
  }

  /** The UPDATE touches exactly one row. */
  predicate Hits(rows: Rows, c: Change) { c.id in rows && Guard(rows[c.id], c) }

  /** All updates in order, or `None` as soon as one does not touch exactly one row. */
  function ApplyAll(rows: Rows, changes: seq<Change>): Option<Rows> {
    if changes == [] then Some(rows)
    else if Hits(rows, changes[0]) then
      ApplyAll(rows[changes[0].id := Updated(rows[changes[0].id], changes[0])], changes[1..])
    else None
  }

  /** The planned row holds the planned values. */
  predicate ReadsAs(rows: Rows, c: Change) {
    c.id in rows && match c
      case SetName(_, _, name) => rows[c.id].name == Some(name)
      case Follow(_, _, _, pathAfter, archivedAfter, archivedAtAfter) =>
        rows[c.id].path == pathAfter && rows[c.id].archived == archivedAfter && rows[c.id].archivedAt == archivedAtAfter
  }

  predicate ReadsBack(rows: Rows, changes: seq<Change>) {
    forall k | 0 <= k < |changes| :: ReadsAs(rows, changes[k])
  }

  predicate Targets(changes: seq<Change>, id: string) { exists k | 0 <= k < |changes| :: changes[k].id == id }

  predicate DistinctIds(changes: seq<Change>) {
    forall j, k | 0 <= j < k < |changes| :: changes[j].id != changes[k].id
  }

  lemma TargetsSum(a: seq<Change>, b: seq<Change>)
    ensures forall id :: Targets(a + b, id) <==> Targets(a, id) || Targets(b, id)
  {
    var all := a + b;
    forall id
      ensures Targets(all, id) <==> Targets(a, id) || Targets(b, id)
    {
      if Targets(a, id) {
        var k :| 0 <= k < |a| && a[k].id == id;
        assert all[k].id == id;
      }
      if Targets(b, id) {
        var k :| 0 <= k < |b| && b[k].id == id;
        assert all[|a| + k].id == id;
      }
    }
  }

  lemma TargetsMore(changes: seq<Change>, more: Change)
    ensures forall id :: Targets(changes + [more], id) <==> Targets(changes, id) || id == more.id
  {
    TargetsSum(changes, [more]);
    assert [more][0].id == more.id;
  }

  /** Rows no change names stay, and no row appears or goes. */
  lemma {:induction false} OthersStay(rows: Rows, changes: seq<Change>)
    ensures ApplyAll(rows, changes).Some? ==>
      var after := ApplyAll(rows, changes).value;
      after.Keys == rows.Keys && forall id | id in rows && !Targets(changes, id) :: after[id] == rows[id]
    decreases |changes|
  {
    if changes != [] && Hits(rows, changes[0]) {
      var first := changes[0];
      var next := rows[first.id := Updated(rows[first.id], first)];
      OthersStay(next, changes[1..]);
      forall id | id in rows && !Targets(changes, id)
        ensures id != first.id && !Targets(changes[1..], id)
      {
        assert changes[0].id != id;
        forall k | 0 <= k < |changes[1..]|
          ensures changes[1..][k].id != id
        {
          assert changes[k + 1].id != id;
        }
      }
    }
  }

  /**
   A plan with one change a row goes through exactly when every row still matches its guard, and
   then every planned row is the old row with the planned values.
   */
  lemma {:induction false} ApplyAllIs(rows: Rows, changes: seq<Change>)
    requires DistinctIds(changes)
    ensures ApplyAll(rows, changes).Some? <==> forall k | 0 <= k < |changes| :: Hits(rows, changes[k])
    ensures ApplyAll(rows, changes).Some? ==>
      forall k | 0 <= k < |changes| ::
        changes[k].id in ApplyAll(rows, changes).value
        && ApplyAll(rows, changes).value[changes[k].id] == Updated(rows[changes[k].id], changes[k])
    decreases |changes|
  {
    if changes != [] && Hits(rows, changes[0]) {
      var first, rest := changes[0], changes[1..];
      var next := rows[first.id := Updated(rows[first.id], first)];
      assert forall k | 0 <= k < |rest| :: rest[k] == changes[k + 1] && rest[k].id != first.id;
      ApplyAllIs(next, rest);
      OthersStay(next, rest);
      assert !Targets(rest, first.id);
      assert forall k | 1 <= k < |changes| :: changes[k] == rest[k - 1];
      assert forall k | 0 <= k < |rest| :: Hits(next, rest[k]) <==> Hits(rows, rest[k]);
    }
  }

  /** What a change requires of its row, column by column. */
  predicate Expects(c: Change, row: Row) {
    (c.SetName? ==> row.name == c.current) && (c.Follow? ==> row.path == c.pathBefore && row.archived == c.archivedBefore)
  }

  /** What a change leaves of its row, column by column: a name touches no place, a place no name. */
  predicate Leaves(c: Change, before: Row, after: Row) {
    && after.title == before.title
    && after.name == (if c.SetName? then Some(c.name) else before.name)
    && after.path == (if c.Follow? then c.pathAfter else before.path)
    && after.archived == (if c.Follow? then c.archivedAfter else before.archived)
    && after.archivedAt == (if c.Follow? then c.archivedAtAfter else before.archivedAt)
  }

  /**
   A plan with one change a row goes through exactly when every row is there with the columns its
   change expects; then exactly the columns a change names differ in its row, every other row is
   as it was, and no row has come or gone.
   */
  lemma PlanInColumns(rows: Rows, changes: seq<Change>)
    requires DistinctIds(changes)
    ensures ApplyAll(rows, changes).Some? <==>
      forall k | 0 <= k < |changes| :: changes[k].id in rows && Expects(changes[k], rows[changes[k].id])
    ensures ApplyAll(rows, changes).Some? ==>
      var after := ApplyAll(rows, changes).value;
      && after.Keys == rows.Keys
      && (forall id | id in rows && !Targets(changes, id) :: after[id] == rows[id])
      && (forall k | 0 <= k < |changes| ::
           changes[k].id in rows && changes[k].id in after && Leaves(changes[k], rows[changes[k].id], after[changes[k].id]))
  {
    hide ApplyAll, Updated, Guard, Expects, Leaves;
    ApplyAllIs(rows, changes);
    OthersStay(rows, changes);
    forall k | 0 <= k < |changes| && changes[k].id in rows
      ensures Hits(rows, changes[k]) <==> Expects(changes[k], rows[changes[k].id])
      ensures Leaves(changes[k], rows[changes[k].id], Updated(rows[changes[k].id], changes[k]))
    {
      OneRow(rows[changes[k].id], changes[k]);
    }
  }

  lemma OneRow(row: Row, c: Change)
    ensures Guard(row, c) <==> Expects(c, row)
    ensures Leaves(c, row, Updated(row, c))
  {
  }

  /** Reading back passes exactly if every planned column holds its planned value. */
  lemma ReadBackInColumns(rows: Rows, changes: seq<Change>)
    ensures ReadsBack(rows, changes) <==>
      forall k | 0 <= k < |changes| ::
        var c := changes[k];
        && c.id in rows
        && (c.SetName? ==> rows[c.id].name == Some(c.name))
        && (c.Follow? ==> rows[c.id].path == c.pathAfter && rows[c.id].archived == c.archivedAfter && rows[c.id].archivedAt == c.archivedAtAfter)
  {
  }

  /** A committed plan with one change a row reads back as planned. */
  lemma AppliedReadsBack(rows: Rows, changes: seq<Change>)
    requires DistinctIds(changes) && ApplyAll(rows, changes).Some?
    ensures ReadsBack(ApplyAll(rows, changes).value, changes)
  {
    ApplyAllIs(rows, changes);
  }

  // ------------------------------------------------------------------ the protocol

  /** `reported` is false once a commit took effect but raised on the way out. */
  datatype State = State(rows: Rows, theirs: Rows, journal: E.Journal, written: bool, reported: bool, open: bool)

  datatype Action = Outside(rows: Rows) | Gate(open: bool) | Commit(reported: bool) | Move(to: E.Journal) | Pass

  function Next(changes: seq<Change>, s: State, a: Action): State {
    match a
    case Outside(rows) => s.(rows := rows, theirs := rows)
    case Gate(open) => s.(open := open)
    case Commit(reported) => s.(rows := ApplyAll(s.rows, changes).GetOr(s.rows), written := true, reported := reported)
    case Move(to) => s.(journal := to, open := false)
    case Pass => s
  }

  predicate Legal(changes: seq<Change>, s: State, a: Action) {
    match a
    case Outside(_) => !s.written
    case Gate(_) => true
    case Commit(_) => s.journal == E.Committing && s.open && !s.written && ApplyAll(s.rows, changes).Some?
    case Move(to) =>
      && E.Edge(s.journal, to)
      && (to == E.Committed ==> s.written && ReadsBack(s.rows, changes))
      && (to == E.Failed ==> !s.written || !s.reported)
    case Pass => true
  }

  function Rules(changes: seq<Change>): Protocol<State, Action> {
    Protocol((s, a) => Next(changes, s, a), (s, a) => Legal(changes, s, a))
  }

  predicate Fresh(s: State) { s.journal == E.Absent && !s.written && s.reported && s.rows == s.theirs }

  /**
   FAILED with a commit that was not reported as broken means no row changed, and a broken report
   means that the plan is in place; COMMITTED means every planned row reads as planned and the
   catalogue is the old one with exactly the plan applied.
   */
  predicate Safe(changes: seq<Change>, s: State) {
    && (!s.written ==> s.rows == s.theirs)
    && (s.written ==> ApplyAll(s.theirs, changes) == Some(s.rows))
    && (!s.reported ==> s.written)
    && (s.journal == E.Failed && s.reported ==> !s.written)
    && (s.journal == E.Committed ==> s.written && ReadsBack(s.rows, changes))
    && (s.written ==> E.UnderWay(s.journal) || (s.journal == E.Failed && !s.reported))
  }

  lemma StepKeeps(changes: seq<Change>, s: State, a: Action)
    requires Safe(changes, s) && Legal(changes, s, a)
    ensures Safe(changes, Next(changes, s, a))
  {
  }

  /** Every state of every run that follows the rules is safe, wherever the run stops. */
  lemma {:induction false} EveryStateIsSafe(changes: seq<Change>, s: State, run: seq<Action>)
    requires Fresh(s)
    ensures LegalRun(Rules(changes), s, run) ==> Safe(changes, Replay(Rules(changes), s, run))
    decreases |run|
  {
    if run != [] && LegalRun(Rules(changes), s, run) {
      EveryStateIsSafe(changes, s, run[..|run| - 1]);
      StepKeeps(changes, Replay(Rules(changes), s, run[..|run| - 1]), run[|run| - 1]);
    }
  }

  /** The catalogue is as it was exactly when closing did not raise after the commit, or the plan changes nothing. */
  predicate UnchangedExactly(changes: seq<Change>, s: State) {
    s.rows == s.theirs <==> s.reported || ApplyAll(s.theirs, changes) == Some(s.theirs)
  }

  /** What FAILED says of the catalogue, exactly, in every run that follows the rules. */
  lemma FailedMeans(changes: seq<Change>, s: State, run: seq<Action>)
    requires Fresh(s)
    ensures LegalRun(Rules(changes), s, run) && Replay(Rules(changes), s, run).journal == E.Failed ==>
      UnchangedExactly(changes, Replay(Rules(changes), s, run))
  {
    hide Replay, LegalRun, ApplyAll;
    EveryStateIsSafe(changes, s, run);
  }

  // ------------------------------------------------------------------ the transaction and its envelope

  /** What the world does at each call, counted in order: whether it raises, and what Codex has written by then. */
  datatype World = World(raises: nat -> bool, writes: nat -> Option<Rows>)

  class Database {
    const changes: seq<Change>
    const world: World
    var calls: nat
    var rows: Rows
    var journal: E.Journal
    var written: bool
    var reported: bool
    var open: bool
    ghost var theirs: Rows
    ghost const start: State
    ghost var run: seq<Action>

    constructor (rows: Rows, changes: seq<Change>, world: World)
      ensures this.world == world && calls == 0
      ensures Valid() && run == [] && this.changes == changes && this.rows == rows && journal == E.Absent && !written && reported
    {
      this.rows, this.changes, this.world, calls := rows, changes, world, 0;
      journal, written, reported, open := E.Absent, false, true, false;
      theirs := rows;
      start := State(rows, rows, E.Absent, false, true, false);
      run := [];
    }

    ghost function Now(): State
      reads this
    {
      State(rows, theirs, journal, written, reported, open)
    }

    ghost predicate Valid()
      reads this
    {
      && Fresh(start) && LegalRun(Rules(changes), start, run) && Replay(Rules(changes), start, run) == Now() && Safe(changes, Now())
    }

    /** Since call `from` none raised, and Codex wrote nothing. */
    ghost predicate Smooth(from: nat)
      reads this
    {
      from <= calls && forall k | from <= k < calls :: !world.raises(k) && world.writes(k) == None
    }

    /** One call that may raise. */
    method Call() returns (ok: bool)
      modifies this`calls
      ensures calls == old(calls) + 1 && ok == !world.raises(old(calls))
    {
      ok := !world.raises(calls);
      calls := calls + 1;
    }

    ghost method Log(a: Action, before: State)
      requires Fresh(start) && LegalRun(Rules(changes), start, run) && Replay(Rules(changes), start, run) == before && Safe(changes, before)
      requires Legal(changes, before, a) && Now() == Next(changes, before, a)
      modifies this`run
      ensures Valid() && run == old(run) + [a]
    {
      Append(Rules(changes), start, run, a);
      StepKeeps(changes, before, a);
      run := run + [a];
    }

    /** Codex may write its catalogue until the transaction takes the lock. */
    method OthersMayWrite()
      requires Valid()
      modifies this`rows, this`theirs, this`run, this`calls
      ensures Valid() && calls == old(calls) + 1
      ensures rows == if written then old(rows) else world.writes(old(calls)).GetOr(old(rows))
    {
      var write := world.writes(calls);
      calls := calls + 1;
      if write.Some? && !written {
        ghost var before := Now();
        rows, theirs := write.value, write.value;
        Log(Outside(write.value), before);
      }
    }

    method RequireGate() returns (ok: bool)
      requires Valid()
      modifies this
      ensures Valid() && journal == old(journal) && written == old(written) && reported == old(reported)
      ensures ok ==> open
      ensures calls == old(calls) + 2 && ok == !world.raises(old(calls) + 1)
      ensures Smooth(old(calls)) ==> rows == old(rows)
    {
      OthersMayWrite();
      ok := Call();
      ghost var before := Now();
      open := ok;
      Log(Gate(ok), before);
    }

    method Transition(to: E.Journal) returns (ok: bool)
      requires Valid()
      requires to == E.Committed ==> written && ReadsBack(rows, changes)
      requires to == E.Failed ==> !written || !reported
      modifies this`journal, this`open, this`run, this`calls
      ensures Valid() && journal == if ok then to else old(journal)
      ensures calls == old(calls) + 1 && ok == (E.Edge(old(journal), to) && !world.raises(old(calls)))
    {
      ok := Call();
      if !E.Edge(journal, to) { ok := false; }
      if ok {
        ghost var before := Now();
        journal, open := to, false;
        Log(Move(to), before);
      }
    }

    /**
     The transaction: every update must touch exactly one row, one that does not rolls back all
     that came before it, and any statement may raise. It returns normally exactly when the whole
     plan is in place and the connection closed; rows change without that only if closing raised.
     */
    method Apply() returns (ok: bool)
      requires Valid() && journal == E.Committing && open && !written && reported
      modifies this
      ensures Valid() && journal == old(journal)
      ensures ok ==> written && reported
      ensures !ok ==> !written || !reported
      ensures written ==> ApplyAll(theirs, changes) == Some(rows)
      ensures !written ==> rows == theirs
      ensures calls >= old(calls)
      ensures Smooth(old(calls)) ==> theirs == old(rows) && ok == ApplyAll(old(rows), changes).Some? && (!ok ==> rows == old(rows))
    {
      OthersMayWrite();
      var begun := Call();                           // connect and BEGIN IMMEDIATE
      if !begun { return false; }
      var work := rows;
      for k := 0 to |changes|
        invariant Valid() && journal == old(journal) && open && !written && reported
        invariant ApplyAll(rows, changes) == ApplyAll(work, changes[k..])
        invariant calls >= old(calls) && (Smooth(old(calls)) ==> rows == theirs == old(rows))
      {
        var executed := Call();
        if !executed || !Hits(work, changes[k]) {
          return false;                              // ROLLBACK, or a close that drops the working copy
        }
        assert changes[k..][1..] == changes[k + 1..];
        work := work[changes[k].id := Updated(work[changes[k].id], changes[k])];
      }
      assert changes[|changes|..] == [];
      var committed := Call();                       // COMMIT takes effect or raises
      if !committed { return false; }
      var closed := Call();
      ghost var before := Now();
      rows, written, reported := work, true, closed;
      Log(Commit(closed), before);
      ok := closed;
    }

    /** The journal ends in FAILED unless one of its own transitions raises. */
    method CloseJournalAfterFailure()
      requires Valid() && (!written || !reported)
      modifies this`journal, this`open, this`run, this`calls
      ensures Valid() && calls >= old(calls)
      ensures journal == old(journal) || journal == E.Failed || (old(journal) == E.Committing && journal == E.RecoveryRequired)
      ensures old(journal) != E.Absent && old(journal) != E.Committed && Smooth(old(calls)) ==> journal == E.Failed
    {
      if journal == E.Committing {
        var moved := Transition(E.RecoveryRequired);
        if !moved { return; }
      }
      var _ := Transition(E.Failed);
    }

    /** Everything up to COMMITTING: verified copies, the process check, the plan rebuilt. */
    method Prepare() returns (ok: bool)
      requires Valid() && journal == E.Prepared && !written && reported
      modifies this
      ensures Valid() && !written && reported && (ok ==> journal == E.Committing)
      ensures !ok ==> journal == E.Prepared || journal == E.BackedUp
      ensures calls >= old(calls) && (Smooth(old(calls)) ==> ok && rows == old(rows))
    {
      var copied := Call();
      if !copied { return false; }
      ok := Transition(E.BackedUp);
      if !ok { return; }
      ok := RequireGate();
      if !ok { return; }
      var stillPlanned := Call();                    // the plan rebuilt from the rows raises or differs
      if !stillPlanned { return false; }
      ok := Transition(E.Committing);
    }

    /**
     `_write_codex_catalogue` under its lock. In every faulty execution: FAILED means that the
     catalogue is unchanged exactly if closing the connection did not raise after the commit or
     the plan changes nothing; COMMITTED means the plan and nothing else is in place and reads
     back; a normal return means COMMITTED. When nothing gets in its way it commits a plan whose
     rows are as expected and changes nothing for one whose rows are not; whatever failed up to the
     commit, a handler whose own calls (from `handling` on) pass leaves no journal open.
     */
    method WriteCatalogue() returns (ok: bool, ghost handling: nat)
      requires Valid() && journal == E.Absent && run == [] && !written && reported
      modifies this
      ensures Valid() && handling <= calls
      ensures Smooth(old(calls)) && DistinctIds(changes) ==>
        && ok == ApplyAll(old(rows), changes).Some?
        && (ok ==> Some(rows) == ApplyAll(old(rows), changes))
        && (!ok ==> journal == E.Failed && rows == old(rows))
      ensures !ok && Smooth(handling) && (!written || !reported) ==> journal == E.Failed || journal == E.Absent
      ensures ok ==> journal == E.Committed
      ensures journal == E.Failed ==> (rows == theirs <==> reported || ApplyAll(theirs, changes) == Some(theirs))
      ensures journal == E.Committed ==> ApplyAll(theirs, changes) == Some(rows) && ReadsBack(rows, changes)
      ensures forall n | 0 <= n <= |run| :: Safe(changes, Replay(Rules(changes), start, run[..n]))
    {
      ok, handling := Execute();
      forall n | 0 <= n <= |run|
        ensures Safe(changes, Replay(Rules(changes), start, run[..n]))
      {
        PrefixLegal(Rules(changes), start, run, n);
        EveryStateIsSafe(changes, start, run[..n]);
      }
    }

    method Execute() returns (ok: bool, ghost handling: nat)
      requires Valid() && journal == E.Absent && run == [] && !written && reported
      modifies this
      ensures Valid() && (ok ==> journal == E.Committed) && handling <= calls
      ensures Smooth(old(calls)) && DistinctIds(changes) ==>
        && ok == ApplyAll(old(rows), changes).Some?
        && (ok ==> Some(rows) == ApplyAll(old(rows), changes))
        && (!ok ==> journal == E.Failed && rows == old(rows))
      ensures !ok && Smooth(handling) && (!written || !reported) ==> journal == E.Failed || journal == E.Absent
    {
      hide ApplyAll, ReadsBack, Replay, LegalRun, DistinctIds, Safe;
      ok := Transition(E.Prepared);
      handling := calls;
      if !ok { return; }
      ok := Prepare();
      handling := calls;
      if !ok {
        CloseJournalAfterFailure();
        return;
      }
      ok := RequireGate();
      if ok { ok := Apply(); }
      handling := calls;
      if !ok {
        CloseJournalAfterFailure();
        return;
      }
      if DistinctIds(changes) { AppliedReadsBack(theirs, changes); }
      ok := Verify();
    }

    /** What follows a commit that was reported: the read-back, and the journal. */
    method Verify() returns (ok: bool)
      requires Valid() && journal == E.Committing && written && reported
      modifies this
      ensures Valid() && rows == old(rows) && theirs == old(theirs) && written && reported && calls >= old(calls)
      ensures ok ==> journal == E.Committed
      ensures Smooth(old(calls)) ==> ok == ReadsBack(rows, changes)
    {
      hide ApplyAll, ReadsBack, Replay, LegalRun, Safe;
      var readable := Call();                        // reading the rows back may raise
      if !readable { return false; }
      if !ReadsBack(rows, changes) {
        var _ := Transition(E.RecoveryRequired);
        return false;
      }
      ok := Transition(E.Committed);
      if ok { ok := Call(); }                        // the prune after it
    }
  }

  /** One more legal action, with the state it leads to written out. */
  lemma Extend(changes: seq<Change>, s: State, run: seq<Action>, before: State, a: Action, after: State)
    requires LegalRun(Rules(changes), s, run) && Replay(Rules(changes), s, run) == before
    requires Legal(changes, before, a) && Next(changes, before, a) == after
    ensures LegalRun(Rules(changes), s, run + [a]) && Replay(Rules(changes), s, run + [a]) == after
  {
    Append(Rules(changes), s, run, a);
  }

  /** A run that ends in FAILED although the plan was committed. */
  ghost predicate FailsChanged(changes: seq<Change>, s: State, run: seq<Action>) {
    && Fresh(s) && LegalRun(Rules(changes), s, run)
    && Replay(Rules(changes), s, run).journal == E.Failed
    && Replay(Rules(changes), s, run).rows != Replay(Rules(changes), s, run).theirs
  }

  /**
   The exception exists for every plan that changes something: the commit takes effect, closing
   the connection raises, and the journal ends in FAILED over a changed catalogue.
   */
  lemma FailedAfterCommit(rows: Rows, changes: seq<Change>)
    requires ApplyAll(rows, changes).Some? && ApplyAll(rows, changes).value != rows
    ensures exists s: State, run: seq<Action> :: s.rows == rows && FailsChanged(changes, s, run)
  {
    hide ApplyAll, Replay, LegalRun;
    var now := ApplyAll(rows, changes).value;
    var s := State(rows, rows, E.Absent, false, true, false);
    var s3 := State(rows, rows, E.Committing, false, true, false);
    var r1 := [Move(E.Prepared)];
    var r3 := r1 + [Move(E.BackedUp)] + [Move(E.Committing)];
    StartsLegal(changes, s);
    Extend(changes, s, [], s, Move(E.Prepared), s.(journal := E.Prepared));
    assert [] + r1 == r1;
    Extend(changes, s, r1, s.(journal := E.Prepared), Move(E.BackedUp), s.(journal := E.BackedUp));
    Extend(changes, s, r1 + [Move(E.BackedUp)], s.(journal := E.BackedUp), Move(E.Committing), s3);
    Extend(changes, s, r3, s3, Gate(true), s3.(open := true));
    var s5 := State(now, rows, E.Committing, true, false, true);
    Extend(changes, s, r3 + [Gate(true)], s3.(open := true), Commit(false), s5);
    var r5 := r3 + [Gate(true)] + [Commit(false)];
    var s6 := State(now, rows, E.RecoveryRequired, true, false, false);
    Extend(changes, s, r5, s5, Move(E.RecoveryRequired), s6);
    Extend(changes, s, r5 + [Move(E.RecoveryRequired)], s6, Move(E.Failed), s6.(journal := E.Failed));
    var run := r5 + [Move(E.RecoveryRequired)] + [Move(E.Failed)];
    assert s.rows == rows && FailsChanged(changes, s, run);
  }

  lemma StartsLegal(changes: seq<Change>, s: State)
    ensures LegalRun(Rules(changes), s, []) && Replay(Rules(changes), s, []) == s
  {
  }
}
