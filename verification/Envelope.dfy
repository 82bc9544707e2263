/**
 The write envelope of `commit_global_state`: first the protocol as rules on single actions,
 with what the rules guarantee in every state of every run; then the procedure itself, step by
 step, where every call may raise, and which follows the rules in every faulty execution. A
 power loss is a run that stops after any action.

 Assumed of the world: a replace is atomic or has no effect, a journal write likewise, a hash
 identifies its content, and nobody else writes the file between the comparison a replace
 follows and the end of the run.
 */
module Envelope {
  import opened Runs
  import opened Wrappers

  newtype byte = x: int | 0 <= x < 256
  type Bytes = seq<byte>

  datatype Journal = Absent | Prepared | BackedUp | Committing | Committed | Failed | RecoveryRequired

  /** The edges of the mutation journal. */
  predicate Edge(a: Journal, b: Journal) {
    match a
    case Absent => b == Prepared
    case Prepared => b == BackedUp || b == Failed
    case BackedUp => b == Committing || b == Failed
    case Committing => b == Committed || b == RecoveryRequired
    case RecoveryRequired => b == Committing || b == Failed
    case Committed => false
    case Failed => false
  }

  /** What has been proved since the last action that could take time. */
  datatype Proof = Stale | GateOpen | Matched

  /**
   `theirs` is what the file would hold had codexSync never written it; `installed` says that
   codexSync's bytes are in place.
   */
  datatype State = State(target: Bytes, theirs: Bytes, backup: Option<Bytes>, journal: Journal, installed: bool, proof: Proof)

  datatype Action =
    | Outside(bytes: Bytes)                    // another program writes the file
    | WriteBackup(copy: Option<Bytes>)         // the snapshot is written, whole or in part
    | Gate(open: bool)                         // the process check
    | Compare(same: bool)                      // the file is hashed against the original
    | StageRollback                            // the backup is copied beside the target
    | Replace(bytes: Bytes, done: bool)        // one attempt of the atomic replace
    | Wait                                     // the pause before another attempt
    | Move(to: Journal)                        // a journal transition reaches the disk

  /** What one operation works on. */
  datatype Job = Job(original: Bytes, candidate: Bytes, validates: Bytes -> bool)

  function Next(s: State, a: Action): State {
    match a
    case Outside(bytes) => s.(target := bytes, theirs := bytes)
    case WriteBackup(copy) => s.(backup := copy, proof := Stale)
    case Gate(open) => s.(proof := if open then GateOpen else Stale)
    case Compare(same) => s.(proof := if same then Matched else Stale)
    case StageRollback => s
    case Replace(bytes, done) =>
      if done then s.(target := bytes, installed := !s.installed, proof := Stale) else s.(proof := Stale)
    case Wait => s.(proof := Stale)
    case Move(to) => s.(journal := to, proof := Stale)
  }

  /** The rules, each about one action in the state it happens in. */
  predicate Legal(job: Job, s: State, a: Action) {
    match a
    case Outside(_) => !s.installed && s.proof != Matched
    case WriteBackup(_) => s.journal == Prepared
    case Gate(_) => true
    case Compare(same) => s.proof == GateOpen && same == (s.target == job.original)
    case StageRollback => true
    case Replace(bytes, _) =>
      if s.installed then s.backup == Some(bytes) && s.proof == GateOpen && s.journal == RecoveryRequired
      else bytes == job.candidate && s.proof == Matched && s.journal == Committing
    case Wait => true
    case Move(to) =>
      && Edge(s.journal, to)
      && (to == BackedUp ==> s.backup == Some(job.original))
      && (to == Committed ==> s.installed && job.validates(s.target))
      && (to == Failed ==> !s.installed)
  }

  function Rules(job: Job): Protocol<State, Action> { Protocol((s, a) => Next(s, a), (s, a) => Legal(job, s, a)) }

  /** A machine before the operation: nothing journalled, nothing written. */
  predicate Fresh(s: State) { s.journal == Absent && !s.installed && s.target == s.theirs && s.proof == Stale }

  // ------------------------------------------------------------------ what the rules guarantee

  predicate UnderWay(j: Journal) { j == Committing || j == RecoveryRequired || j == Committed }

  /**
   The file holds what others left there or the whole candidate, never anything else; while it
   holds the candidate the original is in the backup and the journal says the commit was entered;
   FAILED means no net effect; COMMITTED means a candidate that validates is in place.
   */
  predicate Safe(job: Job, s: State) {
    && (!s.installed ==> s.target == s.theirs)
    && (s.installed ==> s.target == job.candidate && s.theirs == job.original
                        && s.backup == Some(job.original) && UnderWay(s.journal))
    && (s.journal == Failed ==> !s.installed)
    && (s.journal == Committed ==> s.installed && job.validates(s.target))
  }

  /** The inductive strengthening of `Safe`. */
  predicate Kept(job: Job, s: State) {
    && Safe(job, s)
    && (s.proof == Matched && !s.installed ==> s.target == job.original)
    && (s.journal == BackedUp || UnderWay(s.journal) ==> s.backup == Some(job.original))
  }

  lemma StepKeeps(job: Job, s: State, a: Action)
    requires Kept(job, s) && Legal(job, s, a)
    ensures Kept(job, Next(s, a))
  {
  }

  /** Every state of every run that follows the rules is safe, wherever the run stops. */
  lemma {:induction false} EveryStateIsSafe(job: Job, s: State, run: seq<Action>)
    requires Fresh(s)
    ensures LegalRun(Rules(job), s, run) ==> Kept(job, Replay(Rules(job), s, run))
    decreases |run|
  {
    if run != [] && LegalRun(Rules(job), s, run) {
      EveryStateIsSafe(job, s, run[..|run| - 1]);
      StepKeeps(job, Replay(Rules(job), s, run[..|run| - 1]), run[|run| - 1]);
    }
  }

  /** Once entered, COMMITTED and FAILED are final, and from COMMITTING to FAILED leads only RECOVERY_REQUIRED. */
  lemma {:induction false} JournalsEnd(job: Job, s: State, run: seq<Action>)
    requires LegalRun(Rules(job), s, run)
    ensures s.journal == Committed || s.journal == Failed ==> Replay(Rules(job), s, run).journal == s.journal
    ensures s.journal == Committing && Replay(Rules(job), s, run).journal == Failed ==> Move(RecoveryRequired) in run
    decreases |run|
  {
    if run != [] {
      var front, last := run[..|run| - 1], run[|run| - 1];
      JournalsEnd(job, s, front);
      assert run == front + [last];
      if s.journal == Committing { LeftCommitting(job, s, front); }
    }
  }

  /** A journal that left COMMITTING was committed, or has RECOVERY_REQUIRED on its way. */
  lemma {:induction false} LeftCommitting(job: Job, s: State, run: seq<Action>)
    requires LegalRun(Rules(job), s, run) && s.journal == Committing
    ensures var j := Replay(Rules(job), s, run).journal; j == Committing || j == Committed || Move(RecoveryRequired) in run
    decreases |run|
  {
    if run != [] {
      var front, last := run[..|run| - 1], run[|run| - 1];
      LeftCommitting(job, s, front);
      assert run == front + [last];
    }
  }

  /**
   Between a passed process check and the replace attempt that follows it codexSync only compares
   the file and, before a rollback, copies the backup beside it; other programs may write meanwhile.
   */
  predicate GateJustBefore(run: seq<Action>, i: nat)
    requires i <= |run|
  {
    exists j | 0 <= j < i :: run[j] == Gate(true)
      && forall k | j < k < i :: run[k] == Compare(true) || run[k].StageRollback? || run[k].Outside?
  }

  lemma {:induction false} ProofHasGate(job: Job, s: State, run: seq<Action>)
    requires s.proof == Stale && LegalRun(Rules(job), s, run) && Replay(Rules(job), s, run).proof != Stale
    ensures GateJustBefore(run, |run|)
    decreases |run|
  {
    var last := |run| - 1;
    if run[last] != Gate(true) {
      ProofHasGate(job, s, run[..last]);
      var j :| 0 <= j < last && run[..last][j] == Gate(true)
        && forall k | j < k < last :: run[..last][k] == Compare(true) || run[..last][k].StageRollback? || run[..last][k].Outside?;
      assert run[j] == Gate(true);
      assert forall k | j < k < last :: run[k] == run[..last][k];
    }
  }

  lemma LastLegal(job: Job, s: State, run: seq<Action>)
    requires run != [] && LegalRun(Rules(job), s, run)
    ensures LegalRun(Rules(job), s, run[..|run| - 1])
    ensures Legal(job, Replay(Rules(job), s, run[..|run| - 1]), run[|run| - 1])
  {
  }

  /**
   Every attempt to replace the file, retries and the rollback included, follows a passed process
   check: of codexSync's own actions only the comparison and the copy of the backup stand between.
   */
  lemma ReplacesFollowGate(job: Job, s: State, run: seq<Action>, i: nat)
    requires s.proof == Stale && LegalRun(Rules(job), s, run) && i < |run| && run[i].Replace?
    ensures GateJustBefore(run, i)
  {
    hide Replay, LegalRun;
    PrefixLegal(Rules(job), s, run, i + 1);
    LastLegal(job, s, run[..i + 1]);
    assert run[..i + 1][..i] == run[..i];
    ProofHasGate(job, s, run[..i]);
    var j :| 0 <= j < i && run[..i][j] == Gate(true)
      && forall k | j < k < i :: run[..i][k] == Compare(true) || run[..i][k].StageRollback? || run[..i][k].Outside?;
    assert run[j] == Gate(true) && forall k | j < k < i :: run[k] == run[..i][k];
  }

  function Attempts(run: seq<Action>): nat {
    if run == [] then 0 else Attempts(run[..|run| - 1]) + (if run[|run| - 1].Replace? then 1 else 0)
  }

  lemma AppendAttempts(run: seq<Action>, a: Action)
    ensures Attempts(run + [a]) == Attempts(run) + if a.Replace? then 1 else 0
  {
    assert (run + [a])[..|run|] == run;
  }

  // ------------------------------------------------------------------ the procedure

  const REPLACE_ATTEMPTS := 7

  datatype Outcome = Done | Locked | Broken

  /**
   What the world does at each call, counted in order: whether the call raises (a process check
   refuses by raising), whether a replace finds the target locked, what another program has
   written to the file by then.
   */
  datatype World = World(raises: nat -> bool, locked: nat -> bool, writes: nat -> Option<Bytes>)

  /**
   One operation in flight. `target`, `backup` and `journal` are on disk; the rest is what the
   protocol keeps track of. Methods that can raise return whether they returned normally.
   */
  class Operation {
    const job: Job
    const world: World
    var calls: nat
    var target: Bytes
    var backup: Option<Bytes>
    var journal: Journal
    var installed: bool
    var proof: Proof
    ghost var theirs: Bytes
    ghost const start: State
    ghost var run: seq<Action>

    constructor (job: Job, world: World, content: Bytes, leftover: Option<Bytes>)
      ensures this.job == job && this.world == world && Valid() && run == [] && calls == 0
      ensures journal == Absent && target == content
    {
      this.job, this.world, calls := job, world, 0;
      target, backup, journal, installed, proof := content, leftover, Absent, false, Stale;
      theirs := content;
      start := State(content, content, leftover, Absent, false, Stale);
      run := [];
    }

    ghost function Now(): State
      reads this
    {
      State(target, theirs, backup, journal, installed, proof)
    }

    ghost predicate Valid()
      reads this
    {
      Fresh(start) && LegalRun(Rules(job), start, run) && Replay(Rules(job), start, run) == Now() && Kept(job, Now())
    }

    /** Since call `from` none raised, and nobody wrote anything but the original content. */
    ghost predicate Smooth(from: nat)
      reads this
    {
      from <= calls
      && forall k | from <= k < calls :: !world.raises(k) && (world.writes(k) == None || world.writes(k) == Some(job.original))
    }

    /** One call that may raise. */
    method Call() returns (ok: bool)
      modifies this`calls
      ensures calls == old(calls) + 1 && ok == !world.raises(old(calls))
    {
      ok := !world.raises(calls);
      calls := calls + 1;
    }

    /** Appends an action whose effect on the disk has just been made. */
    ghost method Log(a: Action, before: State)
      requires Fresh(start) && LegalRun(Rules(job), start, run) && Replay(Rules(job), start, run) == before && Kept(job, before)
      requires Legal(job, before, a) && Now() == Next(before, a)
      modifies this`run
      ensures Valid() && run == old(run) + [a]
      ensures Attempts(run) == Attempts(old(run)) + if a.Replace? then 1 else 0
    {
      Append(Rules(job), start, run, a);
      AppendAttempts(run, a);
      StepKeeps(job, before, a);
      run := run + [a];
    }

    /** Other programs may write the file wherever the protocol does not exclude it. */
    method OthersMayWrite()
      requires Valid()
      modifies this`target, this`theirs, this`run, this`calls
      ensures Valid() && Attempts(run) == Attempts(old(run)) && calls == old(calls) + 1
      ensures target == if installed || proof == Matched then old(target) else world.writes(old(calls)).GetOr(old(target))
    {
      var write := world.writes(calls);
      calls := calls + 1;
      if write.Some? && !installed && proof != Matched {
        ghost var before := Now();
        target, theirs := write.value, write.value;
        Log(Outside(write.value), before);
      }
    }

    /** `gate.require`: passes, or raises because Codex runs or cannot be told. */
    method RequireGate() returns (ok: bool)
      requires Valid()
      modifies this
      ensures Valid() && journal == old(journal) && backup == old(backup) && installed == old(installed)
      ensures Attempts(run) == Attempts(old(run))
      ensures ok ==> proof == GateOpen
      ensures installed ==> target == old(target)
      ensures calls == old(calls) + 2 && ok == !world.raises(old(calls) + 1)
      ensures Smooth(old(calls)) && old(target) == job.original ==> target == job.original
    {
      OthersMayWrite();
      ok := Call();
      ghost var before := Now();
      proof := if ok then GateOpen else Stale;
      Log(Gate(ok), before);
    }

    /** `require_safe_to_replace`: the process check, then the file against the original. */
    method RequireSafeToReplace() returns (ok: bool)
      requires Valid()
      modifies this
      ensures Valid() && journal == old(journal) && backup == old(backup) && installed == old(installed)
      ensures Attempts(run) == Attempts(old(run))
      ensures ok ==> proof == Matched
      ensures installed ==> target == old(target)
      ensures calls >= old(calls)
      ensures Smooth(old(calls)) && old(target) == job.original ==> ok && target == job.original
    {
      ok := RequireGate();
      if !ok { return; }
      OthersMayWrite();
      var readable := Call();
      if !readable { return false; }
      ok := target == job.original;
      ghost var before := Now();
      proof := if ok then Matched else Stale;
      Log(Compare(ok), before);
    }

    /** `journals.transition`: refuses what is no edge, else writes it whole or raises. */
    method Transition(to: Journal) returns (ok: bool)
      requires Valid()
      requires to == BackedUp ==> backup == Some(job.original)
      requires to == Committed && journal == Committing ==> installed && job.validates(target)
      requires to == Failed ==> !installed
      modifies this
      ensures Valid() && backup == old(backup) && installed == old(installed)
      ensures Attempts(run) == Attempts(old(run))
      ensures journal == if ok then to else old(journal)
      ensures ok ==> Edge(old(journal), to)
      ensures target == old(target)
      ensures calls == old(calls) + 1 && ok == (Edge(old(journal), to) && !world.raises(old(calls)))
    {
      ok := Call();
      if !Edge(journal, to) { ok := false; }
      if ok {
        ghost var before := Now();
        journal, proof := to, Stale;
        Log(Move(to), before);
      }
    }

    /** The snapshot: copied, verified against the file, and compared with the original. */
    method BackUp() returns (ok: bool)
      requires Valid() && journal == Prepared && !installed
      modifies this
      ensures Valid() && journal == old(journal) && !installed
      ensures Attempts(run) == Attempts(old(run))
      ensures ok ==> backup == Some(job.original)
      ensures calls >= old(calls)
      ensures Smooth(old(calls)) && old(target) == job.original ==> ok && target == job.original
    {
      hide Replay, LegalRun, Attempts;
      OthersMayWrite();
      var whole := Call();
      var partial: Option<Bytes> := *;
      ghost var before := Now();
      backup, proof := if whole then Some(target) else partial, Stale;
      Log(WriteBackup(backup), before);
      if !whole { return false; }
      OthersMayWrite();
      var finalised := Call();
      ok := finalised && backup == Some(target) && backup == Some(job.original);
    }

    /** One `os.replace`. */
    method OsReplace(bytes: Bytes) returns (r: Outcome)
      requires Valid() && Legal(job, Now(), Replace(bytes, true))
      modifies this
      ensures Valid() && journal == old(journal) && backup == old(backup)
      ensures Attempts(run) == Attempts(old(run)) + 1
      ensures installed == (if r == Done then !old(installed) else old(installed))
      ensures r == Done ==> target == bytes
      ensures r != Done ==> target == old(target)
      ensures calls == old(calls) + 1
      ensures r == if world.raises(old(calls)) then Broken else if world.locked(old(calls)) then Locked else Done
    {
      r := if world.raises(calls) then Broken else if world.locked(calls) then Locked else Done;
      calls := calls + 1;
      ghost var before := Now();
      proof := Stale;
      if r == Done {
        target, installed := bytes, !installed;
      }
      Log(Replace(bytes, r == Done), before);
    }

    /**
     `replace_with_retry`: up to seven attempts while the target is locked. `forward` says which
     check is proved again before each further attempt: the full one, or the process alone.
     */
    method ReplaceWithRetry(bytes: Bytes, forward: bool) returns (ok: bool)
      requires Valid() && installed == !forward && Legal(job, Now(), Replace(bytes, true))
      modifies this
      ensures Valid() && journal == old(journal) && backup == old(backup)
      ensures Attempts(old(run)) <= Attempts(run) <= Attempts(old(run)) + REPLACE_ATTEMPTS
      ensures installed == if ok then forward else !forward
      ensures ok ==> target == bytes
      ensures calls >= old(calls)
      ensures Smooth(old(calls)) && (forward ==> old(target) == job.original) ==>
        ok || Attempts(run) == Attempts(old(run)) + REPLACE_ATTEMPTS
    {
      for attempt := 0 to REPLACE_ATTEMPTS
        invariant Valid() && installed == !forward && Legal(job, Now(), Replace(bytes, true))
        invariant journal == old(journal) && backup == old(backup)
        invariant Attempts(run) == Attempts(old(run)) + attempt && calls >= old(calls)
        invariant Smooth(old(calls)) && forward && old(target) == job.original ==> target == job.original
      {
        var r := OsReplace(bytes);
        if r == Done { return true; }
        if attempt == REPLACE_ATTEMPTS - 1 || r == Broken { return false; }
        Pause();
        if forward {
          ok := RequireSafeToReplace();
        } else {
          ok := RequireGate();
        }
        if !ok { return; }
      }
      return false;
    }

    method Pause()
      requires Valid()
      modifies this`proof, this`run
      ensures Valid() && Attempts(run) == Attempts(old(run))
    {
      ghost var before := Now();
      proof := Stale;
      Log(Wait, before);
    }

    /** `_close_journal_after_failure`: only for an operation that replaced nothing. */
    method CloseJournalAfterFailure()
      requires Valid() && !installed
      modifies this
      ensures Valid() && !installed && Attempts(run) == Attempts(old(run))
      ensures journal == old(journal) || journal == Failed || (old(journal) == Committing && journal == RecoveryRequired)
      ensures calls >= old(calls) && target == old(target)
      ensures old(journal) != Absent && old(journal) != Committed && Smooth(old(calls)) ==> journal == Failed
    {
      if journal == Committing {
        var moved := Transition(RecoveryRequired);
        if !moved { return; }
      }
      var _ := Transition(Failed);
    }

    /** Everything up to COMMITTING, which replaces nothing. */
    method Prepare() returns (ok: bool)
      requires Valid() && journal == Prepared && !installed
      modifies this
      ensures Valid() && !installed && Attempts(run) == Attempts(old(run))
      ensures ok ==> journal == Committing
      ensures !ok ==> journal == Prepared || journal == BackedUp
      ensures calls >= old(calls)
      ensures Smooth(old(calls)) && old(target) == job.original ==> ok && target == job.original
    {
      ok := BackUp();
      if !ok { return; }
      ok := Transition(BackedUp);
      if !ok { return; }
      ok := RequireGate();
      if !ok { return; }
      ok := Transition(Committing);
    }

    /** The commit phase up to the end of its `try`; `replaced` is the flag its handler reads. */
    method Install() returns (ok: bool, replaced: bool)
      requires Valid() && journal == Committing && !installed
      modifies this
      ensures Valid() && Attempts(old(run)) <= Attempts(run) <= Attempts(old(run)) + REPLACE_ATTEMPTS
      ensures replaced == installed
      ensures ok ==> journal == Committed
      ensures journal == Committing || (journal == Committed && replaced)
      ensures replaced ==> backup == Some(job.original)
      ensures calls >= old(calls)
      ensures Smooth(old(calls)) && old(target) == job.original && !ok ==>
        if replaced then journal == Committing && !job.validates(job.candidate)
        else Attempts(run) == Attempts(old(run)) + REPLACE_ATTEMPTS
    {
      replaced := false;
      var staged := Call();                      // the temporary file is written and flushed
      if !staged { return false, false; }
      ok := RequireSafeToReplace();
      if !ok { return; }
      ok := ReplaceWithRetry(job.candidate, true);
      if !ok { return; }
      replaced := true;
      var readable := Call();                    // reading the file back for validation
      if !readable || !job.validates(target) { return false, true; }
      ok := Transition(Committed);
      if !ok { return; }
      ok := Call();                              // the prune after it
    }

    /**
     The handler's rollback; what it raises is logged and swallowed. Unless a call of its own
     raises, another program changes the file, or the target stays locked for all seven attempts,
     the original is back and the journal is FAILED.
     */
    method RollBack()
      requires Valid() && installed && journal == RecoveryRequired && backup == Some(job.original)
      modifies this
      ensures Valid() && Attempts(old(run)) <= Attempts(run) <= Attempts(old(run)) + REPLACE_ATTEMPTS
      ensures journal == RecoveryRequired || journal == Failed
      ensures calls >= old(calls)
      ensures Smooth(old(calls)) ==>
        if journal == Failed then !installed && target == job.original
        else installed && Attempts(run) == Attempts(old(run)) + REPLACE_ATTEMPTS
    {
      hide Replay, LegalRun, Attempts;
      var ok := RequireGate();
      if !ok { return; }
      var copied := Call();
      if !copied { return; }
      ghost var before := Now();
      Log(StageRollback, before);
      ok := ReplaceWithRetry(backup.value, false);
      if !ok { return; }
      OthersMayWrite();
      if target != job.original { return; }
      var _ := Transition(Failed);
    }

    /**
     `commit_global_state` under its lock: returns normally only with the candidate committed,
     follows the protocol in every execution, and so is safe in every state it passes through.
     When nothing gets in its way it commits a candidate that validates and undoes one that does
     not; whatever failed, a handler whose own calls (from `handling` on) pass leaves no journal
     open. The exception to both is a target locked for all seven attempts of a replace.
     */
    method CommitGlobalState() returns (ok: bool, ghost handling: nat)
      requires Valid() && journal == Absent && run == []
      modifies this
      ensures Valid()
      ensures handling <= calls
      ensures Smooth(old(calls)) && old(target) == job.original && Attempts(run) < REPLACE_ATTEMPTS ==>
        && ok == job.validates(job.candidate)
        && (!ok ==> journal == Failed && !installed && target == job.original)
      ensures !ok && Smooth(handling) && Attempts(run) < REPLACE_ATTEMPTS ==> Settled()
      ensures ok ==> journal == Committed && target == job.candidate && job.validates(target)
      ensures journal == Failed ==> !installed && target == theirs
      ensures forall n | 0 <= n <= |run| :: Safe(job, Replay(Rules(job), start, run[..n]))
      ensures forall i | 0 <= i < |run| && run[i].Replace? :: GateJustBefore(run, i)
      ensures Attempts(run) <= 2 * REPLACE_ATTEMPTS
    {
      ok, handling := Execute();
      forall n | 0 <= n <= |run|
        ensures Safe(job, Replay(Rules(job), start, run[..n]))
      {
        PrefixLegal(Rules(job), start, run, n);
        EveryStateIsSafe(job, start, run[..n]);
      }
      forall i | 0 <= i < |run| && run[i].Replace?
        ensures GateJustBefore(run, i)
      {
        ReplacesFollowGate(job, start, run, i);
      }
    }

    /**
     How a failed operation ends when its handler is not disturbed: closed as FAILED without any
     net effect, never begun, or committed with only the prune after it failing.
     */
    ghost predicate Settled()
      reads this
    {
      (journal == Failed && !installed) || (journal == Absent && !installed) || journal == Committed
    }

    method Execute() returns (ok: bool, ghost handling: nat)
      requires Valid() && journal == Absent && run == []
      modifies this
      ensures Valid() && handling <= calls
      ensures Smooth(old(calls)) && old(target) == job.original && Attempts(run) < REPLACE_ATTEMPTS ==>
        && ok == job.validates(job.candidate)
        && (!ok ==> journal == Failed && !installed && target == job.original)
      ensures !ok && Smooth(handling) && Attempts(run) < REPLACE_ATTEMPTS ==> Settled()
      ensures ok ==> journal == Committed
      ensures Attempts(run) <= 2 * REPLACE_ATTEMPTS
    {
      assert Attempts(run) == 0;
      hide Replay, LegalRun, Attempts;
      ok := Transition(Prepared);                // `journals.begin`
      handling := calls;
      if !ok { return; }
      ok := Prepare();
      handling := calls;
      if !ok {
        CloseJournalAfterFailure();
        return;
      }
      var replaced: bool;
      ok, replaced := Install();
      handling := calls;
      if !ok { Handle(replaced); }
    }

    /** The handler of the commit phase. */
    method Handle(replaced: bool)
      requires Valid() && replaced == installed && (journal == Committing || (journal == Committed && installed))
      requires installed ==> backup == Some(job.original)
      modifies this
      ensures Valid() && calls >= old(calls)
      ensures Attempts(old(run)) <= Attempts(run) <= Attempts(old(run)) + REPLACE_ATTEMPTS
      ensures Smooth(old(calls)) ==>
        || (old(journal) == Committed && journal == Committed)
        || (journal == Failed && !installed && (replaced ==> target == job.original))
        || Attempts(run) == Attempts(old(run)) + REPLACE_ATTEMPTS
    {
      hide Replay, LegalRun, Attempts;
      var unlinked := Call();                    // removing the temporary file may raise as well
      if !unlinked { return; }
      if !replaced {
        CloseJournalAfterFailure();
        return;
      }
      var recorded := Transition(RecoveryRequired);
      if recorded { RollBack(); }
    }
  }
}
