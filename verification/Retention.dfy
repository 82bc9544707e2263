/**
 Backup retention in a folder that several machines share: the prune of one machine, entry by
 entry and with removals that may fail, and the protocol of many machines whose envelopes and
 prunes interleave.
 */
module Retention {
  import opened Decimal
  import E = Envelope

  // ------------------------------------------------------------------ snapshot names

  predicate Hexes(s: string) { forall c | c in s :: '0' <= c <= '9' || 'a' <= c <= 'f' }

  /** `-20260131T235959Z-0123456789ab`, what follows the machine in a snapshot name. */
  predicate Stamp(s: string) {
    && |s| == 30
    && s[0] == '-' && AllDigits(s[1..9]) && s[9] == 'T' && AllDigits(s[10..16]) && s[16] == 'Z' && s[17] == '-'
    && Hexes(s[18..])
  }

  const ZIP := ".zip"

  /** `snapshot_belongs_to`, for a machine id in its normalised form. */
  ghost predicate Belongs(name: string, machine: string) {
    exists stamp: string :: Stamp(stamp) && (name == machine + stamp || name == machine + stamp + ZIP)
  }

  /** A name belongs to at most one machine, even when one machine's id extends another's. */
  lemma OwnerUnique(name: string, a: string, b: string)
    requires Belongs(name, a) && Belongs(name, b)
    ensures a == b
  {
    var s :| Stamp(s) && (name == a + s || name == a + s + ZIP);
    var t :| Stamp(t) && (name == b + t || name == b + t + ZIP);
    Tail(name, a, s);
    Tail(name, b, t);
    if name[|name| - 1] == 'p' {
      assert a == name[..|name| - 34] == b;
    } else {
      assert a == name[..|name| - 30] == b;
    }
  }

  lemma Tail(name: string, a: string, s: string)
    requires Stamp(s) && (name == a + s || name == a + s + ZIP)
    ensures |name| >= 30
    ensures name[|name| - 1] == 'p' ==> |name| >= 34 && a == name[..|name| - 34]
    ensures name[|name| - 1] != 'p' ==> a == name[..|name| - 30]
  {
    if name == a + s {
      assert name[|name| - 1] == s[18..][11];
      assert s[18..][11] in s[18..];
    } else {
      assert name[|name| - 1] == ZIP[3];
    }
  }

  // ------------------------------------------------------------------ one prune

  datatype Kind = Directory | File

  datatype Entry = Entry(modified: int, kind: Kind)

  type Folder = map<string, Entry>

  predicate EndsInZip(name: string) { |name| >= 4 && name[|name| - 4..] == ZIP }

  /** What the prune of one machine may consider at all. */
  ghost predicate Candidate(folder: Folder, machine: string, protected: set<string>, name: string) {
    && name in folder && name !in protected && Belongs(name, machine)
    && folder[name].kind == (if EndsInZip(name) then File else Directory)
  }

  ghost function Candidates(folder: Folder, machine: string, protected: set<string>): set<string> {
    set name | name in folder && Candidate(folder, machine, protected, name)
  }

  predicate NewestFirst(folder: Folder, names: seq<string>) {
    && (forall i | 0 <= i < |names| :: names[i] in folder)
    && forall i, j | 0 <= i < j < |names| :: names[i] != names[j] && folder[names[i]].modified >= folder[names[j]].modified
  }

  /** Only candidates may be gone, and nothing that is not a candidate may have been touched. */
  ghost predicate OnlyCandidatesTouched(before: Folder, after: Folder, machine: string, protected: set<string>) {
    && after.Keys <= before.Keys
    && (forall n | n in after :: after[n].kind == before[n].kind)
    && forall n | n in before && !Candidate(before, machine, protected, n) :: n in after && after[n] == before[n]
  }

  /**
   A complete prune: the candidates left are a newest-first prefix of those there were, none past
   the age limit, at most `max` when that is positive, and a young one goes only when `max` are left.
   */
  ghost predicate Pruned(before: Folder, after: Folder, machine: string, protected: set<string>, days: int, max: int, now: int) {
    var had := Candidates(before, machine, protected);
    var left := Candidates(after, machine, protected);
    && (forall n | n in after :: n in before && after[n] == before[n])
    && left <= had
    && (forall k, r | k in left && r in had - left :: before[k].modified >= before[r].modified)
    && (days > 0 ==> forall k | k in left :: !Old(before[k].modified, days, now))
    && (max > 0 ==> |left| <= max)
    && ((exists r | r in had - left :: days <= 0 || !Old(before[r].modified, days, now)) ==> max > 0 && |left| == max)
  }

  function Cutoff(days: int, now: int): int { now - days * 24 * 60 * 60 }

  const SECONDS_A_DAY := 86400

  /** More than so many days have passed since. */
  predicate Old(modified: int, days: int, now: int) { now - modified > days * SECONDS_A_DAY }

  /** A pass over the folder that set out to remove `out`: each of these is gone or stays, perhaps with another time. */
  predicate Pass(before: Folder, after: Folder, out: set<string>) {
    && after.Keys <= before.Keys
    && (forall n | n in after :: after[n].kind == before[n].kind)
    && forall n | n in before && n !in out :: n in after && after[n] == before[n]
  }

  /** The candidates past the age limit, which the first pass sets out to remove. */
  ghost function Aged(folder: Folder, machine: string, protected: set<string>, days: int, now: int): set<string> {
    if days <= 0 then {}
    else set n | n in folder && Candidate(folder, machine, protected, n) && Old(folder[n].modified, days, now)
  }

  /** What the second pass sets out to remove: the listing beyond its first `max`. */
  function Excess(listing: seq<string>, max: int): set<string> {
    if 0 < max < |listing| then set n | n in listing[max..] else {}
  }

  ghost predicate Lists(folder: Folder, machine: string, protected: set<string>, listing: seq<string>) {
    NewestFirst(folder, listing) && forall n :: n in listing <==> n in Candidates(folder, machine, protected)
  }

  /** A prune that reaches its end: both passes, the second over the candidates the first left. */
  ghost predicate Finishes(before: Folder, middle: Folder, after: Folder, listing: seq<string>,
                           machine: string, protected: set<string>, days: int, max: int, now: int) {
    && Pass(before, middle, Aged(before, machine, protected, days, now))
    && (max > 0 ==> Lists(middle, machine, protected, listing))
    && Pass(middle, after, Excess(listing, max))
  }

  /** All the names the two passes set out to remove. */
  ghost function Doomed(before: Folder, listing: seq<string>, machine: string, protected: set<string>, days: int, max: int, now: int): set<string> {
    Aged(before, machine, protected, days, now) + Excess(listing, max)
  }

  /**
   What becomes of a call: it does its work, leaves the snapshot in place, perhaps with another
   modification time, or raises whether or not the snapshot is gone. A listing works or raises.
   */
  datatype Fate = Works | Stays(modified: int) | Raises(gone: bool, modified: int)

  /** How many of the calls from `from` up to `to` do not do their work. */
  function Misfortunes(fates: nat -> Fate, from: nat, to: nat): nat
    decreases to - from
  {
    if from >= to then 0 else Misfortunes(fates, from, to - 1) + if fates(to - 1).Works? then 0 else 1
  }

  predicate AllWork(fates: nat -> Fate, from: nat, to: nat) { from <= to && forall k | from <= k < to :: fates(k).Works? }

  lemma Together(fates: nat -> Fate, a: nat, b: nat, c: nat)
    requires a <= b <= c
    ensures AllWork(fates, a, c) <==> AllWork(fates, a, b) && AllWork(fates, b, c)
    ensures Misfortunes(fates, a, c) == Misfortunes(fates, a, b) + Misfortunes(fates, b, c)
  {
    MisfortunesAdd(fates, a, b, c);
  }

  lemma {:induction false} MisfortunesAdd(fates: nat -> Fate, a: nat, b: nat, c: nat)
    requires a <= b <= c
    ensures Misfortunes(fates, a, c) == Misfortunes(fates, a, b) + Misfortunes(fates, b, c)
    decreases c
  {
    if b < c { MisfortunesAdd(fates, a, b, c - 1); }
  }

  /** The listed names that are stale. */
  function Stale(names: seq<string>, stale: set<string>): set<string> { set n | n in names && n in stale }

  lemma ExcessIs(names: seq<string>, max: int)
    requires max > 0
    ensures var excess := if max < |names| then names[max..] else [];
      Stale(excess, set n | n in excess) == Excess(names, max)
  {
  }

  lemma NoneYet(folder: Folder, stale: set<string>)
    ensures Stale([], stale) == {} && Pass(folder, folder, {})
  {
  }

  lemma NotStale(names: seq<string>, i: nat, stale: set<string>)
    requires i < |names| && names[i] !in stale
    ensures Stale(names[..i + 1], stale) == Stale(names[..i], stale)
  {
    assert names[..i + 1] == names[..i] + [names[i]];
  }

  /** One stale name was removed, or stays with another time. */
  lemma OneRemoved(start: Folder, before: Folder, after: Folder, names: seq<string>, i: nat, stale: set<string>, gone: bool)
    requires i < |names| && Pass(start, before, Stale(names[..i], stale)) && names[i] in stale && names[i] in before
    requires forall j, k | 0 <= j < k < |names| :: names[j] != names[k]
    requires if gone then after == before - {names[i]} else exists m :: after == before[names[i] := before[names[i]].(modified := m)]
    ensures Pass(start, after, Stale(names[..i + 1], stale))
    ensures forall k | i < k < |names| && names[k] in before :: names[k] in after
    ensures Stale(names[..i + 1], stale) * after.Keys == (Stale(names[..i], stale) * before.Keys) + if gone then {} else {names[i]}
  {
    assert names[..i + 1] == names[..i] + [names[i]];
    assert Stale(names[..i + 1], stale) == Stale(names[..i], stale) + {names[i]};
    assert names[i] !in Stale(names[..i], stale);
    hide Stale;
  }

  lemma MoreStale(start: Folder, after: Folder, names: seq<string>, i: nat, stale: set<string>)
    requires i < |names| && Pass(start, after, Stale(names[..i + 1], stale))
    ensures Pass(start, after, Stale(names, stale))
  {
    assert Stale(names[..i + 1], stale) <= Stale(names, stale);
    hide Stale;
  }

  /** `early` says that the second pass had not begun. */
  datatype Ending = Skipped | Stopped(early: bool) | Finished(complete: bool)

  class BackupManager {
    const machine: string
    const retentionDays: int
    const maxBackups: int
    var folder: Folder
    const fates: nat -> Fate    // what becomes of each call, counted in order
    var calls: nat

    constructor (machine: string, retentionDays: int, maxBackups: int, folder: Folder, fates: nat -> Fate)
      ensures this.machine == machine && this.retentionDays == retentionDays && this.fates == fates
      ensures this.maxBackups == maxBackups && this.folder == folder
    {
      this.machine, this.retentionDays, this.maxBackups, this.folder := machine, retentionDays, maxBackups, folder;
      this.fates, calls := fates, 0;
    }

    /** Every call since call `from` did its work. */
    ghost predicate Smooth(from: nat)
      reads this
    {
      AllWork(fates, from, calls)
    }

    /** How many calls since call `from` did not. */
    ghost function Failed(from: nat): nat
      reads this
    {
      Misfortunes(fates, from, calls)
    }

    /**
     `_remove_snapshot`. A directory whose removal failed silently stays, perhaps with another
     modification time; deleting the manifest may raise whether or not the snapshot is gone.
     */
    method Remove(name: string) returns (raised: bool, gone: bool)
      requires name in folder
      modifies this`folder, this`calls
      ensures calls == old(calls) + 1
      ensures raised == fates(old(calls)).Raises?
      ensures gone == (fates(old(calls)).Works? || (fates(old(calls)).Raises? && fates(old(calls)).gone))
      ensures folder == if gone then old(folder) - {name}
                        else old(folder)[name := old(folder)[name].(modified := fates(old(calls)).modified)]
      ensures forall from: nat | from <= old(calls) ::
        && (Smooth(from) <==> old(Smooth(from)) && gone && !raised)
        && Failed(from) == old(Failed(from)) + if gone && !raised then 0 else 1
    {
      var fate := fates(calls);
      calls := calls + 1;
      raised := fate.Raises?;
      gone := fate.Works? || (fate.Raises? && fate.gone);
      if gone {
        folder := folder - {name};
      } else {
        folder := folder[name := folder[name].(modified := fate.modified)];
      }
    }

    /** Whether the folder can be listed. */
    method CanList() returns (listed: bool)
      modifies this`calls
      ensures calls == old(calls) + 1 && listed == fates(old(calls)).Works?
    {
      listed := fates(calls).Works?;
      calls := calls + 1;
    }

    /** `_own_snapshots`: every candidate once, newest first. */
    method OwnSnapshots(protected: set<string>) returns (names: seq<string>)
      ensures NewestFirst(folder, names)
      ensures forall n :: n in names <==> n in Candidates(folder, machine, protected)
    {
      names := [];
      var rest := folder.Keys;
      while rest != {}
        invariant rest <= folder.Keys
        invariant NewestFirst(folder, names)
        invariant forall n :: n in names <==> n in Candidates(folder, machine, protected) && n !in rest
      {
        var name :| name in rest;
        rest := rest - {name};
        var own := IsCandidate(name, protected);
        if own {
          names := Insert(names, name);
        }
      }
    }

    method IsCandidate(name: string, protected: set<string>) returns (r: bool)
      requires name in folder
      ensures r <==> Candidate(folder, machine, protected, name)
    {
      var belongs := BelongsTo(name, machine);
      r := name !in protected && belongs && folder[name].kind == (if EndsInZip(name) then File else Directory);
    }

    /** Keeps a newest-first list so. */
    method Insert(names: seq<string>, name: string) returns (r: seq<string>)
      requires NewestFirst(folder, names) && name in folder && name !in names
      ensures NewestFirst(folder, r)
      ensures forall n :: n in r <==> n in names || n == name
    {
      var i := 0;
      while i < |names| && folder[names[i]].modified >= folder[name].modified
        invariant i <= |names|
        invariant forall j | 0 <= j < i :: folder[names[j]].modified >= folder[name].modified
      {
        i := i + 1;
      }
      r := names[..i] + [name] + names[i..];
      Inserted(folder, names, i, name);
    }

    /** Removes, in order, the listed names that are stale. */
    method RemoveAll(names: seq<string>, stale: set<string>) returns (raised: bool, complete: bool)
      requires forall n | n in names :: n in folder
      requires forall i, j | 0 <= i < j < |names| :: names[i] != names[j]
      modifies this`folder, this`calls
      ensures Pass(old(folder), folder, Stale(names, stale))
      ensures calls >= old(calls) && (!raised && complete <==> Smooth(old(calls)))
      ensures !raised && complete ==> Stale(names, stale) !! folder.Keys
      ensures !raised ==> |Stale(names, stale) * folder.Keys| <= Failed(old(calls))
    {
      hide Pass, Smooth, Failed, Stale;
      raised, complete := false, true;
      ghost var start := folder;
      NoneYet(folder, stale);
      SmoothYet();
      for i := 0 to |names|
        invariant !raised && calls >= old(calls) && (complete <==> Smooth(old(calls)))
        invariant Pass(start, folder, Stale(names[..i], stale))
        invariant forall k | i <= k < |names| :: names[k] in folder
        invariant complete ==> Stale(names[..i], stale) !! folder.Keys
        invariant |Stale(names[..i], stale) * folder.Keys| <= Failed(old(calls))
      {
        ghost var before := folder;
        if names[i] in stale {
          var gone: bool;
          raised, gone := Remove(names[i]);
          complete := complete && gone;
          OneRemoved(start, before, folder, names, i, stale, gone);
          if raised {
            MoreStale(start, folder, names, i, stale);
            break;
          }
        } else {
          NotStale(names, i, stale);
        }
      }
      assert !raised ==> names[..|names|] == names;
    }

    lemma SmoothYet()
      ensures Smooth(calls) && Failed(calls) == 0
    {
    }

    /** First pass: what is past the age limit. */
    method RemoveAged(protected: set<string>, now: int) returns (raised: bool, complete: bool)
      requires retentionDays > 0
      modifies this`folder, this`calls
      ensures Pass(old(folder), folder, Aged(old(folder), machine, protected, retentionDays, now))
      ensures calls >= old(calls) && (!raised && complete <==> Smooth(old(calls)))
      ensures !raised && complete ==> Aged(old(folder), machine, protected, retentionDays, now) !! folder.Keys
      ensures !raised ==> |Aged(old(folder), machine, protected, retentionDays, now) * folder.Keys| <= Failed(old(calls))
    {
      hide Belongs, Pass, Smooth, Failed;
      var names := OwnSnapshots(protected);
      var stale := set n | n in names && folder[n].modified < Cutoff(retentionDays, now);
      assert Stale(names, stale) == Aged(folder, machine, protected, retentionDays, now);
      raised, complete := RemoveAll(names, stale);
    }

    /** Second pass: what is left beyond the newest `maxBackups`. */
    method RemoveExcess(protected: set<string>) returns (raised: bool, complete: bool, ghost listing: seq<string>)
      requires maxBackups > 0
      modifies this`folder, this`calls
      ensures Lists(old(folder), machine, protected, listing)
      ensures Pass(old(folder), folder, Excess(listing, maxBackups))
      ensures calls >= old(calls) && (!raised && complete <==> Smooth(old(calls)))
      ensures !raised && complete ==> Excess(listing, maxBackups) !! folder.Keys
      ensures !raised ==> |Excess(listing, maxBackups) * folder.Keys| <= Failed(old(calls))
    {
      hide Candidates, Pass, Smooth, Failed;
      var names := OwnSnapshots(protected);
      listing := names;
      var excess := if maxBackups < |names| then names[maxBackups..] else [];
      ExcessIs(names, maxBackups);
      assert forall n | n in excess :: n in names;
      raised, complete := RemoveAll(excess, set n | n in excess);
    }

    /**
     `prune`. `protected` is what the unfinished journals of this machine name, unknown when the
     journals cannot be read. Nothing but this machine's unprotected snapshots is touched, however
     it ends. Once the second pass has begun, a newest-first prefix within both limits is left
     exactly if none of the names the two passes set out to remove is left; no failure is enough
     for that. A prune that stopped before leaves one exactly if nothing past the age limit is left
     and what is left is not too much. No more of the names is left than calls failed.
     */
    method Prune(journalsReadable: bool, protected: set<string>, now: int)
      returns (r: Ending, ghost middle: Folder, ghost listing: seq<string>)
      modifies this`folder, this`calls
      ensures OnlyCandidatesTouched(old(folder), folder, machine, protected)
      ensures r == Skipped <==> !journalsReadable
      ensures r == Skipped ==> folder == old(folder)
      ensures r == Finished(true) <==> journalsReadable && Smooth(old(calls))
      ensures r.Finished? ==>
        |Doomed(old(folder), listing, machine, protected, retentionDays, maxBackups, now) * folder.Keys| <= Failed(old(calls))
      ensures r.Finished? || r == Stopped(false) ==>
        Finishes(old(folder), middle, folder, listing, machine, protected, retentionDays, maxBackups, now)
      ensures r.Finished? || r == Stopped(false) ==>
        (Pruned(old(folder), folder, machine, protected, retentionDays, maxBackups, now)
         <==> Doomed(old(folder), listing, machine, protected, retentionDays, maxBackups, now) !! folder.Keys)
      ensures r == Stopped(true) ==>
        (Pruned(old(folder), folder, machine, protected, retentionDays, maxBackups, now)
         <==> Aged(old(folder), machine, protected, retentionDays, now) !! folder.Keys
              && (maxBackups > 0 ==> |Candidates(folder, machine, protected)| <= maxBackups))
      ensures r == Finished(true) ==> Pruned(old(folder), folder, machine, protected, retentionDays, maxBackups, now)
    {
      hide Aged, Excess, Pass, Lists, Pruned, OnlyCandidatesTouched, Candidates, AllWork, Misfortunes, Doomed, Finishes;
      ghost var c0 := calls;
      middle, listing := folder, [];
      Untouched(folder, machine, protected, retentionDays, maxBackups, now);
      if !journalsReadable { return Skipped, middle, listing; }
      var complete := true;
      var listed := CanList();
      Listed(fates, c0, calls);
      if !listed {
        PassOfNothing(folder, Aged(folder, machine, protected, retentionDays, now));
        StoppedExactly(folder, folder, machine, protected, retentionDays, maxBackups, now);
        return Stopped(true), middle, listing;
      }
      ghost var c1 := calls;
      NothingAged(folder, machine, protected, retentionDays, now);
      NothingFails(fates, c1);
      if retentionDays > 0 {
        var raised;
        raised, complete := RemoveAged(protected, now);
        middle := folder;
        AgedTouched(old(folder), folder, machine, protected, retentionDays, now);
        Together(fates, c0, c1, calls);
        if raised {
          StoppedExactly(old(folder), folder, machine, protected, retentionDays, maxBackups, now);
          return Stopped(true), middle, listing;
        }
      }
      ghost var c2 := calls;
      Together(fates, c0, c1, c2);
      Untouched(middle, machine, protected, retentionDays, maxBackups, now);
      if maxBackups > 0 {
        listed := CanList();
        Listed(fates, c2, calls);
        Together(fates, c0, c2, calls);
        if !listed {
          StoppedExactly(old(folder), folder, machine, protected, retentionDays, maxBackups, now);
          return Stopped(true), middle, listing;
        }
        ghost var c3 := calls;
        var raised, all;
        raised, all, listing := RemoveExcess(protected);
        Together(fates, c0, c3, calls);
        ExcessTouched(middle, folder, machine, protected, listing, maxBackups);
        TouchedTwice(old(folder), middle, folder, machine, protected);
        FinishesIs(old(folder), middle, folder, listing, machine, protected, retentionDays, maxBackups, now);
        if raised {
          PrunedExactly(old(folder), middle, folder, listing, machine, protected, retentionDays, maxBackups, now);
          return Stopped(false), middle, listing;
        }
        complete := complete && all;
      }
      KeysShrink(middle, folder, Excess(listing, maxBackups));
      FinishesIs(old(folder), middle, folder, listing, machine, protected, retentionDays, maxBackups, now);
      DoomedLeft(old(folder), middle, folder, listing, machine, protected, retentionDays, maxBackups, now);
      PrunedExactly(old(folder), middle, folder, listing, machine, protected, retentionDays, maxBackups, now);
      r := Finished(complete);
    }
  }

  lemma Listed(fates: nat -> Fate, from: nat, to: nat)
    requires to == from + 1
    ensures AllWork(fates, from, to) <==> fates(from).Works?
    ensures Misfortunes(fates, from, to) == if fates(from).Works? then 0 else 1
  {
  }

  lemma NothingFails(fates: nat -> Fate, from: nat)
    ensures AllWork(fates, from, from) && Misfortunes(fates, from, from) == 0
  {
  }

  lemma NothingAged(folder: Folder, machine: string, protected: set<string>, days: int, now: int)
    ensures days <= 0 ==> Aged(folder, machine, protected, days, now) == {}
  {
  }

  lemma FinishesIs(before: Folder, middle: Folder, after: Folder, listing: seq<string>,
                   machine: string, protected: set<string>, days: int, max: int, now: int)
    requires Pass(before, middle, Aged(before, machine, protected, days, now)) && Pass(middle, after, Excess(listing, max))
    requires max > 0 ==> Lists(middle, machine, protected, listing)
    ensures Finishes(before, middle, after, listing, machine, protected, days, max, now)
  {
    hide Pass, Aged, Excess, Lists;
  }

  /** What is left of the names both passes set out to remove was left by the one or by the other. */
  lemma DoomedLeft(before: Folder, middle: Folder, after: Folder, listing: seq<string>,
                   machine: string, protected: set<string>, days: int, max: int, now: int)
    requires after.Keys <= middle.Keys
    ensures |Doomed(before, listing, machine, protected, days, max, now) * after.Keys|
         <= |Aged(before, machine, protected, days, now) * middle.Keys| + |Excess(listing, max) * after.Keys|
  {
    hide *;
    DoomedIs(before, listing, machine, protected, days, max, now);
    BothLeft(Aged(before, machine, protected, days, now), Excess(listing, max), middle.Keys, after.Keys);
  }

  lemma BothLeft(x: set<string>, y: set<string>, middle: set<string>, after: set<string>)
    requires after <= middle
    ensures |(x + y) * after| <= |x * middle| + |y * after|
  {
    var a, b := x * middle, y * after;
    Larger((x + y) * after, a + (b - a));
    Larger(b - a, b);
  }

  lemma Inserted(folder: Folder, names: seq<string>, i: nat, name: string)
    requires NewestFirst(folder, names) && name in folder && name !in names && i <= |names|
    requires forall j | 0 <= j < i :: folder[names[j]].modified >= folder[name].modified
    requires i < |names| ==> folder[names[i]].modified < folder[name].modified
    ensures NewestFirst(folder, names[..i] + [name] + names[i..])
    ensures forall n :: n in names[..i] + [name] + names[i..] <==> n in names || n == name
  {
    assert names == names[..i] + names[i..];
    assert forall j | i <= j < |names| :: folder[names[j]].modified < folder[name].modified;
    InsertedOrder(folder, names, i, name);
  }

  lemma InsertedOrder(folder: Folder, names: seq<string>, i: nat, name: string)
    requires NewestFirst(folder, names) && name in folder && name !in names && i <= |names|
    requires forall j | 0 <= j < i :: folder[names[j]].modified >= folder[name].modified
    requires forall j | i <= j < |names| :: folder[names[j]].modified < folder[name].modified
    ensures NewestFirst(folder, names[..i] + [name] + names[i..])
  {
    var r := names[..i] + [name] + names[i..];
    forall a, b | 0 <= a < b < |r|
      ensures r[a] in folder && r[b] in folder && r[a] != r[b] && folder[r[a]].modified >= folder[r[b]].modified
    {
      InsertedAt(names, i, name, a);
      InsertedAt(names, i, name, b);
    }
    forall a | 0 <= a < |r|
      ensures r[a] in folder
    {
      InsertedAt(names, i, name, a);
    }
  }

  lemma InsertedAt(names: seq<string>, i: nat, name: string, k: nat)
    requires i <= |names| && k <= |names|
    ensures (names[..i] + [name] + names[i..])[k] == if k < i then names[k] else if k == i then name else names[k - 1]
  {
  }

  /** A folder that no pass touches. */
  lemma Untouched(folder: Folder, machine: string, protected: set<string>, days: int, max: int, now: int)
    ensures OnlyCandidatesTouched(folder, folder, machine, protected)
    ensures days <= 0 ==> Aged(folder, machine, protected, days, now) == {}
    ensures forall listing | max <= 0 || listing == [] :: Excess(listing, max) == {}
    ensures Pass(folder, folder, {})
  {
  }

  lemma KeysShrink(before: Folder, after: Folder, out: set<string>)
    requires Pass(before, after, out)
    ensures after.Keys <= before.Keys
  {
  }

  lemma AgedTouched(before: Folder, after: Folder, machine: string, protected: set<string>, days: int, now: int)
    requires Pass(before, after, Aged(before, machine, protected, days, now))
    ensures OnlyCandidatesTouched(before, after, machine, protected)
  {
  }

  lemma ExcessTouched(before: Folder, after: Folder, machine: string, protected: set<string>, listing: seq<string>, max: int)
    requires Lists(before, machine, protected, listing) && Pass(before, after, Excess(listing, max))
    ensures OnlyCandidatesTouched(before, after, machine, protected)
  {
    hide Belongs;
    assert forall n | n in Excess(listing, max) :: n in listing;
  }

  lemma TouchedTwice(before: Folder, middle: Folder, after: Folder, machine: string, protected: set<string>)
    requires OnlyCandidatesTouched(before, middle, machine, protected)
    requires OnlyCandidatesTouched(middle, after, machine, protected)
    ensures OnlyCandidatesTouched(before, after, machine, protected)
  {
  }

  // ------------------------------------------------------------------ exactly when the prefix is left

  /** Entries neither pass set out to remove are as they were. */
  lemma Spared(before: Folder, middle: Folder, after: Folder, listing: seq<string>,
               machine: string, protected: set<string>, days: int, max: int, now: int)
    requires Finishes(before, middle, after, listing, machine, protected, days, max, now)
    ensures forall n | n in before && n !in Doomed(before, listing, machine, protected, days, max, now) ::
      n in middle && n in after && middle[n] == before[n] && after[n] == before[n]
    ensures after.Keys <= middle.Keys <= before.Keys
    ensures forall n | n in after :: Candidate(after, machine, protected, n) <==> Candidate(before, machine, protected, n)
    ensures forall n | n in middle :: Candidate(middle, machine, protected, n) <==> Candidate(before, machine, protected, n)
  {
    hide Belongs, Aged, Excess, Lists;
  }

  /** The listing's first `max`, or all of it when there are not so many. */
  function Newest(listing: seq<string>, max: int): set<string> {
    if 0 < max < |listing| then set n | n in listing[..max] else set n | n in listing
  }

  lemma NewestCount(listing: seq<string>, max: int)
    requires 0 < max && forall i, j | 0 <= i < j < |listing| :: listing[i] != listing[j]
    ensures |Newest(listing, max)| == if max < |listing| then max else |listing|
    ensures Newest(listing, max) !! Excess(listing, max)
    ensures Newest(listing, max) + Excess(listing, max) == set n | n in listing
  {
    if max < |listing| {
      Prefix(listing, max);
      SplitAt(listing, max);
    } else {
      Count(listing);
    }
  }

  lemma SplitAt(listing: seq<string>, k: nat)
    requires k <= |listing| && forall i, j | 0 <= i < j < |listing| :: listing[i] != listing[j]
    ensures (set n | n in listing[..k]) !! (set n | n in listing[k..])
    ensures (set n | n in listing[..k]) + (set n | n in listing[k..]) == set n | n in listing
  {
    assert listing == listing[..k] + listing[k..];
    forall a, b | a in listing[..k] && b in listing[k..]
      ensures a != b
    {
      var i :| 0 <= i < k && listing[..k][i] == a;
      var j :| 0 <= j < |listing| - k && listing[k..][j] == b;
      assert listing[i] == a && listing[k + j] == b;
    }
  }

  /** The first `max` of the listing stay, and only they can when nothing doomed is left. */
  lemma FirstOnesStay(before: Folder, middle: Folder, after: Folder, listing: seq<string>,
                      machine: string, protected: set<string>, days: int, max: int, now: int)
    requires Finishes(before, middle, after, listing, machine, protected, days, max, now) && 0 < max
    ensures |Newest(listing, max)| == if max < |listing| then max else |listing|
    ensures Newest(listing, max) <= Candidates(after, machine, protected) <= Newest(listing, max) + Excess(listing, max)
    ensures Newest(listing, max) !! Excess(listing, max)
  {
    hide Belongs, Aged, Newest, Excess;
    Spared(before, middle, after, listing, machine, protected, days, max, now);
    NewestCount(listing, max);
    assert (set n | n in listing) == Candidates(middle, machine, protected);
    forall n | n in Newest(listing, max)
      ensures n in Candidates(after, machine, protected)
    {
      assert n in Candidates(middle, machine, protected);
    }
    forall n | n in Candidates(after, machine, protected)
      ensures n in Newest(listing, max) + Excess(listing, max)
    {
      assert n in Candidates(middle, machine, protected);
    }
  }

  lemma SomethingLeft(before: Folder, middle: Folder, after: Folder, listing: seq<string>,
                      machine: string, protected: set<string>, days: int, max: int, now: int, x: string)
    requires Finishes(before, middle, after, listing, machine, protected, days, max, now)
    requires x in Doomed(before, listing, machine, protected, days, max, now) && x in after
    ensures !Pruned(before, after, machine, protected, days, max, now)
  {
    hide Belongs;
    Spared(before, middle, after, listing, machine, protected, days, max, now);
    var left := Candidates(after, machine, protected);
    if x in Aged(before, machine, protected, days, now) {
      assert x in left;
    } else {
      assert x in listing[max..] && x in listing;
      assert x in left;
      FirstOnesStay(before, middle, after, listing, machine, protected, days, max, now);
      Larger(Newest(listing, max) + {x}, left);
    }
  }

  lemma Larger(a: set<string>, b: set<string>)
    requires a <= b
    ensures |a| <= |b|
  {
    assert b == a + (b - a);
  }

  lemma NothingLeft(before: Folder, middle: Folder, after: Folder, listing: seq<string>,
                    machine: string, protected: set<string>, days: int, max: int, now: int)
    requires Finishes(before, middle, after, listing, machine, protected, days, max, now)
    requires Doomed(before, listing, machine, protected, days, max, now) !! after.Keys
    ensures Pruned(before, after, machine, protected, days, max, now)
  {
    hide *;
    GoneWereDoomed(before, middle, after, listing, machine, protected, days, max, now);
    DoomedIs(before, listing, machine, protected, days, max, now);
    AgedIs(before, machine, protected, days, now);
    ExcessMeans(listing, max);
    var had, left := Candidates(before, machine, protected), Candidates(after, machine, protected);
    forall a, b | a in left && b in had - left
      ensures before[a].modified >= before[b].modified
    {
      YoungerIsLater(before[a].modified, before[b].modified, days, now);
      if b !in Aged(before, machine, protected, days, now) {
        StaysNewer(before, middle, after, listing, machine, protected, days, max, now, a, b);
      }
    }
    if max > 0 {
      FirstOnesStay(before, middle, after, listing, machine, protected, days, max, now);
      assert left == Newest(listing, max);
    }
    PrunedIs(before, after, machine, protected, days, max, now);
  }

  lemma YoungerIsLater(a: int, b: int, days: int, now: int)
    ensures !Old(a, days, now) && Old(b, days, now) ==> a > b
  {
  }

  lemma GoneWereDoomed(before: Folder, middle: Folder, after: Folder, listing: seq<string>,
                       machine: string, protected: set<string>, days: int, max: int, now: int)
    requires Finishes(before, middle, after, listing, machine, protected, days, max, now)
    requires Doomed(before, listing, machine, protected, days, max, now) !! after.Keys
    ensures forall n | n in after :: n in before && after[n] == before[n]
    ensures var had, left := Candidates(before, machine, protected), Candidates(after, machine, protected);
      var doomed := Doomed(before, listing, machine, protected, days, max, now);
      && left <= had && (forall n | n in had :: n in before) && (forall n | n in left :: n in after)
      && left !! doomed && had - left <= doomed
  {
    hide Finishes, Candidate, Doomed;
    Spared(before, middle, after, listing, machine, protected, days, max, now);
  }

  lemma DoomedIs(before: Folder, listing: seq<string>, machine: string, protected: set<string>, days: int, max: int, now: int)
    ensures Doomed(before, listing, machine, protected, days, max, now) == Aged(before, machine, protected, days, now) + Excess(listing, max)
  {
    hide Aged, Excess;
  }

  lemma CandidatesIs(folder: Folder, machine: string, protected: set<string>)
    ensures forall n :: n in Candidates(folder, machine, protected) <==> n in folder && Candidate(folder, machine, protected, n)
  {
    hide Candidate;
  }

  /** The parts of `Pruned`. */
  lemma PrunedIs(before: Folder, after: Folder, machine: string, protected: set<string>, days: int, max: int, now: int)
    requires forall n | n in after :: n in before && after[n] == before[n]
    requires Candidates(after, machine, protected) <= Candidates(before, machine, protected)
    requires var had, left := Candidates(before, machine, protected), Candidates(after, machine, protected);
      && (forall n | n in had :: n in before) && (forall n | n in left :: n in before)
      && (forall k, r | k in left && r in had - left :: before[k].modified >= before[r].modified)
      && (days > 0 ==> forall k | k in left :: !Old(before[k].modified, days, now))
      && (max > 0 ==> |left| <= max)
      && (forall r | r in had - left && (days <= 0 || !Old(before[r].modified, days, now)) :: max > 0 && |left| == max)
    ensures Pruned(before, after, machine, protected, days, max, now)
  {
    hide Candidate, Candidates;
    CandidatesIs(before, machine, protected);
    CandidatesIs(after, machine, protected);
  }

  lemma AgedIs(folder: Folder, machine: string, protected: set<string>, days: int, now: int)
    ensures forall n :: n in Aged(folder, machine, protected, days, now) <==>
      days > 0 && n in Candidates(folder, machine, protected) && Old(folder[n].modified, days, now)
  {
    hide Belongs;
  }

  /** What stays is no older than what the second pass took. */
  lemma StaysNewer(before: Folder, middle: Folder, after: Folder, listing: seq<string>,
                   machine: string, protected: set<string>, days: int, max: int, now: int, a: string, b: string)
    requires Finishes(before, middle, after, listing, machine, protected, days, max, now)
    requires a in Candidates(after, machine, protected) && a !in Doomed(before, listing, machine, protected, days, max, now)
    requires b in before && b !in Aged(before, machine, protected, days, now) && b in Excess(listing, max)
    ensures before[a].modified >= before[b].modified
  {
    hide Belongs, Aged, Excess;
    Spared(before, middle, after, listing, machine, protected, days, max, now);
    ExcessMeans(listing, max);
    ExcessIsOlder(middle, machine, protected, listing, max, a, b);
  }

  lemma ExcessMeans(listing: seq<string>, max: int)
    ensures Excess(listing, max) != {} ==> 0 < max < |listing|
  {
  }

  lemma ExcessIsOlder(folder: Folder, machine: string, protected: set<string>, listing: seq<string>, max: int, a: string, b: string)
    requires Lists(folder, machine, protected, listing) && a in Candidates(folder, machine, protected)
    requires b in Excess(listing, max) && a !in Excess(listing, max)
    ensures b in folder && folder[a].modified >= folder[b].modified
  {
    hide Candidates;
    var i :| 0 <= i < |listing| && listing[i] == a;
    var j :| 0 <= j < |listing| - max && listing[max..][j] == b;
    assert listing[max + j] == b;
    assert forall q | max <= q < |listing| :: listing[q] == listing[max..][q - max];
  }

  /** A prune that reached its end left a newest-first prefix exactly if nothing it set out to remove is left. */
  lemma PrunedExactly(before: Folder, middle: Folder, after: Folder, listing: seq<string>,
                      machine: string, protected: set<string>, days: int, max: int, now: int)
    requires Finishes(before, middle, after, listing, machine, protected, days, max, now)
    ensures Pruned(before, after, machine, protected, days, max, now)
      <==> Doomed(before, listing, machine, protected, days, max, now) !! after.Keys
  {
    hide Finishes, Pruned, Doomed;
    var doomed := Doomed(before, listing, machine, protected, days, max, now);
    if doomed !! after.Keys {
      NothingLeft(before, middle, after, listing, machine, protected, days, max, now);
    } else {
      var x :| x in doomed && x in after.Keys;
      SomethingLeft(before, middle, after, listing, machine, protected, days, max, now, x);
    }
  }

  /** A prune that stopped before its second pass left one exactly if nothing aged is left and not too much. */
  lemma StoppedExactly(before: Folder, after: Folder, machine: string, protected: set<string>, days: int, max: int, now: int)
    requires Pass(before, after, Aged(before, machine, protected, days, now))
    ensures Pruned(before, after, machine, protected, days, max, now)
      <==> Aged(before, machine, protected, days, now) !! after.Keys && (max > 0 ==> |Candidates(after, machine, protected)| <= max)
  {
    hide *;
    PassOfNothing(after, Excess([], 0));
    ExcessMeans([], 0);
    FinishesWithoutMax(before, after, machine, protected, days, now);
    PrunedExactly(before, after, after, [], machine, protected, days, 0, now);
    DoomedIs(before, [], machine, protected, days, 0, now);
    WithoutMax(before, after, machine, protected, days, max, now);
  }

  lemma PassOfNothing(folder: Folder, out: set<string>)
    ensures Pass(folder, folder, out)
  {
  }

  lemma FinishesWithoutMax(before: Folder, after: Folder, machine: string, protected: set<string>, days: int, now: int)
    requires Pass(before, after, Aged(before, machine, protected, days, now)) && Pass(after, after, Excess([], 0))
    ensures Finishes(before, after, after, [], machine, protected, days, 0, now)
  {
    hide Pass, Aged, Excess;
  }

  lemma WithoutMax(before: Folder, after: Folder, machine: string, protected: set<string>, days: int, max: int, now: int)
    requires Pass(before, after, Aged(before, machine, protected, days, now))
    ensures Pruned(before, after, machine, protected, days, max, now)
      <==> Pruned(before, after, machine, protected, days, 0, now) && (max > 0 ==> |Candidates(after, machine, protected)| <= max)
  {
    hide Belongs;
    assert forall r | r in Candidates(before, machine, protected) && r !in after ::
      days > 0 && Old(before[r].modified, days, now);
    assert forall r | r in Candidates(before, machine, protected) && r in after && after[r] == before[r] ::
      r in Candidates(after, machine, protected);
  }

  /**
   The failing case, for any machine and any two snapshot folders of its: the aged one cannot be
   removed, stays with a new modification time, ranks newest in the second pass, and the young one
   goes in its place.
   */
  lemma OneFailurePushesOut(machine: string, x: string, y: string, made: int, later: int, touched: int, days: int, now: int)
    requires Stamp(x) && Stamp(y) && x != y && days > 0 && Old(made, days, now) && !Old(later, days, now) && later < touched
    ensures var aged, young := machine + x, machine + y;
      var before := map[aged := Entry(made, Directory), young := Entry(later, Directory)];
      var middle := map[aged := Entry(touched, Directory), young := Entry(later, Directory)];
      var after := map[aged := Entry(touched, Directory)];
      && Finishes(before, middle, after, [aged, young], machine, {}, days, 1, now)
      && !Pruned(before, after, machine, {}, days, 1, now)
      && Doomed(before, [aged, young], machine, {}, days, 1, now) * after.Keys == {aged}
  {
    hide Belongs, Stamp, EndsInZip, Pruned;
    var aged, young := machine + x, machine + y;
    SnapshotFolder(machine, x);
    SnapshotFolder(machine, y);
    assert aged != young by { assert aged[|machine|..] == x && young[|machine|..] == y; }
    var before := map[aged := Entry(made, Directory), young := Entry(later, Directory)];
    var middle := map[aged := Entry(touched, Directory), young := Entry(later, Directory)];
    var after := map[aged := Entry(touched, Directory)];
    assert Aged(before, machine, {}, days, now) == {aged};
    assert [aged, young][1..] == [young];
    assert Excess([aged, young], 1) == {young};
    assert Candidates(middle, machine, {}) == {aged, young};
    assert Lists(middle, machine, {}, [aged, young]);
    SomethingLeft(before, middle, after, [aged, young], machine, {}, days, 1, now, aged);
  }

  lemma SnapshotFolder(machine: string, stamp: string)
    requires Stamp(stamp)
    ensures Belongs(machine + stamp, machine) && !EndsInZip(machine + stamp)
  {
    Tail(machine + stamp, machine, stamp);
    assert stamp[18..][11] in stamp[18..];
    assert (machine + stamp)[|machine| + 29] == stamp[18..][11] && ZIP[3] == 'p';
  }

  method BelongsTo(name: string, machine: string) returns (r: bool)
    ensures r <==> Belongs(name, machine)
  {
    var n, m := |name|, |machine|;
    r := machine <= name && ((n == m + 30 && Stamp(name[m..])) || (n == m + 34 && Stamp(name[m..m + 30]) && name[m + 30..] == ZIP));
    if r {
      assert name == machine + name[m..];
      if n == m + 34 {
        assert name == machine + name[m..m + 30] + ZIP;
      }
    }
    if Belongs(name, machine) {
      var stamp :| Stamp(stamp) && (name == machine + stamp || name == machine + stamp + ZIP);
      assert stamp == name[m..m + 30];
    }
  }

  /** The first `k` of a list without repetitions are `k` names, none of them among the rest. */
  lemma Prefix(names: seq<string>, k: nat)
    requires k <= |names|
    requires forall i, j | 0 <= i < j < |names| :: names[i] != names[j]
    ensures (set n | n in names && n !in names[k..]) == (set n | n in names[..k])
    ensures |set n | n in names[..k]| == k
  {
    assert names == names[..k] + names[k..];
    Count(names[..k]);
  }

  lemma {:induction false} Count(names: seq<string>)
    requires forall i, j | 0 <= i < j < |names| :: names[i] != names[j]
    ensures |set n | n in names| == |names|
  {
    if names != [] {
      Count(names[1..]);
      assert (set n | n in names) == {names[0]} + (set n | n in names[1..]);
    }
  }

  // ------------------------------------------------------------------ many machines, one folder

  /** What a journal says that retention reads. */
  datatype Record = Record(machine: string, snapshot: string, state: E.Journal)

  /** What a machine does under its lock. */
  datatype Work = Idle | Writing(id: int) | Pruning(protected: set<string>)

  /** `works` has the machines; one that is absent is idle. */
  datatype State = State(names: set<string>, journals: map<int, Record>, works: map<string, Work>)

  datatype Step =
    | Begin(machine: string, id: int, snapshot: string)     // lock taken, journal opened
    | BackUp(machine: string)                               // the snapshot is written
    | Move(id: int, to: E.Journal)                          // a transition, by its run or by a recovery
    | StartPrune(machine: string, protected: set<string>)   // the journals are read
    | Drop(machine: string, name: string)                   // an unprotected snapshot goes, whichever listing found it
    | Leave(machine: string)                                // done, failed, or the power went
    | Foreign(name: string)                                 // anything else appears in the folder

  predicate Unfinished(r: Record) { r.state != E.Committed && r.state != E.Failed }

  /** At or past BACKED_UP and not finished: the record a rollback would need. */
  predicate NeedsSnapshot(r: Record) { r.state == E.BackedUp || r.state == E.Committing || r.state == E.RecoveryRequired }

  function WorkOf(s: State, machine: string): Work { if machine in s.works then s.works[machine] else Idle }

  ghost predicate Legal(s: State, step: Step) {
    match step
    case Begin(m, id, snapshot) => WorkOf(s, m) == Idle && id !in s.journals && Belongs(snapshot, m)
    case BackUp(m) => WorkOf(s, m).Writing? && WorkOf(s, m).id in s.journals
    case Move(id, to) =>
      id in s.journals && E.Edge(s.journals[id].state, to) && (to == E.BackedUp ==> s.journals[id].snapshot in s.names)
    case StartPrune(m, protected) =>
      !WorkOf(s, m).Pruning?
      && forall id | id in s.journals && s.journals[id].machine == m && Unfinished(s.journals[id]) :: s.journals[id].snapshot in protected
    case Drop(m, name) => WorkOf(s, m).Pruning? && name !in WorkOf(s, m).protected && Belongs(name, m)
    case Leave(m) => true
    case Foreign(_) => true
  }

  ghost function Next(s: State, step: Step): State
    requires Legal(s, step)
  {
    match step
    case Begin(m, id, snapshot) =>
      s.(journals := s.journals[id := Record(m, snapshot, E.Prepared)], works := s.works[m := Writing(id)])
    case BackUp(m) => s.(names := s.names + {s.journals[WorkOf(s, m).id].snapshot})
    case Move(id, to) => s.(journals := s.journals[id := s.journals[id].(state := to)])
    case StartPrune(m, protected) => s.(works := s.works[m := Pruning(protected)])
    case Drop(m, name) => s.(names := s.names - {name})
    case Leave(m) => s.(works := s.works[m := Idle])
    case Foreign(name) => s.(names := s.names + {name})
  }

  /** Rollback material is there for every journal that may need it. */
  predicate Rollbackable(s: State) {
    forall id | id in s.journals && NeedsSnapshot(s.journals[id]) :: s.journals[id].snapshot in s.names
  }

  ghost predicate Sound(s: State) {
    && Rollbackable(s)
    && (forall id | id in s.journals :: s.journals[id].state != E.Absent && Belongs(s.journals[id].snapshot, s.journals[id].machine))
    && forall m, id | WorkOf(s, m).Pruning? && id in s.journals && s.journals[id].machine == m && Unfinished(s.journals[id]) ::
         s.journals[id].snapshot in WorkOf(s, m).protected
  }

  ghost predicate Run(s: State, steps: seq<Step>)
    decreases |steps|
  {
    steps == [] || (Legal(s, steps[0]) && Run(Next(s, steps[0]), steps[1..]))
  }

  ghost function After(s: State, steps: seq<Step>): State
    requires Run(s, steps)
    decreases |steps|
  {
    if steps == [] then s else After(Next(s, steps[0]), steps[1..])
  }

  lemma StepSound(s: State, step: Step)
    requires Sound(s) && Legal(s, step)
    ensures Sound(Next(s, step))
  {
    hide Belongs;
    var t := Next(s, step);
    match step
    case Begin(m, _, _) => assert forall o | o != m :: WorkOf(t, o) == WorkOf(s, o);
    case StartPrune(m, _) => assert forall o | o != m :: WorkOf(t, o) == WorkOf(s, o);
    case Move(id, _) =>
      assert forall o :: WorkOf(t, o) == WorkOf(s, o);
      assert Unfinished(t.journals[id]) ==> Unfinished(s.journals[id]);
    case BackUp(_) => assert forall o :: WorkOf(t, o) == WorkOf(s, o);
    case Drop(m, name) =>
      assert forall o :: WorkOf(t, o) == WorkOf(s, o);
      forall id | id in s.journals && NeedsSnapshot(s.journals[id])
        ensures s.journals[id].snapshot != name
      {
        if s.journals[id].snapshot == name { OwnerUnique(name, m, s.journals[id].machine); }
      }
    case Leave(_) => assert forall o | WorkOf(t, o).Pruning? :: WorkOf(t, o) == WorkOf(s, o);
    case Foreign(_) => assert forall o :: WorkOf(t, o) == WorkOf(s, o);
  }

  /**
   Over any interleaving of envelopes, recoveries and prunes by any number of machines, power
   losses included, every unfinished journal at or past BACKED_UP still has its snapshot.
   */
  lemma {:induction false} RollbackMaterialSurvives(s: State, steps: seq<Step>)
    requires Sound(s) && Run(s, steps)
    ensures Sound(After(s, steps)) && Rollbackable(After(s, steps))
    decreases |steps|
  {
    if steps != [] {
      StepSound(s, steps[0]);
      RollbackMaterialSurvives(Next(s, steps[0]), steps[1..]);
    }
  }

  lemma StartIsSound(names: set<string>)
    ensures Sound(State(names, map[], map[]))
  {
  }

  /** However a prune of the folder ends, the protocol can make the same change step by step. */
  lemma PruneIsSteps(s: State, before: Folder, after: Folder, machine: string, protected: set<string>)
    requires s.names == before.Keys && OnlyCandidatesTouched(before, after, machine, protected)
    requires Legal(s, StartPrune(machine, protected))
    ensures exists steps: seq<Step> ::
      && Run(Next(s, StartPrune(machine, protected)), steps)
      && After(Next(s, StartPrune(machine, protected)), steps).names == after.Keys
      && After(Next(s, StartPrune(machine, protected)), steps).journals == s.journals
  {
    var t := Next(s, StartPrune(machine, protected));
    var gone := before.Keys - after.Keys;
    assert forall n | n in gone :: Candidate(before, machine, protected, n);
    assert WorkOf(t, machine) == Pruning(protected);
    assert forall n | n in gone :: n !in protected && Belongs(n, machine);
    var steps := DropAll(t, machine, gone);
    assert t.names - gone == after.Keys;
  }

  lemma {:induction false} DropAll(s: State, machine: string, gone: set<string>) returns (steps: seq<Step>)
    requires WorkOf(s, machine).Pruning? && forall n | n in gone :: n !in WorkOf(s, machine).protected && Belongs(n, machine)
    ensures Run(s, steps) && After(s, steps).names == s.names - gone && After(s, steps).journals == s.journals
    decreases |gone|
  {
    if gone == {} {
      steps := [];
    } else {
      var n :| n in gone;
      var t := Next(s, Drop(machine, n));
      var rest := DropAll(t, machine, gone - {n});
      steps := [Drop(machine, n)] + rest;
      assert steps[1..] == rest;
      assert t.names - (gone - {n}) == s.names - gone;
    }
  }
}
