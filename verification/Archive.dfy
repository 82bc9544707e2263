/**
 Archive moves seen from the thread catalogue: which rows are pointed at which file once a chat's
 file lies elsewhere, and that doing so is a fixed point. The file system is the set of its files
 below the state root, unchanged from plan to plan.
 */
module Archive {
  import opened Wrappers
  import opened ArchivePaths
  import C = Catalogue
  import opened Texts

  const ACTIVE := "sessions"
  const ARCHIVED := "archived_sessions"

  /**
   `held` is `held_in_any_container`: the path exists, or a file of the same name in another
   container does. `mtime` is a modification time in whole seconds.
   */
  datatype World = World(windows: bool, root: Path, files: set<Path>, held: Path -> bool, mtime: Path -> int)

  predicate Valid(w: World) {
    && w.root != []
    && forall f | f in w.files :: AllPlain(f) && Writable(f, w.windows) && w.held(f)
  }

  predicate IsFile(w: World, path: Path) { Norm(path) in w.files }

  function DashAt(name: string, i: nat): nat
    requires i <= |name|
    ensures i <= DashAt(name, i) <= |name|
    ensures DashAt(name, i) < |name| ==> name[DashAt(name, i)] == '-'
    decreases |name| - i
  {
    if i == |name| || name[i] == '-' then i else DashAt(name, i + 1)
  }

  /** What follows the first dash of a file name, where its date should stand. */
  function Stamp(name: string): string {
    var d := DashAt(name, 0);
    if d == |name| then "" else name[d + 1..]
  }

  predicate HasDate(name: string) { |Stamp(name)| >= 10 }

  /** The dated folder's path for a name, whatever characters stand where the date should. */
  function Dated(name: string): Path
    requires HasDate(name)
  {
    [ACTIVE, Stamp(name)[..4], Stamp(name)[5..7], Stamp(name)[8..10], name]
  }

  function NameOf(rel: Path): string
    requires rel != []
  {
    rel[|rel| - 1]
  }

  predicate InDatedFolder(w: World, name: string) { HasDate(name) && IsFile(w, Dated(name)) }

  /** The files considered for a row whose own is gone. */
  function Found(w: World, rel: Path): set<Path>
    requires rel != []
  {
    var name := NameOf(rel);
    if rel[0] == ACTIVE then (if IsFile(w, [ARCHIVED, name]) then {[ARCHIVED, name]} else {})
    else if rel[0] == ARCHIVED then
      if InDatedFolder(w, name) then {Dated(name)}
      else set p | p in w.files && |p| >= 2 && p[0] == ACTIVE && NameOf(p) == name
    else {}
  }

  /** The row's file is gone from where the row says, and its name carries the thread id. */
  predicate Gone(w: World, id: string, stored: string) {
    match Relative(stored, w.root, w.windows)
    case None => false
    case Some(rel) => !w.held(rel) && rel != [] && Contains(NameOf(rel), id)
  }

  function RelativeOf(w: World, rows: C.Rows, id: string): Path
    requires id in rows && Gone(w, id, rows[id].path)
  {
    Relative(rows[id].path, w.root, w.windows).value
  }

  /** The paths that rows name. */
  function Named(w: World, rows: C.Rows): set<Path> {
    set id | id in rows && Relative(rows[id].path, w.root, w.windows).Some? :: Relative(rows[id].path, w.root, w.windows).value
  }

  /** The row is pointed at `p`: the only file found, one no row names, and writable in the row's form. */
  predicate Moves(w: World, rows: C.Rows, id: string, p: Path) {
    && id in rows && Gone(w, id, rows[id].path)
    && Found(w, RelativeOf(w, rows, id)) == {p} && p !in Named(w, rows)
    && StoredLike(rows[id].path, RelativeOf(w, rows, id), p).Some?
  }

  function ChangeFor(w: World, rows: C.Rows, id: string, p: Path): C.Change
    requires Moves(w, rows, id, p)
  {
    var row, rel := rows[id], RelativeOf(w, rows, id);
    var archives := rel[0] == ACTIVE;
    C.Follow(id, row.path, row.archived, StoredLike(row.path, rel, p).value,
             if archives then 1 else 0, if archives then Some(w.mtime(p)) else None)
  }

  /** Gone, with a file somewhere, but not followed: what the plan counts. */
  ghost predicate Unresolved(w: World, rows: C.Rows, id: string) {
    && id in rows && Gone(w, id, rows[id].path) && Found(w, RelativeOf(w, rows, id)) != {}
    && forall p :: !Moves(w, rows, id, p)
  }

  /** Exactly the changes for the rows that move, each once. */
  ghost predicate IsPlan(w: World, rows: C.Rows, changes: seq<C.Change>) { PlanFor(w, rows, rows.Keys, changes) }

  ghost predicate PlanFor(w: World, rows: C.Rows, ids: set<string>, changes: seq<C.Change>) {
    && C.DistinctIds(changes)
    && (forall k | 0 <= k < |changes| :: changes[k].id in ids
          && exists p :: Moves(w, rows, changes[k].id, p) && changes[k] == ChangeFor(w, rows, changes[k].id, p))
    && (forall id, p | id in ids && Moves(w, rows, id, p) :: C.Targets(changes, id))
  }

  ghost function UnresolvedIn(w: World, rows: C.Rows, ids: set<string>): set<string> {
    set id | id in ids && Unresolved(w, rows, id)
  }

  // ------------------------------------------------------------------ the plan

  datatype Outcome = Leave | Unfollowed | Follow(c: C.Change)

  ghost predicate Says(w: World, rows: C.Rows, id: string, o: Outcome) {
    && (Unresolved(w, rows, id) <==> o == Unfollowed)
    && match o
       case Follow(c) => exists p :: Moves(w, rows, id, p) && c == ChangeFor(w, rows, id, p)
       case _ => forall p :: !Moves(w, rows, id, p)
  }

  /** The body of the loop of `build_archive_plan`. */
  method Classify(w: World, rows: C.Rows, named: set<Path>, id: string) returns (o: Outcome)
    requires id in rows && named == Named(w, rows)
    ensures Says(w, rows, id, o)
  {
    hide Relative, StoredLike, Named, Contains, InDatedFolder, Dated;
    var stored := rows[id].path;
    var relative := Relative(stored, w.root, w.windows);
    if relative == None || w.held(relative.value) { return Leave; }
    var rel := relative.value;
    if rel == [] || !Contains(NameOf(rel), id) { return Leave; }
    var found := Found(w, rel);
    if found == {} { return Leave; }
    var one :| one in found;
    if found != {one} || one in named { return Unfollowed; }
    var pathAfter := StoredLike(stored, rel, one);
    if pathAfter == None { return Unfollowed; }
    assert Moves(w, rows, id, one);
    o := Follow(ChangeFor(w, rows, id, one));
  }

  /** `build_archive_plan` for a readable catalogue. */
  method BuildArchivePlan(w: World, rows: C.Rows) returns (changes: seq<C.Change>, unresolved: nat)
    ensures IsPlan(w, rows, changes)
    ensures unresolved == |UnresolvedIn(w, rows, rows.Keys)|
  {
    hide PlanFor, UnresolvedIn, Says;
    var named := Named(w, rows);
    changes, unresolved := [], 0;
    var rest := rows.Keys;
    NothingPlanned(w, rows);
    assert rows.Keys - rest == {};
    while rest != {}
      invariant rest <= rows.Keys
      invariant PlanFor(w, rows, rows.Keys - rest, changes)
      invariant unresolved == |UnresolvedIn(w, rows, rows.Keys - rest)|
    {
      var id :| id in rest;
      ghost var done := rows.Keys - rest;
      rest := rest - {id};
      var o := Classify(w, rows, named, id);
      OneMore(w, rows, done, id, o, changes);
      assert rows.Keys - rest == done + {id};
      match o {
        case Leave =>
        case Unfollowed => unresolved := unresolved + 1;
        case Follow(c) => changes := changes + [c];
      }
    }
    assert rows.Keys - {} == rows.Keys;
  }

  lemma NothingPlanned(w: World, rows: C.Rows)
    ensures PlanFor(w, rows, {}, []) && UnresolvedIn(w, rows, {}) == {}
  {
  }

  lemma OneMore(w: World, rows: C.Rows, done: set<string>, id: string, o: Outcome, changes: seq<C.Change>)
    requires PlanFor(w, rows, done, changes) && Says(w, rows, id, o) && id !in done
    ensures PlanFor(w, rows, done + {id}, if o.Follow? then changes + [o.c] else changes)
    ensures |UnresolvedIn(w, rows, done + {id})| == |UnresolvedIn(w, rows, done)| + if o == Unfollowed then 1 else 0
  {
    hide PlanFor, Unresolved, Moves;
    assert UnresolvedIn(w, rows, done + {id}) == UnresolvedIn(w, rows, done) + if o == Unfollowed then {id} else {};
    if o.Follow? {
      OneMoreChange(w, rows, done, id, o.c, changes);
    } else {
      NoMoreChange(w, rows, done, id, changes);
    }
  }

  lemma NoMoreChange(w: World, rows: C.Rows, done: set<string>, id: string, changes: seq<C.Change>)
    requires PlanFor(w, rows, done, changes) && forall p :: !Moves(w, rows, id, p)
    ensures PlanFor(w, rows, done + {id}, changes)
  {
    hide Moves, C.Targets;
  }

  lemma OneMoreChange(w: World, rows: C.Rows, done: set<string>, id: string, c: C.Change, changes: seq<C.Change>)
    requires PlanFor(w, rows, done, changes) && id !in done
    requires exists p :: Moves(w, rows, id, p) && c == ChangeFor(w, rows, id, p)
    ensures PlanFor(w, rows, done + {id}, changes + [c])
  {
    hide Moves, ChangeFor, C.Targets;
    ChangeForIs(w, rows, id);
    C.TargetsMore(changes, c);
    var p :| Moves(w, rows, id, p) && c == ChangeFor(w, rows, id, p);
    assert c.id == id;
    var all, now := changes + [c], done + {id};
    assert C.DistinctIds(all);
    forall k | 0 <= k < |all|
      ensures all[k].id in now && exists q :: Moves(w, rows, all[k].id, q) && all[k] == ChangeFor(w, rows, all[k].id, q)
    {
      assert all[k] == if k < |changes| then changes[k] else c;
    }
    forall i, q | i in now && Moves(w, rows, i, q)
      ensures C.Targets(all, i)
    {
      assert i in done ==> C.Targets(changes, i);
    }
    assert PlanFor(w, rows, now, all);
  }

  lemma ChangeForIs(w: World, rows: C.Rows, id: string)
    ensures forall p | Moves(w, rows, id, p) :: ChangeFor(w, rows, id, p).id == id && ChangeFor(w, rows, id, p).Follow?
    ensures forall p, q | Moves(w, rows, id, p) && Moves(w, rows, id, q) :: p == q
  {
    forall p, q | Moves(w, rows, id, p) && Moves(w, rows, id, q)
      ensures p == q
    {
      assert p in {p} && {p} == {q};
    }
  }

  // ------------------------------------------------------------------ where a found path leads

  /** The two characters for the month and for the day both climb a folder. */
  predicate Climbs(name: string) { HasDate(name) && Stamp(name)[5..7] == ".." && Stamp(name)[8..10] == ".." }

  /** The dated path of a name, followed lexically. */
  function DatedTarget(name: string): Path
    requires HasDate(name)
  {
    var year, month, day := Stamp(name)[..4], Stamp(name)[5..7], Stamp(name)[8..10];
    if month == ".." && day == ".." then [name]
    else if month == ".." then [ACTIVE, day, name]
    else if day == ".." then [ACTIVE, year, name]
    else [ACTIVE, year, month, day, name]
  }

  lemma DatedResolves(base: Path, name: string)
    requires AllPlain(base) && HasDate(name) && Plain(name)
    ensures Norm(base + Dated(name)) == base + DatedTarget(name)
  {
    hide Norm, Stamp;
    var year, month, day := Stamp(name)[..4], Stamp(name)[5..7], Stamp(name)[8..10];
    NormPlain(base);
    NormPush(base, [ACTIVE, year]);
    var b2 := base + [ACTIVE, year];
    NormStep(b2, month);
    NormStep(b2 + [month], day);
    NormStep(b2 + [month] + [day], name);
    assert base + Dated(name) == b2 + [month] + [day] + [name];
    FourPieces(base, year, month, day, name);
  }

  lemma FourPieces(base: Path, year: string, month: string, day: string, name: string)
    requires Plain(name) && |month| == 2 && |day| == 2
    ensures Step(Step(Step(base + [ACTIVE, year], month), day), name) ==
      if month == ".." && day == ".." then base + [name]
      else if month == ".." then base + [ACTIVE, day, name]
      else if day == ".." then base + [ACTIVE, year, name]
      else base + [ACTIVE, year, month, day, name]
  {
    var b2 := base + [ACTIVE, year];
    assert b2[..|b2| - 1] == base + [ACTIVE];
    assert (base + [ACTIVE])[..|base|] == base;
    assert (b2 + [month])[..|b2|] == b2;
  }

  /** A found path resolves below the state root to a file, in `sessions/` unless the name climbs out. */
  lemma FoundLeads(w: World, rel: Path, p: Path)
    requires Valid(w) && rel != [] && AllPlain(rel) && Writable(rel, w.windows) && p in Found(w, rel) && AllPlain(w.root)
    ensures Writable(p, w.windows) && Norm(p) in w.files && Norm(w.root + p) == w.root + Norm(p)
    ensures rel[0] == ACTIVE ==> Norm(p) == [ARCHIVED, NameOf(rel)]
    ensures rel[0] == ARCHIVED ==>
      (Norm(p)[..1] == [ACTIVE] <==> !(Climbs(NameOf(rel)) && [NameOf(rel)] in w.files))
  {
    hide Norm;
    var name := NameOf(rel);
    assert Plain(name) && SepFree(name, w.windows);
    if rel[0] == ACTIVE {
      PlainPath(w.root, p);
      PlainPath([], p);
    } else if InDatedFolder(w, name) {
      DatedResolves(w.root, name);
      DatedResolves([], name);
      assert [] + p == p && [] + DatedTarget(name) == DatedTarget(name);
      StampIn(name);
      assert forall c | c in ACTIVE :: c != '/' && c != '\\';
      forall k | 0 <= k < |p|
        ensures p[k] != "" && SepFree(p[k], w.windows)
      {
      }
      assert DatedTarget(name)[..1] == [DatedTarget(name)[0]];
      HasDash(name);
    } else {
      PlainPath(w.root, p);
      PlainPath([], p);
      if Climbs(name) {
        DatedResolves([], name);
        assert [] + Dated(name) == Dated(name) && [] + [name] == [name];
      }
      assert p[..1] == [p[0]];
    }
  }

  lemma PlainPath(base: Path, p: Path)
    requires AllPlain(base) && AllPlain(p)
    ensures Norm(base + p) == base + p && Norm(p) == p
  {
    NormPush(base, p);
    NormPlain(base);
    NormPlain(p);
  }

  /** Every part of the date is a part of the name. */
  lemma StampIn(name: string)
    ensures forall c | c in Stamp(name) :: c in name
    ensures HasDate(name) ==> forall k | 0 <= k < 5 :: forall c | c in Dated(name)[k] :: c in name || c in ACTIVE
  {
    var d := DashAt(name, 0);
    if d < |name| {
      assert name == name[..d + 1] + name[d + 1..];
    }
    if HasDate(name) {
      var s := Stamp(name);
      assert s == s[..4] + s[4..] && s == s[..5] + s[5..7] + s[7..] && s == s[..8] + s[8..10] + s[10..];
    }
  }

  lemma HasDash(name: string)
    requires HasDate(name)
    ensures '-' in name && name != ACTIVE
  {
    assert name[DashAt(name, 0)] == '-';
    assert forall c | c in ACTIVE :: c != '-';
  }

  // ------------------------------------------------------------------ the fixed point

  /** The rows after a plan went through. */
  function Followed(rows: C.Rows, changes: seq<C.Change>): C.Rows { C.ApplyAll(rows, changes).GetOr(rows) }

  lemma PlanGoesThrough(w: World, rows: C.Rows, changes: seq<C.Change>)
    requires IsPlan(w, rows, changes)
    ensures C.ApplyAll(rows, changes).Some?
    ensures Followed(rows, changes).Keys == rows.Keys
    ensures forall id | id in rows && !C.Targets(changes, id) :: Followed(rows, changes)[id] == rows[id]
    ensures forall k | 0 <= k < |changes| :: changes[k].id in rows && changes[k].Follow?
    ensures forall k | 0 <= k < |changes| ::
      Followed(rows, changes)[changes[k].id] == C.Updated(rows[changes[k].id], changes[k])
    ensures forall k | 0 <= k < |changes| ::
      C.Leaves(changes[k], rows[changes[k].id], Followed(rows, changes)[changes[k].id])
  {
    hide Moves, Followed, C.Leaves, C.Expects;
    C.ApplyAllIs(rows, changes);
    C.PlanInColumns(rows, changes);
    C.OthersStay(rows, changes);
    forall k | 0 <= k < |changes|
      ensures changes[k].id in rows && changes[k].Follow? && C.Hits(rows, changes[k])
    {
      var p :| Moves(w, rows, changes[k].id, p) && changes[k] == ChangeFor(w, rows, changes[k].id, p);
      ChangeForIs(w, rows, changes[k].id);
      ChangeHits(w, rows, changes[k].id, p);
    }
    FollowedIs(rows, changes);
  }

  lemma FollowedIs(rows: C.Rows, changes: seq<C.Change>)
    ensures C.ApplyAll(rows, changes).Some? ==> Followed(rows, changes) == C.ApplyAll(rows, changes).value
  {
  }

  lemma ChangeHits(w: World, rows: C.Rows, id: string, p: Path)
    requires Moves(w, rows, id, p)
    ensures C.Hits(rows, ChangeFor(w, rows, id, p))
  {
  }

  /** A thread id is a UUID and so holds a dash, which neither state folder's name does. */
  predicate DashedIds(rows: C.Rows) { forall id | id in rows :: '-' in id }

  lemma DashIn(name: string, id: string)
    requires Contains(name, id) && '-' in id
    ensures '-' in name && name != ACTIVE && name != ARCHIVED
  {
    var i :| 0 <= i <= |name| && Starts(name, i, id);
    var k :| 0 <= k < |id| && id[k] == '-';
    assert name[i + k] == name[i..i + |id|][k];
    assert forall c | c in ACTIVE || c in ARCHIVED :: c != '-';
  }

  lemma LongEnough(w: World, rows: C.Rows, id: string, p: Path)
    requires Moves(w, rows, id, p) && '-' in id
    ensures |RelativeOf(w, rows, id)| >= 2
    ensures RelativeOf(w, rows, id)[0] == ACTIVE || RelativeOf(w, rows, id)[0] == ARCHIVED
  {
    hide Contains, Relative, Named, StoredLike, InDatedFolder, Dated, IsFile;
    var rel := RelativeOf(w, rows, id);
    assert p in {p};
    DashIn(NameOf(rel), id);
  }

  /**
   A changed row keeps its name and title and names an existing file; an archived one carries the
   time of that file, an active one none; the flag it now carries is that of the file's folder, unless the file's name climbs out of `sessions/` where its date should stand and a file
   of that name lies right in the state folder.
   */
  lemma ChangedRowIsRight(w: World, rows: C.Rows, changes: seq<C.Change>, k: nat)
    requires Valid(w) && AllPlain(w.root) && DashedIds(rows) && IsPlan(w, rows, changes) && k < |changes|
    ensures changes[k].id in rows && Gone(w, changes[k].id, rows[changes[k].id].path)
    ensures changes[k].id in Followed(rows, changes)
    ensures var row := Followed(rows, changes)[changes[k].id];
      var name := NameOf(RelativeOf(w, rows, changes[k].id));
      && (row.archived == 0 || row.archived == 1)
      && Relative(row.path, w.root, w.windows).Some?
      && var file := Relative(row.path, w.root, w.windows).value;
      && row.name == rows[changes[k].id].name && row.title == rows[changes[k].id].title
      && file in w.files && w.held(file)
      && row.archivedAt == (if row.archived == 1 then Some(w.mtime(file)) else None)
      && (row.archived == 1 ==> file == [ARCHIVED, name])
      && (row.archived == 0 ==> (file[..1] == [ACTIVE] <==> !(Climbs(name) && [name] in w.files)))
  {
    hide Moves, Followed, Relative, Climbs, Norm;
    PlanGoesThrough(w, rows, changes);
    var id := changes[k].id;
    var p :| Moves(w, rows, id, p) && changes[k] == ChangeFor(w, rows, id, p);
    LongEnough(w, rows, id, p);
    MovedLeads(w, rows, id, p);
    FlagIs(w, rows, id, p);
  }

  lemma FlagIs(w: World, rows: C.Rows, id: string, p: Path)
    requires Moves(w, rows, id, p)
    ensures id in rows && Gone(w, id, rows[id].path)
    ensures var c := ChangeFor(w, rows, id, p);
      && c.Follow? && c.archivedAfter == (if RelativeOf(w, rows, id)[0] == ACTIVE then 1 else 0)
      && c.archivedAtAfter == (if RelativeOf(w, rows, id)[0] == ACTIVE then Some(w.mtime(p)) else None)
      && (RelativeOf(w, rows, id)[0] == ACTIVE ==> p == [ARCHIVED, NameOf(RelativeOf(w, rows, id))])
  {
    assert p in {p};
  }

  /** The row that names `rel`, rewritten to name `p`, resolves to the file `p` leads to. */
  lemma RewrittenLeads(w: World, stored: string, rel: Path, p: Path)
    requires w.root != [] && AllPlain(w.root) && |rel| >= 2 && Relative(stored, w.root, w.windows) == Some(rel)
    ensures Valid(w) && p in Found(w, rel) && StoredLike(stored, rel, p).Some? ==>
      Relative(StoredLike(stored, rel, p).value, w.root, w.windows) == Some(Norm(p))
  {
    hide StoredLike, Norm, Found;
    if Valid(w) && p in Found(w, rel) {
      assert Resolve(stored, w.windows) == w.root + rel;
      ResolvedIsWritable(stored, w.root, rel, w.windows);
      FoundLeads(w, rel, p);
      StoredLikeResolves(stored, w.root, rel, p, w.windows);
    }
  }

  /** The same of a row that moves, with where the file lies. */
  lemma MovedLeads(w: World, rows: C.Rows, id: string, p: Path)
    ensures Valid(w) && AllPlain(w.root) && Moves(w, rows, id, p) && |RelativeOf(w, rows, id)| >= 2 ==>
      var name := NameOf(RelativeOf(w, rows, id));
      && Relative(ChangeFor(w, rows, id, p).pathAfter, w.root, w.windows) == Some(Norm(p))
      && Norm(p) in w.files
      && (RelativeOf(w, rows, id)[0] == ACTIVE ==> Norm(p) == [ARCHIVED, name])
      && (RelativeOf(w, rows, id)[0] == ARCHIVED ==> (Norm(p)[..1] == [ACTIVE] <==> !(Climbs(name) && [name] in w.files)))
  {
    hide StoredLike, Norm, Found, Named, Climbs;
    if Valid(w) && AllPlain(w.root) && Moves(w, rows, id, p) && |RelativeOf(w, rows, id)| >= 2 {
      var stored, rel := rows[id].path, RelativeOf(w, rows, id);
      assert Resolve(stored, w.windows) == w.root + rel;
      ResolvedIsWritable(stored, w.root, rel, w.windows);
      assert p in {p};
      FoundLeads(w, rel, p);
      RewrittenLeads(w, stored, rel, p);
    }
  }

  /** A chat whose file a move took from `sessions/` to the archive is followed there. */
  lemma ArchivedChatIsFollowed(w: World, rows: C.Rows, id: string, rel: Path)
    requires Valid(w) && id in rows && Relative(rows[id].path, w.root, w.windows) == Some(rel)
    requires rel != [] && rel[0] == ACTIVE && !w.held(rel) && Contains(NameOf(rel), id)
    requires var file := [ARCHIVED, NameOf(rel)];
      file in w.files && file !in Named(w, rows) && StoredLike(rows[id].path, rel, file).Some?
    ensures Moves(w, rows, id, [ARCHIVED, NameOf(rel)])
  {
    hide Relative, StoredLike, Named, Contains;
    var file := [ARCHIVED, NameOf(rel)];
    NormPlain(file);
    assert Found(w, rel) == {file};
  }

  /**
   A chat whose file a move took out of the archive to the one place below `sessions/` where a file
   of its name now lies is followed there.
   */
  lemma ReturnedChatIsFollowed(w: World, rows: C.Rows, id: string, rel: Path, file: Path)
    requires Valid(w) && id in rows && Relative(rows[id].path, w.root, w.windows) == Some(rel)
    requires rel != [] && rel[0] == ARCHIVED && !w.held(rel) && Contains(NameOf(rel), id)
    requires var name := NameOf(rel);
      && Plain(name) && !Climbs(name) && |file| >= 2 && file[0] == ACTIVE && NameOf(file) == name && file in w.files
      && forall f | f in w.files && |f| >= 2 && f[0] == ACTIVE && NameOf(f) == name :: f == file
    requires file !in Named(w, rows) && StoredLike(rows[id].path, rel, file).Some?
    ensures exists p :: Moves(w, rows, id, p) && Norm(p) == file
  {
    hide Relative, StoredLike, Named, Contains, Norm, Dated, Climbs;
    var name := NameOf(rel);
    var p: Path := file;
    NormPlain(file);
    if InDatedFolder(w, name) {
      p := Dated(name);
      DatedLeads(w, name);
      NotNamed(w, rows, p);
      assert Found(w, rel) == {p};
    } else {
      assert Found(w, rel) == {file};
    }
    LikeAnother(rows[id].path, rel, file, p);
    assert Moves(w, rows, id, p);
  }

  /** A date that does not climb leads to a file of that name below `sessions/`. */
  lemma DatedLeads(w: World, name: string)
    requires Valid(w) && Plain(name) && InDatedFolder(w, name) && !Climbs(name)
    ensures var f := Norm(Dated(name)); |f| >= 2 && f[0] == ACTIVE && NameOf(f) == name && f in w.files
  {
    hide Norm, Stamp;
    DatedNorm(name);
  }

  /** What rows name is in resolved form. */
  lemma NotNamed(w: World, rows: C.Rows, p: Path)
    requires Norm(p) !in Named(w, rows)
    ensures p !in Named(w, rows)
  {
    hide Norm, Relative;
    forall other | other in rows && Relative(rows[other].path, w.root, w.windows).Some?
      ensures Norm(Relative(rows[other].path, w.root, w.windows).value) == Relative(rows[other].path, w.root, w.windows).value
    {
      ResolvedIsPlain(rows[other].path, w.root, Relative(rows[other].path, w.root, w.windows).value, w.windows);
    }
  }

  lemma LikeAnother(stored: string, before: Path, a: Path, b: Path)
    ensures StoredLike(stored, before, a).Some? <==> StoredLike(stored, before, b).Some?
  {
    hide EndsWith, Join;
  }

  /** A row whose file is where it says is left alone. */
  lemma InPlaceIsUntouched(w: World, rows: C.Rows, changes: seq<C.Change>, id: string)
    requires IsPlan(w, rows, changes) && id in rows
    requires var r := Relative(rows[id].path, w.root, w.windows); r == None || w.held(r.value)
    ensures id in Followed(rows, changes) && Followed(rows, changes)[id] == rows[id]
  {
    hide *;
    PlanGoesThrough(w, rows, changes);
    OnlyGoneMove(w, rows, id);
    assert !C.Targets(changes, id) by { TargetsMove(w, rows, changes, id); }
  }

  lemma OnlyGoneMove(w: World, rows: C.Rows, id: string)
    ensures forall p | Moves(w, rows, id, p) ::
      id in rows && Relative(rows[id].path, w.root, w.windows).Some? && !w.held(Relative(rows[id].path, w.root, w.windows).value)
  {
  }

  lemma TargetsMove(w: World, rows: C.Rows, changes: seq<C.Change>, id: string)
    requires IsPlan(w, rows, changes)
    ensures C.Targets(changes, id) <==> exists p :: Moves(w, rows, id, p)
  {
    hide Moves;
    if exists p :: Moves(w, rows, id, p) {
      var p :| Moves(w, rows, id, p);
      InRows(w, rows, id, p);
    }
  }

  lemma InRows(w: World, rows: C.Rows, id: string, p: Path)
    requires Moves(w, rows, id, p)
    ensures id in rows
  {
  }

  /** After the plan, planning again changes nothing and leaves the same rows unresolved. */
  lemma ReplanIsEmpty(w: World, rows: C.Rows, changes: seq<C.Change>, id: string)
    requires Valid(w) && AllPlain(w.root) && DashedIds(rows) && IsPlan(w, rows, changes)
    ensures forall p :: !Moves(w, Followed(rows, changes), id, p)
    ensures Unresolved(w, Followed(rows, changes), id) <==> Unresolved(w, rows, id)
  {
    var after := Followed(rows, changes);
    PlanGoesThrough(w, rows, changes);
    if C.Targets(changes, id) {
      var k :| 0 <= k < |changes| && changes[k].id == id;
      ChangedRowIsRight(w, rows, changes, k);
      assert exists p :: Moves(w, rows, id, p);
    } else if id in rows && Gone(w, id, rows[id].path) {
      UntouchedStays(w, rows, changes, id);
    }
  }

  lemma UntouchedStays(w: World, rows: C.Rows, changes: seq<C.Change>, id: string)
    requires Valid(w) && IsPlan(w, rows, changes) && id in rows && Gone(w, id, rows[id].path) && !C.Targets(changes, id)
    ensures forall p :: !Moves(w, Followed(rows, changes), id, p)
  {
    var after := Followed(rows, changes);
    PlanGoesThrough(w, rows, changes);
    var rel := RelativeOf(w, rows, id);
    forall p
      ensures !Moves(w, after, id, p)
    {
      assert !Moves(w, rows, id, p);
      if Found(w, rel) == {p} && p in Named(w, rows) {
        NamedStays(w, rows, changes, rel, p);
      }
    }
  }

  /** A found path that some row names is still named afterwards: that row's file is in place. */
  lemma NamedStays(w: World, rows: C.Rows, changes: seq<C.Change>, rel: Path, p: Path)
    requires Valid(w) && IsPlan(w, rows, changes) && rel != [] && p in Found(w, rel) && p in Named(w, rows)
    ensures p in Named(w, Followed(rows, changes))
  {
    var other :| other in rows && Relative(rows[other].path, w.root, w.windows) == Some(p);
    assert Norm(p) == p && p in w.files by {
      ResolvedIsPlain(rows[other].path, w.root, p, w.windows);
      FoundIsFile(w, rel, p);
    }
    InPlaceIsUntouched(w, rows, changes, other);
    PlanGoesThrough(w, rows, changes);
  }

  lemma ResolvedIsPlain(stored: string, root: Path, p: Path, windows: bool)
    requires Relative(stored, root, windows) == Some(p)
    ensures Norm(p) == p
  {
    assert Resolve(stored, windows) == root + p;
    if p != [] {
      ResolvedIsWritable(stored, root, p, windows);
    }
    NormPlain(p);
  }

  lemma FoundIsFile(w: World, rel: Path, p: Path)
    requires Valid(w) && rel != [] && p in Found(w, rel)
    ensures Norm(p) in w.files
  {
    if p in w.files {
      NormPlain(p);
    }
  }

  /**
   Archive following is a fixed point: the plan goes through, planning again finds nothing to do,
   and the same rows stay unresolved.
   */
  lemma FollowingIsAFixedPoint(w: World, rows: C.Rows, changes: seq<C.Change>, again: seq<C.Change>)
    requires Valid(w) && AllPlain(w.root) && DashedIds(rows)
    requires IsPlan(w, rows, changes) && IsPlan(w, Followed(rows, changes), again)
    ensures C.ApplyAll(rows, changes) == Some(Followed(rows, changes))
    ensures again == []
    ensures UnresolvedIn(w, Followed(rows, changes), rows.Keys) == UnresolvedIn(w, rows, rows.Keys)
  {
    hide *;
    PlanGoesThrough(w, rows, changes);
    FollowedIs(rows, changes);
    forall id
      ensures Unresolved(w, Followed(rows, changes), id) <==> Unresolved(w, rows, id)
    {
      ReplanIsEmpty(w, rows, changes, id);
    }
    FirstMoves(w, Followed(rows, changes), again);
    if again != [] {
      ReplanIsEmpty(w, rows, changes, again[0].id);
    }
    SameUnresolved(w, rows, Followed(rows, changes), rows.Keys);
  }

  lemma FirstMoves(w: World, rows: C.Rows, changes: seq<C.Change>)
    requires IsPlan(w, rows, changes)
    ensures changes != [] ==> exists p :: Moves(w, rows, changes[0].id, p)
  {
    hide Moves;
    if changes != [] {
      var p :| Moves(w, rows, changes[0].id, p) && changes[0] == ChangeFor(w, rows, changes[0].id, p);
    }
  }

  lemma SameUnresolved(w: World, rows: C.Rows, after: C.Rows, ids: set<string>)
    requires forall id :: Unresolved(w, after, id) <==> Unresolved(w, rows, id)
    ensures UnresolvedIn(w, after, ids) == UnresolvedIn(w, rows, ids)
  {
    hide Unresolved;
  }

  /**
   The exception is real: an archived row whose file is gone, while a file of its name, which has
   `..` where month and day stand, lies right in the state folder, is pointed at that file and
   flagged active.
   */
  lemma ClimbingName(w: World, rows: C.Rows, id: string, name: string)
    requires Valid(w) && AllPlain(w.root) && DashedIds(rows) && id in rows
    requires Climbs(name) && Plain(name) && Contains(name, id)
    requires Relative(rows[id].path, w.root, w.windows) == Some([ARCHIVED, name]) && !w.held([ARCHIVED, name])
    requires w.files == {[name]}
    requires StoredLike(rows[id].path, [ARCHIVED, name], Dated(name)).Some?
    ensures Moves(w, rows, id, Dated(name))
    ensures Relative(ChangeFor(w, rows, id, Dated(name)).pathAfter, w.root, w.windows) == Some([name])
    ensures ChangeFor(w, rows, id, Dated(name)).archivedAfter == 0
  {
    hide Relative, StoredLike, Norm, Dated, Contains, HasDate, InDatedFolder, Found, Named;
    ClimbingFound(w, name);
    NeverNamed(w, rows, name);
    MovedLeads(w, rows, id, Dated(name));
    DatedNorm(name);
    FlagIs(w, rows, id, Dated(name));
  }

  lemma DatedNorm(name: string)
    requires Plain(name) && HasDate(name)
    ensures Norm(Dated(name)) == DatedTarget(name)
  {
    hide Norm;
    DatedResolves([], name);
    assert [] + Dated(name) == Dated(name) && [] + DatedTarget(name) == DatedTarget(name);
  }

  lemma ClimbingFound(w: World, name: string)
    requires Climbs(name) && Plain(name) && w.files == {[name]}
    ensures HasDate(name) && Found(w, [ARCHIVED, name]) == {Dated(name)}
  {
    hide Norm;
    DatedNorm(name);
  }

  /** A dated path that climbs is not in resolved form, so no row is seen to name it. */
  lemma NeverNamed(w: World, rows: C.Rows, name: string)
    requires Climbs(name) && Plain(name)
    ensures HasDate(name) && Dated(name) !in Named(w, rows)
  {
    hide Norm, Relative;
    DatedNorm(name);
    forall other | other in rows && Relative(rows[other].path, w.root, w.windows).Some?
      ensures Norm(Relative(rows[other].path, w.root, w.windows).value) == Relative(rows[other].path, w.root, w.windows).value
    {
      ResolvedIsPlain(rows[other].path, w.root, Relative(rows[other].path, w.root, w.windows).value, w.windows);
    }
  }

  const CLIMBING := "r-2026-..-..-a-t"

  /** Such a row, in full. */
  lemma ClimbingHappens() returns (w: World, rows: C.Rows, p: Path)
    ensures Valid(w) && AllPlain(w.root) && DashedIds(rows)
    ensures Moves(w, rows, "a-t", p)
    ensures ChangeFor(w, rows, "a-t", p).archivedAfter == 0
    ensures Relative(ChangeFor(w, rows, "a-t", p).pathAfter, w.root, w.windows) == Some([CLIMBING])
  {
    hide *;
    ClimbingShape();
    ClimbingComponents();
    w, rows, p := ClimbingRow("a-t", CLIMBING);
  }

  /** A climbing name makes such a row for its thread. */
  lemma ClimbingRow(id: string, name: string) returns (w: World, rows: C.Rows, p: Path)
    requires '-' in id && Contains(name, id) && Climbs(name)
    requires Component("r") && Component(ARCHIVED) && Component(name)
    ensures Valid(w) && AllPlain(w.root) && DashedIds(rows)
    ensures Moves(w, rows, id, p)
    ensures ChangeFor(w, rows, id, p).archivedAfter == 0
    ensures Relative(ChangeFor(w, rows, id, p).pathAfter, w.root, w.windows) == Some([name])
  {
    hide Join, Climbs, HasDate, Dated, Component, Plain, Valid, AllPlain, Contains;
    HasDateToClimb(name);
    p := Dated(name);
    w := World(false, ["r"], {[name]}, path => path == [name], path => 0);
    rows := map[id := C.Row(None, "", Join(["", "r", ARCHIVED, name], '/'), 1, None)];
    OneFile(w, rows, name);
    hide *;
    StoredBelow("r", ARCHIVED, name, p);
    ClimbingName(w, rows, id, name);
  }

  lemma HasDateToClimb(name: string)
    requires Climbs(name)
    ensures HasDate(name)
  {
  }

  lemma OneFile(w: World, rows: C.Rows, name: string)
    requires !w.windows && w.root == ["r"] && w.files == {[name]} && w.held([name]) && Component("r") && Component(name)
    requires forall id | id in rows :: '-' in id
    ensures Valid(w) && AllPlain(w.root) && DashedIds(rows) && Plain(name)
  {
  }

  lemma ClimbingShape()
    ensures Climbs(CLIMBING) && Contains(CLIMBING, "a-t") && '-' in "a-t"
  {
    var name := CLIMBING;
    assert Starts(name, 13, "a-t");
    assert DashAt(name, 1) == 1;
    assert DashAt(name, 0) == 1;
    assert Stamp(name) == name[2..];
  }

  lemma ClimbingComponents()
    ensures Component("r") && Component(ARCHIVED) && Component(CLIMBING)
  {
  }

  /** A name that is one component on either platform. */
  predicate Component(name: string) { Plain(name) && '\\' !in name && '/' !in name }

  /** The text `/root/folder/name` names that path below the root, and can be rewritten. */
  lemma StoredBelow(root: string, folder: string, name: string, after: Path)
    requires Component(root) && Component(folder) && Component(name)
    ensures var stored := Join(["", root, folder, name], '/');
      && Relative(stored, [root], false) == Some([folder, name])
      && StoredLike(stored, [folder, name], after).Some?
  {
    var stored, pieces := Join(["", root, folder, name], '/'), ["", root, folder, name];
    JoinedText(root, folder, name);
    SplitJoin(pieces, '/', false);
    hide Split, Norm, Join;
    assert WithoutPrefix(stored) == stored by { assert EXTENDED[0] == '\\' && EXTENDED_UNC[0] == '\\'; }
    NormPush([""], pieces[1..]);
    assert pieces == [""] + pieces[1..] && [] + pieces[1..] == pieces[1..];
    assert Norm([""]) == [] by { NormStep([], ""); EmptyNorm(); }
    assert pieces[1..][1..] == [folder, name];
  }

  lemma EmptyNorm()
    ensures Norm([]) == []
  {
  }

  lemma JoinedText(root: string, folder: string, name: string)
    requires Component(root) && Component(folder) && Component(name)
    ensures Join(["", root, folder, name], '/') == "/" + root + "/" + Join([folder, name], '/')
    ensures '\\' !in Join(["", root, folder, name], '/')
  {
    assert Join([""], '/') == "" && Join([folder], '/') == folder;
    hide Join;
    JoinMore([""], root);
    JoinMore(["", root], folder);
    JoinMore(["", root, folder], name);
    JoinMore([folder], name);
    assert [""] + [root] == ["", root] && ["", root] + [folder] == ["", root, folder];
    assert ["", root, folder] + [name] == ["", root, folder, name] && [folder] + [name] == [folder, name];
    assert "" + "/" + root == "/" + root;
    assert "/" + root + "/" + folder + "/" + name == "/" + root + "/" + (folder + "/" + name);
  }

  lemma JoinMore(path: Path, p: string)
    requires path != []
    ensures Join(path + [p], '/') == Join(path, '/') + "/" + p
  {
    assert (path + [p])[..|path|] == path;
  }
}
