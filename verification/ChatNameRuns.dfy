/**
 The protocol that syncs of chat names on any number of machines make: what every run keeps, when
 a machine can write a chat twice, and that the names converge.
 */
module ChatNameRuns {
  import opened ChatNames
  import opened Wrappers
  import C = Catalogue

  // ------------------------------------------------------------------ the protocol

  /**
   One machine: its catalogue, what it last published, what it can read of the others' files, the
   plans it has made and may still apply, and all it ever wrote.
   */
  datatype Site = Site(rows: C.Rows, published: Names, views: map<string, Names>, pending: set<seq<C.Change>>, wrote: seq<C.Change>)

  /** The machines, by name. */
  type State = map<string, Site>

  datatype Step =
    | ListChat(machine: string, id: string, row: C.Row)               // Codex lists a chat, named or not
    | FirstName(machine: string, id: string, name: string)            // a person names a chat that has no name
    | Receive(machine: string, views: map<string, Names>)             // what can be read of the others' files now
    | Plan(machine: string, changes: seq<C.Change>)
    | Apply(machine: string, changes: seq<C.Change>)                  // a plan, however old, that still goes through
    | Publish(machine: string)

  /** `b` says all that `a` says. */
  predicate Grows(a: Names, b: Names) { forall id | id in a :: id in b && b[id] == a[id] }

  /** Every view is an earlier state, or the present one, of that peer's file. */
  predicate ViewsFit(s: State, machine: string, views: map<string, Names>) {
    forall p | p in views :: p != machine && p in s && Grows(views[p], s[p].published)
  }

  ghost predicate Legal(s: State, step: Step) {
    step.machine in s &&
    var site := s[step.machine];
    match step
    case ListChat(_, id, _) => id !in site.rows
    case FirstName(_, id, name) =>
      id in site.rows && IsUnset(site.rows[id].name, site.rows[id].title) && !IsUnset(Some(name), site.rows[id].title)
    case Receive(m, views) => ViewsFit(s, m, views)
    case Plan(_, changes) => IsPlan(site.rows, site.views, changes)
    case Apply(_, changes) => changes in site.pending && C.ApplyAll(site.rows, changes).Some?
    case Publish(_) => true
  }

  function SiteAfter(site: Site, step: Step): Site {
    match step
    case ListChat(_, id, row) => site.(rows := site.rows[id := row])
    case FirstName(_, id, name) =>
      if id in site.rows then site.(rows := site.rows[id := site.rows[id].(name := Some(name))]) else site
    case Receive(_, views) => site.(views := views)
    case Plan(_, changes) => site.(pending := site.pending + {changes})
    case Apply(_, changes) =>
      site.(rows := C.ApplyAll(site.rows, changes).GetOr(site.rows), wrote := site.wrote + changes)
    case Publish(_) => site.(published := Publication(site.rows))
  }

  function Next(s: State, step: Step): State {
    if step.machine in s then s[step.machine := SiteAfter(s[step.machine], step)] else s
  }

  ghost predicate Run(s: State, steps: seq<Step>)
    decreases |steps|
  {
    steps == [] || (Legal(s, steps[0]) && Run(Next(s, steps[0]), steps[1..]))
  }

  function After(s: State, steps: seq<Step>): State
    decreases |steps|
  {
    if steps == [] then s else After(Next(s, steps[0]), steps[1..])
  }

  /** Catalogues are arbitrary; nothing has been published, received or written. */
  predicate Initial(s: State) {
    forall m | m in s :: s[m].published == map[] && s[m].views == map[] && s[m].pending == {} && s[m].wrote == []
  }

  // ------------------------------------------------------------------ what every run keeps

  predicate PublishedHolds(site: Site) {
    forall id | id in site.published :: Shown(site.rows, id) && site.rows[id].name == Some(site.published[id])
  }

  /** Set names stay, titles stay, and chats stay listed. */
  predicate RowsKept(before: C.Rows, after: C.Rows) {
    forall id | id in before ::
      id in after && after[id].title == before[id].title && (Shown(before, id) ==> after[id].name == before[id].name)
  }

  /** Another machine publishes this name for the chat. */
  predicate Backed(s: State, machine: string, id: string, name: string) {
    exists p | p in s :: p != machine && id in s[p].published && s[p].published[id] == name
  }

  predicate AllBacked(s: State, machine: string, changes: seq<C.Change>) {
    forall k | 0 <= k < |changes| :: changes[k].SetName? && Backed(s, machine, changes[k].id, changes[k].name)
  }

  /**
   A name once written makes the chat a named one, unless it is the local title; and a chat is
   written again only after its title was written.
   */
  predicate WroteKept(site: Site) {
    && (forall k | 0 <= k < |site.wrote| :: site.wrote[k].SetName? && site.wrote[k].id in site.rows)
    && (forall k | 0 <= k < |site.wrote| ::
         site.wrote[k].name == site.rows[site.wrote[k].id].title || Shown(site.rows, site.wrote[k].id))
    && (forall j, k | 0 <= j < k < |site.wrote| && site.wrote[j].id == site.wrote[k].id ::
         site.wrote[j].name == site.rows[site.wrote[j].id].title)
  }

  /** A plan sets names only over what counts as no name. */
  predicate PendingKept(site: Site, changes: seq<C.Change>) {
    && C.DistinctIds(changes)
    && forall k | 0 <= k < |changes| ::
      var c := changes[k];
      c.SetName? && c.id in site.rows && c.name != "" && IsUnset(c.current, site.rows[c.id].title)
  }

  predicate SiteSound(site: Site) {
    PublishedHolds(site) && WroteKept(site) && forall changes | changes in site.pending :: PendingKept(site, changes)
  }

  predicate Sound(s: State) {
    forall m | m in s ::
      && SiteSound(s[m]) && ViewsFit(s, m, s[m].views)
      && AllBacked(s, m, s[m].wrote) && forall changes | changes in s[m].pending :: AllBacked(s, m, changes)
  }

  /** What going through means for the rows. */
  lemma Applied(rows: C.Rows, changes: seq<C.Change>)
    requires C.DistinctIds(changes) && C.ApplyAll(rows, changes).Some?
    requires forall k | 0 <= k < |changes| :: changes[k].SetName?
    ensures forall k | 0 <= k < |changes| :: changes[k].id in rows && rows[changes[k].id].name == changes[k].current
    ensures var after := C.ApplyAll(rows, changes).value;
      && after.Keys == rows.Keys
      && (forall id | id in rows && !C.Targets(changes, id) :: after[id] == rows[id])
      && (forall k | 0 <= k < |changes| :: after[changes[k].id] == rows[changes[k].id].(name := Some(changes[k].name)))
  {
    C.OthersStay(rows, changes);
    C.ApplyAllIs(rows, changes);
    forall k | 0 <= k < |changes|
      ensures changes[k].id in rows && rows[changes[k].id].name == changes[k].current
    {
      assert C.Hits(rows, changes[k]);
    }
  }

  lemma KeptWhenFresh(before: C.Rows, after: C.Rows, changes: seq<C.Change>)
    requires after.Keys == before.Keys
    requires forall id | id in before && !C.Targets(changes, id) :: after[id] == before[id]
    requires forall k | 0 <= k < |changes| :: changes[k].SetName? && changes[k].id in before && !Shown(before, changes[k].id)
    requires forall k | 0 <= k < |changes| :: after[changes[k].id] == before[changes[k].id].(name := Some(changes[k].name))
    ensures RowsKept(before, after)
  {
  }

  lemma RowsKeepSound(site: Site, rows: C.Rows)
    requires SiteSound(site) && RowsKept(site.rows, rows)
    ensures SiteSound(site.(rows := rows))
  {
    var after := site.(rows := rows);
    forall changes | changes in site.pending
      ensures PendingKept(after, changes)
    {
      assert PendingKept(site, changes);
    }
  }

  /** What a plan takes is published by another machine, and not empty. */
  lemma PlanBacked(s: State, machine: string, changes: seq<C.Change>)
    requires Sound(s) && machine in s && IsPlan(s[machine].rows, s[machine].views, changes)
    ensures PendingKept(s[machine], changes) && AllBacked(s, machine, changes)
  {
    var site := s[machine];
    forall k | 0 <= k < |changes|
      ensures Backed(s, machine, changes[k].id, changes[k].name) && changes[k].name != ""
    {
      var c := changes[k];
      assert Takes(site.rows, site.views, c.id, c.name);
      var p :| p in site.views && c.id in site.views[p];
      assert p in s && p != machine && c.id in s[p].published && s[p].published[c.id] == c.name;
      assert SiteSound(s[p]);
    }
  }

  /** An old plan goes through only where no name is set. */
  lemma UnsetTargets(site: Site, changes: seq<C.Change>)
    requires SiteSound(site) && changes in site.pending && C.ApplyAll(site.rows, changes).Some?
    ensures forall k | 0 <= k < |changes| :: changes[k].id in site.rows && !Shown(site.rows, changes[k].id)
  {
    assert PendingKept(site, changes);
    Applied(site.rows, changes);
  }

  lemma ApplySound(site: Site, changes: seq<C.Change>)
    requires SiteSound(site) && changes in site.pending && C.ApplyAll(site.rows, changes).Some?
    ensures SiteSound(SiteAfter(site, Apply("", changes)))
    ensures RowsKept(site.rows, SiteAfter(site, Apply("", changes)).rows)
  {
    hide SiteSound, C.ApplyAll;
    var after := SiteAfter(site, Apply("", changes));
    UnsetTargets(site, changes);
    PendingIs(site, changes);
    Applied(site.rows, changes);
    KeptWhenFresh(site.rows, after.rows, changes);
    RowsKeepSound(site, after.rows);
    WroteMore(site, changes, after);
  }

  lemma PendingIs(site: Site, changes: seq<C.Change>)
    requires SiteSound(site) && changes in site.pending
    ensures PendingKept(site, changes) && WroteKept(site)
  {
  }

  lemma WroteMore(site: Site, changes: seq<C.Change>, after: Site)
    requires SiteSound(site) && SiteSound(after.(wrote := site.wrote)) && after.pending == site.pending && PendingKept(site, changes)
    requires RowsKept(site.rows, after.rows) && after.wrote == site.wrote + changes
    requires forall k | 0 <= k < |changes| :: changes[k].id in site.rows && !Shown(site.rows, changes[k].id)
    requires forall k | 0 <= k < |changes| :: changes[k].id in after.rows && after.rows[changes[k].id].name == Some(changes[k].name)
    ensures SiteSound(after)
  {
    hide RowsKept;
    assert forall k | 0 <= k < |after.wrote| ::
      after.wrote[k] == if k < |site.wrote| then site.wrote[k] else changes[k - |site.wrote|];
    TitlesKept(site.rows, after.rows);
    forall j, k | 0 <= j < k < |after.wrote| && after.wrote[j].id == after.wrote[k].id
      ensures after.wrote[j].name == after.rows[after.wrote[j].id].title
    {
      if k >= |site.wrote| && j < |site.wrote| {
        assert !Shown(site.rows, site.wrote[j].id);
      }
    }
    forall other | other in after.pending
      ensures PendingKept(after, other)
    {
      assert PendingKept(after.(wrote := site.wrote), other);
    }
  }

  lemma TitlesKept(before: C.Rows, after: C.Rows)
    requires RowsKept(before, after)
    ensures forall id | id in before :: id in after && after[id].title == before[id].title && (Shown(before, id) ==> Shown(after, id))
  {
  }

  lemma SiteKeeps(s: State, step: Step)
    requires Sound(s) && Legal(s, step)
    ensures SiteSound(SiteAfter(s[step.machine], step))
    ensures RowsKept(s[step.machine].rows, SiteAfter(s[step.machine], step).rows)
    ensures Grows(s[step.machine].published, SiteAfter(s[step.machine], step).published)
  {
    hide IsPlan, C.ApplyAll, PendingKept, WroteKept;
    var site := s[step.machine];
    match step
    case ListChat(_, id, row) => RowsKeepSound(site, site.rows[id := row]);
    case FirstName(_, _, _) => RowsKeepSound(site, SiteAfter(site, step).rows);
    case Receive(_, views) => SameRowsSound(site, site.(views := views));
    case Plan(m, changes) => PlanBacked(s, m, changes); PendingMore(site, changes);
    case Apply(_, changes) => ApplySound(site, changes);
    case Publish(_) => SameRowsSound(site, site.(published := Publication(site.rows)));
  }

  lemma PendingMore(site: Site, changes: seq<C.Change>)
    requires SiteSound(site) && PendingKept(site, changes)
    ensures SiteSound(site.(pending := site.pending + {changes}))
  {
    var after := site.(pending := site.pending + {changes});
    forall other | other in after.pending
      ensures PendingKept(after, other)
    {
      assert PendingKept(site, other);
    }
  }

  lemma SameRowsSound(site: Site, after: Site)
    requires SiteSound(site) && PublishedHolds(after)
    requires after.rows == site.rows && after.pending == site.pending && after.wrote == site.wrote
    ensures SiteSound(after)
  {
    forall changes | changes in after.pending
      ensures PendingKept(after, changes)
    {
      assert PendingKept(site, changes);
    }
  }

  lemma StepSound(s: State, step: Step)
    requires Sound(s) && Legal(s, step)
    ensures Sound(Next(s, step))
    ensures forall m | m in s :: m in Next(s, step) && RowsKept(s[m].rows, Next(s, step)[m].rows)
  {
    hide SiteSound, Shown, RowsKept, IsPlan, C.ApplyAll;
    SiteKeeps(s, step);
    SameRows();
    var t, here := Next(s, step), step.machine;
    forall m | m in s
      ensures Grows(s[m].published, t[m].published) && RowsKept(s[m].rows, t[m].rows)
    {
    }
    BackedGrows(s, t);
    NewBacked(s, step);
    forall m | m in t
      ensures ViewsFit(t, m, t[m].views)
    {
    }
  }

  lemma BackedGrows(s: State, t: State)
    requires s.Keys == t.Keys && forall m | m in s :: Grows(s[m].published, t[m].published)
    ensures forall m, changes | AllBacked(s, m, changes) :: AllBacked(t, m, changes)
  {
    forall m, id, name | Backed(s, m, id, name)
      ensures Backed(t, m, id, name)
    {
      var p :| p in s && p != m && id in s[p].published && s[p].published[id] == name;
      assert id in t[p].published;
    }
  }

  /** What a step adds to plans and writes is published by another machine. */
  lemma NewBacked(s: State, step: Step)
    requires Sound(s) && Legal(s, step)
    ensures var after := SiteAfter(s[step.machine], step);
      AllBacked(s, step.machine, after.wrote) && forall changes | changes in after.pending :: AllBacked(s, step.machine, changes)
  {
    hide SiteSound, IsPlan, C.ApplyAll, Backed;
    match step
    case Plan(m, changes) => PlanBacked(s, m, changes);
    case Apply(m, changes) =>
      var wrote := s[m].wrote;
      assert forall k | 0 <= k < |wrote + changes| :: (wrote + changes)[k] == if k < |wrote| then wrote[k] else changes[k - |wrote|];
    case _ =>
  }

  lemma SameRows()
    ensures forall rows :: RowsKept(rows, rows)
  {
  }

  lemma KeptTwice(a: C.Rows, b: C.Rows, c: C.Rows)
    requires RowsKept(a, b) && RowsKept(b, c)
    ensures RowsKept(a, c)
  {
  }

  /** A set name is never replaced, however the steps interleave and whatever can be read when. */
  lemma {:induction false} SetNamesStay(s: State, steps: seq<Step>)
    requires Sound(s) && Run(s, steps)
    ensures Sound(After(s, steps))
    ensures forall m | m in s :: m in After(s, steps) && RowsKept(s[m].rows, After(s, steps)[m].rows)
    decreases |steps|
  {
    hide RowsKept, SiteAfter, Legal, Sound;
    if steps == [] {
      SameRows();
    } else {
      StepSound(s, steps[0]);
      var t := Next(s, steps[0]);
      SetNamesStay(t, steps[1..]);
      forall m | m in s
        ensures RowsKept(s[m].rows, After(s, steps)[m].rows)
      {
        KeptTwice(s[m].rows, t[m].rows, After(s, steps)[m].rows);
      }
    }
  }

  /**
   In every run a machine writes a chat a second time only where the name it wrote first equals the
   title the chat has on that machine.
   */
  lemma SecondWriteOverTitle(s: State, steps: seq<Step>, machine: string, j: nat, k: nat)
    requires Sound(s) && Run(s, steps) && machine in After(s, steps)
    requires j < k < |After(s, steps)[machine].wrote|
    requires After(s, steps)[machine].wrote[j].id == After(s, steps)[machine].wrote[k].id
    ensures var site := After(s, steps)[machine];
      site.wrote[j].SetName? && site.wrote[j].id in site.rows && site.wrote[j].name == site.rows[site.wrote[j].id].title
  {
    hide Run, After;
    SetNamesStay(s, steps);
    assert SiteSound(After(s, steps)[machine]);
  }

  /** Machines that have exchanged nothing. */
  lemma InitialIsSound(s: State)
    requires Initial(s)
    ensures Sound(s) && Steady(s)
  {
  }

  /** Every name a machine wrote is one that another machine shows for that chat. */
  lemma WrittenIsShownElsewhere(s: State, machine: string, k: nat)
    requires Sound(s) && machine in s && k < |s[machine].wrote|
    ensures s[machine].wrote[k].SetName?
    ensures exists p | p in s && p != machine ::
      Shown(s[p].rows, s[machine].wrote[k].id) && s[p].rows[s[machine].wrote[k].id].name == Some(s[machine].wrote[k].name)
  {
    var w := s[machine].wrote[k];
    var p :| p in s && p != machine && w.id in s[p].published && s[p].published[w.id] == w.name;
    assert SiteSound(s[p]);
  }

  // ------------------------------------------------------------------ while every file stays readable

  predicate Offered(views: map<string, Names>, id: string, name: string) {
    exists p | p in views :: id in views[p] && views[p][id] == name
  }

  /** A name once written is still there, or a person has since named the chat. */
  predicate WroteHolds(site: Site) {
    && C.DistinctIds(site.wrote)
    && forall k | 0 <= k < |site.wrote| ::
      var w := site.wrote[k];
      w.SetName? && w.id in site.rows && Offered(site.views, w.id, w.name)
      && (site.rows[w.id].name == Some(w.name) || Shown(site.rows, w.id))
  }

  /** An old plan goes through only on chats it would still take a name for. */
  predicate PendingHolds(site: Site, changes: seq<C.Change>) {
    && C.DistinctIds(changes)
    && forall k | 0 <= k < |changes| ::
      var c := changes[k];
      && c.SetName? && c.id in site.rows && Offered(site.views, c.id, c.name)
      && IsUnset(c.current, site.rows[c.id].title) && c.current != Some(c.name)
      && (if C.Targets(site.wrote, c.id) then site.rows[c.id].name != c.current
          else site.rows[c.id].name == c.current || Shown(site.rows, c.id))
  }

  predicate SiteSteady(site: Site) {
    PublishedHolds(site) && WroteHolds(site) && forall changes | changes in site.pending :: PendingHolds(site, changes)
  }

  lemma ReceiveKeeps(site: Site, views: map<string, Names>)
    requires SiteSteady(site) && forall p | p in site.views :: p in views && Grows(site.views[p], views[p])
    ensures SiteSteady(site.(views := views))
  {
    forall id, name | Offered(site.views, id, name)
      ensures Offered(views, id, name)
    {
      var p :| p in site.views && id in site.views[p] && site.views[p][id] == name;
      assert p in views && id in views[p];
    }
  }

  /** A new plan names no chat this machine ever wrote: it still has that name, or a person's. */
  lemma PlanKeeps(site: Site, changes: seq<C.Change>)
    requires SiteSteady(site) && IsPlan(site.rows, site.views, changes)
    ensures SiteSteady(site.(pending := site.pending + {changes}))
  {
    forall k | 0 <= k < |changes|
      ensures Offered(site.views, changes[k].id, changes[k].name)
      ensures !C.Targets(site.wrote, changes[k].id)
    {
      var c := changes[k];
      assert Takes(site.rows, site.views, c.id, c.name);
      var p :| p in site.views && c.id in site.views[p];
      assert site.views[p][c.id] == c.name;
      assert forall n | Offered(site.views, c.id, n) :: n == c.name;
      assert forall j | 0 <= j < |site.wrote| :: site.wrote[j].id != c.id;
    }
  }

  /** What goes through was unset and unwritten. */
  lemma FreshTargets(site: Site, changes: seq<C.Change>)
    requires SiteSteady(site) && changes in site.pending && C.ApplyAll(site.rows, changes).Some?
    ensures C.DistinctIds(site.wrote + changes)
    ensures forall k | 0 <= k < |changes| :: changes[k].id in site.rows && !Shown(site.rows, changes[k].id)
  {
    assert PendingHolds(site, changes);
    Applied(site.rows, changes);
    forall j, k | 0 <= j < |site.wrote| && 0 <= k < |changes|
      ensures site.wrote[j].id != changes[k].id
    {
      if site.wrote[j].id == changes[k].id { assert C.Targets(site.wrote, changes[k].id); }
    }
  }

  lemma ApplyKeeps(site: Site, changes: seq<C.Change>)
    requires SiteSteady(site) && changes in site.pending && C.ApplyAll(site.rows, changes).Some?
    ensures SiteSteady(SiteAfter(site, Apply("", changes)))
    ensures RowsKept(site.rows, SiteAfter(site, Apply("", changes)).rows)
  {
    assert PendingHolds(site, changes);
    Applied(site.rows, changes);
    FreshTargets(site, changes);
    var after := SiteAfter(site, Apply("", changes));
    assert RowsKept(site.rows, after.rows) by { KeptWhenFresh(site.rows, after.rows, changes); }
    assert PublishedHolds(after);
    assert WroteHolds(after) by { WroteAfter(site, changes, after); }
    forall other | other in after.pending
      ensures PendingHolds(after, other)
    {
      assert PendingHolds(site, other);
      PendingAfter(site, changes, after, other);
    }
  }

  lemma WroteAfter(site: Site, changes: seq<C.Change>, after: Site)
    requires WroteHolds(site) && PendingHolds(site, changes) && C.DistinctIds(site.wrote + changes)
    requires RowsKept(site.rows, after.rows) && after.views == site.views && after.wrote == site.wrote + changes
    requires forall id | id in site.rows && !C.Targets(changes, id) :: id in after.rows && after.rows[id] == site.rows[id]
    requires forall k | 0 <= k < |changes| :: changes[k].id in after.rows && after.rows[changes[k].id].name == Some(changes[k].name)
    ensures WroteHolds(after)
  {
    hide Offered, RowsKept;
    forall k | 0 <= k < |after.wrote|
      ensures after.wrote[k].SetName? && after.wrote[k].id in after.rows
      ensures Offered(after.views, after.wrote[k].id, after.wrote[k].name)
      ensures after.rows[after.wrote[k].id].name == Some(after.wrote[k].name) || Shown(after.rows, after.wrote[k].id)
    {
      if k < |site.wrote| {
        assert after.wrote[k] == site.wrote[k];
        assert !C.Targets(changes, site.wrote[k].id) by {
          assert forall j | 0 <= j < |changes| :: after.wrote[|site.wrote| + j] == changes[j];
        }
      } else {
        assert after.wrote[k] == changes[k - |site.wrote|];
      }
    }
  }

  lemma PendingAfter(site: Site, changes: seq<C.Change>, after: Site, other: seq<C.Change>)
    requires PendingHolds(site, changes) && PendingHolds(site, other)
    requires after.views == site.views && after.wrote == site.wrote + changes && RowsKept(site.rows, after.rows)
    requires forall k | 0 <= k < |changes| :: !Shown(site.rows, changes[k].id) && site.rows[changes[k].id].name == changes[k].current
    requires forall id | id in site.rows && !C.Targets(changes, id) :: id in after.rows && after.rows[id] == site.rows[id]
    requires forall k | 0 <= k < |changes| :: changes[k].id in after.rows && after.rows[changes[k].id].name == Some(changes[k].name)
    requires C.DistinctIds(site.wrote + changes)
    ensures PendingHolds(after, other)
  {
    hide Offered;
    C.TargetsSum(site.wrote, changes);
    forall k | 0 <= k < |other|
      ensures var c := other[k];
        c.id in after.rows && after.rows[c.id].title == site.rows[c.id].title
        && (if C.Targets(after.wrote, c.id) then after.rows[c.id].name != c.current
            else after.rows[c.id].name == c.current || Shown(after.rows, c.id))
    {
      var c := other[k];
      if C.Targets(changes, c.id) {
        var j :| 0 <= j < |changes| && changes[j].id == c.id;
        assert !C.Targets(site.wrote, c.id) by {
          assert forall i | 0 <= i < |site.wrote| :: (site.wrote + changes)[i] == site.wrote[i];
          assert (site.wrote + changes)[|site.wrote| + j] == changes[j];
        }
        assert c.current == changes[j].current;
      }
    }
  }

  lemma RowsKeepSteady(site: Site, rows: C.Rows)
    requires SiteSteady(site) && RowsKept(site.rows, rows)
    requires forall id | id in site.rows && !Shown(rows, id) :: rows[id] == site.rows[id]
    ensures SiteSteady(site.(rows := rows))
  {
    hide Offered;
    var after := site.(rows := rows);
    forall changes | changes in site.pending
      ensures PendingHolds(after, changes)
    {
      assert PendingHolds(site, changes);
    }
  }

  predicate Steady(s: State) { forall m | m in s :: SiteSteady(s[m]) }

  /** A delivery that takes nothing away: every file read before is read again, and none is older. */
  predicate Growing(s: State, step: Step) {
    step.Receive? && step.machine in s ==>
      forall p | p in s[step.machine].views :: p in step.views && Grows(s[step.machine].views[p], step.views[p])
  }

  predicate GrowingRun(s: State, steps: seq<Step>)
    decreases |steps|
  {
    steps == [] || (Growing(s, steps[0]) && GrowingRun(Next(s, steps[0]), steps[1..]))
  }

  lemma StepSteady(s: State, step: Step)
    requires Steady(s) && Legal(s, step) && Growing(s, step)
    ensures Steady(Next(s, step))
  {
    var site := s[step.machine];
    match step
    case ListChat(_, id, row) => RowsKeepSteady(site, site.rows[id := row]);
    case FirstName(_, _, _) => RowsKeepSteady(site, SiteAfter(site, step).rows);
    case Receive(_, views) => ReceiveKeeps(site, views);
    case Plan(_, changes) => PlanKeeps(site, changes);
    case Apply(_, changes) => ApplyKeeps(site, changes);
    case Publish(_) =>
  }

  /**
   In every run in which no publication is rolled back or becomes unreadable, each machine writes
   each chat at most once, however the steps interleave and however old the plans are.
   */
  lemma {:induction false} AtMostOnce(s: State, steps: seq<Step>)
    requires Steady(s) && Run(s, steps) && GrowingRun(s, steps)
    ensures Steady(After(s, steps))
    ensures forall m | m in After(s, steps) :: C.DistinctIds(After(s, steps)[m].wrote)
    decreases |steps|
  {
    hide SiteAfter, Legal, Steady, Growing;
    if steps != [] {
      StepSteady(s, steps[0]);
      AtMostOnce(Next(s, steps[0]), steps[1..]);
    }
    SteadyWrites(After(s, steps));
  }

  lemma SteadyWrites(s: State)
    requires Steady(s)
    ensures forall m | m in s :: C.DistinctIds(s[m].wrote)
  {
    assert forall m | m in s :: SiteSteady(s[m]);
  }

  // ------------------------------------------------------------------ convergence

  function Files(s: State, machine: string): map<string, Names> {
    map p | p in s && p != machine :: s[p].published
  }

  /** One sync: everything delivered, planned, applied and published. */
  function SyncSteps(s: State, machine: string, changes: seq<C.Change>): seq<Step> {
    [Receive(machine, Files(s, machine)), Plan(machine, changes), Apply(machine, changes), Publish(machine)]
  }

  /** Some machine publishes a name for the chat. */
  predicate Published(s: State, id: string) { exists p | p in s :: id in s[p].published }

  /** Some machine has a name set for the chat, and all that do have this one. */
  predicate Agree(s: State, id: string, name: string) {
    && (exists m | m in s :: Shown(s[m].rows, id))
    && forall m | m in s && Shown(s[m].rows, id) :: s[m].rows[id].name == Some(name)
  }

  function SiteSynced(s: State, machine: string, changes: seq<C.Change>): Site
    requires machine in s
  {
    var rows := C.ApplyAll(s[machine].rows, changes).GetOr(s[machine].rows);
    Site(rows, Publication(rows), Files(s, machine), s[machine].pending + {changes}, s[machine].wrote + changes)
  }

  lemma FirstStep(s: State, steps: seq<Step>)
    requires steps != []
    ensures After(s, steps) == After(Next(s, steps[0]), steps[1..])
    ensures Run(s, steps) <==> Legal(s, steps[0]) && Run(Next(s, steps[0]), steps[1..])
  {
  }

  lemma FourSteps(s: State, a: Step, b: Step, c: Step, d: Step)
    ensures After(s, [a, b, c, d]) == Next(Next(Next(Next(s, a), b), c), d)
    ensures Run(s, [a, b, c, d]) <==>
      Legal(s, a) && Legal(Next(s, a), b) && Legal(Next(Next(s, a), b), c) && Legal(Next(Next(Next(s, a), b), c), d)
  {
    hide Legal, Next;
    FirstStep(s, [a, b, c, d]);
    FirstStep(Next(s, a), [b, c, d]);
    FirstStep(Next(Next(s, a), b), [c, d]);
    FirstStep(Next(Next(Next(s, a), b), c), [d]);
    assert [a, b, c, d][1..] == [b, c, d] && [b, c, d][1..] == [c, d] && [c, d][1..] == [d] && [d][1..] == [];
  }

  lemma SyncIs(s: State, machine: string, changes: seq<C.Change>)
    requires machine in s
    ensures After(s, SyncSteps(s, machine, changes)) == s[machine := SiteSynced(s, machine, changes)]
  {
    hide C.ApplyAll, Publication, Files;
    FourSteps(s, Receive(machine, Files(s, machine)), Plan(machine, changes), Apply(machine, changes), Publish(machine));
  }

  lemma PlanGoesThrough(rows: C.Rows, peers: map<string, Names>, changes: seq<C.Change>)
    requires IsPlan(rows, peers, changes)
    ensures C.ApplyAll(rows, changes).Some?
  {
    C.ApplyAllIs(rows, changes);
    assert forall k | 0 <= k < |changes| :: Takes(rows, peers, changes[k].id, changes[k].name);
  }

  /** A sync from the present files is a run of the protocol. */
  lemma SyncIsRun(s: State, machine: string, changes: seq<C.Change>)
    requires Sound(s) && machine in s && IsPlan(s[machine].rows, Files(s, machine), changes)
    ensures Run(s, SyncSteps(s, machine, changes))
  {
    hide IsPlan, C.ApplyAll, Publication, SiteSound;
    PlanGoesThrough(s[machine].rows, Files(s, machine), changes);
    FourSteps(s, Receive(machine, Files(s, machine)), Plan(machine, changes), Apply(machine, changes), Publish(machine));
  }

  /** What a sync makes of a chat whose set names all agree. */
  lemma SyncTakes(s: State, machine: string, changes: seq<C.Change>, id: string, name: string)
    requires Sound(s) && Agree(s, id, name) && machine in s && IsPlan(s[machine].rows, Files(s, machine), changes)
    ensures var before, rows := s[machine].rows, SiteSynced(s, machine, changes).rows;
      && rows.Keys == before.Keys
      && (id in rows && (Published(s, id) || before[id].name == Some(name)) ==> rows[id].name == Some(name))
      && (id in rows && !Published(s, id) ==> rows[id] == before[id])
      && (id in rows ==> rows[id].title == before[id].title && (rows[id].name == before[id].name || rows[id].name == Some(name)))
      && (Shown(before, id) ==> Shown(rows, id))
  {
    var rows, peers := s[machine].rows, Files(s, machine);
    PlanGoesThrough(rows, peers, changes);
    Applied(rows, changes);
    if id in rows {
      OffersAgree(s, machine, id, name);
      if C.Targets(changes, id) {
        var k :| 0 <= k < |changes| && changes[k].id == id;
        assert Takes(rows, peers, id, changes[k].name);
        var p :| p in peers && id in peers[p];
        assert changes[k].name == name;
      } else {
        assert !Takes(rows, peers, id, name);
      }
    }
  }

  /** All that is offered for the chat is its one name, and it is offered unless only this machine publishes it. */
  lemma OffersAgree(s: State, machine: string, id: string, name: string)
    requires Sound(s) && Agree(s, id, name) && machine in s
    ensures forall p | p in Files(s, machine) && id in Files(s, machine)[p] :: Files(s, machine)[p][id] == name
    ensures Published(s, id) ==> Unanimous(Files(s, machine), id, name) || (id in s[machine].rows && s[machine].rows[id].name == Some(name))
  {
    var peers := Files(s, machine);
    forall p | p in s && id in s[p].published
      ensures s[p].published[id] == name && Shown(s[p].rows, id)
    {
      assert SiteSound(s[p]);
    }
    if Published(s, id) {
      var p :| p in s && id in s[p].published;
      assert p != machine ==> p in peers && id in peers[p];
    }
  }

  /** A round of syncs, one machine after another, each with a plan of what it then sees. */
  ghost predicate Round(s: State, machines: seq<string>, plans: seq<seq<C.Change>>)
    requires |plans| == |machines|
    decreases |machines|
  {
    machines == [] ||
    (machines[0] in s && IsPlan(s[machines[0]].rows, Files(s, machines[0]), plans[0])
     && Round(After(s, SyncSteps(s, machines[0], plans[0])), machines[1..], plans[1..]))
  }

  function AfterRound(s: State, machines: seq<string>, plans: seq<seq<C.Change>>): State
    requires |plans| == |machines|
    decreases |machines|
  {
    if machines == [] then s else AfterRound(After(s, SyncSteps(s, machines[0], plans[0])), machines[1..], plans[1..])
  }

  /** A machine that has the name set had its turn before one of `machine`. */
  predicate ShownEarlier(s: State, machines: seq<string>, machine: string, id: string) {
    exists i, j | 0 <= i < j < |machines| :: machines[j] == machine && machines[i] in s && Shown(s[machines[i]].rows, id)
  }

  /** The name reaches the machine in a round of syncs. */
  predicate Reaches(s: State, machines: seq<string>, machine: string, id: string) {
    (machine in machines && Published(s, id)) || ShownEarlier(s, machines, machine, id)
  }

  /**
   If all machines that have a name set for a chat agree on it, one round of syncs gives it to
   exactly the machines that list the chat and had the name, or take part once it is published: it
   was before the round, or a machine that has it set had its turn earlier. No machine disagrees
   afterwards, whatever else has or has not been published.
   */
  lemma {:induction false} OneRoundConverges(s: State, machines: seq<string>, plans: seq<seq<C.Change>>, id: string, name: string)
    requires |plans| == |machines|
    requires Sound(s) && Agree(s, id, name) && Round(s, machines, plans)
    ensures var t := AfterRound(s, machines, plans);
      && Sound(t) && Agree(t, id, name) && t.Keys == s.Keys
      && (forall m | m in s :: t[m].rows.Keys == s[m].rows.Keys)
      && forall m | m in s && id in s[m].rows ::
           t[m].rows[id].name == Some(name) <==> s[m].rows[id].name == Some(name) || Reaches(s, machines, m, id)
    decreases |machines|
  {
    hide IsPlan, SyncSteps, SiteSynced, Agree, Sound, Publication, Published, Shown, Reaches;
    if machines == [] {
      NobodyReached(s, id);
    } else {
      var next := After(s, SyncSteps(s, machines[0], plans[0]));
      OneSync(s, machines[0], plans[0], id, name);
      OneRoundConverges(next, machines[1..], plans[1..], id, name);
      AgreeMeans(s, id, name);
      forall m | m in s && id in s[m].rows
        ensures next[m].rows[id].name == Some(name) || Reaches(next, machines[1..], m, id)
           <==> s[m].rows[id].name == Some(name) || Reaches(s, machines, m, id)
      {
        ReachesInTurn(s, next, machines, m, id, name);
      }
    }
  }

  lemma NobodyReached(s: State, id: string)
    ensures forall m :: !Reaches(s, [], m, id)
  {
  }

  lemma AgreeMeans(s: State, id: string, name: string)
    requires Agree(s, id, name)
    ensures forall m | m in s && Shown(s[m].rows, id) :: id in s[m].rows && s[m].rows[id].name == Some(name)
  {
  }

  /** What the first sync of a round changes in whom the rest of it reaches: nothing. */
  lemma ReachesInTurn(s: State, next: State, machines: seq<string>, machine: string, id: string, name: string)
    requires machines != [] && machines[0] in s && machine in s && id in s[machine].rows && next.Keys == s.Keys
    requires next[machines[0]].rows.Keys == s[machines[0]].rows.Keys
    requires forall m | m in s && m != machines[0] :: next[m].rows == s[m].rows
    requires id in s[machines[0]].rows && (Published(s, id) || s[machines[0]].rows[id].name == Some(name)) ==> next[machines[0]].rows[id].name == Some(name)
    requires id in s[machines[0]].rows && !Published(s, id) ==> next[machines[0]].rows[id] == s[machines[0]].rows[id]
    requires Published(next, id) <==> Published(s, id) || Shown(s[machines[0]].rows, id)
    requires forall m | m in s && Shown(s[m].rows, id) :: id in s[m].rows && s[m].rows[id].name == Some(name)
    ensures next[machine].rows[id].name == Some(name) || Reaches(next, machines[1..], machine, id)
       <==> s[machine].rows[id].name == Some(name) || Reaches(s, machines, machine, id)
  {
    hide Published;
    var rest := machines[1..];
    assert machines == [machines[0]] + rest;
    if Published(s, id) {
      EarlierTakesPart(s, machines, machine, id);
      EarlierTakesPart(next, rest, machine, id);
    } else {
      SameShown(s, next, machines[0], id);
      EarlierSplit(s, machines, machine, id);
      SameEarlier(s, next, rest, machine, id);
    }
  }

  lemma EarlierTakesPart(s: State, machines: seq<string>, machine: string, id: string)
    ensures ShownEarlier(s, machines, machine, id) ==> machine in machines
  {
  }

  /** Someone was earlier: the first of the round, or one after it. */
  lemma EarlierSplit(s: State, machines: seq<string>, machine: string, id: string)
    requires machines != [] && machines[0] in s
    ensures ShownEarlier(s, machines, machine, id) <==>
      (Shown(s[machines[0]].rows, id) && machine in machines[1..]) || ShownEarlier(s, machines[1..], machine, id)
  {
    hide Shown;
    var rest := machines[1..];
    if ShownEarlier(s, machines, machine, id) {
      var i, j :| 0 <= i < j < |machines| && machines[j] == machine && machines[i] in s && Shown(s[machines[i]].rows, id);
      assert rest[j - 1] == machine;
      if i > 0 { assert rest[i - 1] == machines[i]; }
    }
    if Shown(s[machines[0]].rows, id) && machine in rest {
      var j :| 0 <= j < |rest| && rest[j] == machine;
      assert machines[j + 1] == machine && machines[0] in s;
    }
    if ShownEarlier(s, rest, machine, id) {
      var i, j :| 0 <= i < j < |rest| && rest[j] == machine && rest[i] in s && Shown(s[rest[i]].rows, id);
      assert machines[i + 1] == rest[i] && machines[j + 1] == rest[j];
    }
  }

  lemma SameEarlier(s: State, next: State, machines: seq<string>, machine: string, id: string)
    requires next.Keys == s.Keys && forall m | m in s :: Shown(next[m].rows, id) == Shown(s[m].rows, id)
    ensures ShownEarlier(next, machines, machine, id) <==> ShownEarlier(s, machines, machine, id)
  {
    hide Shown;
  }

  /** After a round the name is published exactly if it was, or a machine that has it set took part. */
  lemma {:induction false} OneRoundPublishes(s: State, machines: seq<string>, plans: seq<seq<C.Change>>, id: string, name: string)
    requires |plans| == |machines|
    requires Sound(s) && Agree(s, id, name) && Round(s, machines, plans)
    ensures var t := AfterRound(s, machines, plans);
      && Sound(t) && Agree(t, id, name) && t.Keys == s.Keys
      && (forall m | m in s :: t[m].rows.Keys == s[m].rows.Keys)
      && (Published(t, id) <==> Published(s, id) || exists m | m in machines :: m in s && Shown(s[m].rows, id))
    decreases |machines|
  {
    hide IsPlan, SyncSteps, SiteSynced, Agree, Sound, Publication, Published, Shown;
    if machines != [] {
      var next := After(s, SyncSteps(s, machines[0], plans[0]));
      OneSync(s, machines[0], plans[0], id, name);
      OneRoundPublishes(next, machines[1..], plans[1..], id, name);
      if !Published(s, id) { SameShown(s, next, machines[0], id); }
      assert machines == [machines[0]] + machines[1..];
    }
  }

  lemma SameShown(s: State, t: State, machine: string, id: string)
    requires machine in s && t.Keys == s.Keys && t[machine].rows.Keys == s[machine].rows.Keys
    requires forall m | m in s && m != machine :: t[m].rows == s[m].rows
    requires id in s[machine].rows ==> t[machine].rows[id] == s[machine].rows[id]
    ensures forall m | m in s :: Shown(t[m].rows, id) == Shown(s[m].rows, id)
  {
  }

  /**
   From any reachable state, with whatever published: if all set names of a chat agree, two rounds
   of syncs give every machine that lists the chat that name, provided it is published already or a
   machine that has it set takes part in the first.
   */
  lemma TwoRoundsConverge(s: State, first: seq<string>, plans: seq<seq<C.Change>>, second: seq<string>, plans': seq<seq<C.Change>>,
                          id: string, name: string)
    requires |plans| == |first| && |plans'| == |second|
    requires Sound(s) && Agree(s, id, name) && (Published(s, id) || exists m | m in first :: m in s && Shown(s[m].rows, id))
    requires Round(s, first, plans) && Round(AfterRound(s, first, plans), second, plans')
    ensures var t := AfterRound(AfterRound(s, first, plans), second, plans');
      && Sound(t) && Agree(t, id, name) && t.Keys == s.Keys
      && forall m | m in s && m in second && id in s[m].rows :: id in t[m].rows && t[m].rows[id].name == Some(name)
  {
    hide Round, AfterRound, Agree, Sound, Published;
    OneRoundPublishes(s, first, plans, id, name);
    OneRoundConverges(AfterRound(s, first, plans), second, plans', id, name);
  }

  /** The same of a single sync. */
  lemma OneSync(s: State, machine: string, changes: seq<C.Change>, id: string, name: string)
    requires Sound(s) && Agree(s, id, name) && machine in s && IsPlan(s[machine].rows, Files(s, machine), changes)
    ensures var t := After(s, SyncSteps(s, machine, changes));
      && Sound(t) && Agree(t, id, name) && t.Keys == s.Keys
      && t[machine].rows.Keys == s[machine].rows.Keys
      && (forall m | m in s && m != machine :: t[m].rows == s[m].rows)
      && (id in s[machine].rows && (Published(s, id) || s[machine].rows[id].name == Some(name)) ==> t[machine].rows[id].name == Some(name))
      && (id in s[machine].rows && !Published(s, id) ==> t[machine].rows[id] == s[machine].rows[id])
      && (Published(t, id) <==> Published(s, id) || Shown(s[machine].rows, id))
  {
    hide IsPlan, SyncSteps, SiteSynced, Publication, Sound;
    SyncIs(s, machine, changes);
    SyncTakes(s, machine, changes, id, name);
    SyncedSite(s, machine, changes);
    SyncIsRun(s, machine, changes);
    SetNamesStay(s, SyncSteps(s, machine, changes));
    var t := After(s, SyncSteps(s, machine, changes));
    StillAgree(s, t, machine, id, name);
    StillPublished(s, t, machine, id);
    NewlyPublished(s, t, machine, id);
  }

  lemma SyncedSite(s: State, machine: string, changes: seq<C.Change>)
    requires machine in s
    ensures SiteSynced(s, machine, changes).published == Publication(SiteSynced(s, machine, changes).rows)
  {
  }

  lemma StillPublished(s: State, t: State, machine: string, id: string)
    requires Sound(s) && machine in s && t.Keys == s.Keys && forall m | m in s && m != machine :: t[m] == s[m]
    requires t[machine].published == Publication(t[machine].rows) && (Shown(s[machine].rows, id) ==> Shown(t[machine].rows, id))
    ensures Published(s, id) || Shown(s[machine].rows, id) ==> Published(t, id)
  {
    if Shown(s[machine].rows, id) {
      assert id in t[machine].published;
    } else if Published(s, id) {
      var p :| p in s && id in s[p].published;
      assert SiteSound(s[p]);
      assert id in t[p].published;
    }
  }

  lemma NewlyPublished(s: State, t: State, machine: string, id: string)
    requires machine in s && t.Keys == s.Keys && forall m | m in s && m != machine :: t[m] == s[m]
    requires t[machine].published == Publication(t[machine].rows) && t[machine].rows.Keys == s[machine].rows.Keys
    requires id in s[machine].rows && !Published(s, id) ==> t[machine].rows[id] == s[machine].rows[id]
    ensures Published(t, id) ==> Published(s, id) || Shown(s[machine].rows, id)
  {
    if Published(t, id) && !Published(s, id) {
      var p :| p in t && id in t[p].published;
      assert p == machine;
    }
  }

  lemma StillAgree(s: State, t: State, machine: string, id: string, name: string)
    requires Agree(s, id, name) && machine in s && t.Keys == s.Keys
    requires forall m | m in s && m != machine :: t[m] == s[m]
    requires var before, rows := s[machine].rows, t[machine].rows;
      && rows.Keys == before.Keys
      && (id in rows ==> rows[id].title == before[id].title && (rows[id].name == before[id].name || rows[id].name == Some(name)))
      && (Shown(before, id) ==> Shown(rows, id))
    ensures Agree(t, id, name)
  {
    var p :| p in s && Shown(s[p].rows, id);
    assert Shown(t[p].rows, id);
  }

  // ------------------------------------------------------------------ a chat written twice

  /** The plan for a catalogue of one chat, offered one name by one peer. */
  lemma SinglePlan(row: C.Row, id: string, peer: string, name: string)
    requires row.name != Some(name) && IsUnset(row.name, row.title)
    ensures IsPlan(map[id := row], map[peer := map[id := name]], [C.SetName(id, row.name, name)])
  {
    var rows, peers, changes := map[id := row], map[peer := map[id := name]], [C.SetName(id, row.name, name)];
    assert id in peers[peer];
    assert Takes(rows, peers, id, name);
    assert changes[0].id == id;
  }

  lemma SingleApply(row: C.Row, id: string, name: string)
    ensures C.ApplyAll(map[id := row], [C.SetName(id, row.name, name)]) == Some(map[id := row.(name := Some(name))])
  {
    var changes := [C.SetName(id, row.name, name)];
    assert changes[1..] == [];
    assert map[id := row][id := row.(name := Some(name))] == map[id := row.(name := Some(name))];
  }

  /** One more step in front of a run. */
  lemma Before(s: State, step: Step, t: State, rest: seq<Step>)
    requires Legal(s, step) && Next(s, step) == t && Run(t, rest)
    ensures Run(s, [step] + rest) && After(s, [step] + rest) == After(t, rest)
  {
    assert ([step] + rest)[1..] == rest;
  }

  /** Machine `l` lists the chat without a name; `p` and `q` name it differently. */
  function Start(id: string, title: string, other: string, l: string, p: string, q: string): State
    requires l != p && p != q && l != q
  {
    map[l := Site(map[id := C.Row(None, title, "", 0, None)], map[], map[], {}, []),
        p := Site(map[id := C.Row(Some(title), "", "", 0, None)], map[], map[], {}, []),
        q := Site(map[id := C.Row(Some(other), "", "", 0, None)], map[], map[], {}, [])]
  }

  /** One peer's file becomes readable, and what it offers is planned and applied. */
  lemma TakesFrom(s: State, l: string, peer: string, id: string, name: string)
    requires l in s && peer in s && peer != l && s[peer].published == map[id := name]
    requires s[l].rows.Keys == {id} && s[l].rows[id].name != Some(name) && IsUnset(s[l].rows[id].name, s[l].rows[id].title)
    ensures var row := s[l].rows[id];
      var change := C.SetName(id, row.name, name);
      var steps := [Receive(l, map[peer := map[id := name]]), Plan(l, [change]), Apply(l, [change])];
      && Run(s, steps)
      && After(s, steps) == s[l := s[l].(rows := map[id := row.(name := Some(name))], views := map[peer := map[id := name]],
                                         pending := s[l].pending + {[change]}, wrote := s[l].wrote + [change])]
  {
    hide IsPlan, C.ApplyAll;
    var row := s[l].rows[id];
    var change := C.SetName(id, row.name, name);
    var views := map[peer := map[id := name]];
    assert s[l].rows == map[id := row];
    SinglePlan(row, id, peer, name);
    SingleApply(row, id, name);
    var s1 := s[l := s[l].(views := views)];
    var s2 := s1[l := s1[l].(pending := s[l].pending + {[change]})];
    var s3 := s2[l := s2[l].(rows := map[id := row.(name := Some(name))], wrote := s[l].wrote + [change])];
    Before(s2, Apply(l, [change]), s3, []);
    assert [Apply(l, [change])] + [] == [Apply(l, [change])];
    Before(s1, Plan(l, [change]), s2, [Apply(l, [change])]);
    Before(s, Receive(l, views), s1, [Plan(l, [change]), Apply(l, [change])]);
    assert [Plan(l, [change])] + [Apply(l, [change])] == [Plan(l, [change]), Apply(l, [change])];
    assert [Receive(l, views)] + [Plan(l, [change]), Apply(l, [change])] == [Receive(l, views), Plan(l, [change]), Apply(l, [change])];
  }

  lemma {:induction false} Joined(s: State, a: seq<Step>, b: seq<Step>)
    requires Run(s, a) && Run(After(s, a), b)
    ensures Run(s, a + b) && After(s, a + b) == After(After(s, a), b)
    decreases |a|
  {
    if a == [] {
      assert a + b == b;
    } else {
      Joined(Next(s, a[0]), a[1..], b);
      assert (a + b)[1..] == a[1..] + b;
    }
  }

  /**
   The second write is real, for every title: `p` offers the very title of the chat, which is
   written; then `p`'s file cannot be read and `q` offers another name, which is written over it.
   */
  lemma WrittenTwice(id: string, title: string, other: string, l: string, p: string, q: string)
    requires title != "" && other != "" && other != title && l != p && p != q && l != q
    ensures exists steps: seq<Step> ::
      && Initial(Start(id, title, other, l, p, q)) && Run(Start(id, title, other, l, p, q), steps)
      && var t := After(Start(id, title, other, l, p, q), steps);
         l in t && t[l].wrote == [C.SetName(id, None, title), C.SetName(id, Some(title), other)]
  {
    hide *;
    var s := Start(id, title, other, l, p, q);
    var s2 := Offering(id, title, other, l, p, q);
    BothPublish(id, title, other, l, p, q);
    var a, b := C.SetName(id, None, title), C.SetName(id, Some(title), other);
    var one := [Receive(l, map[p := map[id := title]]), Plan(l, [a]), Apply(l, [a])];
    var two := [Receive(l, map[q := map[id := other]]), Plan(l, [b]), Apply(l, [b])];
    TakesBoth(id, title, other, l, p, q);
    Joined(s2, one, two);
    Joined(s, [Publish(p), Publish(q)], one + two);
    var steps := [Publish(p), Publish(q)] + (one + two);
    var t := After(s, steps);
    assert Initial(s) && Run(s, steps) && l in t && t[l].wrote == [a, b];
  }

  /** The same machines once `p` and `q` have published. */
  function Offering(id: string, title: string, other: string, l: string, p: string, q: string): State
    requires l != p && p != q && l != q
  {
    var s := Start(id, title, other, l, p, q);
    s[p := s[p].(published := map[id := title])][q := s[q].(published := map[id := other])]
  }

  lemma BothPublish(id: string, title: string, other: string, l: string, p: string, q: string)
    requires title != "" && other != "" && l != p && p != q && l != q
    ensures Initial(Start(id, title, other, l, p, q)) && Run(Start(id, title, other, l, p, q), [Publish(p), Publish(q)])
    ensures After(Start(id, title, other, l, p, q), [Publish(p), Publish(q)]) == Offering(id, title, other, l, p, q)
  {
    hide Run, After;
    var s := Start(id, title, other, l, p, q);
    var s1 := s[p := s[p].(published := map[id := title])];
    var s2 := Offering(id, title, other, l, p, q);
    NoSteps(s2);
    assert Publication(s[p].rows) == map[id := title] && Publication(s[q].rows) == map[id := other];
    Before(s1, Publish(q), s2, []);
    assert [Publish(q)] + [] == [Publish(q)] && [Publish(p)] + [Publish(q)] == [Publish(p), Publish(q)];
    Before(s, Publish(p), s1, [Publish(q)]);
  }

  lemma TakesBoth(id: string, title: string, other: string, l: string, p: string, q: string)
    requires title != "" && other != "" && other != title && l != p && p != q && l != q
    ensures var a, b := C.SetName(id, None, title), C.SetName(id, Some(title), other);
      var one := [Receive(l, map[p := map[id := title]]), Plan(l, [a]), Apply(l, [a])];
      var two := [Receive(l, map[q := map[id := other]]), Plan(l, [b]), Apply(l, [b])];
      var s2 := Offering(id, title, other, l, p, q);
      && Run(s2, one) && Run(After(s2, one), two)
      && l in After(After(s2, one), two) && After(After(s2, one), two)[l].wrote == [a, b]
  {
    hide Run, After;
    var s2 := Offering(id, title, other, l, p, q);
    var a, b := C.SetName(id, None, title), C.SetName(id, Some(title), other);
    TakesFrom(s2, l, p, id, title);
    var s3 := After(s2, [Receive(l, map[p := map[id := title]]), Plan(l, [a]), Apply(l, [a])]);
    TakesFrom(s3, l, q, id, other);
    assert [a] + [b] == [a, b] && [] + [a] == [a];
  }

  lemma NoSteps(s: State)
    ensures Run(s, []) && After(s, []) == s
  {
  }
}
