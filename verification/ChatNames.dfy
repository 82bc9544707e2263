/**
 Chat names between machines: which names a machine publishes and which it takes from others.
 The guarded transaction is the catalogue's.
 */
module ChatNames {
  import opened Wrappers
  import C = Catalogue

  /** Thread id to name, what one machine publishes. */
  type Names = map<string, string>

  /** `is_unset`: there is no name, it is empty, or it repeats the title that Codex made up itself. */
  predicate IsUnset(name: Option<string>, title: string) {
    name == None || name == Some("") || name == Some(title)
  }

  predicate Shown(rows: C.Rows, id: string) { id in rows && !IsUnset(rows[id].name, rows[id].title) }

  /** `publication_from_names`. */
  function Publication(rows: C.Rows): Names {
    map id | id in rows && Shown(rows, id) :: rows[id].name.value
  }

  // ------------------------------------------------------------------ what the offers say

  predicate Offers(peers: map<string, Names>, id: string) { exists p | p in peers :: id in peers[p] }

  /** Every peer that names the chat names it `name`. */
  predicate Unanimous(peers: map<string, Names>, id: string, name: string) {
    Offers(peers, id) && forall p | p in peers && id in peers[p] :: peers[p][id] == name
  }

  predicate Contested(peers: map<string, Names>, id: string) {
    exists p, q | p in peers && q in peers :: id in peers[p] && id in peers[q] && peers[p][id] != peers[q][id]
  }

  /** The chat takes this name here. */
  predicate Takes(rows: C.Rows, peers: map<string, Names>, id: string, name: string) {
    && id in rows && Unanimous(peers, id, name)
    && rows[id].name != Some(name) && IsUnset(rows[id].name, rows[id].title)
  }

  /** What may become of a chat that peers name. */
  datatype Outcome = Waiting | Ambiguous | Kept | Take(name: string) | Nothing

  predicate Is(rows: C.Rows, peers: map<string, Names>, id: string, o: Outcome) {
    match o
    case Waiting => Offers(peers, id) && id !in rows
    case Ambiguous => Contested(peers, id) && id in rows && IsUnset(rows[id].name, rows[id].title)
    case Kept =>
      Offers(peers, id) && !Contested(peers, id) && Shown(rows, id) && !Unanimous(peers, id, rows[id].name.value)
    case Take(name) => Takes(rows, peers, id, name)
    case Nothing => false
  }

  /** The chats among `ids` that are counted under `o`. */
  function Those(rows: C.Rows, peers: map<string, Names>, ids: set<string>, o: Outcome): set<string> {
    set id | id in ids && Is(rows, peers, id, o)
  }

  /** A plan sets exactly the names that may be taken, each once and guarded by the name seen. */
  ghost predicate IsPlan(rows: C.Rows, peers: map<string, Names>, changes: seq<C.Change>) {
    && C.DistinctIds(changes)
    && (forall k | 0 <= k < |changes| :: changes[k].SetName?)
    && (forall k | 0 <= k < |changes| ::
         Takes(rows, peers, changes[k].id, changes[k].name) && changes[k].current == rows[changes[k].id].name)
    && (forall id, name | Takes(rows, peers, id, name) :: C.Targets(changes, id))
  }

  datatype NamePlan = NamePlan(changes: seq<C.Change>, kept: nat, ambiguous: nat, waiting: nat)

  /** The offers by chat, then by peer. */
  function ByChat(peers: map<string, Names>, id: string): map<string, string> {
    map p | p in peers && id in peers[p] :: peers[p][id]
  }

  /** One peer's names added to the offers so far. */
  method AddPeer(before: map<string, map<string, string>>, p: string, names: Names)
    returns (offered: map<string, map<string, string>>)
    ensures offered.Keys == before.Keys + names.Keys
    ensures forall id | id in offered :: offered[id] == Joined(before, p, names, id)
  {
    hide Joined;
    offered := before;
    var rest := names.Keys;
    NotNamed(before, p, names);
    while rest != {}
      invariant rest <= names.Keys
      invariant forall id :: id in offered <==> id in before || (id in names && id !in rest)
      invariant forall id | id in offered && id in rest :: id in before && offered[id] == before[id]
      invariant forall id | id in offered && id !in rest :: offered[id] == Joined(before, p, names, id)
    {
      var id :| id in rest;
      rest := rest - {id};
      JoinedHere(before, p, names, id);
      offered := offered[id := (if id in offered then offered[id] else map[])[p := names[id]]];
    }
  }

  function Joined(before: map<string, map<string, string>>, p: string, names: Names, id: string): map<string, string> {
    (if id in before then before[id] else map[]) + (if id in names then map[p := names[id]] else map[])
  }

  lemma NotNamed(before: map<string, map<string, string>>, p: string, names: Names)
    ensures forall id | id in before && id !in names :: Joined(before, p, names, id) == before[id]
  {
  }

  lemma JoinedHere(before: map<string, map<string, string>>, p: string, names: Names, id: string)
    requires id in names
    ensures Joined(before, p, names, id) == (if id in before then before[id] else map[])[p := names[id]]
  {
  }

  /** The first loop of `build_name_plan`: all offers, chat by chat. */
  method Collect(peers: map<string, Names>) returns (offered: map<string, map<string, string>>)
    ensures forall id :: id in offered <==> Offers(peers, id)
    ensures forall id | id in offered :: offered[id] == ByChat(peers, id)
  {
    hide Offers, ByChat, Joined;
    offered := map[];
    var rest := peers.Keys;
    NoPeers();
    while rest != {}
      invariant rest <= peers.Keys
      invariant forall id :: id in offered <==> Offers(peers - rest, id)
      invariant forall id | id in offered :: offered[id] == ByChat(peers - rest, id)
    {
      var p :| p in rest;
      ghost var done := peers - rest;
      rest := rest - {p};
      ghost var before := offered;
      offered := AddPeer(offered, p, peers[p]);
      assert done == (peers - rest) - {p};
      Grown(done, peers - rest, p);
      JoinedIs(before, done, peers - rest, p);
    }
    assert peers - {} == peers;
  }

  lemma NoPeers()
    ensures forall id, peers: map<string, Names> | peers == map[] :: !Offers(peers, id)
  {
  }

  lemma JoinedIs(before: map<string, map<string, string>>, done: map<string, Names>, next: map<string, Names>, p: string)
    requires p in next && done == next - {p}
    requires forall id :: id in before <==> Offers(done, id)
    requires forall id | id in before :: before[id] == ByChat(done, id)
    ensures forall id :: Joined(before, p, next[p], id) == ByChat(next, id)
  {
    forall id
      ensures Joined(before, p, next[p], id) == ByChat(next, id)
    {
      assert id !in before ==> ByChat(done, id) == map[];
    }
  }

  lemma Grown(done: map<string, Names>, next: map<string, Names>, p: string)
    requires p in next && done == next - {p}
    ensures forall id :: Offers(next, id) <==> Offers(done, id) || id in next[p]
  {
    forall id
      ensures Offers(next, id) <==> Offers(done, id) || id in next[p]
    {
      if Offers(next, id) {
        var q :| q in next && id in next[q];
        assert q == p || (q in done && id in done[q]);
      }
      if Offers(done, id) {
        var q :| q in done && id in done[q];
        assert q in next && id in next[q];
      }
    }
  }

  /** The body of the second loop: what becomes of one chat that peers name. */
  method Classify(rows: C.Rows, id: string, byPeer: map<string, string>, ghost peers: map<string, Names>) returns (o: Outcome)
    requires Offers(peers, id) && byPeer == ByChat(peers, id)
    ensures Says(rows, peers, id, o)
  {
    hide Offers, Contested, Unanimous, ByChat;
    SomeOffer(peers, id);
    var one :| one in byPeer;
    var name := byPeer[one];
    Meaning(peers, id, one);
    if id !in rows { return Waiting; }
    var unset := IsUnset(rows[id].name, rows[id].title);
    if exists q | q in byPeer :: byPeer[q] != name {
      return if unset then Ambiguous else Nothing;
    }
    if rows[id].name == Some(name) { return Nothing; }
    return if unset then Take(name) else Kept;
  }

  ghost predicate Says(rows: C.Rows, peers: map<string, Names>, id: string, o: Outcome) {
    forall other | other != Nothing :: Is(rows, peers, id, other) <==> o == other
  }

  /** The changes are those for the chats in `ids`. */
  ghost predicate ChangesOf(rows: C.Rows, peers: map<string, Names>, ids: set<string>, changes: seq<C.Change>) {
    && C.DistinctIds(changes)
    && (forall k | 0 <= k < |changes| :: changes[k].SetName? && changes[k].id in ids)
    && (forall k | 0 <= k < |changes| ::
         changes[k].id in rows && Is(rows, peers, changes[k].id, Take(changes[k].name)) && changes[k].current == rows[changes[k].id].name)
    && (forall id, name | Is(rows, peers, id, Take(name)) && id in ids :: C.Targets(changes, id))
  }

  ghost predicate CountsOf(rows: C.Rows, peers: map<string, Names>, ids: set<string>, kept: nat, ambiguous: nat, waiting: nat) {
    kept == |Those(rows, peers, ids, Kept)| && ambiguous == |Those(rows, peers, ids, Ambiguous)| && waiting == |Those(rows, peers, ids, Waiting)|
  }

  ghost predicate PlanOf(rows: C.Rows, peers: map<string, Names>, ids: set<string>, plan: NamePlan) {
    ChangesOf(rows, peers, ids, plan.changes) && CountsOf(rows, peers, ids, plan.kept, plan.ambiguous, plan.waiting)
  }

  /** `build_name_plan` for a readable catalogue: the changes, and what is counted instead. */
  method BuildNamePlan(rows: C.Rows, peers: map<string, Names>) returns (plan: NamePlan)
    ensures IsPlan(rows, peers, plan.changes)
    ensures plan.kept == |Those(rows, peers, AllOffered(peers), Kept)|
    ensures plan.ambiguous == |Those(rows, peers, AllOffered(peers), Ambiguous)|
    ensures plan.waiting == |Those(rows, peers, AllOffered(peers), Waiting)|
  {
    hide Offers, PlanOf, Says;
    var offered := Collect(peers);
    plan := NamePlan([], 0, 0, 0);
    var rest := offered.Keys;
    EmptyPlan(rows, peers);
    assert offered.Keys - rest == {};
    while rest != {}
      invariant rest <= offered.Keys
      invariant PlanOf(rows, peers, offered.Keys - rest, plan)
    {
      var id :| id in rest;
      ghost var before, done := plan, offered.Keys - rest;
      rest := rest - {id};
      var o := Classify(rows, id, offered[id], peers);
      match o {
        case Waiting => plan := plan.(waiting := plan.waiting + 1);
        case Ambiguous => plan := plan.(ambiguous := plan.ambiguous + 1);
        case Kept => plan := plan.(kept := plan.kept + 1);
        case Nothing =>
        case Take(name) =>
          TakesKnown(rows, peers, id, o);
          plan := plan.(changes := plan.changes + [C.SetName(id, rows[id].name, name)]);
      }
      OneMore(rows, peers, done, id, o, before, plan);
      assert offered.Keys - rest == done + {id};
    }
    assert offered.Keys - {} == offered.Keys;
    PlanOfAll(rows, peers, offered.Keys, plan);
  }

  /** The chats any peer names. */
  function AllOffered(peers: map<string, Names>): set<string> { set p, id | p in peers && id in peers[p] :: id }

  lemma TakesKnown(rows: C.Rows, peers: map<string, Names>, id: string, o: Outcome)
    requires Says(rows, peers, id, o) && o.Take?
    ensures id in rows && Takes(rows, peers, id, o.name)
  {
    assert Is(rows, peers, id, o);
  }

  lemma OneMore(rows: C.Rows, peers: map<string, Names>, done: set<string>, id: string, o: Outcome, before: NamePlan, after: NamePlan)
    requires PlanOf(rows, peers, done, before) && Says(rows, peers, id, o) && id !in done
    requires after.changes == before.changes + if o.Take? && id in rows then [C.SetName(id, rows[id].name, o.name)] else []
    requires after.kept == before.kept + if o == Kept then 1 else 0
    requires after.ambiguous == before.ambiguous + if o == Ambiguous then 1 else 0
    requires after.waiting == before.waiting + if o == Waiting then 1 else 0
    ensures PlanOf(rows, peers, done + {id}, after)
  {
    hide ChangesOf, CountsOf, Says;
    if o.Take? {
      TakesKnown(rows, peers, id, o);
      OneMoreChange(rows, peers, done, id, o, before.changes);
    } else {
      NoMoreChange(rows, peers, done, id, o, before.changes);
      assert after.changes == before.changes;
    }
    OneMoreCount(rows, peers, done, id, o, before.kept, before.ambiguous, before.waiting);
  }

  lemma NoMoreChange(rows: C.Rows, peers: map<string, Names>, done: set<string>, id: string, o: Outcome, changes: seq<C.Change>)
    requires ChangesOf(rows, peers, done, changes) && Says(rows, peers, id, o) && !o.Take?
    ensures ChangesOf(rows, peers, done + {id}, changes)
  {
    hide Is;
  }

  lemma OneMoreChange(rows: C.Rows, peers: map<string, Names>, done: set<string>, id: string, o: Outcome, changes: seq<C.Change>)
    requires ChangesOf(rows, peers, done, changes) && Says(rows, peers, id, o) && id !in done && o.Take? && id in rows
    ensures ChangesOf(rows, peers, done + {id}, changes + [C.SetName(id, rows[id].name, o.name)])
  {
    hide Is, C.Targets;
    var more := C.SetName(id, rows[id].name, o.name);
    C.TargetsMore(changes, more);
    assert forall k | 0 <= k < |changes| + 1 :: (changes + [more])[k] == if k < |changes| then changes[k] else more;
  }

  lemma OneMoreCount(rows: C.Rows, peers: map<string, Names>, done: set<string>, id: string, o: Outcome, kept: nat, ambiguous: nat, waiting: nat)
    requires CountsOf(rows, peers, done, kept, ambiguous, waiting) && Says(rows, peers, id, o) && id !in done
    ensures CountsOf(rows, peers, done + {id}, kept + (if o == Kept then 1 else 0),
                     ambiguous + (if o == Ambiguous then 1 else 0), waiting + if o == Waiting then 1 else 0)
  {
    OneMoreOf(rows, peers, done, id, o, Kept);
    OneMoreOf(rows, peers, done, id, o, Ambiguous);
    OneMoreOf(rows, peers, done, id, o, Waiting);
  }

  lemma OneMoreOf(rows: C.Rows, peers: map<string, Names>, done: set<string>, id: string, o: Outcome, kind: Outcome)
    requires Says(rows, peers, id, o) && id !in done && kind != Nothing
    ensures |Those(rows, peers, done + {id}, kind)| == |Those(rows, peers, done, kind)| + if o == kind then 1 else 0
  {
    hide Is;
    assert Those(rows, peers, done + {id}, kind) == Those(rows, peers, done, kind) + if o == kind then {id} else {};
  }

  lemma PlanOfAll(rows: C.Rows, peers: map<string, Names>, ids: set<string>, plan: NamePlan)
    requires PlanOf(rows, peers, ids, plan) && forall id :: id in ids <==> Offers(peers, id)
    ensures IsPlan(rows, peers, plan.changes) && ids == AllOffered(peers)
    ensures plan.kept == |Those(rows, peers, AllOffered(peers), Kept)|
    ensures plan.ambiguous == |Those(rows, peers, AllOffered(peers), Ambiguous)|
    ensures plan.waiting == |Those(rows, peers, AllOffered(peers), Waiting)|
  {
    forall id
      ensures id in ids <==> id in AllOffered(peers)
    {
      if id in ids {
        var p :| p in peers && id in peers[p];
      }
    }
    assert ids == AllOffered(peers);
    forall id, name | Takes(rows, peers, id, name)
      ensures C.Targets(plan.changes, id)
    {
      assert Is(rows, peers, id, Take(name));
    }
  }

  lemma EmptyPlan(rows: C.Rows, peers: map<string, Names>)
    ensures PlanOf(rows, peers, {}, NamePlan([], 0, 0, 0))
  {
  }

  /** What one entry of the collected offers says about its chat. */
  lemma Meaning(peers: map<string, Names>, id: string, one: string)
    requires one in ByChat(peers, id)
    ensures Offers(peers, id)
    ensures Contested(peers, id) <==> exists q | q in ByChat(peers, id) :: ByChat(peers, id)[q] != ByChat(peers, id)[one]
    ensures forall n :: Unanimous(peers, id, n) <==> !Contested(peers, id) && n == ByChat(peers, id)[one]
  {
    assert one in peers && id in peers[one];
    if Contested(peers, id) {
      var a, b :| a in peers && b in peers && id in peers[a] && id in peers[b] && peers[a][id] != peers[b][id];
      assert ByChat(peers, id)[a] != ByChat(peers, id)[one] || ByChat(peers, id)[b] != ByChat(peers, id)[one];
    }
  }

  lemma SomeOffer(peers: map<string, Names>, id: string)
    requires Offers(peers, id)
    ensures ByChat(peers, id) != map[]
  {
    var p :| p in peers && id in peers[p];
    assert p in ByChat(peers, id);
  }
}
