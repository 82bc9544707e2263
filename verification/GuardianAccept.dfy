/**
 Accepting what Guardian held back: when a person's decision may override the assessment, what is
 committed under it, and how the plan explains a drop in counts.
 */
module GuardianAccept {
  import opened Wrappers
  import opened Guardian

  const SHRINK_ACCEPTED := "SHRINK_ACCEPTED"
  const SCHEMA_CHANGE_ACCEPTED := "SCHEMA_CHANGE_ACCEPTED"
  const BASELINE_SCHEMA_CHANGED := "BASELINE_SCHEMA_CHANGED"
  const NO_BASELINE := "NO_BASELINE"
  const BASELINE_UNRESOLVED := "BASELINE_UNRESOLVED"
  const NOTHING_TO_ACCEPT := "NOTHING_TO_ACCEPT"
  const STATE_REJECTED := "STATE_REJECTED"
  const SOURCE_MISSING := "SOURCE_MISSING"

  predicate ComparesSchemas(code: string) { code == BASELINE_SCHEMA_MISMATCH || code == UNKNOWN_SCHEMA }

  /** `is_schema_change`. */
  predicate IsSchemaChange(c: Report, baseline: Option<Manifest>) {
    && baseline.Some? && c.status == Indeterminate && Known(c.schema) && c.projects.Some? && c.bindings.Some?
    && c.codes != [] && ComparesSchemas(c.codes[|c.codes| - 1])
    && Passing(baseline.value.status) && baseline.value.schema != c.schema
  }

  /** `accepted_validation`; a report that compares no schemas cannot be accepted as indeterminate. */
  function AcceptedValidation(c: Report): Option<Report> {
    if c.status == Indeterminate then
      if c.codes == [] || !ComparesSchemas(c.codes[|c.codes| - 1]) then None
      else Some(c.(status := PassWithWarning, codes := c.codes[..|c.codes| - 1] + [SCHEMA_CHANGE_ACCEPTED]))
    else Some(c.(status := PassWithWarning, codes := c.codes + [SHRINK_ACCEPTED]))
  }

  /** What validation on its own reports: never suspicious, and no schema when indeterminate. */
  predicate Raw(r: Report) {
    && r.status != Suspicious
    && (r.status == Indeterminate ==> r.schema == None)
    && PROJECT_COUNT_DROP !in r.codes && BINDING_COUNT_DROP !in r.codes
  }

  // ------------------------------------------------------------------ the two cases, in terms of the raw report

  /** Fully valid, merely not comparable. */
  predicate SchemasDiffer(raw: Report, baseline: Option<Manifest>, verified: bool, p: Policy) {
    && ValidPolicy(p) && Passing(raw.status) && Known(raw.schema) && raw.projects.Some? && raw.bindings.Some?
    && baseline.Some? && verified && Passing(baseline.value.status) && baseline.value.schema != raw.schema
  }

  /** Comparable, and a count fell too far. */
  predicate CountsDrop(raw: Report, baseline: Option<Manifest>, verified: bool, p: Policy) {
    && ValidPolicy(p) && Passing(raw.status) && Known(raw.schema) && raw.projects.Some? && raw.bindings.Some?
    && baseline.Some? && verified && Passing(baseline.value.status) && baseline.value.schema == raw.schema
    && (!Tolerated(baseline.value.projects, raw.projects.value, p) || !Tolerated(baseline.value.bindings, raw.bindings.value, p))
  }

  /** `is_schema_change` recognises exactly the reports that were held back for their schema alone. */
  lemma SchemaChangeIs(raw: Report, baseline: Option<Manifest>, verified: bool, p: Policy)
    requires Raw(raw)
    ensures IsSchemaChange(Assess(raw, baseline, verified, p), baseline) <==> SchemasDiffer(raw, baseline, verified, p)
  {
    assert BASELINE_UNVERIFIED != BASELINE_SCHEMA_MISMATCH && BASELINE_UNVERIFIED != UNKNOWN_SCHEMA;
    if baseline.Some? {
      var c := Assess(raw, baseline, verified, p);
      assert forall code :: (raw.codes + [code])[|raw.codes + [code]| - 1] == code;
    }
  }

  // ------------------------------------------------------------------ the plan

  function ShrinkCodes(codes: seq<string>): seq<string> {
    if codes == [] then []
    else (if codes[0] == PROJECT_COUNT_DROP || codes[0] == BINDING_COUNT_DROP then [codes[0]] else []) + ShrinkCodes(codes[1..])
  }

  /** The codes a confirmation accepts, and those that block it. */
  datatype Plan = Plan(shrinkCodes: seq<string>, codes: seq<string>)

  /** `build_guardian_accept_plan`; `payload` and `baselinePayload` say whether those bytes are at hand. */
  function AcceptPlan(baseline: Option<Manifest>, baselinePayload: bool, candidate: Option<Report>, payload: bool, resolved: bool): Plan {
    if candidate.None? || !payload then Plan([], [SOURCE_MISSING])
    else if !resolved then Plan([], [BASELINE_UNRESOLVED])
    else if baseline.None? then Plan([], [NO_BASELINE])
    else
      var c := candidate.value;
      if Passing(c.status) then Plan([], [NOTHING_TO_ACCEPT])
      else if IsSchemaChange(c, baseline) then
        Plan([BASELINE_SCHEMA_CHANGED], if baselinePayload then [] else [BASELINE_UNRESOLVED])
      else if c.status != Suspicious then Plan([], [STATE_REJECTED])
      else
        var shrink := ShrinkCodes(c.codes);
        Plan(shrink, if shrink == [] then [STATE_REJECTED] else if baselinePayload then [] else [BASELINE_UNRESOLVED])
  }

  predicate Acceptable(plan: Plan) { plan.codes == [] }

  lemma {:induction false} ShrinkCodesConcat(a: seq<string>, b: seq<string>)
    ensures ShrinkCodes(a + b) == ShrinkCodes(a) + ShrinkCodes(b)
    decreases |a|
  {
    if a == [] {
      assert a + b == b;
    } else {
      assert (a + b)[0] == a[0] && (a + b)[1..] == a[1..] + b;
      ShrinkCodesConcat(a[1..], b);
      var head := if a[0] == PROJECT_COUNT_DROP || a[0] == BINDING_COUNT_DROP then [a[0]] else [];
      assert head + ShrinkCodes(a[1..]) + ShrinkCodes(b) == head + (ShrinkCodes(a[1..]) + ShrinkCodes(b));
    }
  }

  lemma {:induction false} NoShrinkCodes(codes: seq<string>)
    requires PROJECT_COUNT_DROP !in codes && BINDING_COUNT_DROP !in codes
    ensures ShrinkCodes(codes) == []
  {
    if codes != [] { NoShrinkCodes(codes[1..]); }
  }

  /** A suspicious report is exactly a drop in a count, and its shrink codes say which counts fell. */
  lemma SuspiciousIs(raw: Report, baseline: Option<Manifest>, verified: bool, p: Policy)
    requires Raw(raw)
    ensures var c := Assess(raw, baseline, verified, p);
      && (c.status == Suspicious <==> CountsDrop(raw, baseline, verified, p))
      && (c.status == Suspicious ==>
            ShrinkCodes(c.codes) ==
              (if !Tolerated(baseline.value.projects, raw.projects.value, p) then [PROJECT_COUNT_DROP] else [])
              + if !Tolerated(baseline.value.bindings, raw.bindings.value, p) then [BINDING_COUNT_DROP] else [])
  {
    if baseline.Some? && raw.projects.Some? && raw.bindings.Some? {
      ToleratedIs(baseline.value.projects, raw.projects.value, p);
      ToleratedIs(baseline.value.bindings, raw.bindings.value, p);
    }
    var c := Assess(raw, baseline, verified, p);
    if c.status == Suspicious {
      var drops := c.codes[|raw.codes|..];
      assert c.codes == raw.codes + drops;
      ShrinkCodesConcat(raw.codes, drops);
      NoShrinkCodes(raw.codes);
      TwoCodes();
    }
  }

  lemma TwoCodes()
    ensures PROJECT_COUNT_DROP != BINDING_COUNT_DROP
    ensures ShrinkCodes([PROJECT_COUNT_DROP]) == [PROJECT_COUNT_DROP]
    ensures ShrinkCodes([BINDING_COUNT_DROP]) == [BINDING_COUNT_DROP]
    ensures ShrinkCodes([PROJECT_COUNT_DROP] + [BINDING_COUNT_DROP]) == [PROJECT_COUNT_DROP, BINDING_COUNT_DROP]
  {
    assert PROJECT_COUNT_DROP[0] != BINDING_COUNT_DROP[0];
    ShrinkCodesConcat([PROJECT_COUNT_DROP], [BINDING_COUNT_DROP]);
    assert [PROJECT_COUNT_DROP][1..] == [] && [BINDING_COUNT_DROP][1..] == [];
  }

  /**
   A plan can be accepted exactly when the state passed every check of its own and only the
   comparison with a verified, passing baseline stood in its way: another schema, or a drop. A
   missing state file is never acceptable.
   */
  lemma AcceptableIs(raw: Report, baseline: Option<Manifest>, baselinePayload: bool, payload: bool, resolved: bool, verified: bool, p: Policy)
    requires Raw(raw)
    ensures Acceptable(AcceptPlan(baseline, baselinePayload, Some(Assess(raw, baseline, verified, p)), payload, resolved)) <==>
      payload && resolved && baselinePayload && (SchemasDiffer(raw, baseline, verified, p) || CountsDrop(raw, baseline, verified, p))
    ensures !Acceptable(AcceptPlan(baseline, baselinePayload, None, payload, resolved))
  {
    hide ShrinkCodes, Tolerated, Assess;
    SchemaChangeIs(raw, baseline, verified, p);
    SuspiciousIs(raw, baseline, verified, p);
  }

  /**
   The way out works: what an acceptable plan commits is a passing report, and with it as the
   baseline the same raw report passes the assessment unchanged.
   */
  lemma AcceptedBecomesBaseline(raw: Report, baseline: Option<Manifest>, verified: bool, p: Policy,
                                id: string, generation: nat, sha: string)
    requires Raw(raw) && (SchemasDiffer(raw, baseline, verified, p) || CountsDrop(raw, baseline, verified, p))
    ensures var accepted := AcceptedValidation(Assess(raw, baseline, verified, p));
      && accepted.Some? && accepted.value.status == PassWithWarning
      && accepted.value.projects == raw.projects && accepted.value.bindings == raw.bindings && accepted.value.schema == raw.schema
      && (SchemasDiffer(raw, baseline, verified, p) ==> accepted.value.codes == raw.codes + [SCHEMA_CHANGE_ACCEPTED])
      && (CountsDrop(raw, baseline, verified, p) ==>
            accepted.value.codes == Assess(raw, baseline, verified, p).codes + [SHRINK_ACCEPTED])
      && (BuildManifest(id, generation, sha, accepted.value, baseline).Success? ==>
            Assess(raw, Some(BuildManifest(id, generation, sha, accepted.value, baseline).value), true, p) == raw)
  {
    SuspiciousIs(raw, baseline, verified, p);
    var c := Assess(raw, baseline, verified, p);
    if SchemasDiffer(raw, baseline, verified, p) {
      SchemaChangeIs(raw, baseline, verified, p);
      assert c.codes[..|c.codes| - 1] == raw.codes;
    }
    assert !IsSuspiciousDrop(raw.projects.value, raw.projects.value, p);
    assert !IsSuspiciousDrop(raw.bindings.value, raw.bindings.value, p);
  }

  // ------------------------------------------------------------------ the explanation

  type Roots = map<string, set<string>>

  /** Counts only: which projects went or came, and why bindings were lost. */
  datatype Explanation = Explanation(
    replaced: nat, removed: nat, added: nat, toReplaced: nat, toRemoved: nat, dropped: nat)

  /** The project is gone while its roots live on under another id. */
  predicate IsReplaced(before: Roots, after: Roots, project: string) {
    project in before && project !in after && before[project] != {} && before[project] in after.Values
  }

  predicate IsRemoved(before: Roots, after: Roots, project: string) {
    project in before && project !in after && !IsReplaced(before, after, project)
  }

  predicate IsAdded(before: Roots, after: Roots, project: string) {
    project in after && project !in before && !(after[project] != {} && after[project] in before.Values)
  }

  /** A binding whose thread has none now. */
  predicate IsLost(bound: map<string, string>, now: map<string, string>, thread: string) { thread in bound && thread !in now }

  function LostBindings(bound: map<string, string>, now: map<string, string>): set<string> {
    set thread | thread in bound && IsLost(bound, now, thread)
  }

  /** Why a thread lost its binding, if it did. */
  datatype Reason = StillBound | ToReplaced | ToRemoved | WasDropped

  function ReasonFor(before: Roots, after: Roots, bound: map<string, string>, now: map<string, string>, thread: string): Reason
    requires thread in bound
  {
    if thread in now then StillBound
    else if IsReplaced(before, after, bound[thread]) then ToReplaced
    else if IsRemoved(before, after, bound[thread]) || bound[thread] !in before then ToRemoved
    else WasDropped
  }

  function Those(before: Roots, after: Roots, bound: map<string, string>, now: map<string, string>, threads: set<string>, why: Reason): set<string> {
    set t | t in threads && t in bound && ReasonFor(before, after, bound, now, t) == why
  }

  /** The loop over the bindings of the state before. */
  method CountLost(before: Roots, after: Roots, bound: map<string, string>, now: map<string, string>)
    returns (toReplaced: nat, toRemoved: nat, dropped: nat)
    ensures toReplaced == |Those(before, after, bound, now, bound.Keys, ToReplaced)|
    ensures toRemoved == |Those(before, after, bound, now, bound.Keys, ToRemoved)|
    ensures dropped == |Those(before, after, bound, now, bound.Keys, WasDropped)|
  {
    hide Those, ReasonFor;
    toReplaced, toRemoved, dropped := 0, 0, 0;
    var rest := bound.Keys;
    NoThreads(before, after, bound, now);
    assert bound.Keys - rest == {};
    while rest != {}
      invariant rest <= bound.Keys
      invariant toReplaced == |Those(before, after, bound, now, bound.Keys - rest, ToReplaced)|
      invariant toRemoved == |Those(before, after, bound, now, bound.Keys - rest, ToRemoved)|
      invariant dropped == |Those(before, after, bound, now, bound.Keys - rest, WasDropped)|
    {
      var thread :| thread in rest;
      ghost var done := bound.Keys - rest;
      rest := rest - {thread};
      OneMoreThread(before, after, bound, now, done, thread);
      assert bound.Keys - rest == done + {thread};
      match ReasonFor(before, after, bound, now, thread) {
        case StillBound =>
        case ToReplaced => toReplaced := toReplaced + 1;
        case ToRemoved => toRemoved := toRemoved + 1;
        case WasDropped => dropped := dropped + 1;
      }
    }
    assert bound.Keys - {} == bound.Keys;
  }

  lemma NoThreads(before: Roots, after: Roots, bound: map<string, string>, now: map<string, string>)
    ensures forall why :: Those(before, after, bound, now, {}, why) == {}
  {
  }

  lemma OneMoreThread(before: Roots, after: Roots, bound: map<string, string>, now: map<string, string>, done: set<string>, thread: string)
    requires thread in bound && thread !in done
    ensures forall why ::
      |Those(before, after, bound, now, done + {thread}, why)|
      == |Those(before, after, bound, now, done, why)| + if ReasonFor(before, after, bound, now, thread) == why then 1 else 0
  {
    hide Those, ReasonFor;
    forall why
      ensures |Those(before, after, bound, now, done + {thread}, why)|
           == |Those(before, after, bound, now, done, why)| + if ReasonFor(before, after, bound, now, thread) == why then 1 else 0
    {
      ThoseWith(before, after, bound, now, done, thread, why);
    }
  }

  lemma ThoseWith(before: Roots, after: Roots, bound: map<string, string>, now: map<string, string>, done: set<string>, thread: string, why: Reason)
    requires thread in bound && thread !in done
    ensures Those(before, after, bound, now, done + {thread}, why)
         == Those(before, after, bound, now, done, why) + if ReasonFor(before, after, bound, now, thread) == why then {thread} else {}
    ensures thread !in Those(before, after, bound, now, done, why)
  {
    hide ReasonFor;
  }

  /** Every lost binding has exactly one reason. */
  lemma ReasonsPartition(before: Roots, after: Roots, bound: map<string, string>, now: map<string, string>)
    ensures |LostBindings(bound, now)|
      == |Those(before, after, bound, now, bound.Keys, ToReplaced)| + |Those(before, after, bound, now, bound.Keys, ToRemoved)|
       + |Those(before, after, bound, now, bound.Keys, WasDropped)|
  {
    hide Those;
    var a, b, c := Those(before, after, bound, now, bound.Keys, ToReplaced), Those(before, after, bound, now, bound.Keys, ToRemoved),
      Those(before, after, bound, now, bound.Keys, WasDropped);
    ReasonsDisjoint(before, after, bound, now);
    assert |a + b| == |a| + |b|;
  }

  lemma ReasonsDisjoint(before: Roots, after: Roots, bound: map<string, string>, now: map<string, string>)
    ensures var a, b, c := Those(before, after, bound, now, bound.Keys, ToReplaced), Those(before, after, bound, now, bound.Keys, ToRemoved),
        Those(before, after, bound, now, bound.Keys, WasDropped);
      a !! b && (a + b) !! c && LostBindings(bound, now) == a + b + c
  {
    hide ReasonFor;
    ReasonIsLoss(before, after, bound, now);
  }

  lemma ReasonIsLoss(before: Roots, after: Roots, bound: map<string, string>, now: map<string, string>)
    ensures forall t | t in bound :: ReasonFor(before, after, bound, now, t) == StillBound <==> t in now
  {
  }

  /** A binding was dropped exactly when its project is still there. */
  lemma DroppedIs(before: Roots, after: Roots, bound: map<string, string>, now: map<string, string>)
    ensures Those(before, after, bound, now, bound.Keys, WasDropped)
         == set t | t in bound && t !in now && bound[t] in before && bound[t] in after
  {
  }

  function Replaced(before: Roots, after: Roots): set<string> {
    set q | q in before.Keys - after.Keys && before[q] != {} && before[q] in after.Values
  }

  function Added(before: Roots, after: Roots): set<string> {
    set q | q in after && q !in before && !(after[q] != {} && after[q] in before.Values)
  }

  lemma ProjectsSplit(before: Roots, after: Roots)
    ensures Replaced(before, after) == set q | q in before && IsReplaced(before, after, q)
    ensures Replaced(before, after) <= before.Keys - after.Keys
    ensures Added(before, after) == set q | q in after && IsAdded(before, after, q)
  {
  }

  /** New ids whose roots stood under some id before: neither side of the explanation counts them. */
  function Recreated(before: Roots, after: Roots): set<string> {
    set q | q in after && q !in before && after[q] != {} && after[q] in before.Values
  }

  lemma ProjectsBalance(before: Roots, after: Roots)
    ensures |after| == |before| - |before.Keys - after.Keys| + |Added(before, after)| + |Recreated(before, after)|
  {
    hide Added, Recreated;
    NewOnes(before, after);
    KeysBalance(before.Keys, after.Keys);
    assert |Added(before, after) + Recreated(before, after)| == |Added(before, after)| + |Recreated(before, after)|;
  }

  lemma KeysBalance(before: set<string>, after: set<string>)
    ensures |after| == |before| - |before - after| + |after - before|
  {
    assert before == (before * after) + (before - after);
    assert after == (before * after) + (after - before);
  }

  lemma NewOnes(before: Roots, after: Roots)
    ensures after.Keys - before.Keys == Added(before, after) + Recreated(before, after)
    ensures Added(before, after) !! Recreated(before, after)
  {
  }

  /** `_explain`, on the projects' roots and the bindings as read from the two states. */
  method Explain(before: Roots, after: Roots, bound: map<string, string>, now: map<string, string>) returns (e: Explanation)
    ensures e.replaced == |set q | q in before && IsReplaced(before, after, q)|
    ensures e.replaced + e.removed == |before.Keys - after.Keys|
    ensures e.added == |set q | q in after && IsAdded(before, after, q)|
    ensures |after| == |before| - e.replaced - e.removed + e.added + |Recreated(before, after)|
    ensures e.toReplaced + e.toRemoved + e.dropped == |LostBindings(bound, now)|
    ensures e.toReplaced == |Those(before, after, bound, now, bound.Keys, ToReplaced)|
    ensures e.dropped == |set t | t in bound && t !in now && bound[t] in before && bound[t] in after|
  {
    hide Those, LostBindings, IsReplaced, IsAdded, Replaced, Added, Recreated;
    var gone := before.Keys - after.Keys;
    var replaced := Replaced(before, after);
    var removed := gone - replaced;
    var added := Added(before, after);
    ProjectsSplit(before, after);
    ProjectsBalance(before, after);
    assert gone == replaced + removed;
    var toReplaced, toRemoved, dropped := CountLost(before, after, bound, now);
    ReasonsPartition(before, after, bound, now);
    DroppedIs(before, after, bound, now);
    e := Explanation(|replaced|, |removed|, |added|, toReplaced, toRemoved, dropped);
  }
}
