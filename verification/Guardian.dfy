/**
 Guardian's shrink rule and its manifests: the assessment of a candidate against a baseline, the
 construction of a manifest with its predecessor, and what any run of automatic commits keeps.
 */
module Guardian {
  import opened Wrappers

  datatype Status = Pass | PassWithWarning | Suspicious | Invalid | Indeterminate

  datatype Report = Report(status: Status, codes: seq<string>, projects: Option<nat>, bindings: Option<nat>, schema: Option<string>)

  /** The parts of a manifest the rules read. */
  datatype Manifest = Manifest(
    id: string, generation: nat, sha: string, status: Status, codes: seq<string>, projects: nat, bindings: nat,
    schema: Option<string>, previousId: Option<string>, previousSha: Option<string>)

  predicate Passing(s: Status) { s == Pass || s == PassWithWarning }

  datatype Policy = Policy(minCount: int, ratio: real)

  predicate ValidPolicy(p: Policy) { p.minCount >= 1 && 0.0 <= p.ratio <= 1.0 }

  const PROJECT_COUNT_DROP := "PROJECT_COUNT_DROP"
  const BINDING_COUNT_DROP := "BINDING_COUNT_DROP"
  const BASELINE_UNVERIFIED := "BASELINE_UNVERIFIED"
  const BASELINE_SCHEMA_MISMATCH := "BASELINE_SCHEMA_MISMATCH"
  const UNKNOWN_SCHEMA := "UNKNOWN_SCHEMA"

  predicate Known(schema: Option<string>) { schema.Some? && schema.value != "" }

  predicate IsSuspiciousDrop(baseline: nat, candidate: nat, p: Policy) {
    if baseline == 0 || candidate >= baseline then false
    else if candidate == 0 then true
    else baseline - candidate >= p.minCount && (baseline - candidate) as real / baseline as real >= p.ratio
  }

  function HeldBack(c: Report, code: string): Report { c.(status := Indeterminate, codes := c.codes + [code]) }

  /** `assess_suspicious_shrink`. */
  function Assess(c: Report, baseline: Option<Manifest>, verified: bool, p: Policy): Report {
    if !ValidPolicy(p) then Report(Indeterminate, [BASELINE_UNVERIFIED], None, None, None)
    else if !Passing(c.status) || baseline.None? then c
    else
      var b := baseline.value;
      if !verified || !Passing(b.status) then HeldBack(c, BASELINE_UNVERIFIED)
      else if !Known(c.schema) || !Known(b.schema) then HeldBack(c, UNKNOWN_SCHEMA)
      else if c.schema != b.schema then HeldBack(c, BASELINE_SCHEMA_MISMATCH)
      else if c.projects.None? || c.bindings.None? then HeldBack(c, UNKNOWN_SCHEMA)
      else
        var drops := (if IsSuspiciousDrop(b.projects, c.projects.value, p) then [PROJECT_COUNT_DROP] else [])
                   + (if IsSuspiciousDrop(b.bindings, c.bindings.value, p) then [BINDING_COUNT_DROP] else []);
        if drops != [] then c.(status := Suspicious, codes := c.codes + drops) else c
  }

  /** A count that an automatic commit may lead to. */
  predicate Tolerated(baseline: nat, candidate: nat, p: Policy) {
    && (baseline > 0 ==> candidate > 0)
    && (candidate < baseline ==>
          baseline - candidate < p.minCount || ((baseline - candidate) as real) < p.ratio * (baseline as real))
  }

  /** The two readings of the threshold, a quotient and a product, agree. */
  lemma ToleratedIs(baseline: nat, candidate: nat, p: Policy)
    ensures Tolerated(baseline, candidate, p) <==> !IsSuspiciousDrop(baseline, candidate, p)
  {
  }

  /** What passing the assessment against a baseline means; it never passes across schemas. */
  lemma PassingMeans(c: Report, b: Manifest, verified: bool, p: Policy)
    ensures Passing(Assess(c, Some(b), verified, p).status) <==>
      && ValidPolicy(p) && Passing(c.status) && verified && Passing(b.status)
      && Known(c.schema) && c.schema == b.schema && c.projects.Some? && c.bindings.Some?
      && Tolerated(b.projects, c.projects.value, p) && Tolerated(b.bindings, c.bindings.value, p)
    ensures Passing(Assess(c, Some(b), verified, p).status) ==> Assess(c, Some(b), verified, p) == c
  {
    if c.projects.Some? && c.bindings.Some? {
      ToleratedIs(b.projects, c.projects.value, p);
      ToleratedIs(b.bindings, c.bindings.value, p);
    }
  }

  // ------------------------------------------------------------------ manifests

  datatype GuardianError = BadGeneration | NeedsPredecessor | NotPastPredecessor | NoCount | NotPassing | Mismatched

  /** `_validate_predecessor`; a predecessor is itself checked without its own. */
  predicate PredecessorFits(m: Manifest, predecessor: Option<Manifest>)
    decreases if predecessor.Some? then 1 else 0
  {
    && (m.previousId.None? <==> m.previousSha.None?)
    && (m.generation == 1 <==> m.previousId.None?)
    && (m.generation == 1 ==> predecessor.None?)
    && (predecessor.Some? ==> PredecessorFits(predecessor.value, None))
    && (predecessor.Some? ==> predecessor.value.generation < m.generation)
    && (predecessor.Some? ==> m.previousId == Some(predecessor.value.id) && m.previousSha == Some(predecessor.value.sha))
  }

  /** `build_guardian_manifest`, for a stable observation. */
  function BuildManifest(id: string, generation: nat, sha: string, v: Report, previous: Option<Manifest>): Result<Manifest, GuardianError> {
    if generation < 1 then Failure(BadGeneration)
    else if previous.None? && generation != 1 then Failure(NeedsPredecessor)
    else if previous.Some? && previous.value.generation >= generation then Failure(NotPastPredecessor)
    else if v.projects.None? || v.bindings.None? then Failure(NoCount)
    else
      var m := Manifest(id, generation, sha, v.status, v.codes, v.projects.value, v.bindings.value, v.schema,
                        if previous.Some? then Some(previous.value.id) else None,
                        if previous.Some? then Some(previous.value.sha) else None);
      if PredecessorFits(m, previous) then Success(m) else Failure(Mismatched)
  }

  /** The final check refuses nothing that the first ones let through, given a sound predecessor. */
  lemma BuiltWhen(id: string, generation: nat, sha: string, v: Report, previous: Option<Manifest>)
    requires previous.Some? ==> PredecessorFits(previous.value, None) && previous.value.generation >= 1
    ensures BuildManifest(id, generation, sha, v, previous).Success? <==>
      && generation >= 1 && v.projects.Some? && v.bindings.Some?
      && (if previous.None? then generation == 1 else previous.value.generation < generation)
    ensures BuildManifest(id, generation, sha, v, previous).Success? ==>
      PredecessorFits(BuildManifest(id, generation, sha, v, previous).value, previous)
  {
  }

  // ------------------------------------------------------------------ runs of automatic commits

  /** Every manifest ever committed, by snapshot id, and the one `latest-good` names. */
  datatype Store = Store(history: map<string, Manifest>, latest: Option<string>)

  datatype Step =
    | Commit(raw: Report, id: string, generation: nat, sha: string)
    | Repoint(id: string)                       // the pointer is rebuilt and names another snapshot

  function Baseline(s: Store): Option<Manifest> {
    if s.latest.Some? && s.latest.value in s.history then Some(s.history[s.latest.value]) else None
  }

  /** A commit happens only when the assessment passes and the manifest can be built; ids are fresh. */
  predicate Legal(s: Store, step: Step, p: Policy) {
    match step
    case Commit(raw, id, generation, sha) =>
      && id !in s.history
      && (s.latest.None? ==> s.history == map[])
      && Passing(Assess(raw, Baseline(s), true, p).status)
      && BuildManifest(id, generation, sha, Assess(raw, Baseline(s), true, p), Baseline(s)).Success?
    case Repoint(id) => id in s.history
  }

  function Next(s: Store, step: Step, p: Policy): Store
    requires Legal(s, step, p)
  {
    match step
    case Commit(raw, id, generation, sha) =>
      Store(s.history[id := BuildManifest(id, generation, sha, Assess(raw, Baseline(s), true, p), Baseline(s)).value], Some(id))
    case Repoint(id) => s.(latest := Some(id))
  }

  predicate Run(s: Store, steps: seq<Step>, p: Policy)
    decreases |steps|
  {
    steps == [] || (Legal(s, steps[0], p) && Run(Next(s, steps[0], p), steps[1..], p))
  }

  function After(s: Store, steps: seq<Step>, p: Policy): Store
    requires Run(s, steps, p)
    decreases |steps|
  {
    if steps == [] then s else After(Next(s, steps[0], p), steps[1..], p)
  }

  /** A manifest fits the predecessor it names. */
  predicate Follows(m: Manifest, before: Manifest, p: Policy) {
    && before.generation < m.generation && m.previousSha == Some(before.sha)
    && Known(m.schema) && m.schema == before.schema
    && Tolerated(before.projects, m.projects, p) && Tolerated(before.bindings, m.bindings, p)
  }

  predicate Sound(s: Store, p: Policy) {
    && (s.latest.Some? ==> s.latest.value in s.history)
    && forall id | id in s.history ::
      var m := s.history[id];
      && m.id == id && m.generation >= 1 && Passing(m.status) && PredecessorFits(m, None)
      && match m.previousId
         case None => true
         case Some(before) => before in s.history && Follows(m, s.history[before], p)
  }

  lemma StepSound(s: Store, step: Step, p: Policy)
    requires Sound(s, p) && Legal(s, step, p)
    ensures Sound(Next(s, step, p), p)
    ensures forall id | id in s.history :: id in Next(s, step, p).history && Next(s, step, p).history[id] == s.history[id]
  {
    hide Tolerated, IsSuspiciousDrop;
    match step
    case Repoint(_) =>
    case Commit(raw, id, generation, sha) =>
      if Baseline(s).Some? {
        PassingMeans(raw, Baseline(s).value, true, p);
        BuiltWhen(id, generation, sha, raw, Baseline(s));
      }
  }

  lemma {:induction false} RunSound(s: Store, steps: seq<Step>, p: Policy)
    requires Sound(s, p) && Run(s, steps, p)
    ensures Sound(After(s, steps, p), p)
    decreases |steps|
  {
    hide Sound, Legal;
    if steps != [] {
      StepSound(s, steps[0], p);
      RunSound(Next(s, steps[0], p), steps[1..], p);
    }
  }

  /** A snapshot and all it was built on, newest first. */
  function Chain(s: Store, id: string, p: Policy): seq<Manifest>
    requires Sound(s, p) && id in s.history
    decreases s.history[id].generation
  {
    var m := s.history[id];
    [m] + if m.previousId.None? then [] else Chain(s, m.previousId.value, p)
  }

  predicate GenerationsFall(chain: seq<Manifest>) {
    forall j, k | 0 <= j < k < |chain| :: chain[j].generation > chain[k].generation
  }

  /**
   Chains of predecessors are finite and without repetition: generations fall strictly along them,
   down to a first snapshot, and a chain is no longer than its newest generation.
   */
  lemma {:induction false} ChainsEnd(s: Store, id: string, p: Policy)
    requires Sound(s, p) && id in s.history
    ensures var chain := Chain(s, id, p);
      && 0 < |chain| <= s.history[id].generation && chain[0] == s.history[id]
      && GenerationsFall(chain)
      && chain[|chain| - 1].generation == 1
    decreases s.history[id].generation
  {
    hide Follows;
    var m := s.history[id];
    if m.previousId.Some? {
      PreviousIs(s, id, p);
      ChainsEnd(s, m.previousId.value, p);
      var rest := Chain(s, m.previousId.value, p);
      assert Chain(s, id, p) == [m] + rest;
      assert forall k | 0 <= k < |rest| :: rest[k].generation <= rest[0].generation;
    }
  }

  lemma PreviousIs(s: Store, id: string, p: Policy)
    requires Sound(s, p) && id in s.history && s.history[id].previousId.Some?
    ensures s.history[id].previousId.value in s.history
    ensures Follows(s.history[id], s.history[s.history[id].previousId.value], p)
    ensures s.history[s.history[id].previousId.value].generation < s.history[id].generation
  {
  }

  /** No step of the chain is a suspicious drop. */
  predicate StepsTolerated(chain: seq<Manifest>, p: Policy) {
    forall k | 0 < k < |chain| ::
      Tolerated(chain[k].projects, chain[k - 1].projects, p) && Tolerated(chain[k].bindings, chain[k - 1].bindings, p)
  }

  /** What was ever positive in the chain is positive at its newest end. */
  predicate Survives(chain: seq<Manifest>) {
    forall k | 0 <= k < |chain| ::
      (chain[k].projects > 0 ==> chain[0].projects > 0) && (chain[k].bindings > 0 ==> chain[0].bindings > 0)
  }

  lemma Prepend(m: Manifest, rest: seq<Manifest>, p: Policy)
    requires rest != [] && StepsTolerated(rest, p) && Survives(rest)
    requires Tolerated(rest[0].projects, m.projects, p) && Tolerated(rest[0].bindings, m.bindings, p)
    ensures StepsTolerated([m] + rest, p) && Survives([m] + rest)
  {
    var chain := [m] + rest;
    assert forall k | 0 <= k < |chain| :: chain[k] == if k == 0 then m else rest[k - 1];
    assert rest[0].projects > 0 ==> m.projects > 0;
    hide Tolerated;
  }

  /**
   Along every chain, a project or binding count that was ever positive is still positive, and
   each step down is below the smallest suspicious count or below the suspicious share.
   */
  lemma {:induction false} NothingVanishes(s: Store, id: string, p: Policy)
    requires Sound(s, p) && id in s.history
    ensures StepsTolerated(Chain(s, id, p), p) && Survives(Chain(s, id, p))
    decreases s.history[id].generation
  {
    hide Sound, Tolerated, StepsTolerated, Survives;
    var m := s.history[id];
    if m.previousId.Some? {
      PreviousIs(s, id, p);
      NothingVanishes(s, m.previousId.value, p);
      Prepend(m, Chain(s, m.previousId.value, p), p);
    } else {
      Alone(m, p);
    }
  }

  lemma Alone(m: Manifest, p: Policy)
    ensures StepsTolerated([m], p) && Survives([m])
    ensures [m] + [] == [m]
  {
  }

  /** All of it for every state any run of automatic commits reaches. */
  lemma AutomaticCommitsAreSafe(steps: seq<Step>, p: Policy, id: string)
    requires Run(Store(map[], None), steps, p) && id in After(Store(map[], None), steps, p).history
    ensures Sound(After(Store(map[], None), steps, p), p)
    ensures var chain := Chain(After(Store(map[], None), steps, p), id, p);
      GenerationsFall(chain) && Survives(chain) && StepsTolerated(chain, p)
  {
    hide Tolerated, Legal, Survives, StepsTolerated, GenerationsFall;
    RunSound(Store(map[], None), steps, p);
    ChainsEnd(After(Store(map[], None), steps, p), id, p);
    NothingVanishes(After(Store(map[], None), steps, p), id, p);
  }
}
