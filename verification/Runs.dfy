/** Runs of a protocol given by what an action does and when the rules allow it. */
module Runs {
  datatype Protocol<!S, !A> = Protocol(next: (S, A) -> S, legal: (S, A) -> bool)

  /** The state after a run. */
  function Replay<S, A>(p: Protocol<S, A>, s: S, run: seq<A>): S {
    if run == [] then s else p.next(Replay(p, s, run[..|run| - 1]), run[|run| - 1])
  }

  /** Every action of the run is allowed in the state it happens in. */
  predicate LegalRun<S, A>(p: Protocol<S, A>, s: S, run: seq<A>) {
    run == [] || (LegalRun(p, s, run[..|run| - 1]) && p.legal(Replay(p, s, run[..|run| - 1]), run[|run| - 1]))
  }

  lemma {:induction false} PrefixLegal<S, A>(p: Protocol<S, A>, s: S, run: seq<A>, n: nat)
    requires LegalRun(p, s, run) && n <= |run|
    ensures LegalRun(p, s, run[..n])
    decreases |run|
  {
    if n < |run| {
      PrefixLegal(p, s, run[..|run| - 1], n);
      assert run[..|run| - 1][..n] == run[..n];
    } else {
      assert run[..n] == run;
    }
  }

  lemma Append<S, A>(p: Protocol<S, A>, s: S, run: seq<A>, a: A)
    ensures Replay(p, s, run + [a]) == p.next(Replay(p, s, run), a)
    ensures LegalRun(p, s, run + [a]) <==> LegalRun(p, s, run) && p.legal(Replay(p, s, run), a)
  {
    assert (run + [a])[..|run|] == run;
  }
}
