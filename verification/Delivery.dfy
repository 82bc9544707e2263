/** The bounded wait for another machine's files: `_wait_for_delivery`. */
module Delivery {
  /** A monotonic clock that advances by at least what was slept, and by any amount between calls. */
  class Clock {
    var now: real
    ghost var slept: real          // the sum of the sleeps requested
    ghost var sleeps: seq<real>    // each of them

    constructor (start: real)
      ensures now == start && slept == 0.0 && sleeps == []
    {
      now, slept, sleeps := start, 0.0, [];
    }

    method Monotonic() returns (t: real)
      modifies this`now
      ensures t == now >= old(now)
    {
      var passed: real := *;
      if passed > 0.0 { now := now + passed; }
      t := now;
    }

    method Sleep(seconds: real)
      requires seconds >= 0.0
      modifies this
      ensures now >= old(now) + seconds && slept == old(slept) + seconds
      ensures sleeps == old(sleeps) + [seconds]
    {
      var longer: real := *;
      now := now + seconds + if longer > 0.0 then longer else 0.0;
      slept, sleeps := slept + seconds, sleeps + [seconds];
    }
  }

  /** One turn of the loop: what was late, and how long had been waited when that was judged. */
  datatype Check = Check(late: set<string>, waited: real)

  datatype Outcome = Delivered(waited: real) | NotDelivered(late: set<string>)

  /** `wait / poll` rounded up: the least number of polls that cover the wait. */
  function Polls(wait: real, poll: real): nat
    requires poll > 0.0
  {
    if wait <= 0.0 then 0
    else
      var n := (wait / poll).Floor;
      if n as real == wait / poll then n else n + 1
  }

  /** `n` polls' worth of seconds. */
  function Times(n: int, poll: real): real { n as real * poll }

  lemma TimesIs(n: int, a: real, poll: real)
    requires poll > 0.0
    ensures a <= n as real ==> a * poll <= Times(n, poll)
    ensures n as real < a ==> Times(n, poll) < a * poll
    ensures Times(n + 1, poll) == Times(n, poll) + poll
    ensures Times(0, poll) == 0.0
  {
    var x := n as real;
    assert (n + 1) as real == x + 1.0;
    assert (x + 1.0) * poll == x * poll + poll;
    if a <= x { assert (x - a) * poll >= 0.0; }
    if x < a { assert (a - x) * poll > 0.0; }
  }

  lemma PollsCover(wait: real, poll: real)
    requires poll > 0.0
    ensures wait <= Times(Polls(wait, poll), poll)
    ensures Polls(wait, poll) > 0 ==> Times(Polls(wait, poll) - 1, poll) < wait
  {
    hide Times;
    var n := Polls(wait, poll);
    TimesIs(0, 0.0, poll);
    if wait > 0.0 {
      var q := wait / poll;
      assert q * poll == wait;
      TimesIs(n, q, poll);
      TimesIs(n - 1, q, poll);
      assert q <= n as real;
      assert (n - 1) as real < q;
    }
  }

  lemma {:induction false} TimesGrows(a: nat, b: nat, poll: real)
    requires a <= b && poll > 0.0
    ensures Times(a, poll) <= Times(b, poll)
    decreases b
  {
    hide Times;
    if a < b {
      TimesGrows(a, b - 1, poll);
      TimesIs(b - 1, 0.0, poll);
    }
  }

  /** How the checks of one call may look: all but the last found something late before the deadline. */
  predicate Waited(checks: seq<Check>, wait: real) {
    forall k | 0 <= k < |checks| - 1 :: checks[k].late != {} && checks[k].waited < wait
  }

  /**
   `arrived` says what is there at each look, counted in order. The sleeps requested total at most
   the wait, there are at most as many checks as polls cover it plus one, the call returns exactly
   when its last check found everything delivered, and it raises exactly when its last check found
   something late at or past the deadline. Between two checks it sleeps once, for one poll or what
   is left of the wait when that is less.
   */
  method WaitForDelivery(clock: Clock, pending: set<string>, arrived: nat -> set<string>, wait: real, poll: real) returns (r: Outcome, ghost checks: seq<Check>)
    requires poll > 0.0
    modifies clock
    ensures clock.slept - old(clock.slept) <= if wait > 0.0 then wait else 0.0
    ensures 1 <= |checks| <= Polls(wait, poll) + 1
    ensures Waited(checks, wait)
    ensures var last := checks[|checks| - 1];
      r == if last.late == {} then Delivered(last.waited) else NotDelivered(last.late)
    ensures |clock.sleeps| == |old(clock.sleeps)| + |checks| - 1 && old(clock.sleeps) <= clock.sleeps
    ensures forall k | 0 <= k < |checks| - 1 ::
      var left := wait - checks[k].waited;
      clock.sleeps[|old(clock.sleeps)| + k] == if poll < left then poll else left
    ensures r.NotDelivered? ==> checks[|checks| - 1].waited >= wait
    ensures forall k | 0 <= k < |checks| :: checks[k].late == pending - arrived(k) && checks[k].waited >= 0.0
    ensures clock.slept - old(clock.slept) <= checks[|checks| - 1].waited <= clock.now - old(clock.now)
  {
    hide Polls, Times;
    checks := [];
    var looks := 0;
    TimesIs(0, 0.0, poll);
    ghost var before, earlier := clock.slept, clock.sleeps;
    var started := clock.Monotonic();
    while true
      invariant old(clock.now) <= started <= clock.now
      invariant clock.slept - before <= clock.now - started
      invariant 0.0 <= clock.slept - before && clock.slept - before <= if wait > 0.0 then wait else 0.0
      invariant |checks| <= Polls(wait, poll)
      invariant |clock.sleeps| == |earlier| + |checks| && earlier <= clock.sleeps
      invariant forall k | 0 <= k < |checks| ::
        var left := wait - checks[k].waited;
        clock.sleeps[|earlier| + k] == if poll < left then poll else left
      invariant Times(|checks|, poll) <= clock.now - started || clock.now - started >= wait
      invariant forall k | 0 <= k < |checks| :: checks[k].late != {} && checks[k].waited < wait
      invariant looks == |checks|
      invariant forall k | 0 <= k < |checks| :: checks[k].late == pending - arrived(k) && checks[k].waited >= 0.0
      decreases Polls(wait, poll) - |checks|
    {
      var late := pending - arrived(looks);
      looks := looks + 1;
      var t := clock.Monotonic();
      var waited := t - started;
      ghost var sofar := |checks|;
      checks := checks + [Check(late, waited)];
      if late == {} { return Delivered(waited), checks; }
      if waited >= wait { return NotDelivered(late), checks; }
      OnePollMore(sofar, waited, wait, poll);
      clock.Sleep(if poll < wait - waited then poll else wait - waited);
    }
  }

  /** A check before the deadline leaves room for another poll. */
  lemma OnePollMore(sofar: nat, waited: real, wait: real, poll: real)
    requires poll > 0.0 && waited < wait && Times(sofar, poll) <= waited
    ensures sofar + 1 <= Polls(wait, poll)
    ensures Times(sofar + 1, poll) == Times(sofar, poll) + poll
  {
    hide Polls, Times;
    PollsCover(wait, poll);
    TimesIs(sofar, 0.0, poll);
    if sofar >= Polls(wait, poll) {
      TimesGrows(Polls(wait, poll), sofar, poll);
    }
  }
}
