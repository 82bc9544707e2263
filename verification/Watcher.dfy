/**
 The handoff watcher's loop over process samples: it is an edge detector on the samples that can
 be told, and the events it emits alternate.
 */
module Watcher {
  datatype Sample = Running | Stopped | Unknown

  /** What the watcher does at a sample: records that Codex started, or attempts a handoff. */
  datatype Event = Started | Attempt(closing: bool)

  /** The samples after the first that can be told. */
  function Known(samples: seq<Sample>): (r: seq<Sample>)
    ensures forall s | s in r :: s != Unknown
  {
    if samples == [] then [] else (if samples[0] == Unknown then [] else [samples[0]]) + Known(samples[1..])
  }

  function First(sample: Sample): seq<Event> {
    match sample
    case Stopped => [Attempt(false)]
    case Running => [Started]
    case Unknown => []
  }

  /** What the step from one sample to the next calls for. */
  function Edge(before: Sample, now: Sample): seq<Event> {
    if now == Running && before != Running then [Started]
    else if now == Stopped && before == Running then [Attempt(true)]
    else []
  }

  /** The edges of a trace from its sample `i` on. */
  function Edges(trace: seq<Sample>, i: nat): seq<Event>
    requires 1 <= i
    decreases |trace| - i
  {
    if i >= |trace| then [] else Edge(trace[i - 1], trace[i]) + Edges(trace, i + 1)
  }

  /** What a trace calls for: the first sample, then its edges. */
  function Events(trace: seq<Sample>): seq<Event>
    requires trace != []
  {
    First(trace[0]) + Edges(trace, 1)
  }

  /** The trace without the samples after the first that cannot be told. */
  function Filtered(samples: seq<Sample>): seq<Sample>
    requires samples != []
  {
    [samples[0]] + Known(samples[1..])
  }

  /**
   The watcher's loop, over the samples it takes until it should stop: what it emits is what the
   edges of the filtered trace call for.
   */
  method WatchHandoff(samples: seq<Sample>) returns (events: seq<Event>)
    requires samples != []
    ensures events == Events(Filtered(samples))
  {
    hide Known, Events, Edges;
    var last := samples[0];
    events := First(last);
    ghost var trace := [last];
    AtFirst(last);
    assert samples[1..1] == [];
    for k := 1 to |samples|
      invariant trace == [samples[0]] + Known(samples[1..k])
      invariant last == trace[|trace| - 1]
      invariant events == Events(trace)
    {
      var state := samples[k];
      assert samples[1..k + 1] == samples[1..k] + [state];
      KnownMore(samples[1..k], state);
      if state == Unknown {
        continue;
      }
      EventsMore(trace, state);
      trace := trace + [state];
      if state == Running && last != Running {
        events := events + [Started];
      } else if state == Stopped && last == Running {
        events := events + [Attempt(true)];
      }
      last := state;
    }
    assert samples[1..|samples|] == samples[1..];
  }

  lemma AtFirst(sample: Sample)
    ensures Known([]) == [] && Events([sample]) == First(sample)
  {
  }

  lemma {:induction false} KnownMore(samples: seq<Sample>, s: Sample)
    ensures Known(samples + [s]) == Known(samples) + if s == Unknown then [] else [s]
    decreases |samples|
  {
    var more := if s == Unknown then [] else [s];
    if samples == [] {
      assert samples + [s] == [s] && [s][1..] == [];
      assert Known([]) == [] && more + [] == more && [] + more == more;
    } else {
      assert (samples + [s])[0] == samples[0] && (samples + [s])[1..] == samples[1..] + [s];
      KnownMore(samples[1..], s);
      var head := if samples[0] == Unknown then [] else [samples[0]];
      assert head + (Known(samples[1..]) + more) == (head + Known(samples[1..])) + more;
    }
  }

  lemma {:induction false} EdgesMore(trace: seq<Sample>, s: Sample, i: nat)
    requires 1 <= i <= |trace|
    ensures Edges(trace + [s], i) == Edges(trace, i) + Edge(trace[|trace| - 1], s)
    decreases |trace| - i
  {
    hide Edges, Edge;
    var more, last := trace + [s], Edge(trace[|trace| - 1], s);
    EdgesFrom(trace, i);
    EdgesFrom(more, i);
    if i < |trace| {
      EdgesMore(trace, s, i + 1);
      Joins(Edge(trace[i - 1], trace[i]), Edges(trace, i + 1), last);
    } else {
      EdgesFrom(more, i + 1);
      assert [] + last == last && last + [] == last;
    }
  }

  lemma EdgesFrom(trace: seq<Sample>, i: nat)
    requires 1 <= i
    ensures Edges(trace, i) == if i >= |trace| then [] else Edge(trace[i - 1], trace[i]) + Edges(trace, i + 1)
  {
  }

  lemma Joins(a: seq<Event>, b: seq<Event>, c: seq<Event>)
    ensures a + (b + c) == a + b + c
  {
  }

  lemma EventsMore(trace: seq<Sample>, s: Sample)
    requires trace != []
    ensures Events(trace + [s]) == Events(trace) + Edge(trace[|trace| - 1], s)
  {
    EdgesMore(trace, s, 1);
    Joins(First(trace[0]), Edges(trace, 1), Edge(trace[|trace| - 1], s));
  }

  // ------------------------------------------------------------------ samples that cannot be told

  /** The samples whose place in `keep` is marked. */
  function Kept(samples: seq<Sample>, keep: seq<bool>): seq<Sample>
    requires |samples| == |keep|
  {
    if samples == [] then [] else (if keep[0] then [samples[0]] else []) + Kept(samples[1..], keep[1..])
  }

  /** Taking any UNKNOWN samples after the first out of a trace changes no event. */
  lemma UnknownsDoNotMatter(samples: seq<Sample>, keep: seq<bool>)
    requires samples != [] && |samples| == |keep| && keep[0]
    requires forall k | 0 <= k < |samples| && !keep[k] :: samples[k] == Unknown
    ensures Kept(samples, keep) != []
    ensures Events(Filtered(Kept(samples, keep))) == Events(Filtered(samples))
  {
    KnownKept(samples[1..], keep[1..]);
    assert Kept(samples, keep)[1..] == Kept(samples[1..], keep[1..]);
  }

  lemma {:induction false} KnownKept(samples: seq<Sample>, keep: seq<bool>)
    requires |samples| == |keep|
    requires forall k | 0 <= k < |samples| && !keep[k] :: samples[k] == Unknown
    ensures Known(Kept(samples, keep)) == Known(samples)
  {
    if samples != [] {
      KnownKept(samples[1..], keep[1..]);
      var rest := Kept(samples[1..], keep[1..]);
      if keep[0] {
        assert ([samples[0]] + rest)[0] == samples[0] && ([samples[0]] + rest)[1..] == rest;
      } else {
        assert [] + rest == rest && [] + Known(samples[1..]) == Known(samples[1..]);
      }
    }
  }

  /** Removing one UNKNOWN sample after the first. */
  lemma {:induction false} OneUnknownLess(samples: seq<Sample>, k: nat)
    requires 1 <= k < |samples| && samples[k] == Unknown
    ensures Events(Filtered(samples)) == Events(Filtered(samples[..k] + samples[k + 1..]))
  {
    var less := samples[..k] + samples[k + 1..];
    assert less[1..] == samples[1..][..k - 1] + samples[1..][k..];
    DropUnknown(samples[1..], k - 1);
  }

  lemma {:induction false} DropUnknown(samples: seq<Sample>, k: nat)
    requires k < |samples| && samples[k] == Unknown
    ensures Known(samples[..k] + samples[k + 1..]) == Known(samples)
    decreases k
  {
    if k == 0 {
      assert samples[..0] + samples[1..] == samples[1..];
    } else {
      DropUnknown(samples[1..], k - 1);
      var less := samples[..k] + samples[k + 1..];
      assert less[0] == samples[0] && less[1..] == samples[1..][..k - 1] + samples[1..][k..];
    }
  }

  // ------------------------------------------------------------------ the events alternate

  /** A closing attempt only ever follows a start, and a start never follows a start. */
  predicate Alternates(events: seq<Event>) {
    forall k | 0 < k < |events| ::
      && (events[k] == Attempt(true) ==> events[k - 1] == Started)
      && (events[k] == Started ==> events[k - 1] != Started)
      && events[k] != Attempt(false)
  }

  /** The events alternate, do not begin with a closing attempt, and end in a start exactly when Codex runs. */
  predicate AlternateTo(events: seq<Event>, state: Sample) {
    && Alternates(events)
    && (events != [] ==> events[0] != Attempt(true))
    && (state == Running <==> events != [] && events[|events| - 1] == Started)
  }

  lemma AlternatesMore(events: seq<Event>, before: Sample, now: Sample)
    requires AlternateTo(events, before) && now != Unknown
    ensures AlternateTo(events + Edge(before, now), now)
  {
  }

  lemma FirstAlternates(sample: Sample)
    ensures AlternateTo(Events([sample]), sample)
  {
    assert Events([sample]) == First(sample);
  }

  lemma {:induction false} EventsAlternate(trace: seq<Sample>)
    requires trace != [] && forall k | 1 <= k < |trace| :: trace[k] != Unknown
    ensures AlternateTo(Events(trace), trace[|trace| - 1])
    decreases |trace|
  {
    hide *;
    var last := |trace| - 1;
    if last == 0 {
      assert trace == [trace[0]];
      FirstAlternates(trace[0]);
    } else {
      var front := trace[..last];
      assert trace == front + [trace[last]] && front[last - 1] == trace[last - 1];
      EventsAlternate(front);
      EventsMore(front, trace[last]);
      AlternatesMore(Events(front), front[last - 1], trace[last]);
    }
  }

  lemma FilteredIsKnown(samples: seq<Sample>)
    requires samples != []
    ensures forall i | 1 <= i < |Filtered(samples)| :: Filtered(samples)[i] != Unknown
  {
    var known := Known(samples[1..]);
    assert forall i | 0 <= i < |known| :: known[i] in known;
  }

  /** Between two closing attempts with none between them lies exactly one start, and nothing else. */
  lemma OneStartBetween(samples: seq<Sample>, j: nat, k: nat)
    requires samples != []
    requires var events := Events(Filtered(samples));
      j < k < |events| && events[j] == Attempt(true) && events[k] == Attempt(true)
      && forall i | j < i < k :: events[i] != Attempt(true)
    ensures k == j + 2 && Events(Filtered(samples))[j + 1] == Started
  {
    var trace := Filtered(samples);
    FilteredIsKnown(samples);
    EventsAlternate(trace);
    var events := Events(trace);
    assert events[k - 1] == Started;
    assert k - 2 > j ==> events[k - 2] != Started;
  }

  /** The attempt that is not closing is made exactly when Codex is stopped at the first sample, and then first. */
  lemma FirstAttempt(samples: seq<Sample>, k: nat)
    requires samples != [] && k < |Events(Filtered(samples))|
    ensures Events(Filtered(samples))[k] == Attempt(false) <==> k == 0 && samples[0] == Stopped
  {
    var trace := Filtered(samples);
    FilteredIsKnown(samples);
    EventsAlternate(trace);
    NotAtAnEdge(trace, 1);
    var edges := Edges(trace, 1);
    assert First(trace[0]) == [] ==> Events(trace) == edges;
    assert edges != [] ==> edges[0] in edges;
  }

  lemma {:induction false} NotAtAnEdge(trace: seq<Sample>, i: nat)
    requires 1 <= i
    ensures forall e | e in Edges(trace, i) :: e != Attempt(false)
    decreases |trace| - i
  {
    if i < |trace| { NotAtAnEdge(trace, i + 1); }
  }

  function Count(events: seq<Event>, e: Event): nat {
    if events == [] then 0 else Count(events[..|events| - 1], e) + if events[|events| - 1] == e then 1 else 0
  }

  /** RUNNING directly followed by STOPPED. */
  predicate IsClosingEdge(trace: seq<Sample>, k: int) { 1 <= k < |trace| && trace[k - 1] == Running && trace[k] == Stopped }

  /** Closing attempts are made exactly at the RUNNING-to-STOPPED edges of the filtered trace: there are as many. */
  lemma {:induction false} ClosingAttemptsAreEdges(trace: seq<Sample>)
    requires trace != []
    ensures Count(Events(trace), Attempt(true)) == |set k | 1 <= k < |trace| && IsClosingEdge(trace, k)|
    decreases |trace|
  {
    var last := |trace| - 1;
    if last == 0 {
      NoEdgeYet(trace);
    } else {
      hide Events, Count, IsClosingEdge;
      var front := trace[..last];
      ClosingAttemptsAreEdges(front);
      EventsMore(front, trace[last]);
      assert trace == front + [trace[last]];
      CountMore(Events(front), Edge(front[last - 1], trace[last]), Attempt(true));
      OneMoreEdge(trace);
      EdgeCloses(trace, last);
    }
  }

  lemma NoEdgeYet(trace: seq<Sample>)
    requires |trace| == 1
    ensures Count(Events(trace), Attempt(true)) == 0 && (set k | 1 <= k < |trace| && IsClosingEdge(trace, k)) == {}
  {
    assert Events(trace) == First(trace[0]);
    CountMore([], First(trace[0]), Attempt(true));
  }

  lemma EdgeCloses(trace: seq<Sample>, k: nat)
    requires 1 <= k < |trace|
    ensures IsClosingEdge(trace, k) <==> Edge(trace[k - 1], trace[k]) == [Attempt(true)]
    ensures |Edge(trace[k - 1], trace[k])| <= 1
  {
  }

  lemma CountMore(events: seq<Event>, more: seq<Event>, e: Event)
    requires |more| <= 1
    ensures Count(events + more, e) == Count(events, e) + if more == [e] then 1 else 0
    ensures events == [] ==> events + more == more && Count(events, e) == 0
  {
    if more == [] {
      assert events + more == events;
    } else {
      assert (events + more)[..|events|] == events;
    }
  }

  lemma OneMoreEdge(trace: seq<Sample>)
    requires |trace| > 1
    ensures var last := |trace| - 1;
      |set k | 1 <= k < |trace| && IsClosingEdge(trace, k)|
      == |set k | 1 <= k < last && IsClosingEdge(trace[..last], k)| + if IsClosingEdge(trace, last) then 1 else 0
  {
    var last := |trace| - 1;
    var before := set k | 1 <= k < last && IsClosingEdge(trace[..last], k);
    assert (set k | 1 <= k < |trace| && IsClosingEdge(trace, k)) == before + if IsClosingEdge(trace, last) then {last} else {};
  }
}
