/**
 What the scanner's results mean in terms of the characters of the text, without the functions
 that compute them: trivia, the shape of an array, values that hold a multi-line string, the quotes
 that close one, dates with a blank in them, and kinds of statements.
 */
module TomlLaws {
  import opened Wrappers
  import opened TomlScanner
  import R = TomlRender
  import G = TomlGrammar

  // ------------------------------------------------------------------ trivia

  /** Between `a` and `b` stand blanks, line breaks, and comments that run to the end of their line. */
  ghost predicate Trivial(t: string, a: nat, b: nat)
    decreases b - a
  {
    a <= b <= |t| &&
    (|| a == b
     || ((t[a] == ' ' || t[a] == '\t' || t[a] == '\r' || t[a] == '\n') && Trivial(t, a + 1, b))
     || exists e | a < e <= b :: IsComment(t, a, e) && Trivial(t, e, b))
  }

  /** From its `#` to the first line break and no further. */
  predicate IsComment(t: string, a: nat, e: nat) {
    a < e <= |t| && t[a] == '#' && t[e - 1] == '\n' && '\n' !in t[a..e - 1]
  }

  lemma {:induction false} TrivialJoins(t: string, a: nat, b: nat, c: nat)
    requires Trivial(t, a, b) && Trivial(t, b, c)
    ensures Trivial(t, a, c)
    decreases b - a
  {
    if a < b {
      if t[a] == '#' {
        var e :| a < e <= b && IsComment(t, a, e) && Trivial(t, e, b);
        TrivialJoins(t, e, b, c);
        assert a < e <= c && IsComment(t, a, e) && Trivial(t, e, c);
      } else {
        TrivialJoins(t, a + 1, b, c);
      }
    }
  }

  /** A comment ends where its line does. */
  lemma CommentEnds(t: string, a: nat, e: nat)
    requires IsComment(t, a, e)
    ensures G.LineEnd(t, a) == e
  {
    assert forall k | a <= k < e - 1 :: t[k] == t[a..e - 1][k - a];
    assert G.Find(t, '\n', a).Some?;
  }

  lemma CommentLine(t: string, a: nat)
    requires a < |t| && t[a] == '#' && G.LineEnd(t, a) < |t|
    ensures IsComment(t, a, G.LineEnd(t, a))
  {
    var k := G.Find(t, '\n', a).value;
    assert forall j | 0 <= j < k - a :: t[a..k][j] == t[a + j];
  }

  /** What is skipped before a character is trivia, all of it. */
  lemma {:induction false} SkippedIsTrivial(t: string, a: nat, b: nat)
    requires a <= b < |t|
    ensures G.SkipTrivia(t, a) == b <==> Trivial(t, a, b) && !G.IsTrivia(t[b]) && t[b] != '#'
    decreases b - a
  {
    hide G.LineEnd;
    if a < b {
      if G.IsTrivia(t[a]) {
        SkippedIsTrivial(t, a + 1, b);
      } else if t[a] == '#' {
        var e := G.LineEnd(t, a);
        if e <= b {
          CommentLine(t, a);
          SkippedIsTrivial(t, e, b);
        }
        forall e' | a < e' <= b && IsComment(t, a, e')
          ensures e' == e
        {
          CommentEnds(t, a, e');
        }
      }
    }
  }

  lemma SkipTo(t: string, a: nat)
    requires a <= |t|
    ensures var b := G.SkipTrivia(t, a); b < |t| ==> Trivial(t, a, b)
  {
    var b := G.SkipTrivia(t, a);
    if b < |t| { SkippedIsTrivial(t, a, b); }
  }

  // ------------------------------------------------------------------ the shape of an array

  /** One comma between `a` and `b`, and trivia around it. */
  ghost predicate CommaBetween(t: string, a: nat, b: nat) {
    exists q | a <= q < b <= |t| :: t[q] == ',' && Trivial(t, a, q) && Trivial(t, q + 1, b)
  }

  /**
   The spans are all the elements: from the opening bracket to the first and from the last to the
   closing one stands nothing but trivia and the trailing comma, between neighbours one comma.
   */
  ghost predicate Covers(t: string, pos: nat, items: seq<(nat, nat)>, i: nat, trailing: bool) {
    && (items == [] ==> Trivial(t, pos + 1, i) && !trailing)
    && (items != [] ==>
         && Trivial(t, pos + 1, items[0].0)
         && (if trailing then CommaBetween(t, items[|items| - 1].1, i) else Trivial(t, items[|items| - 1].1, i)))
    && forall k | 0 < k < |items| :: CommaBetween(t, items[k - 1].1, items[k].0)
  }

  lemma CommaThen(t: string, a: nat, b: nat, c: nat)
    requires CommaBetween(t, a, b) && Trivial(t, b, c)
    ensures CommaBetween(t, a, c)
  {
    hide Trivial;
    var q :| a <= q < b <= |t| && t[q] == ',' && Trivial(t, a, q) && Trivial(t, q + 1, b);
    TrivialJoins(t, q + 1, b, c);
    TrivialInside(t, b, c);
    assert a <= q < c <= |t| && t[q] == ',' && Trivial(t, a, q) && Trivial(t, q + 1, c);
  }

  lemma TrivialInside(t: string, a: nat, b: nat)
    requires Trivial(t, a, b)
    ensures a <= b <= |t|
  {
  }

  lemma CoversOn(t: string, pos: nat, items: seq<(nat, nat)>, i: nat, trailing: bool, c: nat)
    requires Covers(t, pos, items, i, trailing) && Trivial(t, i, c)
    ensures Covers(t, pos, items, c, trailing)
  {
    hide Trivial, CommaBetween;
    if items == [] {
      TrivialJoins(t, pos + 1, i, c);
    } else if trailing {
      CommaThen(t, items[|items| - 1].1, i, c);
    } else {
      TrivialJoins(t, items[|items| - 1].1, i, c);
    }
  }

  /** One more element, where one may stand: at the beginning or behind a comma. */
  lemma CoversMore(t: string, pos: nat, items: seq<(nat, nat)>, trailing: bool, c: nat, e: nat)
    requires Covers(t, pos, items, c, trailing) && c < e <= |t| && (items == [] || trailing)
    ensures Covers(t, pos, items + [(c, e)], e, false)
  {
    var all := items + [(c, e)];
    assert Trivial(t, e, e);
    hide Trivial, CommaBetween;
    assert items != [] ==> all[0] == items[0];
    forall k | 0 < k < |all|
      ensures CommaBetween(t, all[k - 1].1, all[k].0)
    {
      assert all[k - 1] == items[k - 1];
    }
  }

  lemma CoversComma(t: string, pos: nat, items: seq<(nat, nat)>, e: nat, q: nat)
    requires Covers(t, pos, items, e, false) && items != [] && items[|items| - 1].1 == e
    requires e <= q < |t| && t[q] == ',' && Trivial(t, e, q)
    ensures Covers(t, pos, items, q + 1, true)
  {
    assert Trivial(t, q + 1, q + 1);
    assert CommaBetween(t, e, q + 1);
    hide Trivial, CommaBetween;
  }

  lemma {:induction false} ShapeFromCovers(t: string, pos: nat, i: nat, items: seq<(nat, nat)>, trailing: bool)
    requires pos < i <= |t| && Covers(t, pos, items, i, trailing) && (items == [] || trailing)
    ensures var s := ShapeFrom(t, pos, i, items, trailing);
      s.Shape? ==>
        && s.openOffset == pos < s.closeOffset < |t| && t[s.closeOffset] == ']'
        && Covers(t, pos, s.items, s.closeOffset, s.trailingComma)
        && (s.multiline <==> '\n' in t[pos..s.closeOffset])
    decreases |t| - i
  {
    hide G.ScanValue, G.SkipTrivia, Covers, Trivial, CommaBetween;
    var c := G.SkipTrivia(t, i);
    if ShapeFrom(t, pos, i, items, trailing).Shape? {
      SkipTo(t, i);
      CoversOn(t, pos, items, i, trailing, c);
      if t[c] != ']' {
        var e := G.ScanValue(t, c).end;
        var c2 := G.SkipTrivia(t, e);
        CoversMore(t, pos, items, trailing, c, e);
        SkipTriviaTwice(t, e);
        SkipTo(t, e);
        var more := items + [(c, e)];
        if c2 < |t| && t[c2] == ',' {
          CoversComma(t, pos, more, e, c2);
          ShapeFromCovers(t, pos, c2 + 1, more, true);
        } else {
          CoversOn(t, pos, more, e, false, c2);
          ClosesThere(t, pos, c2, more);
        }
      }
    }
  }

  lemma ClosesThere(t: string, pos: nat, i: nat, items: seq<(nat, nat)>)
    requires pos < i < |t| && t[i] == ']' && G.SkipTrivia(t, i) == i
    ensures ShapeFrom(t, pos, i, items, false) == Shape(pos, i, items, false, '\n' in t[pos..i])
  {
    hide G.ScanValue, G.SkipTrivia;
  }

  /**
   The shape of an array, said of the text: brackets at both ends, every element in its span and
   nothing outside but trivia and commas, the trailing comma and the line breaks as they stand.
   */
  lemma ShapeIsWhatStandsThere(t: string, pos: nat)
    requires pos < |t|
    ensures var s := ShapeAt(t, pos);
      s.Shape? ==>
        && t[pos] == '[' && s.openOffset == pos < s.closeOffset < |t| && t[s.closeOffset] == ']'
        && SpansAreValues(t, pos, s.items, s.closeOffset)
        && Covers(t, pos, s.items, s.closeOffset, s.trailingComma)
        && (s.multiline <==> exists k | pos <= k < s.closeOffset :: t[k] == '\n')
  {
    hide G.ScanValue, ShapeFrom, Covers, SpansAreValues;
    if t[pos] == '[' {
      NothingYet(t, pos);
      ShapeFromCovers(t, pos, pos + 1, [], false);
      ShapesAgree(t, pos);
      var s := ShapeAt(t, pos);
      if s.Shape? { BreakIn(t, pos, s.closeOffset); }
    }
  }

  lemma NothingYet(t: string, pos: nat)
    requires pos < |t|
    ensures Covers(t, pos, [], pos + 1, false)
  {
  }

  lemma BreakIn(t: string, a: nat, b: nat)
    requires a <= b <= |t|
    ensures '\n' in t[a..b] <==> exists k | a <= k < b :: t[k] == '\n'
  {
    forall k | a <= k < b
      ensures t[a..b][k - a] == t[k]
    {
    }
  }

  // ------------------------------------------------------------------ the shape of a printed list

  lemma ShapeTurn(t: string, pos: nat, from: nat, i: nat, items: seq<(nat, nat)>, trailing: bool, c: nat)
    requires pos < from <= i < c < |t| && (from < i ==> from + 1 == i && t[from] == ' ')
    requires R.StartsValue(t[i]) && G.ScanValue(t, i).Good? && G.ScanValue(t, i).end == c
    ensures t[c] == ']' ==> ShapeFrom(t, pos, from, items, trailing) == Shape(pos, c, items + [(i, c)], false, '\n' in t[pos..c])
    ensures t[c] == ',' ==> ShapeFrom(t, pos, from, items, trailing) == ShapeFrom(t, pos, c + 1, items + [(i, c)], true)
  {
    hide G.ScanValue, G.SkipTrivia;
    R.TriviaEnds(t, from, i);
    if t[c] == ']' || t[c] == ',' { R.TriviaEnds(t, c, c); }
    if t[c] == ']' { ClosesThere(t, pos, c, items + [(i, c)]); }
  }

  /** Span by span, the values that were printed. */
  predicate ReadsAs(t: string, spans: seq<(nat, nat)>, values: seq<R.Value>) {
    && |spans| == |values|
    && forall k | 0 <= k < |spans| :: spans[k].0 <= |t| && R.ReadValue(t, spans[k].0) == R.Read(values[k], spans[k].1)
  }

  lemma ReadsMore(t: string, i: nat, c: nat, rest: seq<(nat, nat)>, values: seq<R.Value>)
    requires values != [] && i <= |t| && R.ReadValue(t, i) == R.Read(values[0], c) && ReadsAs(t, rest, values[1..])
    ensures ReadsAs(t, [(i, c)] + rest, values)
  {
    hide R.ReadValue;
    var all := [(i, c)] + rest;
    forall k | 0 <= k < |all|
      ensures all[k].0 <= |t| && R.ReadValue(t, all[k].0) == R.Read(values[k], all[k].1)
    {
      if k > 0 { assert all[k] == rest[k - 1] && values[k] == values[1..][k - 1]; }
    }
  }

  lemma {:induction false} PrintedItems(t: string, pos: nat, from: nat, i: nat, values: seq<R.Value>, inner: string,
                                        items: seq<(nat, nat)>, trailing: bool) returns (spans: seq<(nat, nat)>)
    requires values != [] && R.RenderItems(values) == Some(inner) && R.At(t, i, inner + "]")
    requires pos < from <= i && (from < i ==> from + 1 == i && t[from] == ' ')
    ensures i + |inner| < |t| && ReadsAs(t, spans, values)
    ensures ShapeFrom(t, pos, from, items, trailing)
         == Shape(pos, i + |inner|, items + spans, false, '\n' in t[pos..i + |inner|])
    decreases |values|
  {
    hide *;
    R.ItemsParts(values, inner);
    var first := R.Render(values[0]).value;
    var c := i + |first|;
    if |values| == 1 {
      LastPrinted(t, pos, from, i, values[0], first, items, trailing);
      spans := [(i, c)];
      OneValue(t, i, c, values);
    } else {
      var rest := R.RenderItems(values[1..]).value;
      R.MoreItems(t, i, first, rest, inner);
      PrintedItem(t, i, values[0], first);
      ShapeTurn(t, pos, from, i, items, trailing, c);
      var more := PrintedItems(t, pos, c + 1, c + 2, values[1..], rest, items + [(i, c)], true);
      spans := [(i, c)] + more;
      SpansJoin(items, (i, c), more);
      ReadsMore(t, i, c, more, values);
      Lengths(first, rest);
    }
  }

  lemma SpansJoin(items: seq<(nat, nat)>, span: (nat, nat), more: seq<(nat, nat)>)
    ensures items + [span] + more == items + ([span] + more)
  {
  }

  lemma Lengths(first: string, rest: string)
    ensures |first + ", " + rest| == |first| + 2 + |rest|
  {
  }

  lemma OneValue(t: string, i: nat, c: nat, values: seq<R.Value>)
    requires |values| == 1 && i <= |t| && R.ReadValue(t, i) == R.Read(values[0], c)
    ensures ReadsAs(t, [(i, c)], values)
  {
    hide R.ReadValue;
  }

  lemma LastPrinted(t: string, pos: nat, from: nat, i: nat, v: R.Value, w: string, items: seq<(nat, nat)>, trailing: bool)
    requires R.Render(v) == Some(w) && R.At(t, i, w + "]") && pos < from <= i && (from < i ==> from + 1 == i && t[from] == ' ')
    ensures i + |w| < |t| && R.ReadValue(t, i) == R.Read(v, i + |w|)
    ensures ShapeFrom(t, pos, from, items, trailing) == Shape(pos, i + |w|, items + [(i, i + |w|)], false, '\n' in t[pos..i + |w|])
  {
    hide *;
    R.LastItem(t, i, w);
    PrintedItem(t, i, v, w);
    ShapeTurn(t, pos, from, i, items, trailing, i + |w|);
  }

  lemma NoMoreValues(t: string)
    ensures ReadsAs(t, [], [])
  {
  }

  lemma PrintedItem(t: string, i: nat, v: R.Value, w: string)
    requires R.Render(v) == Some(w) && R.At(t, i, w) && i + |w| < |t| && (t[i + |w|] == ']' || t[i + |w|] == ',')
    ensures |w| > 0 && i < |t| && R.StartsValue(t[i])
    ensures G.ScanValue(t, i) == G.Good(i + |w|, false) && R.ReadValue(t, i) == R.Read(v, i + |w|)
  {
    hide G.ScanValue, R.ReadValue, R.Render;
    R.RenderStarts(v);
    R.AtChar(t, i, w, 0);
    R.RenderedReadsBack(t, i, v, w);
  }

  /** A printed list has one span an element, each reads as that element, and no trailing comma. */
  lemma PrintedShape(t: string, pos: nat, values: seq<R.Value>, w: string)
    requires R.Render(R.List(values)) == Some(w) && R.At(t, pos, w)
    ensures pos < |t| && var s := ShapeAt(t, pos);
      && s.Shape? && s.openOffset == pos && s.closeOffset == pos + |w| - 1 && !s.trailingComma && ReadsAs(t, s.items, values)
  {
    hide ShapeFrom, R.RenderItems, ReadsAs;
    var inner := R.RenderItems(values).value;
    assert w == "[" + (inner + "]");
    R.AtSplit(t, pos, "[", inner + "]");
    if values == [] {
      NothingPrinted(inner);
      R.AtSplit(t, pos + 1, "", "]");
      R.TriviaEnds(t, pos + 1, pos + 1);
      ClosesThere(t, pos, pos + 1, []);
      NoMoreValues(t);
    } else {
      var spans := PrintedItems(t, pos, pos + 1, pos + 1, values, inner, [], false);
      assert [] + spans == spans;
    }
  }

  lemma NothingPrinted(inner: string)
    requires R.RenderItems([]) == Some(inner)
    ensures inner == ""
  {
  }

  // ------------------------------------------------------------------ values that hold a multi-line string

  /** Three quotes of one kind in a row. */
  predicate OpensThree(t: string, j: nat) {
    j + 3 <= |t| && (t[j] == '"' || t[j] == '\'') && t[j + 1] == t[j] && t[j + 2] == t[j]
  }

  /** An entry of an inline table: where its value starts, and where the next entry does if a comma follows. */
  datatype Entry = NoEntry | LastEntry(value: nat) | Entry(value: nat, next: nat)

  function EntryAt(t: string, i: nat): (r: Entry)
    requires i <= |t|
    ensures r.Entry? ==> i < r.next <= |t|
  {
    var key := G.KeyEnd(t, G.SkipTrivia(t, i));
    if key.None? then NoEntry
    else
      var c := G.SkipWs(t, key.value);
      if c == |t| || t[c] != '=' then NoEntry
      else
        var v := G.SkipWs(t, c + 1);
        match G.ScanValue(t, v)
        case Bad => NoEntry
        case Good(e, _) =>
          var next := G.SkipTrivia(t, e);
          if next < |t| && t[next] == ',' then Entry(v, next + 1) else LastEntry(v)
  }

  /** Where the values of an inline table start, from before a key on. */
  function Entries(t: string, i: nat): seq<nat>
    requires i <= |t|
    decreases |t| - i
  {
    match EntryAt(t, i)
    case NoEntry => []
    case LastEntry(v) => [v]
    case Entry(v, next) => [v] + Entries(t, next)
  }

  /** The value opens with three quotes, or is an array or an inline table with such a value in it. */
  ghost predicate HoldsMultiline(t: string, i: nat)
    decreases |t| - i
  {
    i < |t| &&
    (|| OpensThree(t, i)
     || (t[i] == '[' && ShapeAt(t, i).Shape?
         && exists k | 0 <= k < |ShapeAt(t, i).items| ::
              i < ShapeAt(t, i).items[k].0 < |t| && HoldsMultiline(t, ShapeAt(t, i).items[k].0))
     || (t[i] == '{'
         && exists v | v in Entries(t, G.SkipTrivia(t, i + 1)) :: i < v < |t| && HoldsMultiline(t, v)))
  }

  ghost predicate SomeSpan(t: string, items: seq<(nat, nat)>, from: nat) {
    exists k | from <= k < |items| :: HoldsMultiline(t, items[k].0)
  }

  ghost predicate SomeEntry(t: string, starts: seq<nat>) {
    exists v | v in starts :: HoldsMultiline(t, v)
  }

  lemma SomeSpanNext(t: string, items: seq<(nat, nat)>, from: nat)
    requires from < |items|
    ensures SomeSpan(t, items, from) <==> HoldsMultiline(t, items[from].0) || SomeSpan(t, items, from + 1)
  {
    hide HoldsMultiline;
  }

  lemma SomeEntryNext(t: string, v: nat, rest: seq<nat>)
    ensures SomeEntry(t, [v] + rest) <==> HoldsMultiline(t, v) || SomeEntry(t, rest)
  {
    hide HoldsMultiline;
  }

  /** One turn of both array walkers over the element at `c`. */
  lemma OneElement(t: string, pos: nat, i: nat, items: seq<(nat, nat)>, trailing: bool, m: bool, c: nat)
    requires pos < i <= |t| && G.ArrayFrom(t, i, m).Good? && c == G.SkipTrivia(t, i) && c < |t| && t[c] != ']'
    ensures i <= c && G.ScanValue(t, c).Good?
    ensures var Good(e, inner) := G.ScanValue(t, c);
      var c2 := G.SkipTrivia(t, e);
      && c < e <= c2 < |t|
      && (t[c2] == ',' ==>
           && G.ArrayFrom(t, c2 + 1, m || inner) == G.ArrayFrom(t, i, m)
           && ShapeFrom(t, pos, i, items, trailing) == ShapeFrom(t, pos, c2 + 1, items + [(c, e)], true))
      && (t[c2] != ',' ==>
           && G.ArrayFrom(t, i, m).multiline == (m || inner)
           && ShapeFrom(t, pos, i, items, trailing).Shape? && ShapeFrom(t, pos, i, items, trailing).items == items + [(c, e)])
  {
    hide G.ScanValue, G.SkipTrivia;
    var e := G.ScanValue(t, c).end;
    var c2 := G.SkipTrivia(t, e);
    SkipTriviaTwice(t, e);
    if t[c2] != ',' { ClosesThere(t, pos, c2, items + [(c, e)]); }
  }

  /** The elements found from `i` on decide the flag from `i` on. */
  lemma {:induction false} ArrayFlag(t: string, pos: nat, i: nat, items: seq<(nat, nat)>, trailing: bool, m: bool)
    requires pos < i <= |t| && G.ArrayFrom(t, i, m).Good?
    ensures var s := ShapeFrom(t, pos, i, items, trailing);
      && s.Shape? && items <= s.items
      && (G.ArrayFrom(t, i, m).multiline <==> m || SomeSpan(t, s.items, |items|))
    decreases |t| - i, 1
  {
    hide G.ScanValue, G.SkipTrivia, G.ArrayFrom, ShapeFrom, HoldsMultiline, SomeSpan;
    var c := G.SkipTrivia(t, i);
    GoesOnOrCloses(t, pos, i, items, trailing, m);
    if t[c] == ']' {
      NoSpanLeft(t, items);
    } else {
      OneElement(t, pos, i, items, trailing, m, c);
      FlagMeans(t, c);
      var Good(e, inner) := G.ScanValue(t, c);
      var c2, more := G.SkipTrivia(t, e), items + [(c, e)];
      if t[c2] == ',' {
        ArrayFlag(t, pos, c2 + 1, more, true, m || inner);
        SomeSpanNext(t, ShapeFrom(t, pos, c2 + 1, more, true).items, |items|);
      } else {
        SomeSpanNext(t, more, |items|);
        NoSpanLeft(t, more);
      }
    }
  }

  /** An array that scans goes on to an element or closes. */
  lemma GoesOnOrCloses(t: string, pos: nat, i: nat, items: seq<(nat, nat)>, trailing: bool, m: bool)
    requires pos < i <= |t| && G.ArrayFrom(t, i, m).Good?
    ensures var c := G.SkipTrivia(t, i);
      c < |t| && (t[c] == ']' ==> G.ArrayFrom(t, i, m).multiline == m
                                  && ShapeFrom(t, pos, i, items, trailing) == Shape(pos, c, items, trailing, '\n' in t[pos..c]))
  {
    hide G.ScanValue, G.SkipTrivia;
  }

  lemma NoSpanLeft(t: string, items: seq<(nat, nat)>)
    ensures !SomeSpan(t, items, |items|)
  {
  }

  /** One turn of the inline-table loop passes one entry. */
  lemma InlineTurnPasses(t: string, i: nat)
    requires i <= |t| && !G.InlineTurn(t, i).Broken?
    ensures var turn, entry := G.InlineTurn(t, i), EntryAt(t, i);
      && !entry.NoEntry? && i < entry.value <= |t| && G.ScanValue(t, entry.value).Good?
      && turn.inner == G.ScanValue(t, entry.value).multiline
      && (if turn.Next? then entry.Entry? && entry.next == turn.at else entry.LastEntry?)
  {
    hide G.ScanValue, G.SkipTrivia, G.SkipWs, G.KeyEnd, G.AfterItem;
    var key := G.KeyEnd(t, G.SkipTrivia(t, i)).value;
    var v := G.SkipWs(t, G.SkipWs(t, key) + 1);
    ItemFollows(t, G.ScanValue(t, v));
  }

  lemma ItemFollows(t: string, value: G.Scan)
    requires value.Good? && value.end <= |t| && !G.AfterItem(t, value, '}').Broken?
    ensures var turn, c := G.AfterItem(t, value, '}'), G.SkipTrivia(t, value.end);
      && turn.inner == value.multiline && value.end < turn.at == c + 1 <= |t| && (turn.Next? <==> t[c] == ',')
  {
    hide G.SkipTrivia;
  }

  /** The entries found from `i` on decide the flag from `i` on. */
  lemma {:induction false} InlineFlag(t: string, i: nat, m: bool)
    requires i <= |t| && G.InlineFrom(t, i, m).Good?
    ensures G.InlineFrom(t, i, m).multiline <==> m || SomeEntry(t, Entries(t, i))
    ensures forall v | v in Entries(t, i) :: i < v < |t|
    decreases |t| - i, 1
  {
    hide G.ScanValue, G.InlineTurn, EntryAt, HoldsMultiline, SomeEntry;
    var turn := G.InlineTurn(t, i);
    InlineTurnPasses(t, i);
    var v := EntryAt(t, i).value;
    ScannedInside(t, v);
    FlagMeans(t, v);
    if turn.Next? {
      InlineFlag(t, turn.at, m || turn.inner);
      SomeEntryNext(t, v, Entries(t, turn.at));
    } else {
      SomeEntryNext(t, v, []);
      NothingIn(t);
      assert [v] + [] == [v];
    }
  }

  lemma ScannedInside(t: string, v: nat)
    requires v <= |t| && G.ScanValue(t, v).Good?
    ensures v < |t|
  {
  }

  lemma NothingIn(t: string)
    ensures !SomeEntry(t, [])
  {
  }

  /** The flag of a scanned value says exactly whether it is or holds a multi-line string. */
  lemma {:induction false} FlagMeans(t: string, i: nat)
    requires i <= |t| && G.ScanValue(t, i).Good?
    ensures G.ScanValue(t, i).multiline <==> HoldsMultiline(t, i)
    decreases |t| - i, 0
  {
    hide G.ArrayFrom, G.InlineFrom, G.SkipTrivia, G.MultiEnd, G.BasicEnd, G.LiteralEnd, G.BareValueEnd, ShapeFrom, Entries;
    ThreeIs(t, i);
    if !OpensThree(t, i) && t[i] == '[' {
      ArrayFlag(t, i, i + 1, [], false, false);
      ShapesAgree(t, i);
      SpansAre(t, i);
    } else if !OpensThree(t, i) && t[i] == '{' {
      var c := G.SkipTrivia(t, i + 1);
      if c < |t| && t[c] == '}' {
        SkipTriviaTwice(t, i + 1);
        EmptyInline(t, c);
      } else {
        InlineFlag(t, c, false);
      }
    }
  }

  lemma ThreeIs(t: string, i: nat)
    ensures OpensThree(t, i) <==> G.Triple(t, '"', i) || G.Triple(t, '\'', i)
  {
  }

  lemma SpansAre(t: string, i: nat)
    requires i < |t| && t[i] == '[' && ShapeAt(t, i).Shape?
    ensures forall k | 0 <= k < |ShapeAt(t, i).items| :: i < ShapeAt(t, i).items[k].0 < |t|
  {
    hide G.ScanValue, ShapeFrom;
    ShapesAgree(t, i);
  }

  lemma EmptyInline(t: string, c: nat)
    requires c < |t| && t[c] == '}' && G.SkipTrivia(t, c) == c
    ensures Entries(t, c) == []
  {
  }

  // ------------------------------------------------------------------ what ends a value

  /**
   From `p` to `e` stand three to five quotes, as many as there are; `p` is the first place from `c`
   on with three in a row, where in a basic string none counts with a backslash before it.
   */
  predicate ClosesAt(t: string, q: char, c: nat, p: nat, e: nat) {
    && c <= p && p + 3 <= e <= p + 5 && e <= |t| && (forall k | p <= k < e :: t[k] == q)
    && (e < p + 5 ==> e == |t| || t[e] != q)
    && forall k | c <= k < p && t[k] == q && OpensThree(t, k) :: q == '"' && Escaped(t, c, k)
  }

  /** A backslash stands right before offset `k`. */
  predicate Escaped(t: string, c: nat, k: nat) { c < k <= |t| && t[k - 1] == '\\' }

  lemma {:induction false} ClosingRun(t: string, q: char, c: nat) returns (p: nat)
    requires G.MultiEnd(t, q, c).Some? && q != '\\'
    ensures ClosesAt(t, q, c, p, G.MultiEnd(t, q, c).value)
    decreases |t| - c
  {
    hide G.ExtraQuotes, ClosesAt;
    var e := G.MultiEnd(t, q, c).value;
    if q == '"' && t[c] == '\\' {
      p := ClosingRun(t, q, c + 2);
      RunBehindEscape(t, c, p, e);
    } else if G.Triple(t, q, c) {
      p := c;
      RunHere(t, q, c);
    } else {
      p := ClosingRun(t, q, c + 1);
      RunLater(t, q, c, p, e);
    }
  }

  lemma RunLater(t: string, q: char, c: nat, p: nat, e: nat)
    requires ClosesAt(t, q, c + 1, p, e) && !G.Triple(t, q, c)
    ensures ClosesAt(t, q, c, p, e)
  {
  }

  lemma RunBehindEscape(t: string, c: nat, p: nat, e: nat)
    requires c < |t| && ClosesAt(t, '"', c + 2, p, e) && t[c] == '\\'
    ensures ClosesAt(t, '"', c, p, e)
  {
    assert forall k | c + 2 <= k < p && Escaped(t, c + 2, k) :: Escaped(t, c, k);
  }

  lemma RunHere(t: string, q: char, c: nat)
    requires G.Triple(t, q, c)
    ensures ClosesAt(t, q, c, c, G.ExtraQuotes(t, q, c + 3, 0))
  {
    ExtraRun(t, q, c + 3, 0);
  }

  lemma {:induction false} ExtraRun(t: string, q: char, e: nat, extra: nat)
    requires e <= |t| && extra <= 2
    ensures var r := G.ExtraQuotes(t, q, e, extra);
      && e <= r <= e + (2 - extra) && (forall k | e <= k < r :: t[k] == q)
      && (r < e + (2 - extra) ==> r == |t| || t[r] != q)
    decreases 2 - extra
  {
    if e < |t| && t[e] == q && extra < 2 { ExtraRun(t, q, e + 1, extra + 1); }
  }

  predicate Digits(t: string, i: nat, n: nat) { i + n <= |t| && forall k | i <= k < i + n :: '0' <= t[k] <= '9' }

  /** `2026-01-31 23:59` from `i` on. */
  predicate DateAndTime(t: string, i: nat) {
    && i + 16 <= |t|
    && Digits(t, i, 4) && t[i + 4] == '-' && Digits(t, i + 5, 2) && t[i + 7] == '-' && Digits(t, i + 8, 2)
    && t[i + 10] == ' ' && Digits(t, i + 11, 2) && t[i + 13] == ':' && Digits(t, i + 14, 2)
  }

  lemma {:induction false} BareRun(t: string, i: nat)
    requires i <= |t|
    ensures var e := G.BareRunEnd(t, i); (forall k | i <= k < e :: G.IsBareValueChar(t[k])) && (e < |t| ==> !G.IsBareValueChar(t[e]))
    decreases |t| - i
  {
    if i < |t| && G.IsBareValueChar(t[i]) { BareRun(t, i + 1); }
  }

  /** A bare value takes no blank along, except the one between a date and a time. */
  lemma BareValueIs(t: string, i: nat, e: nat)
    requires i <= |t| && G.BareValueEnd(t, i) == Some(e)
    ensures i < e <= |t| && (e < |t| ==> !G.IsBareValueChar(t[e]))
    ensures if DateAndTime(t, i)
            then e >= i + 16 && forall k | i <= k < e && k != i + 10 :: G.IsBareValueChar(t[k])
            else forall k | i <= k < e :: G.IsBareValueChar(t[k])
  {
    hide G.BareRunEnd;
    var run := G.BareRunEnd(t, i);
    BareRun(t, i);
    DateTaken(t, i, run);
    if G.IsLocalDate(t[i..run]) && G.SpaceBeforeTime(t, run) {
      BareRun(t, run + 1);
      assert e == G.BareRunEnd(t, run + 1);
      assert forall k | run + 1 <= k < run + 6 :: G.IsBareValueChar(t[k]);
    }
  }

  lemma DateTaken(t: string, i: nat, run: nat)
    requires i <= run <= |t| && (forall k | i <= k < run :: G.IsBareValueChar(t[k])) && (run < |t| ==> !G.IsBareValueChar(t[run]))
    ensures DateAndTime(t, i) <==> G.IsLocalDate(t[i..run]) && G.SpaceBeforeTime(t, run)
    ensures DateAndTime(t, i) ==> run == i + 10
  {
    if DateAndTime(t, i) { DateIsBare(t, i); }
    hide G.IsBareValueChar, DateAndTime, G.IsLocalDate, G.SpaceBeforeTime;
    if run == i + 10 {
      DateChars(t, i);
    } else {
      TenCharacters(t[i..run]);
    }
  }

  lemma DateIsBare(t: string, i: nat)
    requires DateAndTime(t, i)
    ensures forall k | i <= k < i + 10 :: G.IsBareValueChar(t[k])
    ensures !G.IsBareValueChar(t[i + 10])
  {
  }

  lemma TenCharacters(w: string)
    ensures G.IsLocalDate(w) ==> |w| == 10
  {
  }

  lemma DateChars(t: string, i: nat)
    requires i + 10 <= |t|
    ensures DateAndTime(t, i) <==> G.IsLocalDate(t[i..i + 10]) && G.SpaceBeforeTime(t, i + 10)
  {
    var w := t[i..i + 10];
    assert w[0] == t[i] && w[1] == t[i + 1] && w[2] == t[i + 2] && w[3] == t[i + 3] && w[4] == t[i + 4];
    assert w[5] == t[i + 5] && w[6] == t[i + 6] && w[7] == t[i + 7] && w[8] == t[i + 8] && w[9] == t[i + 9];
    FourDigits(t, i);
    TwoDigits(t, i + 5);
    TwoDigits(t, i + 8);
    TwoDigits(t, i + 11);
    TwoDigits(t, i + 14);
    hide Digits;
  }

  lemma TwoDigits(t: string, i: nat)
    ensures Digits(t, i, 2) <==> i + 2 <= |t| && '0' <= t[i] <= '9' && '0' <= t[i + 1] <= '9'
  {
  }

  lemma FourDigits(t: string, i: nat)
    ensures Digits(t, i, 4) <==> Digits(t, i, 2) && Digits(t, i + 2, 2)
    ensures Digits(t, i, 4) <==>
      i + 4 <= |t| && '0' <= t[i] <= '9' && '0' <= t[i + 1] <= '9' && '0' <= t[i + 2] <= '9' && '0' <= t[i + 3] <= '9'
  {
  }

  /** A string in double quotes ends at the first quote without a backslash before it, on its own line. */
  lemma {:induction false} BasicStringIs(t: string, c: nat)
    requires G.BasicEnd(t, c).Some?
    ensures var e := G.BasicEnd(t, c).value;
      c < e <= |t| && t[e - 1] == '"' && forall k | c <= k < e - 1 && (t[k] == '"' || t[k] == '\n') :: Escaped(t, c, k)
    decreases |t| - c
  {
    if t[c] == '\\' {
      BasicStringIs(t, c + 2);
    } else if t[c] != '"' {
      BasicStringIs(t, c + 1);
    }
  }

  /** A string in single quotes ends at the first quote, if the line does not end before. */
  lemma LiteralStringIs(t: string, c: nat, e: nat)
    requires c <= |t|
    ensures G.LiteralEnd(t, c) == Some(e) <==>
      c < e <= |t| && t[e - 1] == '\'' && forall k | c <= k < e - 1 :: t[k] != '\'' && t[k] != '\n'
  {
    var close, newline := G.Find(t, '\'', c), G.Find(t, '\n', c);
    if c < e <= |t| && t[e - 1] == '\'' && forall k | c <= k < e - 1 :: t[k] != '\'' && t[k] != '\n' {
      assert close == Some(e - 1);
    }
  }

  /** Behind `i` stand blanks and then the end of the text, a line break, or a comment; `e` is where the line ends. */
  predicate OnlyLineEnds(t: string, i: nat, e: nat) {
    i <= e <= |t| && (e < |t| ==> e > 0 && t[e - 1] == '\n')
    && exists p | i <= p <= e :: EndsLineAt(t, p) && OnlyBlanks(t, i, p) && NoBreak(t, p, e - 1)
  }

  predicate EndsLineAt(t: string, p: nat) {
    p == |t| || (p < |t| && (t[p] == '\n' || t[p] == '#')) || (p + 1 < |t| && t[p] == '\r' && t[p + 1] == '\n')
  }

  predicate OnlyBlanks(t: string, a: nat, b: int) { b <= |t| && forall k | a <= k < b :: t[k] == ' ' || t[k] == '\t' }

  predicate NoBreak(t: string, a: nat, b: int) { b <= |t| && forall k | a <= k < b :: t[k] != '\n' }

  lemma FinishIs(t: string, i: nat, e: nat)
    requires i <= |t|
    ensures G.FinishLine(t, i) == Some(e) ==> OnlyLineEnds(t, i, e)
  {
    if G.FinishLine(t, i) == Some(e) {
      BlanksSkipped(t, i);
      var p := G.SkipWs(t, i);
      assert EndsLineAt(t, p) && OnlyBlanks(t, i, p) && NoBreak(t, p, e - 1);
    }
  }

  /** Behind its value a key statement holds nothing but the end of its line, perhaps with a comment. */
  lemma RestOfLine(t: string, pos: nat)
    requires pos < |t| && G.ScanStatement(t, pos).Some? && G.ScanStatement(t, pos).value.kind == G.Key
    ensures var st := G.ScanStatement(t, pos).value; 0 <= st.valueEnd <= st.end && OnlyLineEnds(t, st.valueEnd, st.end)
  {
    hide G.KeyEnd, G.ParseKeyText, G.FinishLine, G.ScanValue, G.SkipWs, OnlyLineEnds;
    var st := G.ScanStatement(t, pos).value;
    FinishIs(t, st.valueEnd, st.end);
  }

  // ------------------------------------------------------------------ kinds of statements

  /**
   The first character of a line that is no blank, and the one after a bracket, decide what kind of
   statement begins there.
   */
  lemma KindIs(t: string, pos: nat)
    requires pos < |t| && G.ScanStatement(t, pos).Some?
    ensures var kind, c := G.ScanStatement(t, pos).value.kind, G.SkipWs(t, pos);
      && (forall k | pos <= k < c :: t[k] == ' ' || t[k] == '\t') && (c < |t| ==> t[c] != ' ' && t[c] != '\t')
      && (kind == G.Blank <==> c == |t| || t[c] == '\r' || t[c] == '\n')
      && (kind == G.Comment <==> c < |t| && t[c] == '#')
      && (kind == G.ArrayTable <==> c + 1 < |t| && t[c] == '[' && t[c + 1] == '[')
      && (kind == G.Table <==> c < |t| && t[c] == '[' && !(c + 1 < |t| && t[c + 1] == '['))
  {
    hide G.KeyEnd, G.ParseKeyText, G.FinishLine, G.ScanValue, G.SkipWs;
    BlanksSkipped(t, pos);
  }

  lemma {:induction false} BlanksSkipped(t: string, i: nat)
    requires i <= |t|
    ensures var c := G.SkipWs(t, i); (forall k | i <= k < c :: t[k] == ' ' || t[k] == '\t') && (c < |t| ==> t[c] != ' ' && t[c] != '\t')
    decreases |t| - i
  {
    if i < |t| && G.IsWs(t[i]) { BlanksSkipped(t, i + 1); }
  }

  /** Where the name of a header ends and its closing brackets stand: as many as opened it, with blanks before them. */
  lemma HeaderIs(t: string, pos: nat) returns (end: nat, close: nat)
    requires pos < |t| && G.ScanStatement(t, pos).Some?
    requires G.ScanStatement(t, pos).value.kind == G.Table || G.ScanStatement(t, pos).value.kind == G.ArrayTable
    ensures var st, c := G.ScanStatement(t, pos).value, G.SkipWs(t, pos);
      var width := if st.kind == G.ArrayTable then 2 else 1;
      && c + width < end <= close && close + width <= |t| && t[close] == ']' && t[close + width - 1] == ']'
      && (forall k | end <= k < close :: t[k] == ' ' || t[k] == '\t')
      && G.ParseKeyText(t[c + width..end]) == Some(st.name)
  {
    hide G.KeyEnd, G.FinishLine, G.ScanValue, G.SkipWs, G.KeyParts;
    var c := G.SkipWs(t, pos);
    var width := if G.ScanStatement(t, pos).value.kind == G.ArrayTable then 2 else 1;
    end := G.KeyEnd(t, c + width).value;
    close := G.SkipWs(t, end);
    BlanksSkipped(t, end);
  }

  // ------------------------------------------------------------------ keys in other forms

  /** A key in single quotes is what stands between them. */
  lemma LiteralKeyReads(key: string)
    requires forall k | 0 <= k < |key| :: key[k] != '\'' && key[k] != '\n' && !G.IsControl(key[k])
    ensures G.ParseKeyText("'" + key + "'") == Some([key])
  {
    var s := "'" + key + "'";
    assert s[0] == '\'' && s[|s| - 1] == '\'' && forall k | 1 <= k < |s| - 1 :: s[k] == key[k - 1];
    var close, newline := G.Find(s, '\'', 1), G.Find(s, '\n', 1);
    assert close == Some(|s| - 1) && newline == None;
    assert G.LiteralEnd(s, 1) == Some(|s|);
    assert s[1..|s| - 1] == key;
    assert G.SkipWs(s, 0) == 0 && G.SkipWs(s, |s|) == |s|;
  }

  /** Blanks before a part of a key do not matter. */
  lemma BlanksAroundPart(s: string, i: nat)
    requires i < |s| && (s[i] == ' ' || s[i] == '\t')
    ensures G.KeyParts(s, i) == G.KeyParts(s, i + 1)
    ensures G.KeyEnd(s, i) == G.KeyEnd(s, i + 1)
  {
    hide G.KeyParts, G.KeyEnd;
    assert G.SkipWs(s, i) == G.SkipWs(s, i + 1);
    PartsFrom(s, i, i + 1);
    EndFrom(s, i, i + 1);
  }

  lemma PartsFrom(s: string, i: nat, j: nat)
    requires i <= |s| && j <= |s| && G.SkipWs(s, i) == G.SkipWs(s, j)
    ensures G.KeyParts(s, i) == G.KeyParts(s, j)
  {
    hide G.SkipWs, G.KeyPartEnd, G.Unescape, G.Literal;
  }

  lemma EndFrom(s: string, i: nat, j: nat)
    requires i <= |s| && j <= |s| && G.SkipWs(s, i) == G.SkipWs(s, j)
    ensures G.KeyEnd(s, i) == G.KeyEnd(s, j)
  {
    hide G.SkipWs, G.KeyPartEnd;
  }

  /** A character given by four hexadecimal digits. */
  lemma UnicodeEscape(a: char, b: char, c: char, d: char)
    requires G.HexDigit(a).Some? && G.HexDigit(b).Some? && G.HexDigit(c).Some? && G.HexDigit(d).Some?
    ensures var n := 4096 * G.HexDigit(a).value + 256 * G.HexDigit(b).value + 16 * G.HexDigit(c).value + G.HexDigit(d).value;
      G.Unescape(['\\', 'u', a, b, c, d]) == if n < 0xD800 || 0xE000 <= n < 0x110000 then Some([n as char]) else None
  {
    var s, w := ['\\', 'u', a, b, c, d], [a, b, c, d];
    assert s[2..6] == w && s[6..] == [];
    assert w[..3] == [a, b, c] && [a, b, c][..2] == [a, b] && [a, b][..1] == [a] && [a][..0] == [];
    assert G.HexValue([]) == Some(0);
    assert G.HexValue([a]) == Some(G.HexDigit(a).value);
    assert G.HexValue([a, b]) == Some(16 * G.HexDigit(a).value + G.HexDigit(b).value);
    assert G.HexValue([a, b, c]) == Some(256 * G.HexDigit(a).value + 16 * G.HexDigit(b).value + G.HexDigit(c).value);
    var n := 4096 * G.HexDigit(a).value + 256 * G.HexDigit(b).value + 16 * G.HexDigit(c).value + G.HexDigit(d).value;
    assert G.HexValue(w) == Some(n);
    hide G.HexValue, G.HexDigit;
    assert G.Unescape([]) == Some([]);
    assert G.Unescape(s) == G.Prepend(G.HexChar(w), Some([]));
    if n < 0xD800 || 0xE000 <= n < 0x110000 {
      assert G.HexChar(w) == Some(n as char) && [n as char] + [] == [n as char];
    }
  }
}
