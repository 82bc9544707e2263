/**
 Scanning is local: what the scanner reads between two offsets depends only on the text
 there. A `Window` says that `u` holds at distance `d` what `t` holds in `lo..hi`, and that
 nothing beyond `hi` can matter to a value: a line break closes it, or `t` ends there and `u` ends
 or breaks the line there too. Whole statements need `Lines`: both texts end, or a line break.
 */
module TomlLocality {
  import opened Wrappers
  import opened TomlGrammar

  predicate Bounded(t: string, u: string, lo: nat, hi: nat, d: int) {
    lo <= hi <= |t| && 0 <= lo + d && hi + d <= |u|
  }

  predicate Sealed(t: string, u: string, hi: nat, d: int) { hi == |t| && hi + d == |u| }

  predicate Agree(t: string, u: string, lo: nat, hi: nat, d: int) {
    Bounded(t, u, lo, hi, d) && forall k | lo <= k < hi :: t[k] == u[k + d]
  }

  /** `t` ends at `hi`, and `u` ends or breaks the line where that is. */
  predicate Capped(t: string, u: string, hi: nat, d: int) {
    hi == |t| && 0 <= hi + d <= |u| && (hi + d == |u| || u[hi + d] == '\r' || u[hi + d] == '\n')
  }

  predicate Window(t: string, u: string, lo: nat, hi: nat, d: int) {
    && Agree(t, u, lo, hi, d)
    && (Capped(t, u, hi, d) || (lo < hi && t[hi - 1] == '\n'))
  }

  /** A window that also decides where its last line ends. */
  predicate Lines(t: string, u: string, lo: nat, hi: nat, d: int) {
    && Agree(t, u, lo, hi, d)
    && (Sealed(t, u, hi, d) || (lo < hi && t[hi - 1] == '\n'))
  }

  /** `e` is an end the window decides. */
  predicate Decided(t: string, u: string, hi: nat, d: int, e: nat) { e < hi || Capped(t, u, hi, d) }

  lemma Narrow(t: string, u: string, lo: nat, hi: nat, d: int, mid: nat)
    requires Window(t, u, lo, hi, d) && lo <= mid
    requires mid < hi || (mid == hi && Capped(t, u, hi, d))
    ensures Window(t, u, mid, hi, d)
    ensures 0 <= mid + d <= |u| && (mid < hi ==> mid + d < |u| && t[mid] == u[mid + d])
  {
  }

  lemma NarrowAgree(t: string, u: string, lo: nat, hi: nat, d: int, mid: nat)
    requires Agree(t, u, lo, hi, d) && lo <= mid <= hi
    ensures Agree(t, u, mid, hi, d) && Bounded(t, u, mid, hi, d) && (mid < hi ==> t[mid] == u[mid + d])
  {
  }

  lemma {:induction false} SkipWsLocal(t: string, u: string, i: nat, hi: nat, d: int)
    requires Agree(t, u, i, hi, d) && Decided(t, u, hi, d, SkipWs(t, i))
    ensures SkipWs(u, i + d) == SkipWs(t, i) + d
    decreases hi - i
  {
    if i < hi && IsWs(t[i]) { SkipWsLocal(t, u, i + 1, hi, d); }
  }

  lemma {:induction false} FindLocal(t: string, u: string, c: char, i: nat, hi: nat, d: int)
    requires Agree(t, u, i, hi, d)
    requires Find(t, c, i).Some? && Find(t, c, i).value < hi
    ensures Find(u, c, i + d) == Some(Find(t, c, i).value + d)
  {
    var k := Find(t, c, i).value;
    var r := Find(u, c, i + d);
    assert u[k + d] == c;
    assert r.Some? && r.value <= k + d;
    assert t[r.value - d] == c;
  }

  lemma {:induction false} LineEndLocal(t: string, u: string, i: nat, hi: nat, d: int)
    requires Agree(t, u, i, hi, d) && i < hi && LineEnd(t, i) <= hi
    requires Sealed(t, u, hi, d) || t[hi - 1] == '\n' || LineEnd(t, i) < hi
    ensures LineEnd(u, i + d) == LineEnd(t, i) + d
  {
    if Find(t, '\n', i).Some? {
      FindLocal(t, u, '\n', i, hi, d);
    } else {
      assert Sealed(t, u, hi, d);
      var r := Find(u, '\n', i + d);
      assert forall k | i + d <= k < |u| :: u[k] == t[k - d];
    }
  }

  lemma {:induction false} SkipTriviaLocal(t: string, u: string, i: nat, hi: nat, d: int)
    requires Window(t, u, i, hi, d) && SkipTrivia(t, i) < hi
    ensures SkipTrivia(u, i + d) == SkipTrivia(t, i) + d
    decreases hi - i
  {
    hide LineEnd, Window;
    WindowAgrees(t, u, i, hi, d);
    if i < hi && IsTrivia(t[i]) {
      Narrow(t, u, i, hi, d, i + 1);
      SkipTriviaLocal(t, u, i + 1, hi, d);
    } else if i < hi && t[i] == '#' {
      assert i < LineEnd(t, i) <= SkipTrivia(t, LineEnd(t, i)) == SkipTrivia(t, i);
      LineEndLocal(t, u, i, hi, d);
      Narrow(t, u, i, hi, d, LineEnd(t, i));
      SkipTriviaLocal(t, u, LineEnd(t, i), hi, d);
    }
  }

  lemma {:induction false} BasicEndLocal(t: string, u: string, c: nat, hi: nat, d: int)
    requires BasicEnd(t, c).Some? && c < hi && BasicEnd(t, c).value <= hi
    requires Agree(t, u, c, hi, d)
    ensures BasicEnd(u, c + d) == Some(BasicEnd(t, c).value + d)
    decreases hi - c
  {
    if t[c] == '\\' {
      BasicEndLocal(t, u, c + 2, hi, d);
    } else if t[c] != '"' {
      BasicEndLocal(t, u, c + 1, hi, d);
    }
  }

  lemma {:induction false} LiteralEndLocal(t: string, u: string, c: nat, hi: nat, d: int)
    requires Agree(t, u, c, hi, d)
    requires LiteralEnd(t, c).Some? && LiteralEnd(t, c).value <= hi
    ensures LiteralEnd(u, c + d) == Some(LiteralEnd(t, c).value + d)
  {
    FindLocal(t, u, '\'', c, hi, d);
    var close := Find(t, '\'', c).value;
    var newline := Find(u, '\n', c + d);
    assert forall k | c + d <= k < close + d :: u[k] == t[k - d];
  }

  lemma {:induction false} ExtraQuotesLocal(t: string, u: string, q: char, e: nat, extra: nat, hi: nat, d: int)
    requires q != '\n' && q != '\r' && extra <= 2 && Window(t, u, e, hi, d) && Decided(t, u, hi, d, ExtraQuotes(t, q, e, extra))
    ensures ExtraQuotes(u, q, e + d, extra) == ExtraQuotes(t, q, e, extra) + d
    decreases 2 - extra
  {
    if e < hi && t[e] == q && extra < 2 { ExtraQuotesLocal(t, u, q, e + 1, extra + 1, hi, d); }
  }

  lemma {:induction false} MultiEndLocal(t: string, u: string, q: char, c: nat, hi: nat, d: int)
    requires MultiEnd(t, q, c).Some? && c < hi && Window(t, u, c, hi, d) && q != '\n' && q != '\r'
    requires Decided(t, u, hi, d, MultiEnd(t, q, c).value)
    ensures MultiEnd(u, q, c + d) == Some(MultiEnd(t, q, c).value + d)
    decreases hi - c
  {
    hide Window, ExtraQuotes;
    var end := MultiEnd(t, q, c).value;
    Narrow(t, u, c, hi, d, c);
    WindowAgrees(t, u, c, hi, d);
    TripleLocal(t, u, q, c, hi, d);
    if q == '"' && t[c] == '\\' {
      assert c + 2 < end;
      Narrow(t, u, c, hi, d, c + 2);
      MultiEndLocal(t, u, q, c + 2, hi, d);
    } else if Triple(t, q, c) {
      Narrow(t, u, c, hi, d, c + 3);
      ExtraQuotesLocal(t, u, q, c + 3, 0, hi, d);
    } else {
      assert c + 1 < end;
      Narrow(t, u, c, hi, d, c + 1);
      MultiEndLocal(t, u, q, c + 1, hi, d);
    }
  }

  lemma {:induction false} BareRunLocal(t: string, u: string, i: nat, hi: nat, d: int)
    requires Window(t, u, i, hi, d) && Decided(t, u, hi, d, BareRunEnd(t, i))
    ensures BareRunEnd(u, i + d) == BareRunEnd(t, i) + d
    decreases hi - i
  {
    if i < hi && IsBareValueChar(t[i]) { BareRunLocal(t, u, i + 1, hi, d); }
  }

  lemma {:induction false} BareKeyLocal(t: string, u: string, i: nat, hi: nat, d: int)
    requires Agree(t, u, i, hi, d) && Decided(t, u, hi, d, BareKeyEnd(t, i))
    ensures BareKeyEnd(u, i + d) == BareKeyEnd(t, i) + d
    decreases hi - i
  {
    if i < hi && IsBareKeyChar(t[i]) { BareKeyLocal(t, u, i + 1, hi, d); }
  }

  lemma SliceLocal(t: string, u: string, lo: nat, a: nat, b: nat, hi: nat, d: int)
    requires Agree(t, u, lo, hi, d) && lo <= a <= b <= hi
    ensures t[a..b] == u[a + d..b + d]
  {
    forall k | 0 <= k < b - a
      ensures t[a..b][k] == u[a + d..b + d][k]
    {
      assert t[a + k] == u[a + k + d];
    }
  }

  /** The look-ahead for a time stops at the line break that closes the window. */
  lemma SpaceBeforeTimeLocal(t: string, u: string, e: nat, hi: nat, d: int)
    requires Window(t, u, e, hi, d)
    ensures SpaceBeforeTime(u, e + d) == SpaceBeforeTime(t, e)
  {
    if e + 6 <= hi {
      assert forall k | e <= k < e + 6 :: t[k] == u[k + d];
    } else if Capped(t, u, hi, d) {
      assert hi == e || hi == e + 1 || hi == e + 2 || hi == e + 3 || hi == e + 4 || hi == e + 5;
    } else {
      assert t[hi - 1] == u[hi - 1 + d] == '\n';
      assert hi - 1 == e || hi - 1 == e + 1 || hi - 1 == e + 2 || hi - 1 == e + 3 || hi - 1 == e + 4;
    }
  }

  lemma SpaceTaken(t: string, e: nat)
    requires SpaceBeforeTime(t, e)
    ensures e + 1 < BareRunEnd(t, e + 1)
  {
    assert IsBareValueChar(t[e + 1]);
  }

  lemma {:induction false} BareValueLocal(t: string, u: string, i: nat, hi: nat, d: int)
    requires Window(t, u, i, hi, d)
    requires BareValueEnd(t, i).Some? && Decided(t, u, hi, d, BareValueEnd(t, i).value)
    ensures BareValueEnd(u, i + d) == Some(BareValueEnd(t, i).value + d)
  {
    hide BareRunEnd, SpaceBeforeTime, IsLocalDate, Window, Agree;
    var e := BareRunEnd(t, i);
    WindowAgrees(t, u, i, hi, d);
    BareRunLocal(t, u, i, hi, d);
    Narrow(t, u, i, hi, d, e);
    if IsLocalDate(t[i..e]) && SpaceBeforeTime(t, e) { SpaceTaken(t, e); Narrow(t, u, i, hi, d, e + 1); }
    SliceLocal(t, u, i, i, e, hi, d);
    SpaceBeforeTimeLocal(t, u, e, hi, d);
    if IsLocalDate(t[i..e]) && SpaceBeforeTime(t, e) { BareRunLocal(t, u, e + 1, hi, d); }
  }

  lemma {:induction false} KeyPartLocal(t: string, u: string, p: nat, hi: nat, d: int)
    requires Agree(t, u, p, hi, d) && KeyPartEnd(t, p).Some? && KeyPartEnd(t, p).value < hi
    ensures KeyPartEnd(u, p + d) == Some(KeyPartEnd(t, p).value + d)
  {
    if t[p] == '"' {
      BasicEndLocal(t, u, p + 1, hi, d);
    } else if t[p] == '\'' {
      LiteralEndLocal(t, u, p + 1, hi, d);
    } else {
      BareKeyLocal(t, u, p, hi, d);
    }
  }

  lemma {:induction false} KeyEndLocal(t: string, u: string, i: nat, hi: nat, d: int, after: nat)
    requires Agree(t, u, i, hi, d) && KeyEnd(t, i).Some?
    requires after == SkipWs(t, KeyEnd(t, i).value) < hi
    ensures KeyEnd(u, i + d) == Some(KeyEnd(t, i).value + d)
    ensures SkipWs(u, KeyEnd(t, i).value + d) == after + d
    decreases hi - i
  {
    hide SkipWs, KeyPartEnd, KeyEnd, Agree;
    var p := SkipWs(t, i);
    KeyEndBeyond(t, i);
    KeyEndStep(t, i);
    var e := KeyPartEnd(t, p).value;
    var a := SkipWs(t, e);
    NarrowAgree(t, u, i, hi, d, i);
    NarrowAgree(t, u, i, hi, d, p);
    NarrowAgree(t, u, i, hi, d, e);
    NarrowAgree(t, u, i, hi, d, a);
    SkipWsLocal(t, u, i, hi, d);
    KeyPartLocal(t, u, p, hi, d);
    SkipWsLocal(t, u, e, hi, d);
    KeyEndStep(u, i + d);
    if a < |t| && t[a] == '.' {
      NarrowAgree(t, u, i, hi, d, a + 1);
      KeyEndLocal(t, u, a + 1, hi, d, after);
    }
  }

  lemma KeyEndStep(t: string, i: nat)
    requires i <= |t| && KeyPartEnd(t, SkipWs(t, i)).Some?
    ensures var e := KeyPartEnd(t, SkipWs(t, i)).value; var a := SkipWs(t, e);
      KeyEnd(t, i) == if a < |t| && t[a] == '.' then KeyEnd(t, a + 1) else Some(e)
  {
    hide SkipWs, KeyPartEnd;
  }

  lemma KeyEndBeyond(t: string, i: nat)
    requires i <= |t| && KeyEnd(t, i).Some?
    ensures var e := KeyPartEnd(t, SkipWs(t, i)); e.Some? && SkipWs(t, i) < e.value <= SkipWs(t, e.value) <= SkipWs(t, KeyEnd(t, i).value)
  {
  }

  lemma {:induction false} ValueLocal(t: string, u: string, i: nat, hi: nat, d: int)
    requires Window(t, u, i, hi, d)
    requires ScanValue(t, i).Good? && Decided(t, u, hi, d, ScanValue(t, i).end)
    ensures ScanValue(u, i + d) == ScanValue(t, i).(end := ScanValue(t, i).end + d)
    decreases hi - i, 0
  {
    hide SkipTrivia, BasicEnd, LiteralEnd, MultiEnd, BareValueEnd, ArrayFrom, InlineFrom, Triple;
    TripleLocal(t, u, '"', i, hi, d);
    TripleLocal(t, u, '\'', i, hi, d);
    if Triple(t, '"', i) {
      MultiEndLocal(t, u, '"', i + 3, hi, d);
    } else if Triple(t, '\'', i) {
      MultiEndLocal(t, u, '\'', i + 3, hi, d);
    } else if t[i] == '"' {
      BasicEndLocal(t, u, i + 1, hi, d);
    } else if t[i] == '\'' {
      LiteralEndLocal(t, u, i + 1, hi, d);
    } else if t[i] == '[' {
      ArrayLocal(t, u, i + 1, false, hi, d);
    } else if t[i] == '{' {
      InlineValueLocal(t, u, i, hi, d);
    } else {
      BareValueLocal(t, u, i, hi, d);
    }
  }

  lemma {:induction false} InlineValueLocal(t: string, u: string, i: nat, hi: nat, d: int)
    requires Window(t, u, i, hi, d) && i < hi && t[i] == '{'
    requires ScanValue(t, i).Good? && Decided(t, u, hi, d, ScanValue(t, i).end)
    ensures ScanValue(u, i + d) == ScanValue(t, i).(end := ScanValue(t, i).end + d)
    decreases hi - i - 1, 3
  {
    hide SkipTrivia, BasicEnd, LiteralEnd, MultiEnd, BareValueEnd, ArrayFrom, InlineFrom;
    var c := SkipTrivia(t, i + 1);
    if c >= |t| || t[c] != '}' { InlineBeyond(t, c, false); }
    SkipTriviaLocal(t, u, i + 1, hi, d);
    if c >= |t| || t[c] != '}' { InlineLocal(t, u, c, false, hi, d); }
  }

  /** A value that ends before the window does was not mistaken for another kind of string. */
  lemma TripleLocal(t: string, u: string, q: char, i: nat, hi: nat, d: int)
    requires Window(t, u, i, hi, d) && q != '\n' && q != '\r' && i < hi
    ensures Triple(u, q, i + d) == Triple(t, q, i)
  {
    if i + 3 > hi && Capped(t, u, hi, d) {
      assert hi == i + 1 || hi == i + 2;
    } else if i + 3 > hi {
      assert t[hi - 1] == u[hi - 1 + d] == '\n';
      assert hi - 1 == i || hi - 1 == i + 1;
    }
  }

  lemma AfterItemLocal(t: string, u: string, value: Scan, close: char, hi: nat, d: int)
    requires value.Good? && Window(t, u, value.end, hi, d) && close != '\n'
    requires !AfterItem(t, value, close).Broken? && Decided(t, u, hi, d, AfterItem(t, value, close).at)
    ensures AfterItem(u, value.(end := value.end + d), close)
      == AfterItem(t, value, close).(at := AfterItem(t, value, close).at + d)
  {
    hide SkipTrivia, Window;
    WindowAgrees(t, u, value.end, hi, d);
    var c := SkipTrivia(t, value.end);
    Narrow(t, u, value.end, hi, d, c);
    SkipTriviaLocal(t, u, value.end, hi, d);
  }

  lemma {:induction false} ArrayLocal(t: string, u: string, i: nat, m: bool, hi: nat, d: int)
    requires Window(t, u, i, hi, d)
    requires ArrayFrom(t, i, m).Good? && Decided(t, u, hi, d, ArrayFrom(t, i, m).end)
    ensures ArrayFrom(u, i + d, m) == ArrayFrom(t, i, m).(end := ArrayFrom(t, i, m).end + d)
    decreases hi - i, 1
  {
    hide SkipTrivia, ScanValue, Window, AfterItem;
    WindowAgrees(t, u, i, hi, d);
    var c := SkipTrivia(t, i);
    assert i <= c < ArrayFrom(t, i, m).end;
    Narrow(t, u, i, hi, d, c);
    SkipTriviaLocal(t, u, i, hi, d);
    if t[c] != ']' {
      var value := ScanValue(t, c);
      var turn := AfterItem(t, value, ']');
      assert c < value.end < turn.at <= ArrayFrom(t, i, m).end;
      Narrow(t, u, i, hi, d, value.end);
      ValueLocal(t, u, c, hi, d);
      AfterItemLocal(t, u, value, ']', hi, d);
      if turn.Next? {
        Narrow(t, u, i, hi, d, turn.at);
        ArrayLocal(t, u, turn.at, m || turn.inner, hi, d);
      }
    }
  }

  lemma InlineBeyond(t: string, i: nat, m: bool)
    requires i <= |t| && InlineFrom(t, i, m).Good?
    ensures i < InlineFrom(t, i, m).end
  {
  }

  lemma {:induction false} InlineTurnLocal(t: string, u: string, i: nat, hi: nat, d: int)
    requires Window(t, u, i, hi, d)
    requires !InlineTurn(t, i).Broken? && Decided(t, u, hi, d, InlineTurn(t, i).at)
    ensures InlineTurn(u, i + d) == InlineTurn(t, i).(at := InlineTurn(t, i).at + d)
    decreases hi - i, 1
  {
    hide SkipTrivia, SkipWs, KeyEnd, ScanValue, Window, AfterItem;
    var k := SkipTrivia(t, i);
    var key := KeyEnd(t, k).value;
    var c := SkipWs(t, key);
    var v := SkipWs(t, c + 1);
    var value := ScanValue(t, v);
    assert i <= k < key <= c < v < value.end < InlineTurn(t, i).at;
    WindowAgrees(t, u, i, hi, d);
    Narrow(t, u, i, hi, d, k);
    Narrow(t, u, i, hi, d, c);
    Narrow(t, u, i, hi, d, c + 1);
    Narrow(t, u, i, hi, d, v);
    Narrow(t, u, i, hi, d, value.end);
    SkipTriviaLocal(t, u, i, hi, d);
    KeyEndLocal(t, u, k, hi, d, c);
    SkipWsLocal(t, u, c + 1, hi, d);
    ValueLocal(t, u, v, hi, d);
    AfterItemLocal(t, u, value, '}', hi, d);
  }

  lemma {:induction false} InlineLocal(t: string, u: string, i: nat, m: bool, hi: nat, d: int)
    requires Window(t, u, i, hi, d)
    requires InlineFrom(t, i, m).Good? && Decided(t, u, hi, d, InlineFrom(t, i, m).end)
    ensures InlineFrom(u, i + d, m) == InlineFrom(t, i, m).(end := InlineFrom(t, i, m).end + d)
    decreases hi - i, 2
  {
    hide InlineTurn;
    InlineTurnLocal(t, u, i, hi, d);
    if InlineTurn(t, i).Next? {
      InlineLocal(t, u, InlineTurn(t, i).at, m || InlineTurn(t, i).inner, hi, d);
    }
  }

  lemma WindowAgrees(t: string, u: string, lo: nat, hi: nat, d: int)
    requires Window(t, u, lo, hi, d)
    ensures Agree(t, u, lo, hi, d)
  {
  }

  // ------------------------------------------------------------------ statements

  function Shift(s: Statement, d: int): Statement {
    if s.kind == Key
    then s.(start := s.start + d, end := s.end + d, valueStart := s.valueStart + d, valueEnd := s.valueEnd + d)
    else s.(start := s.start + d, end := s.end + d)
  }

  lemma {:induction false} FinishLineLocal(t: string, u: string, i: nat, hi: nat, d: int)
    requires Lines(t, u, i, hi, d) && FinishLine(t, i).Some? && FinishLine(t, i).value <= hi
    requires i < hi || Sealed(t, u, hi, d)
    ensures FinishLine(u, i + d) == Some(FinishLine(t, i).value + d)
  {
    var p := SkipWs(t, i);
    if p < hi {
      SkipWsLocal(t, u, i, hi, d);
      LineEndLocal(t, u, p, hi, d);
      if t[p] == '\r' {
        assert p + 1 < LineEnd(t, p);
        assert t[p + 1] == u[p + 1 + d];
      }
    } else if Sealed(t, u, hi, d) {
      SkipWsLocal(t, u, i, hi, d);
    } else {
      assert false;
    }
  }

  /** A statement that a window contains is scanned the same in both texts. */
  lemma {:induction false} StatementLocal(t: string, u: string, pos: nat, hi: nat, d: int)
    requires Lines(t, u, pos, hi, d) && pos < hi
    requires ScanStatement(t, pos).Some? && ScanStatement(t, pos).value.end <= hi
    ensures ScanStatement(u, pos + d) == Some(Shift(ScanStatement(t, pos).value, d))
  {
    hide SkipWs, LineEnd, ScanHeader, ScanKeyLine;
    var cursor := SkipWs(t, pos);
    StatementBeyond(t, pos);
    if cursor < hi || Sealed(t, u, hi, d) {
      SkipWsLocal(t, u, pos, hi, d);
      if IsTrivial(t, cursor) {
        if cursor < hi { LineEndLocal(t, u, cursor, hi, d); }
      } else if t[cursor] == '[' {
        HeaderLocal(t, u, pos, cursor, hi, d);
      } else {
        KeyLineLocal(t, u, pos, cursor, hi, d);
      }
    } else {
      assert false;
    }
  }

  /** A statement ends after its leading blanks, and not on a blank unless the text ends there. */
  lemma StatementBeyond(t: string, pos: nat)
    requires pos < |t| && ScanStatement(t, pos).Some?
    ensures var cursor := SkipWs(t, pos);
      cursor <= ScanStatement(t, pos).value.end && (cursor < |t| ==> cursor < ScanStatement(t, pos).value.end)
  {
    hide SkipWs, KeyEnd, ParseKeyText, ScanValue;
  }

  lemma {:induction false} HeaderLocal(t: string, u: string, pos: nat, cursor: nat, hi: nat, d: int)
    requires Lines(t, u, pos, hi, d) && pos <= cursor < hi && t[cursor] == '['
    requires ScanHeader(t, pos, cursor).Some? && ScanHeader(t, pos, cursor).value.end <= hi
    ensures ScanHeader(u, pos + d, cursor + d) == Some(Shift(ScanHeader(t, pos, cursor).value, d))
  {
    hide SkipWs, KeyEnd, FinishLine, ParseKeyText, Sealed;
    var double := cursor + 1 < |t| && t[cursor + 1] == '[';
    var width := if double then 2 else 1;
    var nameEnd := KeyEnd(t, cursor + width).value;
    var c := SkipWs(t, nameEnd);
    assert c + width <= FinishLine(t, c + width).value <= hi;
    assert t[cursor + 1] == u[cursor + 1 + d];
    KeyEndLocal(t, u, cursor + width, hi, d, c);
    SliceLocal(t, u, pos, cursor + width, nameEnd, hi, d);
    assert t[c] == u[c + d] && t[c + width - 1] == u[c + width - 1 + d];
    FinishLineLocal(t, u, c + width, hi, d);
  }

  lemma {:induction false} KeyLineLocal(t: string, u: string, pos: nat, cursor: nat, hi: nat, d: int)
    requires Lines(t, u, pos, hi, d) && pos <= cursor < hi
    requires ScanKeyLine(t, pos, cursor).Some? && ScanKeyLine(t, pos, cursor).value.end <= hi
    ensures ScanKeyLine(u, pos + d, cursor + d) == Some(Shift(ScanKeyLine(t, pos, cursor).value, d))
  {
    hide SkipWs, KeyEnd, FinishLine, ParseKeyText, ScanValue;
    var keyEnd := KeyEnd(t, cursor).value;
    var c := SkipWs(t, keyEnd);
    var v := SkipWs(t, c + 1);
    var Good(e, multiline) := ScanValue(t, v);
    KeyEndLocal(t, u, cursor, hi, d, c);
    SliceLocal(t, u, pos, cursor, keyEnd, hi, d);
    SkipWsLocal(t, u, c + 1, hi, d);
    assert e <= hi && t[e - 1] != '\n';
    ValueLocal(t, u, v, hi, d);
    FinishLineLocal(t, u, e, hi, d);
  }

  // ------------------------------------------------------------------ whole scans

  function ShiftAll(ss: seq<Statement>, d: int): (r: seq<Statement>)
    ensures |r| == |ss|
    ensures forall k | 0 <= k < |ss| :: r[k] == Shift(ss[k], d)
  {
    if ss == [] then [] else [Shift(ss[0], d)] + ShiftAll(ss[1..], d)
  }

  /** The rest of a text scans the same wherever it is put. */
  lemma {:induction false} SuffixLocal(t: string, u: string, pos: nat, d: int)
    requires Lines(t, u, pos, |t|, d) && Sealed(t, u, |t|, d)
    requires Statements(t, pos).Some?
    ensures Statements(u, pos + d) == Some(ShiftAll(Statements(t, pos).value, d))
    decreases |t| - pos
  {
    hide ScanStatement;
    if pos < |t| {
      var first := ScanStatement(t, pos).value;
      StatementLocal(t, u, pos, |t|, d);
      SuffixLocal(t, u, first.end, d);
      assert Statements(t, pos).value[1..] == Statements(t, first.end).value;
    }
  }

  /** The scan from `pos` stops at `cut` between two statements. */
  predicate Boundary(t: string, pos: nat, cut: nat)
    requires pos <= cut <= |t|
    decreases cut - pos
  {
    pos == cut || (ScanStatement(t, pos).Some? && ScanStatement(t, pos).value.end <= cut
                   && Boundary(t, ScanStatement(t, pos).value.end, cut))
  }

  function Head(t: string, pos: nat, cut: nat): seq<Statement>
    requires pos <= cut <= |t| && Boundary(t, pos, cut)
    decreases cut - pos
  {
    if pos == cut then []
    else [ScanStatement(t, pos).value] + Head(t, ScanStatement(t, pos).value.end, cut)
  }

  /** The statements before a boundary stay when only text after it changes. */
  lemma {:induction false} PrefixLocal(t: string, u: string, pos: nat, cut: nat)
    requires pos <= cut <= |t| && cut <= |u| && Boundary(t, pos, cut)
    requires Agree(t, u, pos, cut, 0) && (pos < cut ==> t[cut - 1] == '\n')
    requires Statements(u, cut).Some?
    ensures Statements(u, pos) == Some(Head(t, pos, cut) + Statements(u, cut).value)
    decreases cut - pos
  {
    hide ScanStatement, Agree;
    var tail := Statements(u, cut).value;
    if pos < cut {
      var first := ScanStatement(t, pos).value;
      StatementLocal(t, u, pos, cut, 0);
      assert Shift(first, 0) == first;
      AgreeFrom(t, u, pos, cut, first.end);
      PrefixLocal(t, u, first.end, cut);
      assert Head(t, pos, cut) + tail == [first] + (Head(t, first.end, cut) + tail);
    } else {
      assert [] + tail == tail;
    }
  }

  lemma AgreeFrom(t: string, u: string, lo: nat, hi: nat, mid: nat)
    requires Agree(t, u, lo, hi, 0) && lo <= mid <= hi
    ensures Agree(t, u, mid, hi, 0)
  {
  }

  /** Every statement of a scan starts at a boundary, and the statements before it are the head. */
  lemma {:induction false} StatementBoundary(t: string, pos: nat, n: nat, cut: nat)
    requires pos <= |t| && Statements(t, pos).Some? && n <= |Statements(t, pos).value|
    requires cut == if n == |Statements(t, pos).value| then |t| else Statements(t, pos).value[n].start
    ensures pos <= cut <= |t| && Boundary(t, pos, cut)
    ensures Head(t, pos, cut) == Statements(t, pos).value[..n]
    ensures Statements(t, cut) == Some(Statements(t, pos).value[n..])
    decreases n
  {
    hide ScanStatement;
    var ss := Statements(t, pos).value;
    if n > 0 {
      var rest := Statements(t, ss[0].end).value;
      assert ss == [ss[0]] + rest;
      StatementBoundary(t, ss[0].end, n - 1, cut);
      assert ss[n..] == rest[n - 1..];
    }
  }

  /** A statement that is not the last ends with a line break. */
  lemma {:induction false} InnerStatementsEndLines(t: string, pos: nat)
    requires pos < |t| && ScanStatement(t, pos).Some? && ScanStatement(t, pos).value.end < |t|
    ensures t[ScanStatement(t, pos).value.end - 1] == '\n'
  {
    hide SkipWs, KeyEnd, ParseKeyText, ScanValue;
  }
}
