/**
 `set_value` for a key that is not there yet: a line added to a present section, or a section
 appended to the text. What is added scans as exactly that, the rest keeps its statements, and
 taking the line out again gives the text back.
 */
module TomlAdd {
  import opened Texts
  import opened Wrappers
  import opened TomlGrammar
  import opened TomlLocality
  import opened TomlEdit
  import R = TomlRender

  // ------------------------------------------------------------------ an added line

  lemma {:induction false} SkipWsIs(t: string, i: nat, e: nat)
    requires i <= e <= |t| && (forall k | i <= k < e :: IsWs(t[k])) && (e < |t| ==> !IsWs(t[e]))
    ensures SkipWs(t, i) == e
    decreases e - i
  {
    if i < e { SkipWsIs(t, i + 1, e); }
  }

  lemma {:induction false} SkippedAreWs(t: string, i: nat)
    requires i <= |t|
    ensures forall k | i <= k < SkipWs(t, i) :: IsWs(t[k])
    decreases |t| - i
  {
    if i < |t| && IsWs(t[i]) { SkippedAreWs(t, i + 1); }
  }

  lemma {:induction false} BareKeyIs(t: string, i: nat, e: nat)
    requires i <= e <= |t| && (forall k | i <= k < e :: IsBareKeyChar(t[k])) && (e < |t| ==> !IsBareKeyChar(t[e]))
    ensures BareKeyEnd(t, i) == e
    decreases e - i
  {
    if i < e { BareKeyIs(t, i + 1, e); }
  }

  predicate IsBareKey(key: string) { key != "" && forall k | 0 <= k < |key| :: IsBareKeyChar(key[k]) }

  /** A printed key is one key part wherever it stands, up to a blank or the end of the text. */
  lemma KeyPartIs(t: string, i: nat, key: string)
    requires key != "" && R.At(t, i, RenderKey(key))
    requires i + |RenderKey(key)| < |t| ==> !IsBareKeyChar(t[i + |RenderKey(key)|])
    ensures i < |t| && t[i] == RenderKey(key)[0] && !IsWs(t[i]) && t[i] != '[' && !IsTrivial(t, i)
    ensures KeyPartEnd(t, i) == Some(i + |RenderKey(key)|)
    ensures t[i] == '"' <==> !IsBareKey(key)
    ensures t[i] != '\''
  {
    hide BasicEnd, R.RenderChars, BareKeyEnd;
    var w := RenderKey(key);
    assert forall k | 0 <= k < |w| :: t[i + k] == t[i..i + |w|][k] == w[k];
    assert t[i] == w[0];
    if IsBareKey(key) {
      forall k | i <= k < i + |w|
        ensures IsBareKeyChar(t[k])
      {
        assert t[i + (k - i)] == w[k - i];
      }
      BareKeyIs(t, i, i + |w|);
    } else {
      var chars := R.RenderChars(key);
      assert w == "\"" + (chars + "\"");
      R.AtSplit(t, i, "\"", chars + "\"");
      R.StringEnds(t, i + 1, key);
    }
  }

  /** The loader decodes a printed key as that one key. */
  lemma KeyReads(key: string)
    requires key != ""
    ensures ParseKeyText(RenderKey(key)) == Some([key])
  {
    hide Unescape, KeyPartEnd, R.RenderChars;
    var w := RenderKey(key);
    assert w[0..0 + |w|] == w;
    KeyPartIs(w, 0, key);
    SkipWsIs(w, 0, 0);
    if IsBareKey(key) {
      assert w[0..|w|] == key;
    } else {
      R.StringReads(key);
      assert w[1..|w| - 1] == R.RenderChars(key);
    }
  }

  predicate IsNewline(nl: string) { nl == "\n" || nl == "\r\n" }

  lemma NewlineFinishes(t: string, e: nat, nl: string)
    requires IsNewline(nl) && R.At(t, e, nl)
    ensures FinishLine(t, e) == Some(e + |nl|)
  {
    hide R.At, Find, SkipWs;
    NewlineThere(t, e, nl);
    SkipWsIs(t, e, e);
  }

  lemma NewlineThere(t: string, e: nat, nl: string)
    requires IsNewline(nl) && R.At(t, e, nl)
    ensures e + |nl| <= |t| && t[e] == nl[0] && (|nl| == 2 ==> t[e + 1] == '\n') && Find(t, '\n', e) == Some(e + |nl| - 1)
  {
    hide R.At, Find;
    R.AtChar(t, e, nl, 0);
    R.AtChar(t, e, nl, |nl| - 1);
    var r := Find(t, '\n', e);
    assert r.Some? && r.value <= e + |nl| - 1;
  }

  function KeyLine(indent: string, key: string, w: string, nl: string): string {
    indent + (RenderKey(key) + (" = " + (w + nl)))
  }

  /** Where the parts of an added line are. */
  lemma KeyLineParts(t: string, a: nat, indent: string, key: string, w: string, nl: string)
    requires R.At(t, a, KeyLine(indent, key, w, nl)) && |w| > 0
    ensures var cursor := a + |indent|; var e := cursor + |RenderKey(key)|;
      && R.At(t, a, indent) && R.At(t, cursor, RenderKey(key))
      && e + 3 < |t| && t[e] == ' ' && !IsBareKeyChar(t[e]) && t[e + 1] == '=' && t[e + 2] == ' ' && t[e + 3] == w[0]
      && R.At(t, e + 3, w) && R.At(t, e + 3 + |w|, nl)
  {
    hide RenderKey, R.At;
    KeyLineStart(t, a, indent, key, w, nl);
    KeyLineRest(t, a + |indent| + |RenderKey(key)|, w, nl);
  }

  lemma KeyLineStart(t: string, a: nat, indent: string, key: string, w: string, nl: string)
    requires R.At(t, a, KeyLine(indent, key, w, nl))
    ensures R.At(t, a, indent) && R.At(t, a + |indent|, RenderKey(key))
    ensures R.At(t, a + |indent| + |RenderKey(key)|, " = " + (w + nl))
  {
    hide RenderKey, R.At;
    R.AtSplit(t, a, indent, RenderKey(key) + (" = " + (w + nl)));
    R.AtSplit(t, a + |indent|, RenderKey(key), " = " + (w + nl));
  }

  /** From the blank before the equals sign on. */
  lemma KeyLineRest(t: string, e: nat, w: string, nl: string)
    requires R.At(t, e, " = " + (w + nl)) && |w| > 0
    ensures e + 3 < |t| && t[e] == ' ' && !IsBareKeyChar(t[e]) && t[e + 1] == '=' && t[e + 2] == ' ' && t[e + 3] == w[0]
    ensures R.At(t, e + 3, w) && R.At(t, e + 3 + |w|, nl)
  {
    hide R.At;
    R.AtSplit(t, e, " = ", w + nl);
    R.AtSplit(t, e + 3, w, nl);
    EqualsThere(t, e);
  }

  lemma EqualsThere(t: string, e: nat)
    requires R.At(t, e, " = ")
    ensures e + 3 <= |t| && t[e] == ' ' && t[e + 1] == '=' && t[e + 2] == ' '
  {
    hide R.At;
    R.AtChar(t, e, " = ", 0);
    R.AtChar(t, e, " = ", 1);
    R.AtChar(t, e, " = ", 2);
  }

  /** The statement of an added line. */
  function Added(a: int, indent: string, key: string, w: string, nl: string): Statement {
    var vs := a + |indent| + |RenderKey(key)| + 3;
    Statement(Key, a, a + |KeyLine(indent, key, w, nl)|, [key], vs, vs + |w|, false)
  }

  lemma AddedSpan(a: int, indent: string, key: string, w: string, nl: string)
    ensures var st := Added(a, indent, key, w, nl);
      st.start == a && st.end == a + |KeyLine(indent, key, w, nl)| && st.valueEnd == st.valueStart + |w| && IsKey(st, key)
    ensures Added(a, indent, key, w, nl).valueStart == a + |indent| + |RenderKey(key)| + 3
  {
    hide RenderKey, KeyLine;
  }

  /** An added line scans as one key statement that spans exactly that line. */
  lemma AddedLineScans(t: string, a: nat, indent: string, key: string, v: R.Value, w: string, nl: string)
    requires key != "" && IsNewline(nl) && R.Render(v) == Some(w) && (forall k | 0 <= k < |indent| :: IsWs(indent[k]))
    requires a < |t| && R.At(t, a, KeyLine(indent, key, w, nl))
    ensures ScanStatement(t, a) == Some(Added(a, indent, key, w, nl))
    ensures var st := Added(a, indent, key, w, nl);
      0 <= st.valueStart <= |t| && R.ReadValue(t, st.valueStart) == R.Read(v, st.valueEnd)
  {
    hide *;
    NotWs(v);
    KeyLineParts(t, a, indent, key, w, nl);
    var cursor := a + |indent|;
    var e := cursor + |RenderKey(key)|;
    var vs := e + 3;
    KeyPartIs(t, cursor, key);
    AddedBlanks(t, a, indent, e);
    AddedKeyEnd(t, cursor, e);
    KeyReads(key);
    KeyTextAt(t, cursor, key);
    NewlineDelimits(t, vs + |w|, nl);
    R.RenderedReadsBack(t, vs, v, w);
    NewlineFinishes(t, vs + |w|, nl);
    KeyLineLength(indent, key, w, nl);
    KeyLineIs(t, a, cursor, e, [key], e + 1, vs, Good(vs + |w|, false), vs + |w| + |nl|);
    AddedIs(a, indent, key, w, nl);
  }

  lemma AddedIs(a: int, indent: string, key: string, w: string, nl: string)
    ensures var vs := a + |indent| + |RenderKey(key)| + 3;
      Added(a, indent, key, w, nl) == Statement(Key, a, vs + |w| + |nl|, [key], vs, vs + |w|, false)
  {
    hide RenderKey, KeyLine;
    KeyLineLength(indent, key, w, nl);
  }

  lemma KeyLineLength(indent: string, key: string, w: string, nl: string)
    ensures |KeyLine(indent, key, w, nl)| == |indent| + |RenderKey(key)| + 3 + |w| + |nl|
  {
    hide RenderKey;
  }

  lemma KeyTextAt(t: string, i: nat, key: string)
    requires R.At(t, i, RenderKey(key))
    ensures i + |RenderKey(key)| <= |t| && t[i..i + |RenderKey(key)|] == RenderKey(key)
  {
    hide RenderKey;
  }

  /** The blanks of an added line. */
  lemma AddedBlanks(t: string, a: nat, indent: string, e: nat)
    requires R.At(t, a, indent) && (forall k | 0 <= k < |indent| :: IsWs(indent[k]))
    requires a + |indent| < e && e + 3 < |t| && !IsWs(t[a + |indent|])
    requires t[e] == ' ' && t[e + 1] == '=' && t[e + 2] == ' ' && !IsWs(t[e + 3])
    ensures SkipWs(t, a) == a + |indent| && SkipWs(t, a + |indent|) == a + |indent|
    ensures SkipWs(t, e) == e + 1 && SkipWs(t, e + 2) == e + 3
  {
    hide SkipWs;
    forall k | a <= k < a + |indent|
      ensures IsWs(t[k])
    {
      assert t[k] == t[a..a + |indent|][k - a];
    }
    SkipWsIs(t, a, a + |indent|);
    SkipWsIs(t, a + |indent|, a + |indent|);
    SkipWsIs(t, e, e + 1);
    SkipWsIs(t, e + 2, e + 3);
  }

  /** A single key part followed by an equals sign is the whole key. */
  lemma AddedKeyEnd(t: string, cursor: nat, e: nat)
    requires cursor < e && e + 1 < |t| && SkipWs(t, cursor) == cursor && KeyPartEnd(t, cursor) == Some(e)
    requires SkipWs(t, e) == e + 1 && t[e + 1] == '='
    ensures KeyEnd(t, cursor) == Some(e)
  {
    hide SkipWs, KeyPartEnd;
  }

  lemma NewlineDelimits(t: string, e: nat, nl: string)
    requires IsNewline(nl) && R.At(t, e, nl)
    ensures R.Delimited(t, e)
  {
    assert t[e] == t[e..e + |nl|][0];
  }

  /** Where the key is found once it has been added. */
  lemma AddedIndex(ss: seq<Statement>, parts: seq<string>, key: string, h: nat, m: nat, st: Statement, d: int)
    requires FindHeader(ss, 0, parts) == Some(h) && FindKey(ss, h + 1, BodyEnd(ss, h + 1), key).None?
    requires h < m <= BodyEnd(ss, h + 1) && IsKey(st, key)
    ensures KeyIndex(ss[..m] + [st] + ShiftAll(ss[m..], d), parts, key) == Some(m)
  {
    hide FindHeader, BodyEnd, FindKey, ShiftAll;
    var added := ss[..m] + [st] + ShiftAll(ss[m..], d);
    assert forall k | 0 <= k < m :: added[k] == ss[k];
    assert added[m] == st;
    assert IsHeader(added[h], parts);
    assert FindHeader(added, 0, parts) == Some(h);
    var stop := BodyEnd(added, h + 1);
    assert stop > m;
    assert IsKey(added[m], key);
    assert FindKey(added, h + 1, stop, key) == Some(m);
  }

  /** The statement before an insertion point ends a line. */
  lemma AnchorEndsLine(t: string, ss: seq<Statement>, m: nat)
    requires Statements(t, 0) == Some(ss) && 0 < m <= |ss|
    ensures 0 < ss[m - 1].end <= |t|
    ensures ss[m - 1].end == if m == |ss| then |t| else ss[m].start
    ensures Statements(t, ss[m - 1].end) == Some(ss[m..])
    ensures ss[m - 1].end < |t| ==> t[ss[m - 1].end - 1] == '\n'
  {
    hide *;
    StatementsTile(t, 0, ss);
    ContiguousEverywhere(ss, 0, |t|);
    StatementAt(t, ss, m - 1);
    if m < |ss| { EndsBefore(t, ss, m); }
  }

  /** `r` is `t` with `line` put in at offset `a`. */
  predicate Inserted(t: string, a: int, line: string, r: string) {
    0 <= a <= |t| && r == t[..a] + line + t[a..]
  }

  /** The scan after a line was added behind statement `m - 1`. */
  lemma AddedScan(t: string, ss: seq<Statement>, m: nat, line: string, st: Statement, r: string)
    requires Statements(t, 0) == Some(ss) && 0 < m <= |ss|
    requires 0 < ss[m - 1].end <= |t| && t[ss[m - 1].end - 1] == '\n' && Inserted(t, ss[m - 1].end, line, r)
    requires ss[m - 1].end < |r| && ScanStatement(r, ss[m - 1].end) == Some(st) && st.end == ss[m - 1].end + |line|
    ensures Statements(r, 0) == Some(ss[..m] + [st] + ShiftAll(ss[m..], |line|))
  {
    hide *;
    var a: nat := ss[m - 1].end;
    var tail := ShiftAll(ss[m..], |line|);
    AnchorEndsLine(t, ss, m);
    InsertionAgrees(t, a, line, r);
    AddedTail(t, a, line, r, st, ss[m..]);
    Spliced(t, ss, m, a, r, [st] + tail);
    Append3(ss[..m], st, tail);
  }

  lemma Append3(a: seq<Statement>, st: Statement, b: seq<Statement>)
    ensures a + ([st] + b) == a + [st] + b
  {
  }

  lemma AddedTail(t: string, a: nat, line: string, r: string, st: Statement, rest: seq<Statement>)
    requires Inserted(t, a, line, r) && a < |r| && Statements(t, a) == Some(rest)
    requires ScanStatement(r, a) == Some(st) && st.end == a + |line|
    ensures Statements(r, a) == Some([st] + ShiftAll(rest, |line|))
  {
    hide *;
    InsertionAgrees(t, a, line, r);
    SuffixMoves(t, r, a, a, |line|);
    OneMore(r, a, st, ShiftAll(rest, |line|));
  }

  lemma InsertionAgrees(t: string, a: nat, line: string, r: string)
    requires Inserted(t, a, line, r)
    ensures a <= |t| && |r| == |t| + |line| && Agree(t, r, 0, a, 0)
    ensures Lines(t, r, a, |t|, |line|) && Sealed(t, r, |t|, |line|)
  {
  }

  // ------------------------------------------------------------------ ending the last line

  predicate EndsLine(t: string) { t != "" && t[|t| - 1] == '\n' }

  /** The text with its last line ended. */
  function Ended(t: string, nl: string): string { if t == "" || EndsLine(t) then t else t + nl }

  function EndedStatements(t: string, ss: seq<Statement>, nl: string): (r: seq<Statement>)
    ensures |r| == |ss|
  {
    if ss == [] || EndsLine(t) then ss
    else ss[..|ss| - 1] + [ss[|ss| - 1].(end := ss[|ss| - 1].end + |nl|)]
  }

  /** A line that ran to the end of the text now runs to the end of its line break. */
  lemma LineRunsOn(t: string, i: nat, nl: string)
    requires i <= |t| && LineEnd(t, i) == |t| && !EndsLine(t) && IsNewline(nl)
    ensures LineEnd(t + nl, i) == |t + nl|
  {
    var u := t + nl;
    var k := Find(u, '\n', i);
    assert u[|u| - 1] == '\n';
    assert Find(t, '\n', i) == None;
    assert forall j | i <= j < |t| :: u[j] == t[j];
    assert |nl| == 2 ==> u[|t|] == '\r';
  }

  lemma Extended(t: string, pos: nat, nl: string)
    requires pos <= |t| && IsNewline(nl)
    ensures Agree(t, t + nl, pos, |t|, 0) && Window(t, t + nl, pos, |t|, 0) && Capped(t, t + nl, |t|, 0)
    ensures (t + nl)[|t|] == nl[0] && !IsWs(nl[0])
  {
  }

  lemma FinishRunsOn(t: string, i: nat, nl: string)
    requires i <= |t| && FinishLine(t, i) == Some(|t|) && !EndsLine(t) && IsNewline(nl)
    ensures FinishLine(t + nl, i) == Some(|t + nl|)
  {
    hide SkipWs, LineEnd, Agree, Window, Capped, R.At, IsNewline, EndsLine;
    var u, p := t + nl, SkipWs(t, i);
    Extended(t, i, nl);
    SkipWsLocal(t, u, i, |t|, 0);
    if p == |t| {
      AtTheEnd(t, nl);
      NewlineFinishes(u, |t|, nl);
      SkipWsIs(u, |t|, |t|);
    } else {
      LineRunsOn(t, p, nl);
      assert u[p] == t[p] && (t[p] == '\r' ==> p + 1 < |t| && u[p + 1] == t[p + 1]);
    }
  }

  lemma AtTheEnd(t: string, nl: string)
    ensures R.At(t + nl, |t|, nl)
  {
  }

  lemma HeaderRunsOn(t: string, pos: nat, cursor: nat, nl: string)
    requires pos <= cursor < |t| && t[cursor] == '[' && !EndsLine(t) && IsNewline(nl)
    requires ScanHeader(t, pos, cursor).Some? && ScanHeader(t, pos, cursor).value.end == |t|
    ensures ScanHeader(t + nl, pos, cursor) == Some(ScanHeader(t, pos, cursor).value.(end := |t + nl|))
  {
    hide SkipWs, KeyEnd, FinishLine, ParseKeyText, Agree, Window, Capped;
    var u := t + nl;
    var double := cursor + 1 < |t| && t[cursor + 1] == '[';
    var width := if double then 2 else 1;
    var nameEnd := KeyEnd(t, cursor + width).value;
    var c := SkipWs(t, nameEnd);
    Extended(t, cursor + width, nl);
    KeyEndLocal(t, u, cursor + width, |t|, 0, c);
    SliceLocal(t, u, cursor + width, cursor + width, nameEnd, |t|, 0);
    assert u[cursor + 1] == t[cursor + 1] && t[c] == u[c] && t[c + width - 1] == u[c + width - 1];
    FinishRunsOn(t, c + width, nl);
  }

  lemma KeyLineRunsOn(t: string, pos: nat, cursor: nat, nl: string)
    requires pos <= cursor < |t| && !EndsLine(t) && IsNewline(nl)
    requires ScanKeyLine(t, pos, cursor).Some? && ScanKeyLine(t, pos, cursor).value.end == |t|
    ensures ScanKeyLine(t + nl, pos, cursor) == Some(ScanKeyLine(t, pos, cursor).value.(end := |t + nl|))
  {
    hide SkipWs, KeyEnd, FinishLine, ParseKeyText, ScanValue, Agree, Window, Capped;
    var u := t + nl;
    var keyEnd := KeyEnd(t, cursor).value;
    var c := SkipWs(t, keyEnd);
    var v := SkipWs(t, c + 1);
    Extended(t, cursor, nl);
    Extended(t, c + 1, nl);
    Extended(t, v, nl);
    KeyEndLocal(t, u, cursor, |t|, 0, c);
    SliceLocal(t, u, cursor, cursor, keyEnd, |t|, 0);
    SkipWsLocal(t, u, c + 1, |t|, 0);
    ValueLocal(t, u, v, |t|, 0);
    assert u[c] == t[c];
    FinishRunsOn(t, ScanValue(t, v).end, nl);
  }

  lemma StatementRunsOn(t: string, pos: nat, nl: string)
    requires pos < |t| && !EndsLine(t) && IsNewline(nl)
    requires ScanStatement(t, pos).Some? && ScanStatement(t, pos).value.end == |t|
    ensures ScanStatement(t + nl, pos) == Some(ScanStatement(t, pos).value.(end := |t + nl|))
  {
    hide SkipWs, LineEnd, ScanHeader, ScanKeyLine;
    var u, cursor := t + nl, SkipWs(t, pos);
    Extended(t, pos, nl);
    SkipWsLocal(t, u, pos, |t|, 0);
    if IsTrivial(t, cursor) {
      LineRunsOn(t, cursor, nl);
    } else if t[cursor] == '[' {
      HeaderRunsOn(t, pos, cursor, nl);
    } else {
      KeyLineRunsOn(t, pos, cursor, nl);
    }
  }

  /** Ending the last line changes no statement but the end of the last. */
  lemma EndedScans(t: string, ss: seq<Statement>, nl: string)
    requires Statements(t, 0) == Some(ss) && IsNewline(nl)
    ensures Statements(Ended(t, nl), 0) == Some(EndedStatements(t, ss, nl))
    ensures SameShape(ss, EndedStatements(t, ss, nl))
    ensures forall k | 0 <= k < |ss| :: EndedStatements(t, ss, nl)[k].start == ss[k].start
  {
    hide Statements;
    EndedShape(t, ss, nl);
    if t == "" || EndsLine(t) {
      NoStatements(t, ss);
    } else {
      LastRunsOn(t, ss, nl);
    }
  }

  lemma EndedShape(t: string, ss: seq<Statement>, nl: string)
    ensures SameShape(ss, EndedStatements(t, ss, nl))
    ensures forall k | 0 <= k < |ss| :: EndedStatements(t, ss, nl)[k].start == ss[k].start
  {
  }

  lemma LastRunsOn(t: string, ss: seq<Statement>, nl: string)
    requires Statements(t, 0) == Some(ss) && IsNewline(nl) && t != "" && !EndsLine(t)
    ensures ss != [] && Statements(t + nl, 0) == Some(ss[..|ss| - 1] + [ss[|ss| - 1].(end := ss[|ss| - 1].end + |nl|)])
  {
    hide *;
    FirstOf(t, 0, ss);
    var last, u := |ss| - 1, t + nl;
    StatementAt(t, ss, last);
    AnchorEndsLine(t, ss, |ss|);
    var pos: nat, st := ss[last].start, ss[last].(end := |u|);
    StatementRunsOn(t, pos, nl);
    NoStatements(u, []);
    assert [st] + [] == [st];
    OneMore(u, pos, st, []);
    if pos > 0 { EndsBefore(t, ss, last); }
    Extended(t, 0, nl);
    AgreeUpTo(t, u, |t|, pos);
    Spliced(t, ss, last, pos, u, [st]);
  }

  lemma NoStatements(t: string, ss: seq<Statement>)
    ensures t == "" && Statements(t, 0) == Some(ss) ==> ss == []
    ensures Statements(t, |t|) == Some([])
  {
  }

  // ------------------------------------------------------------------ a key added to a present section

  /** The text a line is put into behind statement `m - 1`: at the end of the text its last line is ended first. */
  function Base(t: string, ss: seq<Statement>, m: nat, nl: string): string
    requires 0 < m <= |ss|
  {
    if ss[m - 1].end < |t| then t else Ended(t, nl)
  }

  function BaseStatements(t: string, ss: seq<Statement>, m: nat, nl: string): (r: seq<Statement>)
    requires 0 < m <= |ss|
    ensures |r| == |ss|
  {
    if ss[m - 1].end < |t| then ss else EndedStatements(t, ss, nl)
  }

  lemma BaseScans(t: string, ss: seq<Statement>, m: nat, nl: string)
    requires Statements(t, 0) == Some(ss) && 0 < m <= |ss| && IsNewline(nl)
    ensures var b, bs := Base(t, ss, m, nl), BaseStatements(t, ss, m, nl);
      && Statements(b, 0) == Some(bs) && SameShape(ss, bs)
      && bs[m - 1].start == ss[m - 1].start && 0 < bs[m - 1].end <= |b| && b[bs[m - 1].end - 1] == '\n'
  {
    hide Statements, ScanStatement;
    AnchorEndsLine(t, ss, m);
    if ss[m - 1].end == |t| {
      EndedScans(t, ss, nl);
      AnchorEndsLine(Ended(t, nl), EndedStatements(t, ss, nl), m);
      WholeText(t, ss, m);
    }
  }

  /** Only the last statement ends where the text does. */
  lemma WholeText(t: string, ss: seq<Statement>, m: nat)
    requires Statements(t, 0) == Some(ss) && 0 < m <= |ss| && ss[m - 1].end == |t|
    ensures m == |ss|
  {
    hide *;
    AnchorEndsLine(t, ss, m);
    if m < |ss| { StatementAt(t, ss, m); }
  }

  /** What `set_value` builds for an absent key in a present section. */
  lemma SetTextAdds(t: string, ss: seq<Statement>, parts: seq<string>, key: string, w: string, r: string, m: nat) returns (indent: string)
    requires Statements(t, 0) == Some(ss) && FindHeader(ss, 0, parts).Some? && KeyIndex(ss, parts, key).None?
    requires m == AddedAt(ss, parts) && SetText(t, ss, parts, key, w) == Success(r)
    ensures forall k | 0 <= k < |indent| :: IsWs(indent[k])
    ensures Inserted(Base(t, ss, m, NewlineOf(t)), BaseStatements(t, ss, m, NewlineOf(t))[m - 1].end, KeyLine(indent, key, w, NewlineOf(t)), r)
  {
    hide FindHeader, BodyEnd, FindKey, AfterLastKey, AppendSection, NewlineOf, RenderKey, RenderName, AddText, Statements, Base, BaseStatements, KeyLine;
    var header := FindHeader(ss, 0, parts).value;
    assert r == AddText(t, ss, header, m, NewlineOf(t), key, w);
    AnchorEndsLine(t, ss, m);
    if ss[m - 1].end == |t| { WholeText(t, ss, m); }
    indent := AddTextIs(t, ss, header, m, NewlineOf(t), key, w);
  }

  lemma AddTextIs(t: string, ss: seq<Statement>, header: nat, m: nat, nl: string, key: string, w: string) returns (indent: string)
    requires header < m <= |ss| && SpansOf(t, ss) && 0 < ss[m - 1].end <= |t| && (ss[m - 1].end == |t| ==> m == |ss|)
    ensures forall k | 0 <= k < |indent| :: IsWs(indent[k])
    ensures Inserted(Base(t, ss, m, nl), BaseStatements(t, ss, m, nl)[m - 1].end, KeyLine(indent, key, w, nl), AddText(t, ss, header, m, nl, key, w))
  {
    hide *;
    indent := Indented(t, ss, header, m, nl, key, w);
    var end: nat := ss[m - 1].end;
    LineInserted(t, end, indent, key, w, nl);
    BaseEnds(t, ss, m, nl);
    if end < |t| {
      PutIn(t, end, KeyLine(indent, key, w, nl));
    } else {
      PutIn(Ended(t, nl), |Ended(t, nl)|, KeyLine(indent, key, w, nl));
    }
  }

  lemma Indented(t: string, ss: seq<Statement>, header: nat, m: nat, nl: string, key: string, w: string) returns (indent: string)
    requires header < m <= |ss| && SpansOf(t, ss)
    ensures forall k | 0 <= k < |indent| :: IsWs(indent[k])
    ensures 0 <= ss[m - 1].end <= |t|
    ensures AddText(t, ss, header, m, nl, key, w) == InsertLine(t, ss[m - 1].end, nl, indent + RenderKey(key) + " = " + w)
  {
    hide RenderKey, SkipWs, InsertLine;
    indent := if m > header + 1 then Indentation(t, ss[m - 1].start) else "";
    if m > header + 1 { SkippedAreWs(t, ss[m - 1].start); }
  }

  lemma BaseEnds(t: string, ss: seq<Statement>, m: nat, nl: string)
    requires 0 < m <= |ss| && 0 < ss[m - 1].end <= |t| && (ss[m - 1].end == |t| ==> m == |ss|)
    ensures ss[m - 1].end < |t| ==> Base(t, ss, m, nl) == t && BaseStatements(t, ss, m, nl) == ss
    ensures ss[m - 1].end == |t| ==>
      Base(t, ss, m, nl) == Ended(t, nl) && BaseStatements(t, ss, m, nl)[m - 1].end == |Ended(t, nl)|
  {
  }

  lemma PutIn(t: string, a: int, line: string)
    requires 0 <= a <= |t|
    ensures Inserted(t, a, line, t[..a] + line + t[a..])
    ensures a == |t| ==> t[..a] + line + t[a..] == t + line
  {
  }

  /** The line goes in as it is, or behind a line break at the end of a text without one. */
  lemma LineInserted(t: string, o: nat, indent: string, key: string, w: string, nl: string)
    requires o <= |t|
    ensures InsertLine(t, o, nl, indent + RenderKey(key) + " = " + w)
      == if o < |t| then t[..o] + KeyLine(indent, key, w, nl) + t[o..] else Ended(t, nl) + KeyLine(indent, key, w, nl)
  {
    hide RenderKey;
    var base := if o < |t| then t[..o] else Ended(t, nl);
    LineJoins(base, indent, RenderKey(key), w, nl, t[o..]);
  }

  lemma LineJoins(before: string, indent: string, rk: string, w: string, nl: string, after: string)
    ensures before + (indent + rk + " = " + w) + nl + after == before + (indent + (rk + (" = " + (w + nl)))) + after
  {
    assert indent + rk + " = " + w + nl == indent + (rk + (" = " + (w + nl)));
  }

  /** The index a key absent from a present section is added at. */
  function AddedAt(ss: seq<Statement>, parts: seq<string>): (m: nat)
    requires FindHeader(ss, 0, parts).Some?
    ensures FindHeader(ss, 0, parts).value < m <= BodyEnd(ss, FindHeader(ss, 0, parts).value + 1) <= |ss|
  {
    var header := FindHeader(ss, 0, parts).value;
    AfterLastKey(ss, header + 1, BodyEnd(ss, header + 1))
  }

  /** `line`, which sets `key` to `v`, was added behind statement `m - 1`; the rest kept its statements. */
  predicate KeyAdded(t: string, ss: seq<Statement>, m: nat, indent: string, key: string, v: R.Value, w: string, nl: string, r: string)
    requires 0 < m <= |ss|
  {
    var line, a := KeyLine(indent, key, w, nl), ss[m - 1].end;
    var st := Added(a, indent, key, w, nl);
    && Inserted(t, a, line, r)
    && Statements(r, 0) == Some(ss[..m] + [st] + ShiftAll(ss[m..], |line|))
    && 0 <= st.valueStart <= |r| && R.ReadValue(r, st.valueStart) == R.Read(v, st.valueEnd)
  }

  /**
   Setting an absent key of a present section adds one line behind the section's last key, or its
   header: the line scans as that key with that value, every other statement stays, later ones
   shifted by its length, and the key is then found there.
   */
  lemma AddedKeyIsLocal(t: string, parts: seq<string>, key: string, v: R.Value, accepts: string -> bool, r: string, ss: seq<Statement>)
    returns (indent: string)
    requires Statements(t, 0) == Some(ss) && FindHeader(ss, 0, parts).Some? && KeyIndex(ss, parts, key).None?
    requires SetValue(t, parts, key, v, accepts) == Success(r)
    ensures R.Render(v).Some? && forall k | 0 <= k < |indent| :: IsWs(indent[k])
    ensures var m, nl := AddedAt(ss, parts), NewlineOf(t);
      && Statements(Base(t, ss, m, nl), 0) == Some(BaseStatements(t, ss, m, nl))
      && KeyAdded(Base(t, ss, m, nl), BaseStatements(t, ss, m, nl), m, indent, key, v, R.Render(v).value, nl, r)
      && Statements(r, 0).Some? && KeyIndex(Statements(r, 0).value, parts, key) == Some(m)
  {
    hide Statements, ScanStatement, SetText, KeyIndex, AddedAt, R.Render, SetValue, Inserted, KeyLine, Base, BaseStatements, ShiftAll, R.ReadValue, SameShape, IsWs, KeyAdded, NewlineOf;
    var m, nl := AddedAt(ss, parts), NewlineOf(t);
    SetValueGives(t, parts, key, v, accepts, ss, r);
    NewlineIs(t);
    BaseScans(t, ss, m, nl);
    indent := SetTextAdds(t, ss, parts, key, R.Render(v).value, r, m);
    var b, bs := Base(t, ss, m, nl), BaseStatements(t, ss, m, nl);
    SameIndex(ss, bs, parts, key);
    SamePlace(ss, bs, parts);
    LineAdded(b, bs, parts, key, v, R.Render(v).value, indent, nl, r);
    AddedIsFound(b, bs, parts, m, indent, key, v, R.Render(v).value, nl, r);
  }

  lemma NewlineIs(t: string)
    ensures IsNewline(NewlineOf(t))
  {
  }

  lemma {:induction false} SameLastKey(a: seq<Statement>, b: seq<Statement>, i: nat, stop: nat)
    requires SameShape(a, b) && i <= stop <= |a|
    ensures AfterLastKey(a, i, stop) == AfterLastKey(b, i, stop)
    decreases stop
  {
    if i < stop && a[stop - 1].kind != Key { SameLastKey(a, b, i, stop - 1); }
  }

  lemma SamePlace(a: seq<Statement>, b: seq<Statement>, parts: seq<string>)
    requires SameShape(a, b) && FindHeader(a, 0, parts).Some?
    ensures FindHeader(b, 0, parts).Some? && AddedAt(b, parts) == AddedAt(a, parts)
  {
    hide FindHeader, BodyEnd, AfterLastKey;
    SameHeader(a, b, 0, parts);
    var header := FindHeader(a, 0, parts).value;
    SameBody(a, b, header + 1);
    SameLastKey(a, b, header + 1, BodyEnd(a, header + 1));
  }

  lemma LineAdded(t: string, ss: seq<Statement>, parts: seq<string>, key: string, v: R.Value, w: string, indent: string, nl: string, r: string)
    requires Statements(t, 0) == Some(ss) && FindHeader(ss, 0, parts).Some? && KeyIndex(ss, parts, key).None?
    requires key != "" && R.Render(v) == Some(w) && IsNewline(nl) && forall k | 0 <= k < |indent| :: IsWs(indent[k])
    requires var a := ss[AddedAt(ss, parts) - 1].end;
      0 < a <= |t| && t[a - 1] == '\n' && Inserted(t, a, KeyLine(indent, key, w, nl), r)
    ensures KeyAdded(t, ss, AddedAt(ss, parts), indent, key, v, w, nl, r)
  {
    hide *;
    var m := AddedAt(ss, parts);
    var st := Added(ss[m - 1].end, indent, key, w, nl);
    LineScans(t, ss, parts, key, v, w, indent, nl, r, m, st);
    KeyAddedIs(t, ss, m, indent, key, v, w, nl, r, st);
  }

  lemma LineScans(t: string, ss: seq<Statement>, parts: seq<string>, key: string, v: R.Value, w: string, indent: string, nl: string, r: string,
                  m: nat, st: Statement)
    requires Statements(t, 0) == Some(ss) && FindHeader(ss, 0, parts).Some? && KeyIndex(ss, parts, key).None? && m == AddedAt(ss, parts)
    requires key != "" && R.Render(v) == Some(w) && IsNewline(nl) && forall k | 0 <= k < |indent| :: IsWs(indent[k])
    requires 0 < ss[m - 1].end <= |t| && t[ss[m - 1].end - 1] == '\n' && Inserted(t, ss[m - 1].end, KeyLine(indent, key, w, nl), r)
    requires st == Added(ss[m - 1].end, indent, key, w, nl)
    ensures Statements(r, 0) == Some(ss[..m] + [st] + ShiftAll(ss[m..], |KeyLine(indent, key, w, nl)|))
    ensures 0 <= st.valueStart <= |r| && R.ReadValue(r, st.valueStart) == R.Read(v, st.valueEnd)
  {
    hide *;
    var a: nat, line := ss[m - 1].end, KeyLine(indent, key, w, nl);
    LineIsThere(t, a, indent, key, w, nl, r);
    AddedLineScans(r, a, indent, key, v, w, nl);
    AddedSpan(a, indent, key, w, nl);
    AddedScan(t, ss, m, line, st, r);
  }

  lemma AddedIsFound(t: string, ss: seq<Statement>, parts: seq<string>, m: nat, indent: string, key: string, v: R.Value, w: string, nl: string, r: string)
    requires FindHeader(ss, 0, parts).Some? && KeyIndex(ss, parts, key).None? && m == AddedAt(ss, parts)
    requires KeyAdded(t, ss, m, indent, key, v, w, nl, r)
    ensures Statements(r, 0).Some? && KeyIndex(Statements(r, 0).value, parts, key) == Some(m)
  {
    hide Statements, Inserted, KeyLine, ShiftAll, R.ReadValue, RenderKey, Added, KeyIndex, AddedAt, FindHeader;
    var st := Added(ss[m - 1].end, indent, key, w, nl);
    AddedSpan(ss[m - 1].end, indent, key, w, nl);
    AddedKeyIndex(ss, parts, key, m, st, |KeyLine(indent, key, w, nl)|);
  }

  lemma KeyAddedIs(t: string, ss: seq<Statement>, m: nat, indent: string, key: string, v: R.Value, w: string, nl: string, r: string, st: Statement)
    requires 0 < m <= |ss| && st == Added(ss[m - 1].end, indent, key, w, nl)
    requires Inserted(t, ss[m - 1].end, KeyLine(indent, key, w, nl), r)
    requires Statements(r, 0) == Some(ss[..m] + [st] + ShiftAll(ss[m..], |KeyLine(indent, key, w, nl)|))
    requires 0 <= st.valueStart <= |r| && R.ReadValue(r, st.valueStart) == R.Read(v, st.valueEnd)
    ensures KeyAdded(t, ss, m, indent, key, v, w, nl, r)
  {
    hide Statements, Inserted, KeyLine, ShiftAll, R.ReadValue, RenderKey, Added;
  }

  /**
   Removing a key right after it was added to a present section takes the line out again, if the
   final check lets it through. What is left is the original text; only where the line went behind
   a last line that was not ended, that line stays ended.
   */
  lemma RemoveUndoesAdd(
    t: string, parts: seq<string>, key: string, v: R.Value, accepts: string -> bool, r: string,
    ss: seq<Statement>, known: bool, accepts': string -> bool)
    ensures
      (&& Statements(t, 0) == Some(ss) && FindHeader(ss, 0, parts).Some? && KeyIndex(ss, parts, key).None?
       && SetValue(t, parts, key, v, accepts) == Success(r))
      ==> RemoveKey(r, parts, key, known, accepts') == Checked(Base(t, ss, AddedAt(ss, parts), NewlineOf(t)), accepts')
  {
    hide Statements, ScanStatement, SetText, KeyIndex, AddedAt, R.Render, SetValue, RemoveKey, Inserted, KeyLine, Base, BaseStatements, ShiftAll, R.ReadValue;
    if && Statements(t, 0) == Some(ss) && FindHeader(ss, 0, parts).Some? && KeyIndex(ss, parts, key).None?
       && SetValue(t, parts, key, v, accepts) == Success(r) {
      var m, nl := AddedAt(ss, parts), NewlineOf(t);
      var indent := AddedKeyIsLocal(t, parts, key, v, accepts, r, ss);
      SetValueGives(t, parts, key, v, accepts, ss, r);
      TakenOut(Base(t, ss, m, nl), BaseStatements(t, ss, m, nl), parts, key, v, R.Render(v).value, indent, nl, m, r, known, accepts');
    }
  }

  lemma TakenOut(
    t: string, ss: seq<Statement>, parts: seq<string>, key: string, v: R.Value, w: string,
    indent: string, nl: string, m: nat, r: string, known: bool, accepts: string -> bool)
    requires key != "" && 0 < m <= |ss| && KeyAdded(t, ss, m, indent, key, v, w, nl, r)
    requires Statements(r, 0).Some? && KeyIndex(Statements(r, 0).value, parts, key) == Some(m)
    ensures RemoveKey(r, parts, key, known, accepts) == Checked(t, accepts)
  {
    hide Statements, KeyIndex, RemoveKey, ShiftAll, R.ReadValue, RenderKey, KeyLine, Inserted, ReplaceSpan, Checked;
    var line := KeyLine(indent, key, w, nl);
    CutBack(t, ss[m - 1].end, line, r);
    var added := Statements(r, 0).value;
    assert added[m].start == ss[m - 1].end && added[m].end == ss[m - 1].end + |line|;
    RemoveAt(r, added, parts, key, m, known, accepts);
  }

  lemma SetValueGives(t: string, parts: seq<string>, key: string, v: R.Value, accepts: string -> bool, ss: seq<Statement>, r: string)
    requires Statements(t, 0) == Some(ss) && SetValue(t, parts, key, v, accepts) == Success(r)
    ensures key != "" && R.Render(v).Some? && SetText(t, ss, parts, key, R.Render(v).value) == Success(r)
  {
    hide Statements, SetText, R.Render;
  }

  lemma RemoveAt(r: string, ss: seq<Statement>, parts: seq<string>, key: string, k: nat, known: bool, accepts: string -> bool)
    requires key != "" && Statements(r, 0) == Some(ss) && KeyIndex(ss, parts, key) == Some(k)
    requires k < |ss| && 0 <= ss[k].start <= ss[k].end <= |r|
    ensures RemoveKey(r, parts, key, known, accepts) == Checked(ReplaceSpan(r, ss[k].start, ss[k].end, ""), accepts)
  {
    hide Statements, KeyIndex;
  }

  lemma CutBack(t: string, a: int, line: string, r: string)
    requires Inserted(t, a, line, r)
    ensures 0 <= a && a + |line| <= |r| && ReplaceSpan(r, a, a + |line|, "") == t
  {
    assert r[..a] == t[..a] && r[a + |line|..] == t[a..];
  }

  lemma AddedKeyIndex(ss: seq<Statement>, parts: seq<string>, key: string, m: nat, st: Statement, d: int)
    requires FindHeader(ss, 0, parts).Some? && KeyIndex(ss, parts, key).None? && m == AddedAt(ss, parts) && IsKey(st, key)
    ensures KeyIndex(ss[..m] + [st] + ShiftAll(ss[m..], d), parts, key) == Some(m)
  {
    AddedIndex(ss, parts, key, FindHeader(ss, 0, parts).value, m, st, d);
  }

  lemma LineIsThere(t: string, a: nat, indent: string, key: string, w: string, nl: string, r: string)
    requires Inserted(t, a, KeyLine(indent, key, w, nl), r) && IsNewline(nl)
    ensures a < |r| && R.At(r, a, KeyLine(indent, key, w, nl))
    ensures |KeyLine(indent, key, w, nl)| == |indent| + |RenderKey(key)| + 3 + |w| + |nl|
  {
    hide RenderKey;
    assert r[a..a + |KeyLine(indent, key, w, nl)|] == KeyLine(indent, key, w, nl);
  }

  // ------------------------------------------------------------------ a section appended to the text

  /** What `_split_name` makes of a section name: at least one part, none empty. */
  predicate Names(parts: seq<string>) { parts != [] && forall k | 0 <= k < |parts| :: parts[k] != "" }

  function HeaderLine(parts: seq<string>, nl: string): string { "[" + (RenderName(parts) + ("]" + nl)) }

  lemma NameSplits(parts: seq<string>)
    requires Names(parts) && |parts| > 1
    ensures RenderName(parts) == RenderKey(parts[0]) + ("." + RenderName(parts[1..])) && Names(parts[1..])
  {
    hide RenderKey;
  }

  /** A printed name, dots and all, is one key up to the bracket that closes it. */
  lemma {:induction false} NameEnds(t: string, i: nat, parts: seq<string>)
    requires Names(parts) && R.At(t, i, RenderName(parts) + "]")
    ensures KeyEnd(t, i) == Some(i + |RenderName(parts)|)
    ensures i < |t| && t[i] != '['
    decreases |parts|
  {
    hide RenderKey, RenderName, KeyPartEnd, KeyEnd, SkipWs, R.At;
    if |parts| == 1 {
      OneName(parts);
      PartEnds(t, i, parts[0], "]");
    } else {
      NameSplits(parts);
      var rest := RenderName(parts[1..]) + "]";
      Regroup(RenderKey(parts[0]), ".", RenderName(parts[1..]), "]");
      PartEnds(t, i, parts[0], "." + rest);
      var e := i + |RenderKey(parts[0])|;
      R.AtSplit(t, i, RenderKey(parts[0]), "." + rest);
      R.AtSplit(t, e, ".", rest);
      NameEnds(t, e + 1, parts[1..]);
    }
  }

  lemma OneName(parts: seq<string>)
    requires |parts| == 1
    ensures RenderName(parts) == RenderKey(parts[0])
  {
  }

  lemma Regroup(a: string, b: string, c: string, d: string)
    ensures a + (b + c) + d == a + (b + (c + d))
  {
  }

  /** One part of a name and what follows it. */
  lemma PartEnds(t: string, i: nat, key: string, rest: string)
    requires key != "" && R.At(t, i, RenderKey(key) + rest) && rest != "" && (rest[0] == '.' || rest[0] == ']')
    ensures var e := i + |RenderKey(key)|;
      && i < e < |t| && t[i] != '[' && t[e] == rest[0]
      && KeyEnd(t, i) == if rest[0] == '.' then KeyEnd(t, e + 1) else Some(e)
  {
    hide RenderKey, KeyPartEnd, KeyEnd, SkipWs, R.At;
    var e := i + |RenderKey(key)|;
    R.AtSplit(t, i, RenderKey(key), rest);
    AtSlice(t, e, rest);
    KeyPartIs(t, i, key);
    SkipWsIs(t, i, i);
    SkipWsIs(t, e, e);
    KeyEndStep(t, i);
  }

  /** The loader decodes a printed name part by part. */
  lemma {:induction false} NameReads(s: string, i: nat, parts: seq<string>)
    requires Names(parts) && R.At(s, i, RenderName(parts)) && i + |RenderName(parts)| == |s|
    ensures KeyParts(s, i) == Some(parts)
    decreases |parts|
  {
    hide RenderKey, RenderName, KeyParts, R.At;
    if |parts| == 1 {
      OneName(parts);
      PartReads(s, i, parts[0]);
      assert parts == [parts[0]];
    } else {
      NameSplits(parts);
      var e := i + |RenderKey(parts[0])|;
      var rest := RenderName(parts[1..]);
      R.AtSplit(s, i, RenderKey(parts[0]), "." + rest);
      R.AtSplit(s, e, ".", rest);
      PartReads(s, i, parts[0]);
      NameReads(s, e + 1, parts[1..]);
      assert parts == [parts[0]] + parts[1..];
    }
  }

  lemma PartReads(s: string, i: nat, key: string)
    requires key != "" && R.At(s, i, RenderKey(key))
    requires i + |RenderKey(key)| < |s| ==> s[i + |RenderKey(key)|] == '.'
    ensures var e := i + |RenderKey(key)|;
      && e <= |s|
      && (e == |s| ==> KeyParts(s, i) == Some([key]))
      && (e < |s| && KeyParts(s, e + 1).Some? ==> KeyParts(s, i) == Some([key] + KeyParts(s, e + 1).value))
  {
    hide RenderKey, KeyPartEnd, SkipWs, Unescape, R.RenderChars, R.At, IsBareKey, IsBareKeyChar, IsTrivial;
    var e := i + |RenderKey(key)|;
    if e < |s| { NotInAKey(); }
    KeyPartIs(s, i, key);
    SkipWsIs(s, i, i);
    SkipWsIs(s, e, e);
    PartText(s, i, key);
  }

  lemma NotInAKey()
    ensures !IsBareKeyChar('.') && !IsWs('.')
  {
  }

  lemma PartText(s: string, i: nat, key: string)
    requires key != "" && R.At(s, i, RenderKey(key))
    ensures var e := i + |RenderKey(key)|;
      && i < e <= |s|
      && (IsBareKey(key) ==> s[i..e] == key)
      && (!IsBareKey(key) ==> e >= i + 2 && Unescape(s[i + 1..e - 1]) == Some(key))
  {
    hide Unescape, R.RenderChars, R.At, RenderKey, IsBareKey;
    RenderKeyIs(key);
    AtSlice(s, i, RenderKey(key));
    if !IsBareKey(key) {
      QuotedText(s, i, R.RenderChars(key));
      R.StringReads(key);
    }
  }

  lemma QuotedText(s: string, i: nat, chars: string)
    requires R.At(s, i, "\"" + (chars + "\""))
    ensures var e := i + |"\"" + (chars + "\"")|; i + 2 <= e <= |s| && s[i + 1..e - 1] == chars
  {
    hide R.At;
    R.AtSplit(s, i, "\"", chars + "\"");
    R.AtSplit(s, i + 1, chars, "\"");
    AtSlice(s, i + 1, chars);
    AtSlice(s, i, "\"" + (chars + "\""));
  }

  lemma RenderKeyIs(key: string)
    requires key != ""
    ensures RenderKey(key) == if IsBareKey(key) then key else "\"" + (R.RenderChars(key) + "\"")
  {
    hide R.RenderChars;
  }

  lemma AtSlice(s: string, i: nat, w: string)
    requires R.At(s, i, w)
    ensures i + |w| <= |s| && s[i..i + |w|] == w
  {
  }

  lemma HeaderScans(t: string, a: nat, parts: seq<string>, nl: string)
    requires Names(parts) && IsNewline(nl) && R.At(t, a, HeaderLine(parts, nl))
    ensures a < |t| && ScanStatement(t, a) == Some(Statement(Table, a, a + |HeaderLine(parts, nl)|, parts, -1, -1, false))
  {
    hide RenderName, KeyEnd, FinishLine, KeyParts, SkipWs, R.At;
    var name := RenderName(parts);
    var n := a + 1;
    var e := n + |name|;
    R.AtSplit(t, a, "[", name + ("]" + nl));
    R.AtSplit(t, n, name, "]" + nl);
    R.AtSplit(t, e, "]", nl);
    Bracketed(t, n, name, nl);
    NameEnds(t, n, parts);
    AtSlice(t, e + 1, nl);
    SkipWsIs(t, a, a);
    SkipWsIs(t, e, e);
    NewlineFinishes(t, e + 1, nl);
    NameText(t, n, parts);
  }

  lemma Bracketed(t: string, i: nat, name: string, nl: string)
    requires R.At(t, i, name + ("]" + nl))
    ensures R.At(t, i, name + "]")
  {
    assert name + ("]" + nl) == (name + "]") + nl;
    R.AtSplit(t, i, name + "]", nl);
  }

  lemma NameText(t: string, i: nat, parts: seq<string>)
    requires Names(parts) && R.At(t, i, RenderName(parts))
    ensures i + |RenderName(parts)| <= |t| && ParseKeyText(t[i..i + |RenderName(parts)|]) == Some(parts)
  {
    hide RenderName, KeyParts;
    var s := t[i..i + |RenderName(parts)|];
    assert s[0..0 + |s|] == s;
    NameReads(s, 0, parts);
  }

  lemma BlankScans(t: string, a: nat, nl: string)
    requires IsNewline(nl) && R.At(t, a, nl)
    ensures a < |t| && ScanStatement(t, a) == Some(Statement(Blank, a, a + |nl|, [], -1, -1, false))
  {
    hide R.At, Find, SkipWs;
    NewlineThere(t, a, nl);
    SkipWsIs(t, a, a);
  }

  /** An empty line goes before the header unless one is there or all before it is blank. */
  function Gap(t: string, nl: string): string { if !AllSpace(t) && !EndsWithBlankLine(t) then nl else "" }

  /** The statements of the empty line, the header and the key that stand behind `a`. */
  function SectionStatements(a: nat, gap: string, parts: seq<string>, key: string, w: string, nl: string): seq<Statement> {
    var h := a + |gap|;
    var k := h + |HeaderLine(parts, nl)|;
    (if gap == "" then [] else [Statement(Blank, a, h, [], -1, -1, false)])
    + [Statement(Table, h, k, parts, -1, -1, false), Added(k, "", key, w, nl)]
  }

  /** `r` is `b` and behind it the section; `bs` are the statements of `b`, and the section's follow them. */
  predicate SectionAppended(b: string, bs: seq<Statement>, parts: seq<string>, key: string, v: R.Value, w: string, nl: string, r: string) {
    var st := Added(|b| + |Gap(b, nl)| + |HeaderLine(parts, nl)|, "", key, w, nl);
    && r == b + (Gap(b, nl) + (HeaderLine(parts, nl) + KeyLine("", key, w, nl)))
    && Statements(b, 0) == Some(bs)
    && Statements(r, 0) == Some(bs + SectionStatements(|b|, Gap(b, nl), parts, key, w, nl))
    && 0 <= st.valueStart <= |r| && R.ReadValue(r, st.valueStart) == R.Read(v, st.valueEnd)
  }

  lemma AppendSectionIs(t: string, nl: string, parts: seq<string>, key: string, w: string)
    ensures AppendSection(t, nl, "[" + RenderName(parts) + "]", RenderKey(key) + " = " + w)
      == Ended(t, nl) + (Gap(Ended(t, nl), nl) + (HeaderLine(parts, nl) + KeyLine("", key, w, nl)))
  {
    hide AllSpace, EndsWithBlankLine, RenderKey, RenderName;
    var b := Ended(t, nl);
    assert AppendSection(t, nl, "[" + RenderName(parts) + "]", RenderKey(key) + " = " + w)
        == b + Gap(b, nl) + ("[" + RenderName(parts) + "]") + nl + (RenderKey(key) + " = " + w) + nl;
    SectionJoins(b, Gap(b, nl), RenderName(parts), RenderKey(key), w, nl);
  }

  lemma SectionJoins(b: string, gap: string, name: string, rk: string, w: string, nl: string)
    ensures b + gap + ("[" + name + "]") + nl + (rk + " = " + w) + nl
      == b + (gap + (("[" + (name + ("]" + nl))) + ("" + (rk + (" = " + (w + nl))))))
  {
    assert "[" + name + "]" + nl == "[" + (name + ("]" + nl));
    assert rk + " = " + w + nl == "" + (rk + (" = " + (w + nl)));
  }

  lemma SectionScans(r: string, a: nat, gap: string, parts: seq<string>, key: string, v: R.Value, w: string, nl: string)
    requires Names(parts) && key != "" && IsNewline(nl) && R.Render(v) == Some(w) && (gap == "" || gap == nl)
    requires R.At(r, a, gap + (HeaderLine(parts, nl) + KeyLine("", key, w, nl)))
    requires a + |gap + (HeaderLine(parts, nl) + KeyLine("", key, w, nl))| == |r|
    ensures Statements(r, a) == Some(SectionStatements(a, gap, parts, key, w, nl))
    ensures var st := Added(a + |gap| + |HeaderLine(parts, nl)|, "", key, w, nl);
      0 <= st.valueStart <= |r| && R.ReadValue(r, st.valueStart) == R.Read(v, st.valueEnd)
  {
    hide *;
    var header, line := HeaderLine(parts, nl), KeyLine("", key, w, nl);
    var h := a + |gap|;
    var k := h + |header|;
    R.AtSplit(r, a, gap, header + line);
    R.AtSplit(r, h, header, line);
    HeaderScans(r, h, parts, nl);
    KeyLineLength("", key, w, nl);
    AddedLineScans(r, k, "", key, v, w, nl);
    AddedSpan(k, "", key, w, nl);
    NoStatements(r, []);
    var st, table := Added(k, "", key, w, nl), Statement(Table, h, k, parts, -1, -1, false);
    OneMore(r, k, st, []);
    assert [st] + [] == [st];
    OneMore(r, h, table, [st]);
    assert [table] + [st] == [table, st];
    if gap != "" {
      BlankScans(r, a, nl);
      OneMore(r, a, Statement(Blank, a, h, [], -1, -1, false), [table, st]);
    }
    SectionStatementsAre(a, gap, parts, key, w, nl);
  }

  lemma SectionStatementsAre(a: nat, gap: string, parts: seq<string>, key: string, w: string, nl: string)
    ensures var h := a + |gap|; var k := h + |HeaderLine(parts, nl)|;
      var two := [Statement(Table, h, k, parts, -1, -1, false), Added(k, "", key, w, nl)];
      SectionStatements(a, gap, parts, key, w, nl) == if gap == "" then two else [Statement(Blank, a, h, [], -1, -1, false)] + two
  {
    hide HeaderLine, Added;
  }

  /** Where the key of an appended section is found. */
  lemma SectionIsFound(bs: seq<Statement>, a: nat, gap: string, parts: seq<string>, key: string, w: string, nl: string)
    requires FindHeader(bs, 0, parts).None?
    ensures var all := bs + SectionStatements(a, gap, parts, key, w, nl); KeyIndex(all, parts, key) == Some(|all| - 1)
  {
    hide FindHeader, BodyEnd, FindKey, HeaderLine, RenderKey, KeyLine;
    var more := SectionStatements(a, gap, parts, key, w, nl);
    var all := bs + more;
    var h := |all| - 2;
    assert all[h] == more[|more| - 2] && all[h + 1] == more[|more| - 1];
    assert forall i | 0 <= i < |bs| :: all[i] == bs[i];
    assert forall i | |bs| <= i < h :: all[i] == more[i - |bs|] && all[i].kind == Blank;
    assert IsHeader(all[h], parts) && IsKey(all[h + 1], key);
    assert FindHeader(all, 0, parts) == Some(h);
    assert BodyEnd(all, h + 1) == |all|;
    assert FindKey(all, h + 1, |all|, key) == Some(h + 1);
  }

  /**
   Setting a key of a section that is not there appends the section: the text stays, its last line
   ended, with all its statements, and behind it stand at most an empty line, the header and the
   key with its value; the key is then found there.
   */
  lemma NewSectionScans(t: string, parts: seq<string>, key: string, v: R.Value, accepts: string -> bool, r: string, ss: seq<Statement>)
    requires Names(parts) && Statements(t, 0) == Some(ss) && FindHeader(ss, 0, parts).None?
    requires SetValue(t, parts, key, v, accepts) == Success(r)
    ensures R.Render(v).Some?
    ensures SectionAppended(Ended(t, NewlineOf(t)), EndedStatements(t, ss, NewlineOf(t)), parts, key, v, R.Render(v).value, NewlineOf(t), r)
    ensures Statements(r, 0).Some? && KeyIndex(Statements(r, 0).value, parts, key) == Some(|Statements(r, 0).value| - 1)
  {
    hide *;
    var nl := NewlineOf(t);
    var b, bs := Ended(t, nl), EndedStatements(t, ss, nl);
    SetValueGives(t, parts, key, v, accepts, ss, r);
    var w := R.Render(v).value;
    NewlineIs(t);
    EndedScans(t, ss, nl);
    SameHeader(ss, bs, 0, parts);
    SetTextAppends(t, ss, parts, key, w, r);
    AppendSectionIs(t, nl, parts, key, w);
    var more := Gap(b, nl) + (HeaderLine(parts, nl) + KeyLine("", key, w, nl));
    Behind(b, more, r);
    GapIs(b, nl);
    EndedEnds(t, nl);
    SectionScans(r, |b|, Gap(b, nl), parts, key, v, w, nl);
    Spliced(b, bs, |bs|, |b|, r, SectionStatements(|b|, Gap(b, nl), parts, key, w, nl));
    assert bs[..|bs|] == bs;
    SectionIsFound(bs, |b|, Gap(b, nl), parts, key, w, nl);
    SectionAppendedIs(b, bs, parts, key, v, w, nl, r);
  }

  lemma SetTextAppends(t: string, ss: seq<Statement>, parts: seq<string>, key: string, w: string, r: string)
    requires FindHeader(ss, 0, parts).None? && SetText(t, ss, parts, key, w) == Success(r)
    ensures r == AppendSection(t, NewlineOf(t), "[" + RenderName(parts) + "]", RenderKey(key) + " = " + w)
  {
    hide FindHeader, AppendSection, NewlineOf, RenderName, RenderKey, SpansOf;
  }

  lemma Behind(b: string, more: string, r: string)
    requires r == b + more
    ensures R.At(r, |b|, more) && |b| + |more| == |r| && Agree(b, r, 0, |b|, 0)
  {
  }

  lemma GapIs(t: string, nl: string)
    ensures Gap(t, nl) == "" || Gap(t, nl) == nl
  {
  }

  lemma EndedEnds(t: string, nl: string)
    requires IsNewline(nl)
    ensures |Ended(t, nl)| > 0 ==> Ended(t, nl)[|Ended(t, nl)| - 1] == '\n'
  {
  }

  lemma SectionAppendedIs(b: string, bs: seq<Statement>, parts: seq<string>, key: string, v: R.Value, w: string, nl: string, r: string)
    requires r == b + (Gap(b, nl) + (HeaderLine(parts, nl) + KeyLine("", key, w, nl)))
    requires Statements(b, 0) == Some(bs)
    requires Statements(r, 0) == Some(bs + SectionStatements(|b|, Gap(b, nl), parts, key, w, nl))
    requires var st := Added(|b| + |Gap(b, nl)| + |HeaderLine(parts, nl)|, "", key, w, nl);
      0 <= st.valueStart <= |r| && R.ReadValue(r, st.valueStart) == R.Read(v, st.valueEnd)
    ensures SectionAppended(b, bs, parts, key, v, w, nl, r)
  {
    hide Statements, R.ReadValue, HeaderLine, KeyLine, SectionStatements, Added, Gap;
  }

  // ------------------------------------------------------------------ in every case

  /** The text scans, the key is found in it, and its value reads as `v` from its first character to its last. */
  predicate Holds(r: string, parts: seq<string>, key: string, v: R.Value) {
    && Statements(r, 0).Some?
    && var ss := Statements(r, 0).value;
    && KeyIndex(ss, parts, key).Some?
    && var st := ss[KeyIndex(ss, parts, key).value];
    0 <= st.valueStart <= |r| && 0 <= st.valueEnd && R.ReadValue(r, st.valueStart) == R.Read(v, st.valueEnd)
  }

  lemma HoldsAt(r: string, ss: seq<Statement>, parts: seq<string>, key: string, v: R.Value, k: nat)
    requires Statements(r, 0) == Some(ss) && KeyIndex(ss, parts, key) == Some(k)
    requires 0 <= ss[k].valueStart <= |r| && 0 <= ss[k].valueEnd && R.ReadValue(r, ss[k].valueStart) == R.Read(v, ss[k].valueEnd)
    ensures Holds(r, parts, key, v)
  {
    hide Statements, KeyIndex, R.ReadValue;
  }

  /** Whatever `set_value` did, replace, add or append: the key then holds the value. */
  lemma SetKeyHolds(t: string, parts: seq<string>, key: string, v: R.Value, accepts: string -> bool, r: string)
    requires Names(parts) && SetValue(t, parts, key, v, accepts) == Success(r)
    ensures Holds(r, parts, key, v)
  {
    hide *;
    var ss := Scanned(t, parts, key, v, accepts, r);
    if KeyIndex(ss, parts, key).Some? {
      ReplacedHolds(t, parts, key, v, accepts, r, ss);
    } else if FindHeader(ss, 0, parts).Some? {
      AddedHolds(t, parts, key, v, accepts, r, ss);
    } else {
      AppendedHolds(t, parts, key, v, accepts, r, ss);
    }
  }

  lemma Scanned(t: string, parts: seq<string>, key: string, v: R.Value, accepts: string -> bool, r: string) returns (ss: seq<Statement>)
    requires SetValue(t, parts, key, v, accepts) == Success(r)
    ensures Statements(t, 0) == Some(ss)
  {
    hide Statements, R.Render, SetText;
    ss := Statements(t, 0).value;
  }

  lemma ReplacedHolds(t: string, parts: seq<string>, key: string, v: R.Value, accepts: string -> bool, r: string, ss: seq<Statement>)
    requires Statements(t, 0) == Some(ss) && KeyIndex(ss, parts, key).Some? && SetValue(t, parts, key, v, accepts) == Success(r)
    ensures Holds(r, parts, key, v)
  {
    hide Statements, KeyIndex, SetValue, R.Render, R.ReadValue, ShiftAll, Holds;
    var k := KeyIndex(ss, parts, key).value;
    SetValueIsLocal(t, parts, key, v, accepts, ss, k, r);
    HoldsAt(r, Statements(r, 0).value, parts, key, v, k);
  }

  lemma AddedHolds(t: string, parts: seq<string>, key: string, v: R.Value, accepts: string -> bool, r: string, ss: seq<Statement>)
    requires Statements(t, 0) == Some(ss) && FindHeader(ss, 0, parts).Some? && KeyIndex(ss, parts, key).None?
    requires SetValue(t, parts, key, v, accepts) == Success(r)
    ensures Holds(r, parts, key, v)
  {
    hide Statements, KeyIndex, SetValue, R.Render, R.ReadValue, ShiftAll, Holds, Base, BaseStatements, Inserted, KeyLine, Added, FindHeader, AddedAt, NewlineOf;
    var indent := AddedKeyIsLocal(t, parts, key, v, accepts, r, ss);
    HoldsAt(r, Statements(r, 0).value, parts, key, v, AddedAt(ss, parts));
  }

  lemma AppendedHolds(t: string, parts: seq<string>, key: string, v: R.Value, accepts: string -> bool, r: string, ss: seq<Statement>)
    requires Names(parts) && Statements(t, 0) == Some(ss) && FindHeader(ss, 0, parts).None?
    requires SetValue(t, parts, key, v, accepts) == Success(r)
    ensures Holds(r, parts, key, v)
  {
    hide Statements, KeyIndex, SetValue, R.Render, R.ReadValue, Holds, Ended, EndedStatements, Gap, HeaderLine, KeyLine, Added, FindHeader, NewlineOf;
    NewSectionScans(t, parts, key, v, accepts, r, ss);
    HoldsAt(r, Statements(r, 0).value, parts, key, v, |Statements(r, 0).value| - 1);
  }
}
