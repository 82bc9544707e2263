/**
 `set_value` and `remove_key` of `config_edit`: the edits as functions of the text, with the
 final comparison against `tomllib` as a parameter, and what they leave untouched.
 */
module TomlEdit {
  import opened Texts
  import opened Wrappers
  import opened TomlGrammar
  import opened TomlLocality
  import R = TomlRender

  datatype EditError = BadKey | OutOfRange | Unscannable | MultilineString | HiddenKey | Refused

  // ------------------------------------------------------------------ finding a section and a key

  predicate IsBody(k: Kind) { k == Blank || k == Comment || k == Key }

  /** The first statement at or after `i` that is no body statement. */
  function BodyEnd(ss: seq<Statement>, i: nat): (stop: nat)
    requires i <= |ss|
    ensures i <= stop <= |ss|
    ensures forall k | i <= k < stop :: IsBody(ss[k].kind)
    ensures stop < |ss| ==> !IsBody(ss[stop].kind)
    decreases |ss| - i
  {
    if i < |ss| && IsBody(ss[i].kind) then BodyEnd(ss, i + 1) else i
  }

  predicate IsHeader(s: Statement, parts: seq<string>) { s.kind == Table && s.name == parts }

  function FindHeader(ss: seq<Statement>, i: nat, parts: seq<string>): (r: Option<nat>)
    requires i <= |ss|
    ensures r.Some? ==> i <= r.value < |ss| && IsHeader(ss[r.value], parts)
    ensures r.Some? ==> forall k | i <= k < r.value :: !IsHeader(ss[k], parts)
    ensures r.None? ==> forall k | i <= k < |ss| :: !IsHeader(ss[k], parts)
    decreases |ss| - i
  {
    if i == |ss| then None
    else if IsHeader(ss[i], parts) then Some(i)
    else FindHeader(ss, i + 1, parts)
  }

  predicate IsKey(s: Statement, key: string) { s.kind == Key && s.name == [key] }

  function FindKey(ss: seq<Statement>, i: nat, stop: nat, key: string): (r: Option<nat>)
    requires i <= stop <= |ss|
    ensures r.Some? ==> i <= r.value < stop && IsKey(ss[r.value], key)
    ensures r.Some? ==> forall k | i <= k < r.value :: !IsKey(ss[k], key)
    ensures r.None? ==> forall k | i <= k < stop :: !IsKey(ss[k], key)
    decreases stop - i
  {
    if i == stop then None
    else if IsKey(ss[i], key) then Some(i)
    else FindKey(ss, i + 1, stop, key)
  }

  /** Just past the last key in `i..stop`, or `i` when there is none: where a key is added. */
  function AfterLastKey(ss: seq<Statement>, i: nat, stop: nat): (m: nat)
    requires i <= stop <= |ss|
    ensures i <= m <= stop
    ensures m > i ==> ss[m - 1].kind == Key
    decreases stop
  {
    if i == stop then i
    else if ss[stop - 1].kind == Key then stop
    else AfterLastKey(ss, i, stop - 1)
  }

  // ------------------------------------------------------------------ text helpers

  function NewlineOf(t: string): string {
    match Find(t, '\n', 0)
    case None => "\n"
    case Some(i) => if i > 0 && t[i - 1] == '\r' then "\r\n" else "\n"
  }

  function RenderKey(part: string): string {
    if part != "" && (forall k | 0 <= k < |part| :: IsBareKeyChar(part[k])) then part else R.RenderString(part)
  }

  function RenderName(parts: seq<string>): string {
    if parts == [] then ""
    else if |parts| == 1 then RenderKey(parts[0])
    else RenderKey(parts[0]) + "." + RenderName(parts[1..])
  }

  function InsertLine(t: string, offset: nat, newline: string, line: string): string
    requires offset <= |t|
  {
    var prefix := if offset == |t| && t != "" && t[|t| - 1] != '\n' then newline else "";
    t[..offset] + prefix + line + newline + t[offset..]
  }

  predicate AllSpace(s: string) { forall k | 0 <= k < |s| :: IsSpace(s[k]) }

  /** The text ends with a line break that closes a blank line. */
  predicate EndsWithBlankLine(t: string) {
    t != "" && t[|t| - 1] == '\n' && AllSpace(LastLine(t[..|t| - 1]))
  }

  function LastLine(t: string): string {
    if t == "" || t[|t| - 1] == '\n' then "" else LastLine(t[..|t| - 1]) + [t[|t| - 1]]
  }

  function AppendSection(t: string, newline: string, header: string, line: string): string {
    var a := if t != "" && t[|t| - 1] != '\n' then t + newline else t;
    var b := if !AllSpace(a) && !EndsWithBlankLine(a) then a + newline else a;
    b + header + newline + line + newline
  }

  function Indentation(t: string, start: nat): string
    requires start <= |t|
  {
    t[start..SkipWs(t, start)]
  }

  // ------------------------------------------------------------------ the edits

  function Checked(r: string, accepts: string -> bool): Result<string, EditError> {
    if accepts(r) then Success(r) else Failure(Refused)
  }

  function ReplaceSpan(t: string, lo: nat, hi: nat, w: string): string
    requires lo <= hi <= |t|
  {
    t[..lo] + w + t[hi..]
  }

  function SetValue(t: string, parts: seq<string>, key: string, v: R.Value, accepts: string -> bool)
    : Result<string, EditError>
  {
    if key == "" then Failure(BadKey)
    else
      var rendered := R.Render(v);
      var scanned := Statements(t, 0);
      if rendered.None? then Failure(OutOfRange)
      else if scanned.None? then Failure(Unscannable)
      else CheckedEdit(SetText(t, scanned.value, parts, key, rendered.value), accepts)
  }

  function CheckedEdit(r: Result<string, EditError>, accepts: string -> bool): Result<string, EditError> {
    match r
    case Failure(_) => r
    case Success(text) => Checked(text, accepts)
  }

  /** Every statement, and the value of a key, is a span of the text. */
  predicate SpansOf(t: string, ss: seq<Statement>) {
    forall s | s in ss :: 0 <= s.start <= s.end <= |t| && ValueInside(s)
  }

  /** The text `set_value` builds, before it is checked. */
  function SetText(t: string, ss: seq<Statement>, parts: seq<string>, key: string, w: string): Result<string, EditError> {
    var newline := NewlineOf(t);
    if !SpansOf(t, ss) then Failure(Unscannable)
    else match FindHeader(ss, 0, parts)
      case None =>
        Success(AppendSection(t, newline, "[" + RenderName(parts) + "]", RenderKey(key) + " = " + w))
      case Some(header) =>
        var stop := BodyEnd(ss, header + 1);
        match FindKey(ss, header + 1, stop, key)
        case Some(k) =>
          if ss[k].multilineString then Failure(MultilineString)
          else Success(ReplaceSpan(t, ss[k].valueStart, ss[k].valueEnd, w))
        case None => Success(AddText(t, ss, header, AfterLastKey(ss, header + 1, stop), newline, key, w))
  }

  /** The line of a new key goes behind statement `m - 1`, the section's last key or its header. */
  function AddText(t: string, ss: seq<Statement>, header: nat, m: nat, newline: string, key: string, w: string): string
    requires header < m <= |ss| && SpansOf(t, ss)
  {
    var indent := if m > header + 1 then Indentation(t, ss[m - 1].start) else "";
    InsertLine(t, ss[m - 1].end, newline, indent + RenderKey(key) + " = " + w)
  }

  /** `known` says whether the parsed document holds the key in some form. */
  function RemoveKey(t: string, parts: seq<string>, key: string, known: bool, accepts: string -> bool)
    : Result<string, EditError>
  {
    if key == "" then Failure(BadKey)
    else
      match Statements(t, 0)
      case None => Failure(Unscannable)
      case Some(ss) =>
        match KeyIndex(ss, parts, key)
        case None => if known then Failure(HiddenKey) else Success(t)
        case Some(k) =>
          if 0 <= ss[k].start <= ss[k].end <= |t| then Checked(ReplaceSpan(t, ss[k].start, ss[k].end, ""), accepts)
          else Failure(Unscannable)
  }

  function KeyIndex(ss: seq<Statement>, parts: seq<string>, key: string): (r: Option<nat>)
    ensures r.Some? ==> r.value < |ss| && IsKey(ss[r.value], key)
  {
    match FindHeader(ss, 0, parts)
    case None => None
    case Some(header) => FindKey(ss, header + 1, BodyEnd(ss, header + 1), key)
  }

  // ------------------------------------------------------------------ replacing a value is local

  lemma {:induction false} WsRun(t: string, u: string, i: nat, d: int)
    requires i <= |t| && 0 <= i + d
    requires Agree(t, u, i, SkipWs(t, i), d)
    requires SkipWs(t, i) + d < |u| && !IsWs(u[SkipWs(t, i) + d])
    ensures SkipWs(u, i + d) == SkipWs(t, i) + d
    decreases |t| - i
  {
    if i < |t| && IsWs(t[i]) { WsRun(t, u, i + 1, d); }
  }

  lemma FinishDelimits(t: string, e: nat)
    requires e <= |t| && FinishLine(t, e).Some?
    ensures R.Delimited(t, e)
  {
  }

  lemma NotWs(v: R.Value)
    ensures R.Render(v).Some? ==> |R.Render(v).value| > 0 && !IsWs(R.Render(v).value[0])
  {
    R.RenderStarts(v);
  }

  /** What the key of a key line looks like in another text that agrees up to the value. */
  lemma KeyLineHead(t: string, r: string, pos: nat, cursor: nat, d: int)
    requires pos <= cursor < |t| && cursor == SkipWs(t, pos) && ScanKeyLine(t, pos, cursor).Some?
    requires var vs := ScanKeyLine(t, pos, cursor).value.valueStart;
      0 <= vs && Agree(t, r, pos, vs, d) && vs + d < |r| && !IsWs(r[vs + d])
    ensures var st := ScanKeyLine(t, pos, cursor).value;
      var keyEnd := KeyEnd(t, cursor).value;
      var c := SkipWs(t, keyEnd);
      && SkipWs(r, pos + d) == cursor + d && r[cursor + d] == t[cursor]
      && cursor < keyEnd <= c < st.valueStart && KeyEnd(r, cursor + d) == Some(keyEnd + d)
      && ParseKeyText(r[cursor + d..keyEnd + d]) == Some(st.name)
      && SkipWs(r, keyEnd + d) == c + d && c + d < |r| && r[c + d] == '='
      && SkipWs(r, c + 1 + d) == st.valueStart + d
  {
    hide KeyEnd, FinishLine, ParseKeyText, ScanValue, SkipWs;
    var st := ScanKeyLine(t, pos, cursor).value;
    var vs: nat := st.valueStart;
    var keyEnd := KeyEnd(t, cursor).value;
    var c := SkipWs(t, keyEnd);
    SkipWsLocal(t, r, pos, vs, d);
    KeyEndLocal(t, r, cursor, vs, d, c);
    SliceLocal(t, r, pos, cursor, keyEnd, vs, d);
    WsRun(t, r, c + 1, d);
    assert t[c] == r[c + d];
  }

  /** A key line from its pieces. */
  lemma KeyLineIs(t: string, pos: nat, cursor: nat, keyEnd: nat, name: seq<string>, c: nat, vs: nat, value: Scan, end: nat)
    requires pos <= cursor <= keyEnd <= c < vs <= |t| && pos < |t| && value.Good? && value.end <= |t|
    requires SkipWs(t, pos) == cursor && !IsTrivial(t, cursor) && t[cursor] != '['
    requires KeyEnd(t, cursor) == Some(keyEnd) && ParseKeyText(t[cursor..keyEnd]) == Some(name)
    requires SkipWs(t, keyEnd) == c && t[c] == '=' && SkipWs(t, c + 1) == vs
    requires ScanValue(t, vs) == value && FinishLine(t, value.end) == Some(end)
    ensures ScanStatement(t, pos) == Some(Statement(Key, pos, end, name, vs, value.end, value.multiline))
  {
    hide SkipWs, KeyEnd, ParseKeyText, ScanValue, FinishLine;
  }

  /** The pieces of a key line. */
  lemma KeyLineOf(t: string, pos: nat, st: Statement)
    requires pos < |t| && ScanStatement(t, pos) == Some(st) && st.kind == Key
    ensures var cursor := SkipWs(t, pos);
      && cursor < |t| && !IsTrivial(t, cursor) && t[cursor] != '[' && ScanKeyLine(t, pos, cursor) == Some(st)
      && pos <= cursor < st.valueStart < st.valueEnd <= st.end <= |t| && st.start == pos
      && FinishLine(t, st.valueEnd) == Some(st.end)
  {
    hide SkipWs, KeyEnd, ParseKeyText, ScanValue, FinishLine;
  }

  function Edited(st: Statement, d: int): Statement {
    st.(end := st.end + d, valueEnd := st.valueEnd + d, multilineString := false)
  }

  /** The statement whose value was replaced scans again, with the new span. */
  lemma KeyLineReplaced(t: string, pos: nat, st: Statement, v: R.Value, w: string, r: string)
    requires pos < |t| && ScanStatement(t, pos) == Some(st) && st.kind == Key
    requires R.Render(v) == Some(w)
    requires 0 <= st.valueStart <= st.valueEnd <= |t| && r == ReplaceSpan(t, st.valueStart, st.valueEnd, w)
    ensures var d := |w| - (st.valueEnd - st.valueStart);
      && pos < |r| && ScanStatement(r, pos) == Some(Edited(st, d))
      && R.ReadValue(r, st.valueStart) == R.Read(v, st.valueEnd + d)
  {
    hide KeyEnd, FinishLine, ParseKeyText, ScanValue, SkipWs, R.Render, R.ReadValue, ScanStatement, ScanKeyLine;
    hide Agree, Lines, Sealed, R.At, R.Delimited, ReplaceSpan;
    KeyLineOf(t, pos, st);
    var cursor := SkipWs(t, pos);
    var vs: nat, ve: nat := st.valueStart, st.valueEnd;
    var d := |w| - (ve - vs);
    FinishDelimits(t, ve);
    ReplacedAgrees(t, pos, vs, ve, v, w, r);
    KeyLineHead(t, r, pos, cursor, 0);
    var keyEnd := KeyEnd(r, cursor).value;
    R.RenderedReadsBack(r, vs, v, w);
    FinishLineLocal(t, r, ve, |t|, d);
    var value := Good(vs + |w|, false);
    KeyLineIs(r, pos, cursor, keyEnd, st.name, SkipWs(t, keyEnd), vs, value, st.end + d);
  }

  lemma ReplacedAgrees(t: string, pos: nat, vs: nat, ve: nat, v: R.Value, w: string, r: string)
    requires pos <= vs <= ve <= |t| && R.Render(v) == Some(w) && r == ReplaceSpan(t, vs, ve, w)
    requires R.Delimited(t, ve)
    ensures |r| == |t| + |w| - (ve - vs) && vs + |w| <= |r|
    ensures vs < |r| && !IsWs(r[vs]) && R.At(r, vs, w) && R.Delimited(r, vs + |w|)
    ensures Agree(t, r, pos, vs, 0)
    ensures Lines(t, r, ve, |t|, |w| - (ve - vs)) && Sealed(t, r, |t|, |w| - (ve - vs))
  {
    hide R.Render;
    NotWs(v);
    assert r[vs..vs + |w|] == w;
  }

  // ------------------------------------------------------------------ kinds and names decide where a key is

  predicate SameShape(a: seq<Statement>, b: seq<Statement>) {
    |a| == |b| && forall i | 0 <= i < |a| :: a[i].kind == b[i].kind && a[i].name == b[i].name
  }

  lemma {:induction false} SameHeader(a: seq<Statement>, b: seq<Statement>, i: nat, parts: seq<string>)
    requires SameShape(a, b) && i <= |a|
    ensures FindHeader(a, i, parts) == FindHeader(b, i, parts)
    decreases |a| - i
  {
    if i < |a| && !IsHeader(a[i], parts) { SameHeader(a, b, i + 1, parts); }
  }

  lemma {:induction false} SameBody(a: seq<Statement>, b: seq<Statement>, i: nat)
    requires SameShape(a, b) && i <= |a|
    ensures BodyEnd(a, i) == BodyEnd(b, i)
    decreases |a| - i
  {
    if i < |a| && IsBody(a[i].kind) { SameBody(a, b, i + 1); }
  }

  lemma {:induction false} SameKey(a: seq<Statement>, b: seq<Statement>, i: nat, stop: nat, key: string)
    requires SameShape(a, b) && i <= stop <= |a|
    ensures FindKey(a, i, stop, key) == FindKey(b, i, stop, key)
    decreases stop - i
  {
    if i < stop && !IsKey(a[i], key) { SameKey(a, b, i + 1, stop, key); }
  }

  lemma SameIndex(a: seq<Statement>, b: seq<Statement>, parts: seq<string>, key: string)
    requires SameShape(a, b)
    ensures KeyIndex(a, parts, key) == KeyIndex(b, parts, key)
  {
    hide FindHeader, BodyEnd, FindKey;
    SameHeader(a, b, 0, parts);
    var header := FindHeader(a, 0, parts);
    if header.Some? {
      SameBody(a, b, header.value + 1);
      SameKey(a, b, header.value + 1, BodyEnd(a, header.value + 1), key);
    }
  }

  // ------------------------------------------------------------------ the whole scan after an edit

  /** The statements after the value of statement `k` has grown by `d`. */
  function AfterReplacement(ss: seq<Statement>, k: nat, d: int): seq<Statement>
    requires k < |ss|
  {
    ss[..k] + [Edited(ss[k], d)] + ShiftAll(ss[k + 1..], d)
  }

  lemma FirstOf(t: string, pos: nat, ss: seq<Statement>)
    requires pos < |t| && Statements(t, pos) == Some(ss)
    ensures ss != [] && ScanStatement(t, pos) == Some(ss[0])
    ensures 0 <= ss[0].end <= |t| && Statements(t, ss[0].end) == Some(ss[1..])
  {
    hide ScanStatement;
  }

  /** What is known of the statement at index `k` of a scan. */
  lemma StatementAt(t: string, ss: seq<Statement>, k: nat)
    requires Statements(t, 0) == Some(ss) && k < |ss|
    ensures 0 <= ss[k].start < ss[k].end <= |t| && ValueInside(ss[k])
    ensures ScanStatement(t, ss[k].start) == Some(ss[k])
    ensures Statements(t, ss[k].end) == Some(ss[k + 1..])
  {
    hide *;
    StatementsTile(t, 0, ss);
    ContiguousEverywhere(ss, 0, |t|);
    StatementBoundary(t, 0, k, ss[k].start);
    FirstOf(t, ss[k].start, ss[k..]);
    assert ss[k..][0] == ss[k] && ss[k..][1..] == ss[k + 1..];
  }

  /** A statement that starts after the beginning of the text follows a line break. */
  lemma EndsBefore(t: string, ss: seq<Statement>, k: nat)
    requires Statements(t, 0) == Some(ss) && k < |ss| && ss[k].start > 0
    ensures ss[k].start <= |t| && t[ss[k].start - 1] == '\n'
  {
    hide *;
    StatementAt(t, ss, k);
    StatementsTile(t, 0, ss);
    ContiguousEverywhere(ss, 0, |t|);
    StatementAt(t, ss, k - 1);
    assert ss[k - 1].end == ss[k].start;
    InnerStatementsEndLines(t, ss[k - 1].start);
  }

  /**
   Statement `k` of `t` got the value `v`, printed as `w`, and nothing else changed: no character
   outside the old value span; the result scans to the same statements, the edited one with its
   new span and the later ones shifted by the difference in length; the value reads back.
   */
  predicate LocalChange(t: string, ss: seq<Statement>, k: nat, v: R.Value, w: string, r: string)
    requires k < |ss|
  {
    && 0 <= ss[k].valueStart <= ss[k].valueEnd <= |t|
    && var d := |w| - (ss[k].valueEnd - ss[k].valueStart);
    && r == t[..ss[k].valueStart] + w + t[ss[k].valueEnd..]
    && Statements(r, 0) == Some(AfterReplacement(ss, k, d))
    && ss[k].valueStart <= |r|
    && R.ReadValue(r, ss[k].valueStart) == R.Read(v, ss[k].valueEnd + d)
  }

  lemma ReplacedScan(t: string, ss: seq<Statement>, k: nat, v: R.Value, w: string, r: string)
    requires Statements(t, 0) == Some(ss) && k < |ss| && ss[k].kind == Key && R.Render(v) == Some(w)
    requires 0 <= ss[k].valueStart <= ss[k].valueEnd <= |t|
    requires r == ReplaceSpan(t, ss[k].valueStart, ss[k].valueEnd, w)
    ensures LocalChange(t, ss, k, v, w, r)
  {
    hide ScanStatement, R.Render, R.ReadValue, Agree, ShiftAll, ReplaceSpan, Statements;
    var st := ss[k];
    var d := |w| - (st.valueEnd - st.valueStart);
    var tail := [Edited(st, d)] + ShiftAll(ss[k + 1..], d);
    StatementAt(t, ss, k);
    ReplacedTail(t, st, ss[k + 1..], v, w, r);
    if st.start > 0 { EndsBefore(t, ss, k); }
    Spliced(t, ss, k, st.start, r, tail);
    assert ss[..k] + tail == AfterReplacement(ss, k, d);
    SpanReplaced(t, st.valueStart, st.valueEnd, w);
  }

  lemma ReplacedTail(t: string, st: Statement, rest: seq<Statement>, v: R.Value, w: string, r: string)
    requires 0 <= st.start < st.end <= |t| && 0 <= st.valueStart <= st.valueEnd <= |t|
    requires ScanStatement(t, st.start) == Some(st) && st.kind == Key
    requires Statements(t, st.end) == Some(rest)
    requires R.Render(v) == Some(w) && r == ReplaceSpan(t, st.valueStart, st.valueEnd, w)
    ensures st.start < |r| && Agree(t, r, 0, st.start, 0)
    ensures var d := |w| - (st.valueEnd - st.valueStart);
      && Statements(r, st.start) == Some([Edited(st, d)] + ShiftAll(rest, d))
      && st.valueStart <= |r| && R.ReadValue(r, st.valueStart) == R.Read(v, st.valueEnd + d)
  {
    hide Statements, ScanStatement, ScanKeyLine, SkipWs, FinishLine, R.Render, R.ReadValue, Agree, Lines, Sealed, R.Delimited, R.At, ShiftAll, ReplaceSpan;
    var vs: nat, ve: nat := st.valueStart, st.valueEnd;
    var d := |w| - (ve - vs);
    KeyLineOf(t, st.start, st);
    FinishDelimits(t, ve);
    KeyLineReplaced(t, st.start, st, v, w, r);
    ReplacedAgrees(t, 0, vs, ve, v, w, r);
    SuffixMoves(t, r, ve, st.end, d);
    OneMore(r, st.start, Edited(st, d), ShiftAll(rest, d));
    AgreeUpTo(t, r, vs, st.start);
  }

  lemma OneMore(t: string, pos: nat, first: Statement, rest: seq<Statement>)
    requires pos < |t| && ScanStatement(t, pos) == Some(first) && Statements(t, first.end) == Some(rest)
    ensures Statements(t, pos) == Some([first] + rest)
  {
    hide ScanStatement;
  }

  /** Text before a boundary that stays keeps its statements, whatever scans after it. */
  lemma Spliced(t: string, ss: seq<Statement>, m: nat, cut: nat, r: string, tail: seq<Statement>)
    requires Statements(t, 0) == Some(ss) && m <= |ss| && cut == (if m == |ss| then |t| else ss[m].start)
    requires cut <= |t| && cut <= |r| && Agree(t, r, 0, cut, 0) && (cut > 0 ==> t[cut - 1] == '\n')
    requires Statements(r, cut) == Some(tail)
    ensures Statements(r, 0) == Some(ss[..m] + tail)
  {
    hide Statements, Head, Boundary, Agree;
    StatementBoundary(t, 0, m, cut);
    PrefixLocal(t, r, 0, cut);
  }

  lemma SpanReplaced(t: string, lo: nat, hi: nat, w: string)
    requires lo <= hi <= |t|
    ensures ReplaceSpan(t, lo, hi, w) == t[..lo] + w + t[hi..]
  {
  }

  lemma AgreeUpTo(t: string, u: string, hi: nat, mid: nat)
    requires Agree(t, u, 0, hi, 0) && mid <= hi
    ensures Agree(t, u, 0, mid, 0)
  {
  }

  lemma SuffixMoves(t: string, u: string, lo: nat, mid: nat, d: int)
    requires Lines(t, u, lo, |t|, d) && Sealed(t, u, |t|, d) && lo <= mid <= |t|
    requires Statements(t, mid).Some?
    ensures 0 <= mid + d <= |u| && Statements(u, mid + d) == Some(ShiftAll(Statements(t, mid).value, d))
  {
    hide Statements;
    SuffixLocal(t, u, mid, d);
  }

  /** Setting an existing key is a local change, and the key is found at the same place again. */
  lemma SetValueIsLocal(t: string, parts: seq<string>, key: string, v: R.Value, accepts: string -> bool, ss: seq<Statement>, k: nat, r: string)
    ensures Statements(t, 0) == Some(ss) && KeyIndex(ss, parts, key) == Some(k) && SetValue(t, parts, key, v, accepts) == Success(r) ==>
      && R.Render(v).Some? && LocalChange(t, ss, k, v, R.Render(v).value, r)
      && KeyIndex(Statements(r, 0).value, parts, key) == Some(k)
  {
    hide Statements, R.Render, R.ReadValue, KeyIndex, SetText, AfterReplacement;
    if Statements(t, 0) == Some(ss) && KeyIndex(ss, parts, key) == Some(k) && SetValue(t, parts, key, v, accepts) == Success(r) {
      var w := R.Render(v).value;
      SetTextReplaces(t, ss, parts, key, w, r);
      ReplacedScan(t, ss, k, v, w, r);
      ReplacedShape(ss, k, |w| - (ss[k].valueEnd - ss[k].valueStart));
      SameIndex(ss, AfterReplacement(ss, k, |w| - (ss[k].valueEnd - ss[k].valueStart)), parts, key);
    }
  }

  lemma SetTextReplaces(t: string, ss: seq<Statement>, parts: seq<string>, key: string, w: string, r: string)
    requires SetText(t, ss, parts, key, w) == Success(r) && KeyIndex(ss, parts, key).Some?
    ensures var st := ss[KeyIndex(ss, parts, key).value];
      0 <= st.valueStart <= st.valueEnd <= |t| && r == t[..st.valueStart] + w + t[st.valueEnd..]
  {
    hide FindHeader, BodyEnd, FindKey, AfterLastKey, AppendSection, InsertLine, NewlineOf, RenderKey, RenderName;
  }

  lemma ReplacedShape(ss: seq<Statement>, k: nat, d: int)
    requires k < |ss|
    ensures SameShape(ss, AfterReplacement(ss, k, d))
  {
    hide ShiftAll;
  }

  // ------------------------------------------------------------------ removing a key is local

  /** The text without statement `k`: the statements before it stay, those after it move up. */
  predicate StatementCut(t: string, ss: seq<Statement>, k: nat, r: string)
    requires k < |ss|
  {
    && 0 <= ss[k].start <= ss[k].end <= |t|
    && r == t[..ss[k].start] + t[ss[k].end..]
    && Statements(r, 0) == Some(ss[..k] + ShiftAll(ss[k + 1..], ss[k].start - ss[k].end))
  }

  /** Removing a key cuts exactly its statement; a key that is not there leaves the text alone. */
  lemma RemoveKeyIsLocal(t: string, parts: seq<string>, key: string, known: bool, accepts: string -> bool, ss: seq<Statement>, r: string)
    ensures Statements(t, 0) == Some(ss) && RemoveKey(t, parts, key, known, accepts) == Success(r) ==>
      match KeyIndex(ss, parts, key)
      case None => r == t && !known
      case Some(k) => StatementCut(t, ss, k, r)
  {
    hide Statements, KeyIndex, StatementCut;
    if Statements(t, 0) == Some(ss) && RemoveKey(t, parts, key, known, accepts) == Success(r) && KeyIndex(ss, parts, key).Some? {
      var k := KeyIndex(ss, parts, key).value;
      StatementAt(t, ss, k);
      CutScan(t, ss, k, ReplaceSpan(t, ss[k].start, ss[k].end, ""));
    }
  }

  lemma CutScan(t: string, ss: seq<Statement>, k: nat, r: string)
    requires Statements(t, 0) == Some(ss) && k < |ss| && 0 <= ss[k].start <= ss[k].end <= |t|
    requires r == ReplaceSpan(t, ss[k].start, ss[k].end, "")
    ensures StatementCut(t, ss, k, r)
  {
    hide Statements, ScanStatement, Agree, Lines, Sealed, ShiftAll;
    var lo: nat, hi: nat := ss[k].start, ss[k].end;
    StatementAt(t, ss, k);
    SpanReplaced(t, lo, hi, "");
    assert t[..lo] + "" + t[hi..] == t[..lo] + t[hi..];
    CutAgrees(t, lo, hi, r);
    SuffixMoves(t, r, hi, hi, lo - hi);
    if lo > 0 { EndsBefore(t, ss, k); }
    Spliced(t, ss, k, lo, r, ShiftAll(ss[k + 1..], lo - hi));
  }

  lemma CutAgrees(t: string, lo: nat, hi: nat, r: string)
    requires lo <= hi <= |t| && r == t[..lo] + t[hi..]
    ensures lo <= |r| && Agree(t, r, 0, lo, 0)
    ensures Lines(t, r, hi, |t|, lo - hi) && Sealed(t, r, |t|, lo - hi)
  {
  }
}
