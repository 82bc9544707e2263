/**
 Exactly when `set_value` and `remove_key` succeed, how they fail otherwise, and which text they
 hand to the final check, said of the text, its statements and the value.
 */
module TomlOutcome {
  import opened Wrappers
  import opened TomlGrammar
  import opened TomlEdit
  import opened TomlAdd
  import opened TomlLaws
  import Texts
  import R = TomlRender

  // ------------------------------------------------------------------ what can be printed

  /** Every integer in the value fits 64 bits. */
  predicate InRange(v: R.Value) {
    match v
    case Int(n) => -0x8000_0000_0000_0000 <= n <= 0x7FFF_FFFF_FFFF_FFFF
    case List(items) => forall k | 0 <= k < |items| :: InRange(items[k])
    case _ => true
  }

  lemma {:induction false} RenderedIfInRange(v: R.Value)
    ensures R.Render(v).Some? <==> InRange(v)
    decreases v, 0
  {
    if v.List? { ItemsIfInRange(v.items); }
  }

  lemma {:induction false} ItemsIfInRange(items: seq<R.Value>)
    ensures R.RenderItems(items).Some? <==> forall k | 0 <= k < |items| :: InRange(items[k])
    decreases items, 1
  {
    hide R.Render, InRange;
    if items != [] {
      RenderedIfInRange(items[0]);
      ItemsIfInRange(items[1..]);
      assert forall k | 0 < k < |items| :: items[k] == items[1..][k - 1];
      assert forall k | 0 <= k < |items| - 1 :: items[1..][k] == items[k + 1];
    }
  }

  // ------------------------------------------------------------------ where a key is, and where one goes

  /** Statement `h` is the first header of the section. */
  predicate FirstHeader(ss: seq<Statement>, parts: seq<string>, h: int) {
    && 0 <= h < |ss| && ss[h].kind == Table && ss[h].name == parts
    && forall k | 0 <= k < h :: !(ss[k].kind == Table && ss[k].name == parts)
  }

  /** Statement `k` belongs to the section that statement `h` opens. */
  predicate InSection(ss: seq<Statement>, h: int, k: int) {
    0 <= h < k < |ss| && forall j | h < j <= k :: ss[j].kind == Blank || ss[j].kind == Comment || ss[j].kind == Key
  }

  predicate SetsKey(s: Statement, key: string) { s.kind == Key && s.name == [key] }

  /** The key is found at the first statement of its section that sets it. */
  lemma KeyIndexIs(ss: seq<Statement>, parts: seq<string>, key: string, k: nat)
    ensures KeyIndex(ss, parts, key) == Some(k) <==>
      k < |ss| && SetsKey(ss[k], key)
      && exists h :: FirstHeader(ss, parts, h) && InSection(ss, h, k) && forall j | h < j < k :: !SetsKey(ss[j], key)
  {
    hide FindHeader, BodyEnd, FindKey;
    var header := FindHeader(ss, 0, parts);
    if header.Some? {
      var h := header.value;
      var stop := BodyEnd(ss, h + 1);
      assert FirstHeader(ss, parts, h);
      OneHeader(ss, parts, h);
      assert forall j | 0 <= j < |ss| :: InSection(ss, h, j) <==> h < j < stop by { SectionIs(ss, h); }
      var found := FindKey(ss, h + 1, stop, key);
      if KeyIndex(ss, parts, key) == Some(k) {
        assert FirstHeader(ss, parts, h) && InSection(ss, h, k) && forall j | h < j < k :: !SetsKey(ss[j], key);
      }
    }
  }

  lemma OneHeader(ss: seq<Statement>, parts: seq<string>, h: int)
    requires FirstHeader(ss, parts, h)
    ensures forall i | FirstHeader(ss, parts, i) :: i == h
  {
  }

  lemma SectionIs(ss: seq<Statement>, h: nat)
    requires h < |ss|
    ensures forall j | 0 <= j < |ss| :: InSection(ss, h, j) <==> h < j < BodyEnd(ss, h + 1)
  {
    hide BodyEnd;
    var stop := BodyEnd(ss, h + 1);
    forall j | stop <= j < |ss|
      ensures !InSection(ss, h, j)
    {
      assert !IsBody(ss[stop].kind);
    }
  }

  /** A new key goes behind statement `m - 1`: the last key of the section, or its header when it has none. */
  ghost predicate GoesBehind(ss: seq<Statement>, parts: seq<string>, m: nat) {
    0 < m <= |ss| && exists h :: FirstHeader(ss, parts, h) && LastKeyBefore(ss, h, m)
  }

  ghost predicate LastKeyBefore(ss: seq<Statement>, h: int, m: nat) {
    && (m == h + 1 || (InSection(ss, h, m - 1) && ss[m - 1].kind == Key))
    && forall k | m <= k && InSection(ss, h, k) :: ss[k].kind != Key
  }

  lemma {:induction false} NoKeyBehind(ss: seq<Statement>, i: nat, stop: nat)
    requires i <= stop <= |ss|
    ensures forall k | AfterLastKey(ss, i, stop) <= k < stop :: ss[k].kind != Key
    decreases stop
  {
    if i < stop && ss[stop - 1].kind != Key { NoKeyBehind(ss, i, stop - 1); }
  }

  lemma PlaceIs(ss: seq<Statement>, parts: seq<string>)
    requires FindHeader(ss, 0, parts).Some?
    ensures GoesBehind(ss, parts, AddedAt(ss, parts))
  {
    hide FindHeader, BodyEnd, AfterLastKey;
    var h := FindHeader(ss, 0, parts).value;
    NoKeyBehind(ss, h + 1, BodyEnd(ss, h + 1));
    SectionIs(ss, h);
    assert FirstHeader(ss, parts, h);
  }

  // ------------------------------------------------------------------ line breaks and indentation

  /** The text's first line break decides. */
  ghost predicate BreaksLinesWith(t: string, nl: string) {
    nl == if exists i :: FirstBreak(t, i) && i > 0 && t[i - 1] == '\r' then "\r\n" else "\n"
  }

  predicate FirstBreak(t: string, i: int) { 0 <= i < |t| && t[i] == '\n' && forall k | 0 <= k < i :: t[k] != '\n' }

  lemma NewlineMeans(t: string)
    ensures BreaksLinesWith(t, NewlineOf(t))
  {
    var f := Find(t, '\n', 0);
    assert forall i | FirstBreak(t, i) :: f == Some(i);
    assert f.Some? ==> FirstBreak(t, f.value);
  }

  /** `indent` is all the blanks at offset `start`. */
  predicate Indents(t: string, start: int, indent: string) {
    && 0 <= start && R.At(t, start, indent) && (forall k | 0 <= k < |indent| :: indent[k] == ' ' || indent[k] == '\t')
    && (start + |indent| < |t| ==> t[start + |indent|] != ' ' && t[start + |indent|] != '\t')
  }

  lemma IndentationIs(t: string, start: nat)
    requires start <= |t|
    ensures Indents(t, start, Indentation(t, start))
  {
    hide SkipWs;
    BlanksSkipped(t, start);
    var e := SkipWs(t, start);
    assert forall k | 0 <= k < e - start :: t[start..e][k] == t[start + k];
  }

  /** From `i` on the text holds its last line, which a line break ends. */
  predicate LastLineFrom(t: string, i: int) {
    && 0 <= i < |t| && t[|t| - 1] == '\n' && (i == 0 || t[i - 1] == '\n') && forall k | i <= k < |t| - 1 :: t[k] != '\n'
  }

  lemma {:induction false} LastLineIs(s: string) returns (i: nat)
    ensures i <= |s| && LastLine(s) == s[i..] && (i == 0 || s[i - 1] == '\n') && forall k | i <= k < |s| :: s[k] != '\n'
    decreases |s|
  {
    i := |s|;
    if s != "" && s[|s| - 1] != '\n' {
      i := LastLineIs(s[..|s| - 1]);
      assert s[i..] == s[..|s| - 1][i..] + [s[|s| - 1]];
    }
  }

  /** The text ends with a blank line exactly if its last line is ended and holds nothing but white space. */
  lemma BlankLineMeans(t: string)
    ensures EndsWithBlankLine(t) <==> exists i :: LastLineFrom(t, i) && forall k | i <= k < |t| - 1 :: Texts.IsSpace(t[k])
  {
    hide LastLine, Texts.IsSpace;
    if t != "" && t[|t| - 1] == '\n' {
      var s := t[..|t| - 1];
      var i := LastLineIs(s);
      assert LastLineFrom(t, i);
      assert forall j | LastLineFrom(t, j) :: j == i;
      assert forall k | 0 <= k < |s| - i :: s[i..][k] == t[i + k];
      assert forall k | i <= k < |t| - 1 :: t[k] == s[i..][k - i];
    }
  }

  // ------------------------------------------------------------------ the text `set_value` makes

  /** The line of the new key, as deep as the key before it. */
  ghost predicate LineGoesIn(t: string, ss: seq<Statement>, parts: seq<string>, key: string, w: string, r: string, m: nat, indent: string, nl: string) {
    && GoesBehind(ss, parts, m) && BreaksLinesWith(t, nl)
    && (if ss[m - 1].kind == Key then Indents(t, ss[m - 1].start, indent) else indent == "")
    && r == (if ss[m - 1].end < |t| && 0 <= ss[m - 1].end then t[..ss[m - 1].end] + KeyLine(indent, key, w, nl) + t[ss[m - 1].end..]
             else Ended(t, nl) + KeyLine(indent, key, w, nl))
  }

  /** `w` takes the place of the key's value, or goes into the section on a line of its own, or into a new section. */
  ghost predicate SetsTo(t: string, ss: seq<Statement>, parts: seq<string>, key: string, w: string, r: string) {
    match KeyIndex(ss, parts, key)
    case Some(k) => 0 <= ss[k].valueStart <= ss[k].valueEnd <= |t| && r == t[..ss[k].valueStart] + w + t[ss[k].valueEnd..]
    case None =>
      if exists h :: FirstHeader(ss, parts, h) then exists m, indent, nl :: LineGoesIn(t, ss, parts, key, w, r, m, indent, nl)
      else exists nl | BreaksLinesWith(t, nl) ::
        r == Ended(t, nl) + (Gap(Ended(t, nl), nl) + (HeaderLine(parts, nl) + KeyLine("", key, w, nl)))
  }

  /** The key is there and its value is or holds a multi-line string. */
  ghost predicate KeepsMultiline(t: string, ss: seq<Statement>, parts: seq<string>, key: string) {
    && KeyIndex(ss, parts, key).Some? && ss[KeyIndex(ss, parts, key).value].valueStart >= 0
    && HoldsMultiline(t, ss[KeyIndex(ss, parts, key).value].valueStart)
  }

  /** A key statement's flag is that of its value. */
  lemma StatementFlag(t: string, ss: seq<Statement>, k: nat)
    requires Statements(t, 0) == Some(ss) && k < |ss| && ss[k].kind == Key
    ensures 0 <= ss[k].valueStart <= |t| && (ss[k].multilineString <==> HoldsMultiline(t, ss[k].valueStart))
  {
    hide Statements, HoldsMultiline, SkipWs, KeyEnd, ParseKeyText, ScanValue, FinishLine;
    StatementAt(t, ss, k);
    var c := SkipWs(t, ss[k].start);
    FlagMeans(t, ss[k].valueStart);
  }

  lemma AllSpansInside(t: string, ss: seq<Statement>)
    requires Statements(t, 0) == Some(ss)
    ensures SpansOf(t, ss)
  {
    hide Statements;
    StatementsTile(t, 0, ss);
  }

  /** What `SetText` is where no multi-line string stands in the way. */
  lemma SetTextSetsTo(t: string, ss: seq<Statement>, parts: seq<string>, key: string, w: string) returns (r: string)
    requires Statements(t, 0) == Some(ss) && !KeepsMultiline(t, ss, parts, key)
    ensures SetText(t, ss, parts, key, w) == Success(r) && SetsTo(t, ss, parts, key, w, r)
  {
    hide Statements, HoldsMultiline, LineGoesIn, FindHeader, BodyEnd, FindKey, AppendSection, AddText, NewlineOf, AfterLastKey, Ended, Gap, HeaderLine, KeyLine, RenderKey, RenderName, BreaksLinesWith, SpansOf;
    AllSpansInside(t, ss);
    HeaderOrNone(ss, parts);
    NewlineMeans(t);
    var nl := NewlineOf(t);
    if KeyIndex(ss, parts, key).Some? {
      var k := KeyIndex(ss, parts, key).value;
      StatementFlag(t, ss, k);
      StatementAt(t, ss, k);
      r := ReplaceSpan(t, ss[k].valueStart, ss[k].valueEnd, w);
    } else if FindHeader(ss, 0, parts).Some? {
      r := LineAddedTo(t, ss, parts, key, w);
    } else {
      AppendSectionIs(t, nl, parts, key, w);
      r := AppendSection(t, nl, "[" + RenderName(parts) + "]", RenderKey(key) + " = " + w);
    }
  }

  lemma HeaderOrNone(ss: seq<Statement>, parts: seq<string>)
    ensures FindHeader(ss, 0, parts).Some? <==> exists h :: FirstHeader(ss, parts, h)
  {
    hide FindHeader;
    var f := FindHeader(ss, 0, parts);
    if f.Some? { assert FirstHeader(ss, parts, f.value); }
  }

  lemma LineAddedTo(t: string, ss: seq<Statement>, parts: seq<string>, key: string, w: string) returns (r: string)
    requires Statements(t, 0) == Some(ss) && SpansOf(t, ss) && FindHeader(ss, 0, parts).Some? && KeyIndex(ss, parts, key).None?
    ensures SetText(t, ss, parts, key, w) == Success(r)
    ensures LineGoesIn(t, ss, parts, key, w, r, AddedAt(ss, parts), LineIndent(t, ss, AddedAt(ss, parts)), NewlineOf(t))
  {
    hide *;
    var m := AddedAt(ss, parts);
    AnchorEndsLine(t, ss, m);
    StatementAt(t, ss, m - 1);
    PlaceIs(ss, parts);
    NewlineMeans(t);
    r := LineText(t, ss, parts, key, w, m);
    LineIndents(t, ss, m);
    LineInserted(t, ss[m - 1].end, LineIndent(t, ss, m), key, w, NewlineOf(t));
    LineGoesInIs(t, ss, parts, key, w, r, m, LineIndent(t, ss, m), NewlineOf(t));
  }

  lemma LineText(t: string, ss: seq<Statement>, parts: seq<string>, key: string, w: string, m: nat) returns (r: string)
    requires SpansOf(t, ss) && FindHeader(ss, 0, parts).Some? && KeyIndex(ss, parts, key).None? && m == AddedAt(ss, parts)
    ensures SetText(t, ss, parts, key, w) == Success(r)
    ensures 0 <= ss[m - 1].end <= |t|
    ensures r == InsertLine(t, ss[m - 1].end, NewlineOf(t), LineIndent(t, ss, m) + RenderKey(key) + " = " + w)
  {
    hide FindHeader, BodyEnd, FindKey, AfterLastKey, NewlineOf, RenderKey, InsertLine, Indentation, AppendSection, RenderName;
    BehindWhat(ss, parts);
    assert ss[m - 1] in ss;
    r := AddText(t, ss, FindHeader(ss, 0, parts).value, m, NewlineOf(t), key, w);
  }

  lemma LineIndents(t: string, ss: seq<Statement>, m: nat)
    requires 0 < m <= |ss| && 0 <= ss[m - 1].start <= |t|
    ensures if ss[m - 1].kind == Key then Indents(t, ss[m - 1].start, LineIndent(t, ss, m)) else LineIndent(t, ss, m) == ""
  {
    hide Indentation, Indents;
    IndentationIs(t, ss[m - 1].start);
  }

  lemma LineGoesInIs(t: string, ss: seq<Statement>, parts: seq<string>, key: string, w: string, r: string, m: nat, indent: string, nl: string)
    requires GoesBehind(ss, parts, m) && BreaksLinesWith(t, nl) && 0 < m <= |ss| && 0 <= ss[m - 1].end <= |t|
    requires if ss[m - 1].kind == Key then Indents(t, ss[m - 1].start, indent) else indent == ""
    requires r == if ss[m - 1].end < |t| then t[..ss[m - 1].end] + KeyLine(indent, key, w, nl) + t[ss[m - 1].end..]
                  else Ended(t, nl) + KeyLine(indent, key, w, nl)
    ensures LineGoesIn(t, ss, parts, key, w, r, m, indent, nl)
  {
    hide GoesBehind, BreaksLinesWith, Indents, Ended, KeyLine;
  }

  function LineIndent(t: string, ss: seq<Statement>, m: nat): string
    requires 0 < m <= |ss|
  {
    if ss[m - 1].kind == Key && 0 <= ss[m - 1].start <= |t| then Indentation(t, ss[m - 1].start) else ""
  }

  lemma BehindWhat(ss: seq<Statement>, parts: seq<string>)
    requires FindHeader(ss, 0, parts).Some?
    ensures var h, m := FindHeader(ss, 0, parts).value, AddedAt(ss, parts); ss[m - 1].kind == Key <==> m > h + 1
  {
    hide FindHeader, BodyEnd, AfterLastKey;
  }

  // ------------------------------------------------------------------ the outcomes

  /** Nothing stands in the way of `set_value` but the final check. */
  ghost predicate CanSet(t: string, parts: seq<string>, key: string, v: R.Value) {
    key != "" && InRange(v) && Statements(t, 0).Some? && !KeepsMultiline(t, Statements(t, 0).value, parts, key)
  }

  /**
   `set_value` refuses an empty key, then a value out of range, then a text that does not scan, then
   a key whose value is or holds a multi-line string, and nothing else of its own; otherwise the
   final check alone decides about the text that `SetsTo` describes.
   */
  lemma SetValueOutcome(t: string, parts: seq<string>, key: string, v: R.Value, accepts: string -> bool) returns (r: string)
    ensures SetValue(t, parts, key, v, accepts) == Failure(BadKey) <==> key == ""
    ensures SetValue(t, parts, key, v, accepts) == Failure(OutOfRange) <==> key != "" && !InRange(v)
    ensures SetValue(t, parts, key, v, accepts) == Failure(Unscannable) <==> key != "" && InRange(v) && Statements(t, 0).None?
    ensures SetValue(t, parts, key, v, accepts) == Failure(MultilineString) <==>
      key != "" && InRange(v) && Statements(t, 0).Some? && KeepsMultiline(t, Statements(t, 0).value, parts, key)
    ensures CanSet(t, parts, key, v) ==>
      && R.Render(v).Some? && SetsTo(t, Statements(t, 0).value, parts, key, R.Render(v).value, r)
      && SetValue(t, parts, key, v, accepts) == if accepts(r) then Success(r) else Failure(Refused)
  {
    hide Statements, R.Render, InRange, SetText, KeepsMultiline, SetsTo;
    RenderedIfInRange(v);
    r := "";
    if key != "" && InRange(v) && Statements(t, 0).Some? {
      var ss, w := Statements(t, 0).value, R.Render(v).value;
      if KeepsMultiline(t, ss, parts, key) {
        MultilineRefused(t, ss, parts, key, w);
      } else {
        r := SetTextSetsTo(t, ss, parts, key, w);
      }
    }
  }

  lemma MultilineRefused(t: string, ss: seq<Statement>, parts: seq<string>, key: string, w: string)
    requires Statements(t, 0) == Some(ss) && KeepsMultiline(t, ss, parts, key)
    ensures SetText(t, ss, parts, key, w) == Failure(MultilineString)
  {
    hide Statements, HoldsMultiline, FindHeader, BodyEnd, FindKey, AppendSection, AddText, NewlineOf, AfterLastKey, SpansOf;
    AllSpansInside(t, ss);
    StatementFlag(t, ss, KeyIndex(ss, parts, key).value);
  }

  /**
   `remove_key` refuses an empty key, then a text that does not scan, then a key that the document
   has in a form the scanner does not see; an absent key leaves the text as it is, unchecked, and
   one that is there takes its statement along if the final check lets it.
   */
  lemma RemoveKeyOutcome(t: string, parts: seq<string>, key: string, known: bool, accepts: string -> bool)
    ensures RemoveKey(t, parts, key, known, accepts) == Failure(BadKey) <==> key == ""
    ensures RemoveKey(t, parts, key, known, accepts) == Failure(Unscannable) <==> key != "" && Statements(t, 0).None?
    ensures RemoveKey(t, parts, key, known, accepts) == Failure(HiddenKey) <==>
      key != "" && Statements(t, 0).Some? && KeyIndex(Statements(t, 0).value, parts, key).None? && known
    ensures key != "" && Statements(t, 0).Some? ==>
      match KeyIndex(Statements(t, 0).value, parts, key)
      case None => known || RemoveKey(t, parts, key, known, accepts) == Success(t)
      case Some(k) =>
        var st := Statements(t, 0).value[k];
        && 0 <= st.start <= st.end <= |t|
        && var r := t[..st.start] + t[st.end..];
           RemoveKey(t, parts, key, known, accepts) == if accepts(r) then Success(r) else Failure(Refused)
  {
    hide Statements, KeyIndex;
    if key != "" && Statements(t, 0).Some? && KeyIndex(Statements(t, 0).value, parts, key).Some? {
      var ss, k := Statements(t, 0).value, KeyIndex(Statements(t, 0).value, parts, key).value;
      StatementAt(t, ss, k);
      assert t[..ss[k].start] + "" + t[ss[k].end..] == t[..ss[k].start] + t[ss[k].end..];
    }
  }
}
