/**
 What the small TOML scanner of `config_edit` recognises, as functions of the text and an
 offset. Each function mirrors one scanner method; `None` and `Bad` stand for the `ValueError`
 the method raises. The methods themselves are in TomlScanner.dfy.
 */
module TomlGrammar {
  import opened Texts
  import opened Wrappers

  datatype Scan = Bad | Good(end: nat, multiline: bool)

  datatype Kind = Blank | Comment | Table | ArrayTable | Key

  /** One logical line, by absolute offsets. Offsets of a missing value are -1. */
  datatype Statement = Statement(
    kind: Kind, start: int, end: int, name: seq<string>,
    valueStart: int, valueEnd: int, multilineString: bool)

  // ------------------------------------------------------------------ characters

  predicate IsWs(c: char) { c == ' ' || c == '\t' }

  predicate IsTrivia(c: char) { IsWs(c) || c == '\r' || c == '\n' }

  predicate IsBareKeyChar(c: char) {
    'A' <= c <= 'Z' || 'a' <= c <= 'z' || IsDigit(c) || c == '_' || c == '-'
  }

  predicate IsBareValueChar(c: char) {
    !IsSpace(c) && c != ',' && c != ']' && c != '}' && c != '#'
  }

  // ------------------------------------------------------------------ skipping

  function SkipWs(t: string, i: nat): (e: nat)
    requires i <= |t|
    ensures i <= e <= |t|
    ensures i < e ==> IsWs(t[e - 1])
    ensures e < |t| ==> !IsWs(t[e])
    decreases |t| - i
  {
    if i < |t| && IsWs(t[i]) then SkipWs(t, i + 1) else i
  }

  /** `str.find` of one character. */
  function Find(t: string, c: char, i: nat): (r: Option<nat>)
    requires i <= |t|
    ensures r.Some? ==> i <= r.value < |t| && t[r.value] == c && forall k | i <= k < r.value :: t[k] != c
    ensures r.None? ==> forall k | i <= k < |t| :: t[k] != c
    decreases |t| - i
  {
    if i == |t| then None
    else if t[i] == c then Some(i)
    else Find(t, c, i + 1)
  }

  /** Just past the line break that ends the line of offset `i`, or the end of the text. */
  function LineEnd(t: string, i: nat): (e: nat)
    requires i <= |t|
    ensures i <= e <= |t|
    ensures i < |t| ==> i < e
    ensures e < |t| ==> e > 0 && t[e - 1] == '\n'
  {
    match Find(t, '\n', i)
    case None => |t|
    case Some(k) => k + 1
  }

  function SkipTrivia(t: string, i: nat): (e: nat)
    requires i <= |t|
    ensures i <= e <= |t|
    ensures e < |t| ==> !IsTrivia(t[e]) && t[e] != '#'
    decreases |t| - i
  {
    if i < |t| && IsTrivia(t[i]) then SkipTrivia(t, i + 1)
    else if i < |t| && t[i] == '#' then SkipTrivia(t, LineEnd(t, i))
    else i
  }

  // ------------------------------------------------------------------ strings and bare words

  /** The end of a basic string whose content is being read at `c`. */
  function BasicEnd(t: string, c: nat): (r: Option<nat>)
    ensures r.Some? ==> c < r.value <= |t| && t[r.value - 1] == '"'
    decreases |t| - c
  {
    if c >= |t| then None
    else if t[c] == '\\' then BasicEnd(t, c + 2)
    else if t[c] == '"' then Some(c + 1)
    else if t[c] == '\n' then None
    else BasicEnd(t, c + 1)
  }

  function LiteralEnd(t: string, c: nat): (r: Option<nat>)
    requires c <= |t|
    ensures r.Some? ==> c < r.value <= |t| && t[r.value - 1] == '\''
  {
    var close := Find(t, '\'', c);
    var newline := Find(t, '\n', c);
    if close.None? || (newline.Some? && newline.value < close.value) then None else Some(close.value + 1)
  }

  predicate Triple(t: string, q: char, i: nat) {
    i + 3 <= |t| && t[i] == q && t[i + 1] == q && t[i + 2] == q
  }

  /** A run of up to five quotes ends a multi-line string: the last three close it, the others belong to it. */
  function ExtraQuotes(t: string, q: char, e: nat, extra: nat): (r: nat)
    requires e <= |t| && extra <= 2
    ensures e <= r <= |t|
    ensures e < r ==> t[r - 1] == q
    decreases 2 - extra
  {
    if e < |t| && t[e] == q && extra < 2 then ExtraQuotes(t, q, e + 1, extra + 1) else e
  }

  function MultiEnd(t: string, q: char, c: nat): (r: Option<nat>)
    ensures r.Some? ==> c < r.value <= |t| && t[r.value - 1] == q
    decreases |t| - c
  {
    if c >= |t| then None
    else if q == '"' && t[c] == '\\' then MultiEnd(t, q, c + 2)
    else if Triple(t, q, c) then Some(ExtraQuotes(t, q, c + 3, 0))
    else MultiEnd(t, q, c + 1)
  }

  function BareKeyEnd(t: string, i: nat): (e: nat)
    requires i <= |t|
    ensures i <= e <= |t|
    ensures i < e ==> IsBareKeyChar(t[e - 1])
    ensures e < |t| ==> !IsBareKeyChar(t[e])
    decreases |t| - i
  {
    if i < |t| && IsBareKeyChar(t[i]) then BareKeyEnd(t, i + 1) else i
  }

  function BareRunEnd(t: string, i: nat): (e: nat)
    requires i <= |t|
    ensures i <= e <= |t|
    ensures i < e ==> IsBareValueChar(t[e - 1])
    ensures e < |t| ==> !IsBareValueChar(t[e])
    decreases |t| - i
  {
    if i < |t| && IsBareValueChar(t[i]) then BareRunEnd(t, i + 1) else i
  }

  predicate IsLocalDate(w: string) {
    && |w| == 10
    && IsDigit(w[0]) && IsDigit(w[1]) && IsDigit(w[2]) && IsDigit(w[3]) && w[4] == '-'
    && IsDigit(w[5]) && IsDigit(w[6]) && w[7] == '-' && IsDigit(w[8]) && IsDigit(w[9])
  }

  /** One blank and a time follow a date, as TOML allows in place of the `T`. */
  predicate SpaceBeforeTime(t: string, e: nat) {
    && e + 6 <= |t| && t[e] == ' ' && IsDigit(t[e + 1]) && IsDigit(t[e + 2])
    && t[e + 3] == ':' && IsDigit(t[e + 4]) && IsDigit(t[e + 5])
  }

  function BareValueEnd(t: string, i: nat): (r: Option<nat>)
    requires i <= |t|
    ensures r.Some? ==> i < r.value <= |t| && IsBareValueChar(t[r.value - 1])
  {
    var e := BareRunEnd(t, i);
    if e == i then None
    else if IsLocalDate(t[i..e]) && SpaceBeforeTime(t, e) then
      assert IsBareValueChar(t[e + 1]);
      Some(BareRunEnd(t, e + 1))
    else Some(e)
  }

  // ------------------------------------------------------------------ keys and values

  function KeyPartEnd(t: string, p: nat): (r: Option<nat>)
    requires p <= |t|
    ensures r.Some? ==> p < r.value <= |t| && t[r.value - 1] != '\n'
  {
    if p < |t| && t[p] == '"' then BasicEnd(t, p + 1)
    else if p < |t| && t[p] == '\'' then LiteralEnd(t, p + 1)
    else if BareKeyEnd(t, p) == p then None
    else Some(BareKeyEnd(t, p))
  }

  /** Where a key ends: parts, bare or in quotes, joined by dots. */
  function KeyEnd(t: string, i: nat): (r: Option<nat>)
    requires i <= |t|
    ensures r.Some? ==> i < r.value <= |t| && t[r.value - 1] != '\n'
    decreases |t| - i
  {
    var part := KeyPartEnd(t, SkipWs(t, i));
    if part.None? then None
    else
      var after := SkipWs(t, part.value);
      if after < |t| && t[after] == '.' then KeyEnd(t, after + 1) else part
  }

  predicate ValueEnds(t: string, i: nat, r: Scan) {
    r.Good? ==> i < r.end <= |t| && t[r.end - 1] != '\n'
  }

  function OfOption(r: Option<nat>, multiline: bool): Scan {
    match r
    case None => Bad
    case Some(e) => Good(e, multiline)
  }

  function ScanValue(t: string, i: nat): (r: Scan)
    requires i <= |t|
    ensures ValueEnds(t, i, r)
    decreases |t| - i, 0
  {
    if i == |t| then Bad
    else if Triple(t, '"', i) then OfOption(MultiEnd(t, '"', i + 3), true)
    else if Triple(t, '\'', i) then OfOption(MultiEnd(t, '\'', i + 3), true)
    else if t[i] == '"' then OfOption(BasicEnd(t, i + 1), false)
    else if t[i] == '\'' then OfOption(LiteralEnd(t, i + 1), false)
    else if t[i] == '[' then ArrayFrom(t, i + 1, false)
    else if t[i] == '{' then
      var c := SkipTrivia(t, i + 1);
      if c < |t| && t[c] == '}' then Good(c + 1, false) else InlineFrom(t, c, false)
    else OfOption(BareValueEnd(t, i), false)
  }

  /** What one turn of an array or inline-table loop leads to. */
  datatype Turn = Broken | Next(at: nat, inner: bool) | Closed(at: nat, inner: bool)

  predicate TurnEnds(t: string, i: nat, r: Turn) {
    !r.Broken? ==> i < r.at <= |t| && t[r.at - 1] != '\n'
  }

  /** What follows a value inside brackets that `close` closes. */
  function AfterItem(t: string, value: Scan, close: char): (r: Turn)
    requires value.Good? ==> value.end <= |t|
    requires close != '\n'
    ensures value.Good? ==> TurnEnds(t, value.end, r)
    ensures value.Bad? ==> r.Broken?
  {
    match value
    case Bad => Broken
    case Good(e, inner) =>
      var c := SkipTrivia(t, e);
      if c < |t| && t[c] == ',' then Next(c + 1, inner)
      else if c < |t| && t[c] == close then Closed(c + 1, inner)
      else Broken
  }

  /** The array loop, entered before an element or the closing bracket. */
  function ArrayFrom(t: string, i: nat, multiline: bool): (r: Scan)
    requires i <= |t|
    ensures ValueEnds(t, i, r)
    decreases |t| - i, 1
  {
    var c := SkipTrivia(t, i);
    if c == |t| then Bad
    else if t[c] == ']' then Good(c + 1, multiline)
    else match AfterItem(t, ScanValue(t, c), ']')
      case Broken => Bad
      case Next(at, inner) => ArrayFrom(t, at, multiline || inner)
      case Closed(at, inner) => Good(at, multiline || inner)
  }

  /** One turn of the inline-table loop, entered before a key. */
  function InlineTurn(t: string, i: nat): (r: Turn)
    requires i <= |t|
    ensures TurnEnds(t, i, r)
    decreases |t| - i, 1
  {
    var key := KeyEnd(t, SkipTrivia(t, i));
    if key.None? then Broken
    else
      var c := SkipWs(t, key.value);
      if c == |t| || t[c] != '=' then Broken else AfterItem(t, ScanValue(t, SkipWs(t, c + 1)), '}')
  }

  function InlineFrom(t: string, i: nat, multiline: bool): (r: Scan)
    requires i <= |t|
    ensures ValueEnds(t, i, r)
    decreases |t| - i, 2
  {
    match InlineTurn(t, i)
    case Broken => Bad
    case Next(at, inner) => InlineFrom(t, at, multiline || inner)
    case Closed(at, inner) => Good(at, multiline || inner)
  }

  // ------------------------------------------------------------------ decoding keys

  function HexDigit(c: char): Option<nat> {
    if '0' <= c <= '9' then Some(c as int - '0' as int)
    else if 'A' <= c <= 'F' then Some(c as int - 'A' as int + 10)
    else if 'a' <= c <= 'f' then Some(c as int - 'a' as int + 10)
    else None
  }

  function HexValue(s: string): Option<nat> {
    if s == [] then Some(0)
    else
      var rest := HexValue(s[..|s| - 1]);
      var last := HexDigit(s[|s| - 1]);
      if rest.Some? && last.Some? then Some(16 * rest.value + last.value) else None
  }

  function HexChar(s: string): Option<char> {
    match HexValue(s)
    case None => None
    case Some(n) => if n < 0xD800 || 0xE000 <= n < 0x110000 then Some(n as char) else None
  }

  function Escape(c: char): Option<char> {
    match c
    case '"' => Some('"')
    case '\\' => Some('\\')
    case 'b' => Some(8 as char)
    case 't' => Some('\t')
    case 'n' => Some('\n')
    case 'f' => Some(12 as char)
    case 'r' => Some('\r')
    case _ => None
  }

  predicate IsControl(c: char) { c != '\t' && (c as int < 0x20 || c as int == 0x7F) }

  /** The content of a basic string, decoded (TOML v1.0.0, section "String"). */
  function Unescape(s: string): Option<string>
    decreases |s|
  {
    if s == [] then Some([])
    else if s[0] != '\\' then
      if IsControl(s[0]) || s[0] == '"' then None else Prepend(Some(s[0]), Unescape(s[1..]))
    else if |s| < 2 then None
    else if s[1] == 'u' then
      if |s| < 6 then None else Prepend(HexChar(s[2..6]), Unescape(s[6..]))
    else if s[1] == 'U' then
      if |s| < 10 then None else Prepend(HexChar(s[2..10]), Unescape(s[10..]))
    else Prepend(Escape(s[1]), Unescape(s[2..]))
  }

  function Prepend(c: Option<char>, s: Option<string>): Option<string> {
    if c.Some? && s.Some? then Some([c.value] + s.value) else None
  }

  /** The content of a literal string, which holds no control character. */
  function Literal(s: string): Option<string> { if exists k | 0 <= k < |s| :: IsControl(s[k]) then None else Some(s) }

  /** The parts of a raw key from offset `i` on, decoded the way the loader decodes them. */
  function KeyParts(s: string, i: nat): Option<seq<string>>
    requires i <= |s|
    decreases |s| - i
  {
    var p := SkipWs(s, i);
    var end := KeyPartEnd(s, p);
    if end.None? then None
    else
      var e := end.value;
      var part :=
        if s[p] == '"' then (if e < p + 2 then None else Unescape(s[p + 1..e - 1]))
        else if s[p] == '\'' then (if e < p + 2 then None else Literal(s[p + 1..e - 1]))
        else Some(s[p..e]);
      var after := SkipWs(s, e);
      if part.None? then None
      else if after == |s| then Some([part.value])
      else if s[after] != '.' then None
      else
        match KeyParts(s, after + 1)
        case None => None
        case Some(rest) => Some([part.value] + rest)
  }

  function ParseKeyText(s: string): Option<seq<string>> { KeyParts(s, 0) }

  // ------------------------------------------------------------------ statements

  function FinishLine(t: string, i: nat): (r: Option<nat>)
    requires i <= |t|
    ensures r.Some? ==> i <= r.value <= |t|
  {
    var p := SkipWs(t, i);
    if p == |t| then Some(|t|)
    else if t[p] == '#' || t[p] == '\n' || (t[p] == '\r' && p + 1 < |t| && t[p + 1] == '\n') then Some(LineEnd(t, p))
    else None
  }

  function ScanTrivial(t: string, pos: nat, cursor: nat): Statement
    requires pos <= cursor <= |t|
  {
    Statement(if cursor < |t| && t[cursor] == '#' then Comment else Blank, pos, LineEnd(t, cursor), [], -1, -1, false)
  }

  function ScanHeader(t: string, pos: nat, cursor: nat): Option<Statement>
    requires pos <= cursor < |t| && t[cursor] == '['
  {
    var double := cursor + 1 < |t| && t[cursor + 1] == '[';
    var width := if double then 2 else 1;
    var nameStart := cursor + width;
    var nameEnd := KeyEnd(t, nameStart);
    if nameEnd.None? then None
    else
      var name := ParseKeyText(t[nameStart..nameEnd.value]);
      var c := SkipWs(t, nameEnd.value);
      if name.None? || c + width > |t| || t[c] != ']' || t[c + width - 1] != ']' then None
      else
        match FinishLine(t, c + width)
        case None => None
        case Some(end) => Some(Statement(if double then ArrayTable else Table, pos, end, name.value, -1, -1, false))
  }

  function ScanKeyLine(t: string, pos: nat, cursor: nat): Option<Statement>
    requires pos <= cursor < |t|
  {
    var keyEnd := KeyEnd(t, cursor);
    if keyEnd.None? then None
    else
      var name := ParseKeyText(t[cursor..keyEnd.value]);
      var c := SkipWs(t, keyEnd.value);
      if name.None? || c == |t| || t[c] != '=' then None
      else
        var valueStart := SkipWs(t, c + 1);
        match ScanValue(t, valueStart)
        case Bad => None
        case Good(valueEnd, multiline) =>
          match FinishLine(t, valueEnd)
          case None => None
          case Some(end) => Some(Statement(Key, pos, end, name.value, valueStart, valueEnd, multiline))
  }

  predicate IsTrivial(t: string, cursor: nat)
    requires cursor <= |t|
  {
    cursor == |t| || t[cursor] == '\r' || t[cursor] == '\n' || t[cursor] == '#'
  }

  /** One turn of the statement loop. Every turn makes progress. */
  function ScanStatement(t: string, pos: nat): (r: Option<Statement>)
    requires pos < |t|
    ensures r.Some? ==> r.value.start == pos < r.value.end <= |t|
  {
    var cursor := SkipWs(t, pos);
    if IsTrivial(t, cursor) then Some(ScanTrivial(t, pos, cursor))
    else if t[cursor] == '[' then ScanHeader(t, pos, cursor)
    else ScanKeyLine(t, pos, cursor)
  }

  /** The statements from `pos` to the end, or `None` where the scanner raises. */
  function Statements(t: string, pos: nat): (r: Option<seq<Statement>>)
    requires pos <= |t|
    decreases |t| - pos
  {
    if pos == |t| then Some([])
    else
      var first := ScanStatement(t, pos);
      if first.None? then None
      else
        match Statements(t, first.value.end)
        case None => None
        case Some(rest) => Some([first.value] + rest)
  }

  // ------------------------------------------------------------------ tiling

  /** The pieces of `t` that the statements cover, joined in order. */
  function Joined(t: string, ss: seq<Statement>): string
    requires forall s | s in ss :: 0 <= s.start <= s.end <= |t|
  {
    if ss == [] then "" else t[ss[0].start..ss[0].end] + Joined(t, ss[1..])
  }

  predicate Contiguous(ss: seq<Statement>, lo: nat, hi: nat) {
    if ss == [] then lo == hi
    else ss[0].start == lo < ss[0].end <= hi && Contiguous(ss[1..], ss[0].end, hi)
  }

  /** A key's value is a non-empty span strictly after the statement's start, inside it. */
  predicate ValueInside(s: Statement) {
    s.kind == Key ==> s.start < s.valueStart < s.valueEnd <= s.end
  }

  lemma {:induction false} ContiguousEverywhere(ss: seq<Statement>, lo: nat, hi: nat)
    requires Contiguous(ss, lo, hi)
    ensures lo <= hi
    ensures forall k | 0 <= k < |ss| :: lo <= ss[k].start < ss[k].end <= hi
    ensures forall k | 0 <= k < |ss| - 1 :: ss[k].end == ss[k + 1].start
    ensures ss != [] ==> ss[0].start == lo && ss[|ss| - 1].end == hi
  {
    if ss != [] {
      ContiguousEverywhere(ss[1..], ss[0].end, hi);
      forall k | 0 <= k < |ss|
        ensures lo <= ss[k].start < ss[k].end <= hi
        ensures k < |ss| - 1 ==> ss[k].end == ss[k + 1].start
      {
        if k > 0 { assert ss[k] == ss[1..][k - 1]; }
        if k < |ss| - 1 { assert ss[k + 1] == ss[1..][k]; }
      }
    }
  }

  /** When the scanner does not raise, its statements tile the text exactly. */
  lemma {:induction false} StatementsTile(t: string, pos: nat, ss: seq<Statement>)
    requires pos <= |t|
    ensures Statements(t, pos) == Some(ss) ==>
      && Contiguous(ss, pos, |t|)
      && (forall s | s in ss :: 0 <= s.start <= s.end <= |t| && ValueInside(s))
      && Joined(t, ss) == t[pos..]
    decreases |t| - pos
  {
    hide SkipWs, LineEnd, KeyEnd, FinishLine, ParseKeyText, ScanValue;
    if pos < |t| && Statements(t, pos) == Some(ss) {
      var first := ScanStatement(t, pos).value;
      StatementsTile(t, first.end, ss[1..]);
      assert ss[1..] == Statements(t, first.end).value;
      assert t[pos..] == t[first.start..first.end] + t[first.end..];
    }
  }
}
