/**
 `desktop_shortcut`: how a program path is written into a desktop entry and read back. The
 reader of the `Exec` key follows the section "The Exec key" of the freedesktop Desktop Entry
 Specification and knows nothing of the printer.
 */
module DesktopEntry {
  import opened Wrappers

  // ------------------------------------------------------------------ printing

  /** `str.replace` of one character. */
  function Replace(s: string, c: char, w: string): string {
    if s == "" then "" else (if s[0] == c then w else [s[0]]) + Replace(s[1..], c, w)
  }

  /** Four replacements, one after the other over the whole text. */
  function StringValue(text: string): string {
    Replace(Replace(Replace(Replace(text, '\\', "\\\\"), '\n', "\\n"), '\t', "\\t"), '\r', "\\r")
  }

  predicate IsPlainChar(c: char) {
    || 'A' <= c <= 'Z' || 'a' <= c <= 'z' || '0' <= c <= '9'
    || c == '/' || c == '.' || c == '_' || c == '+' || c == ',' || c == ':' || c == '@' || c == '=' || c == '-'
  }

  predicate AllPlain(s: string) { s != "" && forall k | 0 <= k < |s| :: IsPlainChar(s[k]) }

  /** The plain-argument pattern, whose `$` also matches before one final line break. */
  predicate IsPlainArgument(s: string) {
    AllPlain(s) || (s != "" && s[|s| - 1] == '\n' && AllPlain(s[..|s| - 1]))
  }

  predicate IsQuotedSpecial(c: char) { c == '"' || c == '`' || c == '$' || c == '\\' }

  function EscapeQuoted(s: string): string {
    if s == "" then "" else (if IsQuotedSpecial(s[0]) then ['\\', s[0]] else [s[0]]) + EscapeQuoted(s[1..])
  }

  function ExecValue(path: string): string {
    var quoted := if IsPlainArgument(path) then path else "\"" + EscapeQuoted(path) + "\"";
    StringValue(Replace(quoted, '%', "%%"))
  }

  // ------------------------------------------------------------------ reading strings

  function Unescaped(c: char): char {
    match c
    case 'n' => '\n'
    case 't' => '\t'
    case 'r' => '\r'
    case 's' => ' '
    case _ => c
  }

  /** `_unescape_string` from the first character on. */
  function Unescape(text: string): string {
    if text == "" then ""
    else if text[0] == '\\' && |text| > 1 then [Unescaped(text[1])] + Unescape(text[2..])
    else [text[0]] + Unescape(text[1..])
  }

  /** What is built so far, and what the rest adds to it. */
  function Follow(out: string, rest: string): string { out + rest }

  method UnescapeString(text: string) returns (out: string)
    ensures out == Unescape(text)
  {
    hide Unescape, Follow;
    out := "";
    var i := 0;
    UnescapeTurn(out, text, 0);
    while i < |text|
      invariant 0 <= i <= |text|
      invariant Follow(out, Unescape(text[i..])) == Unescape(text)
    {
      UnescapeTurn(out, text, i);
      if text[i] == '\\' && i + 1 < |text| {
        out := out + [Unescaped(text[i + 1])];
        i := i + 2;
      } else {
        out := out + [text[i]];
        i := i + 1;
      }
    }
    UnescapeTurn(out, text, i);
  }

  /** What one turn of that loop moves from the rest of the text to the result. */
  lemma UnescapeTurn(out: string, text: string, i: nat)
    requires i <= |text|
    ensures i == 0 ==> Follow("", Unescape(text[i..])) == Unescape(text)
    ensures i == |text| ==> Follow(out, Unescape(text[i..])) == out
    ensures i < |text| && text[i] == '\\' && i + 1 < |text| ==>
      Follow(out, Unescape(text[i..])) == Follow(out + [Unescaped(text[i + 1])], Unescape(text[i + 2..]))
    ensures i < |text| && !(text[i] == '\\' && i + 1 < |text|) ==>
      Follow(out, Unescape(text[i..])) == Follow(out + [text[i]], Unescape(text[i + 1..]))
  {
    hide Unescape, Follow;
    if i == 0 {
      assert text[i..] == text;
      Joins("", "", Unescape(text));
    }
    if i == |text| {
      assert text[i..] == "";
      UnescapeNothing();
      Joins(out, "", "");
    } else if text[i] == '\\' && i + 1 < |text| {
      assert text[i..] == [text[i], text[i + 1]] + text[i + 2..];
      UnescapePair(text[i + 1], text[i + 2..]);
      Joins(out, [Unescaped(text[i + 1])], Unescape(text[i + 2..]));
    } else {
      assert text[i..] == [text[i]] + text[i + 1..];
      UnescapePlain(text[i], text[i + 1..]);
      Joins(out, [text[i]], Unescape(text[i + 1..]));
    }
  }

  lemma Joins(out: string, first: string, rest: string)
    ensures Follow(out, first + rest) == Follow(out + first, rest)
    ensures Follow("", rest) == rest
    ensures Follow(out, "") == out
  {
    assert out + (first + rest) == out + first + rest;
  }

  lemma UnescapeNothing()
    ensures Unescape("") == ""
  {
  }

  lemma UnescapePair(c: char, rest: string)
    ensures Unescape(['\\', c] + rest) == [Unescaped(c)] + Unescape(rest)
  {
    assert (['\\', c] + rest)[2..] == rest;
  }

  lemma UnescapePlain(c: char, rest: string)
    requires c != '\\' || rest == ""
    ensures Unescape([c] + rest) == [c] + Unescape(rest)
  {
    assert ([c] + rest)[1..] == rest;
  }

  // ------------------------------------------------------------------ reading the Exec key

  /** Characters an argument may hold only inside quotes. */
  predicate IsReserved(c: char) {
    || c == ' ' || c == '\t' || c == '\n' || c == '"' || c == '\'' || c == '\\' || c == '>' || c == '<' || c == '~'
    || c == '|' || c == '&' || c == ';' || c == '$' || c == '*' || c == '?' || c == '#' || c == '(' || c == ')' || c == '`'
  }

  /** A word read from the front of a command line, and what follows it. */
  datatype Word = NoWord | Word(text: string, rest: string)

  function Push(c: char, w: Word): Word {
    match w
    case NoWord => NoWord
    case Word(text, rest) => Word([c] + text, rest)
  }

  /** A quoted argument from behind its opening quote. */
  function ReadQuoted(s: string): (w: Word)
    ensures w.Word? ==> |w.rest| < |s|
  {
    if s == "" then NoWord
    else if s[0] == '"' then Word("", s[1..])
    else if s[0] == '\\' then
      if |s| > 1 && IsQuotedSpecial(s[1]) then Push(s[1], ReadQuoted(s[2..])) else NoWord
    else if s[0] == '`' || s[0] == '$' then NoWord
    else Push(s[0], ReadQuoted(s[1..]))
  }

  function ReadUnquoted(s: string): (w: Word)
    ensures w.Word? && |w.text| + |w.rest| == |s|
  {
    if s == "" || IsReserved(s[0]) then Word("", s) else Push(s[0], ReadUnquoted(s[1..]))
  }

  function ReadWord(s: string): (w: Word)
    requires s != ""
    ensures w.Word? ==> |w.rest| < |s|
  {
    var w := if s[0] == '"' then ReadQuoted(s[1..]) else ReadUnquoted(s);
    if w.Word? && |w.rest| < |s| && (w.rest == "" || w.rest[0] == ' ') then w else NoWord
  }

  /** The arguments of a command line; `None` where a reserved character stands unquoted. */
  function Arguments(s: string): Option<seq<string>>
    decreases |s|
  {
    if s == "" then Some([])
    else if s[0] == ' ' then Arguments(s[1..])
    else
      match ReadWord(s)
      case NoWord => None
      case Word(text, rest) =>
        match Arguments(rest)
        case None => None
        case Some(more) => Some([text] + more)
  }

  function Prefix(c: char, r: Option<string>): Option<string> {
    match r
    case None => None
    case Some(s) => Some([c] + s)
  }

  /** `%%` is a literal percent sign; any other `%` starts a field code, which a program path has none of. */
  function Percents(s: string): Option<string> {
    if s == "" then Some("")
    else if s[0] != '%' then Prefix(s[0], Percents(s[1..]))
    else if |s| > 1 && s[1] == '%' then Prefix('%', Percents(s[2..]))
    else None
  }

  /** The command line an `Exec` value stands for: string escapes first, then `%%`, then quoting. */
  function ReadExec(value: string): Option<seq<string>> {
    match Percents(Unescape(value))
    case None => None
    case Some(line) => Arguments(line)
  }

  // ------------------------------------------------------------------ the string escape inverts

  lemma {:induction false} ReplaceJoins(a: string, b: string, c: char, w: string)
    ensures Replace(a + b, c, w) == Replace(a, c, w) + Replace(b, c, w)
  {
    if a == "" {
      assert a + b == b;
    } else {
      assert (a + b)[1..] == a[1..] + b;
      ReplaceJoins(a[1..], b, c, w);
    }
  }

  /** What the four replacements together make of one character. */
  function CharValue(c: char): string {
    match c
    case '\\' => "\\\\"
    case '\n' => "\\n"
    case '\t' => "\\t"
    case '\r' => "\\r"
    case _ => [c]
  }

  lemma OneValue(c: char)
    ensures StringValue([c]) == CharValue(c)
  {
    ReplaceOne(c, '\\', "\\\\");
    if c == '\\' {
      ReplaceTwo('\\', '\\', '\n', "\\n");
      ReplaceTwo('\\', '\\', '\t', "\\t");
      ReplaceTwo('\\', '\\', '\r', "\\r");
    } else {
      ReplaceOne(c, '\n', "\\n");
      ReplaceOne(c, '\t', "\\t");
      ReplaceOne(c, '\r', "\\r");
      ReplaceTwo('\\', 'n', '\t', "\\t");
      ReplaceTwo('\\', 'n', '\r', "\\r");
      ReplaceTwo('\\', 't', '\r', "\\r");
    }
  }

  lemma ReplaceOne(a: char, c: char, w: string)
    ensures Replace([a], c, w) == if a == c then w else [a]
  {
    assert Replace([a][1..], c, w) == "";
  }

  lemma ReplaceTwo(a: char, b: char, c: char, w: string)
    requires a != c && b != c
    ensures Replace([a, b], c, w) == [a, b]
  {
    assert [a, b][1..] == [b];
    ReplaceOne(b, c, w);
  }

  /** The sequential replacements work character by character. */
  lemma ValueStep(s: string)
    requires s != ""
    ensures StringValue(s) == CharValue(s[0]) + StringValue(s[1..])
  {
    hide Replace;
    var a, b := [s[0]], s[1..];
    assert a + b == s;
    OneValue(s[0]);
    ReplaceJoins(a, b, '\\', "\\\\");
    var a1, b1 := Replace(a, '\\', "\\\\"), Replace(b, '\\', "\\\\");
    ReplaceJoins(a1, b1, '\n', "\\n");
    var a2, b2 := Replace(a1, '\n', "\\n"), Replace(b1, '\n', "\\n");
    ReplaceJoins(a2, b2, '\t', "\\t");
    var a3, b3 := Replace(a2, '\t', "\\t"), Replace(b2, '\t', "\\t");
    ReplaceJoins(a3, b3, '\r', "\\r");
  }

  lemma CharUnescapes(c: char, rest: string)
    ensures Unescape(CharValue(c) + rest) == [c] + Unescape(rest)
  {
    var s := CharValue(c) + rest;
    if |CharValue(c)| == 2 {
      assert s[2..] == rest;
    } else {
      assert s[1..] == rest;
    }
  }

  lemma EmptyValue()
    ensures StringValue("") == ""
  {
  }

  /** Reading a printed string gives the string, for every string. */
  lemma {:induction false} StringRoundTrip(s: string)
    ensures Unescape(StringValue(s)) == s
    decreases |s|
  {
    hide StringValue;
    if s == "" {
      EmptyValue();
    } else {
      ValueStep(s);
      StringRoundTrip(s[1..]);
      CharUnescapes(s[0], StringValue(s[1..]));
      assert [s[0]] + s[1..] == s;
    }
  }

  // ------------------------------------------------------------------ the Exec value inverts

  lemma {:induction false} PercentsRoundTrip(s: string)
    ensures Percents(Replace(s, '%', "%%")) == Some(s)
    decreases |s|
  {
    if s != "" {
      PercentsRoundTrip(s[1..]);
      var rest := Replace(s[1..], '%', "%%");
      var t := Replace(s, '%', "%%");
      if s[0] == '%' { assert t == "%%" + rest && t[2..] == rest; } else { assert t == [s[0]] + rest && t[1..] == rest; }
      assert [s[0]] + s[1..] == s;
    }
  }

  lemma {:induction false} QuotedRoundTrip(s: string)
    ensures ReadQuoted(EscapeQuoted(s) + "\"") == Word(s, "")
    decreases |s|
  {
    if s == "" {
      assert EscapeQuoted(s) + "\"" == "\"";
    } else {
      QuotedRoundTrip(s[1..]);
      var rest := EscapeQuoted(s[1..]) + "\"";
      var t := EscapeQuoted(s) + "\"";
      if IsQuotedSpecial(s[0]) {
        assert t == ['\\', s[0]] + rest && t[2..] == rest;
      } else {
        assert t == [s[0]] + rest && t[1..] == rest;
      }
      assert [s[0]] + s[1..] == s;
    }
  }

  lemma {:induction false} PlainWord(s: string, rest: string)
    requires (forall k | 0 <= k < |s| :: IsPlainChar(s[k])) && (rest != "" ==> IsReserved(rest[0]))
    ensures ReadUnquoted(s + rest) == Word(s, rest)
    decreases |s|
  {
    if s == "" {
      assert s + rest == rest;
    } else {
      PlainWord(s[1..], rest);
      assert (s + rest)[1..] == s[1..] + rest;
      assert [s[0]] + s[1..] == s;
    }
  }

  lemma OneArgument(line: string, text: string)
    requires line != "" && line[0] != ' ' && ReadWord(line) == Word(text, "")
    ensures Arguments(line) == Some([text])
  {
    assert Arguments("") == Some([]) && [text] + [] == [text];
  }

  /** A plain path with a line break behind it, which the plain-argument pattern lets through. */
  predicate PlainThenBreak(path: string) {
    path != "" && path[|path| - 1] == '\n' && AllPlain(path[..|path| - 1])
  }

  /**
   Reading a printed `Exec` value by the specification gives the command line of exactly that
   one path, for every path except a plain one that ends with a line break: that one is left
   unquoted although a line break is a reserved character, so it cannot be read.
   */
  lemma ExecRoundTrip(path: string)
    ensures ReadExec(ExecValue(path)) == if PlainThenBreak(path) then None else Some([path])
  {
    hide StringValue, Percents, Replace, ReadQuoted, ReadUnquoted, EscapeQuoted, Unescape;
    var quoted := if IsPlainArgument(path) then path else "\"" + EscapeQuoted(path) + "\"";
    StringRoundTrip(Replace(quoted, '%', "%%"));
    PercentsRoundTrip(quoted);
    assert ReadExec(ExecValue(path)) == Arguments(quoted);
    if PlainThenBreak(path) {
      var word := path[..|path| - 1];
      assert path == word + "\n" && path[0] == word[0] && IsPlainChar(word[0]);
      PlainWord(word, "\n");
      assert ReadWord(path) == NoWord;
    } else if IsPlainArgument(path) {
      assert path == path + "" && IsPlainChar(path[0]);
      PlainWord(path, "");
      OneArgument(path, path);
    } else {
      assert quoted[1..] == EscapeQuoted(path) + "\"";
      QuotedRoundTrip(path);
      OneArgument(quoted, path);
    }
  }

  /** The exception exists: `/x` followed by a line break cannot be read back. */
  lemma ExecBreaks()
    ensures ReadExec(ExecValue("/x\n")) == None
  {
    hide ReadExec, ExecValue;
    assert "/x\n"[..2] == "/x";
    ExecRoundTrip("/x\n");
  }
}
