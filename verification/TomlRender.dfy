/**
 The value printer of `config_edit`, and a reader that decodes TOML values as TOML v1.0.0 gives
 their meaning (sections "String", "Integer", "Boolean" and "Array"). The reader finds the end of
 a string, of trivia and of a bare word where the grammar of the scanner does; what the characters
 between them mean it takes from the standard alone.
 */
module TomlRender {
  import opened Wrappers
  import opened Decimal
  import opened Texts
  import G = TomlGrammar

  datatype Value = Bool(b: bool) | Int(n: int) | Str(s: string) | List(items: seq<Value>)

  const INT64_MIN := -0x8000_0000_0000_0000
  const INT64_MAX := 0x7FFF_FFFF_FFFF_FFFF

  // ------------------------------------------------------------------ printing

  function HexChar(d: nat): char
    requires d < 16
  {
    if d < 10 then ('0' as int + d) as char else ('A' as int + d - 10) as char
  }

  function RenderChar(c: char): string {
    match c
    case '"' => "\\\""
    case '\\' => "\\\\"
    case '\t' => "\\t"
    case '\n' => "\\n"
    case '\r' => "\\r"
    case _ =>
      var code := c as int;
      if code == 8 then "\\b"
      else if code == 12 then "\\f"
      else if code < 0x20 || code == 0x7F then "\\u00" + [HexChar(code / 16), HexChar(code % 16)]
      else [c]
  }

  function RenderChars(s: string): string {
    if s == [] then "" else RenderChar(s[0]) + RenderChars(s[1..])
  }

  function RenderString(s: string): string { "\"" + RenderChars(s) + "\"" }

  /** The loop of `_render_string`. */
  method RenderStringLoop(value: string) returns (rendered: string)
    ensures rendered == RenderString(value)
  {
    rendered := "\"";
    for i := 0 to |value|
      invariant rendered + RenderChars(value[i..]) == "\"" + RenderChars(value)
    {
      assert value[i..][1..] == value[i + 1..];
      rendered := rendered + RenderChar(value[i]);
    }
    rendered := rendered + "\"";
  }

  function IntText(n: int): string { if n < 0 then "-" + NatText(-n) else NatText(n) }

  /** `None` is the `ValueError` of an integer outside 64 bits. */
  function Render(v: Value): Option<string>
    decreases v, 0
  {
    match v
    case Bool(b) => Some(if b then "true" else "false")
    case Int(n) => if INT64_MIN <= n <= INT64_MAX then Some(IntText(n)) else None
    case Str(s) => Some(RenderString(s))
    case List(items) =>
      match RenderItems(items)
      case None => None
      case Some(inner) => Some("[" + inner + "]")
  }

  function RenderItems(items: seq<Value>): Option<string>
    decreases items, 1
  {
    if items == [] then Some("")
    else
      var first := Render(items[0]);
      var rest := RenderItems(items[1..]);
      if first.None? || rest.None? then None
      else if |items| == 1 then first
      else Some(first.value + ", " + rest.value)
  }

  // ------------------------------------------------------------------ reading

  datatype Reading = Unread | Read(value: Value, end: nat)

  datatype Readings = UnreadItems | ReadAll(items: seq<Value>, end: nat)

  function IntOf(w: string): Option<int> {
    if Canonical(w) then Some(NatOf(w) as int)
    else if |w| > 1 && w[0] == '-' && Canonical(w[1..]) then Some(-(NatOf(w[1..]) as int))
    else if |w| > 1 && w[0] == '+' && Canonical(w[1..]) then Some(NatOf(w[1..]) as int)
    else None
  }

  function WordOf(w: string): Option<Value> {
    if w == "true" then Some(Bool(true))
    else if w == "false" then Some(Bool(false))
    else match IntOf(w)
      case None => None
      case Some(n) => Some(Int(n))
  }

  /** The value that starts at `i` and the offset after it. */
  function ReadValue(t: string, i: nat): (r: Reading)
    requires i <= |t|
    ensures r.Read? ==> i < r.end <= |t|
    decreases |t| - i, 0
  {
    if i == |t| then Unread
    else if t[i] == '"' then
      var e := G.BasicEnd(t, i + 1);
      if e.None? then Unread
      else
        match G.Unescape(t[i + 1..e.value - 1])
        case None => Unread
        case Some(s) => Read(Str(s), e.value)
    else if t[i] == '[' then
      match ReadItems(t, i + 1)
      case UnreadItems => Unread
      case ReadAll(items, e) => Read(List(items), e)
    else
      var e := G.BareRunEnd(t, i);
      match WordOf(t[i..e])
      case None => Unread
      case Some(v) => if e == i then Unread else Read(v, e)
  }

  /** The elements of an array from `i`, up to and past its closing bracket. */
  function ReadItems(t: string, i: nat): (r: Readings)
    requires i <= |t|
    ensures r.ReadAll? ==> i < r.end <= |t|
    decreases |t| - i, 1
  {
    var c := G.SkipTrivia(t, i);
    if c == |t| then UnreadItems
    else if t[c] == ']' then ReadAll([], c + 1)
    else
      match ReadValue(t, c)
      case Unread => UnreadItems
      case Read(first, e) =>
        var c2 := G.SkipTrivia(t, e);
        if c2 < |t| && t[c2] == ']' then ReadAll([first], c2 + 1)
        else if c2 < |t| && t[c2] == ',' then Cons(first, ReadItems(t, c2 + 1))
        else UnreadItems
  }

  function Cons(first: Value, rest: Readings): Readings {
    match rest
    case UnreadItems => UnreadItems
    case ReadAll(items, e) => ReadAll([first] + items, e)
  }

  // ------------------------------------------------------------------ the printed form inside a text

  predicate At(t: string, i: nat, w: string) { i + |w| <= |t| && t[i..i + |w|] == w }

  /** What may follow a value: the end, a blank, a line break, a comment, a comma or a bracket. */
  predicate Delimited(t: string, e: nat) {
    e <= |t| && (e < |t| ==> G.IsTrivia(t[e]) || t[e] == '#' || t[e] == ',' || t[e] == ']')
  }

  lemma AtSplit(t: string, i: nat, a: string, b: string)
    requires At(t, i, a + b)
    ensures At(t, i, a) && At(t, i + |a|, b)
    ensures |a| > 0 ==> t[i] == a[0]
    ensures |b| > 0 ==> t[i + |a|] == b[0]
  {
    var w := a + b;
    assert forall k | 0 <= k < |w| :: t[i + k] == t[i..i + |w|][k] == w[k];
    assert t[i..i + |a|] == w[..|a|] == a;
    assert t[i + |a|..i + |a| + |b|] == w[|a|..] == b;
  }

  lemma AtChar(t: string, i: nat, w: string, k: nat)
    requires At(t, i, w) && k < |w|
    ensures i + k < |t| && t[i + k] == w[k]
  {
    assert t[i..i + |w|][k] == t[i + k];
  }

  lemma EscapePieces(high: char, low: char, rest: string)
    ensures var w := "\\u00" + [high, low] + rest;
      |w| >= 6 && w[0] == '\\' && w[1] == 'u' && w[2..6] == ['0', '0', high, low] && w[6..] == rest
  {
  }

  lemma CharReads(c: char, rest: string)
    ensures |RenderChar(c)| > 0
    ensures G.Unescape(RenderChar(c) + rest) == G.Prepend(Some(c), G.Unescape(rest))
  {
    var w := RenderChar(c) + rest;
    var code := c as int;
    if |RenderChar(c)| == 1 {
      assert w[1..] == rest;
    } else if |RenderChar(c)| == 2 {
      assert w[2..] == rest;
      assert 8 as char as int == 8 && 12 as char as int == 12;
    } else {
      EscapePieces(HexChar(code / 16), HexChar(code % 16), rest);
      HexReads(code);
    }
  }

  lemma HexReads(code: nat)
    requires code < 256
    ensures G.HexValue(['0', '0', HexChar(code / 16), HexChar(code % 16)]) == Some(code)
  {
    var w := ['0', '0', HexChar(code / 16), HexChar(code % 16)];
    assert w[..3] == ['0', '0', HexChar(code / 16)];
    assert w[..3][..2] == ['0', '0'];
    assert w[..3][..2][..1] == ['0'];
    assert G.HexValue(['0']) == Some(0);
    assert G.HexValue(['0', '0']) == Some(0);
    assert G.HexValue(w[..3]) == Some(code / 16);
  }

  /** Decoding a printed string gives the string back. */
  lemma {:induction false} StringReads(s: string)
    ensures G.Unescape(RenderChars(s)) == Some(s)
  {
    if s != [] {
      StringReads(s[1..]);
      CharReads(s[0], RenderChars(s[1..]));
      assert [s[0]] + s[1..] == s;
    }
  }

  lemma PlainPassed(t: string, c: nat)
    requires c < |t| && t[c] != '\\' && t[c] != '"' && t[c] != '\n'
    ensures G.BasicEnd(t, c) == G.BasicEnd(t, c + 1)
  {
  }

  lemma CharPassed(t: string, i: nat, c: char)
    requires At(t, i, RenderChar(c))
    ensures G.BasicEnd(t, i) == G.BasicEnd(t, i + |RenderChar(c)|)
  {
    var w := RenderChar(c);
    forall k | 0 <= k < |w|
      ensures t[i + k] == w[k]
    {
      assert t[i..i + |w|][k] == w[k];
    }
    assert t[i + 0] == w[0];
    if |w| == 6 {
      assert w[1] == 'u' && w[2] == '0' && w[3] == '0';
      assert G.BasicEnd(t, i) == G.BasicEnd(t, i + 2);
      PlainPassed(t, i + 2);
      PlainPassed(t, i + 3);
      PlainPassed(t, i + 4);
      PlainPassed(t, i + 5);
    }
  }

  /** The scanner finds the closing quote of a printed string, and no quote before it. */
  lemma {:induction false} StringEnds(t: string, i: nat, s: string)
    requires At(t, i, RenderChars(s) + "\"")
    ensures G.BasicEnd(t, i) == Some(i + |RenderChars(s)| + 1)
    decreases |s|
  {
    hide RenderChar;
    if s == [] {
      AtSplit(t, i, "", "\"");
    } else {
      var c := RenderChar(s[0]);
      assert RenderChars(s) + "\"" == c + (RenderChars(s[1..]) + "\"");
      AtSplit(t, i, c, RenderChars(s[1..]) + "\"");
      CharPassed(t, i, s[0]);
      StringEnds(t, i + |c|, s[1..]);
    }
  }

  lemma {:induction false} BareRunIs(t: string, i: nat, w: string)
    requires At(t, i, w) && Delimited(t, i + |w|)
    requires forall k | 0 <= k < |w| :: G.IsBareValueChar(w[k])
    ensures G.BareRunEnd(t, i) == i + |w|
    decreases |w|
  {
    if w != "" {
      AtSplit(t, i, [w[0]], w[1..]);
      assert w == [w[0]] + w[1..];
      AtSplit(t, i, [w[0]], w[1..]);
      BareRunIs(t, i + 1, w[1..]);
    }
  }

  lemma WordScans(t: string, i: nat, w: string)
    requires At(t, i, w) && Delimited(t, i + |w|) && |w| > 0
    requires forall k | 0 <= k < |w| :: G.IsBareValueChar(w[k]) && w[k] != '"' && w[k] != '\'' && w[k] != '[' && w[k] != '{'
    requires !G.IsLocalDate(w)
    ensures G.ScanValue(t, i) == G.Good(i + |w|, false)
    ensures ReadValue(t, i) == match WordOf(w) case None => Unread case Some(v) => Read(v, i + |w|)
  {
    BareRunIs(t, i, w);
    assert t[i] == w[0] by { assert t[i..i + |w|][0] == t[i]; }
  }

  lemma IntReads(n: int)
    ensures WordOf(IntText(n)) == Some(Int(n)) && !G.IsLocalDate(IntText(n)) && |IntText(n)| > 0
    ensures forall k | 0 <= k < |IntText(n)| :: IsDigit(IntText(n)[k]) || (k == 0 && IntText(n)[k] == '-')
  {
    hide NatText, NatOf;
    if n < 0 {
      NatTextReads(-n);
      assert IntText(n)[0] == '-' && IntText(n)[1..] == NatText(-n);
    } else {
      NatTextReads(n);
    }
  }

  predicate StartsValue(c: char) { !G.IsTrivia(c) && c != '#' && c != ']' && c != ',' }

  lemma {:induction false} RenderStarts(v: Value)
    ensures Render(v).Some? ==> |Render(v).value| > 0 && StartsValue(Render(v).value[0])
  {
    if v.Int? { IntReads(v.n); }
  }

  /**
   Printer, scanner and reader agree: a printed value, followed by anything that may follow a
   value, scans as exactly one value without multi-line strings, and reads back as the value.
   */
  lemma {:induction false} RenderedReadsBack(t: string, i: nat, v: Value, w: string)
    ensures Render(v) == Some(w) && At(t, i, w) && Delimited(t, i + |w|) ==>
      G.ScanValue(t, i) == G.Good(i + |w|, false) && ReadValue(t, i) == Read(v, i + |w|)
    decreases v, 0
  {
    hide G.ScanValue, ReadValue, G.BareRunEnd;
    if Render(v) == Some(w) && At(t, i, w) && Delimited(t, i + |w|) {
      match v
      case Bool(b) => WordScans(t, i, w);
      case Int(n) => IntReads(n); WordScans(t, i, w);
      case Str(s) => RenderedString(t, i, s);
      case List(items) => RenderedList(t, i, v, w);
    }
  }

  lemma {:induction false} RenderedList(t: string, i: nat, v: Value, w: string)
    requires v.List? && Render(v) == Some(w) && At(t, i, w)
    ensures G.ScanValue(t, i) == G.Good(i + |w|, false) && ReadValue(t, i) == Read(v, i + |w|)
    decreases v.items, 2
  {
    hide G.ScanValue, ReadValue, G.ArrayFrom, ReadItems;
    var inner := RenderItems(v.items).value;
    assert w == "[" + (inner + "]");
    AtSplit(t, i, "[", inner + "]");
    RenderedItems(t, i + 1, i + 1, v.items, inner);
    OpensArray(t, i);
    assert ReadValue(t, i) == Read(List(v.items), i + |w|);
  }

  lemma OpensArray(t: string, i: nat)
    requires i < |t| && t[i] == '['
    ensures G.ScanValue(t, i) == G.ArrayFrom(t, i + 1, false)
    ensures ReadValue(t, i) == match ReadItems(t, i + 1) case UnreadItems => Unread case ReadAll(items, e) => Read(List(items), e)
  {
  }

  lemma RenderedString(t: string, i: nat, s: string)
    requires At(t, i, RenderString(s)) && Delimited(t, i + |RenderString(s)|)
    ensures var e := i + |RenderString(s)|; G.ScanValue(t, i) == G.Good(e, false) && ReadValue(t, i) == Read(Str(s), e)
  {
    hide G.Unescape, G.BasicEnd, G.BareRunEnd, G.MultiEnd, G.ArrayFrom, G.InlineFrom, G.SkipTrivia, G.LiteralEnd, ReadItems, RenderChar;
    var chars := RenderChars(s);
    assert RenderString(s) == "\"" + (chars + "\"");
    AtSplit(t, i, "\"", chars + "\"");
    AtSplit(t, i + 1, chars, "\"");
    StringEnds(t, i + 1, s);
    StringReads(s);
    assert t[i + 1..i + 1 + |chars|] == chars;
    // Three quotes in a row never start a printed string: an empty one is followed by a delimiter.
    if s == "" {
      assert i + 2 < |t| ==> t[i + 2] != '"';
    } else {
      assert chars[0] == RenderChar(s[0])[0] != '"' by { CharStarts(s[0]); }
      assert t[i + 1] == chars[0];
    }
    assert !G.Triple(t, '"', i);
  }

  lemma CharStarts(c: char)
    ensures |RenderChar(c)| > 0 && RenderChar(c)[0] != '"'
  {
  }

  lemma TriviaEnds(t: string, from: nat, i: nat)
    requires from <= i < |t| && (from < i ==> from + 1 == i && t[from] == ' ')
    requires !G.IsTrivia(t[i]) && t[i] != '#'
    ensures G.SkipTrivia(t, from) == i
  {
  }

  /** One turn of both array loops over a value that ends at `c`, which is no trivia. */
  lemma ArrayTurn(t: string, from: nat, i: nat, v: Value, c: nat)
    requires i < c < |t| && from <= i && (from < i ==> from + 1 == i && t[from] == ' ')
    requires StartsValue(t[i])
    requires G.ScanValue(t, i) == G.Good(c, false) && ReadValue(t, i) == Read(v, c)
    ensures t[c] == ']' ==>
      G.ArrayFrom(t, from, false) == G.Good(c + 1, false) && ReadItems(t, from) == ReadAll([v], c + 1)
    ensures t[c] == ',' ==>
      && G.ArrayFrom(t, from, false) == G.ArrayFrom(t, c + 1, false)
      && ReadItems(t, from) == Cons(v, ReadItems(t, c + 1))
  {
    hide G.ScanValue, ReadValue, G.SkipTrivia;
    TriviaEnds(t, from, i);
    if t[c] == ']' || t[c] == ',' { TriviaEnds(t, c, c); }
  }

  /** The same for a printed element. */
  lemma ItemTurn(t: string, from: nat, i: nat, v: Value, w: string, c: nat)
    requires Render(v) == Some(w) && At(t, i, w) && c == i + |w| < |t| && (t[c] == ']' || t[c] == ',')
    requires from <= i && (from < i ==> from + 1 == i && t[from] == ' ')
    ensures t[c] == ']' ==>
      G.ArrayFrom(t, from, false) == G.Good(c + 1, false) && ReadItems(t, from) == ReadAll([v], c + 1)
    ensures t[c] == ',' ==>
      && G.ArrayFrom(t, from, false) == G.ArrayFrom(t, c + 1, false)
      && ReadItems(t, from) == Cons(v, ReadItems(t, c + 1))
    decreases v, 1
  {
    hide G.ScanValue, ReadValue, G.ArrayFrom, ReadItems, Render;
    RenderStarts(v);
    assert t[i] == t[i..i + |w|][0] == w[0];
    RenderedReadsBack(t, i, v, w);
    ArrayTurn(t, from, i, v, c);
  }

  lemma Regrouped(a: string, b: string, c: string, d: string)
    ensures a + b + c + d == a + (b + (c + d))
  {
  }

  lemma MoreItems(t: string, i: nat, first: string, rest: string, inner: string)
    requires inner == first + ", " + rest && At(t, i, inner + "]")
    ensures var c := i + |first|; At(t, i, first) && c + 2 < |t| && t[c] == ',' && t[c + 1] == ' ' && At(t, c + 2, rest + "]")
  {
    var c := i + |first|;
    Regrouped(first, ", ", rest, "]");
    AtSplit(t, i, first, ", " + (rest + "]"));
    AtSplit(t, c, ", ", rest + "]");
    assert t[c + 1] == t[c..c + 2][1] == ' ';
  }

  lemma {:induction false} RenderedItems(t: string, from: nat, i: nat, items: seq<Value>, inner: string)
    requires RenderItems(items) == Some(inner) && At(t, i, inner + "]")
    requires from <= i && (from < i ==> from + 1 == i && t[from] == ' ')
    ensures var e := i + |inner| + 1;
      G.ArrayFrom(t, from, false) == G.Good(e, false) && ReadItems(t, from) == ReadAll(items, e)
    decreases items, 1
  {
    hide *;
    if items == [] {
      NoItems(t, from, i, inner);
    } else {
      ItemsParts(items, inner);
      var first := Render(items[0]).value;
      var c := i + |first|;
      if |items| == 1 {
        LastItem(t, i, first);
        ItemTurn(t, from, i, items[0], first, c);
        assert [items[0]] == items;
      } else {
        var rest := RenderItems(items[1..]).value;
        MoreItems(t, i, first, rest, inner);
        ItemTurn(t, from, i, items[0], first, c);
        RenderedItems(t, c + 1, c + 2, items[1..], rest);
        Consed(items, c + 2 + |rest| + 1);
      }
    }
  }

  lemma Consed(items: seq<Value>, e: nat)
    requires items != []
    ensures Cons(items[0], ReadAll(items[1..], e)) == ReadAll(items, e)
  {
    assert [items[0]] + items[1..] == items;
  }

  lemma NoItems(t: string, from: nat, i: nat, inner: string)
    requires RenderItems([]) == Some(inner) && At(t, i, inner + "]")
    requires from <= i && (from < i ==> from + 1 == i && t[from] == ' ')
    ensures |inner| == 0 && i < |t| && G.ArrayFrom(t, from, false) == G.Good(i + 1, false) && ReadItems(t, from) == ReadAll([], i + 1)
  {
    hide G.SkipTrivia, G.ScanValue, ReadValue;
    AtSplit(t, i, "", "]");
    TriviaEnds(t, from, i);
  }

  lemma ItemsParts(items: seq<Value>, inner: string)
    requires items != [] && RenderItems(items) == Some(inner)
    ensures Render(items[0]).Some? && RenderItems(items[1..]).Some?
    ensures inner == if |items| == 1 then Render(items[0]).value else Render(items[0]).value + ", " + RenderItems(items[1..]).value
  {
    hide Render;
  }

  lemma LastItem(t: string, i: nat, first: string)
    requires At(t, i, first + "]")
    ensures var c := i + |first|; At(t, i, first) && c < |t| && t[c] == ']'
  {
    AtSplit(t, i, first, "]");
  }
}
