/**
 The scanner of `config_edit` in its own form: an object over one text whose methods move a
 cursor in loops. Each method computes the function of TomlGrammar.dfy that specifies it; a
 `None` or `Bad` result is the `ValueError` the source raises.
 */
module TomlScanner {
  import opened Wrappers
  import G = TomlGrammar

  /** Where an array's brackets stand and each of its elements begins and ends; `NoShape` stands for a raised error. */
  datatype Shape =
    | NoShape
    | Shape(openOffset: nat, closeOffset: nat, items: seq<(nat, nat)>, trailingComma: bool, multiline: bool)

  /** The loop of `array_shape`, entered at `i` with the elements found so far. */
  function ShapeFrom(t: string, pos: nat, i: nat, items: seq<(nat, nat)>, trailing: bool): Shape
    requires pos < i <= |t|
    decreases |t| - i
  {
    var c := G.SkipTrivia(t, i);
    if c == |t| then NoShape
    else if t[c] == ']' then Shape(pos, c, items, trailing, '\n' in t[pos..c])
    else match G.ScanValue(t, c)
      case Bad => NoShape
      case Good(e, _) =>
        var c2 := G.SkipTrivia(t, e);
        if c2 < |t| && t[c2] == ',' then ShapeFrom(t, pos, c2 + 1, items + [(c, e)], true)
        else if G.SkipTrivia(t, c2) == |t| || t[G.SkipTrivia(t, c2)] != ']' then NoShape
        else ShapeFrom(t, pos, c2, items + [(c, e)], false)
  }

  function ShapeAt(t: string, pos: nat): Shape
    requires pos < |t|
  {
    if t[pos] != '[' then NoShape else ShapeFrom(t, pos, pos + 1, [], false)
  }

  lemma {:induction false} SkipTriviaTwice(t: string, i: nat)
    requires i <= |t|
    ensures G.SkipTrivia(t, G.SkipTrivia(t, i)) == G.SkipTrivia(t, i)
  {
  }

  /** Element spans lie between the brackets, in order, and each is a scanned value. */
  predicate SpansAreValues(t: string, lo: nat, items: seq<(nat, nat)>, hi: nat)
    requires hi <= |t|
  {
    forall k | 0 <= k < |items| ::
      && lo < items[k].0 < items[k].1 <= hi
      && G.ScanValue(t, items[k].0).Good? && G.ScanValue(t, items[k].0).end == items[k].1
      && (k > 0 ==> items[k - 1].1 < items[k].0)
  }

  lemma {:induction false} ShapesAgreeFrom(t: string, pos: nat, i: nat, items: seq<(nat, nat)>, trailing: bool, m: bool)
    requires pos < i <= |t|
    requires forall k | 0 <= k < |items| :: items[k].1 < i
    requires SpansAreValues(t, pos, items, i)
    ensures var shape := ShapeFrom(t, pos, i, items, trailing);
      && shape.Shape? == G.ArrayFrom(t, i, m).Good?
      && (shape.Shape? ==> i <= shape.closeOffset < |t| && shape.closeOffset + 1 == G.ArrayFrom(t, i, m).end)
      && (shape.Shape? ==> shape.openOffset == pos && SpansAreValues(t, pos, shape.items, shape.closeOffset))
    decreases |t| - i
  {
    hide G.ScanValue, G.SkipTrivia, SpansAreValues;
    var c := G.SkipTrivia(t, i);
    if c < |t| && t[c] == ']' {
      WidenSpans(t, pos, items, i, c);
    } else if c < |t| && G.ScanValue(t, c).Good? {
      var e, inner := G.ScanValue(t, c).end, G.ScanValue(t, c).multiline;
      var c2 := G.SkipTrivia(t, e);
      SkipTriviaTwice(t, e);
      AddSpan(t, pos, items, i, c);
      if c2 < |t| && t[c2] == ',' {
        WidenSpans(t, pos, items + [(c, e)], e, c2 + 1);
        ShapesAgreeFrom(t, pos, c2 + 1, items + [(c, e)], true, m || inner);
      } else if c2 < |t| && t[c2] == ']' {
        WidenSpans(t, pos, items + [(c, e)], e, c2);
        assert ShapeFrom(t, pos, c2, items + [(c, e)], false)
            == Shape(pos, c2, items + [(c, e)], false, '\n' in t[pos..c2]);
      }
    }
  }

  lemma WidenSpans(t: string, lo: nat, items: seq<(nat, nat)>, hi: nat, hi': nat)
    requires hi <= hi' <= |t| && SpansAreValues(t, lo, items, hi)
    ensures SpansAreValues(t, lo, items, hi')
  {
    hide G.ScanValue;
  }

  lemma AddSpan(t: string, lo: nat, items: seq<(nat, nat)>, i: nat, c: nat)
    requires lo < i <= c < |t| && G.ScanValue(t, c).Good?
    requires SpansAreValues(t, lo, items, i) && forall k | 0 <= k < |items| :: items[k].1 < i
    ensures SpansAreValues(t, lo, items + [(c, G.ScanValue(t, c).end)], G.ScanValue(t, c).end)
  {
    hide G.ScanValue;
  }

  /**
   The two array walkers were written independently and agree: one raises exactly when the
   other does, and otherwise both end at the same bracket, around spans that are values.
   */
  lemma {:induction false} ShapesAgree(t: string, pos: nat)
    requires pos < |t| && t[pos] == '['
    ensures var shape := ShapeAt(t, pos);
      var end := G.ScanValue(t, pos);
      && shape.Shape? == end.Good?
      && (shape.Shape? ==> shape.closeOffset + 1 == end.end && SpansAreValues(t, pos, shape.items, shape.closeOffset))
  {
    hide G.ArrayFrom, ShapeFrom, G.InlineFrom, G.SkipTrivia, G.BareValueEnd, G.BasicEnd, SpansAreValues;
    assert SpansAreValues(t, pos, [], pos + 1) by { NoSpans(t, pos); }
    ShapesAgreeFrom(t, pos, pos + 1, [], false, false);
  }

  lemma NoSpans(t: string, pos: nat)
    requires pos < |t|
    ensures SpansAreValues(t, pos, [], pos + 1)
  {
  }

  /** The statements found so far, and those still to come. */
  function After(result: seq<G.Statement>, rest: Option<seq<G.Statement>>): Option<seq<G.Statement>> {
    match rest
    case None => None
    case Some(ss) => Some(result + ss)
  }

  /** What one turn of the statement loop moves from what is to come to what is found. */
  lemma TurnMoves(t: string, pos: nat, result: seq<G.Statement>)
    requires pos <= |t|
    ensures result == [] ==> After(result, G.Statements(t, pos)) == G.Statements(t, pos)
    ensures pos == |t| ==> After(result, G.Statements(t, pos)) == Some(result)
    ensures pos < |t| && G.ScanStatement(t, pos).None? ==> After(result, G.Statements(t, pos)) == None
    ensures pos < |t| && G.ScanStatement(t, pos).Some? ==>
      var turn := G.ScanStatement(t, pos).value;
      After(result, G.Statements(t, pos)) == After(result + [turn], G.Statements(t, turn.end))
  {
    hide G.ScanStatement;
    var rest := G.Statements(t, pos);
    if rest.Some? {
      assert [] + rest.value == rest.value && result + [] == result;
      if pos < |t| {
        var turn := G.ScanStatement(t, pos).value;
        var more := G.Statements(t, turn.end).value;
        assert result + ([turn] + more) == (result + [turn]) + more;
      }
    }
  }

  class Scanner {
    const text: string

    constructor (text: string)
      ensures this.text == text
    {
      this.text := text;
    }

    method SkipWs(start: nat) returns (pos: nat)
      requires start <= |text|
      ensures pos == G.SkipWs(text, start)
    {
      pos := start;
      while pos < |text| && G.IsWs(text[pos])
        invariant pos <= |text| && G.SkipWs(text, pos) == G.SkipWs(text, start)
      {
        pos := pos + 1;
      }
    }

    method SkipTrivia(start: nat) returns (pos: nat)
      requires start <= |text|
      ensures pos == G.SkipTrivia(text, start)
    {
      pos := start;
      while pos < |text|
        invariant pos <= |text| && G.SkipTrivia(text, pos) == G.SkipTrivia(text, start)
      {
        if G.IsTrivia(text[pos]) {
          pos := pos + 1;
        } else if text[pos] == '#' {
          pos := G.LineEnd(text, pos);
        } else {
          break;
        }
      }
    }

    method ScanBasicString(pos: nat) returns (r: Option<nat>)
      requires pos < |text|
      ensures r == G.BasicEnd(text, pos + 1)
    {
      var cursor := pos + 1;
      while cursor < |text|
        invariant G.BasicEnd(text, cursor) == G.BasicEnd(text, pos + 1)
        decreases |text| - cursor
      {
        if text[cursor] == '\\' {
          cursor := cursor + 2;
        } else if text[cursor] == '"' {
          return Some(cursor + 1);
        } else if text[cursor] == '\n' {
          break;
        } else {
          cursor := cursor + 1;
        }
      }
      return None;
    }

    /** Moves on from the first three quotes over those that still belong to the closing run. */
    method SkipExtraQuotes(start: nat, quote: char) returns (end: nat)
      requires start <= |text|
      ensures end == G.ExtraQuotes(text, quote, start, 0)
    {
      var extra := 0;
      end := start;
      while end < |text| && text[end] == quote && extra < 2
        invariant end <= |text| && extra <= 2
        invariant G.ExtraQuotes(text, quote, end, extra) == G.ExtraQuotes(text, quote, start, 0)
      {
        end, extra := end + 1, extra + 1;
      }
    }

    method ScanMultilineString(pos: nat, quote: char) returns (r: Option<nat>)
      requires pos < |text|
      ensures r == G.MultiEnd(text, quote, pos + 3)
    {
      hide G.ExtraQuotes;
      var cursor := pos + 3;
      while cursor < |text|
        invariant G.MultiEnd(text, quote, cursor) == G.MultiEnd(text, quote, pos + 3)
        decreases |text| - cursor
      {
        if quote == '"' && text[cursor] == '\\' {
          cursor := cursor + 2;
        } else if G.Triple(text, quote, cursor) {
          var end := SkipExtraQuotes(cursor + 3, quote);
          return Some(end);
        } else {
          cursor := cursor + 1;
        }
      }
      return None;
    }

    method ScanKey(start: nat) returns (r: Option<nat>)
      requires start <= |text|
      ensures r == G.KeyEnd(text, start)
    {
      hide G.SkipWs, G.KeyPartEnd;
      var pos := start;
      while true
        invariant pos <= |text| && G.KeyEnd(text, pos) == G.KeyEnd(text, start)
        decreases |text| - pos
      {
        var p := SkipWs(pos);
        var part := ScanKeyPart(p);
        if part.None? { return None; }
        var after := SkipWs(part.value);
        if after < |text| && text[after] == '.' {
          pos := after + 1;
        } else {
          return part;
        }
      }
    }

    method ScanKeyPart(p: nat) returns (r: Option<nat>)
      requires p <= |text|
      ensures r == G.KeyPartEnd(text, p)
    {
      if p < |text| && text[p] == '"' {
        r := ScanBasicString(p);
      } else if p < |text| && text[p] == '\'' {
        r := G.LiteralEnd(text, p + 1);
      } else {
        var e := G.BareKeyEnd(text, p);
        r := if e == p then None else Some(e);
      }
    }

    method ScanValue(pos: nat) returns (r: G.Scan)
      requires pos <= |text|
      ensures r == G.ScanValue(text, pos)
      decreases |text| - pos, 0
    {
      hide G.ArrayFrom, G.InlineFrom;
      if pos == |text| { return G.Bad; }
      if G.Triple(text, '"', pos) {
        var e := ScanMultilineString(pos, '"');
        return G.OfOption(e, true);
      }
      if G.Triple(text, '\'', pos) {
        var e := ScanMultilineString(pos, '\'');
        return G.OfOption(e, true);
      }
      if text[pos] == '"' {
        var e := ScanBasicString(pos);
        return G.OfOption(e, false);
      }
      if text[pos] == '\'' { return G.OfOption(G.LiteralEnd(text, pos + 1), false); }
      if text[pos] == '[' {
        r := ScanArray(pos);
      } else if text[pos] == '{' {
        r := ScanInlineTable(pos);
      } else {
        r := G.OfOption(G.BareValueEnd(text, pos), false);
      }
    }

    /** What follows a value inside brackets. */
    method AfterItem(value: G.Scan, close: char) returns (turn: G.Turn)
      requires value.Good? && value.end <= |text| && close != '\n'
      ensures turn == G.AfterItem(text, value, close)
    {
      hide G.SkipTrivia;
      var c := SkipTrivia(value.end);
      if c < |text| && text[c] == ',' { return G.Next(c + 1, value.multiline); }
      if c < |text| && text[c] == close { return G.Closed(c + 1, value.multiline); }
      return G.Broken;
    }

    method ScanArray(pos: nat) returns (r: G.Scan)
      requires pos < |text|
      ensures r == G.ArrayFrom(text, pos + 1, false)
      decreases |text| - pos - 1, 1
    {
      hide G.ScanValue, G.SkipTrivia, G.AfterItem;
      var multiline, cursor := false, pos + 1;
      while true
        invariant pos < cursor <= |text|
        invariant G.ArrayFrom(text, cursor, multiline) == G.ArrayFrom(text, pos + 1, false)
        decreases |text| - cursor
      {
        var start := SkipTrivia(cursor);
        if start == |text| { return G.Bad; }
        if text[start] == ']' { return G.Good(start + 1, multiline); }
        var value := ScanValue(start);
        if value.Bad? { return G.Bad; }
        var turn := AfterItem(value, ']');
        if turn.Broken? { return G.Bad; }
        multiline := multiline || turn.inner;
        if turn.Closed? { return G.Good(turn.at, multiline); }
        cursor := turn.at;
      }
    }

    method ScanInlineTable(pos: nat) returns (r: G.Scan)
      requires pos < |text|
      ensures var c := G.SkipTrivia(text, pos + 1);
        r == if c < |text| && text[c] == '}' then G.Good(c + 1, false) else G.InlineFrom(text, c, false)
      decreases |text| - pos - 1, 2
    {
      hide G.InlineTurn, G.SkipTrivia;
      var start := SkipTrivia(pos + 1);
      if start < |text| && text[start] == '}' { return G.Good(start + 1, false); }
      var multiline, cursor := false, start;
      while true
        invariant start <= cursor <= |text|
        invariant G.InlineFrom(text, cursor, multiline) == G.InlineFrom(text, start, false)
        decreases |text| - cursor
      {
        var turn := InlineTurn(cursor);
        if turn.Broken? { return G.Bad; }
        multiline := multiline || turn.inner;
        if turn.Closed? { return G.Good(turn.at, multiline); }
        cursor := turn.at;
      }
    }

    method InlineTurn(cursor: nat) returns (turn: G.Turn)
      requires cursor <= |text|
      ensures turn == G.InlineTurn(text, cursor)
      decreases |text| - cursor, 1
    {
      hide G.ScanValue, G.KeyEnd, G.SkipTrivia, G.SkipWs, G.AfterItem;
      var keyStart := SkipTrivia(cursor);
      var key := ScanKey(keyStart);
      if key.None? { return G.Broken; }
      var c := SkipWs(key.value);
      if c == |text| || text[c] != '=' { return G.Broken; }
      var valueStart := SkipWs(c + 1);
      var value := ScanValue(valueStart);
      if value.Bad? { return G.Broken; }
      turn := AfterItem(value, '}');
    }

    method ArrayShape(pos: nat) returns (r: Shape)
      requires pos < |text|
      ensures r == ShapeAt(text, pos)
    {
      hide G.ScanValue, G.SkipTrivia;
      if text[pos] != '[' { return NoShape; }
      var items, trailing, cursor := [], false, pos + 1;
      while true
        invariant pos < cursor <= |text|
        invariant ShapeFrom(text, pos, cursor, items, trailing) == ShapeFrom(text, pos, pos + 1, [], false)
        decreases |text| - cursor
      {
        var start := SkipTrivia(cursor);
        if start == |text| { return NoShape; }
        if text[start] == ']' { return Shape(pos, start, items, trailing, '\n' in text[pos..start]); }
        var value := ScanValue(start);
        if value.Bad? { return NoShape; }
        items := items + [(start, value.end)];
        cursor := SkipTrivia(value.end);
        if cursor < |text| && text[cursor] == ',' {
          trailing := true;
          cursor := cursor + 1;
        } else {
          trailing := false;
          var next := SkipTrivia(cursor);
          if next == |text| || text[next] != ']' { return NoShape; }
        }
      }
    }

    /** The statement loop: `None` exactly when the specification raises, else all statements. */
    method Statements() returns (r: Option<seq<G.Statement>>)
      ensures r == G.Statements(text, 0)
    {
      hide G.ScanStatement, G.Statements, After;
      var result: seq<G.Statement>, pos := [], 0;
      TurnMoves(text, 0, []);
      while pos < |text|
        invariant pos <= |text|
        invariant G.Statements(text, 0) == After(result, G.Statements(text, pos))
      {
        TurnMoves(text, pos, result);
        var turn := StatementTurn(pos);
        if turn.None? { return None; }
        result := result + [turn.value];
        pos := turn.value.end;
      }
      TurnMoves(text, pos, result);
      return Some(result);
    }

    method StatementTurn(pos: nat) returns (r: Option<G.Statement>)
      requires pos < |text|
      ensures r == G.ScanStatement(text, pos)
    {
      hide G.SkipWs, G.ScanHeader, G.ScanKeyLine;
      var cursor := SkipWs(pos);
      if G.IsTrivial(text, cursor) {
        r := Some(G.ScanTrivial(text, pos, cursor));
      } else if text[cursor] == '[' {
        r := ScanHeader(pos, cursor);
      } else {
        r := ScanKeyLine(pos, cursor);
      }
    }

    method ScanHeader(pos: nat, cursor: nat) returns (r: Option<G.Statement>)
      requires pos <= cursor < |text| && text[cursor] == '['
      ensures r == G.ScanHeader(text, pos, cursor)
    {
      hide G.KeyEnd, G.SkipWs, G.ParseKeyText, G.FinishLine;
      var double := cursor + 1 < |text| && text[cursor + 1] == '[';
      var width := if double then 2 else 1;
      var nameEnd := ScanKey(cursor + width);
      if nameEnd.None? { return None; }
      var name := G.ParseKeyText(text[cursor + width..nameEnd.value]);
      var c := SkipWs(nameEnd.value);
      if name.None? || c + width > |text| || text[c] != ']' || text[c + width - 1] != ']' { return None; }
      var end := G.FinishLine(text, c + width);
      if end.None? { return None; }
      return Some(G.Statement(if double then G.ArrayTable else G.Table, pos, end.value, name.value, -1, -1, false));
    }

    method ScanKeyLine(pos: nat, cursor: nat) returns (r: Option<G.Statement>)
      requires pos <= cursor < |text|
      ensures r == G.ScanKeyLine(text, pos, cursor)
    {
      hide G.KeyEnd, G.SkipWs, G.ParseKeyText, G.FinishLine, G.ScanValue;
      var keyEnd := ScanKey(cursor);
      if keyEnd.None? { return None; }
      var name := G.ParseKeyText(text[cursor..keyEnd.value]);
      var c := SkipWs(keyEnd.value);
      if name.None? || c == |text| || text[c] != '=' { return None; }
      var valueStart := SkipWs(c + 1);
      var value := ScanValue(valueStart);
      if value.Bad? { return None; }
      var end := G.FinishLine(text, value.end);
      if end.None? { return None; }
      return Some(G.Statement(G.Key, pos, end.value, name.value, valueStart, value.end, value.multiline));
    }
  }
}
