/**
 `filters`: globs compiled to regular expressions. Expressions are terms with the usual
 language semantics; the meaning of a glob is a matcher over path segments that knows nothing
 of regular expressions. The two agree on paths without empty segments and line breaks.
 */
module Glob {
  import opened Texts

  // ------------------------------------------------------------------ regular expressions

  datatype Re =
    | Eps
    | Chr(c: char)
    | NotSlash            // [^/]
    | Dot                 // . without DOTALL
    | Cat(a: Re, b: Re)
    | Star(r: Re)
    | Opt(r: Re)

  /** `s` belongs to the language of `re`. */
  ghost predicate Matches(re: Re, s: string)
    decreases re, |s|
  {
    match re
    case Eps => s == ""
    case Chr(c) => s == [c]
    case NotSlash => |s| == 1 && s[0] != '/'
    case Dot => |s| == 1 && s[0] != '\n'
    case Cat(a, b) => exists k | 0 <= k <= |s| :: Matches(a, s[..k]) && Matches(b, s[k..])
    case Star(r) => s == "" || exists k | 0 < k <= |s| :: Matches(r, s[..k]) && Matches(re, s[k..])
    case Opt(r) => s == "" || Matches(r, s)
  }

  function Plus(r: Re): Re { Cat(r, Star(r)) }

  /** The concatenation of the pieces a compile step appended, in order. */
  function Join(pieces: seq<Re>): Re {
    if pieces == [] then Eps else Cat(pieces[0], Join(pieces[1..]))
  }

  ghost predicate Accepts(pieces: seq<Re>, s: string) { Matches(Join(pieces), s) }

  // ------------------------------------------------------------------ compiling

  /** The regular expression of one glob character outside a bracket class. */
  function CharRe(c: char): Re {
    if c == '*' then Star(NotSlash) else if c == '?' then NotSlash else Chr(c)
  }

  function SegmentRe(segment: string): seq<Re> {
    if segment == "" then [] else [CharRe(segment[0])] + SegmentRe(segment[1..])
  }

  const AnyPrefix := Opt(Cat(Star(Dot), Chr('/')))            // (?:.*/)?
  const AnyTail := Opt(Star(Dot))                             // (?:.*)?
  const AnySegments := Star(Unit)                             // (?:[^/]+/)*

  function SegmentsRe(segments: seq<string>): seq<Re>
  {
    if segments == [] then []
    else
      var last := |segments| == 1;
      SegmentPiece(segments[0], last) + SegmentsRe(segments[1..])
  }

  /** No bracket of the segment opens a class: none is closed after it. */
  predicate ClassFree(segment: string) {
    forall i, j | 0 <= i < j < |segment| :: segment[i] == '[' ==> segment[j] != ']'
  }

  /** No segment that is compiled holds a bracket class. */
  predicate NoClasses(pattern: string) {
    forall k | 0 <= k < |GlobSegments(pattern)| :: ClassFree(GlobSegments(pattern)[k])
  }

  function GlobSegments(pattern: string): seq<string> {
    var normalised := Normalised(pattern);
    if '/' !in normalised then [normalised] else Split(Trim(normalised, IsSlash))
  }

  /** `str.find` of a closing bracket from `i` on. */
  method FindClosing(segment: string, i: nat) returns (found: bool)
    requires i <= |segment|
    ensures found <==> exists j :: i <= j < |segment| && segment[j] == ']'
  {
    for j := i to |segment|
      invariant forall k | i <= k < j :: segment[k] != ']'
    {
      if segment[j] == ']' { return true; }
    }
    return false;
  }

  /** The loop of `_segment_regex`. */
  method SegmentRegex(segment: string) returns (out: seq<Re>)
    requires ClassFree(segment)
    ensures out == SegmentRe(segment)
  {
    hide SegmentRe;
    out := [];
    var index := 0;
    SegmentReTurn(out, segment, 0);
    while index < |segment|
      invariant 0 <= index <= |segment|
      invariant out + SegmentRe(segment[index..]) == SegmentRe(segment)
    {
      SegmentReTurn(out, segment, index);
      var c := segment[index];
      if c == '*' {
        out := out + [Star(NotSlash)];
      } else if c == '?' {
        out := out + [NotSlash];
      } else if c == '[' {
        var closed := FindClosing(segment, index + 1);
        assert !closed;                          // a class, which a segment free of them does not have
        out := out + [Chr(c)];
      } else {
        out := out + [Chr(c)];
      }
      index := index + 1;
    }
    SegmentReTurn(out, segment, index);
  }

  /** What one turn of that loop moves from the rest of the segment to the result. */
  lemma SegmentReTurn(out: seq<Re>, segment: string, index: nat)
    requires index <= |segment|
    ensures index == 0 ==> [] + SegmentRe(segment[index..]) == SegmentRe(segment)
    ensures index == |segment| ==> out + SegmentRe(segment[index..]) == out
    ensures index < |segment| ==>
      out + SegmentRe(segment[index..]) == out + [CharRe(segment[index])] + SegmentRe(segment[index + 1..])
  {
    if index < |segment| { assert segment[index..][1..] == segment[index + 1..]; }
    if index == 0 { assert segment[0..] == segment; }
  }

  // ------------------------------------------------------------------ splitting text

  /** `str.split` on `/`: one segment more than there are slashes. */
  function Split(s: string): (r: seq<string>)
    ensures |r| >= 1
    ensures forall k | 0 <= k < |r| :: '/' !in r[k]
  {
    if s == "" then [""]
    else if s[0] == '/' then [""] + Split(s[1..])
    else
      var rest := Split(s[1..]);
      [[s[0]] + rest[0]] + rest[1..]
  }

  predicate IsSlash(c: char) { c == '/' }

  function Normalised(pattern: string): string { Trim(Slashes(pattern), IsSpace) }

  function CompiledRe(pattern: string): seq<Re> {
    var normalised := Normalised(pattern);
    if '/' !in normalised then [AnyPrefix] + SegmentRe(normalised)
    else SegmentsRe(Split(Trim(normalised, IsSlash)))
  }

  /** `_compile`: the loop over the segments of a pattern. */
  method Compile(pattern: string) returns (out: seq<Re>)
    requires NoClasses(pattern)
    ensures out == CompiledRe(pattern)
  {
    var normalised := Normalised(pattern);
    if '/' !in normalised {
      assert GlobSegments(pattern)[0] == normalised;
      var tail := SegmentRegex(normalised);
      return [AnyPrefix] + tail;
    }
    var segments := Split(Trim(normalised, IsSlash));
    assert segments == GlobSegments(pattern);
    out := CompileSegments(segments);
  }

  method CompileSegments(segments: seq<string>) returns (out: seq<Re>)
    requires forall k | 0 <= k < |segments| :: ClassFree(segments[k])
    ensures out == SegmentsRe(segments)
  {
    hide SegmentRe, SegmentsRe;
    out := [];
    SegmentsReTurn(out, segments, 0);
    for index := 0 to |segments|
      invariant out + SegmentsRe(segments[index..]) == SegmentsRe(segments)
    {
      SegmentsReTurn(out, segments, index);
      var last := index == |segments| - 1;
      if segments[index] == "**" {
        out := out + [if last then AnyTail else AnySegments];
      } else {
        var piece := SegmentRegex(segments[index]);
        out := out + (piece + if last then [] else [Chr('/')]);
      }
    }
    SegmentsReTurn(out, segments, |segments|);
  }

  function SegmentPiece(segment: string, last: bool): seq<Re> {
    if segment == "**" then [if last then AnyTail else AnySegments]
    else SegmentRe(segment) + (if last then [] else [Chr('/')])
  }

  lemma SegmentsReTurn(out: seq<Re>, segments: seq<string>, index: nat)
    requires index <= |segments|
    ensures index == 0 ==> [] + SegmentsRe(segments[index..]) == SegmentsRe(segments)
    ensures index == |segments| ==> out + SegmentsRe(segments[index..]) == out
    ensures index < |segments| ==>
      out + SegmentsRe(segments[index..])
      == out + SegmentPiece(segments[index], index == |segments| - 1) + SegmentsRe(segments[index + 1..])
  {
    hide SegmentRe;
    if index < |segments| { assert segments[index..][1..] == segments[index + 1..]; }
    if index == 0 { assert segments[0..] == segments; }
  }

  // ------------------------------------------------------------------ the meaning of a glob

  /** A name inside one segment: `*` any run, `?` one character. */
  predicate SegmentMatches(glob: string, name: string)
    decreases |glob|, |name|
  {
    if glob == "" then name == ""
    else if glob[0] == '*' then
      SegmentMatches(glob[1..], name) || (name != "" && SegmentMatches(glob, name[1..]))
    else name != "" && (glob[0] == '?' || glob[0] == name[0]) && SegmentMatches(glob[1..], name[1..])
  }

  /** Segments of a path: an inner `**` takes zero or more, a trailing one takes one or more. */
  predicate PathMatches(globs: seq<string>, path: seq<string>)
    decreases |globs|, |path|
  {
    if globs == [] then path == []
    else if globs[0] == "**" then
      if |globs| == 1 then path != []
      else PathMatches(globs[1..], path) || (path != [] && PathMatches(globs, path[1..]))
    else path != [] && SegmentMatches(globs[0], path[0]) && PathMatches(globs[1..], path[1..])
  }

  /** A pattern without a slash tests the last segment; any other pattern the whole path. */
  predicate GlobMatches(pattern: string, path: seq<string>)
    requires path != []
  {
    var normalised := Normalised(pattern);
    if '/' !in normalised then SegmentMatches(normalised, path[|path| - 1])
    else PathMatches(Split(Trim(normalised, IsSlash)), path)
  }

  function Unsplit(path: seq<string>): string {
    if path == [] then "" else if |path| == 1 then path[0] else path[0] + "/" + Unsplit(path[1..])
  }

  /** A non-empty path of non-empty segments. */
  predicate ProperPath(path: seq<string>) {
    path != [] && forall k | 0 <= k < |path| :: path[k] != "" && '/' !in path[k] && '\n' !in path[k]
  }

  // ------------------------------------------------------------------ agreement inside one segment

  lemma Unfold(piece: Re, rest: seq<Re>, s: string)
    ensures Accepts([piece] + rest, s) <==> exists k | 0 <= k <= |s| :: Matches(piece, s[..k]) && Accepts(rest, s[k..])
  {
    assert ([piece] + rest)[1..] == rest;
  }

  lemma {:induction false} StarNotSlash(s: string)
    ensures Matches(Star(NotSlash), s) <==> '/' !in s
    decreases |s|
  {
    if s != "" {
      forall k | 0 < k <= |s|
        ensures Matches(NotSlash, s[..k]) && Matches(Star(NotSlash), s[k..]) <==> k == 1 && '/' !in s
      {
        if k == 1 {
          StarNotSlash(s[1..]);
          assert s == [s[0]] + s[1..];
        }
      }
    }
  }

  lemma {:induction false} StarDot(s: string)
    ensures Matches(Star(Dot), s) <==> '\n' !in s
    decreases |s|
  {
    if s != "" {
      forall k | 0 < k <= |s|
        ensures Matches(Dot, s[..k]) && Matches(Star(Dot), s[k..]) <==> k == 1 && '\n' !in s
      {
        if k == 1 {
          StarDot(s[1..]);
          assert s == [s[0]] + s[1..];
        }
      }
    }
  }

  /** `*` may take the first `k` characters. */
  lemma {:induction false} StarTakes(glob: string, name: string, k: nat)
    requires glob != "" && glob[0] == '*' && k <= |name| && SegmentMatches(glob[1..], name[k..])
    ensures SegmentMatches(glob, name)
    decreases k
  {
    if k > 0 {
      assert name[1..][k - 1..] == name[k..];
      StarTakes(glob, name[1..], k - 1);
    } else {
      assert name[0..] == name;
    }
  }

  lemma {:induction false} StarGives(glob: string, name: string) returns (k: nat)
    requires glob != "" && glob[0] == '*' && SegmentMatches(glob, name)
    ensures k <= |name| && SegmentMatches(glob[1..], name[k..])
    decreases |name|
  {
    if SegmentMatches(glob[1..], name) {
      assert name[0..] == name;
      k := 0;
    } else {
      var j := StarGives(glob, name[1..]);
      assert name[1..][j..] == name[j + 1..];
      k := j + 1;
    }
  }

  /** A prefix of `s` without slashes matches `glob`, and the rest of `s` is accepted by `rest`. */
  ghost predicate SegmentThen(glob: string, rest: seq<Re>, s: string, k: nat) {
    k <= |s| && '/' !in s[..k] && SegmentMatches(glob, s[..k]) && Accepts(rest, s[k..])
  }

  /** One glob character takes `i` characters and the rest of the glob the `j` after them. */
  lemma CharTakes(glob: string, s: string, i: nat, j: nat)
    requires glob != "" && '/' !in glob && i + j <= |s|
    requires Matches(CharRe(glob[0]), s[..i]) && '/' !in s[i..][..j] && SegmentMatches(glob[1..], s[i..][..j])
    ensures '/' !in s[..i + j] && SegmentMatches(glob, s[..i + j])
  {
    hide Matches, SegmentMatches;
    assert s[..i + j] == s[..i] + s[i..][..j];
    PiecesTake(glob, s[..i], s[i..][..j]);
  }

  lemma PiecesTake(glob: string, a: string, b: string)
    requires glob != "" && '/' !in glob && Matches(CharRe(glob[0]), a) && '/' !in b && SegmentMatches(glob[1..], b)
    ensures '/' !in a + b && SegmentMatches(glob, a + b)
  {
    hide Matches;
    if glob[0] == '*' {
      hide SegmentMatches;
      StarNotSlash(a);
      assert (a + b)[|a|..] == b;
      StarTakes(glob, a + b, |a|);
    } else {
      OneChar(glob[0], a);
      assert (a + b)[0] == a[0] && (a + b)[1..] == b;
    }
  }

  /** What any other glob character takes. */
  lemma OneChar(c: char, a: string)
    requires c != '*' && c != '/'
    ensures Matches(CharRe(c), a) <==> |a| == 1 && a[0] != '/' && (c == '?' || a[0] == c)
  {
  }

  /** Conversely, the first glob character of a match takes some prefix. */
  lemma CharGives(glob: string, s: string, k: nat) returns (i: nat)
    requires glob != "" && '/' !in glob && k <= |s| && '/' !in s[..k] && SegmentMatches(glob, s[..k])
    ensures i <= k && Matches(CharRe(glob[0]), s[..i]) && SegmentMatches(glob[1..], s[i..][..k - i])
    ensures '/' !in s[i..][..k - i]
  {
    i := 1;
    if glob[0] == '*' {
      i := StarGives(glob, s[..k]);
      assert s[..i] == s[..k][..i];
      StarNotSlash(s[..i]);
    } else {
      assert s[..1] == [s[0]] && s[..k][0] == s[0];
    }
    assert s[i..][..k - i] == s[..k][i..];
  }

  lemma SegmentReStep(glob: string, rest: seq<Re>)
    requires glob != ""
    ensures SegmentRe(glob) + rest == [CharRe(glob[0])] + (SegmentRe(glob[1..]) + rest)
  {
  }

  lemma NoSegment(rest: seq<Re>, s: string)
    ensures SegmentRe("") + rest == rest && s[0..] == s && s[..0] == ""
  {
  }

  lemma {:induction false} SegmentSound(glob: string, rest: seq<Re>, s: string) returns (k: nat)
    requires '/' !in glob && Accepts(SegmentRe(glob) + rest, s)
    ensures SegmentThen(glob, rest, s, k)
    decreases |glob|
  {
    hide Accepts, SegmentMatches, SegmentRe;
    if glob == "" {
      NoSegment(rest, s);
      EmptyGlob(s);
      k := 0;
    } else {
      var tail := SegmentRe(glob[1..]) + rest;
      SegmentReStep(glob, rest);
      Unfold(CharRe(glob[0]), tail, s);
      var i :| 0 <= i <= |s| && Matches(CharRe(glob[0]), s[..i]) && Accepts(tail, s[i..]);
      var j := SegmentSound(glob[1..], rest, s[i..]);
      k := i + j;
      CharTakes(glob, s, i, j);
      assert s[i..][j..] == s[k..];
    }
  }

  lemma EmptyGlob(s: string)
    ensures SegmentMatches("", s[..0]) && '/' !in s[..0]
  {
  }

  lemma {:induction false} SegmentComplete(glob: string, rest: seq<Re>, s: string, k: nat)
    requires '/' !in glob && SegmentThen(glob, rest, s, k)
    ensures Accepts(SegmentRe(glob) + rest, s)
    decreases |glob|
  {
    hide Accepts, SegmentRe;
    if glob == "" {
      NoSegment(rest, s);
      assert k == 0;
    } else {
      hide SegmentMatches;
      var tail := SegmentRe(glob[1..]) + rest;
      SegmentReStep(glob, rest);
      var i := CharGives(glob, s, k);
      assert s[i..][k - i..] == s[k..];
      SegmentComplete(glob[1..], rest, s[i..], k - i);
      Unfold(CharRe(glob[0]), tail, s);
    }
  }

  // ------------------------------------------------------------------ agreement over segments

  lemma SlashFreePrefix(s: string, k: nat)
    requires k <= |s| && '/' !in s[..k]
    ensures forall n | 0 <= n < k :: s[n] != '/'
  {
    assert forall n | 0 <= n < k :: s[n] == s[..k][n];
  }

  lemma SlashFreeSuffix(s: string, k: nat)
    requires k <= |s| && '/' !in s[k..]
    ensures forall n | k <= n < |s| :: s[n] != '/'
  {
    assert forall n | k <= n < |s| :: s[n] == s[k..][n - k];
  }

  lemma CatIs(a: Re, b: Re, s: string, k: nat)
    requires k <= |s| && Matches(a, s[..k]) && Matches(b, s[k..])
    ensures Matches(Cat(a, b), s)
  {
  }

  /** The text of a proper path up to and past its first slash. */
  lemma FirstSegment(path: seq<string>, k: nat)
    requires ProperPath(path) && k <= |Unsplit(path)| && '/' !in Unsplit(path)[..k]
    ensures k < |Unsplit(path)| && Unsplit(path)[k] == '/' ==>
      k == |path[0]| && |path| > 1 && Unsplit(path)[..k] == path[0] && Unsplit(path)[k + 1..] == Unsplit(path[1..])
    ensures k == |Unsplit(path)| ==> |path| == 1 && Unsplit(path) == path[0]
  {
    var s := Unsplit(path);
    if |path| > 1 {
      assert s == path[0] + "/" + Unsplit(path[1..]);
      var n := |path[0]|;
      assert s[n] == '/';
      SlashFreePrefix(s, k);
      assert k < n ==> s[k] == path[0][k];
      assert s[..n] == path[0] && s[n + 1..] == Unsplit(path[1..]);
    }
  }

  lemma UnsplitFirst(path: seq<string>)
    requires ProperPath(path) && |path| > 1
    ensures var s, n := Unsplit(path), |path[0]|;
      && ProperPath(path[1..]) && n < |s| && s[..n] == path[0] && s[n] == '/' && s[n + 1..] == Unsplit(path[1..])
      && '/' !in s[..n] && s[..n + 1] == path[0] + "/" && n >= 1
  {
  }

  lemma {:induction false} UnsplitClean(path: seq<string>)
    requires ProperPath(path)
    ensures '\n' !in Unsplit(path) && Unsplit(path) != "" && Unsplit(path)[|Unsplit(path)| - 1] != '/'
    decreases |path|
  {
    if |path| > 1 {
      UnsplitClean(path[1..]);
      UnsplitFirst(path);
      assert Unsplit(path) == path[0] + "/" + Unsplit(path[1..]);
    }
  }

  const Unit := Cat(Plus(NotSlash), Chr('/'))

  /** One turn of the inner `**`: a non-empty segment and its slash. */
  lemma UnitIs(u: string)
    ensures Matches(Unit, u) <==> |u| >= 2 && u[|u| - 1] == '/' && '/' !in u[..|u| - 1]
  {
    if Matches(Unit, u) {
      var k :| 0 <= k <= |u| && Matches(Plus(NotSlash), u[..k]) && Matches(Chr('/'), u[k..]);
      PlusIs(u[..k]);
      assert u[k..] == ['/'];
      assert k == |u| - 1 && u[k] == u[k..][0] && u[..k] != "";
    }
    if |u| >= 2 && u[|u| - 1] == '/' && '/' !in u[..|u| - 1] {
      var k := |u| - 1;
      PlusIs(u[..k]);
      assert u[k..] == ['/'];
      CatIs(Plus(NotSlash), Chr('/'), u, k);
      assert Matches(Unit, u);
    }
  }

  lemma PlusIs(u: string)
    ensures Matches(Plus(NotSlash), u) <==> u != "" && '/' !in u
  {
    if Matches(Plus(NotSlash), u) {
      var k :| 0 <= k <= |u| && Matches(NotSlash, u[..k]) && Matches(Star(NotSlash), u[k..]);
      StarNotSlash(u[k..]);
      assert u == [u[0]] + u[1..];
    }
    if u != "" && '/' !in u {
      StarNotSlash(u[1..]);
      assert u[..1] == [u[0]];
      CatIs(NotSlash, Star(NotSlash), u, 1);
    }
  }

  lemma AnySegmentsSound(rest: seq<Re>, path: seq<string>)
    requires ProperPath(path) && Accepts([AnySegments] + rest, Unsplit(path))
    ensures Accepts(rest, Unsplit(path)) || (|path| > 1 && Accepts([AnySegments] + rest, Unsplit(path[1..])))
  {
    hide Accepts, Unsplit, ProperPath;
    var s := Unsplit(path);
    Unfold(AnySegments, rest, s);
    var k :| 0 <= k <= |s| && Matches(AnySegments, s[..k]) && Accepts(rest, s[k..]);
    if k == 0 {
      assert s[0..] == s;
    } else {
      var j := StarSplits(s[..k]);
      UnitEnds(path, k, j);
      var s2 := Unsplit(path[1..]);
      assert s2[..k - j] == s[..k][j..] && s2[k - j..] == s[k..];
      Unfold(AnySegments, rest, s2);
    }
  }

  lemma StarSplits(s: string) returns (j: nat)
    requires s != "" && Matches(AnySegments, s)
    ensures 0 < j <= |s| && Matches(Unit, s[..j]) && Matches(AnySegments, s[j..])
  {
    j :| 0 < j <= |s| && Matches(Unit, s[..j]) && Matches(AnySegments, s[j..]);
  }

  lemma UnitEnds(path: seq<string>, k: nat, j: nat)
    requires ProperPath(path) && j <= k <= |Unsplit(path)| && Matches(Unit, Unsplit(path)[..k][..j])
    ensures |path| > 1 && Unsplit(path)[j..] == Unsplit(path[1..])
  {
    var s := Unsplit(path);
    assert s[..k][..j] == s[..j];
    UnitIs(s[..j]);
    assert s[..j][..j - 1] == s[..j - 1] && s[j - 1] == s[..j][j - 1];
    FirstSegment(path, j - 1);
  }

  lemma AnySegmentsComplete(rest: seq<Re>, path: seq<string>)
    requires ProperPath(path)
    requires Accepts(rest, Unsplit(path)) || (|path| > 1 && Accepts([AnySegments] + rest, Unsplit(path[1..])))
    ensures Accepts([AnySegments] + rest, Unsplit(path))
  {
    hide Accepts, ProperPath, Unsplit;
    var s := Unsplit(path);
    Unfold(AnySegments, rest, s);
    if Accepts(rest, s) {
      assert s[..0] == "" && s[0..] == s;
      assert Matches(AnySegments, s[..0]);
    } else {
      UnsplitFirst(path);
      var s2 := Unsplit(path[1..]);
      var n := |path[0]| + 1;
      Unfold(AnySegments, rest, s2);
      var k :| 0 <= k <= |s2| && Matches(AnySegments, s2[..k]) && Accepts(rest, s2[k..]);
      OneMoreSegment(s, n, s2, k);
    }
  }

  lemma OneMoreSegment(s: string, n: nat, s2: string, k: nat)
    requires 2 <= n <= |s| && s[n..] == s2 && k <= |s2| && '/' !in s[..n - 1] && s[n - 1] == '/'
    requires Matches(AnySegments, s2[..k])
    ensures n + k <= |s| && Matches(AnySegments, s[..n + k]) && s[n + k..] == s2[k..]
  {
    hide Matches;
    var u := s[..n + k];
    assert u[..n] == s[..n] && u[n..] == s2[..k] && s[n + k..] == s2[k..];
    assert s[..n][..n - 1] == s[..n - 1] && s[..n][n - 1] == s[n - 1];
    UnitIs(s[..n]);
    StarIs(Unit, u, n);
  }

  lemma StarIs(r: Re, s: string, k: nat)
    requires 0 < k <= |s| && Matches(r, s[..k]) && Matches(Star(r), s[k..])
    ensures Matches(Star(r), s)
  {
  }

  lemma AnyTailTakesAll(path: seq<string>)
    requires ProperPath(path)
    ensures Accepts([AnyTail], Unsplit(path))
  {
    var s := Unsplit(path);
    UnsplitClean(path);
    StarDot(s);
    Unfold(AnyTail, [], s);
    assert s[..|s|] == s && s[|s|..] == "";
    assert [AnyTail] + [] == [AnyTail];
  }

  predicate Globs(globs: seq<string>) { globs != [] && forall k | 0 <= k < |globs| :: '/' !in globs[k] }

  /** A segment that is not `**`, at the head of a pattern. */
  lemma PlainSegment(glob: string, rest: seq<Re>, last: bool, path: seq<string>)
    requires ProperPath(path) && '/' !in glob && (last ==> rest == [])
    ensures Accepts(SegmentRe(glob) + ((if last then [] else [Chr('/')]) + rest), Unsplit(path)) <==>
      && SegmentMatches(glob, path[0])
      && if last then |path| == 1 else |path| > 1 && Accepts(rest, Unsplit(path[1..]))
  {
    var s := Unsplit(path);
    var tail := (if last then [] else [Chr('/')]) + rest;
    if Accepts(SegmentRe(glob) + tail, s) {
      var k := SegmentSound(glob, tail, s);
      if last {
        FirstSegment(path, k);
        assert s[..k] == s;
      } else {
        Unfold(Chr('/'), rest, s[k..]);
        var j :| 0 <= j <= |s[k..]| && Matches(Chr('/'), s[k..][..j]) && Accepts(rest, s[k..][j..]);
        assert j == 1 && s[k] == s[k..][..1][0] == '/' && s[k..][1..] == s[k + 1..];
        FirstSegment(path, k);
      }
    }
    if SegmentMatches(glob, path[0]) {
      if last && |path| == 1 {
        assert s[..|s|] == s && s[|s|..] == "";
        SegmentComplete(glob, tail, s, |s|);
      } else if !last && |path| > 1 && Accepts(rest, Unsplit(path[1..])) {
        UnsplitFirst(path);
        var n := |path[0]|;
        Unfold(Chr('/'), rest, s[n..]);
        assert s[n..][..1] == ['/'] && s[n..][1..] == s[n + 1..];
        SegmentComplete(glob, tail, s, n);
      }
    }
  }

  lemma PathNeedsSegments(globs: seq<string>)
    requires globs != []
    ensures !PathMatches(globs, [])
    decreases |globs|
  {
    if |globs| > 1 && globs[0] == "**" { PathNeedsSegments(globs[1..]); }
  }

  lemma {:induction false} SegmentsAgree(globs: seq<string>, path: seq<string>)
    requires Globs(globs) && ProperPath(path)
    ensures Accepts(SegmentsRe(globs), Unsplit(path)) <==> PathMatches(globs, path)
    decreases |globs|, |path|
  {
    hide Accepts, Unsplit, SegmentRe, SegmentMatches;
    var last := |globs| == 1;
    var rest := SegmentsRe(globs[1..]);
    if globs[0] == "**" && last {
      assert SegmentsRe(globs) == [AnyTail];
      AnyTailTakesAll(path);
    } else if globs[0] == "**" {
      assert SegmentsRe(globs) == [AnySegments] + rest;
      SegmentsAgree(globs[1..], path);
      if |path| > 1 { SegmentsAgree(globs, path[1..]); } else { PathNeedsSegments(globs); }
      if Accepts(SegmentsRe(globs), Unsplit(path)) { AnySegmentsSound(rest, path); }
      if PathMatches(globs, path) { AnySegmentsComplete(rest, path); }
    } else {
      PlainStep(globs);
      PlainSegment(globs[0], rest, last, path);
      if !last {
        if |path| > 1 { SegmentsAgree(globs[1..], path[1..]); } else { PathNeedsSegments(globs[1..]); }
      }
    }
  }

  lemma PlainStep(globs: seq<string>)
    requires globs != [] && globs[0] != "**"
    ensures SegmentsRe(globs)
         == SegmentRe(globs[0]) + ((if |globs| == 1 then [] else [Chr('/')]) + SegmentsRe(globs[1..]))
  {
    hide SegmentRe;
  }

  // ------------------------------------------------------------------ patterns without a slash

  lemma PrefixIs(u: string)
    requires '\n' !in u
    ensures Matches(AnyPrefix, u) <==> u == "" || u[|u| - 1] == '/'
  {
    hide Matches;
    OptIs(Cat(Star(Dot), Chr('/')), u);
    if u != "" && u[|u| - 1] == '/' {
      var front := u[..|u| - 1];
      StarDot(front);
      assert u[|u| - 1..] == ['/'];
      ChrIs('/', u[|u| - 1..]);
      CatIs(Star(Dot), Chr('/'), u, |u| - 1);
    } else {
      NoSlashAtEnd(u);
    }
  }

  lemma OptIs(re: Re, s: string)
    ensures Matches(Opt(re), s) <==> s == "" || Matches(re, s)
  {
  }

  lemma ChrIs(c: char, s: string)
    ensures Matches(Chr(c), s) <==> s == [c]
  {
  }

  lemma NoSlashAtEnd(u: string)
    requires u == "" || u[|u| - 1] != '/'
    ensures !Matches(Cat(Star(Dot), Chr('/')), u)
  {
    if Matches(Cat(Star(Dot), Chr('/')), u) {
      var k := CatSplits(Star(Dot), Chr('/'), u);
      hide Matches;
      ChrIs('/', u[k..]);
    }
  }

  lemma CatSplits(a: Re, b: Re, s: string) returns (k: nat)
    requires Matches(Cat(a, b), s)
    ensures k <= |s| && Matches(a, s[..k]) && Matches(b, s[k..])
  {
    k :| 0 <= k <= |s| && Matches(a, s[..k]) && Matches(b, s[k..]);
  }

  lemma {:induction false} LastSegment(path: seq<string>, k: nat)
    requires ProperPath(path) && k <= |Unsplit(path)|
    ensures (k == 0 || Unsplit(path)[k - 1] == '/') && '/' !in Unsplit(path)[k..] ==> Unsplit(path)[k..] == path[|path| - 1]
    decreases |path|
  {
    var s := Unsplit(path);
    if (k == 0 || s[k - 1] == '/') && '/' !in s[k..] {
      if |path| > 1 {
        UnsplitFirst(path);
        var n := |path[0]|;
        SlashFreeSuffix(s, k);
        if k > n {
          var s2 := Unsplit(path[1..]);
          assert s2[k - n - 1..] == s[k..];
          assert k > n + 1 ==> s2[k - n - 2] == s[k - 1];
          LastSegment(path[1..], k - n - 1);
        }
      } else {
        assert s == path[0] && s[0..] == s;
      }
    }
  }

  /** The text is `last`, or ends in it after a slash. */
  predicate LastIn(s: string, last: string) {
    && |last| <= |s| && s[|s| - |last|..] == last
    && (|last| == |s| || s[|s| - |last| - 1] == '/')
  }

  lemma {:induction false} LastSegmentAt(path: seq<string>)
    requires ProperPath(path)
    ensures path != [] && LastIn(Unsplit(path), path[|path| - 1])
    decreases |path|
  {
    hide *;
    if |path| > 1 {
      UnsplitFirst(path);
      LastSegmentAt(path[1..]);
      assert path[1..][|path[1..]| - 1] == path[|path| - 1];
      TailMoves(Unsplit(path), |path[0]|, Unsplit(path[1..]), path[|path| - 1]);
    } else {
      OnlySegment(path);
    }
  }

  lemma OnlySegment(path: seq<string>)
    requires ProperPath(path) && |path| <= 1
    ensures |path| == 1 && LastIn(Unsplit(path), path[0])
  {
    assert path[0][0..] == path[0];
  }

  /** The last segment of what follows a slash is that of the whole. */
  lemma TailMoves(s: string, n: nat, rest: string, last: string)
    requires n < |s| && s[n] == '/' && s[n + 1..] == rest && LastIn(rest, last)
    ensures LastIn(s, last)
  {
    assert s[n + 1..][|rest| - |last|..] == s[|s| - |last|..];
    if |last| < |rest| { assert s[|s| - |last| - 1] == rest[|rest| - |last| - 1]; }
  }

  lemma NameSound(glob: string, path: seq<string>)
    requires ProperPath(path) && '/' !in glob && Accepts([AnyPrefix] + SegmentRe(glob), Unsplit(path))
    ensures SegmentMatches(glob, path[|path| - 1])
  {
    hide Accepts, Matches, SegmentRe, SegmentMatches, Unsplit;
    var s := Unsplit(path);
    UnsplitClean(path);
    Unfold(AnyPrefix, SegmentRe(glob), s);
    var k :| 0 <= k <= |s| && Matches(AnyPrefix, s[..k]) && Accepts(SegmentRe(glob), s[k..]);
    WholeSegment(glob, s[k..]);
    PrefixIs(s[..k]);
    LastSegment(path, k);
  }

  /** A segment expression alone accepts what the segment matches, slashes apart. */
  lemma WholeSegment(glob: string, s: string)
    requires '/' !in glob
    ensures Accepts(SegmentRe(glob), s) <==> '/' !in s && SegmentMatches(glob, s)
  {
    hide SegmentRe, SegmentMatches;
    assert SegmentRe(glob) + [] == SegmentRe(glob) && s[..|s|] == s && s[|s|..] == "";
    if Accepts(SegmentRe(glob), s) {
      var k := SegmentSound(glob, [], s);
      assert s[..k] == s;
    }
    if '/' !in s && SegmentMatches(glob, s) { SegmentComplete(glob, [], s, |s|); }
  }

  lemma NameComplete(glob: string, path: seq<string>)
    requires ProperPath(path) && '/' !in glob && SegmentMatches(glob, path[|path| - 1])
    ensures Accepts([AnyPrefix] + SegmentRe(glob), Unsplit(path))
  {
    hide Accepts, Matches, SegmentRe, SegmentMatches, Unsplit;
    var s := Unsplit(path);
    UnsplitClean(path);
    LastSegmentAt(path);
    var k := |s| - |path[|path| - 1]|;
    PrefixIs(s[..k]);
    WholeSegment(glob, s[k..]);
    Unfold(AnyPrefix, SegmentRe(glob), s);
  }

  // ------------------------------------------------------------------ the theorems

  /**
   Compilation preserves meaning: the expression `_compile` builds accepts a path exactly when
   the segment matcher does.
   */
  lemma CompileKeepsMeaning(pattern: string, path: seq<string>)
    requires NoClasses(pattern) && ProperPath(path)
    ensures Accepts(CompiledRe(pattern), Unsplit(path)) <==> GlobMatches(pattern, path)
  {
    var normalised := Normalised(pattern);
    if '/' !in normalised {
      if Accepts(CompiledRe(pattern), Unsplit(path)) { NameSound(normalised, path); }
      if GlobMatches(pattern, path) { NameComplete(normalised, path); }
    } else {
      SegmentsAgree(Split(Trim(normalised, IsSlash)), path);
    }
  }

  lemma {:induction false} UnsplitSplit(s: string)
    ensures Unsplit(Split(s)) == s
  {
    if s != "" {
      UnsplitSplit(s[1..]);
      var rest := Split(s[1..]);
      if s[0] == '/' {
        assert Split(s)[1..] == rest;
      } else {
        assert Split(s)[1..] == rest[1..];
        assert |rest| > 1 ==> Unsplit(rest) == rest[0] + "/" + Unsplit(rest[1..]);
      }
    }
  }

  /** `PathFilter.is_excluded` */
  ghost predicate IsExcluded(globs: seq<string>, relPath: string) {
    var path := TrimLeft(Slashes(relPath), IsSlash);
    exists pattern | pattern in globs :: pattern != "" && Accepts(CompiledRe(pattern), path)
  }

  /** A relative path is excluded exactly when some non-empty glob matches its segments. */
  lemma ExcludedMeansMatched(globs: seq<string>, relPath: string)
    requires (forall pattern | pattern in globs :: NoClasses(pattern)) && ProperPath(Split(TrimLeft(Slashes(relPath), IsSlash)))
    ensures IsExcluded(globs, relPath) <==>
      exists pattern | pattern in globs ::
        pattern != "" && GlobMatches(pattern, Split(TrimLeft(Slashes(relPath), IsSlash)))
  {
    var path := Split(TrimLeft(Slashes(relPath), IsSlash));
    UnsplitSplit(TrimLeft(Slashes(relPath), IsSlash));
    forall pattern | pattern in globs
      ensures Accepts(CompiledRe(pattern), Unsplit(path)) <==> GlobMatches(pattern, path)
    {
      CompileKeepsMeaning(pattern, path);
    }
  }

  // ------------------------------------------------------------------ the normal form of a pattern

  lemma {:induction false} SlashesIs(s: string)
    ensures |Slashes(s)| == |s| && forall k | 0 <= k < |s| :: Slashes(s)[k] == if s[k] == '\\' then '/' else s[k]
  {
    if s != "" { SlashesIs(s[1..]); }
  }

  lemma {:induction false} LeftTrimmed(s: string) returns (j: nat)
    ensures j <= |s| && TrimLeft(s, IsSpace) == s[j..] && (forall i | 0 <= i < j :: IsSpace(s[i])) && (j < |s| ==> !IsSpace(s[j]))
  {
    hide IsSpace;
    j := 0;
    if s != "" && IsSpace(s[0]) {
      var i := LeftTrimmed(s[1..]);
      j := i + 1;
      assert s[1..][i..] == s[j..];
      assert forall n | 1 <= n < j :: s[n] == s[1..][n - 1];
    }
  }

  lemma {:induction false} RightTrimmed(s: string) returns (k: nat)
    ensures k <= |s| && TrimRight(s, IsSpace) == s[..k] && (forall i | k <= i < |s| :: IsSpace(s[i])) && (k > 0 ==> !IsSpace(s[k - 1]))
    decreases |s|
  {
    hide IsSpace;
    k := |s|;
    if s != "" && IsSpace(s[|s| - 1]) {
      k := RightTrimmed(s[..|s| - 1]);
      assert s[..|s| - 1][..k] == s[..k];
    } else {
      assert s[..k] == s;
    }
  }

  /**
   A pattern means what stands between its outer blanks, with slashes for backslashes: nothing
   inside is lost or changed, and no blank is left at either end.
   */
  lemma NormalisedIs(pattern: string) returns (j: nat, k: nat)
    ensures j <= k <= |pattern| && |Normalised(pattern)| == k - j
    ensures forall i | 0 <= i < |pattern| && !(j <= i < k) :: IsSpace(pattern[i])
    ensures forall i | j <= i < k :: Normalised(pattern)[i - j] == if pattern[i] == '\\' then '/' else pattern[i]
    ensures j < k ==> !IsSpace(pattern[j]) && !IsSpace(pattern[k - 1])
  {
    hide Slashes, TrimLeft, TrimRight;
    assert !IsSpace('/') && !IsSpace('\\');
    hide IsSpace;
    var s := Slashes(pattern);
    SlashesIs(pattern);
    j := LeftTrimmed(s);
    var n := RightTrimmed(s[j..]);
    k := j + n;
    assert forall i | k <= i < |s| :: s[i] == s[j..][i - j];
    assert Normalised(pattern) == s[j..][..n];
  }
}
