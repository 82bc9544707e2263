/**
 Stored paths of the thread catalogue: how their text resolves to components, with either
 platform's separators and Windows' extended-length prefixes, and how another relative path is
 written in the same form. Resolution is lexical: no links, and every text is read as absolute.
 */
module ArchivePaths {
  import opened Wrappers

  type Path = seq<string>

  predicate IsSep(c: char, windows: bool) { c == '/' || (windows && c == '\\') }

  predicate SepFree(s: string, windows: bool) { forall c | c in s :: !IsSep(c, windows) }

  /** The pieces between separators, empty ones included. */
  function Split(text: string, windows: bool): (r: seq<string>)
    ensures r != []
    ensures forall k | 0 <= k < |r| :: SepFree(r[k], windows)
  {
    if text == [] then [""]
    else
      var rest := Split(text[..|text| - 1], windows);
      var c := text[|text| - 1];
      if IsSep(c, windows) then rest + [""] else rest[..|rest| - 1] + [rest[|rest| - 1] + [c]]
  }

  /** Empty pieces and `.` vanish, `..` takes the component before it away. */
  function Norm(pieces: seq<string>): Path {
    if pieces == [] then [] else Step(Norm(pieces[..|pieces| - 1]), pieces[|pieces| - 1])
  }

  function Step(path: Path, p: string): Path {
    if p == "" || p == "." then path
    else if p == ".." then (if path == [] then [] else path[..|path| - 1])
    else path + [p]
  }

  predicate Plain(p: string) { p != "" && p != "." && p != ".." }

  predicate AllPlain(path: Path) { forall k | 0 <= k < |path| :: Plain(path[k]) }

  const EXTENDED := "\\\\?\\"
  const EXTENDED_UNC := "\\\\?\\UNC\\"

  /** `_plain`: the text without an extended-length prefix. */
  function WithoutPrefix(stored: string): string {
    if EXTENDED_UNC <= stored then "\\\\" + stored[|EXTENDED_UNC|..]
    else if EXTENDED <= stored then stored[|EXTENDED|..]
    else stored
  }

  function Resolve(stored: string, windows: bool): Path { Norm(Split(WithoutPrefix(stored), windows)) }

  /** `_relative`. */
  function Relative(stored: string, root: Path, windows: bool): Option<Path> {
    var path := Resolve(stored, windows);
    if root <= path then Some(path[|root|..]) else None
  }

  function Join(path: Path, sep: char): string {
    if path == [] then "" else if |path| == 1 then path[0] else Join(path[..|path| - 1], sep) + [sep] + path[|path| - 1]
  }

  function Separator(stored: string): char { if '\\' in stored then '\\' else '/' }

  predicate EndsWith(text: string, tail: string) { |tail| <= |text| && text[|text| - |tail|..] == tail }

  /** `_stored_like`: `after` written the way `stored` names `before`. */
  function StoredLike(stored: string, before: Path, after: Path): Option<string> {
    var tail := Join(before, Separator(stored));
    if EndsWith(stored, tail) then Some(stored[..|stored| - |tail|] + Join(after, Separator(stored))) else None
  }

  // ------------------------------------------------------------------ splitting and resolving

  /** The pieces of one text followed by another: the last of the one and the first of the other join. */
  function Glue(x: seq<string>, y: seq<string>): seq<string>
    requires x != [] && y != []
  {
    x[..|x| - 1] + [x[|x| - 1] + y[0]] + y[1..]
  }

  lemma SplitStep(text: string, c: char, windows: bool)
    ensures Split(text + [c], windows) ==
      if IsSep(c, windows) then Split(text, windows) + [""] else Glue(Split(text, windows), [[c]])
  {
    assert (text + [c])[..|text|] == text;
  }

  lemma GlueStep(x: seq<string>, y: seq<string>, c: char)
    requires x != [] && y != []
    ensures Glue(x, y) + [""] == Glue(x, y + [""])
    ensures Glue(Glue(x, y), [[c]]) == Glue(x, Glue(y, [[c]]))
    ensures Glue(x, [""]) == x
  {
    if |y| == 1 {
      assert x[|x| - 1] + y[0] + [c] == x[|x| - 1] + (y[0] + [c]);
    }
    assert x[|x| - 1] + "" == x[|x| - 1];
    assert x == x[..|x| - 1] + [x[|x| - 1]];
  }

  lemma {:induction false} SplitConcat(a: string, b: string, windows: bool)
    ensures Split(a + b, windows) == Glue(Split(a, windows), Split(b, windows))
    decreases |b|
  {
    if b == [] {
      assert a + b == a;
      GlueStep(Split(a, windows), [""], 'x');
    } else {
      hide Split, Glue;
      var b', c := b[..|b| - 1], b[|b| - 1];
      assert b == b' + [c] && a + b == (a + b') + [c];
      SplitConcat(a, b', windows);
      SplitStep(a + b', c, windows);
      SplitStep(b', c, windows);
      GlueStep(Split(a, windows), Split(b', windows), c);
    }
  }

  lemma {:induction false} SplitSepFree(s: string, windows: bool)
    requires SepFree(s, windows)
    ensures Split(s, windows) == [s]
    decreases |s|
  {
    if s != [] {
      hide Split;
      var front, c := s[..|s| - 1], s[|s| - 1];
      assert s == front + [c] && c in s;
      SplitSepFree(front, windows);
      SplitStep(front, c, windows);
      assert Glue([front], [[c]]) == [front + [c]];
    }
  }

  lemma {:induction false} SplitJoin(path: Path, sep: char, windows: bool)
    requires path != [] && IsSep(sep, windows) && forall k | 0 <= k < |path| :: SepFree(path[k], windows)
    ensures Split(Join(path, sep), windows) == path
    decreases |path|
  {
    hide Split;
    SplitSepFree(path[|path| - 1], windows);
    if |path| > 1 {
      var front, last := path[..|path| - 1], path[|path| - 1];
      SplitJoin(front, sep, windows);
      SplitStep(Join(front, sep), sep, windows);
      SplitConcat(Join(front, sep) + [sep], last, windows);
      assert (front + [""])[..|front|] == front;
      assert "" + last == last;
      assert path == front + [last];
    }
  }

  lemma {:induction false} NormIsPlain(pieces: seq<string>)
    ensures AllPlain(Norm(pieces))
    ensures forall k | 0 <= k < |Norm(pieces)| :: Norm(pieces)[k] in pieces
    decreases |pieces|
  {
    if pieces != [] {
      NormIsPlain(pieces[..|pieces| - 1]);
    }
  }

  lemma NormStep(pieces: seq<string>, p: string)
    ensures Norm(pieces + [p]) == Step(Norm(pieces), p)
  {
    assert (pieces + [p])[..|pieces|] == pieces;
  }

  lemma {:induction false} NormPush(a: seq<string>, b: seq<string>)
    requires AllPlain(b)
    ensures Norm(a + b) == Norm(a) + b
    decreases |b|
  {
    hide Norm;
    if b == [] {
      assert a + b == a;
    } else {
      var front, p := b[..|b| - 1], b[|b| - 1];
      assert a + b == (a + front) + [p] && b == front + [p];
      NormPush(a, front);
      NormStep(a + front, p);
    }
  }

  lemma NormPlain(path: Path)
    requires AllPlain(path)
    ensures Norm(path) == path
  {
    NormPush([], path);
    assert [] + path == path;
  }

  /** A resolved beginning can stand for the text it came from. */
  lemma {:induction false} NormOver(a: seq<string>, b: seq<string>)
    ensures Norm(a + b) == Norm(Norm(a) + b)
    decreases |b|
  {
    hide Norm, Step, AllPlain;
    if b == [] {
      assert a + b == a && Norm(a) + b == Norm(a);
      NormIsPlain(a);
      NormPlain(Norm(a));
    } else {
      var front, p := b[..|b| - 1], b[|b| - 1];
      NormOver(a, front);
      assert a + b == (a + front) + [p] && Norm(a) + b == (Norm(a) + front) + [p];
      NormStep(a + front, p);
      NormStep(Norm(a) + front, p);
    }
  }

  // ------------------------------------------------------------------ the rewritten text

  /** The text before a tail ends in a separator, and what it resolves to is `root`. */
  predicate Leads(pre: string, root: Path, windows: bool) {
    var x := Split(pre, windows);
    x[|x| - 1] == "" && Norm(x[..|x| - 1]) == root
  }

  predicate Writable(path: Path, windows: bool) {
    path != [] && forall k | 0 <= k < |path| :: path[k] != "" && SepFree(path[k], windows)
  }

  /** Text that resolves to `root + rel` and ends as `rel` is written has `root` before that. */
  lemma TailIsRelative(pre: string, root: Path, rel: Path, sep: char, windows: bool)
    requires Writable(rel, windows) && AllPlain(rel) && IsSep(sep, windows)
    requires Norm(Split(pre + Join(rel, sep), windows)) == root + rel
    ensures Leads(pre, root, windows)
  {
    hide Split, Norm, Join, SepFree;
    var x := Split(pre, windows);
    SplitJoin(rel, sep, windows);
    SplitConcat(pre, Join(rel, sep), windows);
    LastPiece(x[..|x| - 1], x[|x| - 1], root, rel);
  }

  lemma LastPiece(front: seq<string>, x: string, root: Path, rel: Path)
    requires rel != [] && AllPlain(rel)
    requires Norm(front + [x + rel[0]] + rel[1..]) == root + rel
    ensures x == "" && Norm(front) == root
  {
    var y := x + rel[0];
    NormPush(front + [y], rel[1..]);
    var norm := Norm(front + [y]);
    assert norm + rel[1..] == (root + [rel[0]]) + rel[1..];
    assert norm == (norm + rel[1..])[..|root| + 1] == root + [rel[0]];
    assert (front + [y])[..|front|] == front;
    assert Plain(rel[0]);
    assert y[|y| - |rel[0]|..] == rel[0];
    assert forall c | c == "." || c == ".." :: y == c ==> rel[0] == c[|x|..];
    assert Norm(front) + [y] == root + [rel[0]];
    assert (Norm(front) + [y])[|Norm(front)|] == y && (Norm(front) + [y])[..|Norm(front)|] == Norm(front);
    assert (root + [rel[0]])[..|root|] == root;
    assert y == rel[0];
    assert |y| == |x| + |rel[0]|;
  }

  lemma GlueEmpty(x: seq<string>, y: seq<string>)
    requires x != [] && y != [] && x[|x| - 1] == ""
    ensures Glue(x, y) == x[..|x| - 1] + y
  {
    assert "" + y[0] == y[0];
  }

  /** Another tail after the same beginning resolves from the same root. */
  lemma OtherTail(pre: string, root: Path, after: Path, sep: char, windows: bool)
    requires Writable(after, windows) && IsSep(sep, windows) && Leads(pre, root, windows)
    ensures Norm(Split(pre + Join(after, sep), windows)) == Norm(root + after)
  {
    hide Split, Norm, Join, SepFree;
    var x := Split(pre, windows);
    SplitJoin(after, sep, windows);
    SplitConcat(pre, Join(after, sep), windows);
    GlueEmpty(x, after);
    NormOver(x[..|x| - 1], after);
  }

  // ------------------------------------------------------------------ prefixes

  lemma ResolvedIsWritable(stored: string, root: Path, rel: Path, windows: bool)
    requires Resolve(stored, windows) == root + rel && rel != []
    ensures AllPlain(rel) && Writable(rel, windows)
  {
    var pieces := Split(WithoutPrefix(stored), windows);
    NormIsPlain(pieces);
    forall k | 0 <= k < |rel|
      ensures Plain(rel[k]) && SepFree(rel[k], windows)
    {
      assert (root + rel)[|root| + k] == rel[k];
      assert rel[k] in pieces;
    }
  }

  lemma {:induction false} JoinSepFree(path: Path, sep: char, windows: bool)
    requires !IsSep(sep, windows) && forall k | 0 <= k < |path| :: SepFree(path[k], windows)
    ensures SepFree(Join(path, sep), windows)
    decreases |path|
  {
    if |path| > 1 {
      JoinSepFree(path[..|path| - 1], sep, windows);
    }
  }

  /** How many characters the prefix has, and what stands for them in the plain text. */
  function PrefixLen(stored: string): nat {
    if EXTENDED_UNC <= stored then |EXTENDED_UNC| else if EXTENDED <= stored then |EXTENDED| else 0
  }

  function Added(stored: string): string { if EXTENDED_UNC <= stored then "\\\\" else "" }

  lemma PlainIs(stored: string)
    ensures PrefixLen(stored) <= |stored| && WithoutPrefix(stored) == Added(stored) + stored[PrefixLen(stored)..]
  {
  }

  /** A tail that does not reach into the prefix is a tail of the plain text. */
  lemma TailOfPlain(stored: string, tail: string)
    requires EndsWith(stored, tail) && PrefixLen(stored) + |tail| <= |stored|
    ensures WithoutPrefix(stored) == Added(stored) + stored[PrefixLen(stored)..|stored| - |tail|] + tail
  {
    assert stored[PrefixLen(stored)..] == stored[PrefixLen(stored)..|stored| - |tail|] + tail;
  }

  /** A tail that does reach into it ends in all the text after it. */
  lemma TailWithPrefix(stored: string, tail: string)
    requires EndsWith(stored, tail) && PrefixLen(stored) + |tail| > |stored|
    ensures PrefixLen(stored) > 0
    ensures var k := PrefixLen(stored); var m := |stored| - |tail|;
      m < k && tail == stored[m..k] + stored[k..] && stored[k - 1] == '\\'
  {
  }

  lemma {:induction false} NormShort(pieces: seq<string>)
    ensures |Norm(pieces)| <= |pieces|
    decreases |pieces|
  {
    if pieces != [] { NormShort(pieces[..|pieces| - 1]); }
  }

  /** Where a backslash is an ordinary character, text that holds one is never rewritten. */
  lemma OrdinaryBackslash(stored: string, root: Path, rel: Path, after: Path)
    requires Resolve(stored, false) == root + rel && |rel| >= 2 && Separator(stored) == '\\'
    ensures StoredLike(stored, rel, after) == None
  {
    hide StoredLike, WithoutPrefix, Separator, PrefixLen, Added;
    var tail, plain := Join(rel, '\\'), WithoutPrefix(stored);
    ResolvedIsWritable(stored, root, rel, false);
    JoinSepFree(rel, '\\', false);
    SplitSepFree(tail, false);
    PlainIs(stored);
    NotLike(stored, rel, after);
    if EndsWith(stored, tail) {
      if PrefixLen(stored) + |tail| <= |stored| {
        TailOfPlain(stored, tail);
        JoinIsLong(rel, '\\');
        LastPieceLong(Added(stored) + stored[PrefixLen(stored)..|stored| - |tail|], tail, root, rel);
      } else {
        TailWithPrefix(stored, tail);
        assert SepFree(plain, false) by { PlainSepFree(stored, tail); }
        SplitSepFree(plain, false);
        NormShort([plain]);
      }
    }
  }

  lemma NotLike(stored: string, rel: Path, after: Path)
    ensures StoredLike(stored, rel, after) == None <==> !EndsWith(stored, Join(rel, Separator(stored)))
  {
  }

  lemma PlainSepFree(stored: string, tail: string)
    requires EndsWith(stored, tail) && PrefixLen(stored) + |tail| > |stored| && SepFree(tail, false)
    ensures SepFree(WithoutPrefix(stored), false)
  {
    var k, plain := PrefixLen(stored), WithoutPrefix(stored);
    PlainIs(stored);
    var body := tail[|tail| - (|stored| - k)..];
    assert stored[k..] == body;
    assert forall c | c in body :: c in tail;
    assert forall c | c in Added(stored) :: c == '\\';
    assert forall c | c in plain :: c in Added(stored) || c in body;
  }

  lemma LastPieceLong(pre: string, tail: string, root: Path, rel: Path)
    requires rel != [] && SepFree(tail, false) && |tail| > 2 && |tail| > |rel[|rel| - 1]|
    ensures Norm(Split(pre + tail, false)) != root + rel
  {
    hide Split, Norm, SepFree;
    var x := Split(pre, false);
    SplitConcat(pre, tail, false);
    SplitSepFree(tail, false);
    var front, y := x[..|x| - 1], x[|x| - 1] + tail;
    assert Split(pre + tail, false) == front + [y];
    NormPush(front, [y]);
    assert (Norm(front) + [y])[|Norm(front) + [y]| - 1] == y;
    assert (root + rel)[|root + rel| - 1] == rel[|rel| - 1];
  }

  lemma JoinIsLong(rel: Path, sep: char)
    requires |rel| >= 2 && AllPlain(rel)
    ensures |Join(rel, sep)| > 2 && |Join(rel, sep)| > |rel[|rel| - 1]|
  {
    assert Plain(rel[|rel| - 1]);
    assert Join(rel, sep) == Join(rel[..|rel| - 1], sep) + [sep] + rel[|rel| - 1];
    FirstIsIn(rel[..|rel| - 1], sep);
  }

  lemma FirstIsIn(path: Path, sep: char)
    requires path != [] && AllPlain(path)
    ensures |Join(path, sep)| >= 1
  {
    assert Plain(path[|path| - 1]);
  }

  // ------------------------------------------------------------------ the theorem

  lemma {:induction false} OnlySeps(text: string, windows: bool)
    requires forall c | c in text :: IsSep(c, windows)
    ensures forall k | 0 <= k < |Split(text, windows)| :: Split(text, windows)[k] == ""
    decreases |text|
  {
    if text != [] {
      OnlySeps(text[..|text| - 1], windows);
      assert text[|text| - 1] in text;
    }
  }

  lemma {:induction false} OnlyEmpty(pieces: seq<string>)
    requires forall k | 0 <= k < |pieces| :: pieces[k] == ""
    ensures Norm(pieces) == []
    decreases |pieces|
  {
    if pieces != [] { OnlyEmpty(pieces[..|pieces| - 1]); }
  }

  /** What leads to a folder ends in a separator and holds something else too. */
  lemma LeadsShape(pre: string, root: Path, windows: bool)
    requires Leads(pre, root, windows) && root != []
    ensures pre != "" && IsSep(pre[|pre| - 1], windows)
    ensures exists c :: c in pre && !IsSep(c, windows)
  {
    hide Split, Norm, IsSep;
    var x := Split(pre, windows);
    if forall c | c in pre :: IsSep(c, windows) {
      OnlySeps(pre, windows);
      assert forall k | 0 <= k < |x| - 1 :: x[..|x| - 1][k] == x[k];
      OnlyEmpty(x[..|x| - 1]);
    }
    assert pre != "" by { if pre == "" { NoLead(windows); } }
    EndsInSep(pre, windows);
  }

  lemma NoLead(windows: bool)
    ensures Split("", windows) == [""]
  {
  }

  lemma EndsInSep(pre: string, windows: bool)
    requires pre != "" && Split(pre, windows)[|Split(pre, windows)| - 1] == ""
    ensures IsSep(pre[|pre| - 1], windows)
  {
    var front, c := pre[..|pre| - 1], pre[|pre| - 1];
    assert pre == front + [c];
    hide Split;
    SplitStep(front, c, windows);
  }

  /** The prefix of the text, and so what stands for it, does not depend on what follows the folder. */
  lemma SamePrefix(stored: string, tail: string, other: string, root: Path, windows: bool)
    requires EndsWith(stored, tail) && PrefixLen(stored) + |tail| <= |stored| && root != []
    requires Leads(Added(stored) + stored[PrefixLen(stored)..|stored| - |tail|], root, windows)
    ensures WithoutPrefix(stored[..|stored| - |tail|] + other)
         == Added(stored) + stored[PrefixLen(stored)..|stored| - |tail|] + other
  {
    hide Leads, WithoutPrefix, PrefixLen, Added;
    var k, m := PrefixLen(stored), |stored| - |tail|;
    var pre := Added(stored) + stored[k..m];
    LeadsShape(pre, root, windows);
    PrefixStays(stored, m, other, windows);
    PlainIs(stored[..m] + other);
    assert stored[..m] == stored[..k] + stored[k..m];
    assert (stored[..m] + other)[k..] == stored[k..m] + other;
  }

  lemma PrefixStays(stored: string, m: nat, other: string, windows: bool)
    requires PrefixLen(stored) <= m <= |stored|
    requires var pre := Added(stored) + stored[PrefixLen(stored)..m];
      pre != "" && IsSep(pre[|pre| - 1], windows) && exists c :: c in pre && !IsSep(c, windows)
    ensures PrefixLen(stored[..m] + other) == PrefixLen(stored) && Added(stored[..m] + other) == Added(stored)
  {
    hide PrefixLen, Added, IsSep;
    var k, t := PrefixLen(stored), stored[..m] + other;
    PrefixIsOneOf(stored);
    PrefixIsOneOf(t);
    if k == 0 {
      assert Added(stored) + stored[0..m] == stored[..m];
      NotExtended(stored, m, other, windows);
    } else if k == 4 {
      assert Added(stored) + stored[4..m] == stored[4..m];
      assert stored[4..m][m - 4 - 1] == stored[m - 1];
      NotUnc(stored, m, other, windows);
      PrefixKept(EXTENDED, stored, m, other);
    } else {
      PrefixKept(EXTENDED_UNC, stored, m, other);
    }
  }

  lemma PrefixKept(prefix: string, stored: string, m: nat, other: string)
    requires prefix <= stored && |prefix| <= m <= |stored|
    ensures prefix <= stored[..m] + other
  {
  }

  lemma PrefixIsOneOf(stored: string)
    ensures EXTENDED_UNC <= stored ==> PrefixLen(stored) == 8 && Added(stored) == "\\\\"
    ensures !(EXTENDED_UNC <= stored) && EXTENDED <= stored ==> PrefixLen(stored) == 4 && Added(stored) == ""
    ensures !(EXTENDED_UNC <= stored) && !(EXTENDED <= stored) ==> PrefixLen(stored) == 0 && Added(stored) == ""
  {
  }

  lemma NotExtended(stored: string, m: nat, other: string, windows: bool)
    requires 0 < m <= |stored| && !(EXTENDED <= stored)
    requires IsSep(stored[m - 1], windows) && exists c :: c in stored[..m] && !IsSep(c, windows)
    ensures !(EXTENDED <= stored[..m] + other)
  {
    var t := stored[..m] + other;
    if EXTENDED <= t {
      assert forall i | 0 <= i < 4 && i < m :: EXTENDED[i] == t[i] == stored[i];
    }
  }

  lemma NotUnc(stored: string, m: nat, other: string, windows: bool)
    requires 4 < m <= |stored| && EXTENDED <= stored && !(EXTENDED_UNC <= stored)
    requires IsSep(stored[m - 1], windows)
    ensures !(EXTENDED_UNC <= stored[..m] + other)
  {
    var t := stored[..m] + other;
    if EXTENDED_UNC <= t {
      assert forall i | 0 <= i < 8 && i < m :: EXTENDED_UNC[i] == t[i] == stored[i];
    }
  }

  /**
   A row rewritten this way names the chosen path below the same folder: same prefix, same
   separator, other tail.
   */
  lemma StoredLikeResolves(stored: string, root: Path, rel: Path, after: Path, windows: bool)
    requires root != [] && |rel| >= 2 && Writable(after, windows)
    requires Resolve(stored, windows) == root + rel
    ensures StoredLike(stored, rel, after).Some? ==> IsSep(Separator(stored), windows)
    ensures StoredLike(stored, rel, after).Some? ==>
      Resolve(StoredLike(stored, rel, after).value, windows) == Norm(root + after)
    ensures StoredLike(stored, rel, after).Some? ==>
      exists pre: string :: stored == pre + Join(rel, Separator(stored))
        && StoredLike(stored, rel, after).value == pre + Join(after, Separator(stored))
  {
    hide Resolve, Writable, Join, Separator;
    var sep := Separator(stored);
    if StoredLike(stored, rel, after).Some? {
      if !IsSep(sep, windows) {
        NotASeparator(stored, windows);
        OrdinaryBackslash(stored, root, rel, after);
        assert false;
      }
      var m := |stored| - |Join(rel, sep)|;
      assert stored == stored[..m] + Join(rel, sep);
      Rewritten(stored, root, rel, after, windows);
    }
  }

  lemma NotASeparator(stored: string, windows: bool)
    requires !IsSep(Separator(stored), windows)
    ensures !windows && Separator(stored) == '\\'
  {
  }

  lemma Rewritten(stored: string, root: Path, rel: Path, after: Path, windows: bool)
    requires root != [] && rel != [] && Writable(after, windows)
    requires Resolve(stored, windows) == root + rel && IsSep(Separator(stored), windows)
    requires EndsWith(stored, Join(rel, Separator(stored)))
    ensures Resolve(stored[..|stored| - |Join(rel, Separator(stored))|] + Join(after, Separator(stored)), windows) == Norm(root + after)
  {
    hide Writable, Join, Separator, WithoutPrefix, Split, Norm, PrefixLen, Added, AllPlain, Leads;
    var sep := Separator(stored);
    var tail := Join(rel, sep);
    ResolvedIsWritable(stored, root, rel, windows);
    Below(stored, root, rel, sep, windows);
    TailOfPlain(stored, tail);
    var pre := Added(stored) + stored[PrefixLen(stored)..|stored| - |tail|];
    TailIsRelative(pre, root, rel, sep, windows);
    OtherTail(pre, root, after, sep, windows);
    SamePrefix(stored, tail, Join(after, sep), root, windows);
  }

  /** The tail does not reach into the prefix. */
  lemma Below(stored: string, root: Path, rel: Path, sep: char, windows: bool)
    requires Resolve(stored, windows) == root + rel && Writable(rel, windows) && IsSep(sep, windows)
    requires EndsWith(stored, Join(rel, sep)) && sep == Separator(stored)
    ensures PrefixLen(stored) + |Join(rel, sep)| <= |stored|
  {
    hide Join, Split, Norm, Resolve, PrefixLen;
    var tail, k := Join(rel, sep), PrefixLen(stored);
    if k + |tail| > |stored| {
      TailWithPrefix(stored, tail);
      var m := |stored| - |tail|;
      PlainIs(stored);
      assert stored[k - 1] in stored;
      SplitJoin(rel, sep, windows);
      SplitAfterSep(stored[m..k], stored[k..], windows);
      ShortPlain(stored, windows);
    }
  }

  /** Text before a separator only adds pieces. */
  lemma SplitAfterSep(lead: string, body: string, windows: bool)
    requires lead != "" && IsSep(lead[|lead| - 1], windows)
    ensures |Split(lead + body, windows)| > |Split(body, windows)|
  {
    hide Split;
    SplitConcat(lead, body, windows);
    SplitStep(lead[..|lead| - 1], lead[|lead| - 1], windows);
    assert lead == lead[..|lead| - 1] + [lead[|lead| - 1]];
  }

  /** Resolving gives no more components than the text after the prefix has pieces. */
  lemma ShortPlain(stored: string, windows: bool)
    ensures PrefixLen(stored) <= |stored|
    ensures |Resolve(stored, windows)| <= |Split(stored[PrefixLen(stored)..], windows)|
  {
    hide Split, Norm, WithoutPrefix, PrefixLen;
    PlainIs(stored);
    var body := stored[PrefixLen(stored)..];
    NormShort(Split(body, windows));
    if Added(stored) == "" {
      assert "" + body == body;
    } else {
      SplitConcat("\\\\", body, windows);
      var y := Split(body, windows);
      if windows {
        TwoBackslashes();
        assert "" + y[0] == y[0];
        assert Glue(["", "", ""], y) == ["", ""] + y;
        OnlyEmpty(["", ""]);
        NormOver(["", ""], y);
        assert [] + y == y;
      } else {
        SplitSepFree("\\\\", false);
        NormShort(Glue(["\\\\"], y));
      }
    }
  }

  lemma TwoBackslashes()
    ensures Split("\\\\", true) == ["", "", ""]
  {
    SplitStep("", '\\', true);
    SplitStep("\\", '\\', true);
    assert "" + "\\" == "\\" && "\\" + "\\" == "\\\\";
  }
}
