/** The spellings keep the order of versions, and a tag made from one gives the version back. */
module VersionOrders {
  import opened Wrappers
  import opened Decimal
  import opened Texts
  import opened Versions

  // ------------------------------------------------------------------ printed numbers inside text

  lemma SliceOf(a: string, b: string, c: string)
    ensures (a + b + c)[|a|..|a| + |b|] == b && (a + b + c)[|a| + |b|..] == c && (a + b + c)[..|a|] == a
    ensures (a + b + c)[..|a| + |b|] == a + b
  {
  }

  predicate DigitFree(s: string) { forall k | 0 <= k < |s| :: !IsDigit(s[k]) }

  predicate NoDigitFirst(s: string) { s != "" ==> !IsDigit(s[0]) }

  /** A number printed between `p` and `r` is exactly the run of digits there. */
  lemma DigitRun(p: string, n: nat, r: string)
    requires NoDigitFirst(r)
    ensures var s := p + NatText(n) + r; DigitsEnd(s, |p|) == |p| + |NatText(n)|
  {
    var s, w := p + NatText(n) + r, NatText(n);
    assert forall k | |p| <= k < |p| + |w| :: s[k] == w[k - |p|];
    DigitsEndUnique(s, |p|, |p| + |w|);
  }

  /** What may follow a release: no digit, and no dot with a digit behind it. */
  predicate EndsRelease(r: string) {
    NoDigitFirst(r) && (|r| > 1 && r[0] == '.' ==> !IsDigit(r[1]))
  }

  /** One turn of reading a release. */
  lemma ReleaseStep(s: string, i: nat, e: nat)
    requires i < e <= |s| && DigitsEnd(s, i) == e
    ensures ReleaseEnd(s, i) ==
      if e + 1 < |s| && s[e] == '.' && IsDigit(s[e + 1]) then ReleaseEnd(s, e + 1) else Some(e)
  {
  }

  lemma {:induction false} ReleaseRun(p: string, release: seq<nat>, r: string)
    requires release != [] && EndsRelease(r)
    ensures var s := p + ReleaseText(release) + r; ReleaseEnd(s, |p|) == Some(|p| + |ReleaseText(release)|)
    decreases |release|
  {
    hide ReleaseEnd, NatText, DigitsEnd;
    var w := NatText(release[0]);
    var e := |p| + |w|;
    if |release| == 1 {
      var s := p + w + r;
      DigitRun(p, release[0], r);
      ReleaseStep(s, |p|, e);
      assert r != "" ==> s[e] == r[0];
      assert |r| > 1 ==> s[e + 1] == r[1];
    } else {
      var tail := ReleaseText(release[1..]);
      var s := p + w + ("." + tail + r);
      DigitRun(p, release[0], "." + tail + r);
      ReleaseStarts(release[1..]);
      assert s[e] == '.' && s[e + 1] == tail[0];
      ReleaseStep(s, |p|, e);
      ReleaseRun(p + w + ".", release[1..], r);
      assert p + w + "." + tail + r == s;
      assert p + ReleaseText(release) + r == s;
    }
  }

  lemma ReleaseStarts(release: seq<nat>)
    requires release != []
    ensures ReleaseText(release) != "" && IsDigit(ReleaseText(release)[0])
  {
  }

  // ------------------------------------------------------------------ reading a canonical version

  const PACKAGE_KINDS := ["a", "b", "rc", ".dev"]
  const NPM_KINDS := ["a", "b", "rc"]

  function PreText(p: Pre): string {
    match p
    case Final => ""
    case Pre(k, n) => KindText(k) + NatText(n)
  }

  lemma PreEndsRelease(p: Pre)
    ensures EndsRelease(PreText(p))
  {
  }

  lemma TextIs(v: Version)
    requires v.release != []
    ensures Text(v) == ReleaseText(v.release) + PreText(v.pre)
  {
  }

  lemma FirstDiffers(s: string, i: nat, w: string)
    ensures i < |s| && w != "" && s[i] != w[0] ==> !Starts(s, i, w)
  {
    if i < |s| && w != "" && i + |w| <= |s| { assert s[i..i + |w|][0] == s[i]; }
  }

  lemma KindStep(s: string, i: nat, first: string, rest: seq<string>)
    ensures KindAt(s, i, [first] + rest) == if Starts(s, i, first) then Some(first) else KindAt(s, i, rest)
  {
    assert ([first] + rest)[1..] == rest;
  }

  lemma KindStands(base: string, k: Kind, n: nat)
    ensures var s := base + KindText(k) + NatText(n);
      && KindAt(s, |base|, PACKAGE_KINDS) == Some(KindText(k))
      && KindAt(s, |base|, NPM_KINDS) == (if k == Dev then None else Some(KindText(k)))
  {
    hide KindAt, Starts, NatText;
    var s, e := base + KindText(k) + NatText(n), |base|;
    SliceOf(base, KindText(k), NatText(n));
    assert s[e] == KindText(k)[0];
    StartsHere(base, KindText(k), NatText(n));
    FirstDiffers(s, e, "a");
    FirstDiffers(s, e, "b");
    FirstDiffers(s, e, "rc");
    KindStep(s, e, "a", ["b", "rc", ".dev"]);
    KindStep(s, e, "b", ["rc", ".dev"]);
    KindStep(s, e, "rc", [".dev"]);
    KindStep(s, e, ".dev", []);
    KindStep(s, e, "a", ["b", "rc"]);
    KindStep(s, e, "b", ["rc"]);
    KindStep(s, e, "rc", []);
    NoKind(s, e);
    assert ["a"] + ["b", "rc", ".dev"] == PACKAGE_KINDS && ["b"] + ["rc", ".dev"] == ["b", "rc", ".dev"]
        && ["rc"] + [".dev"] == ["rc", ".dev"] && [".dev"] + [] == [".dev"];
    assert ["a"] + ["b", "rc"] == NPM_KINDS && ["b"] + ["rc"] == ["b", "rc"] && ["rc"] + [] == ["rc"];
  }

  lemma NoKind(s: string, i: nat)
    ensures KindAt(s, i, []) == None
  {
  }

  lemma StartsHere(a: string, w: string, b: string)
    ensures Starts(a + w + b, |a|, w)
  {
    SliceOf(a, w, b);
  }

  /** What the version pattern makes of its pieces. */
  lemma ParseIs(s: string, kinds: seq<string>, e: nat)
    requires ReleaseEnd(s, 0) == Some(e) && e <= |s|
    ensures AtEnd(s, e) ==> ParseVersion(s, kinds) == Some(Parts(s[..e], "", ""))
    ensures !AtEnd(s, e) && KindAt(s, e, kinds).None? ==> ParseVersion(s, kinds) == None
    ensures !AtEnd(s, e) && KindAt(s, e, kinds).Some? ==>
      var kind := KindAt(s, e, kinds).value;
      var k := e + |kind|;
      ParseVersion(s, kinds) ==
        if k > |s| || DigitsEnd(s, k) == k || !AtEnd(s, DigitsEnd(s, k)) then None
        else Some(Parts(s[..e], kind, s[k..DigitsEnd(s, k)]))
  {
    hide ReleaseEnd, KindAt, DigitsEnd;
  }

  /** A canonical version splits into its release, its kind and its number. */
  lemma ParseReads(v: Version, kinds: seq<string>)
    requires v.release != [] && (kinds == PACKAGE_KINDS || kinds == NPM_KINDS)
    ensures ParseVersion(Text(v), kinds) ==
      if v.pre.Final? then Some(Parts(ReleaseText(v.release), "", ""))
      else if v.pre.kind == Dev && kinds == NPM_KINDS then None
      else Some(Parts(ReleaseText(v.release), KindText(v.pre.kind), NatText(v.pre.number)))
  {
    hide *;
    BaseEnds(v);
    if v.pre.Final? {
      FinalReads(v, kinds);
    } else {
      PreReads(v, kinds);
    }
  }

  lemma BaseEnds(v: Version)
    requires v.release != []
    ensures ReleaseEnd(Text(v), 0) == Some(|ReleaseText(v.release)|)
    ensures Text(v) == ReleaseText(v.release) + PreText(v.pre)
  {
    hide ReleaseEnd, ReleaseText, NatText, Text, KindText;
    TextIs(v);
    PreEndsRelease(v.pre);
    ReleaseRun("", v.release, PreText(v.pre));
    assert "" + ReleaseText(v.release) + PreText(v.pre) == Text(v);
  }

  lemma FinalReads(v: Version, kinds: seq<string>)
    requires v.release != [] && v.pre.Final? && ReleaseEnd(Text(v), 0) == Some(|ReleaseText(v.release)|)
    requires Text(v) == ReleaseText(v.release) + PreText(v.pre)
    ensures ParseVersion(Text(v), kinds) == Some(Parts(ReleaseText(v.release), "", ""))
  {
    hide ReleaseEnd, ReleaseText, KindAt, NatText, ParseVersion, DigitsEnd, Text;
    assert Text(v) == ReleaseText(v.release);
    ParseIs(Text(v), kinds, |ReleaseText(v.release)|);
  }

  lemma PreReads(v: Version, kinds: seq<string>)
    requires v.release != [] && v.pre.Pre? && ReleaseEnd(Text(v), 0) == Some(|ReleaseText(v.release)|)
    requires Text(v) == ReleaseText(v.release) + PreText(v.pre) && (kinds == PACKAGE_KINDS || kinds == NPM_KINDS)
    ensures ParseVersion(Text(v), kinds) ==
      if v.pre.kind == Dev && kinds == NPM_KINDS then None
      else Some(Parts(ReleaseText(v.release), KindText(v.pre.kind), NatText(v.pre.number)))
  {
    hide *;
    var base, s, k, n := ReleaseText(v.release), Text(v), KindText(v.pre.kind), v.pre.number;
    PreTextIs(v.pre);
    Joins(base, k, NatText(n));
    KindStands(base, v.pre.kind, n);
    PrePieces(base, k, n, s);
    PieceReads(s, base, k, NatText(n), kinds);
  }

  lemma PreTextIs(p: Pre)
    requires p.Pre?
    ensures PreText(p) == KindText(p.kind) + NatText(p.number)
    ensures KindText(p.kind) != "" && KindText(p.kind)[0] != '\n'
  {
  }

  /** What the version pattern makes of a release, a kind and the digits behind it. */
  lemma PieceReads(s: string, base: string, k: string, number: string, kinds: seq<string>)
    requires ReleaseEnd(s, 0) == Some(|base|) && |base| + |k| < |s| && s[..|base|] == base && !AtEnd(s, |base|)
    requires DigitsEnd(s, |base| + |k|) == |s| && s[|base| + |k|..|s|] == number
    ensures KindAt(s, |base|, kinds) == None ==> ParseVersion(s, kinds) == None
    ensures KindAt(s, |base|, kinds) == Some(k) ==> ParseVersion(s, kinds) == Some(Parts(base, k, number))
  {
    hide *;
    ParseIs(s, kinds, |base|);
    EndsAtEnd(s);
  }

  lemma EndsAtEnd(s: string)
    ensures AtEnd(s, |s|)
  {
  }

  lemma PrePieces(base: string, k: string, n: nat, s: string)
    requires s == base + k + NatText(n) && k != "" && k[0] != '\n'
    ensures !AtEnd(s, |base|) && s[..|base|] == base && |base| + |k| < |s|
    ensures DigitsEnd(s, |base| + |k|) == |s| && s[|base| + |k|..|s|] == NatText(n)
  {
    hide NatText, DigitsEnd;
    DigitRun(base + k, n, "");
    assert base + k + NatText(n) + "" == s;
    SliceOf(base, k, NatText(n));
    assert s[|base|] == k[0];
  }

  // ------------------------------------------------------------------ Debian

  function DebKind(k: Kind): string {
    match k
    case Dev => "~dev"
    case A => "~a"
    case B => "~b"
    case Rc => "~rc"
  }

  function DebPre(p: Pre): string {
    match p
    case Final => ""
    case Pre(k, n) => DebKind(k) + NatText(n)
  }

  lemma PackageReads(v: Version)
    requires v.release != []
    ensures PackageVersion(Text(v)) == Some(ReleaseText(v.release) + DebPre(v.pre))
  {
    hide ParseVersion, ReleaseText;
    ParseReads(v, PACKAGE_KINDS);
    if v.pre.Pre? {
      var base, w := ReleaseText(v.release), NatText(v.pre.number);
      assert base + "~" + DebKind(v.pre.kind)[1..] + w == base + DebPre(v.pre);
    } else {
      assert ReleaseText(v.release) + "" == ReleaseText(v.release);
    }
  }

  lemma NonDigitRun(p: string, r: string)
    requires DigitFree(p) && (r != "" ==> IsDigit(r[0]))
    ensures NonDigitsEnd(p + r, 0) == |p|
  {
    NonDigitRunFrom(p + r, 0, |p|);
  }

  lemma {:induction false} NonDigitRunFrom(s: string, i: nat, e: nat)
    requires i <= e <= |s| && (forall k | i <= k < e :: !IsDigit(s[k])) && (e < |s| ==> IsDigit(s[e]))
    ensures NonDigitsEnd(s, i) == e
    decreases e - i
  {
    if i < e { NonDigitRunFrom(s, i + 1, e); }
  }

  /** One round of the Debian comparison. */
  lemma DebRound(p: string, x: nat, r: string, q: string, y: nat, t: string)
    requires DigitFree(p) && DigitFree(q) && NoDigitFirst(r) && NoDigitFirst(t)
    ensures DebCompare(p + NatText(x) + r, q + NatText(y) + t)
         == Then(DebLexical(p, q), Then(CompareNat(x, y), DebCompare(r, t)))
  {
    hide NatText, DebLexical;
    DebSide(p, x, r);
    DebSide(q, y, t);
  }

  lemma DebSide(p: string, x: nat, r: string)
    requires DigitFree(p) && NoDigitFirst(r)
    ensures var s := p + NatText(x) + r; var n := NonDigitsEnd(s, 0); var d := DigitsEnd(s, n);
      s != "" && s[..n] == p && s[n..d] == NatText(x) && NatOf(NatText(x)) == x && s[d..] == r
  {
    hide NatText, NonDigitsEnd, DigitsEnd, NatOf;
    var s := p + NatText(x) + r;
    assert s == p + (NatText(x) + r);
    NonDigitRun(p, NatText(x) + r);
    DigitRun(p, x, r);
    SliceOf(p, NatText(x), r);
    NatTextReads(x);
  }

  lemma {:induction false} DebReleases(p: string, r: seq<nat>, a: string, q: seq<nat>, b: string)
    requires |r| == |q| && r != [] && DigitFree(p) && NoDigitFirst(a) && NoDigitFirst(b)
    ensures DebCompare(p + ReleaseText(r) + a, p + ReleaseText(q) + b) == Then(CompareRelease(r, q), DebCompare(a, b))
    decreases |r|
  {
    hide DebCompare, NatText;
    DebSame(p);
    if |r| == 1 {
      DebRound(p, r[0], a, p, q[0], b);
    } else {
      var r', q' := ReleaseText(r[1..]), ReleaseText(q[1..]);
      assert p + ReleaseText(r) + a == p + NatText(r[0]) + ("." + r' + a);
      assert p + ReleaseText(q) + b == p + NatText(q[0]) + ("." + q' + b);
      DebRound(p, r[0], "." + r' + a, p, q[0], "." + q' + b);
      DebReleases(".", r[1..], a, q[1..], b);
    }
  }

  lemma {:induction false} DebSame(p: string)
    ensures DebLexical(p, p) == Equal
  {
    if p != "" { DebSame(p[1..]); }
  }

  /** Debian puts `~dev` after `~a` and `~b`, PEP 440 puts it first. */
  predicate DevClash(p: Pre, q: Pre) {
    p.Pre? && q.Pre? && ((p.kind == Dev && (q.kind == A || q.kind == B)) || (q.kind == Dev && (p.kind == A || p.kind == B)))
  }

  lemma DebKinds(k: Kind, l: Kind)
    ensures DebLexical(DebKind(k), DebKind(l)) ==
      if k == l then Equal
      else if k == Rc || l == Rc then (if k == Rc then Greater else Less)
      else if k == Dev || l == Dev then (if k == Dev then Greater else Less)
      else if k == A then Less else Greater
  {
    DebSame(DebKind(k));
    var a, b := DebKind(k), DebKind(l);
    assert a[0] == '~' && b[0] == '~';
    assert DebLexical(a, b) == DebLexical(a[1..], b[1..]);
    assert k != l ==> a[1] != b[1];
    assert a[1..] != "" && b[1..] != "" && a[1..][0] == a[1] && b[1..][0] == b[1];
  }

  lemma DebPres(p: Pre, q: Pre)
    ensures DebCompare(DebPre(p), DebPre(q)) == ComparePre(p, q) <==> !DevClash(p, q)
  {
    hide NatText, DebLexical, DebCompare;
    NothingEqual();
    if p.Pre? && q.Pre? {
      DebKinds(p.kind, q.kind);
      DebRound(DebKind(p.kind), p.number, "", DebKind(q.kind), q.number, "");
      assert DebKind(p.kind) + NatText(p.number) + "" == DebPre(p) && DebKind(q.kind) + NatText(q.number) + "" == DebPre(q);
    } else if p.Pre? {
      FinalAfter(p);
    } else if q.Pre? {
      FinalAfter(q);
    }
  }

  lemma NothingEqual()
    ensures DebCompare("", "") == Equal
  {
  }

  /** A tilde sorts before the end of a part. */
  lemma FinalAfter(p: Pre)
    requires p.Pre?
    ensures DebCompare(DebPre(p), "") == Less && DebCompare("", DebPre(p)) == Greater
  {
    hide NatText;
    var s := DebPre(p);
    assert s == DebKind(p.kind) + NatText(p.number) + "";
    DebSide(DebKind(p.kind), p.number, "");
    var n := NonDigitsEnd(s, 0);
    assert s[..n] == DebKind(p.kind) && ""[..0] == "";
    assert DebLexical(s[..n], "") == Less && DebLexical("", s[..n]) == Greater;
    assert NonDigitsEnd("", 0) == 0;
  }

  /**
   For canonical versions with equally many release numbers, the Debian order of the package
   versions is the PEP 440 order exactly when the two are not a development release and an
   alpha or beta of the same release.
   */
  lemma PackageVersionKeepsOrder(v: Version, w: Version)
    requires v.release != [] && |v.release| == |w.release|
    ensures PackageVersion(Text(v)).Some? && PackageVersion(Text(w)).Some?
    ensures DebCompare(PackageVersion(Text(v)).value, PackageVersion(Text(w)).value) == PepCompare(v, w)
      <==> !(v.release == w.release && DevClash(v.pre, w.pre))
  {
    hide DebCompare, PackageVersion, ReleaseText, Text, DebPre, CompareRelease, ComparePre;
    PackageReads(v);
    PackageReads(w);
    DebPres(v.pre, w.pre);
    DebVersions(v, w);
    ReleaseEqual(v.release, w.release);
  }

  lemma DebVersions(v: Version, w: Version)
    requires v.release != [] && |v.release| == |w.release|
    ensures DebCompare(ReleaseText(v.release) + DebPre(v.pre), ReleaseText(w.release) + DebPre(w.pre))
         == Then(CompareRelease(v.release, w.release), DebCompare(DebPre(v.pre), DebPre(w.pre)))
  {
    hide DebCompare, ReleaseText, DebPre, CompareRelease;
    DebPreStarts(v.pre);
    DebPreStarts(w.pre);
    DebReleases("", v.release, DebPre(v.pre), w.release, DebPre(w.pre));
    assert "" + ReleaseText(v.release) == ReleaseText(v.release) && "" + ReleaseText(w.release) == ReleaseText(w.release);
  }

  lemma DebPreStarts(p: Pre)
    ensures NoDigitFirst(DebPre(p))
  {
  }

  lemma {:induction false} ReleaseEqual(r: seq<nat>, q: seq<nat>)
    requires |r| == |q|
    ensures CompareRelease(r, q) == Equal <==> r == q
  {
    if r != [] {
      ReleaseEqual(r[1..], q[1..]);
      assert r == [r[0]] + r[1..] && q == [q[0]] + q[1..];
    }
  }

  // ------------------------------------------------------------------ SemVer

  lemma {:induction false} SplitPlain(w: string, c: char)
    requires c !in w
    ensures SplitOn(w, c) == [w]
  {
    if w != "" {
      assert forall d | d in w[1..] :: d in w;
      SplitPlain(w[1..], c);
      assert [w[0]] + w[1..] == w;
    }
  }

  lemma {:induction false} SplitFirst(w: string, c: char, rest: string)
    requires c !in w
    ensures SplitOn(w + [c] + rest, c) == [w] + SplitOn(rest, c)
  {
    var s := w + [c] + rest;
    if w == "" {
      assert s[1..] == rest;
    } else {
      assert forall d | d in w[1..] :: d in w;
      SplitFirst(w[1..], c, rest);
      assert s[1..] == w[1..] + [c] + rest;
      var tail := [w[1..]] + SplitOn(rest, c);
      assert s[0] == w[0] && s[0] in w;
      assert SplitOn(s, c) == [[w[0]] + tail[0]] + tail[1..];
      assert [w[0]] + w[1..] == w && tail[1..] == SplitOn(rest, c);
    }
  }

  function Numerals(r: seq<nat>): seq<string> {
    if r == [] then [] else [NatText(r[0])] + Numerals(r[1..])
  }

  lemma {:induction false} SplitRelease(r: seq<nat>)
    requires r != []
    ensures SplitOn(ReleaseText(r), '.') == Numerals(r)
    ensures Dots(ReleaseText(r)) == |r| - 1
    ensures '-' !in ReleaseText(r)
    decreases |r|
  {
    NatTextPlain(r[0]);
    if |r| == 1 {
      SplitPlain(NatText(r[0]), '.');
      DotsPlain(NatText(r[0]), "");
      assert NatText(r[0]) + "" == NatText(r[0]);
    } else {
      SplitRelease(r[1..]);
      SplitFirst(NatText(r[0]), '.', ReleaseText(r[1..]));
      DotsPlain(NatText(r[0]), "." + ReleaseText(r[1..]));
      assert ReleaseText(r) == NatText(r[0]) + ("." + ReleaseText(r[1..]));
    }
  }

  lemma NatTextPlain(n: nat)
    ensures '.' !in NatText(n) && '-' !in NatText(n)
  {
  }

  lemma {:induction false} DotsPlain(w: string, rest: string)
    requires '.' !in w
    ensures Dots(w + rest) == Dots(rest)
  {
    if w == "" {
      assert w + rest == rest;
    } else {
      DotsPlain(w[1..], rest);
      assert (w + rest)[1..] == w[1..] + rest;
    }
  }

  lemma {:induction false} CompareNumerals(r: seq<nat>, q: seq<nat>)
    requires |r| == |q|
    ensures CompareIdentifiers(Numerals(r), Numerals(q)) == CompareRelease(r, q)
  {
    if r != [] {
      CompareNumerals(r[1..], q[1..]);
      NatTextReads(r[0]);
      NatTextReads(q[0]);
    }
  }

  function NpmPre(p: Pre): string {
    match p
    case Final => ""
    case Pre(k, n) => "-" + NpmKind(KindText(k)) + "." + NatText(n)
  }

  predicate NpmCanonical(v: Version) { |v.release| == 3 && (v.pre.Pre? ==> v.pre.kind != Dev) }

  /** `npm_version` takes exactly the canonical versions with three numbers that are no development release. */
  lemma NpmReads(v: Version)
    requires v.release != []
    ensures NpmVersion(Text(v)) == if NpmCanonical(v) then Some(ReleaseText(v.release) + NpmPre(v.pre)) else None
  {
    hide ParseVersion, ReleaseText, Dots;
    ParseReads(v, NPM_KINDS);
    SplitRelease(v.release);
    var base := ReleaseText(v.release);
    if v.pre.Pre? {
      var k, w := NpmKind(KindText(v.pre.kind)), NatText(v.pre.number);
      assert base + "-" + k + "." + w == base + ("-" + k + "." + w);
    } else {
      assert base + "" == base;
    }
  }

  lemma {:induction false} HyphenRun(s: string, i: nat, e: nat)
    requires i <= e <= |s| && (forall k | i <= k < e :: s[k] != '-') && (e < |s| ==> s[e] == '-')
    ensures HyphenAt(s, i) == e
    decreases e - i
  {
    if i < e { HyphenRun(s, i + 1, e); }
  }

  /** The two halves of an npm version. */
  lemma NpmHalves(v: Version)
    requires NpmCanonical(v)
    ensures var s := ReleaseText(v.release) + NpmPre(v.pre); var h := HyphenAt(s, 0);
      && SplitOn(s[..h], '.') == Numerals(v.release)
      && (h == |s| <==> v.pre.Final?)
      && (v.pre.Pre? ==> SplitOn(s[h + 1..], '.') == [NpmKind(KindText(v.pre.kind)), NatText(v.pre.number)])
  {
    hide ReleaseText, SplitOn;
    var base := ReleaseText(v.release);
    var s := base + NpmPre(v.pre);
    SplitRelease(v.release);
    assert forall k | 0 <= k < |base| :: s[k] == base[k] && s[k] in base;
    HyphenRun(s, 0, |base|);
    assert s[..|base|] == base;
    if v.pre.Pre? {
      var k, w := NpmKind(KindText(v.pre.kind)), NatText(v.pre.number);
      assert s[|base| + 1..] == k + ['.'] + w;
      SplitFirst(k, '.', w);
      NatTextPlain(v.pre.number);
      SplitPlain(w, '.');
    }
  }

  lemma NpmKinds(k: Kind, l: Kind)
    requires k != Dev && l != Dev
    ensures CompareIdentifier(NpmKind(KindText(k)), NpmKind(KindText(l)))
      == CompareNat(KindRank(Pre(k, 0)), KindRank(Pre(l, 0)))
  {
    var a, b := NpmKind(KindText(k)), NpmKind(KindText(l));
    assert !IsDigit(a[0]) && !IsDigit(b[0]);
    if k == l { TextSame(a); }
  }

  lemma {:induction false} TextSame(a: string)
    ensures CompareText(a, a) == Equal
  {
    if a != "" { TextSame(a[1..]); }
  }

  lemma PairCompare(a: string, x: nat, b: string, y: nat)
    ensures CompareIdentifiers([a, NatText(x)], [b, NatText(y)]) == Then(CompareIdentifier(a, b), CompareNat(x, y))
  {
    hide NatText, CompareText;
    NatTextReads(x);
    NatTextReads(y);
    assert [a, NatText(x)][1..] == [NatText(x)] && [b, NatText(y)][1..] == [NatText(y)];
    assert [NatText(x)][1..] == [] && [NatText(y)][1..] == [];
    assert CompareIdentifiers([NatText(x)], [NatText(y)]) == Then(CompareNat(x, y), CompareIdentifiers([], []));
  }

  /** For versions npm takes, SemVer precedence of the npm versions is the PEP 440 order. */
  lemma NpmVersionKeepsOrder(v: Version, w: Version)
    requires NpmCanonical(v) && NpmCanonical(w)
    ensures NpmVersion(Text(v)).Some? && NpmVersion(Text(w)).Some?
    ensures SemCompare(NpmVersion(Text(v)).value, NpmVersion(Text(w)).value) == PepCompare(v, w)
  {
    hide NpmVersion, Text, ReleaseText, SplitOn, HyphenAt, CompareIdentifiers, CompareIdentifier;
    NpmReads(v);
    NpmReads(w);
    NpmHalves(v);
    NpmHalves(w);
    CompareNumerals(v.release, w.release);
    if v.pre.Pre? && w.pre.Pre? {
      NpmKinds(v.pre.kind, w.pre.kind);
      PairCompare(NpmKind(KindText(v.pre.kind)), v.pre.number, NpmKind(KindText(w.pre.kind)), w.pre.number);
    }
  }

  // ------------------------------------------------------------------ tags

  /** Without one final line break, which the patterns' `$` lets through. */
  function Chomp(s: string): string {
    if s != "" && s[|s| - 1] == '\n' then s[..|s| - 1] else s
  }

  /** What the version pattern took apart puts the text together again. */
  lemma PartsJoin(s: string, p: Parts)
    requires ParseVersion(s, NPM_KINDS) == Some(p)
    ensures Chomp(s) == p.base + p.kind + p.number
    ensures ReleaseEnd(s, 0) == Some(|p.base|) && |p.base| <= |s| && s[..|p.base|] == p.base
    ensures p.kind == "" ==> p.number == ""
    ensures p.kind != "" ==> (p.kind == "a" || p.kind == "b" || p.kind == "rc") && IsNumeric(p.number)
  {
    hide *;
    ParseNeedsRelease(s, NPM_KINDS);
    var e := ReleaseEnd(s, 0).value;
    ParseIs(s, NPM_KINDS, e);
    if AtEnd(s, e) {
      ChompAt(s, e);
      Joins(s[..e], "", "");
    } else {
      KindIsListed(s, e, NPM_KINDS);
      NpmKindsAre(KindAt(s, e, NPM_KINDS).value);
      PreJoins(s, e, KindAt(s, e, NPM_KINDS).value);
    }
  }

  lemma NpmKindsAre(kind: string)
    requires kind in NPM_KINDS
    ensures kind == "a" || kind == "b" || kind == "rc"
  {
  }

  lemma PreJoins(s: string, e: nat, kind: string)
    requires e <= |s| && Starts(s, e, kind)
    requires var n := DigitsEnd(s, e + |kind|); n > e + |kind| && AtEnd(s, n)
    ensures var k := e + |kind|; var n := DigitsEnd(s, k);
      Chomp(s) == s[..e] + kind + s[k..n] && IsNumeric(s[k..n])
  {
    hide DigitsEnd, Chomp, AtEnd;
    var k := e + |kind|;
    DigitsBetween(s, k);
    ChompAt(s, DigitsEnd(s, k));
    ThreeSlices(s, e, k, DigitsEnd(s, k));
  }

  lemma ParseNeedsRelease(s: string, kinds: seq<string>)
    requires ParseVersion(s, kinds).Some?
    ensures ReleaseEnd(s, 0).Some?
  {
  }

  lemma DigitsBetween(s: string, k: nat)
    requires k <= |s| && DigitsEnd(s, k) > k
    ensures IsNumeric(s[k..DigitsEnd(s, k)]) && IsDigit(s[DigitsEnd(s, k) - 1])
  {
    hide DigitsEnd;
  }

  lemma ThreeSlices(s: string, e: nat, k: nat, n: nat)
    requires e <= k <= n <= |s|
    ensures s[..n] == s[..e] + s[e..k] + s[k..n]
  {
  }

  lemma ChompAt(s: string, n: nat)
    requires n <= |s| && AtEnd(s, n) && n > 0 && IsDigit(s[n - 1])
    ensures Chomp(s) == s[..n]
  {
  }

  lemma {:induction false} KindIsListed(s: string, i: nat, kinds: seq<string>)
    requires KindAt(s, i, kinds).Some?
    ensures KindAt(s, i, kinds).value in kinds && Starts(s, i, KindAt(s, i, kinds).value)
  {
    if !Starts(s, i, kinds[0]) { KindIsListed(s, i, kinds[1..]); }
  }

  /** `t` holds at distance `j - i` what `s` holds in `i..n`, and goes on with no more of a release. */
  predicate SameRelease(s: string, i: nat, n: nat, t: string, j: nat) {
    && i <= n <= |s| && j + (n - i) <= |t|
    && (forall k | i <= k < n :: s[k] == t[k - i + j])
    && EndsRelease(t[j + (n - i)..])
  }

  /** A release found at one place is found wherever the same text is followed by no more of it. */
  lemma {:induction false} ReleaseMoves(s: string, i: nat, t: string, j: nat, n: nat)
    requires SameRelease(s, i, n, t, j) && ReleaseEnd(s, i) == Some(n)
    ensures ReleaseEnd(t, j) == Some(j + (n - i))
    decreases n - i
  {
    hide ReleaseEnd;
    var e := DigitsEnd(s, i);
    var f := j + (e - i);
    ReleaseAtLeast(s, i);
    assert forall k | j <= k < f :: t[k] == s[k - j + i];
    FollowsRelease(t, j + (n - i));
    if e < n {
      assert t[f] == s[e] && t[f + 1] == s[e + 1];
      DigitsEndUnique(t, j, f);
      ReleaseStep(t, j, f);
      assert SameRelease(s, e + 1, n, t, f + 1);
      ReleaseMoves(s, e + 1, t, f + 1, n);
    } else {
      DigitsEndUnique(t, j, f);
      ReleaseStep(t, j, f);
    }
  }

  lemma FollowsRelease(t: string, e: nat)
    requires e <= |t| && EndsRelease(t[e..])
    ensures e < |t| ==> !IsDigit(t[e])
    ensures e + 1 < |t| && t[e] == '.' ==> !IsDigit(t[e + 1])
  {
    var rest := t[e..];
    assert rest != "" ==> rest[0] == t[e];
    assert |rest| > 1 ==> rest[1] == t[e + 1];
  }

  lemma ReleaseAtLeast(s: string, i: nat)
    requires i <= |s| && ReleaseEnd(s, i).Some?
    ensures i < DigitsEnd(s, i) <= ReleaseEnd(s, i).value
    ensures DigitsEnd(s, i) < ReleaseEnd(s, i).value ==>
      var e := DigitsEnd(s, i);
      e + 2 <= ReleaseEnd(s, i).value && s[e] == '.' && IsDigit(s[e + 1]) && ReleaseEnd(s, e + 1) == ReleaseEnd(s, i)
  {
  }

  lemma TrimNothing(s: string)
    requires s != "" && !IsSpace(s[0]) && !IsSpace(s[|s| - 1])
    ensures Trim(s, IsSpace) == s
  {
  }

  lemma LabelStep(s: string, j: nat, first: string, rest: seq<string>)
    requires j <= |s|
    ensures Starts(Lower(s), j, first) && TagNumber(s, j + |first|).Some? ==>
      TagLabel(s, j, [first] + rest)
      == var n := TagNumber(s, j + |first|).value; Some(LabelKind(first) + (if n == "" then "0" else n))
    ensures !Starts(Lower(s), j, first) || TagNumber(s, j + |first|).None? ==>
      TagLabel(s, j, [first] + rest) == TagLabel(s, j, rest)
  {
    hide Lower, TagNumber, Starts;
    assert ([first] + rest)[1..] == rest;
  }

  /** A letter cannot be the number of a tag. */
  lemma NoNumber(s: string, k: nat)
    requires k + 1 < |s| && !IsSeparator(s[k]) && !IsDigit(s[k])
    ensures TagNumber(s, k).None?
  {
  }

  /** The pre-release part of a tag reads as the kind and the number it was made from. */
  lemma LabelReads(head: string, kind: string, number: string)
    requires (kind == "a" || kind == "b" || kind == "rc") && IsNumeric(number)
    ensures var s := head + (NpmKind(kind) + "." + number);
      TagLabel(s, |head|, LABELS) == Some(kind + number)
  {
    hide TagLabel, TagNumber, Starts, Lower, IsSeparator, IsDigit;
    var s, j := head + (NpmKind(kind) + "." + number), |head|;
    WordStands(head, NpmKind(kind), number);
    FirstDiffers(Lower(s), j, "a");
    FirstDiffers(Lower(s), j, "alpha");
    FirstDiffers(Lower(s), j, "b");
    FirstDiffers(Lower(s), j, "beta");
    LabelStep(s, j, "a", ["alpha", "b", "beta", "rc", "c", "pre", "preview"]);
    LabelStep(s, j, "alpha", ["b", "beta", "rc", "c", "pre", "preview"]);
    LabelStep(s, j, "b", ["beta", "rc", "c", "pre", "preview"]);
    LabelStep(s, j, "beta", ["rc", "c", "pre", "preview"]);
    LabelStep(s, j, "rc", ["c", "pre", "preview"]);
    LabelLists();
    NumericIsText(number);
  }

  lemma NumericIsText(number: string)
    requires IsNumeric(number)
    ensures number != ""
  {
  }

  /** The word of a tag, its first letter, and what follows either. */
  lemma WordStands(head: string, word: string, number: string)
    requires |word| > 1 && IsNumeric(number) && forall k | 0 <= k < |word| :: 'a' <= word[k] <= 'z'
    ensures var s, j := head + (word + "." + number), |head|;
      && Starts(Lower(s), j, word) && j + |word| < |s| && Lower(s)[j] == word[0]
      && TagNumber(s, j + |word|) == Some(number) && TagNumber(s, j + 1).None?
  {
    hide TagNumber, Starts, Lower, IsNumeric;
    var s, j := head + (word + "." + number), |head|;
    assert s == head + word + ("." + number) && s == head + word + "." + number;
    forall k | 0 <= k < |word|
      ensures LowerChar(word[k]) == word[k] && s[j + k] == word[k]
    {
    }
    LowerAt(s, head, word, "." + number);
    TagNumberReads(head + word, number);
    NoNumber(s, j + 1);
  }

  lemma LabelLists()
    ensures ["a"] + ["alpha", "b", "beta", "rc", "c", "pre", "preview"] == LABELS
    ensures ["alpha"] + ["b", "beta", "rc", "c", "pre", "preview"] == ["alpha", "b", "beta", "rc", "c", "pre", "preview"]
    ensures ["b"] + ["beta", "rc", "c", "pre", "preview"] == ["b", "beta", "rc", "c", "pre", "preview"]
    ensures ["beta"] + ["rc", "c", "pre", "preview"] == ["beta", "rc", "c", "pre", "preview"]
    ensures ["rc"] + ["c", "pre", "preview"] == ["rc", "c", "pre", "preview"]
  {
  }

  lemma TagNumberReads(p: string, number: string)
    requires IsNumeric(number)
    ensures TagNumber(p + "." + number, |p|) == Some(number)
  {
    NumberReads(p + ".", number);
  }

  lemma LowerAt(s: string, head: string, word: string, rest: string)
    requires s == head + word + rest && forall k | 0 <= k < |word| :: LowerChar(word[k]) == word[k]
    ensures Starts(Lower(s), |head|, word)
  {
    var t := Lower(s);
    assert forall k | 0 <= k < |word| :: t[|head| + k] == LowerChar(s[|head| + k]) == word[k];
    assert t[|head|..|head| + |word|] == word;
  }

  lemma NumberReads(p: string, number: string)
    requires IsNumeric(number)
    ensures DigitsEnd(p + number, |p|) == |p + number| && (p + number)[|p|..|p + number|] == number
  {
    var s := p + number;
    assert forall k | |p| <= k < |s| :: s[k] == number[k - |p|];
    DigitsEndUnique(s, |p|, |s|);
  }

  /**
   A release tag is the npm version behind a `v`, and reading it gives the version back: for
   every text `npm_version` takes, canonical or not, up to one final line break.
   */
  lemma TagGivesVersionBack(s: string)
    ensures NpmVersion(s).Some? ==> VersionFromTag("v" + NpmVersion(s).value) == Some(Chomp(s))
  {
    hide VersionFromTag, ParseVersion, Dots, Chomp;
    if NpmVersion(s).Some? {
      var p := ParseVersion(s, NPM_KINDS).value;
      PartsJoin(s, p);
      TagReads(s, p);
      assert p.base + "" == p.base;
      assert p.base + ("-" + NpmKind(p.kind) + "." + p.number) == p.base + "-" + NpmKind(p.kind) + "." + p.number;
    }
  }

  lemma TagReads(s: string, p: Parts)
    requires ReleaseEnd(s, 0) == Some(|p.base|) && |p.base| <= |s| && s[..|p.base|] == p.base
    requires p.kind == "" ==> p.number == ""
    requires p.kind != "" ==> (p.kind == "a" || p.kind == "b" || p.kind == "rc") && IsNumeric(p.number)
    ensures var suffix := if p.kind == "" then "" else "-" + NpmKind(p.kind) + "." + p.number;
      VersionFromTag("v" + (p.base + suffix)) == Some(p.base + p.kind + p.number)
  {
    hide *;
    if p.kind == "" {
      FinalTagReads(s, p.base);
      assert p.base + p.kind + p.number == p.base;
    } else {
      PreTagReads(s, p.base, p.kind, p.number);
    }
  }

  lemma FinalTagReads(s: string, base: string)
    requires ReleaseEnd(s, 0) == Some(|base|) && |base| <= |s| && s[..|base|] == base
    ensures VersionFromTag("v" + (base + "")) == Some(base)
  {
    hide *;
    var t := "v" + (base + "");
    FinalTagShape(base, t);
    TagRelease(s, base, "", t);
    LastOfRelease(s, base);
    TrimNothing(t);
    TagIs(t, 1 + |base|);
  }

  lemma FinalTagShape(base: string, t: string)
    requires t == "v" + (base + "")
    ensures |t| == 1 + |base| && t[0] == 'v' && !IsSpace(t[0]) && t[1..1 + |base|] == base && AtEnd(t, 1 + |base|)
    ensures base != "" ==> t[|t| - 1] == base[|base| - 1]
    ensures EndsRelease("") && NoDigitFirst("")
  {
  }

  lemma LastOfRelease(s: string, base: string)
    requires ReleaseEnd(s, 0) == Some(|base|) && |base| <= |s| && s[..|base|] == base
    ensures base != "" && !IsSpace(base[|base| - 1])
  {
    hide ReleaseEnd;
    assert base[|base| - 1] == s[|base| - 1];
  }

  /** The release of a tag ends where the release of the version does. */
  lemma TagRelease(s: string, base: string, suffix: string, t: string)
    requires ReleaseEnd(s, 0) == Some(|base|) && |base| <= |s| && s[..|base|] == base
    requires t == "v" + (base + suffix) && EndsRelease(suffix)
    ensures ReleaseEnd(t, 1) == Some(1 + |base|)
  {
    hide ReleaseEnd, EndsRelease, SameRelease;
    BaseMoves(s, base, suffix, t);
    ReleaseMoves(s, 0, t, 1, |base|);
  }

  lemma BaseMoves(s: string, base: string, suffix: string, t: string)
    requires |base| <= |s| && s[..|base|] == base && t == "v" + (base + suffix) && EndsRelease(suffix)
    ensures SameRelease(s, 0, |base|, t, 1)
  {
    hide EndsRelease;
    var e := 1 + |base|;
    assert t[1..e] == base && t[e..] == suffix;
    assert forall k | 0 <= k < |base| :: s[k] == s[..|base|][k] == base[k] == t[1..e][k] == t[k + 1];
  }

  lemma PreTagReads(s: string, base: string, kind: string, number: string)
    requires ReleaseEnd(s, 0) == Some(|base|) && |base| <= |s| && s[..|base|] == base
    requires (kind == "a" || kind == "b" || kind == "rc") && IsNumeric(number)
    ensures VersionFromTag("v" + (base + ("-" + NpmKind(kind) + "." + number))) == Some(base + kind + number)
  {
    hide *;
    var suffix := "-" + NpmKind(kind) + "." + number;
    var t := "v" + (base + suffix);
    PreTagShape(base, NpmKind(kind), number, suffix, t);
    TagRelease(s, base, suffix, t);
    TrimNothing(t);
    LabelReads("v" + base + "-", kind, number);
    TagFromPieces(t, base, kind + number);
    Joins(base, kind, number);
  }

  lemma TagFromPieces(t: string, base: string, suffix: string)
    requires 2 + |base| <= |t| && t[0] == 'v' && Trim(t, IsSpace) == t && t[1..1 + |base|] == base
    requires ReleaseEnd(t, 1) == Some(1 + |base|) && !AtEnd(t, 1 + |base|) && SkipSeparator(t, 1 + |base|) == 2 + |base|
    requires TagLabel(t, 2 + |base|, LABELS) == Some(suffix)
    ensures VersionFromTag(t) == Some(base + suffix)
  {
    hide *;
    TagIs(t, 1 + |base|);
  }

  lemma Joins(a: string, b: string, c: string)
    ensures a + (b + c) == a + b + c
  {
  }

  lemma PreTagShape(base: string, word: string, number: string, suffix: string, t: string)
    requires suffix == "-" + word + "." + number && t == "v" + (base + suffix) && IsNumeric(number)
    ensures t == "v" + base + "-" + (word + "." + number) && |"v" + base + "-"| == 2 + |base| <= |t|
    ensures t[0] == 'v' && !IsSpace(t[0]) && !IsSpace(t[|t| - 1]) && t[1..1 + |base|] == base
    ensures !AtEnd(t, 1 + |base|) && SkipSeparator(t, 1 + |base|) == 2 + |base|
    ensures EndsRelease(suffix)
  {
    assert t[|t| - 1] == number[|number| - 1];
    assert t[1 + |base|] == suffix[0] == '-';
  }

  /** What the tag pattern makes of its pieces, on a tag that starts with a `v` and needs no stripping. */
  lemma TagIs(t: string, e: nat)
    requires t != "" && t[0] == 'v' && Trim(t, IsSpace) == t && ReleaseEnd(t, 1) == Some(e) && 1 <= e <= |t|
    ensures VersionFromTag(t) ==
      if AtEnd(t, e) then Some(t[1..e])
      else match TagLabel(t, SkipSeparator(t, e), LABELS)
        case None => None
        case Some(suffix) => Some(t[1..e] + suffix)
  {
    hide ReleaseEnd, TagLabel, Trim;
  }
}
