/**
 The version spellings of the release scripts. A version is read from its PEP 440 text, and
 the orders of PEP 440, Debian Policy (section 5.6.12) and SemVer 2.0.0 (item 11) are defined
 on their own terms: PEP 440 on the parsed version, the other two on text.
 */
module Versions {
  import opened Wrappers
  import opened Decimal
  import opened Texts

  datatype Kind = Dev | A | B | Rc

  datatype Pre = Final | Pre(kind: Kind, number: nat)

  datatype Version = Version(release: seq<nat>, pre: Pre)

  function KindText(k: Kind): string {
    match k
    case Dev => ".dev"
    case A => "a"
    case B => "b"
    case Rc => "rc"
  }

  function ReleaseText(release: seq<nat>): string
    requires release != []
  {
    if |release| == 1 then NatText(release[0]) else NatText(release[0]) + "." + ReleaseText(release[1..])
  }

  /** The canonical PEP 440 text. */
  function Text(v: Version): string
    requires v.release != []
  {
    ReleaseText(v.release) + match v.pre case Final => "" case Pre(k, n) => KindText(k) + NatText(n)
  }

  // ------------------------------------------------------------------ reading versions

  /** The end of `\d+(?:\.\d+)*` at `i`, or `None` where no digit stands. */
  function ReleaseEnd(s: string, i: nat): (r: Option<nat>)
    requires i <= |s|
    ensures r.Some? ==> i < r.value <= |s| && IsDigit(s[r.value - 1]) && (r.value < |s| ==> !IsDigit(s[r.value]))
    decreases |s| - i
  {
    var e := DigitsEnd(s, i);
    if e == i then None
    else if e + 1 < |s| && s[e] == '.' && IsDigit(s[e + 1]) then ReleaseEnd(s, e + 1)
    else Some(e)
  }

  /** Python's `$`: the end, or a final line break. */
  predicate AtEnd(s: string, i: nat) { i == |s| || (i + 1 == |s| && s[i] == '\n') }

  datatype Parts = Parts(base: string, kind: string, number: string)

  /** The first kind of `kinds` that stands at `i`. */
  function KindAt(s: string, i: nat, kinds: seq<string>): Option<string> {
    if kinds == [] then None
    else if Starts(s, i, kinds[0]) then Some(kinds[0])
    else KindAt(s, i, kinds[1..])
  }

  /** `base`, and a kind with its number unless the version is final. */
  function ParseVersion(s: string, kinds: seq<string>): Option<Parts> {
    match ReleaseEnd(s, 0)
    case None => None
    case Some(e) =>
      if AtEnd(s, e) then Some(Parts(s[..e], "", ""))
      else
        match KindAt(s, e, kinds)
        case None => None
        case Some(kind) =>
          var k := e + |kind|;
          if k > |s| then None
          else
            var n := DigitsEnd(s, k);
            if n == k || !AtEnd(s, n) then None else Some(Parts(s[..e], kind, s[k..n]))
  }

  /** `package_version`: how .deb and .rpm spell the version. */
  function PackageVersion(version: string): Option<string> {
    match ParseVersion(version, ["a", "b", "rc", ".dev"])
    case None => None
    case Some(p) =>
      if p.kind == "" then Some(p.base)
      else Some(p.base + "~" + (if p.kind == ".dev" then "dev" else p.kind) + p.number)
  }

  function Dots(s: string): nat {
    if s == "" then 0 else (if s[0] == '.' then 1 else 0) + Dots(s[1..])
  }

  function NpmKind(kind: string): string {
    if kind == "a" then "alpha" else if kind == "b" then "beta" else "rc"
  }

  /** `npm_version`: how npm spells the version; it takes exactly three numbers. */
  function NpmVersion(version: string): Option<string> {
    match ParseVersion(version, ["a", "b", "rc"])
    case None => None
    case Some(p) =>
      if Dots(p.base) != 2 then None
      else if p.kind == "" then Some(p.base)
      else Some(p.base + "-" + NpmKind(p.kind) + "." + p.number)
  }

  const LABELS := ["a", "alpha", "b", "beta", "rc", "c", "pre", "preview"]

  function LabelKind(word: string): string {
    if word == "a" || word == "alpha" then "a" else if word == "b" || word == "beta" then "b" else "rc"
  }

  predicate IsSeparator(c: char) { c == '-' || c == '_' || c == '.' }

  function SkipSeparator(s: string, i: nat): (r: nat)
    requires i <= |s|
    ensures i <= r <= |s|
  {
    if i < |s| && IsSeparator(s[i]) then i + 1 else i
  }

  /** The digits after a word that ends at `k`, when nothing else follows them. */
  function TagNumber(s: string, k: nat): Option<string>
    requires k <= |s|
  {
    var d := SkipSeparator(s, k);
    var n := DigitsEnd(s, d);
    if AtEnd(s, n) then Some(s[d..n]) else None
  }

  /** The alternatives of the word group, tried in order, case ignored. */
  function TagLabel(s: string, j: nat, labels: seq<string>): Option<string>
    requires j <= |s|
  {
    if labels == [] then None
    else
      var word := labels[0];
      if Starts(Lower(s), j, word) && TagNumber(s, j + |word|).Some? then
        var number := TagNumber(s, j + |word|).value;
        Some(LabelKind(word) + (if number == "" then "0" else number))
      else TagLabel(s, j, labels[1..])
  }

  /** `version_from_tag` */
  function VersionFromTag(tag: string): Option<string> {
    var s := Trim(tag, IsSpace);
    var i := if s != "" && LowerChar(s[0]) == 'v' then 1 else 0;
    match ReleaseEnd(s, i)
    case None => None
    case Some(e) =>
      if AtEnd(s, e) then Some(s[i..e])
      else
        match TagLabel(s, SkipSeparator(s, e), LABELS)
        case None => None
        case Some(suffix) => Some(s[i..e] + suffix)
  }

  // ------------------------------------------------------------------ the three orders

  datatype Order = Less | Equal | Greater

  function CompareNat(x: int, y: int): Order {
    if x < y then Less else if x > y then Greater else Equal
  }

  function Then(first: Order, second: Order): Order { if first == Equal then second else first }

  /** Releases with equally many numbers. */
  function CompareRelease(r: seq<nat>, q: seq<nat>): Order
    requires |r| == |q|
  {
    if r == [] then Equal else Then(CompareNat(r[0], q[0]), CompareRelease(r[1..], q[1..]))
  }

  function KindRank(p: Pre): nat {
    match p
    case Final => 4
    case Pre(Dev, _) => 0
    case Pre(A, _) => 1
    case Pre(B, _) => 2
    case Pre(Rc, _) => 3
  }

  function ComparePre(p: Pre, q: Pre): Order {
    Then(CompareNat(KindRank(p), KindRank(q)), if p.Pre? && q.Pre? then CompareNat(p.number, q.number) else Equal)
  }

  /** PEP 440: development releases before a, b, rc and the final release. */
  function PepCompare(v: Version, w: Version): Order
    requires |v.release| == |w.release|
  {
    Then(CompareRelease(v.release, w.release), ComparePre(v.pre, w.pre))
  }

  function NonDigitsEnd(s: string, i: nat): (e: nat)
    requires i <= |s|
    ensures i <= e <= |s|
    ensures e < |s| ==> IsDigit(s[e])
    ensures i < |s| && !IsDigit(s[i]) ==> i < e
    decreases |s| - i
  {
    if i < |s| && !IsDigit(s[i]) then NonDigitsEnd(s, i + 1) else i
  }

  /** A tilde before everything, even the end of a part; letters before other characters. */
  function DebRank(s: string): int {
    if s == "" then 0
    else if s[0] == '~' then -1
    else if 'A' <= s[0] <= 'Z' || 'a' <= s[0] <= 'z' then s[0] as int
    else s[0] as int + 0x11_0000
  }

  function DebLexical(a: string, b: string): Order {
    if a == "" && b == "" then Equal
    else if DebRank(a) != DebRank(b) || a == "" || b == "" then CompareNat(DebRank(a), DebRank(b))
    else DebLexical(a[1..], b[1..])
  }

  /** Debian Policy section 5.6.12: non-digit and digit parts in turn. */
  function DebCompare(a: string, b: string): Order
    decreases |a| + |b|
  {
    if a == "" && b == "" then Equal
    else
      var na, nb := NonDigitsEnd(a, 0), NonDigitsEnd(b, 0);
      var da, db := DigitsEnd(a, na), DigitsEnd(b, nb);
      assert AllDigits(a[na..da]) && AllDigits(b[nb..db]);
      Then(DebLexical(a[..na], b[..nb]),
           Then(CompareNat(NatOf(a[na..da]), NatOf(b[nb..db])), DebCompare(a[da..], b[db..])))
  }

  function SplitOn(s: string, c: char): (r: seq<string>)
    ensures |r| >= 1
  {
    if s == "" then [""]
    else if s[0] == c then [""] + SplitOn(s[1..], c)
    else
      var rest := SplitOn(s[1..], c);
      [[s[0]] + rest[0]] + rest[1..]
  }

  function CompareText(a: string, b: string): Order {
    if a == "" || b == "" then CompareNat(|a|, |b|)
    else Then(CompareNat(a[0] as int, b[0] as int), CompareText(a[1..], b[1..]))
  }

  predicate IsNumeric(id: string) { id != "" && AllDigits(id) }

  /** Numeric identifiers by value and before alphanumeric ones, which compare in ASCII order. */
  function CompareIdentifier(a: string, b: string): Order {
    if IsNumeric(a) && IsNumeric(b) then CompareNat(NatOf(a), NatOf(b))
    else if IsNumeric(a) then Less
    else if IsNumeric(b) then Greater
    else CompareText(a, b)
  }

  function CompareIdentifiers(a: seq<string>, b: seq<string>): Order {
    if a == [] || b == [] then CompareNat(|a|, |b|)
    else Then(CompareIdentifier(a[0], b[0]), CompareIdentifiers(a[1..], b[1..]))
  }

  /** The core version and the pre-release part, if any, at the first hyphen. */
  function HyphenAt(s: string, i: nat): (r: nat)
    requires i <= |s|
    ensures i <= r <= |s|
    decreases |s| - i
  {
    if i < |s| && s[i] != '-' then HyphenAt(s, i + 1) else i
  }

  /** SemVer 2.0.0 item 11, on versions without build metadata. */
  function SemCompare(a: string, b: string): Order {
    var ha, hb := HyphenAt(a, 0), HyphenAt(b, 0);
    Then(CompareIdentifiers(SplitOn(a[..ha], '.'), SplitOn(b[..hb], '.')),
         if ha == |a| || hb == |b| then CompareNat(if ha == |a| then 1 else 0, if hb == |b| then 1 else 0)
         else CompareIdentifiers(SplitOn(a[ha + 1..], '.'), SplitOn(b[hb + 1..], '.')))
  }
}
