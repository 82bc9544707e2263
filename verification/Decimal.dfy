/** Decimal numerals: printing, reading back, and runs of digits inside a longer text. */
module Decimal {
  import opened Texts

  predicate AllDigits(s: string) { forall k | 0 <= k < |s| :: IsDigit(s[k]) }

  function Digit(d: nat): char
    requires d < 10
  {
    ('0' as int + d) as char
  }

  function NatText(n: nat): (s: string)
    ensures |s| > 0 && AllDigits(s)
  {
    if n < 10 then [Digit(n)] else NatText(n / 10) + [Digit(n % 10)]
  }

  function NatOf(s: string): nat
    requires AllDigits(s)
  {
    if s == [] then 0 else 10 * NatOf(s[..|s| - 1]) + (s[|s| - 1] as int - '0' as int)
  }

  /** No superfluous leading zero. */
  predicate Canonical(s: string) { |s| > 0 && AllDigits(s) && (s[0] == '0' ==> |s| == 1) }

  lemma {:induction false} NatTextReads(n: nat)
    ensures NatOf(NatText(n)) == n
    ensures Canonical(NatText(n))
    ensures n > 0 ==> NatText(n)[0] != '0'
  {
    if n >= 10 {
      NatTextReads(n / 10);
      assert NatText(n)[..|NatText(n)| - 1] == NatText(n / 10);
    }
  }

  /** The first offset at or after `i` that holds no digit. */
  function DigitsEnd(s: string, i: nat): (e: nat)
    requires i <= |s|
    ensures i <= e <= |s|
    ensures forall k | i <= k < e :: IsDigit(s[k])
    ensures e < |s| ==> !IsDigit(s[e])
    decreases |s| - i
  {
    if i < |s| && IsDigit(s[i]) then DigitsEnd(s, i + 1) else i
  }

  lemma DigitsEndUnique(s: string, i: nat, e: nat)
    requires i <= e <= |s| && forall k | i <= k < e :: IsDigit(s[k])
    requires e < |s| ==> !IsDigit(s[e])
    ensures DigitsEnd(s, i) == e
  {
  }
}
