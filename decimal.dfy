/** Decimal rendering of natural numbers, as a JavaScript template literal renders a
    non-negative integer (`${n}`) below 10^21 (above that it switches to exponent notation;
    every array length and index is far below it), and the labels built from it ("col3",
    "row2", "Name 4"). */
module Decimal {

  predicate IsDigit(c: char) {
    '0' <= c <= '9'
  }

  predicate AllDigits(s: string) {
    forall i :: 0 <= i < |s| ==> IsDigit(s[i])
  }

  function DigitChar(d: nat): (c: char)
    requires d < 10
    ensures IsDigit(c) && c as int - '0' as int == d
  {
    ('0' as int + d) as char
  }

  /** The shortest decimal representation of `n`, most significant digit first. */
  function NatToString(n: nat): (s: string)
    ensures |s| >= 1 && AllDigits(s)
    ensures |s| > 1 ==> s[0] != '0'
  {
    if n < 10 then [DigitChar(n)] else NatToString(n / 10) + [DigitChar(n % 10)]
  }

  /** The value of a string of decimal digits: the reference reading of `NatToString`. */
  function DigitsValue(s: string): nat
    requires AllDigits(s)
  {
    if s == [] then 0 else DigitsValue(s[..|s| - 1]) * 10 + (s[|s| - 1] as int - '0' as int)
  }

  lemma {:induction false} DigitsValueOfNatToString(n: nat)
    ensures DigitsValue(NatToString(n)) == n
  {
    var s := NatToString(n);
    if n >= 10 {
      assert s[..|s| - 1] == NatToString(n / 10);
      DigitsValueOfNatToString(n / 10);
    }
  }

  lemma NatToStringInjective(a: nat, b: nat)
    requires NatToString(a) == NatToString(b)
    ensures a == b
  {
    DigitsValueOfNatToString(a);
    DigitsValueOfNatToString(b);
  }

  /** A prefix followed by a number, as in `col${k}`. */
  function Label(prefix: string, k: nat): string {
    prefix + NatToString(k)
  }

  lemma LabelInjective(prefix: string, a: nat, b: nat)
    requires Label(prefix, a) == Label(prefix, b)
    ensures a == b
  {
    assert NatToString(a) == Label(prefix, a)[|prefix|..];
    assert NatToString(b) == Label(prefix, b)[|prefix|..];
    NatToStringInjective(a, b);
  }

  /** The labels prefix1, prefix2, ..., prefixN in order. */
  function Labels(prefix: string, n: nat): (r: seq<string>)
    ensures |r| == n
    ensures forall k :: 0 <= k < n ==> r[k] == Label(prefix, k + 1)
  {
    if n == 0 then [] else Labels(prefix, n - 1) + [Label(prefix, n)]
  }

  lemma LabelInLabels(prefix: string, m: nat, n: nat)
    ensures Label(prefix, m) in Labels(prefix, n) <==> 1 <= m <= n
  {
    var r := Labels(prefix, n);
    if Label(prefix, m) in r {
      var k :| 0 <= k < n && r[k] == Label(prefix, m);
      LabelInjective(prefix, m, k + 1);
    }
    if 1 <= m <= n {
      assert r[m - 1] == Label(prefix, m);
    }
  }
}
