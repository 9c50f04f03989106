/** Decimal text, as strconv and fmt print it and the id parser reads it. */
module Decimal {

  predicate IsDigit(c: char) {
    '0' <= c <= '9'
  }

  predicate AllDigits(s: string) {
    forall i :: 0 <= i < |s| ==> IsDigit(s[i])
  }

  function Digit(d: nat): (c: char)
    requires d < 10
    ensures IsDigit(c) && c as int - '0' as int == d
  {
    '0' + d as char
  }

  function Format(n: nat): (s: string)
    ensures |s| > 0
  {
    if n < 10 then [Digit(n)] else Format(n / 10) + [Digit(n % 10)]
  }

  /** The number a digit string denotes, without any width limit. */
  function Value(s: string): nat
    requires AllDigits(s)
  {
    if s == [] then 0 else Value(s[..|s| - 1]) * 10 + (s[|s| - 1] as int - '0' as int)
  }

  lemma {:induction false} FormatDigits(n: nat)
    ensures AllDigits(Format(n))
  {
    if n >= 10 {
      FormatDigits(n / 10);
    }
  }

  /** Printing and reading back gives the same number. */
  lemma {:induction false} ValueFormat(n: nat)
    ensures AllDigits(Format(n)) && Value(Format(n)) == n
  {
    FormatDigits(n);
    if n < 10 {
      assert Format(n)[..0] == [];
    } else {
      ValueFormat(n / 10);
      assert Format(n)[..|Format(n)| - 1] == Format(n / 10);
    }
  }

  lemma FormatInjective(m: nat, n: nat)
    requires Format(m) == Format(n)
    ensures m == n
  {
    ValueFormat(m);
    ValueFormat(n);
  }
}
