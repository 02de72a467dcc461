/**
  Decimal rendering of non-negative integers, as a JavaScript template
  literal `${n}` produces it for an integral number below 10^21, and its
  inverse. From 10^21 on JavaScript switches to exponent notation; the
  numbers rendered here (timer minutes and seconds, HTTP statuses) stay far
  below that.
 */
module Decimal {

  predicate IsDigit(c: char) {
    '0' <= c <= '9'
  }

  predicate AllDigits(s: string) {
    forall i :: 0 <= i < |s| ==> IsDigit(s[i])
  }

  /** A canonical numeral: digits only, and no leading zero unless it is "0". */
  predicate IsNumeral(s: string) {
    && |s| >= 1
    && AllDigits(s)
    && (s[0] == '0' ==> |s| == 1)
  }

  function DigitChar(d: nat): (c: char)
    requires d < 10
    ensures IsDigit(c)
  {
    (d + '0' as int) as char
  }

  function DigitValue(c: char): (d: nat)
    requires IsDigit(c)
    ensures d < 10
  {
    (c as int) - ('0' as int)
  }

  /** The numeric value of a string of digits, most significant first. */
  function Value(s: string): nat
    requires AllDigits(s)
  {
    if s == [] then 0 else Value(s[..|s| - 1]) * 10 + DigitValue(s[|s| - 1])
  }

  /** `${n}` for `n` below 10^21: the shortest decimal numeral of `n`. */
  function Render(n: nat): (s: string)
    ensures IsNumeral(s)
    ensures |s| == 1 <==> n < 10
  {
    if n < 10 then [DigitChar(n)] else Render(n / 10) + [DigitChar(n % 10)]
  }

  /** A single digit followed by two zeros, such as the status 500. */
  lemma {:induction false} RenderHundreds(d: nat)
    requires 1 <= d < 10
    ensures Render(d * 100) == [DigitChar(d), '0', '0']
  {
    assert Render(d * 10) == [DigitChar(d)] + [DigitChar(0)];
    assert Render(d * 100) == Render(d * 10) + [DigitChar(0)];
  }

  /** Reading back a rendered number gives the number. */
  lemma {:induction false} ValueOfRender(n: nat)
    ensures Value(Render(n)) == n
  {
    if n >= 10 {
      var s := Render(n);
      assert s[..|s| - 1] == Render(n / 10);
      ValueOfRender(n / 10);
    }
  }

  /** Rendering is injective: distinct numbers print differently. */
  lemma {:induction false} RenderInjective(m: nat, n: nat)
    requires Render(m) == Render(n)
    ensures m == n
  {
    ValueOfRender(m);
    ValueOfRender(n);
  }
}
