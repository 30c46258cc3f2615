/**
 * Decimal rendering of a count, as Java's `Long.toString` produces it for a
 * non-negative value: the shortest string of digits, most significant first.
 */
module Decimal {
  predicate IsDigit(c: char) {
    '0' <= c <= '9'
  }

  function DigitChar(d: nat): (c: char)
    requires d < 10
    ensures IsDigit(c) && c as int - '0' as int == d
  {
    ('0' as int + d) as char
  }

  function DigitValue(c: char): (d: nat)
    requires IsDigit(c)
    ensures d < 10
  {
    c as int - '0' as int
  }

  predicate AllDigits(s: string) {
    forall i | 0 <= i < |s| :: IsDigit(s[i])
  }

  /** The decimal text of `n`, most significant digit first. */
  function Digits(n: nat): (s: string)
    ensures |s| >= 1 && IsDigit(s[|s| - 1])
    decreases n
  {
    if n < 10 then [DigitChar(n)] else Digits(n / 10) + [DigitChar(n % 10)]
  }

  /** The text is made of digits only and has no leading zero. */
  lemma {:induction false} DigitsCanonical(n: nat)
    ensures AllDigits(Digits(n))
    ensures Digits(n)[0] == '0' <==> n == 0
    ensures n == 0 ==> Digits(n) == "0"
    decreases n
  {
    if n >= 10 {
      DigitsCanonical(n / 10);
    }
  }

  /** Reads a string of digits back as a number, most significant first. */
  function ParseDigits(s: string): nat
    requires AllDigits(s)
    decreases |s|
  {
    if s == [] then 0 else ParseDigits(s[..|s| - 1]) * 10 + DigitValue(s[|s| - 1])
  }

  /** Reading the rendered text back gives the number that was rendered. */
  lemma {:induction false} ParseDigitsInverts(n: nat)
    ensures AllDigits(Digits(n)) && ParseDigits(Digits(n)) == n
    decreases n
  {
    DigitsCanonical(n);
    if n >= 10 {
      var p := Digits(n / 10);
      assert Digits(n)[..|p|] == p;
      ParseDigitsInverts(n / 10);
    }
  }

  /** Different counts are rendered as different texts. */
  lemma DigitsInjective(m: nat, n: nat)
    requires Digits(m) == Digits(n)
    ensures m == n
  {
    ParseDigitsInverts(m);
    ParseDigitsInverts(n);
  }
}
