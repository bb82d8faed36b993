/** Decimal digits and the base-10 reading of a digit string, as the
    validator uses them: the regular-expression class `\d` (ASCII digits
    only) and `parseInt(s, 10)` applied to a substring made only of digits. */
module Decimal {

  /** An ASCII decimal digit, the characters matched by `\d`. */
  predicate IsDigit(c: char) {
    '0' <= c <= '9'
  }

  predicate AllDigits(s: string) {
    forall i :: 0 <= i < |s| ==> IsDigit(s[i])
  }

  /** The numeric value of a digit character; the digit is the character
      at that position of "0123456789". */
  function DigitValue(c: char): (v: nat)
    requires IsDigit(c)
    ensures v <= 9 && "0123456789"[v] == c
  {
    (c as int) - ('0' as int)
  }

  function Pow10(n: nat): nat {
    if n == 0 then 1 else 10 * Pow10(n - 1)
  }

  /** `parseInt(s, 10)` on a string of digits: the digits read most
      significant first. A string of n digits denotes a value below 10^n.
      The empty string gives 0 here, where `parseInt("")` gives NaN; the
      validator never parses an empty field (`Field` requires lo < hi). */
  function ParseDecimal(s: string): (v: nat)
    requires AllDigits(s)
    ensures v < Pow10(|s|)
  {
    if |s| == 0 then 0
    else
      assert AllDigits(s[..|s| - 1]);
      10 * ParseDecimal(s[..|s| - 1]) + DigitValue(s[|s| - 1])
  }

  /** A two-digit string reads as ten times its first digit plus its second. */
  lemma ParseTwoDigits(s: string)
    requires |s| == 2 && AllDigits(s)
    ensures ParseDecimal(s) == 10 * DigitValue(s[0]) + DigitValue(s[1])
  {
    assert s[..1][..0] == [];
    assert s[..1][0] == s[0];
  }
}
