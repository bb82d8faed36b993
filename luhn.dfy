/** The checksum of a South African identity number: the Luhn formula of
    ISO/IEC 7812-1, Annex B, over the first thirteen characters, scanned
    from the last (index 12) to the first, doubling every second digit. */
module Luhn {
  import opened Decimal

  /** What one digit contributes: itself, or, when doubled, the sum of the
      decimal digits of its double (the source subtracts 9 from a double
      above 9, which is the same). */
  function LuhnTerm(d: nat, double: bool): (t: nat)
    requires d <= 9
    ensures t <= 9
    ensures t == if double then (2 * d) / 10 + (2 * d) % 10 else d
  {
    if double then (if 2 * d > 9 then 2 * d - 9 else 2 * d) else d
  }

  /** Character i exists and is a digit, so `parseInt(id.charAt(i), 10)` is a number. */
  predicate DigitAt(id: string, i: int) {
    0 <= i < |id| && IsDigit(id[i])
  }

  /** The characters 0..12 all exist and are digits. */
  predicate HasDigitPrefix(id: string) {
    |id| >= 13 && forall j :: 0 <= j < 13 ==> IsDigit(id[j])
  }

  /** The running sum the checksum loop still has to add when it reaches
      index i with the doubling flag `double`: the terms for indices i down
      to 0, the flag toggling at every index. */
  function LuhnSum(id: string, i: int, double: bool): (s: nat)
    requires -1 <= i < |id|
    requires forall j :: 0 <= j <= i ==> IsDigit(id[j])
    ensures s <= 9 * (i + 1)
    decreases i + 1
  {
    if i < 0 then 0
    else LuhnTerm(DigitValue(id[i]), double) + LuhnSum(id, i - 1, !double)
  }

  /** The whole checksum sum, starting at index 12 undoubled. */
  function ChecksumSum(id: string): (s: nat)
    requires HasDigitPrefix(id)
  {
    LuhnSum(id, 12, false)
  }

  /** The source's verdict. A missing or non-digit character makes
      `parseInt` yield NaN, which poisons the sum, so such an id fails. */
  predicate ChecksumHolds(id: string) {
    HasDigitPrefix(id) && ChecksumSum(id) % 10 == 0
  }

  /** Reference reading of the sum, left to right: exactly the odd indices
      1, 3, ..., 11 are doubled and the even ones, index 12 among them, are not. */
  function OddDoubledSum(id: string, n: nat): nat
    requires n <= |id|
    requires forall j :: 0 <= j < n ==> IsDigit(id[j])
  {
    if n == 0 then 0
    else OddDoubledSum(id, n - 1) + LuhnTerm(DigitValue(id[n - 1]), (n - 1) % 2 == 1)
  }

  /** The scan with its toggling flag doubles exactly the odd indices. */
  lemma {:induction false} LuhnSumDoublesOddIndices(id: string, i: int, double: bool)
    requires -1 <= i < |id|
    requires forall j :: 0 <= j <= i ==> IsDigit(id[j])
    requires double == (i % 2 == 1)
    ensures LuhnSum(id, i, double) == OddDoubledSum(id, i + 1)
    decreases i + 1
  {
    if i >= 0 {
      LuhnSumDoublesOddIndices(id, i - 1, !double);
    }
  }

  /** The checksum sum equals the left-to-right reading, and lies in 0..117. */
  lemma ChecksumSumShape(id: string)
    requires HasDigitPrefix(id)
    ensures ChecksumSum(id) == OddDoubledSum(id, 13)
    ensures 0 <= ChecksumSum(id) <= 117
  {
    LuhnSumDoublesOddIndices(id, 12, false);
  }

  /** Two ids that agree on indices 0..i have the same sum over them. */
  lemma {:induction false} LuhnSumAgree(a: string, b: string, i: int, double: bool)
    requires -1 <= i < |a| && i < |b|
    requires forall j :: 0 <= j <= i ==> IsDigit(a[j]) && a[j] == b[j]
    ensures LuhnSum(a, i, double) == LuhnSum(b, i, double)
    decreases i + 1
  {
    if i >= 0 {
      LuhnSumAgree(a, b, i - 1, !double);
    }
  }

  /** Changing only the last digit (index 12, which enters undoubled) of an
      id whose checksum holds makes the checksum fail. */
  lemma {:induction false} LastDigitChangeBreaksChecksum(id: string, other: string)
    requires ChecksumHolds(id)
    requires |other| == |id| && IsDigit(other[12]) && other[12] != id[12]
    requires forall j :: 0 <= j < |id| && j != 12 ==> other[j] == id[j]
    ensures !ChecksumHolds(other)
  {
    assert HasDigitPrefix(other);
    LastDigitShift(id, other);
    NearMultipleOfTen(ChecksumSum(id), ChecksumSum(other));
  }

  /** Only the undoubled last term differs between the two sums. */
  lemma {:induction false} LastDigitShift(id: string, other: string)
    requires HasDigitPrefix(id) && HasDigitPrefix(other)
    requires forall j :: 0 <= j < 12 ==> other[j] == id[j]
    requires other[12] != id[12]
    ensures ChecksumSum(other) != ChecksumSum(id)
    ensures -9 <= ChecksumSum(other) - ChecksumSum(id) <= 9
  {
    LuhnSumAgree(id, other, 11, true);
    assert DigitValue(id[12]) != DigitValue(other[12]);
  }

  lemma NearMultipleOfTen(x: int, y: int)
    requires x % 10 == 0 && x != y && -9 <= x - y <= 9
    ensures y % 10 != 0
  {
  }

  /** Characters i+1..12 all exist and are digits: no NaN has entered
      the sum of the loop yet. */
  predicate DigitsAbove(id: string, i: int) {
    forall j :: i < j <= 12 ==> DigitAt(id, j)
  }

  lemma DigitsAboveAll(id: string)
    ensures DigitsAbove(id, -1) <==> HasDigitPrefix(id)
  {
    if DigitsAbove(id, -1) {
      assert DigitAt(id, 12);
      forall j | 0 <= j < 13 ensures IsDigit(id[j]) {
        assert DigitAt(id, j);
      }
    }
    if HasDigitPrefix(id) {
      forall j | -1 < j <= 12 ensures DigitAt(id, j) {
        assert IsDigit(id[j]);
      }
    }
  }

  /** `isValidChecksum`: the loop over indices 12 down to 0. */
  method IsValidChecksum(id: string) returns (ok: bool)
    ensures ok == ChecksumHolds(id)
  {
    var sum := 0;
    var isNaN := false;
    var shouldDouble := false;
    var i := 12;
    while i >= 0
      invariant -1 <= i <= 12
      invariant shouldDouble == ((12 - i) % 2 == 1)
      invariant isNaN == !DigitsAbove(id, i)
      invariant !isNaN && HasDigitPrefix(id) ==>
                  sum + LuhnSum(id, i, shouldDouble) == ChecksumSum(id)
      decreases i + 1
    {
      if DigitAt(id, i) {
        var digit := DigitValue(id[i]);
        if shouldDouble {
          digit := digit * 2;
          if digit > 9 {
            digit := digit - 9;
          }
        }
        sum := sum + digit;
      } else {
        isNaN := true;
      }
      shouldDouble := !shouldDouble;
      i := i - 1;
    }
    DigitsAboveAll(id);
    if !isNaN {
      assert LuhnSum(id, i, shouldDouble) == 0;
      assert sum == ChecksumSum(id);
    }
    ok := !isNaN && sum % 10 == 0;
  }
}
