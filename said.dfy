/** `isValidSAID`: validation of a South African identity number
    YYMMDD GGGG C A Z (birth date, gender segment, citizenship digit, a
    digit with no check of its own, which enters the Luhn sum doubled,
    check digit). The checks run in the
    source's order and the first one that fails decides the outcome. The
    clock reading of the source is the parameter `currentYear`. */
module IdentityValidator {
  import opened Decimal
  import opened Calendar
  import opened Luhn

  /** Which check rejected an id. */
  datatype Reason =
    | NotThirteenDigits
    | InvalidDate
    | GenderOutOfRange
    | InvalidCitizenshipDigit
    | ChecksumMismatch

  datatype Verdict = Accepted | Rejected(reason: Reason)

  /** The regular expression /^\d{13}$/: exactly thirteen ASCII digits. */
  predicate IsThirteenDigits(id: string) {
    |id| == 13 && AllDigits(id)
  }

  /** `parseInt(id.substring(lo, hi), 10)` on an id of thirteen digits. */
  function Field(id: string, lo: nat, hi: nat): (v: nat)
    requires IsThirteenDigits(id) && lo < hi <= 13
    ensures v < Pow10(hi - lo)
  {
    assert AllDigits(id[lo..hi]);
    ParseDecimal(id[lo..hi])
  }

  function BirthYearTwoDigits(id: string): nat requires IsThirteenDigits(id) { Field(id, 0, 2) }
  function BirthMonth(id: string): nat requires IsThirteenDigits(id) { Field(id, 2, 4) }
  function BirthDay(id: string): nat requires IsThirteenDigits(id) { Field(id, 4, 6) }
  function GenderSegment(id: string): nat requires IsThirteenDigits(id) { Field(id, 6, 10) }
  function Citizenship(id: string): char requires IsThirteenDigits(id) { id[10] }

  /** `currentYear % 100` with JavaScript's `%`: the remainder of
      truncating division, which takes the sign of the dividend. */
  function TwoDigitYear(currentYear: int): (r: int)
    ensures -100 < r < 100
    ensures (currentYear - r) % 100 == 0
    ensures currentYear >= 0 ==> r >= 0
    ensures currentYear < 0 ==> r <= 0
  {
    if currentYear >= 0 then currentYear % 100 else -((-currentYear) % 100)
  }

  /** The century pivot: years up to the current two-digit year are 20yy,
      later ones 19yy. */
  function FullYear(yy: int, currentYear: int): (y: int)
    requires 0 <= yy <= 99
    ensures 1900 <= y <= 2099 && y % 100 == yy
    ensures y >= 2000 <==> yy <= TwoDigitYear(currentYear)
  {
    yy + (if yy <= TwoDigitYear(currentYear) then 2000 else 1900)
  }

  function BirthFullYear(id: string, currentYear: int): int requires IsThirteenDigits(id) {
    FullYear(BirthYearTwoDigits(id), currentYear)
  }

  predicate DateCheck(id: string, currentYear: int) requires IsThirteenDigits(id) {
    IsValidDate(BirthFullYear(id, currentYear), BirthMonth(id), BirthDay(id))
  }

  predicate GenderCheck(id: string) requires IsThirteenDigits(id) {
    !(GenderSegment(id) < 0 || GenderSegment(id) > 9999)
  }

  predicate CitizenshipCheck(id: string) requires IsThirteenDigits(id) {
    Citizenship(id) == '0' || Citizenship(id) == '1'
  }

  /** The early-return chain of `isValidSAID`, reporting the check that
      returned false. */
  function Validate(id: string, currentYear: int): Verdict {
    if !IsThirteenDigits(id) then Rejected(NotThirteenDigits)
    else if !DateCheck(id, currentYear) then Rejected(InvalidDate)
    else if !GenderCheck(id) then Rejected(GenderOutOfRange)
    else if !CitizenshipCheck(id) then Rejected(InvalidCitizenshipDigit)
    else if !ChecksumHolds(id) then Rejected(ChecksumMismatch)
    else Accepted
  }

  /** `isValidSAID(id)` with the clock reading `currentYear`. */
  predicate IsValidSAID(id: string, currentYear: int) {
    Validate(id, currentYear) == Accepted
  }

  /** The gender segment is four digits, so its range check always passes. */
  lemma GenderCheckAlwaysPasses(id: string)
    requires IsThirteenDigits(id)
    ensures 0 <= GenderSegment(id) <= 9999 && GenderCheck(id)
  {
    assert Pow10(4) == 10000;
  }

  /** The source's date test inside the validator, `new Date` round trip,
      agrees with the Gregorian rule the model uses: the full year is never
      in 0..99. */
  lemma DateCheckIsSourceDateTest(id: string, currentYear: int)
    requires IsThirteenDigits(id)
    ensures DateCheck(id, currentYear)
            <==> DateRoundTrips(BirthFullYear(id, currentYear), BirthMonth(id), BirthDay(id))
  {
    DateRoundTripsIffValid(BirthFullYear(id, currentYear), BirthMonth(id), BirthDay(id));
  }

  /** An id is accepted exactly when it is thirteen digits, its birth date
      (with the pivoted century) is a real date, its citizenship digit is 0
      or 1 and its Luhn sum is a multiple of ten. */
  lemma AcceptedIff(id: string, currentYear: int)
    ensures IsValidSAID(id, currentYear)
            <==> IsThirteenDigits(id)
                 && IsValidDate(BirthFullYear(id, currentYear), BirthMonth(id), BirthDay(id))
                 && id[10] in {'0', '1'}
                 && ChecksumSum(id) % 10 == 0
  {
    if IsThirteenDigits(id) {
      GenderCheckAlwaysPasses(id);
    }
  }

  /** An accepted id names a real date between 1900 and 2099: its month is
      1..12 and its day lies within the month under the leap-year rule. */
  lemma AcceptedBirthDate(id: string, currentYear: int)
    requires IsValidSAID(id, currentYear)
    ensures var y, m, d := BirthFullYear(id, currentYear), BirthMonth(id), BirthDay(id);
            1900 <= y <= 2099 && y % 100 == BirthYearTwoDigits(id)
            && 1 <= m <= 12 && 1 <= d <= DaysInMonth(y, m)
            && DateRoundTrips(y, m, d)
  {
    DateCheckIsSourceDateTest(id, currentYear);
  }

  /** Each rejection reason is the first check in source order that fails;
      the gender check never rejects. */
  lemma RejectionIsFirstFailure(id: string, currentYear: int)
    ensures Validate(id, currentYear) == Rejected(NotThirteenDigits)
            <==> !IsThirteenDigits(id)
    ensures Validate(id, currentYear) == Rejected(InvalidDate)
            <==> IsThirteenDigits(id) && !DateCheck(id, currentYear)
    ensures Validate(id, currentYear) != Rejected(GenderOutOfRange)
    ensures Validate(id, currentYear) == Rejected(InvalidCitizenshipDigit)
            <==> IsThirteenDigits(id) && DateCheck(id, currentYear) && id[10] !in {'0', '1'}
    ensures Validate(id, currentYear) == Rejected(ChecksumMismatch)
            <==> IsThirteenDigits(id) && DateCheck(id, currentYear) && id[10] in {'0', '1'}
                 && ChecksumSum(id) % 10 != 0
  {
    if IsThirteenDigits(id) {
      GenderCheckAlwaysPasses(id);
    }
  }

  /** Changing only the check digit of an accepted id to another digit
      makes it fail on the checksum, with every earlier check still passing. */
  lemma LastDigitChangeRejected(id: string, other: string, currentYear: int)
    requires IsValidSAID(id, currentYear)
    requires |other| == 13 && IsDigit(other[12]) && other[12] != id[12]
    requires forall j :: 0 <= j < 12 ==> other[j] == id[j]
    ensures Validate(other, currentYear) == Rejected(ChecksumMismatch)
  {
    assert IsThirteenDigits(id);
    assert IsThirteenDigits(other) by {
      forall j | 0 <= j < 13 ensures IsDigit(other[j]) {
        if j < 12 {
          assert other[j] == id[j];
        }
      }
    }
    FieldsAgree(id, other, 0, 2);
    FieldsAgree(id, other, 2, 4);
    FieldsAgree(id, other, 4, 6);
    LastDigitChangeBreaksChecksum(id, other);
    GenderCheckAlwaysPasses(other);
  }

  /** A field depends only on the characters it spans. */
  lemma FieldsAgree(a: string, b: string, lo: nat, hi: nat)
    requires IsThirteenDigits(a) && IsThirteenDigits(b) && lo < hi <= 12
    requires forall j :: 0 <= j < 12 ==> a[j] == b[j]
    ensures Field(a, lo, hi) == Field(b, lo, hi)
  {
    assert a[lo..hi] == b[lo..hi];
  }

  /** With the current year 2025, "25" resolves to 2025 and "26" to 1926. */
  lemma CenturyPivotBoundary()
    ensures FullYear(25, 2025) == 2025
    ensures FullYear(26, 2025) == 1926
  {
  }

  /** The two-digit date fields read as their digits. */
  lemma DateFieldsAsDigits(id: string)
    requires IsThirteenDigits(id)
    ensures BirthYearTwoDigits(id) == 10 * DigitValue(id[0]) + DigitValue(id[1])
    ensures BirthMonth(id) == 10 * DigitValue(id[2]) + DigitValue(id[3])
    ensures BirthDay(id) == 10 * DigitValue(id[4]) + DigitValue(id[5])
  {
    ParseTwoDigits(id[0..2]);
    ParseTwoDigits(id[2..4]);
    ParseTwoDigits(id[4..6]);
  }

  /** The Luhn sum of 8001015009087, term by term from index 0 up. */
  lemma AcceptedExampleSum()
    ensures HasDigitPrefix("8001015009087") && ChecksumSum("8001015009087") == 40
  {
    var id := "8001015009087";
    assert HasDigitPrefix(id);
    assert LuhnSum(id, 0, false) == 8;
    assert LuhnSum(id, 1, true) == 8;
    assert LuhnSum(id, 2, false) == 8;
    assert LuhnSum(id, 3, true) == 10;
    assert LuhnSum(id, 4, false) == 10;
    assert LuhnSum(id, 5, true) == 12;
    assert LuhnSum(id, 6, false) == 17;
    assert LuhnSum(id, 7, true) == 17;
    assert LuhnSum(id, 8, false) == 17;
    assert LuhnSum(id, 9, true) == 26;
    assert LuhnSum(id, 10, false) == 26;
    assert LuhnSum(id, 11, true) == 33;
    assert LuhnSum(id, 12, false) == 40;
  }

  /** 800101 5009 0 8 7: born 1 January 1980, Luhn sum 40, accepted. */
  lemma AcceptedExample()
    ensures Validate("8001015009087", 2025) == Accepted
  {
    var id := "8001015009087";
    assert IsThirteenDigits(id);
    DateFieldsAsDigits(id);
    assert BirthYearTwoDigits(id) == 80 && BirthMonth(id) == 1 && BirthDay(id) == 1;
    assert BirthFullYear(id, 2025) == 1980;
    assert DateCheck(id, 2025);
    GenderCheckAlwaysPasses(id);
    assert CitizenshipCheck(id);
    AcceptedExampleSum();
  }

  /** Altering the check digit of the accepted example to 8 gives Luhn sum 41. */
  lemma ChecksumMismatchExample()
    ensures Validate("8001015009088", 2025) == Rejected(ChecksumMismatch)
  {
    AcceptedExample();
    LastDigitChangeRejected("8001015009087", "8001015009088", 2025);
  }

  /** 800230...: 30 February 1980 is not a date. */
  lemma InvalidDateExample()
    ensures Validate("8002305009087", 2025) == Rejected(InvalidDate)
  {
    var id := "8002305009087";
    assert IsThirteenDigits(id);
    DateFieldsAsDigits(id);
    assert BirthYearTwoDigits(id) == 80 && BirthMonth(id) == 2 && BirthDay(id) == 30;
    assert BirthFullYear(id, 2025) == 1980;
    assert DaysInMonth(1980, 2) == 29;
    assert !DateCheck(id, 2025);
  }

  /** The accepted example with citizenship digit 2 is rejected on that digit. */
  lemma InvalidCitizenshipExample()
    ensures Validate("8001015009287", 2025) == Rejected(InvalidCitizenshipDigit)
  {
    var id := "8001015009287";
    assert IsThirteenDigits(id);
    DateFieldsAsDigits(id);
    assert BirthYearTwoDigits(id) == 80 && BirthMonth(id) == 1 && BirthDay(id) == 1;
    assert BirthFullYear(id, 2025) == 1980;
    assert DateCheck(id, 2025);
    GenderCheckAlwaysPasses(id);
    assert !CitizenshipCheck(id);
  }

  /** Text around the digits fails the format check, whatever follows. */
  lemma NotThirteenDigitsExample(currentYear: int)
    ensures Validate("800101500908", currentYear) == Rejected(NotThirteenDigits)
    ensures Validate("8001015009087 ", currentYear) == Rejected(NotThirteenDigits)
    ensures Validate("80010150O9087", currentYear) == Rejected(NotThirteenDigits)
  {
    assert !IsDigit("80010150O9087"[8]);
  }
}
