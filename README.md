# South African identity-number validator, modelled in Dafny

This project models the client-side validation of a South African national
identity number performed by the Lightning Web Component
`southafricanIDCheckerLWC` (`isValidSAID`, `isValidDate`, `isValidChecksum`).
An identity number is thirteen digits `YYMMDD GGGG C A Z`: a birth date, a
gender segment, a citizenship digit, a digit with no check of its own,
which enters the Luhn sum doubled, and a Luhn check digit. The validator accepts an id when

1. it matches `/^\d{13}$/` (exactly thirteen ASCII digits);
2. `YYMMDD` is a real date, the century being chosen by a pivot on the
   current two-digit year (`YY <= currentYear % 100` gives 20YY, otherwise 19YY);
3. the gender segment lies in 0..9999;
4. the citizenship digit (index 10) is `0` or `1`;
5. the Luhn sum over indices 12 down to 0, doubling every second digit,
   is a multiple of ten;

and returns false at the first check that fails.

Files:

- `decimal.dfy` (module `Decimal`): ASCII digits and `parseInt(s, 10)` on a digit string.
- `calendar.dfy` (module `Calendar`): the Gregorian leap-year and month-length
  rule (`IsValidDate`), and a model of the source's actual date test — build
  `new Date(year, month - 1, day)` and read it back — using ECMAScript's
  `DayFromYear`, `MakeDay` and year/month/date-from-day decomposition
  (`DateRoundTrips`). The two are proved equal except for years 0..99, which
  the `Date` constructor moves to 1900..1999.
- `luhn.dfy` (module `Luhn`): the checksum as a recursive specification
  (`LuhnSum`, toggling the doubling flag exactly as the loop does), a
  left-to-right reference reading (`OddDoubledSum`), and the loop itself as a
  method (`IsValidChecksum`) proved against the specification.
- `said.dfy` (module `IdentityValidator`): the early-return chain of
  `isValidSAID` as `Validate`, which also names the check that failed
  (`Reason`), and `IsValidSAID`, which is true when `Validate` accepts.

The clock reading `new Date().getFullYear()` is the parameter `currentYear`.
JavaScript's `%` (truncating, sign of the dividend) is modelled explicitly in
`TwoDigitYear`. `isValidChecksum` is modelled on any string, as the source
method accepts one: a missing character (`charAt` past the end gives `''`)
or a non-digit makes `parseInt` return NaN, the sum becomes NaN and the
result is false; `ChecksumHolds` states this.

`Validate` also reports the first failing check in source order, which the
source's boolean does not expose; `IsValidSAID` is the boolean the source
returns. The gender range check can never fail on thirteen
digits (`GenderCheckAlwaysPasses`), so `GenderOutOfRange` is never reported.

## Model

| member | source | states |
|---|---|---|
| `Decimal.DigitValue` | CSProject/force-app/main/default/lwc/southafricanIDCheckerLWC/southafricanIDCheckerLWC.js:139 | the value of a digit character is in 0..9 and is that digit's position in "0123456789" |
| `Decimal.ParseDecimal` | CSProject/force-app/main/default/lwc/southafricanIDCheckerLWC/southafricanIDCheckerLWC.js:114-118 | `parseInt` of an n-digit string is below 10^n |
| `Decimal.ParseTwoDigits` | CSProject/force-app/main/default/lwc/southafricanIDCheckerLWC/southafricanIDCheckerLWC.js:116-118 | a two-digit field reads as 10 × first digit + second digit |
| `IdentityValidator.Field` | CSProject/force-app/main/default/lwc/southafricanIDCheckerLWC/southafricanIDCheckerLWC.js:113-118 | a substring field `lo..hi` of a thirteen-digit id parses to a value below 10^(hi-lo) |
| `IdentityValidator.TwoDigitYear` | CSProject/force-app/main/default/lwc/southafricanIDCheckerLWC/southafricanIDCheckerLWC.js:120 | JavaScript `currentYear % 100`: magnitude below 100, congruent to the year modulo 100, with the sign of the year |
| `IdentityValidator.FullYear` | CSProject/force-app/main/default/lwc/southafricanIDCheckerLWC/southafricanIDCheckerLWC.js:116-120 | the pivoted year lies in 1900..2099, is ≡ YY mod 100, and is in the 2000s exactly when YY ≤ currentYear % 100 |
| `IdentityValidator.CenturyPivotBoundary` | CSProject/force-app/main/default/lwc/southafricanIDCheckerLWC/southafricanIDCheckerLWC.js:120 | with current year 2025, 25 resolves to 2025 and 26 to 1926 |
| `IdentityValidator.GenderCheckAlwaysPasses` | CSProject/force-app/main/default/lwc/southafricanIDCheckerLWC/southafricanIDCheckerLWC.js:123 | on thirteen digits the gender segment is in 0..9999, so its range check passes |
| `IdentityValidator.DateCheckIsSourceDateTest` | CSProject/force-app/main/default/lwc/southafricanIDCheckerLWC/southafricanIDCheckerLWC.js:122 | inside the validator, the Gregorian rule and the `Date` round trip give the same answer |
| `IdentityValidator.AcceptedIff` | CSProject/force-app/main/default/lwc/southafricanIDCheckerLWC/southafricanIDCheckerLWC.js:110-128 | accepted iff thirteen digits, real birth date, citizenship digit 0 or 1, and Luhn sum ≡ 0 mod 10 |
| `IdentityValidator.AcceptedBirthDate` | CSProject/force-app/main/default/lwc/southafricanIDCheckerLWC/southafricanIDCheckerLWC.js:116-122 | an accepted id has a year in 1900..2099 ending in YY, a month in 1..12, a day within that month's length, and passes the `Date` round trip |
| `IdentityValidator.RejectionIsFirstFailure` | CSProject/force-app/main/default/lwc/southafricanIDCheckerLWC/southafricanIDCheckerLWC.js:111-127 | each reason is reported exactly when its check fails and all earlier checks pass; the format check comes first; the gender reason never occurs |
| `IdentityValidator.LastDigitChangeRejected` | CSProject/force-app/main/default/lwc/southafricanIDCheckerLWC/southafricanIDCheckerLWC.js:125 | changing only the check digit of an accepted id to another digit is rejected with a checksum mismatch |
| `IdentityValidator.DateFieldsAsDigits` | CSProject/force-app/main/default/lwc/southafricanIDCheckerLWC/southafricanIDCheckerLWC.js:116-118 | the year, month and day fields of a thirteen-digit id read as 10 × first digit + second digit |
| `IdentityValidator.AcceptedExampleSum` | CSProject/force-app/main/default/lwc/southafricanIDCheckerLWC/southafricanIDCheckerLWC.js:136-147 | the Luhn sum of 8001015009087 is 40 |
| `IdentityValidator.AcceptedExample` | CSProject/force-app/main/default/lwc/southafricanIDCheckerLWC/southafricanIDCheckerLWC.js:110-128 | 8001015009087 is accepted in 2025 |
| `IdentityValidator.ChecksumMismatchExample` | CSProject/force-app/main/default/lwc/southafricanIDCheckerLWC/southafricanIDCheckerLWC.js:125 | 8001015009088 is rejected on the checksum |
| `IdentityValidator.InvalidDateExample` | CSProject/force-app/main/default/lwc/southafricanIDCheckerLWC/southafricanIDCheckerLWC.js:122 | 8002305009087 (30 February) is rejected as an invalid date |
| `IdentityValidator.InvalidCitizenshipExample` | CSProject/force-app/main/default/lwc/southafricanIDCheckerLWC/southafricanIDCheckerLWC.js:124 | 8001015009287 (citizenship digit 2) is rejected on the citizenship digit |
| `IdentityValidator.NotThirteenDigitsExample` | CSProject/force-app/main/default/lwc/southafricanIDCheckerLWC/southafricanIDCheckerLWC.js:111 | twelve digits, a trailing space, or a letter among the digits fail the format check |
| `Calendar.DaysInMonth` | CSProject/force-app/main/default/lwc/southafricanIDCheckerLWC/southafricanIDCheckerLWC.js:130-133 | a month has 28..31 days, and 29 exactly for February of a leap year |
| `Calendar.DayFromYearStep` | CSProject/force-app/main/default/lwc/southafricanIDCheckerLWC/southafricanIDCheckerLWC.js:131 | ECMAScript's DayFromYear advances by the length of the year |
| `Calendar.LocateYear` | CSProject/force-app/main/default/lwc/southafricanIDCheckerLWC/southafricanIDCheckerLWC.js:132 | `getFullYear`: the year and day-of-year whose day number is the given one |
| `Calendar.LocateMonth` | CSProject/force-app/main/default/lwc/southafricanIDCheckerLWC/southafricanIDCheckerLWC.js:132 | `getMonth`/`getDate`: a real month and day of the year at the given offset |
| `Calendar.DateOfDay` | CSProject/force-app/main/default/lwc/southafricanIDCheckerLWC/southafricanIDCheckerLWC.js:132 | reading a day number back always gives a real date, whose day number is the given one |
| `Calendar.SmallYearFails` | CSProject/force-app/main/default/lwc/southafricanIDCheckerLWC/southafricanIDCheckerLWC.js:131-132 | a date of year 0..99 never survives the `Date` round trip |
| `Calendar.ValidDateRoundTrips` | CSProject/force-app/main/default/lwc/southafricanIDCheckerLWC/southafricanIDCheckerLWC.js:131-132 | every real date of another year survives the round trip |
| `Calendar.DateRoundTripsIffValid` | CSProject/force-app/main/default/lwc/southafricanIDCheckerLWC/southafricanIDCheckerLWC.js:130-133 | the round trip succeeds iff month in 1..12 and day within the month under the leap-year rule (year not in 0..99) |
| `Luhn.LuhnTerm` | CSProject/force-app/main/default/lwc/southafricanIDCheckerLWC/southafricanIDCheckerLWC.js:140-143 | a term is in 0..9; a doubled digit contributes the sum of the decimal digits of its double |
| `Luhn.LuhnSum` | CSProject/force-app/main/default/lwc/southafricanIDCheckerLWC/southafricanIDCheckerLWC.js:138-146 | the sum over indices i..0 is at most 9 × (i + 1) |
| `Luhn.LuhnSumDoublesOddIndices` | CSProject/force-app/main/default/lwc/southafricanIDCheckerLWC/southafricanIDCheckerLWC.js:137-145 | the toggling flag, starting undoubled at index 12, doubles exactly the odd indices 11, 9, ..., 1 |
| `Luhn.ChecksumSumShape` | CSProject/force-app/main/default/lwc/southafricanIDCheckerLWC/southafricanIDCheckerLWC.js:136-146 | the checksum sum equals the odd-indices-doubled reading and lies in 0..117 |
| `Luhn.LastDigitShift` | CSProject/force-app/main/default/lwc/southafricanIDCheckerLWC/southafricanIDCheckerLWC.js:144 | changing only index 12 changes the sum by a nonzero amount in -9..9 |
| `Luhn.LastDigitChangeBreaksChecksum` | CSProject/force-app/main/default/lwc/southafricanIDCheckerLWC/southafricanIDCheckerLWC.js:138-147 | if the checksum holds, changing only the last digit to another digit makes it fail |
| `Luhn.IsValidChecksum` | CSProject/force-app/main/default/lwc/southafricanIDCheckerLWC/southafricanIDCheckerLWC.js:135-148 | the loop returns true iff characters 0..12 are digits and the Luhn sum is a multiple of ten |

## Left out

- `handleInput`, `handleSearch`, `handleClear` and the getters `inputClass`, `showClearButton`, `isClearDisabled`: UI state, DOM validity calls and console logging, not validation logic.
- `fetchIdInfo` and its promise handling, and the holiday date reshaping with `toISOString`: a remote call to a server controller that is not part of this model, and time-zone formatting.
- The digit-stripping in `handleInput` (`replace(/\D/g, '')`): input masking done before the validator is called.
- The clock: `new Date().getFullYear()` is the parameter `currentYear` of `Validate`.
- Local time in `isValidDate`: `DateRoundTrips` builds and reads the `Date` on a single time line, without the local time zone. The source differs from the model on a day that the local zone skipped entirely: in Pacific/Apia, 30 December 2011 did not exist, ECMAScript's `UTC()` reads its missing midnight with the offset from before the change, `new Date(2011, 11, 30)` reads back as 31 December, and the source rejects an id born that day that the model accepts. A daylight-saving gap at midnight does not matter, since the date still reads back at 01:00. The ±100,000,000-day range limit of ECMAScript time values is not modelled either; that one cannot matter for years 1900..2099.
- `isValidSAID` called with a value that is not a string (the regular expression would coerce it): the model takes strings only.
