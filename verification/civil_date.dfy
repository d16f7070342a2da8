/** Calendar dates as the availability endpoint reads them: the
    `^\d{4}-\d{2}-\d{2}$` guard, and `getDayOfWeek`, which reads the three
    numbers of "YYYY-MM-DD" and asks `new Date(Date.UTC(y, m - 1, d)).getUTCDay()`.
    The ECMAScript date arithmetic behind that call (MakeDay, DayFromYear,
    WeekDay) is written out here so that the weekday does not depend on the
    server's time zone. */
module CivilDate {

  import opened Text

  /** `/^\d{4}-\d{2}-\d{2}$/.test(s)`: exactly ten characters, ASCII digits
      around two hyphens. */
  predicate ValidDateFormat(s: string) {
    && |s| == 10
    && IsDigit(s[0]) && IsDigit(s[1]) && IsDigit(s[2]) && IsDigit(s[3])
    && s[4] == '-'
    && IsDigit(s[5]) && IsDigit(s[6])
    && s[7] == '-'
    && IsDigit(s[8]) && IsDigit(s[9])
  }

  /** The three numbers of `dateStr.split("-").map(Number)`. */
  function YearField(s: string): (y: nat)
    requires ValidDateFormat(s)
    ensures y < 10000
  {
    DigitValue(s[0]) * 1000 + DigitValue(s[1]) * 100 + DigitValue(s[2]) * 10 + DigitValue(s[3])
  }

  function MonthField(s: string): (m: nat)
    requires ValidDateFormat(s)
    ensures m < 100
  {
    DigitValue(s[5]) * 10 + DigitValue(s[6])
  }

  function DayField(s: string): (d: nat)
    requires ValidDateFormat(s)
    ensures d < 100
  {
    DigitValue(s[8]) * 10 + DigitValue(s[9])
  }

  /** `Date.UTC` reads a year from 0 to 99 as 1900 plus that year. */
  function UtcYear(y: int): (year: int)
    ensures 0 <= y <= 99 ==> year == 1900 + y
    ensures !(0 <= y <= 99) ==> year == y
  {
    if 0 <= y <= 99 then 1900 + y else y
  }

  predicate IsLeapYear(y: int) {
    y % 4 == 0 && (y % 100 != 0 || y % 400 == 0)
  }

  /** Days from 1970-01-01 to the first day of year `y` (ECMAScript
      DayFromYear), floor divisions throughout. */
  function DayFromYear(y: int): int {
    365 * (y - 1970) + (y - 1969) / 4 - (y - 1901) / 100 + (y - 1601) / 400
  }

  /** Days in the year before the first day of month `mn` (0 = January). */
  function MonthStart(mn: int, leap: bool): (days: nat)
    requires 0 <= mn < 12
    ensures days <= 335
  {
    var base :=
      if mn == 0 then 0 else if mn == 1 then 31 else if mn == 2 then 59
      else if mn == 3 then 90 else if mn == 4 then 120 else if mn == 5 then 151
      else if mn == 6 then 181 else if mn == 7 then 212 else if mn == 8 then 243
      else if mn == 9 then 273 else if mn == 10 then 304 else 334;
    if leap && mn >= 2 then base + 1 else base
  }

  /** ECMAScript MakeDay(year, month, date): a month outside 0..11 carries
      into the year, and a date outside the month runs on into the
      neighbouring months. */
  function MakeDay(year: int, month: int, date: int): int {
    var ym := year + month / 12;
    var mn := month % 12;
    DayFromYear(ym) + MonthStart(mn, IsLeapYear(ym)) + date - 1
  }

  /** ECMAScript WeekDay: 1970-01-01 was a Thursday (4); 0 is Sunday. */
  function WeekDay(day: int): (w: nat)
    ensures w < 7
  {
    (day + 4) % 7
  }

  /** `getDayOfWeek(dateStr)` for a string that passed the format guard. */
  function DayOfWeek(s: string): (w: nat)
    requires ValidDateFormat(s)
    ensures w < 7
  {
    WeekDay(MakeDay(UtcYear(YearField(s)), MonthField(s) - 1, DayField(s)))
  }

  /** An independent reference for the Gregorian weekday (0 = Sunday) of
      year `y`, month `m` (1..12), day `d`: Sakamoto's formula, which counts
      leap days up to the previous year for January and February. */
  function GregorianWeekday(y: int, m: int, d: int): (w: nat)
    requires 1 <= m <= 12
    ensures w < 7
  {
    var yy := if m < 3 then y - 1 else y;
    (yy + yy / 4 - yy / 100 + yy / 400 + MonthKey[m - 1] + d) % 7
  }

  /** Sakamoto's month keys, January first. */
  const MonthKey: seq<int> := [0, 3, 2, 5, 0, 3, 5, 1, 4, 6, 2, 4]

  function DaysInMonth(y: int, m: int): nat
    requires 1 <= m <= 12
  {
    if m == 2 then (if IsLeapYear(y) then 29 else 28)
    else if m == 4 || m == 6 || m == 9 || m == 11 then 30
    else 31
  }

  /** Leap days in the years 1..y (for y >= 0; the same floor formula
      beyond). */
  function LeapDays(y: int): int {
    y / 4 - y / 100 + y / 400
  }

  /** Moving to the next year adds one leap day exactly when that year is a
      leap year. */
  lemma LeapDaysStep(y: int)
    ensures LeapDays(y) == LeapDays(y - 1) + (if IsLeapYear(y) then 1 else 0)
  {
    StepBy4(y);
    StepBy100(y);
    StepBy400(y);
    DivisibilityChain(y);
  }

  /** A multiple of 400 is a multiple of 100, and one of 100 a multiple
      of 4. */
  lemma DivisibilityChain(y: int)
    ensures y % 400 == 0 ==> y % 100 == 0
    ensures y % 100 == 0 ==> y % 4 == 0
  {
    if y % 400 == 0 {
      var t := 4 * (y / 400);
      assert y == 100 * t;
      MultipleOf100(t);
    }
    if y % 100 == 0 {
      var t := 25 * (y / 100);
      assert y == 4 * t;
      MultipleOf4(t);
    }
  }

  lemma MultipleOf4(t: int)
    ensures (4 * t) % 4 == 0
  {
  }

  lemma MultipleOf100(t: int)
    ensures (100 * t) % 100 == 0
  {
  }

  /** Going from y - 1 to y crosses a multiple of 4 exactly when y is one. */
  lemma StepBy4(y: int)
    ensures y / 4 == (y - 1) / 4 + (if y % 4 == 0 then 1 else 0)
  {
  }

  lemma StepBy100(y: int)
    ensures y / 100 == (y - 1) / 100 + (if y % 100 == 0 then 1 else 0)
  {
  }

  lemma StepBy400(y: int)
    ensures y / 400 == (y - 1) / 400 + (if y % 400 == 0 then 1 else 0)
  {
  }

  /** DayFromYear in terms of the leap days before the year. */
  lemma DayFromYearLeapDays(y: int)
    ensures DayFromYear(y) == 7 * (52 * (y - 1970)) + (y - 1) + LeapDays(y - 1) - 2446
  {
    assert (y - 1969) / 4 == (y - 1) / 4 - 492;
    assert (y - 1901) / 100 == (y - 1) / 100 - 19;
    assert (y - 1601) / 400 == (y - 1) / 400 - 4;
  }

  /** Adding a multiple of 7 does not change a weekday. */
  lemma ModSevenShift(a: int, k: int)
    ensures (7 * k + a) % 7 == a % 7
  {
  }

  /** The day number of (y, m-1, d), moved to a Thursday epoch, in terms of
      the leap days before the year; 2443 = 7 * 349. */
  lemma MakeDayPlusFour(y: int, m: int, d: int)
    requires 1 <= m <= 12
    ensures MakeDay(y, m - 1, d) + 4 ==
      7 * (52 * (y - 1970) - 349) + (y - 1) + LeapDays(y - 1) + MonthStart(m - 1, IsLeapYear(y)) + d
  {
    assert (m - 1) / 12 == 0 && (m - 1) % 12 == m - 1;
    DayFromYearLeapDays(y);
  }

  /** A leap year has one more day before every month from March on. */
  lemma MonthStartLeap(mn: int, leap: bool)
    requires 0 <= mn < 12
    ensures MonthStart(mn, leap) == MonthStart(mn, false) + (if leap && mn >= 2 then 1 else 0)
  {
  }

  /** The key a month contributes, with the leap day of the current year
      counted from March on. */
  function MonthOffset(m: int): int
    requires 1 <= m <= 12
  {
    MonthKey[m - 1] + (if m >= 3 then 1 else 0)
  }

  /** The days before each month of a common year differ from the month's
      offset by whole weeks. */
  lemma MonthStartWeeks(m: int)
    requires 1 <= m <= 12
    ensures MonthStart(m - 1, false) >= MonthOffset(m)
    ensures (MonthStart(m - 1, false) - MonthOffset(m)) % 7 == 0
  {
  }

  /** For a month in 1..12 and any day number, the ECMAScript arithmetic
      behind `getUTCDay` agrees with the Gregorian reference. */
  lemma MakeDayWeekday(y: int, m: int, d: int)
    requires 1 <= m <= 12
    ensures WeekDay(MakeDay(y, m - 1, d)) == GregorianWeekday(y, m, d)
  {
    MakeDayPlusFour(y, m, d);
    MonthStartLeap(m - 1, IsLeapYear(y));
    MonthStartWeeks(m);
    LeapDaysStep(y);
    var weeks := 52 * (y - 1970) - 349 + (MonthStart(m - 1, false) - MonthOffset(m)) / 7;
    var yy := if m < 3 then y - 1 else y;
    var rest := yy + LeapDays(yy) + MonthKey[m - 1] + d;
    assert MakeDay(y, m - 1, d) + 4 == 7 * weeks + rest;
    ModSevenShift(rest, weeks);
  }

  /** For a valid calendar date from year 100 on, `getDayOfWeek` returns the
      Gregorian weekday of that date (0 = Sunday), whatever the server's
      time zone. */
  lemma DayOfWeekIsGregorian(s: string)
    requires ValidDateFormat(s)
    requires YearField(s) >= 100
    requires 1 <= MonthField(s) <= 12
    ensures DayOfWeek(s) == GregorianWeekday(YearField(s), MonthField(s), DayField(s))
  {
    MakeDayWeekday(YearField(s), MonthField(s), DayField(s));
  }

  /** A year written "0000" to "0099" is read as 1900 to 1999, so the
      weekday returned is that of the date in the twentieth century. */
  lemma DayOfWeekTwoDigitYear(s: string)
    requires ValidDateFormat(s)
    requires YearField(s) < 100
    requires 1 <= MonthField(s) <= 12
    ensures DayOfWeek(s) == GregorianWeekday(1900 + YearField(s), MonthField(s), DayField(s))
  {
    MakeDayWeekday(1900 + YearField(s), MonthField(s), DayField(s));
  }

  /** A day field past the end of the month runs on: the weekday is one
      later for each day added, month or no month. */
  lemma DayOfWeekNextDay(y: int, month: int, d: int)
    ensures WeekDay(MakeDay(y, month, d + 1)) == (WeekDay(MakeDay(y, month, d)) + 1) % 7
  {
  }
}
