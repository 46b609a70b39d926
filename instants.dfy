/**
 * JavaScript `Date` values as the decoders build them: a time value in
 * milliseconds since 1970-01-01T00:00:00Z, or an invalid date, with
 * `Date.UTC` computed as ECMAScript defines it (MakeDay, MakeTime, MakeDate,
 * TimeClip, and the rule that years 0 to 99 mean 1900 to 1999).
 */
module Instants {
  import opened Wrappers

  /** A `Date` object: a time value, or the invalid date `new Date(NaN)`. */
  datatype Instant = Time(ms: int) | InvalidDate

  /** The largest magnitude a time value may have (TimeClip). */
  const MaxTime: int := 8640000000000000

  predicate LeapYear(y: int) {
    y % 4 == 0 && (y % 100 != 0 || y % 400 == 0)
  }

  /** Day number of the first day of year y. */
  function DayFromYear(y: int): int {
    365 * (y - 1970) + (y - 1969) / 4 - (y - 1901) / 100 + (y - 1601) / 400
  }

  /** Days of year y before the first day of month m (0 = January). */
  function DaysBeforeMonth(y: int, m: int): int
    requires 0 <= m < 12
  {
    var common :=
      if m == 0 then 0 else if m == 1 then 31 else if m == 2 then 59 else if m == 3 then 90
      else if m == 4 then 120 else if m == 5 then 151 else if m == 6 then 181 else if m == 7 then 212
      else if m == 8 then 243 else if m == 9 then 273 else if m == 10 then 304 else 334;
    common + if LeapYear(y) && m >= 2 then 1 else 0
  }

  /** MakeDay: a month outside 0..11 carries into the year, a date past the month's end into later months. */
  function MakeDay(year: int, month: int, date: int): int {
    var ym := year + month / 12;
    var mn := month % 12;
    DayFromYear(ym) + DaysBeforeMonth(ym, mn) + date - 1
  }

  function MakeTime(hour: int, minute: int, second: int): int {
    hour * 3600000 + minute * 60000 + second * 1000
  }

  function TimeClip(t: int): (r: Instant)
    ensures r.Time? <==> -MaxTime <= t <= MaxTime
  {
    if -MaxTime <= t <= MaxTime then Time(t) else InvalidDate
  }

  /**
   * `new Date(Date.UTC(year, month, day, hour, minute, second))` for
   * arguments that are integers or NaN (written None).
   */
  function DateUtc(year: Option<int>, month: Option<int>, day: Option<int>,
                   hour: Option<int>, minute: Option<int>, second: Option<int>): (r: Instant)
    ensures (year.None? || month.None? || day.None? || hour.None? || minute.None? || second.None?) ==> r == InvalidDate
  {
    if year.None? || month.None? || day.None? || hour.None? || minute.None? || second.None? then InvalidDate
    else TimeClip(UtcTime(year.value, month.value, day.value, hour.value, minute.value, second.value))
  }

  /** The time value `Date.UTC` computes from integer arguments, before TimeClip. */
  function UtcTime(year: int, month: int, day: int, hour: int, minute: int, second: int): int {
    var y := if 0 <= year <= 99 then 1900 + year else year;
    MakeDay(y, month, day) * 86400000 + MakeTime(hour, minute, second)
  }

  /** `Date.UTC` on plain integers. */
  function Utc(year: int, month: int, day: int, hour: int, minute: int, second: int): Instant {
    DateUtc(Some(year), Some(month), Some(day), Some(hour), Some(minute), Some(second))
  }

  // ---------------------------------------------------------------------
  // Properties of Date.UTC.

  lemma DayFromYearBounds(y: int)
    requires -100100 <= y <= 100100
    ensures -40000000 <= DayFromYear(y) <= 40000000
  {
  }

  lemma MakeDayBounds(year: int, month: int, date: int)
    requires -100000 <= year <= 100000 && -1000 <= month <= 1000 && -1000 <= date <= 1000
    ensures -40002000 <= MakeDay(year, month, date) <= 40002000
  {
    var ym := year + month / 12;
    assert -84 <= month / 12 <= 84;
    DayFromYearBounds(ym);
  }

  /** A date whose fields are all present and of calendar size is valid. */
  lemma UtcValid(year: int, month: int, day: int, hour: int, minute: int, second: int)
    requires -100000 <= year <= 100000
    requires -1000 <= month <= 1000 && -1000 <= day <= 1000
    requires -1000 <= hour <= 1000 && -1000 <= minute <= 1000 && -1000 <= second <= 1000
    ensures Utc(year, month, day, hour, minute, second).Time?
  {
    var y := if 0 <= year <= 99 then 1900 + year else year;
    MakeDayBounds(y, month, day);
    assert -4000000000 <= MakeTime(hour, minute, second) <= 4000000000;
  }

  /** For a year of four digits and a month within 0..11, the time value is the calendar sum. */
  lemma UtcTimeCalendar(year: int, month: int, day: int, hour: int, minute: int, second: int)
    requires year >= 100 && 0 <= month < 12
    ensures UtcTime(year, month, day, hour, minute, second)
      == (DayFromYear(year) + DaysBeforeMonth(year, month) + day - 1) * 86400000
         + hour * 3600000 + minute * 60000 + second * 1000
  {
  }

  /** A two-digit year means a year of the twentieth century. */
  lemma TwoDigitYear(year: int, month: int, day: int, hour: int, minute: int, second: int)
    requires 0 <= year <= 99
    ensures Utc(year, month, day, hour, minute, second) == Utc(1900 + year, month, day, hour, minute, second)
  {
  }

  /** Twelve months more is the same date a year later. */
  lemma MonthCarry(year: int, month: int, day: int, hour: int, minute: int, second: int)
    requires year >= 100
    ensures Utc(year, month + 12, day, hour, minute, second) == Utc(year + 1, month, day, hour, minute, second)
  {
    assert (month + 12) / 12 == month / 12 + 1;
    assert (month + 12) % 12 == month % 12;
    assert MakeDay(year, month + 12, day) == MakeDay(year + 1, month, day);
  }

  /** One second more is a time value 1000 milliseconds later. */
  lemma SecondStep(year: int, month: int, day: int, hour: int, minute: int, second: int)
    requires Utc(year, month, day, hour, minute, second).Time?
    requires Utc(year, month, day, hour, minute, second + 1).Time?
    ensures Utc(year, month, day, hour, minute, second + 1).ms == Utc(year, month, day, hour, minute, second).ms + 1000
  {
  }

  /** Sixty seconds are one minute. */
  lemma SixtySeconds(year: int, month: int, day: int, hour: int, minute: int, second: int)
    ensures Utc(year, month, day, hour, minute, second + 60) == Utc(year, month, day, hour, minute + 1, second)
  {
  }

  /** Number of days in month m (0 = January) of year y. */
  function DaysInMonth(y: int, m: int): int
    requires 0 <= m < 12
  {
    if m == 1 then (if LeapYear(y) then 29 else 28)
    else if m == 3 || m == 5 || m == 8 || m == 10 then 30
    else 31
  }

  /** The month table accumulates the month lengths. */
  lemma DaysBeforeNextMonth(y: int, m: int)
    requires 0 <= m < 11
    ensures DaysBeforeMonth(y, m + 1) == DaysBeforeMonth(y, m) + DaysInMonth(y, m)
  {
  }

  /** The day after the last day of a month is the first day of the next month. */
  lemma DayCarry(year: int, month: int, hour: int, minute: int, second: int)
    requires year >= 100 && 0 <= month < 11
    ensures Utc(year, month, DaysInMonth(year, month) + 1, hour, minute, second)
         == Utc(year, month + 1, 1, hour, minute, second)
  {
    MonthEnd(year, month, DaysInMonth(year, month));
  }

  /** MakeDay of the day after a month's last day is MakeDay of the next month's first. */
  lemma MonthEnd(year: int, month: int, d: int)
    requires 0 <= month < 11 && d == DaysInMonth(year, month)
    ensures MakeDay(year, month, d + 1) == MakeDay(year, month + 1, 1)
  {
    DaysBeforeNextMonth(year, month);
    assert month / 12 == 0 && month % 12 == month;
    assert (month + 1) / 12 == 0 && (month + 1) % 12 == month + 1;
  }

  /** A year has 366 days when it is a leap year and 365 otherwise. */
  lemma YearLength(y: int)
    ensures DayFromYear(y + 1) - DayFromYear(y) == if LeapYear(y) then 366 else 365
  {
    YearStep(y);
    LeapDivisors(y);
  }

  /** From year y to y + 1 the day number grows by 365 and the three leap-day terms. */
  lemma YearStep(y: int)
    ensures DayFromYear(y + 1) - DayFromYear(y)
         == 365 + (if y % 4 == 0 then 1 else 0) - (if y % 100 == 0 then 1 else 0) + (if y % 400 == 0 then 1 else 0)
  {
    LeapTerm(y, 4, 1969);
    LeapTerm(y, 100, 1901);
    LeapTerm(y, 400, 1601);
  }

  /** A multiple of 400 is a multiple of 100, and a multiple of 100 one of 4. */
  lemma LeapDivisors(y: int)
    ensures y % 400 == 0 ==> y % 100 == 0
    ensures y % 100 == 0 ==> y % 4 == 0
  {
    if y % 400 == 0 {
      MultipleOf(y, 400, 100);
    }
    if y % 100 == 0 {
      MultipleOf(y, 100, 4);
    }
  }

  /** A multiple of n is a multiple of every divisor d of n. */
  lemma MultipleOf(y: int, n: int, d: int)
    requires (n, d) == (400, 100) || (n, d) == (100, 4)
    requires y % n == 0
    ensures y % d == 0
  {
    if n == 400 {
      var q := y / 400;
      assert y == 100 * (4 * q) + 0;
    } else {
      var q := y / 100;
      assert y == 4 * (25 * q) + 0;
    }
  }

  /**
   * One of the leap-day terms of DayFromYear steps up by one from year y to
   * y + 1 exactly when y is a multiple of n.
   */
  lemma LeapTerm(y: int, n: int, base: int)
    requires (n, base) == (4, 1969) || (n, base) == (100, 1901) || (n, base) == (400, 1601)
    ensures (y + 1 - base) / n - (y - base) / n == if y % n == 0 then 1 else 0
  {
    if n == 4 {
      assert (y + 1 - 1969) / 4 - (y - 1969) / 4 == if y % 4 == 0 then 1 else 0;
    } else if n == 100 {
      assert (y + 1 - 1901) / 100 - (y - 1901) / 100 == if y % 100 == 0 then 1 else 0;
    } else {
      assert (y + 1 - 1601) / 400 - (y - 1601) / 400 == if y % 400 == 0 then 1 else 0;
    }
  }

  /** The day after December 31 is January 1 of the next year. */
  lemma YearCarry(year: int, hour: int, minute: int, second: int)
    requires year >= 100
    ensures Utc(year, 11, 32, hour, minute, second) == Utc(year + 1, 0, 1, hour, minute, second)
  {
    UtcTimeCalendar(year, 11, 32, hour, minute, second);
    UtcTimeCalendar(year + 1, 0, 1, hour, minute, second);
    YearLength(year);
    assert DaysBeforeMonth(year, 11) + 31 == if LeapYear(year) then 366 else 365;
    assert UtcTime(year, 11, 32, hour, minute, second) == UtcTime(year + 1, 0, 1, hour, minute, second);
  }

  /** 2023-10-23T12:35:19Z is 1698064519000 milliseconds after the epoch. */
  lemma UtcExample()
    ensures Utc(2023, 9, 23, 12, 35, 19) == Time(1698064519000)
  {
    UtcTimeCalendar(2023, 9, 23, 12, 35, 19);
    assert DayFromYear(2023) == 19358;
    assert DaysBeforeMonth(2023, 9) == 273;
  }
}
