/**
 * Calendar dates as the timeline handles them: a JavaScript `Date` at local
 * midnight, seen as a (year, month, day) triple of the proleptic Gregorian
 * calendar. Time of day, time zones and daylight saving are not modelled, so
 * the difference of two dates is a whole number of days.
 */
module Calendar {

  /** A month as `Date.getMonth()` numbers it: January is 0, December is 11. */
  type MonthIndex = m: int | 0 <= m < 12

  /** A date. `day` is the day of the month; it lies in 1..DaysInMonth for a
      normalized date, but any integer is allowed so that out-of-range days
      (as passed to the `Date` constructor or to `setDate`) can be written. */
  datatype Date = Date(year: int, month: MonthIndex, day: int)

  /** The Gregorian leap-year rule. */
  predicate IsLeapYear(y: int) {
    y % 4 == 0 && (y % 100 != 0 || y % 400 == 0)
  }

  /** The length of month `m` of year `y` in the Gregorian calendar. */
  function DaysInMonth(y: int, m: MonthIndex): (n: int)
    ensures 28 <= n <= 31
    ensures n == 29 <==> m == 1 && IsLeapYear(y)
  {
    if m == 1 then (if IsLeapYear(y) then 29 else 28)
    else if m == 3 || m == 5 || m == 8 || m == 10 then 30
    else 31
  }

  /** A date whose day lies within its month, as every `Date` object holds. */
  predicate IsNormalized(d: Date) {
    1 <= d.day <= DaysInMonth(d.year, d.month)
  }

  /** The length of year `y`. */
  function DaysInYear(y: int): int {
    if IsLeapYear(y) then 366 else 365
  }

  /** Days from 1 January of year 1 to 1 January of year `y`, counted back
      for years before 1. */
  function DaysBeforeYear(y: int): int
    decreases if y >= 1 then y - 1 else 1 - y
  {
    if y == 1 then 0
    else if y > 1 then DaysBeforeYear(y - 1) + DaysInYear(y - 1)
    else DaysBeforeYear(y + 1) - DaysInYear(y)
  }

  /** Days from 1 January of year `y` to the first of month `m`: the lengths of
      the months before it. */
  function DaysBeforeMonth(y: int, m: MonthIndex): (n: int)
    ensures 28 * m <= n <= 31 * m
  {
    if m == 0 then 0 else DaysBeforeMonth(y, m - 1) + DaysInMonth(y, m - 1)
  }

  /** The day number of a date: whole days since 1 January of year 1. It is
      linear in `day`, so an out-of-range day counts on from the month's start. */
  function DayNumber(d: Date): int {
    DaysBeforeYear(d.year) + DaysBeforeMonth(d.year, d.month) + d.day - 1
  }

  /** The first day of the month after month `m` of year `y`. */
  function NextMonth(y: int, m: MonthIndex): Date {
    if m == 11 then Date(y + 1, 0, 1) else Date(y, m + 1, 1)
  }

  /** The first day of the month before month `m` of year `y`. */
  function PrevMonth(y: int, m: MonthIndex): Date {
    if m == 0 then Date(y - 1, 11, 1) else Date(y, m - 1, 1)
  }

  /** Consecutive years start DaysInYear apart, on either side of year 1. */
  lemma {:induction false} YearLength(y: int)
    ensures DaysBeforeYear(y + 1) - DaysBeforeYear(y) == DaysInYear(y)
  {
  }

  /** The twelve months of a year add up to the year's length. */
  lemma {:induction false} MonthsFillYear(y: int)
    ensures DaysBeforeMonth(y, 11) + DaysInMonth(y, 11) == DaysBeforeYear(y + 1) - DaysBeforeYear(y)
  {
    YearLength(y);
    var leap := if IsLeapYear(y) then 1 else 0;
    assert DaysBeforeMonth(y, 1) == 31;
    assert DaysBeforeMonth(y, 2) == 59 + leap;
    assert DaysBeforeMonth(y, 3) == 90 + leap;
    assert DaysBeforeMonth(y, 4) == 120 + leap;
    assert DaysBeforeMonth(y, 5) == 151 + leap;
    assert DaysBeforeMonth(y, 6) == 181 + leap;
    assert DaysBeforeMonth(y, 7) == 212 + leap;
    assert DaysBeforeMonth(y, 8) == 243 + leap;
    assert DaysBeforeMonth(y, 9) == 273 + leap;
    assert DaysBeforeMonth(y, 10) == 304 + leap;
    assert DaysBeforeMonth(y, 11) == 334 + leap;
  }

  /** The first of the next month comes exactly DaysInMonth days after the
      first of this month, across a year boundary too: day numbers of month
      starts agree with the month lengths. */
  lemma {:induction false} MonthStep(y: int, m: MonthIndex)
    ensures DayNumber(NextMonth(y, m)) == DayNumber(Date(y, m, 1)) + DaysInMonth(y, m)
  {
    if m == 11 {
      MonthsFillYear(y);
    }
  }

  /** The first of this month comes exactly the previous month's length after
      the first of the previous month. */
  lemma {:induction false} MonthStepBack(y: int, m: MonthIndex)
    ensures DayNumber(Date(y, m, 1)) == DayNumber(PrevMonth(y, m)) + DaysInMonth(PrevMonth(y, m).year, PrevMonth(y, m).month)
  {
    var prev := PrevMonth(y, m);
    MonthStep(prev.year, prev.month);
    assert NextMonth(prev.year, prev.month) == Date(y, m, 1);
  }

  /** Rolls a day past the end of its month forward into the months after
      it, one month at a time. */
  function RollForward(d: Date): (r: Date)
    requires d.day >= 1
    ensures IsNormalized(r)
    ensures DayNumber(r) == DayNumber(d)
    decreases d.day
  {
    if d.day <= DaysInMonth(d.year, d.month) then d
    else
      var next := NextMonth(d.year, d.month);
      MonthStep(d.year, d.month);
      RollForward(Date(next.year, next.month, d.day - DaysInMonth(d.year, d.month)))
  }

  /** Rolls a day before the start of its month back into the months before
      it, one month at a time. */
  function RollBack(d: Date): (r: Date)
    requires d.day <= DaysInMonth(d.year, d.month)
    ensures IsNormalized(r)
    ensures DayNumber(r) == DayNumber(d)
    decreases 1 - d.day
  {
    if d.day >= 1 then d
    else
      var prev := PrevMonth(d.year, d.month);
      MonthStepBack(d.year, d.month);
      RollBack(Date(prev.year, prev.month, d.day + DaysInMonth(prev.year, prev.month)))
  }

  /** Normalizes a date the way a JavaScript `Date` rolls an out-of-range day
      of the month over into earlier or later months. The result is the
      unique normalized date with the same day number. */
  function Normalize(d: Date): (r: Date)
    ensures IsNormalized(r)
    ensures DayNumber(r) == DayNumber(d)
    ensures IsNormalized(d) ==> r == d
  {
    if d.day < 1 then RollBack(d)
    else RollForward(d)
  }

  /** `new Date(y, m, d)` in local time: a month outside 0..11 carries into the
      year (rounding down, so -1 is December of the year before), then the day
      carries into the months around it. The result is the normalized date
      that lies `d - 1` days after the first of the carried month. */
  function MakeDate(y: int, m: int, d: int): (r: Date)
    ensures IsNormalized(r)
    ensures DayNumber(r) == DayNumber(Date(y + m / 12, m % 12, 1)) + d - 1
    ensures IsNormalized(Date(y + m / 12, m % 12, d)) ==> r == Date(y + m / 12, m % 12, d)
  {
    Normalize(Date(y + m / 12, m % 12, d))
  }

  /** Day numbers grow by at least 365 a year. */
  lemma {:induction false} DaysBeforeYearGrows(a: int, b: int)
    requires a <= b
    ensures DaysBeforeYear(a) + 365 * (b - a) <= DaysBeforeYear(b)
    decreases b - a
  {
    if a < b {
      YearLength(a);
      DaysBeforeYearGrows(a + 1, b);
    }
  }

  /** Later months of a year start after earlier months end. */
  lemma {:induction false} MonthsInOrder(y: int, m: MonthIndex, n: MonthIndex)
    requires m < n
    ensures DaysBeforeMonth(y, m) + DaysInMonth(y, m) <= DaysBeforeMonth(y, n)
    decreases n - m
  {
    if m + 1 < n {
      MonthsInOrder(y, m, n - 1);
    }
  }

  /** A normalized date falls within its own year's range of day numbers. */
  lemma {:induction false} DayNumberWithinYear(d: Date)
    requires IsNormalized(d)
    ensures DaysBeforeYear(d.year) <= DayNumber(d) < DaysBeforeYear(d.year + 1)
  {
    MonthsFillYear(d.year);
    if d.month < 11 {
      MonthsInOrder(d.year, d.month, 11);
    }
  }

  /** Two normalized dates with the same day number are the same date, so the
      day number identifies a `Date` and MakeDate's contract fixes its result. */
  lemma {:induction false} DayNumberInjective(a: Date, b: Date)
    requires IsNormalized(a) && IsNormalized(b)
    requires DayNumber(a) == DayNumber(b)
    ensures a == b
  {
    DayNumberWithinYear(a);
    DayNumberWithinYear(b);
    if a.year < b.year {
      DaysBeforeYearGrows(a.year + 1, b.year);
    } else if b.year < a.year {
      DaysBeforeYearGrows(b.year + 1, a.year);
    } else if a.month < b.month {
      MonthsInOrder(a.year, a.month, b.month);
    } else if b.month < a.month {
      MonthsInOrder(a.year, b.month, a.month);
    }
  }

  /** "Day 0 of the next month" is the last day of this month, so its day of
      the month is this month's length. */
  lemma {:induction false} DayZeroIsLastDay(y: int, m: MonthIndex)
    ensures MakeDate(y, m + 1, 0) == Date(y, m, DaysInMonth(y, m))
    ensures MakeDate(y, m + 1, 0).day == DaysInMonth(y, m)
  {
    var r := MakeDate(y, m + 1, 0);
    var last := Date(y, m, DaysInMonth(y, m));
    if m == 11 {
      assert (m + 1) / 12 == 1 && (m + 1) % 12 == 0;
    } else {
      assert (m + 1) / 12 == 0 && (m + 1) % 12 == m + 1;
    }
    assert DayNumber(r) == DayNumber(NextMonth(y, m)) - 1;
    MonthStep(y, m);
    DayNumberInjective(r, last);
  }

  /** Moving a date by `n` days through `setDate(getDate() + n)` moves its day
      number by exactly `n`. */
  lemma {:induction false} AddDays(d: Date, n: int)
    ensures DayNumber(MakeDate(d.year, d.month, d.day + n)) == DayNumber(d) + n
  {
    assert d.month / 12 == 0 && d.month % 12 == d.month;
    assert DayNumber(Date(d.year, d.month, 1)) + d.day - 1 == DayNumber(d);
  }
}
