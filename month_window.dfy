/**
 * The calendar window of the timeline: `count` consecutive months starting at
 * the month of "now", and the two header buttons that show one month fewer or
 * one month more. The clock is a parameter: `now` is the date the browser
 * reports when the window is built.
 */
module MonthWindow {
  import opened Calendar

  /** One month of the window. The locale month name is not modelled. */
  datatype Month = Month(year: int, month: MonthIndex, days: int, startDate: Date)

  /** `mo` is the month `i` months after the month of `now`: the year rolls
      over every twelve months, `days` is the month's calendar length and
      `startDate` is its first day. */
  predicate IsMonthAt(now: Date, i: nat, mo: Month) {
    && mo.year == now.year + (now.month + i) / 12
    && mo.month == (now.month + i) % 12
    && mo.days == DaysInMonth(mo.year, mo.month)
    && mo.startDate == Date(mo.year, mo.month, 1)
  }

  /** `months` holds, in order, the months starting at the month of `now`. */
  predicate IsWindowFrom(now: Date, months: seq<Month>) {
    forall i :: 0 <= i < |months| ==> IsMonthAt(now, i, months[i])
  }

  /** `mo` is a whole calendar month: its length is the month's length and it
      starts on the month's first day. */
  predicate IsWholeMonth(mo: Month) {
    mo.days == DaysInMonth(mo.year, mo.month) && mo.startDate == Date(mo.year, mo.month, 1)
  }

  /** Month `b` starts on the first day after month `a`. */
  predicate Follows(a: Month, b: Month) {
    b.startDate == NextMonth(a.year, a.month)
  }

  /** Each entry is a whole calendar month and each one follows the one before
      it without gap: the shape the bar geometry relies on. */
  predicate IsContiguous(months: seq<Month>) {
    && (forall k :: 0 <= k < |months| ==> IsWholeMonth(months[k]))
    && (forall k :: 0 < k < |months| ==> Follows(months[k - 1], months[k]))
  }

  /** Builds the window: for each offset `i` the first of month `now.month + i`
      (the `Date` constructor carries the month into the year), and its length
      read off as the day of "day 0 of the month after". */
  method GenerateMonths(now: Date, count: nat) returns (months: seq<Month>)
    ensures |months| == count
    ensures IsWindowFrom(now, months)
  {
    months := [];
    var i := 0;
    while i < count
      invariant 0 <= i <= count
      invariant |months| == i
      invariant IsWindowFrom(now, months)
    {
      var date := MakeDate(now.year, now.month + i, 1);
      var days := MakeDate(date.year, date.month + 1, 0).day;
      BuiltMonthIsMonthAt(now, i);
      WindowExtends(now, months, Month(date.year, date.month, days, date));
      months := months + [Month(date.year, date.month, days, date)];
      i := i + 1;
    }
  }

  /** The month the loop body of GenerateMonths builds for offset `i` is the
      month `i` months after the month of `now`. */
  lemma {:induction false} BuiltMonthIsMonthAt(now: Date, i: nat)
    ensures var date := MakeDate(now.year, now.month + i, 1);
            IsMonthAt(now, i, Month(date.year, date.month, MakeDate(date.year, date.month + 1, 0).day, date))
  {
    var date := MakeDate(now.year, now.month + i, 1);
    assert date == Date(now.year + (now.month + i) / 12, (now.month + i) % 12, 1);
    DayZeroIsLastDay(date.year, date.month);
  }

  /** Appending the next month keeps a window a window. */
  lemma {:induction false} WindowExtends(now: Date, months: seq<Month>, mo: Month)
    requires IsWindowFrom(now, months) && IsMonthAt(now, |months|, mo)
    ensures IsWindowFrom(now, months + [mo])
  {
    var r := months + [mo];
    forall i | 0 <= i < |r| ensures IsMonthAt(now, i, r[i]) {
      if i < |months| {
        assert r[i] == months[i];
      }
    }
  }

  /** The "previous" header button: disabled while fewer than two months are
      shown, otherwise the window is rebuilt from `now` one month shorter. */
  method ShrinkWindow(now: Date, months: seq<Month>) returns (next: seq<Month>)
    ensures |months| < 2 ==> next == months
    ensures |months| >= 2 ==> |next| == |months| - 1 && IsWindowFrom(now, next)
    ensures |months| >= 1 ==> |next| >= 1
  {
    if |months| < 2 {
      next := months;
    } else {
      next := GenerateMonths(now, |months| - 1);
    }
  }

  /** The "next" header button: the window is rebuilt from `now` one month
      longer. */
  method GrowWindow(now: Date, months: seq<Month>) returns (next: seq<Month>)
    ensures |next| == |months| + 1
    ensures IsWindowFrom(now, next)
  {
    next := GenerateMonths(now, |months| + 1);
  }

  /** A window built from `now` runs through consecutive calendar months. */
  lemma {:induction false} WindowIsContiguous(now: Date, months: seq<Month>)
    requires IsWindowFrom(now, months)
    ensures IsContiguous(months)
  {
    forall k | 0 < k < |months|
      ensures Follows(months[k - 1], months[k])
    {
      NextOffsetFollows(now, k - 1, months[k - 1], months[k]);
    }
  }

  /** The month at offset `i + 1` starts right after the month at offset `i`. */
  lemma {:induction false} NextOffsetFollows(now: Date, i: nat, a: Month, b: Month)
    requires IsMonthAt(now, i, a) && IsMonthAt(now, i + 1, b)
    ensures Follows(a, b)
  {
    var m := now.month + i;
    if m % 12 == 11 {
      assert (m + 1) / 12 == m / 12 + 1 && (m + 1) % 12 == 0;
    } else {
      assert (m + 1) / 12 == m / 12 && (m + 1) % 12 == m % 12 + 1;
    }
  }

  /** No calendar month appears twice in a window built from `now`. */
  lemma {:induction false} WindowHasDistinctMonths(now: Date, months: seq<Month>)
    requires IsWindowFrom(now, months)
    ensures forall i, j :: 0 <= i < j < |months| ==>
              (months[i].year, months[i].month) != (months[j].year, months[j].month)
  {
    forall i, j | 0 <= i < j < |months|
      ensures (months[i].year, months[i].month) != (months[j].year, months[j].month)
    {
      assert IsMonthAt(now, i, months[i]);
      assert IsMonthAt(now, j, months[j]);
      assert 12 * months[i].year + months[i].month == 12 * now.year + now.month + i;
      assert 12 * months[j].year + months[j].month == 12 * now.year + now.month + j;
    }
  }
}
