/**
 * Bar geometry: where a task bar or a phase's summary bar sits on the
 * timeline, as a left offset and a width, both percentages of the whole
 * visible window. Percentages are exact reals; day counts are whole days.
 */
module Geometry {
  import opened Calendar
  import opened MonthWindow
  import opened Options
  import opened Plan

  /** A bar's horizontal placement, in percent of the window's width. */
  datatype Span = Span(left: real, width: real)
  {
    /** The bar's right edge, in percent of the window. */
    function Right(): real {
      left + width
    }
  }

  /** The days the window shows: the sum of its months' lengths, added up
      from the first month on. */
  function TotalDays(months: seq<Month>): int {
    if |months| == 0 then 0 else TotalDays(months[..|months| - 1]) + months[|months| - 1].days
  }

  /** `days / total * 100`. */
  function Percent(days: int, total: int): real
    requires total > 0
  {
    days as real / total as real * 100.0
  }

  /** `Math.max` on two numbers. */
  function Max(a: real, b: real): real {
    if a >= b then a else b
  }

  /** A bar that starts `offset` days after the window's first day and runs
      for `length` days: its left edge is floored at the window's left edge,
      its width is not capped. */
  function Place(offset: int, length: int, total: int): (s: Span)
    requires total > 0
    ensures s.left >= 0.0
  {
    Span(Max(Percent(offset, total), 0.0), Percent(length, total))
  }

  /** The day number of the window's first day. */
  function ViewStart(months: seq<Month>): int
    requires |months| > 0
  {
    DayNumber(months[0].startDate)
  }

  /** `calculateTaskPosition`: a task bar from the task's start and duration. */
  function TaskPosition(startDate: Date, duration: int, months: seq<Month>): (p: Span)
    requires |months| > 0 && TotalDays(months) > 0
    ensures p.left >= 0.0
  {
    Place(DayNumber(startDate) - ViewStart(months), duration, TotalDays(months))
  }

  /** The date `setDate(getDate() + duration)` gives for a task: the day its
      bar ends, exclusive. */
  function TaskEnd(t: Task): (e: Date)
    ensures IsNormalized(e)
    ensures DayNumber(e) == DayNumber(t.startDate) + t.duration
  {
    var s := t.startDate;
    assert s.month / 12 == 0 && s.month % 12 == s.month;
    assert Date(s.year + s.month / 12, s.month % 12, 1) == s.(day := 1);
    MakeDate(s.year, s.month, s.day + t.duration)
  }

  /** `Math.min` over the tasks' start days. */
  function EarliestStart(tasks: seq<Task>): (r: int)
    requires |tasks| > 0
    ensures forall i :: 0 <= i < |tasks| ==> r <= DayNumber(tasks[i].startDate)
    ensures exists i :: 0 <= i < |tasks| && r == DayNumber(tasks[i].startDate)
  {
    var last := DayNumber(tasks[|tasks| - 1].startDate);
    if |tasks| == 1 then last
    else
      var rest := EarliestStart(tasks[..|tasks| - 1]);
      if rest <= last then rest else last
  }

  /** `Math.max` over the tasks' end days. */
  function LatestEnd(tasks: seq<Task>): (r: int)
    requires |tasks| > 0
    ensures forall i :: 0 <= i < |tasks| ==> DayNumber(tasks[i].startDate) + tasks[i].duration <= r
    ensures exists i :: 0 <= i < |tasks| && r == DayNumber(tasks[i].startDate) + tasks[i].duration
  {
    var last := DayNumber(tasks[|tasks| - 1].startDate) + tasks[|tasks| - 1].duration;
    if |tasks| == 1 then last
    else
      var rest := LatestEnd(tasks[..|tasks| - 1]);
      if rest >= last then rest else last
  }

  /** `calculatePhaseSpan`: no bar for a phase without tasks; otherwise the
      bar from the earliest start to the latest end of its tasks. */
  function PhaseSpan(tasks: seq<Task>, months: seq<Month>): (r: Option<Span>)
    requires |months| > 0 && TotalDays(months) > 0
    ensures r.None? <==> |tasks| == 0
    ensures r.Some? ==> r.value.left >= 0.0
  {
    if |tasks| == 0 then None
    else
      var earliest := EarliestStart(tasks);
      Some(Place(earliest - ViewStart(months), LatestEnd(tasks) - earliest, TotalDays(months)))
  }

  // ---------------------------------------------------------------------------
  // Percentages

  /** Percentages of the same total compare as their day counts do. */
  lemma {:induction false} PercentOrder(a: int, b: int, total: int)
    requires total > 0
    ensures a <= b <==> Percent(a, total) <= Percent(b, total)
    ensures a < b <==> Percent(a, total) < Percent(b, total)
  {
    var t := total as real;
    assert Percent(b, total) - Percent(a, total) == (b - a) as real / t * 100.0;
  }

  /** A day count inside the window is a percentage from 0 up to, but not
      including, 100. */
  lemma {:induction false} PercentInWindow(days: int, total: int)
    requires 0 <= days < total
    ensures 0.0 <= Percent(days, total) < 100.0
  {
    PercentOrder(0, days, total);
    PercentOrder(days, total, total);
    assert (total as real) / (total as real) == 1.0;
    assert Percent(total, total) == 100.0;
  }

  /** Percentages of the same total add as their day counts do. */
  lemma {:induction false} PercentAdd(a: int, b: int, total: int)
    requires total > 0
    ensures Percent(a, total) + Percent(b, total) == Percent(a + b, total)
  {
  }

  /** A bar's left edge is its offset as a percentage when the offset is not
      negative, and the window's left edge otherwise. */
  lemma {:induction false} PlaceLeft(offset: int, length: int, total: int)
    requires total > 0
    ensures offset >= 0 ==> Place(offset, length, total).left == Percent(offset, total)
    ensures offset <= 0 ==> Place(offset, length, total).left == 0.0
  {
    PercentOrder(0, offset, total);
    assert Percent(0, total) == 0.0;
  }

  /** A bar's right edge, in days from the window's first day. */
  lemma {:induction false} PlaceRightEdge(offset: int, length: int, total: int)
    requires total > 0
    ensures Place(offset, length, total).Right()
            == Percent((if offset >= 0 then offset else 0) + length, total)
  {
    PlaceLeft(offset, length, total);
    PercentAdd(if offset >= 0 then offset else 0, length, total);
  }

  /** A bar over a span of days that contains another span covers the other
      span's bar: its left edge is no further right and its right edge no
      further left. */
  lemma {:induction false} PlaceCovers(inner: int, innerLength: int, outer: int, outerLength: int, total: int)
    requires total > 0
    requires outer <= inner && inner + innerLength <= outer + outerLength
    ensures Place(outer, outerLength, total).left <= Place(inner, innerLength, total).left
    ensures Place(inner, innerLength, total).Right()
            <= Place(outer, outerLength, total).Right()
  {
    var innerOffset := if inner >= 0 then inner else 0;
    var outerOffset := if outer >= 0 then outer else 0;
    PercentOrder(outerOffset, innerOffset, total);
    PlaceLeft(inner, innerLength, total);
    PlaceLeft(outer, outerLength, total);
    PlaceRightEdge(inner, innerLength, total);
    PlaceRightEdge(outer, outerLength, total);
    PercentOrder(innerOffset + innerLength, outerOffset + outerLength, total);
  }

  // ---------------------------------------------------------------------------
  // The window's days

  /** The first months of a contiguous window are contiguous too. */
  lemma {:induction false} ContiguousPrefix(months: seq<Month>, k: nat)
    requires IsContiguous(months) && k <= |months|
    ensures IsContiguous(months[..k])
  {
    var prefix := months[..k];
    forall j | 0 <= j < |prefix|
      ensures IsWholeMonth(prefix[j])
    {
      assert prefix[j] == months[j];
    }
    forall j | 0 < j < |prefix|
      ensures Follows(prefix[j - 1], prefix[j])
    {
      assert prefix[j] == months[j] && prefix[j - 1] == months[j - 1];
    }
  }

  /** Every month of a contiguous window lasts 28 to 31 days. */
  lemma {:induction false} TotalDaysBounds(months: seq<Month>)
    requires IsContiguous(months)
    ensures 28 * |months| <= TotalDays(months) <= 31 * |months|
  {
    if |months| > 0 {
      var init := months[..|months| - 1];
      ContiguousPrefix(months, |months| - 1);
      TotalDaysBounds(init);
    }
  }

  /** Taking one more month into a prefix adds that month's days. */
  lemma {:induction false} PrefixStep(months: seq<Month>, k: nat)
    requires k < |months|
    ensures TotalDays(months[..k + 1]) == TotalDays(months[..k]) + months[k].days
  {
    assert months[..k + 1][..k] == months[..k];
  }

  /** The first day of month `k` lies TotalDays(months[..k]) days after the
      window's first day. */
  lemma {:induction false} StartOffset(months: seq<Month>, k: nat)
    requires IsContiguous(months) && k < |months|
    ensures DayNumber(months[k].startDate) == ViewStart(months) + TotalDays(months[..k])
  {
    if k > 0 {
      var prev := months[k - 1];
      StartOffset(months, k - 1);
      PrefixStep(months, k - 1);
      assert Follows(prev, months[k]) && IsWholeMonth(prev);
      calc {
        DayNumber(months[k].startDate);
        DayNumber(NextMonth(prev.year, prev.month));
        { MonthStep(prev.year, prev.month); }
        DayNumber(prev.startDate) + prev.days;
        ViewStart(months) + TotalDays(months[..k - 1]) + prev.days;
        ViewStart(months) + TotalDays(months[..k]);
      }
    }
  }

  /** A prefix of the window holds no more days than the window. */
  lemma {:induction false} PrefixDays(months: seq<Month>, k: nat)
    requires IsContiguous(months) && k <= |months|
    ensures TotalDays(months[..k]) <= TotalDays(months)
    decreases |months|
  {
    if k < |months| {
      var init := months[..|months| - 1];
      ContiguousPrefix(months, |months| - 1);
      PrefixDays(init, k);
      assert init[..k] == months[..k];
    } else {
      assert months[..k] == months;
    }
  }

  /** `totalDays` is the window's extent: the first of the month after the
      last one shown lies exactly TotalDays days after the first day shown. */
  lemma {:induction false} WindowExtent(months: seq<Month>)
    requires IsContiguous(months) && |months| > 0
    ensures TotalDays(months) > 0
    ensures DayNumber(NextMonth(months[|months| - 1].year, months[|months| - 1].month))
            == ViewStart(months) + TotalDays(months)
  {
    var n := |months|;
    var last := months[n - 1];
    TotalDaysBounds(months);
    StartOffset(months, n - 1);
    assert IsWholeMonth(last);
    calc {
      DayNumber(NextMonth(last.year, last.month));
      { MonthStep(last.year, last.month); }
      DayNumber(last.startDate) + last.days;
      ViewStart(months) + TotalDays(months[..n - 1]) + last.days;
      ViewStart(months) + TotalDays(months);
    }
  }

  /** Day `d` of month `k` lies TotalDays(months[..k]) + d - 1 days after the
      window's first day, and before the window's end. */
  lemma {:induction false} DayInWindow(months: seq<Month>, k: nat, d: int)
    requires IsContiguous(months) && k < |months|
    requires 1 <= d <= months[k].days
    ensures DayNumber(Date(months[k].year, months[k].month, d)) - ViewStart(months)
            == TotalDays(months[..k]) + d - 1
    ensures 0 <= TotalDays(months[..k]) + d - 1 < TotalDays(months)
  {
    ContiguousPrefix(months, k);
    TotalDaysBounds(months[..k]);
    StartOffset(months, k);
    PrefixDays(months, k + 1);
    PrefixStep(months, k);
    assert IsWholeMonth(months[k]);
  }

  // ---------------------------------------------------------------------------
  // Task bars

  /** A task bar's left edge is the task's start, in days after the window's
      first day, as a percentage of the window; a task that starts before the
      window is drawn from its left edge. The width is the duration as a
      percentage of the window. */
  lemma {:induction false} TaskBarEdges(startDate: Date, duration: int, months: seq<Month>)
    requires |months| > 0 && TotalDays(months) > 0
    ensures DayNumber(startDate) >= ViewStart(months) ==>
              TaskPosition(startDate, duration, months).left
              == Percent(DayNumber(startDate) - ViewStart(months), TotalDays(months))
    ensures DayNumber(startDate) <= ViewStart(months) ==> TaskPosition(startDate, duration, months).left == 0.0
    ensures TaskPosition(startDate, duration, months).width == Percent(duration, TotalDays(months))
  {
    PlaceLeft(DayNumber(startDate) - ViewStart(months), duration, TotalDays(months));
  }

  /** A task that starts on day `d` of month `k` of the window is placed at
      the days of the months before it plus `d - 1`, out of the window's
      days: the left edge falls inside the window. */
  lemma {:induction false} TaskLeftFromContainingMonth(months: seq<Month>, k: nat, d: int, duration: int)
    requires IsContiguous(months) && k < |months|
    requires 1 <= d <= months[k].days
    ensures TotalDays(months) > 0
    ensures TaskPosition(Date(months[k].year, months[k].month, d), duration, months).left
            == Percent(TotalDays(months[..k]) + d - 1, TotalDays(months))
    ensures 0.0 <= TaskPosition(Date(months[k].year, months[k].month, d), duration, months).left < 100.0
  {
    var total := TotalDays(months);
    var start := Date(months[k].year, months[k].month, d);
    DayInWindow(months, k, d);
    var offset := TotalDays(months[..k]) + d - 1;
    assert TaskPosition(start, duration, months) == Place(offset, duration, total);
    PlaceLeft(offset, duration, total);
    PercentInWindow(offset, total);
  }

  /** The bar of a task that starts inside the window stays inside it exactly
      when the task ends by the window's last day; the width is not capped. */
  lemma {:induction false} TaskBarFitsIffEndsInWindow(startDate: Date, duration: int, months: seq<Month>)
    requires |months| > 0 && TotalDays(months) > 0
    requires DayNumber(startDate) >= ViewStart(months)
    ensures TaskPosition(startDate, duration, months).Right() <= 100.0
            <==> DayNumber(startDate) + duration <= ViewStart(months) + TotalDays(months)
  {
    var total := TotalDays(months);
    var offset := DayNumber(startDate) - ViewStart(months);
    assert TaskPosition(startDate, duration, months) == Place(offset, duration, total);
    PlaceRightEdge(offset, duration, total);
    PercentOrder(offset + duration, total, total);
    assert (total as real) / (total as real) == 1.0;
  }

  /** A task bar is wider than the whole window exactly when the task lasts
      longer than the window shows. */
  lemma {:induction false} TaskWidthUncapped(startDate: Date, duration: int, months: seq<Month>)
    requires |months| > 0 && TotalDays(months) > 0
    ensures TaskPosition(startDate, duration, months).width > 100.0 <==> duration > TotalDays(months)
  {
    PercentOrder(TotalDays(months), duration, TotalDays(months));
  }

  // ---------------------------------------------------------------------------
  // Phase bars

  /** The latest end is the end date, as `setDate` computes it, of some task,
      and no task ends after it. */
  lemma {:induction false} LatestEndIsLastTaskEnd(tasks: seq<Task>)
    requires |tasks| > 0
    ensures forall i :: 0 <= i < |tasks| ==> DayNumber(TaskEnd(tasks[i])) <= LatestEnd(tasks)
    ensures exists i :: 0 <= i < |tasks| && DayNumber(TaskEnd(tasks[i])) == LatestEnd(tasks)
  {
    var j :| 0 <= j < |tasks| && LatestEnd(tasks) == DayNumber(tasks[j].startDate) + tasks[j].duration;
    assert DayNumber(TaskEnd(tasks[j])) == LatestEnd(tasks);
  }

  /** The phase bar covers the bar of every one of its tasks. */
  lemma {:induction false} PhaseSpanCoversTasks(tasks: seq<Task>, months: seq<Month>, i: nat)
    requires |months| > 0 && TotalDays(months) > 0
    requires i < |tasks|
    ensures PhaseSpan(tasks, months).Some?
    ensures PhaseSpan(tasks, months).value.left
            <= TaskPosition(tasks[i].startDate, tasks[i].duration, months).left
    ensures TaskPosition(tasks[i].startDate, tasks[i].duration, months).Right()
            <= PhaseSpan(tasks, months).value.Right()
  {
    var total := TotalDays(months);
    var v := ViewStart(months);
    var e := EarliestStart(tasks);
    var l := LatestEnd(tasks);
    var s := DayNumber(tasks[i].startDate);
    var dur := tasks[i].duration;
    assert e <= s && s + dur <= l;
    assert PhaseSpan(tasks, months) == Some(Place(e - v, l - e, total));
    assert TaskPosition(tasks[i].startDate, dur, months) == Place(s - v, dur, total);
    PlaceCovers(s - v, dur, e - v, l - e, total);
  }

  /** The phase bar starts where the bar of its earliest task starts (such a
      task exists by EarliestStart's contract). */
  lemma {:induction false} PhaseSpanStartsAtTask(tasks: seq<Task>, months: seq<Month>, i: nat)
    requires |months| > 0 && TotalDays(months) > 0
    requires i < |tasks| && EarliestStart(tasks) == DayNumber(tasks[i].startDate)
    ensures PhaseSpan(tasks, months).Some?
    ensures PhaseSpan(tasks, months).value.left == TaskPosition(tasks[i].startDate, tasks[i].duration, months).left
  {
    PhaseSpanPlace(tasks, months);
  }

  /** The phase bar ends where the bar of the task that ends last ends (such
      a task exists by LatestEnd's contract), as long as no task starts before
      the window. A bar that starts before the window is not cut: it is drawn
      from the left edge with its full width (PlaceRightEdge), so its right
      edge lies further right than its last day by the days it began early;
      the phase bar and that task's bar are then shifted by different amounts. */
  lemma {:induction false} PhaseSpanEndsAtTask(tasks: seq<Task>, months: seq<Month>, j: nat)
    requires |months| > 0 && TotalDays(months) > 0
    requires j < |tasks| && LatestEnd(tasks) == DayNumber(tasks[j].startDate) + tasks[j].duration
    requires EarliestStart(tasks) >= ViewStart(months)
    ensures PhaseSpan(tasks, months).Some?
    ensures PhaseSpan(tasks, months).value.Right()
            == TaskPosition(tasks[j].startDate, tasks[j].duration, months).Right()
  {
    var e := EarliestStart(tasks);
    assert e <= DayNumber(tasks[j].startDate);
    PhaseSpanPlace(tasks, months);
    TaskBarMeets(tasks[j].startDate, tasks[j].duration, e, LatestEnd(tasks), months);
  }

  /** A task bar inside the window ends where a bar from an earlier day in
      the window to the task's last day ends. */
  lemma {:induction false} TaskBarMeets(d: Date, duration: int, from: int, to: int, months: seq<Month>)
    requires |months| > 0 && TotalDays(months) > 0
    requires ViewStart(months) <= from <= DayNumber(d) && to == DayNumber(d) + duration
    ensures Place(from - ViewStart(months), to - from, TotalDays(months)).Right()
            == TaskPosition(d, duration, months).Right()
  {
    var v := ViewStart(months);
    SameRightEdge(from - v, to - from, DayNumber(d) - v, duration, TotalDays(months));
  }

  /** A phase bar is placed as a bar from the earliest start to the latest
      end. */
  lemma {:induction false} PhaseSpanPlace(tasks: seq<Task>, months: seq<Month>)
    requires |months| > 0 && TotalDays(months) > 0
    requires |tasks| > 0
    ensures PhaseSpan(tasks, months)
            == Some(Place(EarliestStart(tasks) - ViewStart(months), LatestEnd(tasks) - EarliestStart(tasks), TotalDays(months)))
  {
  }

  /** The phase bar's width is the days from the earliest start to the latest
      end as a percentage of the window, with no cap: it is wider than the
      whole window exactly when that span is longer than the window. */
  lemma {:induction false} PhaseWidthUncapped(tasks: seq<Task>, months: seq<Month>)
    requires |months| > 0 && TotalDays(months) > 0
    requires |tasks| > 0
    ensures PhaseSpan(tasks, months).Some?
    ensures PhaseSpan(tasks, months).value.width == Percent(LatestEnd(tasks) - EarliestStart(tasks), TotalDays(months))
    ensures PhaseSpan(tasks, months).value.width > 100.0 <==> LatestEnd(tasks) - EarliestStart(tasks) > TotalDays(months)
  {
    PhaseSpanPlace(tasks, months);
    PlaceWidth(EarliestStart(tasks) - ViewStart(months), LatestEnd(tasks) - EarliestStart(tasks), TotalDays(months));
  }

  /** A bar's width is its length as a percentage, above 100 exactly when the
      length exceeds the window. */
  lemma {:induction false} PlaceWidth(offset: int, length: int, total: int)
    requires total > 0
    ensures Place(offset, length, total).width == Percent(length, total)
    ensures Place(offset, length, total).width > 100.0 <==> length > total
  {
    PercentOrder(total, length, total);
    assert (total as real) / (total as real) == 1.0;
    assert Percent(total, total) == 100.0;
  }

  /** Two bars that start inside the window and end on the same day share
      their right edge. */
  lemma {:induction false} SameRightEdge(o1: int, l1: int, o2: int, l2: int, total: int)
    requires total > 0
    requires o1 >= 0 && o2 >= 0 && o1 + l1 == o2 + l2
    ensures Place(o1, l1, total).Right() == Place(o2, l2, total).Right()
  {
    PlaceRightEdge(o1, l1, total);
    PlaceRightEdge(o2, l2, total);
  }

  /** A phase with a single task gets exactly that task's bar. */
  lemma {:induction false} PhaseSpanSingleTask(t: Task, months: seq<Month>)
    requires |months| > 0 && TotalDays(months) > 0
    ensures PhaseSpan([t], months) == Some(TaskPosition(t.startDate, t.duration, months))
  {
  }

  // ---------------------------------------------------------------------------
  // Worked examples: a window of March and April 2025

  /** A task starting on 5 April and lasting ten days sits 35 of the window's
      61 days from its left edge and is 10 of them wide. */
  lemma {:induction false} AprilTaskExample()
    ensures TotalDays([Month(2025, 2, 31, Date(2025, 2, 1)), Month(2025, 3, 30, Date(2025, 3, 1))]) == 61
    ensures TaskPosition(Date(2025, 3, 5), 10,
              [Month(2025, 2, 31, Date(2025, 2, 1)), Month(2025, 3, 30, Date(2025, 3, 1))])
            == Span(Percent(35, 61), Percent(10, 61))
  {
    var months := [Month(2025, 2, 31, Date(2025, 2, 1)), Month(2025, 3, 30, Date(2025, 3, 1))];
    assert months[..1] == [months[0]];
    assert DaysBeforeMonth(2025, 3) == DaysBeforeMonth(2025, 2) + 31;
  }

  /** Tasks from 1 March for five days and from 10 March for three days give a
      phase bar from 1 March twelve days long. */
  lemma {:induction false} MarchPhaseExample()
    ensures PhaseSpan([Task(1, "A", Date(2025, 2, 1), 5), Task(2, "B", Date(2025, 2, 10), 3)],
              [Month(2025, 2, 31, Date(2025, 2, 1)), Month(2025, 3, 30, Date(2025, 3, 1))])
            == Some(Span(0.0, Percent(12, 61)))
  {
    var months := [Month(2025, 2, 31, Date(2025, 2, 1)), Month(2025, 3, 30, Date(2025, 3, 1))];
    var tasks := [Task(1, "A", Date(2025, 2, 1), 5), Task(2, "B", Date(2025, 2, 10), 3)];
    var first := DayNumber(Date(2025, 2, 1));
    assert months[..1] == [months[0]];
    assert TotalDays(months) == 61;
    assert DayNumber(Date(2025, 2, 10)) == first + 9;
    assert tasks[..1] == [tasks[0]];
    assert EarliestStart(tasks) == first;
    assert LatestEnd(tasks) == first + 12;
    PhaseSpanPlace(tasks, months);
    PlaceLeft(0, 12, 61);
    assert Percent(0, 61) == 0.0;
  }
}
