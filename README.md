# Gantt chart: a verified model of the timeline component

The app is a single-page Gantt chart editor, and almost all of its behaviour
lives in one React component, `components/gantt-chart.tsx`. The user keeps a
plan in that component. A plan is an ordered list of coloured phases, and each
phase holds an ordered list of tasks. A task has a start date and a duration in
days. Beside the plan, the component shows a timeline of consecutive months
that begins at the current month. Each task is drawn as a bar on that timeline.
Each phase gets one summary bar that runs from the earliest start of its tasks
to the latest end of its tasks.

The model has five Dafny modules, and it follows the component's own helpers
and handlers:

- `Calendar` (calendar.dfy) covers the parts of JavaScript's `Date` that the
  component uses:
  - a date is a `(year, month 0..11, day)` triple of the proleptic Gregorian
    calendar;
  - `DayNumber` counts whole days since 1 January of year 1;
  - `new Date(y, m, d)`, for the years the component passes, is `MakeDate`,
    which carries an out-of-range month into the year and an out-of-range
    day into the months around it;
  - `setDate(getDate() + n)` is a `MakeDate` whose day is `d + n`.
- `MonthWindow` (month_window.dfy) models the visible window: `generateMonths`
  with its loop, and the two header buttons that rebuild the window one month
  shorter or one month longer.
- `Geometry` (geometry.dfy) models `calculateTaskPosition` and
  `calculatePhaseSpan`. Bars are percentages of the window's days.
  Percentages are exact reals.
- `IdLists` (id_lists.dfy) holds the two list idioms that every update is
  built from. One replaces the elements that carry a given id; the other drops
  them.
- `Plan` (plan.dfy) models the plan's datatypes, the default palette, and
  every handler that changes the plan. Each handler is a function from the old
  plan to the new one, matching how the component replaces its whole state on
  every change. `Step` combines the handlers into one state machine.

Values the running program takes from the outside world are parameters of the
model:

- the current date `now`, from `new Date()`;
- today's date, from `toISOString`;
- the ids `Date.now()` hands out.

Three behaviours of the code are worth stating plainly, because a reader
might expect otherwise:

- The window is only ever rebuilt from the current month. The "previous"
  button rebuilds it one month shorter and is disabled below two months; the
  "next" button rebuilds it one month longer (`ShrinkWindow`, `GrowWindow`).
  No month is inserted or removed at a position.
- Neither a task bar's width nor a phase bar's width is capped, so both can
  reach past the window's right edge (`TaskWidthUncapped`,
  `PhaseWidthUncapped`).
- Deleting a task or a phase takes effect at once (`RemoveTask`,
  `DeletePhase`).

## Model

| member | source | states |
|---|---|---|
| Calendar.DaysInMonth | components/gantt-chart.tsx:16 | a month has 28 to 31 days, and it has 29 exactly for February of a Gregorian leap year |
| Calendar.MonthStep | components/gantt-chart.tsx:11 | the first of the next month, across a year boundary too, comes exactly this month's length after the first of this month |
| Calendar.RollForward | components/gantt-chart.tsx:41 | a day past the end of its month is carried into later months; the result is a valid date on the same day number |
| Calendar.RollBack | components/gantt-chart.tsx:16 | a day before the start of its month (day 0 or less) is carried into earlier months; the result is a valid date on the same day number |
| Calendar.Normalize | components/gantt-chart.tsx:16 | any day of the month is rolled over to a valid date on the same day number; a valid date is left as it is |
| Calendar.MakeDate | components/gantt-chart.tsx:11 | `new Date(y, m, d)` is a valid date lying `d - 1` days after the first of month `m` (the month carried into the year, with -1 as December of the year before); it is the literal triple whenever that is valid |
| Calendar.DayNumberInjective | components/gantt-chart.tsx:16 | two valid dates with the same day number are equal, so a date is determined by its day number |
| Calendar.DayZeroIsLastDay | components/gantt-chart.tsx:16 | "day 0 of the month after" is the last day of the month, so its day of the month is that month's length, December included |
| Calendar.AddDays | components/gantt-chart.tsx:40-41 | `setDate(getDate() + n)` moves a date by exactly `n` days, whatever months it crosses |
| MonthWindow.GenerateMonths | components/gantt-chart.tsx:7-21 | the loop returns exactly `count` months, and the `i`-th of them is the month `i` months after the month of `now`, with its year rolled over, its calendar length and its first day as start date |
| MonthWindow.BuiltMonthIsMonthAt | components/gantt-chart.tsx:11-17 | the record built for offset `i` is the month `i` months after the month of `now` |
| MonthWindow.WindowExtends | components/gantt-chart.tsx:12 | pushing the next month onto a window keeps it a window from `now` |
| MonthWindow.ShrinkWindow | components/gantt-chart.tsx:321-327 | the "previous" button changes nothing below two months; otherwise the window is rebuilt from `now` one month shorter, so at least one month always remains |
| MonthWindow.GrowWindow | components/gantt-chart.tsx:328-333 | the "next" button rebuilds the window from `now` one month longer |
| MonthWindow.WindowIsContiguous | components/gantt-chart.tsx:10-18 | each month of a generated window is a whole calendar month and begins the day after the previous one ends |
| MonthWindow.NextOffsetFollows | components/gantt-chart.tsx:11 | the month at offset `i + 1` begins right after the month at offset `i`, across a year boundary too |
| MonthWindow.WindowHasDistinctMonths | components/gantt-chart.tsx:7-21 | no (year, month) pair occurs twice in a generated window |
| IdLists.MapWhere | components/gantt-chart.tsx:153-155 | `map` with an id test keeps the length and the order, applies the update to exactly the elements with the id, and leaves every other element unchanged |
| IdLists.FilterOut | components/gantt-chart.tsx:163 | `filter` on `id !== x` keeps exactly the elements without the id, each with its number of occurrences, and never grows the list |
| IdLists.FilterOutOne | components/gantt-chart.tsx:163 | a one-element list keeps its element exactly when the element lacks the id |
| IdLists.FilterOutAppend | components/gantt-chart.tsx:163 | filtering a concatenation gives the kept elements of the first part followed by those of the second, so (with FilterOutOne) the kept elements stay in their original order |
| IdLists.FilterOutSingle | components/gantt-chart.tsx:163 | removing the only element with an id from `before + [x] + after` gives `before + after` |
| IdLists.AbsentKeyChangesNothing | components/gantt-chart.tsx:153-168 | when no element carries the id, both the map and the filter return the list unchanged |
| IdLists.FilterOutIdempotent | components/gantt-chart.tsx:163 | filtering an id out twice gives the same list as filtering it out once |
| IdLists.FilterOutKeepsDistinct | components/gantt-chart.tsx:163 | filtering cannot make two ids equal: distinct ids stay distinct |
| Plan.AddPhase | components/gantt-chart.tsx:126-133 | "Add Phase" keeps every existing phase and appends one phase with the new id, the name "New Phase", no tasks and palette colour number `count mod 12` |
| Plan.ColoursCycle | components/gantt-chart.tsx:60-64 | phases added one by one to an empty plan take the twelve palette colours in turn, starting over after the twelfth |
| Plan.AddTask | components/gantt-chart.tsx:135-150 | the "+" button appends a five-day "New Task" starting today to the phase with the id; its name and colour stay, and every other phase is unchanged |
| Plan.UpdatePhase | components/gantt-chart.tsx:152-156 | the fields given replace the phase's name or colour, the fields not given keep their values, the id and tasks never change, and every other phase is unchanged |
| Plan.RemoveTask | components/gantt-chart.tsx:158-168 | the phase with the id loses exactly the tasks with the task id, and its remaining tasks are the filter of its tasks (whose order FilterOutAppend fixes); its id, name and colour and every other phase are unchanged |
| Plan.RemoveTaskClosesGap | components/gantt-chart.tsx:158-168 | removing the only task with an id from a phase leaves the tasks before it followed by the tasks after it, unchanged |
| Plan.DeletePhase | components/gantt-chart.tsx:216 | the "x" button keeps exactly the phases without the id, each as often as before, and drops the others with their tasks |
| Plan.DeletePhaseKeepsOrder | components/gantt-chart.tsx:216 | deleting from a concatenation deletes from each part and keeps the parts in order, so the remaining phases keep their display order |
| Plan.DeletePhaseClosesGap | components/gantt-chart.tsx:216 | deleting the only phase with an id leaves the phases before it followed by the phases after it, unchanged |
| Plan.EditTask | components/gantt-chart.tsx:232-279 | the name, date or duration input changes that one field of the tasks with the task id in the phase with the id; all other tasks and phases are unchanged |
| Plan.UnknownPhaseIsNoOp | components/gantt-chart.tsx:135-279 | every action on a phase id that no phase carries leaves the plan unchanged |
| Plan.UnknownTaskIsNoOp | components/gantt-chart.tsx:158-168 | removing or editing a task id that the phase does not hold leaves the plan unchanged |
| Plan.RemoveTaskIdempotent | components/gantt-chart.tsx:158-168 | removing a task a second time changes nothing |
| Plan.DeletePhaseIdempotent | components/gantt-chart.tsx:216 | deleting a phase a second time changes nothing |
| Plan.SameIdsStayDistinct | components/gantt-chart.tsx:153-155 | an update that keeps every phase's id in place keeps the phase ids distinct |
| Plan.AddPhaseKeepsIdsDistinct | components/gantt-chart.tsx:126-133 | adding a phase under a fresh id keeps phase ids distinct and task ids distinct within each phase |
| Plan.AddTaskKeepsIdsDistinct | components/gantt-chart.tsx:135-150 | adding a task under an id fresh in its phase keeps all ids distinct |
| Plan.UpdatePhaseKeepsIdsDistinct | components/gantt-chart.tsx:152-156 | renaming or recolouring keeps all ids distinct |
| Plan.RemoveTaskKeepsIdsDistinct | components/gantt-chart.tsx:158-168 | removing a task keeps all ids distinct |
| Plan.DeletePhaseKeepsIdsDistinct | components/gantt-chart.tsx:216 | deleting a phase keeps all ids distinct |
| Plan.EditTaskKeepsIdsDistinct | components/gantt-chart.tsx:232-279 | editing a task keeps all ids distinct |
| Plan.StepKeepsIdsDistinct | components/gantt-chart.tsx:126-279 | every user action keeps the ids well keyed, provided that each id the clock hands out is new where the action puts it |
| Geometry.Place | components/gantt-chart.tsx:29-30 | a bar's left edge is never left of the window |
| Geometry.TaskPosition | components/gantt-chart.tsx:23-33 | a task bar's left edge is never left of the window |
| Geometry.TaskEnd | components/gantt-chart.tsx:39-41 | a task's end date is a valid date exactly `duration` days after its start |
| Geometry.EarliestStart | components/gantt-chart.tsx:45 | `Math.min` over the starts is a lower bound of every task's start and equals the start of one of them |
| Geometry.LatestEnd | components/gantt-chart.tsx:46 | `Math.max` over the ends is an upper bound of every task's end and equals the end of one of them |
| Geometry.PhaseSpan | components/gantt-chart.tsx:35-58 | a phase has no bar exactly when it has no tasks, and a bar it has never starts left of the window |
| Geometry.PlaceLeft | components/gantt-chart.tsx:29 | `Math.max(..., 0)` gives the offset's percentage when the bar starts inside the window, and 0 when it starts before it |
| Geometry.PlaceRightEdge | components/gantt-chart.tsx:29-30 | a bar's right edge is the percentage of its clipped offset plus its full length, so a bar that starts before the window keeps its whole width |
| Geometry.PlaceCovers | components/gantt-chart.tsx:29-30 | the bar of a day range that contains another range covers that range's bar on both sides |
| Geometry.TotalDaysBounds | components/gantt-chart.tsx:26 | a contiguous window of `n` months holds between `28n` and `31n` days |
| Geometry.StartOffset | components/gantt-chart.tsx:25-28 | month `k` begins as many days after the window's first day as the months before it hold |
| Geometry.PrefixDays | components/gantt-chart.tsx:26 | the months before month `k` hold no more days than the whole window |
| Geometry.WindowExtent | components/gantt-chart.tsx:26 | `totalDays` is positive, and the first day after the window lies exactly `totalDays` days after its first day |
| Geometry.DayInWindow | components/gantt-chart.tsx:28 | day `d` of month `k` is the days of the earlier months plus `d - 1` after the window's first day, and it falls before the window's end |
| Geometry.TaskBarEdges | components/gantt-chart.tsx:23-33 | the left edge is the start's day offset as a percentage of the window when the task starts inside, and 0 when it starts before; the width is the duration as a percentage of the window |
| Geometry.TaskLeftFromContainingMonth | components/gantt-chart.tsx:23-33 | a task that starts on day `d` of a visible month has its left edge at the days before that day over the window's days, which lies in [0, 100) |
| Geometry.TaskBarFitsIffEndsInWindow | components/gantt-chart.tsx:29-30 | the bar of a task that starts inside the window ends by 100% exactly when the task ends by the window's end |
| Geometry.TaskWidthUncapped | components/gantt-chart.tsx:30 | a task bar is wider than 100% exactly when the task lasts longer than the window shows |
| Geometry.LatestEndIsLastTaskEnd | components/gantt-chart.tsx:38-46 | the latest end is the `setDate` end date of one of the tasks, and no task ends later |
| Geometry.PhaseSpanCoversTasks | components/gantt-chart.tsx:35-58 | a phase bar exists and covers every one of its tasks' bars on both sides |
| Geometry.PhaseWidthUncapped | components/gantt-chart.tsx:52-55 | the phase bar's width is the days from the earliest start to the latest end as a percentage of the window, and it exceeds 100% exactly when that span is longer than the window |
| Geometry.PhaseSpanStartsAtTask | components/gantt-chart.tsx:45-54 | the phase bar's left edge is the left edge of its earliest task's bar |
| Geometry.PhaseSpanEndsAtTask | components/gantt-chart.tsx:46-55 | when no task starts before the window, the phase bar's right edge is the right edge of the bar of the task that ends last |
| Geometry.PhaseSpanSingleTask | components/gantt-chart.tsx:35-58 | a phase with one task gets exactly that task's bar |
| Geometry.AprilTaskExample | components/gantt-chart.tsx:23-33 | in a March–April 2025 window of 61 days, a ten-day task from 5 April sits at 35/61 of the window and is 10/61 of it wide |
| Geometry.MarchPhaseExample | components/gantt-chart.tsx:35-58 | in that window, tasks from 1 March (5 days) and 10 March (3 days) give a phase bar at 0% that is 12/61 of the window wide |

## Left out

- Loading the plan from `localStorage` and saving it after every change
  (lines 72-79 and 89-92) are I/O. The model starts from any plan.
- The sidebar's drag-to-resize (lines 94-124) and its 15%–50% clamp are left
  out. They are pointer event handling on screen geometry and never touch the
  plan or the window.
- The rendering (lines 171-453) is left out: month headers, the day grid,
  minimum widths, the overlay, and the colour picker's open/closed state and
  custom-colour input. What the picker does to the plan is `UpdatePhase`,
  which the model covers.
- The clock is not modelled. `new Date()`, `Date.now()` ids and today's date
  are parameters. The id-distinctness lemmas assume that the clock hands out
  fresh ids, which the running program does not guarantee: two clicks in the
  same millisecond get equal ids.
- Time of day, time zones and daylight saving are not modelled:
  - A stored `YYYY-MM-DD` start date is parsed as UTC midnight, while the
    window starts at local midnight. The model treats both as the same civil
    day, so `Math.floor`/`Math.ceil` of a millisecond difference is an exact
    day count.
  - The same goes for today's date taken from `toISOString`.
- Dates are Gregorian day numbers with no range limit. JavaScript's
  ±100,000,000-day `Date` range is not modelled.
- Calendar.MakeDate: does not model that JavaScript's `new Date(y, m, d)`
  reads a year from 0 to 99 as 1900 to 1999. The component only passes the
  current year and the years after it, and `MakeDate` keeps the year as
  given.
- A task's start date is always a valid date. Clearing the date input stores
  an empty string, `new Date("")` is an invalid date, and the task's bar
  position then becomes `NaN`. Through `Math.min` and `Math.max` that `NaN`
  also spoils the bar of the task's phase. `Reschedule` carries a `Date`, so
  the model cannot express this.
- A task's `duration` is an integer. `parseInt` of an empty or non-numeric
  input gives `NaN`, and what the bars then show is not modelled.
- Percentages are exact reals. Floating-point rounding, and the formatting of
  `left`/`width` as `"<number>%"` strings, are not modelled.
- The locale month name (`toLocaleString`) is not modelled.
- `Plan.AddPhase` takes the colour index from the plan it extends. The
  component reads `phases.length` from the render that created the handler,
  which is the same value unless two additions are queued before a re-render.
- `app/page.tsx`, which only mounts the component, is not part of this model.
