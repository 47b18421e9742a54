# chronos calendar and to-do core in Dafny

This project models the logic beneath the SwiftUI views of *chronos*, a macOS
calendar and to-do application, and proves properties about it. The modelled
logic covers:

- the week grids of the month views, with their week identifiers and the
  choice of the month shown in the header;
- the weekday header;
- the week views, with their titles and hour slots;
- the pop-up mini month of the date picker;
- the 12-hour time picker;
- `startOfMonth` and `MonthData`;
- the task lists and their tabs.

Dates are integer day numbers: day 0 is 0001-01-01 of the proleptic
Gregorian calendar, a Monday. `Gregorian` computes weekdays (Sunday = 1,
as Foundation numbers them), calendar components, month lengths, the first day
of a month, month arithmetic, and the start of the week holding a day for a
given `firstWeekday`. `Decimal` models Swift's integer interpolation, `Int(_:)`,
`String(format: "%02d")` and `split(separator:)` on strings. Events
carry a start moment (day, hour, minute). The task store behind `@Query` is a
sequence of tasks in query order.

Where the source changes state step by step, the model does too:

- every view whose `@State` the source updates is a class whose methods
  update its fields (`CalendarState`, `GridState`, `DatePicker`,
  `TextTimePicker`, `ListTimePicker`, `WeekCursor`, `GroupedTaskList`,
  `PlainTaskList`, `ContentView`, `TabBar`);
- every loop of the source is a method with a loop, proved against a
  function that specifies it (`GenerateAllWeeks`, `GenerateWeek`,
  `GenerateWeeks` and its helpers, `CollectWeeks`, `GenerateDayItems` and its
  two loops, `MostVisibleMonth`, `HeaviestMonth`, `GroupedTaskList.DeleteTask`).

Two fields the views read are missing from the stored models, so they are
added here:

- `CalendarEvent` gets `kind` (the `type` the week views switch on);
- `Task` gets `group` (`TaskGroup`: all, inbox, today, future).

`Task(name:)` without a group is filed under the inbox.

The date picker's cell id (`"prev-"` or `"current-"` followed by the day) is
kept as the flag and the day it is built from. `CustomDatePicker.IdText`
spells it out, and the ids are proved distinct as strings.

Facts about the code that the model follows:

- the per-day event lookup keeps input order; it does not sort by start time;
- `generateAllWeeks` produces no row when the range starts and ends on the
  same week-start day (`MonthlyCalendar.SameDayRangeHasNoRows`), because its
  loop runs only while the row start is before `endDate`;
- the visible-month choice does not break ties by the earliest month: both
  `updateVisibleMonth` and `updateVisibleMonthAccurate` take `max(by:)` over a
  dictionary, so among equally weighted months the pick depends on the
  dictionary's iteration order. `MostVisibleMonth`, `HeaviestMonth` and
  `Common.MaxEntry` therefore promise some month of greatest weight, not a
  particular one;
- the comment beside `startDayOfWeek` calls 1 Monday, but Foundation's weekday
  1 is Sunday (see Findings).

## Model

| member | source | states |
|---|---|---|
| Gregorian.DaysInMonth | chronos/components/Calendar/Pickers/CustomDatePicker.swift:26 | a month has 28 to 31 days, and 29 exactly for February of a leap year |
| Gregorian.CivilOf | chronos/components/Calendar/Month/MonthlyCalendar.swift:335-337 | the year, month and day components of a date form a valid calendar date that converts back to the same day number |
| Gregorian.CivilOfDayOf | chronos/components/Calendar/Month/MonthlyCalendar.swift:414 | `date(from:)` of a valid calendar date reads back as that date |
| Gregorian.WeekStartOf | chronos/components/Calendar/Month/MonthlyCalendar.swift:304-306 | the week start lies on the calendar's first weekday, 0 to 6 days on or before the date |
| Gregorian.WeekStartUnique | chronos/components/Calendar/Month/MonthCalendarGrid.swift:92-94 | any day on the first weekday at most six days before a date is that date's week start |
| Gregorian.StartOfMonth | chronos/Extensions/Date+Extensions.swift:5 | `startOfMonth()` has the same year and month as its input, day 1, and lies `day - 1` days before it |
| Gregorian.StartOfMonthIdempotent | chronos/Extensions/Date+Extensions.swift:5 | `startOfMonth()` is idempotent |
| Gregorian.SameMonthIffSameStart | chronos/components/Calendar/Month/MonthCalendarGrid.swift:175-178 | `isInSameMonthYear` holds exactly when both dates have the same first day of their month, so it is an equivalence |
| Gregorian.AddMonths | chronos/components/Calendar/Pickers/CustomDatePicker.swift:28 | adding k months moves the month count by exactly k and keeps the day, clamped to the new month's length |
| Decimal.DigitsOfNat | chronos/components/Calendar/Month/MonthlyCalendar.swift:338 | the decimal digits interpolated for a number read back as that number |
| Decimal.ParseIntToString | chronos/components/Calendar/Month/MonthlyCalendar.swift:405-407 | `Int(_:)` of an interpolated integer gives that integer back |
| Decimal.IntToStringInjective | chronos/components/Calendar/Month/MonthlyCalendar.swift:338 | different integers interpolate to different text |
| Decimal.ParseDigits | chronos/components/Calendar/Pickers/TimePicker.swift:147 | `Int(_:)` of non-empty digit text is the value of its digits |
| Decimal.Format02 | chronos/components/Calendar/Pickers/TimePicker.swift:22 | `%02d` text parses back to the number, and has two digits for 0 to 99 and at least two for any non-negative number |
| Decimal.Split | chronos/components/Calendar/Month/MonthlyCalendar.swift:403 | `split(separator:)` never yields an empty field |
| Decimal.SplitField | chronos/components/Calendar/Month/MonthlyCalendar.swift:403 | a field without the separator followed by the separator splits off as the first field |
| Events.EventsOnDay | chronos/components/Calendar/Month/MonthCalendarGrid.swift:181-185 | `eventsForDate` holds exactly the events starting on that day, each as often as in the input |
| Events.EventsOnDayAppend | chronos/components/Calendar/Month/MonthWeekRow.swift:54-58 | the lookup distributes over concatenation, so it keeps input order |
| Events.EventListedOnItsDayOnly | chronos/components/Calendar/Week/WeeklyCalendar.swift:120-124 | an event is listed under its start day and under no other |
| MonthlyCalendar.WeeksBefore | chronos/components/Calendar/Month/MonthlyCalendar.swift:309 | every emitted week starts before `endDate`, and the first start not emitted is at or after it |
| MonthlyCalendar.GenerateWeek | chronos/components/Calendar/Month/MonthlyCalendar.swift:321-331 | `generateWeek` returns seven dates, each one day after the previous |
| MonthlyCalendar.GenerateAllWeeks | chronos/components/Calendar/Month/MonthlyCalendar.swift:299-318 | the rows are the weeks from the week start of `startDate`, seven days apart, while they start before `endDate` |
| MonthlyCalendar.WeekRowsFlatten | chronos/components/Calendar/Month/MonthlyCalendar.swift:309-315 | read in order, the rows are consecutive days: none skipped, none repeated |
| MonthlyCalendar.RowsStartOnFirstWeekday | chronos/components/Calendar/Month/MonthlyCalendar.swift:304-306 | every row starts on the calendar's first weekday |
| MonthlyCalendar.GridCovers | chronos/components/Calendar/Month/MonthlyCalendar.swift:299-318 | the grid starts 0 to 6 days before `startDate` and holds every day from `startDate` up to `endDate` |
| MonthlyCalendar.SameDayRangeHasNoRows | chronos/components/Calendar/Month/MonthlyCalendar.swift:309 | a range starting and ending on the same week-start day yields no row |
| MonthlyCalendar.ParseWeekId | chronos/components/Calendar/Month/MonthlyCalendar.swift:402-417 | `parseWeekId` succeeds exactly when the id splits into three integer fields |
| MonthlyCalendar.WeekIdRoundTrip | chronos/components/Calendar/Month/MonthlyCalendar.swift:334-339 | parsing the id of a date gives back that date |
| MonthlyCalendar.TodayRowExists | chronos/components/Calendar/Month/MonthlyCalendar.swift:66-75 | when today is in the range, some row has today's week id, so the initial scroll target exists |
| MonthlyCalendar.DateWeightOfMonth | chronos/components/Calendar/Month/MonthlyCalendar.swift:391 | a date's weight depends only on its month: it is the per-date weight of the month starting on its first day, 1.5 for the selected date's month and 1 for any other (doubled to 3 and 2) |
| MonthlyCalendar.MostVisibleMonth | chronos/components/Calendar/Month/MonthlyCalendar.swift:356-363 | a month is found exactly when some date is visible, and no visible date's month has more visible dates than it |
| MonthlyCalendar.HeaviestMonth | chronos/components/Calendar/Month/MonthlyCalendar.swift:385-396 | a month is found exactly when some date is visible; it holds a visible date and no visible date's month weighs more |
| MonthlyCalendar.SelectedMonthWinsTies | chronos/components/Calendar/Month/MonthlyCalendar.swift:391-396 | another month with at most as many visible dates weighs strictly less than the selected date's month |
| MonthlyCalendar.AccurateMonth | chronos/components/Calendar/Month/MonthlyCalendar.swift:369-399 | a parseable forced week id gives the month of its start plus 3 days; otherwise the heaviest month, and none without visible dates |
| MonthlyCalendar.MidWeekPicksFebruary | chronos/components/Calendar/Month/MonthlyCalendar.swift:371-379 | the week of Monday 29 January 2024 is shown as February |
| MonthlyCalendar.DefaultHeaderMislabelsMondayFirst | chronos/components/Calendar/Month/MonthlyCalendar.swift:23 | with Monday-first weeks and the default `startDayOfWeek`, every header column names the weekday before the one beneath it |
| MonthlyCalendar.HeaderMatchesRows | chronos/components/Calendar/Month/MonthView.swift:62 | a header started on the calendar's first weekday names the weekday of every cell beneath it |
| MonthlyCalendar.CalendarState.constructor | chronos/components/Calendar/Month/MonthlyCalendar.swift:60-75 | today's week id, a range from two years back to one year ahead, and today selected and shown |
| MonthlyCalendar.CalendarState.UpdateVisibleMonth | chronos/components/Calendar/Month/MonthlyCalendar.swift:355-366 | the header moves to a month with the most visible dates and stays put when none is visible |
| MonthlyCalendar.CalendarState.UpdateVisibleMonthAccurate | chronos/components/Calendar/Month/MonthlyCalendar.swift:369-399 | the header moves to the forced week's mid-week month, else to the heaviest month, else stays put |
| MonthlyCalendar.CalendarState.HeaderLabels | chronos/components/Calendar/Month/MonthlyCalendar.swift:107-112 | the corrected header names, for every row of the grid, the weekday of the cell beneath each column |
| MonthlyCalendar.CalendarState.CellIsCurrentMonth | chronos/components/Calendar/Month/MonthWeekRow.swift:24 | a cell is drawn as in the shown month exactly when both lie in the month with the same first day |
| MonthlyCalendar.CalendarState.RowAppeared | chronos/components/Calendar/Month/MonthlyCalendar.swift:130-153 | when stable, a row whose first day is outside the shown month moves the header to that month, after which that day is in the shown month |
| MonthlyCalendar.CalendarState.SelectedDateChanged | chronos/components/Calendar/Month/MonthlyCalendar.swift:275-279 | when stable, the header follows the selection, so the selected cell is in the shown month |
| MonthlyCalendar.CalendarState.VisibleDatesChanged | chronos/components/Calendar/Month/MonthlyCalendar.swift:286-291 | when stable, the header moves to a month with the most visible dates |
| MonthlyCalendar.CalendarState.CellAppeared | chronos/components/Calendar/Month/MonthWeekRow.swift:32-35 | an appearing cell adds its date to the visible set and changes nothing else in it |
| MonthlyCalendar.CalendarState.CellDisappeared | chronos/components/Calendar/Month/MonthWeekRow.swift:36-39 | a disappearing cell removes its date and changes nothing else in the set |
| MonthlyCalendar.CalendarState.CellTapped | chronos/components/Calendar/Month/MonthWeekRow.swift:29-31 | a tap selects the cell's date |
| MonthlyCalendar.AppearThenDisappearRestores | chronos/components/Calendar/Month/MonthWeekRow.swift:34-38 | appearing then disappearing restores a set that did not hold the date |
| MonthCalendarGrid.StepsBack | chronos/components/Calendar/Month/MonthCalendarGrid.swift:129-136 | the front extension stops at the first week start at or before `startDate` |
| MonthCalendarGrid.StepsForward | chronos/components/Calendar/Month/MonthCalendarGrid.swift:139-146 | the back extension stops at the first week whose seventh day is at or after `endDate` |
| MonthCalendarGrid.WindowAroundToday | chronos/components/Calendar/Month/MonthCalendarGrid.swift:98-122 | the window holds two weeks before today's week, today's week and two weeks after, in order |
| MonthCalendarGrid.ExtendBefore | chronos/components/Calendar/Month/MonthCalendarGrid.swift:128-136 | inserting earlier weeks at the front keeps the rows consecutive weeks |
| MonthCalendarGrid.ExtendAfter | chronos/components/Calendar/Month/MonthCalendarGrid.swift:138-146 | appending later weeks keeps the rows consecutive weeks |
| MonthCalendarGrid.GenerateWeeks | chronos/components/Calendar/Month/MonthCalendarGrid.swift:88-149 | `generateWeeks()` is the five-week window around today, extended at both ends |
| MonthCalendarGrid.GridShape | chronos/components/Calendar/Month/MonthCalendarGrid.swift:88-164 | at least five rows of seven consecutive days, on the first weekday, seven days apart, starting at or before `startDate` and ending at or after `endDate` |
| MonthCalendarGrid.GridHoldsToday | chronos/components/Calendar/Month/MonthCalendarGrid.swift:92-112 | the grid holds the week of today, starting on today's week start |
| MonthCalendarGrid.GridMinimal | chronos/components/Calendar/Month/MonthCalendarGrid.swift:129-146 | the extensions add no week beyond the first that covers `startDate` or `endDate` |
| MonthCalendarGrid.GridState.constructor | chronos/components/Calendar/Month/MonthCalendarGrid.swift:7-22 | the grid starts with the bound selection and no week id for today |
| MonthCalendarGrid.GridState.RowAppeared | chronos/components/Calendar/Month/MonthCalendarGrid.swift:51-56 | the row holding today records its week id; the other rows change nothing |
| MonthCalendarGrid.GridState.CellTapped | chronos/components/Calendar/Month/MonthCalendarGrid.swift:44-46 | a tap selects the cell's date |
| MonthCalendarGrid.RowOfTodayHasTodayWeekId | chronos/components/Calendar/Month/MonthCalendarGrid.swift:53-54 | the recorded id of the row holding today is today's week id |
| MonthView.Chunks | chronos/components/Calendar/Month/MonthView.swift:31-37 | every row holds one to seven days |
| MonthView.FlattenChunks | chronos/components/Calendar/Month/MonthView.swift:21-37 | the rows, read in order, are exactly the enumerated days |
| MonthView.ChunksOfWeeks | chronos/components/Calendar/Month/MonthView.swift:34-37 | a whole number of weeks gives only full rows of seven |
| MonthView.TrailingSingleton | chronos/components/Calendar/Month/MonthView.swift:23-28 | one day more than whole weeks leaves a last row holding only that day |
| MonthView.CollectWeeks | chronos/components/Calendar/Month/MonthView.swift:16-38 | the enumeration loop chunks the days from the first week start through the last day into rows of seven |
| MonthView.WeeksAsWritten | chronos/components/Calendar/Month/MonthView.swift:4-41 | `weeks(for:)` as written: [] when a lookup fails, otherwise the chunks up to and including the last week's end |
| MonthView.Weeks | chronos/components/Calendar/Month/MonthView.swift:4-41 | `weeks(for:)` corrected: the chunks up to, not including, the last week's end |
| MonthView.GregorianMonthHoldsDate | chronos/components/Calendar/Month/MonthView.swift:5 | in the Gregorian calendar the month lookup succeeds, with the 28 to 31 days of the date's month from its first day |
| MonthView.WeekSpan | chronos/components/Calendar/Month/MonthView.swift:5-7 | for a month of at least one day, the first week's start and the last week's end are a whole, non-zero number of weeks apart and enclose the month |
| MonthView.GregorianWeeks | chronos/components/Calendar/Month/MonthView.swift:16-28 | with the calendar's week lookup and any month lookup that succeeds, the as-written enumeration runs through the last week's end and the corrected one stops just before it |
| MonthView.AsWrittenTrailingDay | chronos/components/Calendar/Month/MonthView.swift:23 | as written, whenever the month lookup succeeds, the last row holds only the first day after the month's last week, a day outside the month |
| MonthView.WeeksCoverMonth | chronos/components/Calendar/Month/MonthView.swift:4-41 | corrected, whenever the month lookup succeeds, the rows are full weeks of consecutive days that hold the whole month |
| WeekdayHeader.TruncRem7 | chronos/components/Calendar/CalendarWeekdayHeader.swift:12 | Swift's `%` by 7 leaves a remainder with the sign of the dividend |
| WeekdayHeader.HeaderRotates | chronos/components/Calendar/CalendarWeekdayHeader.swift:12 | for a start in 1..7, column 0 is the start, each column is in 1..7, and each is the cyclic successor of the one before |
| WeekdayHeader.HeaderClosedForm | chronos/components/Calendar/CalendarWeekdayHeader.swift:12 | for a start in 1..7, column i is the start plus i, less seven once it passes 7 |
| WeekdayHeader.HeaderIsPermutation | chronos/components/Calendar/CalendarWeekdayHeader.swift:11-12 | the seven columns name every weekday exactly once |
| WeekdayHeader.NegativeStartLeavesRange | chronos/components/Calendar/CalendarWeekdayHeader.swift:12 | a start outside 1..7 can label a column 0 |
| WeekdayHeader.HeaderLabelsRow | chronos/components/Calendar/CalendarWeekdayHeader.swift:12 | a header started on a row's first weekday names the weekday of every day of that row |
| CustomDatePicker.MonthBefore | chronos/components/Calendar/Pickers/CustomDatePicker.swift:28 | one month back lands in the calendar month before |
| CustomDatePicker.PreviousMonthDays | chronos/components/Calendar/Pickers/CustomDatePicker.swift:32-40 | the first loop gives the last `lead` days of the previous month, ascending, as cells outside the shown month |
| CustomDatePicker.CurrentMonthDays | chronos/components/Calendar/Pickers/CustomDatePicker.swift:43-50 | the second loop appends days 1 to the month's length, ascending, as cells of the shown month |
| CustomDatePicker.GenerateDayItems | chronos/components/Calendar/Pickers/CustomDatePicker.swift:22-53 | `generateDayItems()` is the leading run followed by the month's days, and nothing more |
| CustomDatePicker.DayItemCivil | chronos/components/Calendar/Pickers/CustomDatePicker.swift:32-50 | leading cells are the previous month's last days, ending on its last day; the rest are days 1.. of the shown month |
| CustomDatePicker.DayItemsUnderTheirWeekday | chronos/components/Calendar/Pickers/CustomDatePicker.swift:27-39 | cell i falls under column i % 7 of the Sunday-first header, and its date has that weekday |
| CustomDatePicker.DayItemsMonths | chronos/components/Calendar/Pickers/CustomDatePicker.swift:32-50 | a cell is flagged current exactly when its date shares month and year with the shown month; the others are in the month before |
| CustomDatePicker.DayItemsEndOnLastDay | chronos/components/Calendar/Pickers/CustomDatePicker.swift:43-52 | no next-month padding: the last cell is the month's last day |
| CustomDatePicker.DayItemIdsDistinct | chronos/components/Calendar/Pickers/CustomDatePicker.swift:32-50 | the cells' id strings are pairwise distinct |
| CustomDatePicker.DayItemsOfSameMonth | chronos/components/Calendar/Pickers/CustomDatePicker.swift:22-53 | the grid depends only on the shown month, not on the day within it |
| CustomDatePicker.PreviousThenNextRestoresGrid | chronos/components/Calendar/Pickers/CustomDatePicker.swift:70-83 | going back a month and forward again shows the same grid |
| CustomDatePicker.DatePicker.constructor | chronos/components/Calendar/Pickers/CustomDatePicker.swift:9-13 | the picker opens on the selected date's month with no day pressed |
| CustomDatePicker.DatePicker.PreviousMonthTapped | chronos/components/Calendar/Pickers/CustomDatePicker.swift:72 | the chevron moves the shown month back by exactly one |
| CustomDatePicker.DatePicker.NextMonthTapped | chronos/components/Calendar/Pickers/CustomDatePicker.swift:82 | the chevron moves the shown month forward by exactly one |
| CustomDatePicker.DatePicker.DayTapped | chronos/components/Calendar/Pickers/CustomDatePicker.swift:109-142 | a current-month cell becomes the selection, is marked pressed and closes the picker; other cells change nothing |
| CustomDatePicker.TapSelectsInShownMonth | chronos/components/Calendar/Pickers/CustomDatePicker.swift:110-113 | after any tap the selection is unchanged or a day of the shown month |
| TimePicker.DisplayHour | chronos/components/Calendar/Pickers/TimePicker.swift:19 | the 12-hour face shows 1..12, congruent to the hour modulo 12 |
| TimePicker.To24 | chronos/components/Calendar/Pickers/TimePicker.swift:182-187 | a face reading converts to an hour in 0..23 with that period and that face |
| TimePicker.HourRoundTrip | chronos/components/Calendar/Pickers/TimePicker.swift:182-187 | reading an hour on the face and converting back gives the hour |
| TimePicker.ToggleMovesTwelveHours | chronos/components/Calendar/Pickers/TimePicker.swift:96 | the AM/PM toggle is an involution and moves the hour by twelve |
| TimePicker.ValidateHour | chronos/components/Calendar/Pickers/TimePicker.swift:141-156 | the result is an hour in 1..12; text is kept exactly when it is one; empty or non-numeric becomes 12, below 1 becomes 1, above 12 becomes 12 |
| TimePicker.ValidateHourIdempotent | chronos/components/Calendar/Pickers/TimePicker.swift:141-156 | validating twice is validating once |
| TimePicker.ValidateMinute | chronos/components/Calendar/Pickers/TimePicker.swift:158-173 | the result is a minute up to 59; empty or non-numeric becomes 00, above 59 becomes 59, other values are kept and zero-padded |
| TimePicker.ValidateMinuteIdempotent | chronos/components/Calendar/Pickers/TimePicker.swift:158-173 | validating twice is validating once |
| TimePicker.HourFilter | chronos/components/Calendar/Pickers/TimePicker.swift:42-57 | non-digits are dropped; over two digits keep the first two; otherwise a value above 12 becomes "12", 0 becomes "1", and an hour 1..12 or an empty field is kept |
| TimePicker.HourFilterShortInput | chronos/components/Calendar/Pickers/TimePicker.swift:42-57 | up to two typed digits give an empty field or an hour in 1..12 |
| TimePicker.HourFilterSettles | chronos/components/Calendar/Pickers/TimePicker.swift:42-57 | after the re-entrant second pass the field is empty or an hour in 1..12 and stays so |
| TimePicker.MinuteFilter | chronos/components/Calendar/Pickers/TimePicker.swift:72-88 | non-digits are dropped; over two digits keep the first two; two digits become a two-digit minute capped at 59; fewer are kept as typed |
| TimePicker.MinuteFilterTwoDigits | chronos/components/Calendar/Pickers/TimePicker.swift:72-88 | two typed digits give a two-digit minute 00..59 |
| TimePicker.MinuteFilterFixed | chronos/components/Calendar/Pickers/TimePicker.swift:72-88 | a settled minute field is left as it is |
| TimePicker.MinuteFilterSettles | chronos/components/Calendar/Pickers/TimePicker.swift:72-88 | after the second pass the field is settled, and two digits name a minute 00..59 |
| TimePicker.Format02Digits | chronos/components/Calendar/Pickers/TimePicker.swift:168 | a two-digit minute is its own zero-padded rendering |
| TimePicker.InitThenUpdateKeepsTime | chronos/components/Calendar/Pickers/TimePicker.swift:175-202 | opening the picker on a time and committing it unchanged gives back the same time |
| TimePicker.TextTimePicker.constructor | chronos/components/Calendar/Pickers/TimePicker.swift:12-24 | the fields show the bound time's face hour, padded minute and period |
| TimePicker.TextTimePicker.HourTextChanged | chronos/components/Calendar/Pickers/TimePicker.swift:42-57 | the hour field becomes the filtered text |
| TimePicker.TextTimePicker.MinuteTextChanged | chronos/components/Calendar/Pickers/TimePicker.swift:72-88 | the minute field becomes the filtered text and stays all digits |
| TimePicker.TextTimePicker.ValidateHourText | chronos/components/Calendar/Pickers/TimePicker.swift:141-156 | the hour field is validated |
| TimePicker.TextTimePicker.ValidateMinuteText | chronos/components/Calendar/Pickers/TimePicker.swift:158-173 | the minute field is validated and stays all digits |
| TimePicker.TextTimePicker.UpdateTime | chronos/components/Calendar/Pickers/TimePicker.swift:175-201 | both fields are validated and the bound time becomes their time on the same day, a valid time |
| TimePicker.TextTimePicker.SubmitHour | chronos/components/Calendar/Pickers/TimePicker.swift:58-61 | submitting validates and commits the time |
| TimePicker.TextTimePicker.SubmitMinute | chronos/components/Calendar/Pickers/TimePicker.swift:89-92 | submitting validates and commits the time |
| TimePicker.TextTimePicker.TogglePeriod | chronos/components/Calendar/Pickers/TimePicker.swift:95-98 | the period flips, both fields are validated and the time is committed |
| TimePicker.TextTimePicker.TimeSelected | chronos/components/Calendar/Pickers/TimePicker.swift:126-131 | the chosen face hour, padded minute and period are shown, validated and committed |
| TimePicker.ListTimePicker.constructor | chronos/components/Calendar/Pickers/TimePicker.swift:305-317 | the lists select the bound time's face hour, minute and period, which convert back to its hour |
| TimePicker.ListTimePicker.UpdateSelectedTime | chronos/components/Calendar/Pickers/TimePicker.swift:383-404 | the bound time becomes the selection's 24-hour time on the same day, whose face and period are the selection |
| TimePicker.ListTimePicker.HourTapped | chronos/components/Calendar/Pickers/TimePicker.swift:331-334 | a tapped hour is selected and committed |
| TimePicker.ListTimePicker.MinuteTapped | chronos/components/Calendar/Pickers/TimePicker.swift:351-354 | a tapped minute is selected and committed |
| TimePicker.ListTimePicker.PeriodTapped | chronos/components/Calendar/Pickers/TimePicker.swift:371-374 | a tapped period is selected and committed |
| Weekly.WeekDays | chronos/components/Calendar/Week/WeeklyCalendarView.swift:147-157 | seven consecutive days from the week start of `currentDate` |
| Weekly.WeekDaysHoldDate | chronos/components/Calendar/Week/WeeklyCalendar.swift:115-118 | the week holds `currentDate`, starts on the first weekday, and is the same for every day in it |
| Weekly.WeekDaysShift | chronos/components/Calendar/Week/WeeklyCalendar.swift:115-118 | moving the date by k weeks shifts every shown day by 7k |
| Weekly.WeekRangeTitle | chronos/components/Calendar/Week/WeeklyCalendarView.swift:160-175 | no title for no days; otherwise "MMM d" for the first day and, for the last, "d, yyyy" exactly when the months match, else "MMM d, yyyy" |
| Weekly.AcrossNewYear | chronos/components/Calendar/Week/WeeklyCalendarView.swift:169 | days at most six apart in different years are in December and January |
| Weekly.WeekTitleOmitsMonthIffSameMonth | chronos/components/Calendar/Week/WeeklyCalendarView.swift:169-171 | for a shown week the month is left out exactly when both ends share month and year |
| Weekly.EventsInHour | chronos/components/Calendar/Week/WeeklyCalendarView.swift:238-243 | the slot holds exactly the events starting on the column's day in that hour |
| Weekly.StartingInHour | chronos/components/Calendar/Week/WeeklyCalendar.swift:152-157 | the slot holds exactly the given events starting in that hour |
| Weekly.DayColumnsAgree | chronos/components/Calendar/Week/WeeklyCalendar.swift:152-157 | filtering the day's events by hour equals the other view's combined filter, order included |
| Weekly.EventInOneSlot | chronos/components/Calendar/Week/WeeklyCalendarView.swift:238-243 | an event of the column's day is in the slot of its start hour and in no other |
| Weekly.SlotsPartitionDay | chronos/components/Calendar/Week/WeeklyCalendarView.swift:238-243 | the 24 slots together show every event of the day exactly once |
| Weekly.WeekCursor.constructor | chronos/components/Calendar/Week/WeeklyCalendar.swift:14 | the view opens on today |
| Weekly.WeekCursor.PreviousWeek | chronos/components/Calendar/Week/WeeklyCalendarView.swift:178-182 | the date moves back one week |
| Weekly.WeekCursor.NextWeek | chronos/components/Calendar/Week/WeeklyCalendarView.swift:185-189 | the date moves forward one week |
| Weekly.NavigationShowsNeighbourWeeks | chronos/components/Calendar/Week/WeeklyCalendar.swift:56-66 | a step forward shows the week right after the current one, and a step back the week right before it |
| MonthData.SameIsEquivalence | chronos/models/Month.swift:13-15 | `==` is reflexive, symmetric and transitive |
| MonthData.IdFields | chronos/models/Month.swift:10 | the id is the unpadded month, "-", then the year |
| MonthData.SameIffSameMonthYear | chronos/models/Month.swift:7-15 | two dates give equal `MonthData` exactly when they share month and year, whatever their days |
| Tasks.FilteredTasks | chronos/components/ToDoList/TaskList.swift:17-24 | all tasks for the all tab; otherwise exactly the tasks of the group, each as often as stored |
| Tasks.FilteredTasksAppend | chronos/components/ToDoList/TaskList.swift:17-24 | a task added at the end shows at the end of the lists it belongs to and changes no other list |
| Tasks.NewTaskGroup | chronos/components/ToDoList/TaskList.swift:100 | a new task joins the selected group, or the inbox from the all tab, never all |
| Tasks.NewTaskShowsInItsList | chronos/components/ToDoList/TaskList.swift:100-102 | a task added from a list shows at the end of that same list |
| Tasks.IdsAtMembers | chronos/components/ToDoList/TaskList.swift:109-110 | the deleted ids are exactly those of the shown tasks at the offsets |
| Tasks.DeleteRemovesShownTasks | chronos/components/ToDoList/TaskList.swift:108-113 | deletion removes exactly the shown tasks at the offsets, never a task of another group |
| Tasks.FilterKeepsWellFormed | chronos/components/ToDoList/TaskList.swift:111 | deleting from a store with distinct ids and no all-group task keeps it so |
| Tasks.Count | chronos/components/TabsView.swift:24-30 | a tab's count is the length of its list and at most the number of tasks |
| Tasks.CountsPartition | chronos/components/TabsView.swift:24-30 | the inbox, today and future counts add up to the all count |
| Tasks.GroupedTaskList.constructor | chronos/components/ToDoList/TaskList.swift:13-15 | the list opens on the store with an empty field |
| Tasks.GroupedTaskList.AddTask | chronos/components/ToDoList/TaskList.swift:95-105 | nothing for an empty field; otherwise one new uncompleted task in the new-task group, and the field cleared |
| Tasks.GroupedTaskList.DeleteTask | chronos/components/ToDoList/TaskList.swift:108-113 | the store loses the tasks the offsets pick from the shown list, and keeps distinct ids |
| Tasks.GroupedTaskList.RowDeleteTapped | chronos/components/ToDoList/TaskList.swift:74-76 | a row's delete button removes that task from the store |
| Tasks.PlainTaskList.constructor | chronos/components/TaskList.swift:15-16 | the list opens on the store with an empty field |
| Tasks.PlainTaskList.AddTask | chronos/components/TaskList.swift:76-82 | nothing for an empty field; otherwise one new task named by the text, and the field cleared |
| Tasks.KeptIndices | chronos/ContentView.swift:42 | the positions kept by `remove(atOffsets:)` are those not in the offsets, ascending |
| Tasks.RemoveAtOffsets | chronos/ContentView.swift:42 | the result holds the elements at the kept positions, in order |
| Tasks.RemoveAtOffsetsExtremes | chronos/ContentView.swift:42 | no offset in range keeps the list; every position removed empties it |
| Tasks.ContentView.constructor | chronos/ContentView.swift:4-5 | the view opens with no tasks and an empty field |
| Tasks.ContentView.AddTask | chronos/ContentView.swift:32-39 | nothing for an empty field; otherwise the new task is appended after the unchanged others, and the field is not cleared |
| Tasks.ContentView.DeleteTasks | chronos/ContentView.swift:41-43 | the tasks at the offsets are removed and the rest keep their order |
| Tasks.TabBar.constructor | chronos/components/TabsView.swift:5 | the bar shows the bound tab |
| Tasks.TabBar.TabTapped | chronos/components/TabsView.swift:33-35 | tapping a tab selects its group |

## Left out

- Time of day below the minute, time zones and daylight-saving transitions: dates are whole days in the proleptic Gregorian calendar, and years before 1 are not distinguished from Foundation's eras. In `MonthCalendarGrid.generateWeeks` the week starts keep the current time of day, since they are built from `Date()`. The model compares the extension loops' bounds in whole days instead. So when `startDate` is an earlier instant of a week-start day, `currentStart > startDate` adds one more week in the source than in `MonthCalendarGrid.GenerateWeeks`, and `lastDay < endDate` can add one more at the end. `MonthCalendarGrid.GridMinimal` holds for the whole-day comparison only.
- `date(byAdding:)` and `date(from:)` are total here. So the fallbacks for a failed lookup are never taken: the `guard`s in `generateWeeks`, the `?? currentMonth` on the chevrons, the empty `weekDates`, and `updateTime` keeping the old time. `weeks(for:)` takes its lookups as parameters and models their failure.
- `DateFormatter` output, locale and weekday names (`getWeekdayName`, `formatMonthYear`, the month title of the week views): only which pattern `weekRangeString` chooses is modelled.
- Character classes: `isNumber` is taken to be the ASCII digits 0 to 9.
- Integer width: `Int` overflow of very long digit strings in `Int(_:)` is not modelled.
- `MonthlyCalendar.WeekIdRoundTrip`: it is stated for dates from year 0 on. An earlier year's id carries a minus sign, which `split(separator: "-")` cuts apart.
- The store behind `@Query`: it is a sequence in insertion order, and `UUID()` is a fresh id supplied by the caller. Deleting from the store removes the task with that id. `deleteTask` reads the shown list once, before any deletion, because the query does not refresh within one call.
- `IndexSet` offsets are a sequence of in-range indices for `deleteTask` and a set for `remove(atOffsets:)`. The first needs in-range offsets, as SwiftUI's `onDelete` supplies; an out-of-range index traps in the source.
- Tasks.RemoveAtOffsets: offsets outside `0..<count` are ignored here rather than trapping. `onDelete` only supplies in-range offsets, so `ContentView.DeleteTasks` never meets them; the first clause of `Tasks.RemoveAtOffsetsExtremes` (offsets all out of range keep the list) is a fact about this model, not a promise of Swift's `remove(atOffsets:)`.
- `Tasks.ContentView.AddTask`: the list cells show `fillerText` rather than the task (ContentView.swift:20); this is presentation and is not modelled.
- The `asyncAfter` delay before the date picker closes is modelled as immediate.
- The resize, fullscreen and transition locks, scroll offsets, `scrollTo` and the debounce timers. Their combined effect is the `stable` parameter of the `CalendarState` handlers.
- Hover state, colours, sizes and the `CGFloat` layout arithmetic.
- The `print` in `addTask`.
- The `getWeekId`, `isInSameMonthYear` and `eventsForDate` copies in `MonthCalendarGrid`, `MonthWeekRow` and the week views are identical. Each is modelled once, as `MonthlyCalendar.WeekId`, `Gregorian.SameMonthYear` and `Events.EventsOnDay`.
- `MonthDayCell`'s `isSelected` and `isToday` flags are plain day equality and are not modelled separately.

## Findings

| source | as written | input that shows it | evidently intended | confidence | as-written member | corrected member |
|---|---|---|---|---|---|---|
| chronos/components/Calendar/Month/MonthView.swift:23 | the enumeration stops only at a date strictly after `monthLastWeek.end`, so the midnight equal to that end is still collected | any month, e.g. January 2024 with Sunday-first weeks: after the five full rows a sixth row holds only Sunday 4 February | stop at the first date at or after the last week's end, giving full weeks only | high (not executed) | MonthView.AsWrittenTrailingDay | MonthView.WeeksCoverMonth |
| chronos/components/Calendar/Month/MonthlyCalendar.swift:23 | the weekday header gets `startDayOfWeek`, default 1 (Sunday in Foundation, though commented as Monday), while the rows start on `calendar.firstWeekday` (line 305) | a calendar whose `firstWeekday` is 2 (Monday) with the default: every header column names the weekday before the cells beneath it | start the header on `calendar.firstWeekday`, as `MonthView` does (MonthView.swift:62) | high (not executed) | MonthlyCalendar.DefaultHeaderMislabelsMondayFirst | MonthlyCalendar.CalendarState.HeaderLabels |
