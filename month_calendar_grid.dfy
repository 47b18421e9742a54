/** The stand-alone month grid (`MonthCalendarGridView`): a window of five
    weeks centred on today's week, grown a week at a time at the front until
    it reaches `startDate` and at the back until it reaches `endDate`. */
module MonthCalendarGrid {
  import opened Common
  import opened Gregorian
  import opened MonthlyCalendar

  /** Weeks stepped back from `from` before a week start is at or before
      `bound`: the iterations of the front-extension loop. */
  function StepsBack(from: int, bound: int): (a: nat)
    ensures from - 7 * a <= bound
    ensures a == 0 || from - 7 * (a - 1) > bound
  {
    if from <= bound then 0 else (from - bound + 6) / 7
  }

  /** Weeks stepped forward from `from` before a week's seventh day is at or
      after `end`: the iterations of the back-extension loop. */
  function StepsForward(from: int, end: int): (b: nat)
    ensures from + 7 * b + 6 >= end
    ensures b == 0 || from + 7 * (b - 1) + 6 < end
  {
    if from + 6 >= end then 0 else (end - from) / 7
  }

  /** The rows `generateWeeks()` produces: the five weeks around today's
      week, then the extensions at both ends. */
  function GridWeeks(today: int, startDate: int, endDate: int, firstWeekday: WeekdayNumber): seq<seq<int>>
  {
    var t := WeekStartOf(today, firstWeekday);
    var a := StepsBack(t - 14, startDate);
    WeekRows(t - 14 - 7 * a, 5 + a + StepsForward(t + 14, endDate))
  }

  lemma WeekRowsPrepend(first: int, n: nat)
    ensures WeekRows(first - 7, n + 1) == [Range(first - 7, first)] + WeekRows(first, n)
  {
    var lhs := WeekRows(first - 7, n + 1);
    var rhs := [Range(first - 7, first)] + WeekRows(first, n);
    forall i | 0 <= i < n + 1 ensures lhs[i] == rhs[i] {
      if i > 0 {
        assert rhs[i] == WeekRows(first, n)[i - 1];
      }
    }
  }

  lemma WeekRowsAppend(first: int, n: nat)
    ensures WeekRows(first, n + 1) == WeekRows(first, n) + [Range(first + 7 * n, first + 7 * n + 7)]
  {
  }

  /** The first part of `generateWeeks()`: the two weeks before today's
      week (each inserted at the front), today's week, and the two weeks
      after it. */
  method WindowAroundToday(todayWeekStart: int) returns (allWeeks: seq<seq<int>>)
    ensures allWeeks == WeekRows(todayWeekStart - 14, 5)
  {
    allWeeks := [];
    var currentWeekStart := todayWeekStart;
    for k := 0 to 2
      invariant currentWeekStart == todayWeekStart - 7 * k
      invariant allWeeks == WeekRows(currentWeekStart, k)
    {
      currentWeekStart := currentWeekStart - 7;
      var week := GenerateWeek(currentWeekStart);
      assert week == Range(currentWeekStart, currentWeekStart + 7);
      WeekRowsPrepend(currentWeekStart + 7, k);
      allWeeks := [week] + allWeeks;
    }

    var week := GenerateWeek(todayWeekStart);
    assert week == Range(todayWeekStart, todayWeekStart + 7);
    WeekRowsAppend(todayWeekStart - 14, 2);
    allWeeks := allWeeks + [week];

    currentWeekStart := todayWeekStart;
    for k := 0 to 2
      invariant currentWeekStart == todayWeekStart + 7 * k
      invariant allWeeks == WeekRows(todayWeekStart - 14, 3 + k)
    {
      currentWeekStart := currentWeekStart + 7;
      week := GenerateWeek(currentWeekStart);
      assert week == Range(currentWeekStart, currentWeekStart + 7);
      WeekRowsAppend(todayWeekStart - 14, 3 + k);
      allWeeks := allWeeks + [week];
    }
  }

  /** The front-extension loop: insert earlier weeks while the first week
      starts after `startDate`. */
  method ExtendBefore(weeks: seq<seq<int>>, first: int, n: nat, startDate: int)
    returns (allWeeks: seq<seq<int>>, currentStart: int)
    requires weeks == WeekRows(first, n)
    ensures currentStart == first - 7 * StepsBack(first, startDate)
    ensures allWeeks == WeekRows(currentStart, n + StepsBack(first, startDate))
  {
    allWeeks := weeks;
    currentStart := first;
    ghost var a := 0;
    while currentStart > startDate
      invariant currentStart == first - 7 * a
      invariant 0 <= a <= StepsBack(first, startDate)
      invariant allWeeks == WeekRows(currentStart, n + a)
      decreases currentStart - startDate
    {
      currentStart := currentStart - 7;
      var week := GenerateWeek(currentStart);
      assert week == Range(currentStart, currentStart + 7);
      WeekRowsPrepend(currentStart + 7, n + a);
      allWeeks := [week] + allWeeks;
      a := a + 1;
    }
  }

  /** The back-extension loop: append later weeks while the last week's
      seventh day is before `endDate`. */
  method ExtendAfter(weeks: seq<seq<int>>, first: int, n: nat, endDate: int)
    returns (allWeeks: seq<seq<int>>)
    requires n >= 1 && weeks == WeekRows(first, n)
    ensures allWeeks == WeekRows(first, n + StepsForward(first + 7 * (n - 1), endDate))
  {
    allWeeks := weeks;
    var currentEnd := weeks[n - 1][0];
    ghost var b := 0;
    while currentEnd + 6 < endDate
      invariant currentEnd == first + 7 * (n - 1) + 7 * b
      invariant 0 <= b <= StepsForward(first + 7 * (n - 1), endDate)
      invariant allWeeks == WeekRows(first, n + b)
      decreases endDate - currentEnd
    {
      currentEnd := currentEnd + 7;
      var week := GenerateWeek(currentEnd);
      assert week == Range(currentEnd, currentEnd + 7);
      WeekRowsAppend(first, n + b);
      allWeeks := allWeeks + [week];
      b := b + 1;
    }
  }

  /** `generateWeeks()`, with today's date as a parameter. */
  method GenerateWeeks(today: int, startDate: int, endDate: int, firstWeekday: WeekdayNumber)
    returns (allWeeks: seq<seq<int>>)
    ensures allWeeks == GridWeeks(today, startDate, endDate, firstWeekday)
  {
    var todayWeekday := Weekday(today);
    var daysToSubtract := AlignOffset(todayWeekday, firstWeekday);
    var todayWeekStart := today - daysToSubtract;
    allWeeks := WindowAroundToday(todayWeekStart);
    var currentStart;
    allWeeks, currentStart := ExtendBefore(allWeeks, todayWeekStart - 14, 5, startDate);
    assert currentStart + 7 * (|allWeeks| - 1) == todayWeekStart + 14;
    allWeeks := ExtendAfter(allWeeks, currentStart, |allWeeks|, endDate);
  }

  /** The shape of the grid: at least five weeks, ascending with starts
      exactly seven days apart, every row a run of seven days starting on the
      calendar's first weekday, the first row at or before `startDate` and the
      last row's seventh day at or after `endDate`. */
  lemma GridShape(today: int, startDate: int, endDate: int, firstWeekday: WeekdayNumber)
    ensures var rows := GridWeeks(today, startDate, endDate, firstWeekday);
            |rows| >= 5 &&
            (forall i :: 0 <= i < |rows| ==> rows[i] == Range(rows[0][0] + 7 * i, rows[0][0] + 7 * i + 7)) &&
            (forall i :: 0 <= i < |rows| ==> Weekday(rows[i][0]) == firstWeekday) &&
            rows[0][0] <= startDate &&
            rows[|rows| - 1][6] >= endDate
  {
    var t := WeekStartOf(today, firstWeekday);
    var a := StepsBack(t - 14, startDate);
    var first := t - 14 - 7 * a;
    var rows := GridWeeks(today, startDate, endDate, firstWeekday);
    assert rows[0][0] == first;
    forall i | 0 <= i < |rows| ensures Weekday(rows[i][0]) == firstWeekday {
      assert rows[i][0] == first + 7 * i;
      WeekdayShift(t, i - 2 - a);
    }
    var n := |rows|;
    assert rows[n - 1][6] == first + 7 * (n - 1) + 6;
  }

  /** Today's week is in the grid: the row after the front extension and the
      two weeks before today's week starts on today's week start and holds
      today. */
  lemma GridHoldsToday(today: int, startDate: int, endDate: int, firstWeekday: WeekdayNumber)
    ensures var rows := GridWeeks(today, startDate, endDate, firstWeekday);
            var i := 2 + StepsBack(WeekStartOf(today, firstWeekday) - 14, startDate);
            i < |rows| && rows[i][0] == WeekStartOf(today, firstWeekday) && today in rows[i]
  {
    var rows := GridWeeks(today, startDate, endDate, firstWeekday);
    var t := WeekStartOf(today, firstWeekday);
    var i := 2 + StepsBack(t - 14, startDate);
    assert rows[i] == Range(t, t + 7);
    assert rows[i][today - t] == today;
  }

  /** The extensions stop as soon as the range is covered: once the front
      was extended, the second row starts after `startDate`, and once the
      back was extended, the last row but one ends before `endDate`. */
  lemma GridMinimal(today: int, startDate: int, endDate: int, firstWeekday: WeekdayNumber)
    ensures var rows := GridWeeks(today, startDate, endDate, firstWeekday);
            var t := WeekStartOf(today, firstWeekday);
            (rows[0][0] < t - 14 ==> rows[1][0] > startDate) &&
            (rows[|rows| - 1][0] > t + 14 ==> rows[|rows| - 2][6] < endDate)
  {
  }

  /** The view's own state: the week id of the row holding today, recorded
      as rows appear, and the selection it shares with its parent. */
  class GridState {
    var selectedDate: int
    var todayWeekId: string

    constructor (selectedDate: int)
      ensures this.selectedDate == selectedDate && todayWeekId == ""
    {
      this.selectedDate := selectedDate;
      todayWeekId := "";
    }

    /** A row's `onAppear`: the row holding today records its week id. */
    method RowAppeared(week: seq<int>, today: int)
      requires |week| == 7
      modifies this`todayWeekId
      ensures today in week ==> todayWeekId == WeekId(week[0])
      ensures today !in week ==> todayWeekId == old(todayWeekId)
    {
      if today in week {
        todayWeekId := WeekId(week[0]);
      }
    }

    /** Tapping a day cell selects its date. */
    method CellTapped(date: int)
      modifies this`selectedDate
      ensures selectedDate == date
    {
      selectedDate := date;
    }
  }

  /** The row that records today's week id is the row of today's week start,
      so the id recorded on appearance names today's week. */
  lemma RowOfTodayHasTodayWeekId(today: int, startDate: int, endDate: int,
                                 firstWeekday: WeekdayNumber, i: int)
    requires var rows := GridWeeks(today, startDate, endDate, firstWeekday);
             0 <= i < |rows| && today in rows[i]
    ensures WeekId(GridWeeks(today, startDate, endDate, firstWeekday)[i][0]) ==
            TodayWeekId(today, firstWeekday)
  {
    var rows := GridWeeks(today, startDate, endDate, firstWeekday);
    var s := rows[i][0];
    assert rows[i] == Range(s, s + 7);
    WeekdayShift(rows[0][0], i);
    WeekStartUnique(today, s, firstWeekday);
  }
}
