/** The infinitely scrolling month grid (`MonthlyCalendar`): its rows of
    weeks, the week identifiers used as scroll targets, and the choice of the
    month shown in the header. */
module MonthlyCalendar {
  import opened Common
  import opened Gregorian
  import opened Decimal
  import opened WeekdayHeader

  /** The `n` rows of seven days starting `first`, `first + 7`, ... */
  function WeekRows(first: int, n: nat): (rows: seq<seq<int>>)
    ensures |rows| == n
  {
    seq(n, i requires 0 <= i < n => Range(first + 7 * i, first + 7 * i + 7))
  }

  /** How many week starts `first`, `first + 7`, ... lie strictly before `end`. */
  function WeeksBefore(first: int, end: int): (n: nat)
    ensures forall i :: 0 <= i < n ==> first + 7 * i < end
    ensures first + 7 * n >= end
  {
    if first < end then (end - first + 6) / 7 else 0
  }

  /** `generateWeek(from:)`: seven consecutive days from `start`. */
  method GenerateWeek(start: int) returns (week: seq<int>)
    ensures |week| == 7
    ensures forall i :: 0 <= i < 7 ==> week[i] == start + i
  {
    week := [];
    var current := start;
    for k := 0 to 7
      invariant |week| == k && current == start + k
      invariant forall i :: 0 <= i < k ==> week[i] == start + i
    {
      week := week + [current];
      current := current + 1;
    }
  }

  /** `generateAllWeeks()`: back from `startDate` to the calendar's first
      weekday, then one row per week while the row's first day is before
      `endDate`. */
  method GenerateAllWeeks(startDate: int, endDate: int, firstWeekday: WeekdayNumber)
    returns (allWeeks: seq<seq<int>>)
    ensures var first := WeekStartOf(startDate, firstWeekday);
            allWeeks == WeekRows(first, WeeksBefore(first, endDate))
  {
    allWeeks := [];
    var currentDate := startDate;
    var offsetToFirstDay := AlignOffset(Weekday(currentDate), firstWeekday);
    currentDate := currentDate - offsetToFirstDay;
    ghost var first := currentDate;
    while currentDate < endDate
      invariant currentDate == first + 7 * |allWeeks|
      invariant allWeeks == WeekRows(first, |allWeeks|)
      invariant allWeeks == [] || currentDate - 7 < endDate
      decreases endDate - currentDate
    {
      var week := GenerateWeek(currentDate);
      assert week == Range(currentDate, currentDate + 7);
      assert WeekRows(first, |allWeeks| + 1) == allWeeks + [week];
      allWeeks := allWeeks + [week];
      currentDate := currentDate + 7;
    }
  }

  /** The grid has no gap and no repeated day: its rows, read in order, are
      the consecutive days from the first row's start. */
  lemma {:induction false} WeekRowsFlatten(first: int, n: nat)
    ensures Flatten(WeekRows(first, n)) == Range(first, first + 7 * n)
    decreases n
  {
    if n > 0 {
      var rows := WeekRows(first, n);
      assert rows[1..] == WeekRows(first + 7, n - 1);
      WeekRowsFlatten(first + 7, n - 1);
      RangeSplit(first, first + 7, first + 7 * n);
    }
  }

  /** Every row starts on the calendar's first weekday. */
  lemma RowsStartOnFirstWeekday(startDate: int, n: nat, firstWeekday: WeekdayNumber, i: int)
    requires 0 <= i < n
    ensures var rows := WeekRows(WeekStartOf(startDate, firstWeekday), n);
            Weekday(rows[i][0]) == firstWeekday
  {
    WeekdayShift(WeekStartOf(startDate, firstWeekday), i);
  }

  /** The grid covers every day from `startDate` up to (not including)
      `endDate`, starting at most six days before `startDate`. */
  lemma GridCovers(startDate: int, endDate: int, firstWeekday: WeekdayNumber, d: int)
    requires startDate <= d < endDate
    ensures var first := WeekStartOf(startDate, firstWeekday);
            startDate - 6 <= first <= startDate &&
            d in Flatten(WeekRows(first, WeeksBefore(first, endDate)))
  {
    var first := WeekStartOf(startDate, firstWeekday);
    var n := WeeksBefore(first, endDate);
    WeekRowsFlatten(first, n);
    assert Range(first, first + 7 * n)[d - first] == d;
  }

  /** A range that starts and ends on the same day, that day being a week
      start, yields no row at all: the loop runs only while the row start is
      before `endDate`. */
  lemma SameDayRangeHasNoRows(d: int, firstWeekday: WeekdayNumber)
    requires Weekday(d) == firstWeekday
    ensures WeekRows(WeekStartOf(d, firstWeekday), WeeksBefore(WeekStartOf(d, firstWeekday), d)) == []
  {
  }

  /** `getWeekId(_:)`: unpadded "year-month-day" of a date. */
  function WeekId(d: int): string
  {
    var c := CivilOf(d);
    IntToString(c.year) + "-" + IntToString(c.month) + "-" + IntToString(c.day)
  }

  /** `parseWeekId(_:)`: the three `-`-separated integer fields given to the
      lenient `date(from:)`; nil for any other shape. */
  function ParseWeekId(weekId: string): (r: Option<int>)
    ensures r.Some? <==> |Split(weekId, '-')| == 3 &&
                         forall i :: 0 <= i < 3 ==> ParseInt(Split(weekId, '-')[i]).Some?
  {
    var components := Split(weekId, '-');
    if |components| == 3 && ParseInt(components[0]).Some?
       && ParseInt(components[1]).Some? && ParseInt(components[2]).Some?
    then
      Some(DayOf(Ymd(ParseInt(components[0]).value, ParseInt(components[1]).value,
                     ParseInt(components[2]).value)))
    else None
  }

  /** Reading a week id back yields the date it was made from (for dates in
      years 0 and later, whose year field carries no minus sign). */
  lemma WeekIdRoundTrip(d: int)
    requires CivilOf(d).year >= 0
    ensures ParseWeekId(WeekId(d)) == Some(d)
  {
    var c := CivilOf(d);
    FieldsRoundTrip(c.year, c.month, c.day);
  }

  /** Three unsigned fields joined by `-` split and parse back to themselves. */
  lemma FieldsRoundTrip(year: nat, month: nat, day: nat)
    ensures ParseWeekId(IntToString(year) + "-" + IntToString(month) + "-" + IntToString(day)) ==
            Some(DayOf(Ymd(year, month, day)))
  {
    var ys, ms, ds := IntToString(year), IntToString(month), IntToString(day);
    assert forall i :: 0 <= i < |ys| ==> ys[i] != '-';
    assert forall i :: 0 <= i < |ms| ==> ms[i] != '-';
    assert forall i :: 0 <= i < |ds| ==> ds[i] != '-';
    assert ys + "-" + ms + "-" + ds == ys + ['-'] + (ms + ['-'] + ds);
    SplitField(ys, ms + ['-'] + ds, '-');
    SplitField(ms, ds, '-');
    SplitLast(ds, '-');
    ParseIntToString(year);
    ParseIntToString(month);
    ParseIntToString(day);
  }

  /** The identifier the grid scrolls to at start-up (computed in `init`):
      that of the week start of `today`. */
  function TodayWeekId(today: int, firstWeekday: WeekdayNumber): string
  {
    WeekId(WeekStartOf(today, firstWeekday))
  }

  /** When `today` lies in the generated range, some row of the grid carries
      exactly today's week id, so the initial scroll target exists. */
  lemma TodayRowExists(startDate: int, endDate: int, today: int, firstWeekday: WeekdayNumber)
    requires startDate <= today < endDate
    ensures var first := WeekStartOf(startDate, firstWeekday);
            var rows := WeekRows(first, WeeksBefore(first, endDate));
            exists i :: 0 <= i < |rows| && WeekId(rows[i][0]) == TodayWeekId(today, firstWeekday)
  {
    var first := WeekStartOf(startDate, firstWeekday);
    var t := WeekStartOf(today, firstWeekday);
    SameWeekday(t, first);
    var k := (t - first) / 7;
    assert t == first + 7 * k;
    var rows := WeekRows(first, WeeksBefore(first, endDate));
    assert 0 <= k < |rows|;
    assert rows[k][0] == t;
    assert WeekId(rows[k][0]) == WeekId(t);
  }

  /** How many visible dates fall in the month starting on `month`. */
  function MonthCount(dates: set<int>, month: int): nat
  {
    KeyCount(dates, StartOfMonth, month)
  }

  /** The weight `updateVisibleMonthAccurate` gives one visible date: 1.5 in
      the selected date's month and 1.0 elsewhere, here doubled to 3 and 2 so
      that sums stay integers (both are exact in `Double`). */
  function DateWeight(date: int, selectedDate: int): nat
  {
    if SameMonthYear(date, selectedDate) then 3 else 2
  }

  /** The (doubled) weight per date of the month starting `month`. */
  function MonthUnit(selectedDate: int): int -> nat
  {
    month => if SameMonthYear(month, selectedDate) then 3 else 2
  }

  /** The summed (doubled) weight of the visible dates of one month. */
  function MonthWeight(dates: set<int>, month: int, selectedDate: int): nat
  {
    MonthUnit(selectedDate)(month) * MonthCount(dates, month)
  }

  /** A date weighs what its month weighs per date. */
  lemma DateWeightOfMonth(date: int, selectedDate: int)
    ensures DateWeight(date, selectedDate) == MonthUnit(selectedDate)(StartOfMonth(date))
  {
    SameMonthIffSameStart(date, selectedDate);
    SameMonthIffSameStart(StartOfMonth(date), selectedDate);
    StartOfMonthIdempotent(date);
  }

  /** The month-counting half of `updateVisibleMonth()`: a month start with the
      most visible dates, or `found == false` when no date is visible. */
  method MostVisibleMonth(visibleDates: set<int>) returns (found: bool, month: int)
    ensures found <==> visibleDates != {}
    ensures found ==> MonthCount(visibleDates, month) > 0
    ensures found ==> forall v :: v in visibleDates ==>
              MonthCount(visibleDates, StartOfMonth(v)) <= MonthCount(visibleDates, month)
  {
    var datesByMonth := TallyByKey(visibleDates, StartOfMonth, _ => 1, _ => 1);
    found, month := MaxEntry(datesByMonth);
    if visibleDates != {} {
      var v :| v in visibleDates;
      assert StartOfMonth(v) in datesByMonth;
    }
  }

  /** The fallback of `updateVisibleMonthAccurate`: a month start of greatest
      weight, or `found == false` when no date is visible. */
  method HeaviestMonth(visibleDates: set<int>, selectedDate: int) returns (found: bool, month: int)
    ensures found <==> visibleDates != {}
    ensures found ==> MonthCount(visibleDates, month) > 0
    ensures found ==> forall v :: v in visibleDates ==>
              MonthWeight(visibleDates, StartOfMonth(v), selectedDate) <=
              MonthWeight(visibleDates, month, selectedDate)
  {
    forall v | v in visibleDates
      ensures DateWeight(v, selectedDate) == MonthUnit(selectedDate)(StartOfMonth(v))
    {
      DateWeightOfMonth(v, selectedDate);
    }
    var monthWeights := TallyByKey(visibleDates, StartOfMonth,
                                   date => DateWeight(date, selectedDate), MonthUnit(selectedDate));
    found, month := MaxEntry(monthWeights);
    if visibleDates != {} {
      var v :| v in visibleDates;
      assert StartOfMonth(v) in monthWeights;
    }
  }

  /** A month that only ties the selected date's month in visible dates
      never outweighs it: the 1.5 weight breaks such ties. */
  lemma SelectedMonthWinsTies(dates: set<int>, selectedDate: int, other: int)
    requires other != StartOfMonth(selectedDate) && StartOfMonth(other) == other
    requires 0 < MonthCount(dates, other) <= MonthCount(dates, StartOfMonth(selectedDate))
    ensures MonthWeight(dates, other, selectedDate) <
            MonthWeight(dates, StartOfMonth(selectedDate), selectedDate)
  {
    SameMonthIffSameStart(other, selectedDate);
    SameMonthIffSameStart(StartOfMonth(selectedDate), selectedDate);
    StartOfMonthIdempotent(selectedDate);
  }

  /** `updateVisibleMonthAccurate(forceCurrent:)` as a computation: a forced
      week id that parses picks the month of the day three days into that
      week; otherwise the heaviest month of the visible dates. */
  method AccurateMonth(forceCurrent: Option<string>, visibleDates: set<int>, selectedDate: int)
    returns (found: bool, month: int)
    ensures forceCurrent.Some? && ParseWeekId(forceCurrent.value).Some? ==>
              found && month == StartOfMonth(ParseWeekId(forceCurrent.value).value + 3)
    ensures !(forceCurrent.Some? && ParseWeekId(forceCurrent.value).Some?) ==>
              (found <==> visibleDates != {})
    ensures !(forceCurrent.Some? && ParseWeekId(forceCurrent.value).Some?) && found ==>
              MonthCount(visibleDates, month) > 0
    ensures !(forceCurrent.Some? && ParseWeekId(forceCurrent.value).Some?) && found ==>
              forall v :: v in visibleDates ==>
                MonthWeight(visibleDates, StartOfMonth(v), selectedDate) <=
                MonthWeight(visibleDates, month, selectedDate)
  {
    if forceCurrent.Some? {
      var currentDate := ParseWeekId(forceCurrent.value);
      if currentDate.Some? {
        var firstVisibleDate := currentDate.value + 3;
        found, month := true, StartOfMonth(firstVisibleDate);
        return;
      }
    }
    found, month := HeaviestMonth(visibleDates, selectedDate);
  }

  /** A week straddling January and February 2024 (Monday 29 January to
      Sunday 4 February), named by its week id, is shown as February. */
  lemma MidWeekPicksFebruary()
    ensures ParseWeekId(WeekId(DayOf(Ymd(2024, 1, 29)))).Some?
    ensures StartOfMonth(ParseWeekId(WeekId(DayOf(Ymd(2024, 1, 29)))).value + 3) ==
            DayOf(Ymd(2024, 2, 1))
  {
    var d := DayOf(Ymd(2024, 1, 29));
    CivilOfDayOf(Ymd(2024, 1, 29));
    WeekIdRoundTrip(d);
    DayOfValid(Ymd(2024, 1, 29));
    DayOfValid(Ymd(2024, 2, 1));
    assert d + 3 == DayOf(Ymd(2024, 2, 1));
    CivilOfDayOf(Ymd(2024, 2, 1));
  }

  /** The weekday header as written: it is handed `startDayOfWeek`, whose
      default 1 is Sunday, while the rows start on the calendar's first
      weekday. With Monday-first weeks every column is labelled with the day
      before the one below it. */
  lemma DefaultHeaderMislabelsMondayFirst(startDate: int, n: nat, j: int)
    requires 0 <= j < n
    ensures var row := WeekRows(WeekStartOf(startDate, 2), n)[j];
            forall i :: 0 <= i < 7 ==> HeaderRow(1)[i] != Weekday(row[i]) && HeaderRow(1)[i] == WeekdayBefore(Weekday(row[i]))
  {
    RowsStartOnFirstWeekday(startDate, n, 2, j);
    var row := WeekRows(WeekStartOf(startDate, 2), n)[j];
    HeaderLabelsRow(row[0], 2);
    HeaderClosedForm(1);
    HeaderClosedForm(2);
    forall i | 0 <= i < 7
      ensures HeaderRow(1)[i] != Weekday(row[i]) && HeaderRow(1)[i] == WeekdayBefore(Weekday(row[i]))
    {
      assert row[i] == row[0] + i;
    }
  }

  /** The weekday before `w`, Saturday (7) before Sunday (1). */
  function WeekdayBefore(w: WeekdayNumber): WeekdayNumber
  {
    if w == 1 then 7 else w - 1
  }

  /** The header built from the calendar's first weekday, as the month view
      builds it, names the weekday of the day below every column of every
      row. */
  lemma HeaderMatchesRows(startDate: int, n: nat, firstWeekday: WeekdayNumber, j: int)
    requires 0 <= j < n
    ensures var row := WeekRows(WeekStartOf(startDate, firstWeekday), n)[j];
            forall i :: 0 <= i < 7 ==> HeaderRow(firstWeekday)[i] == Weekday(row[i])
  {
    RowsStartOnFirstWeekday(startDate, n, firstWeekday, j);
    var row := WeekRows(WeekStartOf(startDate, firstWeekday), n)[j];
    HeaderLabelsRow(row[0], firstWeekday);
  }

  /** The view's state: the selection, the month in the header, the set of
      dates whose cells are on screen, and the start-up scroll target. The
      week rows (`MonthWeekRow`) share the first three through bindings. */
  class CalendarState {
    var selectedDate: int
    var visibleMonthDate: int
    var visibleDates: set<int>
    var todayWeekId: string
    const firstWeekday: WeekdayNumber
    const startDayOfWeek: int
    const startDate: int
    const endDate: int

    /** `init`: the week id of today's week start; the range runs from two
        years before today to one year after. */
    constructor (startDayOfWeek: int, today: int, firstWeekday: WeekdayNumber)
      ensures this.firstWeekday == firstWeekday && this.startDayOfWeek == startDayOfWeek
      ensures todayWeekId == TodayWeekId(today, firstWeekday)
      ensures startDate == AddMonths(today, -24) && endDate == AddMonths(today, 12)
      ensures selectedDate == today && visibleMonthDate == today && visibleDates == {}
    {
      this.firstWeekday := firstWeekday;
      this.startDayOfWeek := startDayOfWeek;
      startDate := AddMonths(today, -24);
      endDate := AddMonths(today, 12);
      selectedDate := today;
      visibleMonthDate := today;
      visibleDates := {};
      todayWeekId := TodayWeekId(today, firstWeekday);
    }

    /** `updateVisibleMonth()`: the header moves to a month with the most
        visible dates and stays put when none is visible. */
    method UpdateVisibleMonth()
      modifies this`visibleMonthDate
      ensures visibleDates == {} ==> visibleMonthDate == old(visibleMonthDate)
      ensures visibleDates != {} ==>
                MonthCount(visibleDates, visibleMonthDate) > 0 &&
                forall v :: v in visibleDates ==>
                  MonthCount(visibleDates, StartOfMonth(v)) <= MonthCount(visibleDates, visibleMonthDate)
    {
      var found, mostVisibleMonth := MostVisibleMonth(visibleDates);
      if found {
        visibleMonthDate := mostVisibleMonth;
      }
    }

    /** `updateVisibleMonthAccurate(forceCurrent:)`. */
    method UpdateVisibleMonthAccurate(forceCurrent: Option<string>)
      modifies this`visibleMonthDate
      ensures forceCurrent.Some? && ParseWeekId(forceCurrent.value).Some? ==>
                visibleMonthDate == StartOfMonth(ParseWeekId(forceCurrent.value).value + 3)
      ensures !(forceCurrent.Some? && ParseWeekId(forceCurrent.value).Some?) ==>
                (visibleDates == {} ==> visibleMonthDate == old(visibleMonthDate)) &&
                (visibleDates != {} ==>
                   MonthCount(visibleDates, visibleMonthDate) > 0 &&
                   forall v :: v in visibleDates ==>
                     MonthWeight(visibleDates, StartOfMonth(v), selectedDate) <=
                     MonthWeight(visibleDates, visibleMonthDate, selectedDate))
    {
      var found, month := AccurateMonth(forceCurrent, visibleDates, selectedDate);
      if found {
        visibleMonthDate := month;
      }
    }

    /** The weekday header, started on the calendar's first weekday so that
        it fits the rows (`startDayOfWeek` is kept but no longer used). */
    function HeaderLabels(): (labels: seq<int>)
      reads this
      ensures |labels| == 7
      ensures forall j, i :: 0 <= j < WeeksBefore(WeekStartOf(startDate, firstWeekday), endDate) && 0 <= i < 7 ==>
                labels[i] == Weekday(WeekRows(WeekStartOf(startDate, firstWeekday),
                                              WeeksBefore(WeekStartOf(startDate, firstWeekday), endDate))[j][i])
    {
      var first := WeekStartOf(startDate, firstWeekday);
      var n := WeeksBefore(first, endDate);
      assert forall j :: 0 <= j < n ==> forall i :: 0 <= i < 7 ==>
        HeaderRow(firstWeekday)[i] == Weekday(WeekRows(first, n)[j][i]) by {
        forall j | 0 <= j < n {
          HeaderMatchesRows(startDate, n, firstWeekday, j);
        }
      }
      HeaderRow(firstWeekday)
    }

    /** A day cell is drawn as belonging to the shown month when it shares
        month and year with `visibleMonthDate` (`MonthWeekRow`), that is,
        when both lie in the month starting on the same day. */
    function CellIsCurrentMonth(date: int): (current: bool)
      reads this
      ensures current <==> StartOfMonth(date) == StartOfMonth(visibleMonthDate)
      ensures current ==> date - 30 <= StartOfMonth(visibleMonthDate) <= date
    {
      SameMonthIffSameStart(date, visibleMonthDate);
      DayOfValid(CivilOf(date));
      SameMonthYear(date, visibleMonthDate)
    }

    /** A week row appearing: when the view is `stable` (no resize or
        transition under way and the first scroll done) and the row's first
        day lies outside the shown month, the header moves to that day's
        month. Afterwards the row's first day is drawn as in the shown
        month whenever the view was stable. */
    method RowAppeared(firstDay: int, stable: bool)
      modifies this`visibleMonthDate
      ensures stable && !SameMonthYear(firstDay, old(visibleMonthDate)) ==> visibleMonthDate == StartOfMonth(firstDay)
      ensures !(stable && !SameMonthYear(firstDay, old(visibleMonthDate))) ==> visibleMonthDate == old(visibleMonthDate)
      ensures stable ==> CellIsCurrentMonth(firstDay)
    {
      if stable && !SameMonthYear(firstDay, visibleMonthDate) {
        StartOfMonthIdempotent(firstDay);
        visibleMonthDate := StartOfMonth(firstDay);
      }
      SameMonthIffSameStart(firstDay, visibleMonthDate);
    }

    /** `onChange(of: selectedDate)`: outside a resize or transition the
        header follows the selected date, so the selected cell is drawn as in
        the shown month. */
    method SelectedDateChanged(stable: bool)
      modifies this`visibleMonthDate
      ensures stable ==> visibleMonthDate == selectedDate && CellIsCurrentMonth(selectedDate)
      ensures !stable ==> visibleMonthDate == old(visibleMonthDate)
    {
      if stable {
        visibleMonthDate := selectedDate;
      }
    }

    /** `onChange(of: visibleDates)`: when stable, `updateVisibleMonth()`. */
    method VisibleDatesChanged(stable: bool)
      modifies this`visibleMonthDate
      ensures !stable || visibleDates == {} ==> visibleMonthDate == old(visibleMonthDate)
      ensures stable && visibleDates != {} ==>
                MonthCount(visibleDates, visibleMonthDate) > 0 &&
                forall v :: v in visibleDates ==>
                  MonthCount(visibleDates, StartOfMonth(v)) <= MonthCount(visibleDates, visibleMonthDate)
    {
      if stable {
        UpdateVisibleMonth();
      }
    }

    /** A day cell appearing (`MonthWeekRow`, `onAppear`). */
    method CellAppeared(date: int)
      modifies this`visibleDates
      ensures visibleDates == old(visibleDates) + {date}
    {
      visibleDates := visibleDates + {date};
    }

    /** A day cell disappearing (`MonthWeekRow`, `onDisappear`). */
    method CellDisappeared(date: int)
      modifies this`visibleDates
      ensures visibleDates == old(visibleDates) - {date}
    {
      visibleDates := visibleDates - {date};
    }

    /** Tapping a day cell selects its date (`MonthWeekRow`, `onTapGesture`). */
    method CellTapped(date: int)
      modifies this`selectedDate
      ensures selectedDate == date
    {
      selectedDate := date;
    }
  }

  /** A cell that appears and disappears again leaves the visible set as it
      was, provided its date was not visible before. */
  lemma AppearThenDisappearRestores(visibleDates: set<int>, date: int)
    requires date !in visibleDates
    ensures (visibleDates + {date}) - {date} == visibleDates
  {
  }
}
