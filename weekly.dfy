/** The two week views (`WeeklyCalendarView` and `WeeklyCalendar`): the
    seven days of the week holding `currentDate`, the title over them, the
    chevrons that move by a week, and the hour slots of each day's column. */
module Weekly {
  import opened Common
  import opened Gregorian
  import opened Events

  /** `weekDates` / `weekDays`: the seven days from the start of the week that
      holds `currentDate`, in a calendar whose weeks start on `firstWeekday`. */
  function WeekDays(currentDate: int, firstWeekday: WeekdayNumber): (r: seq<int>)
    ensures |r| == 7
    ensures forall i :: 0 <= i < 7 ==> r[i] == WeekStartOf(currentDate, firstWeekday) + i
  {
    Range(WeekStartOf(currentDate, firstWeekday), WeekStartOf(currentDate, firstWeekday) + 7)
  }

  /** The shown week holds `currentDate`, starts on the calendar's first
      weekday, and is the same for every day of that week. */
  lemma WeekDaysHoldDate(currentDate: int, firstWeekday: WeekdayNumber, other: int)
    ensures currentDate in WeekDays(currentDate, firstWeekday)
    ensures Weekday(WeekDays(currentDate, firstWeekday)[0]) == firstWeekday
    ensures other in WeekDays(currentDate, firstWeekday) ==>
              WeekDays(other, firstWeekday) == WeekDays(currentDate, firstWeekday)
  {
    var r := WeekDays(currentDate, firstWeekday);
    var s := r[0];
    assert r[currentDate - s] == currentDate;
    if other in r {
      WeekStartUnique(other, s, firstWeekday);
    }
  }

  /** Moving `currentDate` a week shifts every shown day by seven. */
  lemma WeekDaysShift(currentDate: int, firstWeekday: WeekdayNumber, k: int)
    ensures forall i :: 0 <= i < 7 ==>
              WeekDays(currentDate + 7 * k, firstWeekday)[i] == WeekDays(currentDate, firstWeekday)[i] + 7 * k
  {
    var s := WeekStartOf(currentDate, firstWeekday);
    var t := s + 7 * k;
    WeekdayShift(s, k);
    WeekStartUnique(currentDate + 7 * k, t, firstWeekday);
    var before, after := WeekDays(currentDate, firstWeekday), WeekDays(currentDate + 7 * k, firstWeekday);
    forall i | 0 <= i < 7
      ensures after[i] == before[i] + 7 * k
    {
      assert after[i] == t + i && before[i] == s + i;
    }
  }

  /** A date pattern of `DateFormatter`: "MMM d", "d, yyyy" or "MMM d, yyyy". */
  datatype DatePattern = MonthDay | DayYear | MonthDayYear

  /** The title `weekRangeString` builds: nothing, or the first day in one
      pattern, " - ", and the last day in another. */
  datatype RangeTitle = NoTitle | Title(firstDay: int, firstPattern: DatePattern, lastDay: int, lastPattern: DatePattern)

  /** Which days and patterns `weekRangeString` formats: the month of the
      last day is left out when it equals the first day's month, and only
      the last day carries the year. */
  function WeekRangeTitle(weekDates: seq<int>): (r: RangeTitle)
    ensures weekDates == [] <==> r == NoTitle
    ensures r.Title? ==> r.firstDay == weekDates[0] && r.lastDay == weekDates[|weekDates| - 1]
    ensures r.Title? ==> r.firstPattern == MonthDay && r.lastPattern != MonthDay
    ensures r.Title? ==> (r.lastPattern == DayYear <==> CivilOf(r.firstDay).month == CivilOf(r.lastDay).month)
  {
    if weekDates == [] then NoTitle
    else
      var firstDay, lastDay := weekDates[0], weekDates[|weekDates| - 1];
      Title(firstDay, MonthDay, lastDay,
            if CivilOf(firstDay).month == CivilOf(lastDay).month then DayYear else MonthDayYear)
  }

  /** Days at most six apart in different years straddle New Year: the
      earlier is in December and the later in January. */
  lemma AcrossNewYear(a: int, b: int)
    requires a <= b <= a + 6 && CivilOf(a).year != CivilOf(b).year
    ensures CivilOf(a).month == 12 && CivilOf(b).month == 1
  {
    var ca, cb := CivilOf(a), CivilOf(b);
    YearBounds(ca);
    YearBounds(cb);
    if cb.year < ca.year {
      YearOrder(cb.year, ca.year);
      assert false;
    }
    YearOrder(ca.year, cb.year);
    DayOfValid(ca);
    DayOfValid(cb);
    MonthStep(ca.year, 12);
    if ca.month < 12 {
      MonthOrder(ca.year, ca.month, 12);
    }
    if cb.month > 1 {
      MonthOrder(cb.year, 1, cb.month);
    }
  }

  /** For a shown week the month test is a month-and-year test: the title
      leaves out the last day's month exactly when both ends of the week lie
      in the same month of the same year. */
  lemma WeekTitleOmitsMonthIffSameMonth(currentDate: int, firstWeekday: WeekdayNumber)
    ensures var r := WeekRangeTitle(WeekDays(currentDate, firstWeekday));
            r.Title? && (r.lastPattern == DayYear <==> SameMonthYear(r.firstDay, r.lastDay))
  {
    var w := WeekDays(currentDate, firstWeekday);
    if CivilOf(w[0]).year != CivilOf(w[6]).year {
      AcrossNewYear(w[0], w[6]);
    }
  }

  /** `eventsInHour(_:)` of the first view's day column: the events that
      start on the column's day, in the given hour, in input order. */
  function EventsInHour(events: seq<CalendarEvent>, date: int, hour: int): (r: seq<CalendarEvent>)
    ensures forall e: CalendarEvent :: e in r <==> e in events && e.startTime.day == date && e.startTime.hour == hour
    ensures forall i :: 0 <= i < |r| ==> r[i].startTime.day == date && r[i].startTime.hour == hour
  {
    Filter(events, (e: CalendarEvent) => e.startTime.day == date && e.startTime.hour == hour)
  }

  /** `eventsInHour(_:)` of the second view's day column, which filters by
      hour alone and is handed the day's events by its caller. */
  function StartingInHour(events: seq<CalendarEvent>, hour: int): (r: seq<CalendarEvent>)
    ensures forall e: CalendarEvent :: e in r <==> e in events && e.startTime.hour == hour
  {
    Filter(events, (e: CalendarEvent) => e.startTime.hour == hour)
  }

  /** Both day columns show the same events in the same order: filtering the
      day's events by hour is the first view's combined filter. */
  lemma DayColumnsAgree(events: seq<CalendarEvent>, date: int, hour: int)
    ensures StartingInHour(EventsOnDay(events, date), hour) == EventsInHour(events, date, hour)
  {
    FilterFilter(events, (e: CalendarEvent) => e.startTime.day == date, (e: CalendarEvent) => e.startTime.hour == hour,
                 (e: CalendarEvent) => e.startTime.day == date && e.startTime.hour == hour);
  }

  /** An event of the column's day is in the slot of its start hour and in
      no other. */
  lemma EventInOneSlot(events: seq<CalendarEvent>, date: int, e: CalendarEvent, hour: int)
    requires e in events && e.startTime.day == date
    ensures e in EventsInHour(events, date, hour) <==> hour == e.startTime.hour
  {
  }

  lemma EventsInHourHead(events: seq<CalendarEvent>, date: int, hour: int)
    requires events != []
    ensures |EventsInHour(events, date, hour)| == |EventsInHour(events[1..], date, hour)| +
            if events[0].startTime.day == date && events[0].startTime.hour == hour then 1 else 0
  {
  }

  lemma EventsOnDayHead(events: seq<CalendarEvent>, date: int)
    requires events != []
    ensures |EventsOnDay(events, date)| == |EventsOnDay(events[1..], date)| +
            if events[0].startTime.day == date then 1 else 0
  {
  }

  /** The number of events each hour slot of the column for `date` shows. */
  function SlotSizes(events: seq<CalendarEvent>, date: int): int -> nat
  {
    hour => |EventsInHour(events, date, hour)|
  }

  lemma SlotSizesHead(events: seq<CalendarEvent>, date: int)
    requires events != []
    ensures forall h :: SlotSizes(events, date)(h) ==
              SlotSizes(events[1..], date)(h) +
              if events[0].startTime.day == date && h == events[0].startTime.hour then 1 else 0
  {
    forall h
      ensures SlotSizes(events, date)(h) ==
              SlotSizes(events[1..], date)(h) +
              if events[0].startTime.day == date && h == events[0].startTime.hour then 1 else 0
    {
      EventsInHourHead(events, date, h);
    }
  }

  /** Over the 24 hour slots of a column every event of its day is shown
      exactly once: the slots together hold as many events as the day. */
  lemma {:induction false} SlotsPartitionDay(events: seq<CalendarEvent>, date: int)
    requires forall i :: 0 <= i < |events| ==> ValidTime(events[i].startTime)
    ensures SumTo(SlotSizes(events, date), 24) == |EventsOnDay(events, date)|
  {
    if events == [] {
      SumToZero(SlotSizes(events, date), 24);
    } else {
      var first := events[0].startTime;
      SlotsPartitionDay(events[1..], date);
      SlotSizesHead(events, date);
      SumToBump(SlotSizes(events, date), SlotSizes(events[1..], date), first.day == date, first.hour, 24);
      EventsOnDayHead(events, date);
    }
  }

  /** The shown date of either week view and its chevrons. */
  class WeekCursor {
    var currentDate: int

    /** Both views open on today. */
    constructor (today: int)
      ensures currentDate == today
    {
      currentDate := today;
    }

    /** `previousWeek()`: the same weekday one week earlier. */
    method PreviousWeek()
      modifies this
      ensures currentDate == old(currentDate) - 7
    {
      currentDate := currentDate - 7;
    }

    /** `nextWeek()`: the same weekday one week later. */
    method NextWeek()
      modifies this
      ensures currentDate == old(currentDate) + 7
    {
      currentDate := currentDate + 7;
    }
  }

  /** Each step shows the neighbouring week: the week after starts the day
      after the current week ends, and the week before ends the day before
      it starts. */
  lemma NavigationShowsNeighbourWeeks(currentDate: int, firstWeekday: WeekdayNumber)
    ensures WeekDays(currentDate + 7, firstWeekday)[0] == WeekDays(currentDate, firstWeekday)[6] + 1
    ensures WeekDays(currentDate - 7, firstWeekday)[6] + 1 == WeekDays(currentDate, firstWeekday)[0]
  {
    WeekDaysShift(currentDate, firstWeekday, 1);
    WeekDaysShift(currentDate, firstWeekday, -1);
  }
}
