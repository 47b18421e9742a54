/** The pop-up mini month (`CustomDatePicker`): a Sunday-first grid of the
    shown month's days, preceded by the last days of the month before, with
    chevrons that step the shown month and taps that pick a day. */
module CustomDatePicker {
  import opened Common
  import opened Gregorian
  import opened Decimal

  /** One cell of the grid; `date` is the day the cell stands for. The id
      is kept as the parts it is built from; `IdText` spells it out. */
  datatype DayItem = DayItem(id: CellId, day: int, date: int, isCurrentMonth: bool)

  datatype CellId = CellId(current: bool, day: int)

  /** The id string: "current-" or "prev-" followed by the day. */
  function IdText(id: CellId): string
  {
    (if id.current then "current-" else "prev-") + IntToString(id.day)
  }

  /** How many days of the previous month lead the grid: the weekday of the
      shown month's first day, counted from Sunday. */
  function LeadingCount(currentMonth: int): (n: int)
    ensures 0 <= n <= 6
  {
    Weekday(StartOfMonth(currentMonth)) - 1
  }

  /** The cell for day `day` of its month, which is the day number `date`:
      an id made of a prefix and the day, and whether it belongs to the
      shown month. */
  function Cell(date: int, day: int, current: bool): (item: DayItem)
    ensures item.date == date && item.day == day && item.isCurrentMonth == current
  {
    DayItem(CellId(current, day), day, date, current)
  }

  /** The grid of a month whose first day is `first`, with `days` days and
      `prevDays` days in the month before, led by `lead` cells: a run of
      consecutive dates from `first - lead`, numbered as the last days of the
      previous month and then 1, 2, ... */
  predicate IsLayout(items: seq<DayItem>, first: int, lead: int, days: int, prevDays: int)
  {
    |items| == lead + days &&
    forall i :: 0 <= i < |items| ==>
      items[i] == Cell(first - lead + i, if i < lead then prevDays - lead + i + 1 else i - lead + 1, i >= lead)
  }

  /** What the grid shows for the month of `currentMonth`. */
  ghost predicate DayItemsOf(items: seq<DayItem>, currentMonth: int)
  {
    var c := CivilOf(currentMonth);
    IsLayout(items, StartOfMonth(currentMonth), LeadingCount(currentMonth), DaysInMonth(c.year, c.month),
             DaysInMonth(PrevYear(c.year, c.month), PrevMonth(c.month)))
  }

  /** Day `day` of a month is `day - 1` days after its first day. */
  lemma DayOfInMonth(y: int, m: int, day: int)
    requires 1 <= m <= 12
    ensures DayOf(Ymd(y, m, day)) == DayOf(Ymd(y, m, 1)) + day - 1
  {
    DayOfValid(Ymd(y, m, day));
    DayOfValid(Ymd(y, m, 1));
  }

  /** ... and reads back as that day. */
  lemma DayInMonth(y: int, m: int, day: int)
    requires 1 <= m <= 12 && 1 <= day <= DaysInMonth(y, m)
    ensures DayOf(Ymd(y, m, day)) == DayOf(Ymd(y, m, 1)) + day - 1
    ensures CivilOf(DayOf(Ymd(y, m, day))) == Ymd(y, m, day)
  {
    DayOfInMonth(y, m, day);
    CivilOfDayOf(Ymd(y, m, day));
  }

  /** The year and month before a year and month. */
  function PrevYear(y: int, m: int): int { if m == 1 then y - 1 else y }
  function PrevMonth(m: int): int { if m == 1 then 12 else m - 1 }

  /** Stepping back one month lands in the calendar month before. */
  lemma MonthBefore(d: int)
    ensures var c, p := CivilOf(d), CivilOf(AddMonths(d, -1));
            p.year == PrevYear(c.year, c.month) && p.month == PrevMonth(c.month)
  {
  }

  /** The first of `d`'s month, as a day number. */
  lemma FirstOfMonth(d: int)
    ensures StartOfMonth(d) == DayOf(Ymd(CivilOf(d).year, CivilOf(d).month, 1))
  {
    var c := CivilOf(d);
    CivilOfDayOf(Ymd(c.year, c.month, 1));
  }

  /** The first loop of `generateDayItems()`: the last `lead` days of month
      `m` of year `y`, which has `monthDays` days, as cells outside the shown
      month. */
  method PreviousMonthDays(y: int, m: int, monthDays: int, lead: int) returns (items: seq<DayItem>)
    requires 1 <= m <= 12 && 0 <= lead
    ensures |items| == lead
    ensures forall i :: 0 <= i < lead ==>
              items[i] == Cell(DayOf(Ymd(y, m, 1)) + monthDays - lead + i, monthDays - lead + i + 1, false)
  {
    ghost var base := DayOf(Ymd(y, m, 1));
    items := [];
    for index := 0 to lead
      invariant |items| == index
      invariant forall i :: 0 <= i < index ==> items[i] == Cell(base + monthDays - lead + i, monthDays - lead + i + 1, false)
    {
      var day := monthDays - lead + index + 1;
      var date := DayOf(Ymd(y, m, day));
      DayOfInMonth(y, m, day);
      items := items + [Cell(date, day, false)];
    }
  }

  /** The second loop of `generateDayItems()`: days 1 to `days` of month `m`
      of year `y`, appended as cells of the shown month. */
  method CurrentMonthDays(leading: seq<DayItem>, y: int, m: int, days: int) returns (items: seq<DayItem>)
    requires 1 <= m <= 12 && 0 <= days
    ensures |items| == |leading| + days && items[..|leading|] == leading
    ensures forall i :: |leading| <= i < |items| ==>
              items[i] == Cell(DayOf(Ymd(y, m, 1)) + i - |leading|, i - |leading| + 1, true)
  {
    ghost var base := DayOf(Ymd(y, m, 1));
    items := leading;
    for day := 1 to days + 1
      invariant |items| == |leading| + day - 1 && items[..|leading|] == leading
      invariant forall i :: |leading| <= i < |items| ==> items[i] == Cell(base + i - |leading|, i - |leading| + 1, true)
    {
      var date := DayOf(Ymd(y, m, day));
      DayOfInMonth(y, m, day);
      items := items + [Cell(date, day, true)];
    }
  }

  /** The two runs together form the layout of a month whose first day is
      `first`, when the previous month ends the day before. */
  lemma LayoutOfRuns(items: seq<DayItem>, leading: seq<DayItem>, first: int, days: int, prevDays: int,
                     prevBase: int, base: int)
    requires prevBase + prevDays == first && base == first && 0 <= days
    requires forall i :: 0 <= i < |leading| ==>
               leading[i] == Cell(prevBase + prevDays - |leading| + i, prevDays - |leading| + i + 1, false)
    requires |items| == |leading| + days && items[..|leading|] == leading
    requires forall i :: |leading| <= i < |items| ==> items[i] == Cell(base + i - |leading|, i - |leading| + 1, true)
    ensures IsLayout(items, first, |leading|, days, prevDays)
  {
    forall i | 0 <= i < |leading|
      ensures items[i] == Cell(first - |leading| + i, prevDays - |leading| + i + 1, false)
    {
      assert items[i] == items[..|leading|][i];
    }
  }

  lemma LastDayBefore(y: int, m: int, py: int, pm: int)
    requires 1 <= m <= 12 && py == PrevYear(y, m) && pm == PrevMonth(m)
    ensures DayOf(Ymd(py, pm, DaysInMonth(py, pm))) + 1 == DayOf(Ymd(y, m, 1))
  {
    PreviousMonthEnd(y, m);
  }

  /** Where the two runs sit: the month before `d`'s month ends the day
      before `d`'s month starts. */
  lemma MonthFrame(d: int)
    ensures var c, p := CivilOf(d), CivilOf(AddMonths(d, -1));
            p.year == PrevYear(c.year, c.month) && p.month == PrevMonth(c.month) &&
            DayOf(Ymd(c.year, c.month, 1)) == StartOfMonth(d) &&
            DayOf(Ymd(p.year, p.month, 1)) + DaysInMonth(p.year, p.month) == StartOfMonth(d)
  {
    var c, p := CivilOf(d), CivilOf(AddMonths(d, -1));
    MonthBefore(d);
    FirstOfMonth(d);
    var py, pm := p.year, p.month;
    var n := DaysInMonth(py, pm);
    LastDayBefore(c.year, c.month, py, pm);
    DayOfInMonth(py, pm, n);
  }

  /** `generateDayItems()` for the shown month `currentMonth`. */
  method GenerateDayItems(currentMonth: int) returns (items: seq<DayItem>)
    ensures DayItemsOf(items, currentMonth)
  {
    var c := CivilOf(currentMonth);
    var days := DaysInMonth(c.year, c.month);
    var firstWeekday := LeadingCount(currentMonth);
    var previousMonth := AddMonths(currentMonth, -1);
    var p := CivilOf(previousMonth);
    var daysInPreviousMonth := DaysInMonth(p.year, p.month);

    var leading := PreviousMonthDays(p.year, p.month, daysInPreviousMonth, firstWeekday);
    items := CurrentMonthDays(leading, c.year, c.month, days);
    MonthFrame(currentMonth);
    LayoutOfRuns(items, leading, StartOfMonth(currentMonth), days, daysInPreviousMonth,
                 DayOf(Ymd(p.year, p.month, 1)), DayOf(Ymd(c.year, c.month, 1)));
  }

  /** The calendar date of each cell: the leading cells are the last days of
      the previous month, ending on its last day, and the other cells are
      days 1, 2, ... of the shown month. */
  lemma DayItemCivil(items: seq<DayItem>, currentMonth: int, i: int)
    requires DayItemsOf(items, currentMonth) && 0 <= i < |items|
    ensures var c, lead := CivilOf(currentMonth), LeadingCount(currentMonth);
            var py, pm := PrevYear(c.year, c.month), PrevMonth(c.month);
            if i < lead then
              CivilOf(items[i].date) == Ymd(py, pm, DaysInMonth(py, pm) - lead + i + 1)
            else
              CivilOf(items[i].date) == Ymd(c.year, c.month, i - lead + 1)
  {
    var c, lead := CivilOf(currentMonth), LeadingCount(currentMonth);
    var first := StartOfMonth(currentMonth);
    var p := CivilOf(AddMonths(currentMonth, -1));
    var py, pm := p.year, p.month;
    var prevDays := DaysInMonth(py, pm);
    MonthFrame(currentMonth);
    assert IsLayout(items, first, lead, DaysInMonth(c.year, c.month), prevDays);
    if i < lead {
      var day := prevDays - lead + i + 1;
      assert items[i].date == first - lead + i;
      DateInMonth(items[i].date, py, pm, day, first - prevDays);
    } else {
      DateInMonth(items[i].date, c.year, c.month, i - lead + 1, first);
    }
  }

  /** The day `day - 1` days after the first of a month reads back as day
      `day` of that month. */
  lemma DateInMonth(date: int, y: int, m: int, day: int, base: int)
    requires 1 <= m <= 12 && 1 <= day <= DaysInMonth(y, m)
    requires base == DayOf(Ymd(y, m, 1)) && date == base + day - 1
    ensures CivilOf(date) == Ymd(y, m, day)
  {
    DayInMonth(y, m, day);
  }

  /** The grid's cells fall under the Sunday-first header ("Sun" ... "Sat"):
      cell `i` is in column `i % 7` and its date has weekday `i % 7 + 1`. */
  lemma DayItemsUnderTheirWeekday(items: seq<DayItem>, currentMonth: int)
    requires DayItemsOf(items, currentMonth)
    ensures forall i :: 0 <= i < |items| ==> Weekday(items[i].date) == i % 7 + 1
  {
    var c := CivilOf(currentMonth);
    LayoutColumns(items, StartOfMonth(currentMonth), LeadingCount(currentMonth), DaysInMonth(c.year, c.month),
                  DaysInMonth(PrevYear(c.year, c.month), PrevMonth(c.month)));
  }

  lemma LayoutColumns(items: seq<DayItem>, first: int, lead: int, days: int, prevDays: int)
    requires IsLayout(items, first, lead, days, prevDays) && Weekday(first) == lead + 1
    ensures forall i :: 0 <= i < |items| ==> Weekday(items[i].date) == i % 7 + 1
  {
    assert (first - lead + 1) % 7 == 0;
    forall i | 0 <= i < |items| ensures Weekday(items[i].date) == i % 7 + 1 {
      assert items[i].date == first - lead + i;
    }
  }

  /** Only the leading cells lie outside the shown month: a cell is flagged
      as in the shown month exactly when its date has the shown month and
      year, and the leading cells lie in the month before. */
  lemma DayItemsMonths(items: seq<DayItem>, currentMonth: int)
    requires DayItemsOf(items, currentMonth)
    ensures forall i :: 0 <= i < |items| ==>
              (items[i].isCurrentMonth <==> SameMonthYear(items[i].date, currentMonth))
    ensures forall i :: 0 <= i < |items| && !items[i].isCurrentMonth ==>
              MonthIndex(items[i].date) == MonthIndex(currentMonth) - 1
    ensures forall i :: 0 <= i < |items| && items[i].isCurrentMonth ==>
              items[i].day == i - LeadingCount(currentMonth) + 1
  {
    forall i | 0 <= i < |items|
      ensures items[i].isCurrentMonth <==> SameMonthYear(items[i].date, currentMonth)
      ensures !items[i].isCurrentMonth ==> MonthIndex(items[i].date) == MonthIndex(currentMonth) - 1
      ensures items[i].isCurrentMonth ==> items[i].day == i - LeadingCount(currentMonth) + 1
    {
      DayItemCivil(items, currentMonth, i);
    }
  }

  /** No next-month padding: the last cell is the shown month's last day. */
  lemma DayItemsEndOnLastDay(items: seq<DayItem>, currentMonth: int)
    requires DayItemsOf(items, currentMonth)
    ensures var c := CivilOf(currentMonth);
            |items| > 0 && CivilOf(items[|items| - 1].date) == Ymd(c.year, c.month, DaysInMonth(c.year, c.month))
  {
    DayItemCivil(items, currentMonth, |items| - 1);
  }

  /** "p..." and "c..." differ, and equal prefixes cancel. */
  lemma IdsDiffer(a: int, b: int, currentA: bool, currentB: bool)
    requires a != b || currentA != currentB
    ensures IdText(CellId(currentA, a)) != IdText(CellId(currentB, b))
  {
    var prefixA: string := if currentA then "current-" else "prev-";
    var prefixB: string := if currentB then "current-" else "prev-";
    if currentA != currentB {
      assert (prefixA + IntToString(a))[0] != (prefixB + IntToString(b))[0];
    } else if prefixA + IntToString(a) == prefixB + IntToString(b) {
      assert (prefixA + IntToString(a))[|prefixA|..] == IntToString(a);
      assert (prefixB + IntToString(b))[|prefixB|..] == IntToString(b);
      IntToStringInjective(a, b);
    }
  }

  /** The cells' ids are pairwise distinct, as `ForEach` needs. */
  lemma DayItemIdsDistinct(items: seq<DayItem>, currentMonth: int)
    requires DayItemsOf(items, currentMonth)
    ensures forall i, j :: 0 <= i < j < |items| ==> IdText(items[i].id) != IdText(items[j].id)
  {
    var lead := LeadingCount(currentMonth);
    forall i, j | 0 <= i < j < |items| ensures IdText(items[i].id) != IdText(items[j].id) {
      DayItemCivil(items, currentMonth, i);
      DayItemCivil(items, currentMonth, j);
      IdsDiffer(items[i].day, items[j].day, i >= lead, j >= lead);
    }
  }

  /** Two dates in the same month (by month count) share month and year. */
  lemma SameMonthIndex(a: int, b: int)
    requires MonthIndex(a) == MonthIndex(b)
    ensures SameMonthYear(a, b)
  {
  }

  /** The grid depends only on the shown month, not on the day within it. */
  lemma DayItemsOfSameMonth(items: seq<DayItem>, a: int, b: int)
    requires SameMonthYear(a, b)
    ensures DayItemsOf(items, a) <==> DayItemsOf(items, b)
  {
    SameMonthIffSameStart(a, b);
  }

  /** Going back a month and forward again shows the same grid. */
  lemma PreviousThenNextRestoresGrid(items: seq<DayItem>, d: int)
    ensures DayItemsOf(items, AddMonths(AddMonths(d, -1), 1)) <==> DayItemsOf(items, d)
  {
    SameMonthIndex(AddMonths(AddMonths(d, -1), 1), d);
    DayItemsOfSameMonth(items, AddMonths(AddMonths(d, -1), 1), d);
  }

  /** The picker's state: the bound selection and visibility, the month it
      shows, and the day last pressed. */
  class DatePicker {
    var selectedDate: int
    var isShowing: bool
    var currentMonth: int
    var pressedDay: Option<int>

    /** The picker opens on the selected date's month. */
    constructor (selectedDate: int, isShowing: bool)
      ensures this.selectedDate == selectedDate && this.isShowing == isShowing
      ensures currentMonth == selectedDate && pressedDay == None
    {
      this.selectedDate := selectedDate;
      this.isShowing := isShowing;
      currentMonth := selectedDate;
      pressedDay := None;
    }

    /** The upward chevron: the month before. */
    method PreviousMonthTapped()
      modifies this`currentMonth
      ensures currentMonth == AddMonths(old(currentMonth), -1)
      ensures MonthIndex(currentMonth) == MonthIndex(old(currentMonth)) - 1
    {
      currentMonth := AddMonths(currentMonth, -1);
    }

    /** The downward chevron: the month after. */
    method NextMonthTapped()
      modifies this`currentMonth
      ensures currentMonth == AddMonths(old(currentMonth), 1)
      ensures MonthIndex(currentMonth) == MonthIndex(old(currentMonth)) + 1
    {
      currentMonth := AddMonths(currentMonth, 1);
    }

    /** A tap on a cell: a cell of the shown month becomes the selection,
        marks its day as pressed and closes the picker; the other cells are
        disabled and change nothing. */
    method DayTapped(item: DayItem)
      modifies this`selectedDate, this`isShowing, this`pressedDay
      ensures item.isCurrentMonth ==>
                selectedDate == item.date && pressedDay == Some(item.day) && !isShowing
      ensures !item.isCurrentMonth ==>
                selectedDate == old(selectedDate) && pressedDay == old(pressedDay) &&
                isShowing == old(isShowing)
    {
      if item.isCurrentMonth {
        pressedDay := Some(item.day);
        selectedDate := item.date;
        isShowing := false;
      }
    }
  }

  /** A tap on any cell of the grid leaves the selection in the shown month:
      either it is unchanged or it is a day of that month. */
  lemma TapSelectsInShownMonth(items: seq<DayItem>, currentMonth: int, i: int, before: int)
    requires DayItemsOf(items, currentMonth) && 0 <= i < |items|
    ensures var after := if items[i].isCurrentMonth then items[i].date else before;
            after == before || SameMonthYear(after, currentMonth)
  {
    DayItemsMonths(items, currentMonth);
  }
}
