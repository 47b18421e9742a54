/** The Gregorian calendar of Foundation's `Calendar.current`, on integer
    day numbers. Day 0 is 0001-01-01 of the proleptic Gregorian calendar
    (a Monday); negative day numbers lie before it. A day number stands for
    a whole calendar day: times of day, time zones and DST are not modelled. */
module Gregorian {

  /** Foundation's weekday component: 1 = Sunday, 2 = Monday, ..., 7 = Saturday. */
  type WeekdayNumber = x: int | 1 <= x <= 7 witness 1

  /** Year, month and day components, as `dateComponents([.year, .month, .day])`
      returns them (years are astronomical: year 0 is 1 BC). */
  datatype Ymd = Ymd(year: int, month: int, day: int)

  predicate IsLeap(y: int)
  {
    y % 4 == 0 && (y % 100 != 0 || y % 400 == 0)
  }

  function DaysInMonth(y: int, m: int): (n: int)
    requires 1 <= m <= 12
    ensures 28 <= n <= 31
    ensures n == 29 <==> m == 2 && IsLeap(y)
  {
    if m == 2 then (if IsLeap(y) then 29 else 28)
    else if m == 4 || m == 6 || m == 9 || m == 11 then 30
    else 31
  }

  function DaysInYear(y: int): int
  {
    if IsLeap(y) then 366 else 365
  }

  predicate ValidYmd(c: Ymd)
  {
    1 <= c.month <= 12 && 1 <= c.day <= DaysInMonth(c.year, c.month)
  }

  /** Days from 0001-01-01 to 1 January of year `y` (negative for earlier years). */
  function DaysBeforeYear(y: int): int
  {
    var p := y - 1;
    365 * p + p / 4 - p / 100 + p / 400
  }

  /** Days from 1 January to the first day of month `m` of year `y`;
      month 13 stands for the end of the year. */
  function DaysBeforeMonth(y: int, m: int): int
    requires 1 <= m <= 13
  {
    var common :=
      if m == 1 then 0 else if m == 2 then 31 else if m == 3 then 59
      else if m == 4 then 90 else if m == 5 then 120 else if m == 6 then 151
      else if m == 7 then 181 else if m == 8 then 212 else if m == 9 then 243
      else if m == 10 then 273 else if m == 11 then 304 else if m == 12 then 334
      else 365;
    common + if m > 2 && IsLeap(y) then 1 else 0
  }

  lemma MonthStep(y: int, m: int)
    requires 1 <= m <= 12
    ensures DaysBeforeMonth(y, m + 1) == DaysBeforeMonth(y, m) + DaysInMonth(y, m)
    ensures DaysBeforeMonth(y, 13) == DaysInYear(y)
  {
  }

  /** `DaysBeforeMonth` is strictly increasing in the month. */
  lemma MonthOrder(y: int, m1: int, m2: int)
    requires 1 <= m1 < m2 <= 13
    ensures DaysBeforeMonth(y, m1) + DaysInMonth(y, m1) <= DaysBeforeMonth(y, m2)
  {
  }

  lemma DivisibilityChain(y: int)
    ensures y % 400 == 0 ==> y % 100 == 0
    ensures y % 100 == 0 ==> y % 4 == 0
  {
    MultipleOf400(y / 400);
    MultipleOf100(y / 100);
  }

  lemma MultipleOf400(k: int)
    ensures (400 * k) % 100 == 0
  {
  }

  lemma MultipleOf100(k: int)
    ensures (100 * k) % 4 == 0
  {
  }

  lemma DivStep4(y: int)
    ensures y / 4 - (y - 1) / 4 == if y % 4 == 0 then 1 else 0
  {
    var q, r := (y - 1) / 4, (y - 1) % 4;
    if r == 3 { assert y == 4 * (q + 1); } else { assert y == 4 * q + r + 1; }
  }

  lemma DivStep100(y: int)
    ensures y / 100 - (y - 1) / 100 == if y % 100 == 0 then 1 else 0
  {
    var q, r := (y - 1) / 100, (y - 1) % 100;
    if r == 99 { assert y == 100 * (q + 1); } else { assert y == 100 * q + r + 1; }
  }

  lemma DivStep400(y: int)
    ensures y / 400 - (y - 1) / 400 == if y % 400 == 0 then 1 else 0
  {
    var q, r := (y - 1) / 400, (y - 1) % 400;
    if r == 399 { assert y == 400 * (q + 1); } else { assert y == 400 * q + r + 1; }
  }

  /** One year further on is exactly one year's length further on. */
  lemma YearStep(y: int)
    ensures DaysBeforeYear(y + 1) == DaysBeforeYear(y) + DaysInYear(y)
  {
    DivisibilityChain(y);
    DivStep4(y);
    DivStep100(y);
    DivStep400(y);
  }

  lemma {:induction false} YearOrder(a: int, b: int)
    requires a < b
    ensures DaysBeforeYear(a) + DaysInYear(a) <= DaysBeforeYear(b)
    decreases b - a
  {
    YearStep(a);
    if a + 1 < b {
      YearOrder(a + 1, b);
      YearStep(a + 1);
    }
  }

  /** Foundation's `date(from:)`: lenient, so a month outside 1..12 carries
      into the year and a day outside the month carries into the neighbouring
      months. */
  function DayOf(c: Ymd): int
  {
    var y := c.year + (c.month - 1) / 12;
    var m := (c.month - 1) % 12 + 1;
    DaysBeforeYear(y) + DaysBeforeMonth(y, m) + c.day - 1
  }

  /** The date `n` days after the first day of month `m` of year `y`. */
  function MonthWalk(y: int, m: int, n: int): (c: Ymd)
    requires 1 <= m <= 12 && 0 <= n && DaysBeforeMonth(y, m) + n < DaysInYear(y)
    ensures ValidYmd(c) && c.year == y
    ensures DayOf(c) == DaysBeforeYear(y) + DaysBeforeMonth(y, m) + n
    decreases 12 - m
  {
    MonthStep(y, m);
    DayOfValid(Ymd(y, m, n + 1));
    if n < DaysInMonth(y, m) then Ymd(y, m, n + 1)
    else MonthWalk(y, m + 1, n - DaysInMonth(y, m))
  }

  /** The date `n` days after 1 January of year `y` (before it when n < 0). */
  function YearWalk(y: int, n: int): (c: Ymd)
    ensures ValidYmd(c) && DayOf(c) == DaysBeforeYear(y) + n
    decreases if n < 0 then 400 - n else n
  {
    if n < 0 then
      YearStep(y - 1);
      YearWalk(y - 1, n + DaysInYear(y - 1))
    else if n >= DaysInYear(y) then
      YearStep(y);
      YearWalk(y + 1, n - DaysInYear(y))
    else
      MonthStep(y, 1);
      MonthWalk(y, 1, n)
  }

  /** The calendar components of a day number. */
  function CivilOf(d: int): (c: Ymd)
    ensures ValidYmd(c) && DayOf(c) == d
  {
    YearWalk(1, d)
  }

  /** On a valid date `date(from:)` needs no normalisation. */
  lemma DayOfValid(c: Ymd)
    requires 1 <= c.month <= 12
    ensures DayOf(c) == DaysBeforeYear(c.year) + DaysBeforeMonth(c.year, c.month) + c.day - 1
  {
    assert (c.month - 1) / 12 == 0 && (c.month - 1) % 12 + 1 == c.month;
  }

  lemma YearBounds(c: Ymd)
    requires ValidYmd(c)
    ensures DaysBeforeYear(c.year) <= DayOf(c) < DaysBeforeYear(c.year) + DaysInYear(c.year)
  {
    DayOfValid(c);
    MonthStep(c.year, c.month);
    MonthOrder(c.year, c.month, 13);
  }

  lemma SameYear(a: Ymd, b: Ymd)
    requires ValidYmd(a) && ValidYmd(b) && DayOf(a) == DayOf(b)
    ensures a.year == b.year
  {
    YearBounds(a);
    YearBounds(b);
    if a.year < b.year {
      YearOrder(a.year, b.year);
    } else if b.year < a.year {
      YearOrder(b.year, a.year);
    }
  }

  lemma SameMonth(a: Ymd, b: Ymd)
    requires ValidYmd(a) && ValidYmd(b) && a.year == b.year
    requires DaysBeforeMonth(a.year, a.month) + a.day == DaysBeforeMonth(b.year, b.month) + b.day
    ensures a.month == b.month
  {
    if a.month < b.month {
      MonthOrder(a.year, a.month, b.month);
    } else if b.month < a.month {
      MonthOrder(a.year, b.month, a.month);
    }
  }

  /** Distinct valid dates have distinct day numbers. */
  lemma DayOfInjective(a: Ymd, b: Ymd)
    requires ValidYmd(a) && ValidYmd(b) && DayOf(a) == DayOf(b)
    ensures a == b
  {
    SameYear(a, b);
    DayOfValid(a);
    DayOfValid(b);
    SameMonth(a, b);
  }

  /** Components to day number and back is the identity on valid dates. */
  lemma CivilOfDayOf(c: Ymd)
    requires ValidYmd(c)
    ensures CivilOf(DayOf(c)) == c
  {
    DayOfInjective(CivilOf(DayOf(c)), c);
  }

  /** Foundation's `component(.weekday, from:)`; 0001-01-01 is a Monday (2). */
  function Weekday(d: int): WeekdayNumber
  {
    (d + 1) % 7 + 1
  }

  /** Days from the week start to a date whose weekday is `wd`, in a calendar
      whose weeks start on `firstWeekday` (Swift's `%` agrees with Dafny's here,
      the left operand being positive). */
  function AlignOffset(wd: WeekdayNumber, firstWeekday: WeekdayNumber): int
  {
    (wd - firstWeekday + 7) % 7
  }

  /** The first day of the week that holds `d`, as every grid of the
      application computes it: `d - (weekday - firstWeekday + 7) % 7`. */
  function WeekStartOf(d: int, firstWeekday: WeekdayNumber): (s: int)
    ensures Weekday(s) == firstWeekday
    ensures d - 6 <= s <= d
  {
    d - AlignOffset(Weekday(d), firstWeekday)
  }

  /** Two days with the same weekday are a whole number of weeks apart. */
  lemma SameWeekday(a: int, b: int)
    requires Weekday(a) == Weekday(b)
    ensures (a - b) % 7 == 0
  {
  }

  /** A day with weekday `firstWeekday` at most 6 days before `d` is its week start. */
  lemma WeekStartUnique(d: int, s: int, firstWeekday: WeekdayNumber)
    requires Weekday(s) == firstWeekday && d - 6 <= s <= d
    ensures s == WeekStartOf(d, firstWeekday)
  {
    var t := WeekStartOf(d, firstWeekday);
    SameWeekday(s, t);
  }

  lemma WeekdayShift(d: int, k: int)
    ensures Weekday(d + 7 * k) == Weekday(d)
  {
  }

  /** `startOfMonth()` (Date+Extensions.swift): the first day of `d`'s month. */
  function StartOfMonth(d: int): (r: int)
    ensures CivilOf(r) == Ymd(CivilOf(d).year, CivilOf(d).month, 1)
    ensures r == d - (CivilOf(d).day - 1)
  {
    var c := CivilOf(d);
    CivilOfDayOf(Ymd(c.year, c.month, 1));
    DayOfValid(c);
    DayOfValid(Ymd(c.year, c.month, 1));
    DayOf(Ymd(c.year, c.month, 1))
  }

  /** The `isInSameMonthYear` helper (month and year components both equal). */
  predicate SameMonthYear(a: int, b: int)
  {
    CivilOf(a).month == CivilOf(b).month && CivilOf(a).year == CivilOf(b).year
  }

  /** The month counted from year 0: year * 12 + month - 1. */
  function MonthIndex(d: int): int
  {
    CivilOf(d).year * 12 + CivilOf(d).month - 1
  }

  /** `date(byAdding: .month, value: k, to: d)`: the same day in the month `k`
      months away, clamped to that month's last day. */
  function AddMonths(d: int, k: int): (r: int)
    ensures MonthIndex(r) == MonthIndex(d) + k
    ensures CivilOf(r).day == if CivilOf(d).day <= DaysInMonth(CivilOf(r).year, CivilOf(r).month)
                              then CivilOf(d).day else DaysInMonth(CivilOf(r).year, CivilOf(r).month)
  {
    var c := CivilOf(d);
    var t := MonthIndex(d) + k;
    var y, m := t / 12, t % 12 + 1;
    var day := if c.day <= DaysInMonth(y, m) then c.day else DaysInMonth(y, m);
    CivilOfDayOf(Ymd(y, m, day));
    DayOf(Ymd(y, m, day))
  }

  /** `startOfMonth()` is idempotent. */
  lemma StartOfMonthIdempotent(d: int)
    ensures StartOfMonth(StartOfMonth(d)) == StartOfMonth(d)
  {
  }

  /** Two dates share month and year exactly when they share the first day of
      their month, so `isInSameMonthYear` is an equivalence. */
  lemma SameMonthIffSameStart(a: int, b: int)
    ensures SameMonthYear(a, b) <==> StartOfMonth(a) == StartOfMonth(b)
  {
    if SameMonthYear(a, b) {
      assert CivilOf(StartOfMonth(a)) == CivilOf(StartOfMonth(b));
      assert DayOf(CivilOf(StartOfMonth(a))) == DayOf(CivilOf(StartOfMonth(b)));
    }
  }

  /** The last day of the month before month `m` of year `y` is the day
      before that month's first day. */
  lemma PreviousMonthEnd(y: int, m: int)
    requires 1 <= m <= 12
    ensures var py, pm := if m == 1 then y - 1 else y, if m == 1 then 12 else m - 1;
            DayOf(Ymd(py, pm, DaysInMonth(py, pm))) + 1 == DayOf(Ymd(y, m, 1))
  {
    DayOfValid(Ymd(y, m, 1));
    if m == 1 {
      DayOfValid(Ymd(y - 1, 12, DaysInMonth(y - 1, 12)));
      YearStep(y - 1);
    } else {
      DayOfValid(Ymd(y, m - 1, DaysInMonth(y, m - 1)));
      MonthStep(y, m - 1);
    }
  }
}
