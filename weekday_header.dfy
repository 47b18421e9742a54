/** The row of weekday names above a grid (`CalendarWeekdayHeader`): seven
    columns whose weekday numbers (Sunday = 1) rotate from `startDayOfWeek`. */
module WeekdayHeader {
  import opened Gregorian

  /** Swift's `%` on `Int`: it truncates toward zero, so the remainder has
      the sign of the dividend (Dafny's `%` never goes negative); the
      divisor is always 7 here. */
  function TruncRem7(a: int): (r: int)
    ensures -7 < r < 7
    ensures a >= 0 ==> r == a % 7
    ensures a < 0 ==> r <= 0 && (a - r) % 7 == 0
  {
    if a >= 0 then a % 7 else -((-a) % 7)
  }

  /** The weekday number of column `index`: `(startDayOfWeek + index - 1) % 7 + 1`. */
  function ColumnWeekday(startDayOfWeek: int, index: int): int
  {
    TruncRem7(startDayOfWeek + index - 1) + 1
  }

  /** The seven columns of the header. */
  function HeaderRow(startDayOfWeek: int): (r: seq<int>)
    ensures |r| == 7
    ensures forall i :: 0 <= i < 7 ==> r[i] == ColumnWeekday(startDayOfWeek, i)
  {
    seq(7, index => ColumnWeekday(startDayOfWeek, index))
  }

  /** For a start in 1..7 every column names a weekday, the first column
      names the start itself, and each column is the cyclic successor of the
      one before it (7 is followed by 1). */
  lemma HeaderRotates(startDayOfWeek: int)
    requires 1 <= startDayOfWeek <= 7
    ensures var r := HeaderRow(startDayOfWeek);
            r[0] == startDayOfWeek &&
            (forall i :: 0 <= i < 7 ==> 1 <= r[i] <= 7) &&
            (forall i :: 0 <= i < 6 ==> r[i + 1] == if r[i] == 7 then 1 else r[i] + 1)
  {
    HeaderClosedForm(startDayOfWeek);
  }

  /** Column `i` is the start plus `i`, less seven once it passes Saturday. */
  lemma HeaderClosedForm(startDayOfWeek: int)
    requires 1 <= startDayOfWeek <= 7
    ensures forall i :: 0 <= i < 7 ==>
              HeaderRow(startDayOfWeek)[i] == if startDayOfWeek + i <= 7 then startDayOfWeek + i else startDayOfWeek + i - 7
  {
    var r := HeaderRow(startDayOfWeek);
    forall i | 0 <= i < 7
      ensures r[i] == if startDayOfWeek + i <= 7 then startDayOfWeek + i else startDayOfWeek + i - 7
    {
      SmallRem7(startDayOfWeek + i - 1);
    }
  }

  /** The remainder by 7 of a number below 14 takes at most one subtraction. */
  lemma SmallRem7(a: int)
    requires 0 <= a < 14
    ensures TruncRem7(a) == if a < 7 then a else a - 7
  {
  }

  /** The seven columns name every weekday exactly once. */
  lemma HeaderIsPermutation(startDayOfWeek: int)
    requires 1 <= startDayOfWeek <= 7
    ensures forall i, j :: 0 <= i < j < 7 ==> HeaderRow(startDayOfWeek)[i] != HeaderRow(startDayOfWeek)[j]
    ensures forall w :: 1 <= w <= 7 ==> HeaderRow(startDayOfWeek)[AlignOffset(w, startDayOfWeek)] == w
  {
    HeaderClosedForm(startDayOfWeek);
    forall w | 1 <= w <= 7
      ensures AlignOffset(w, startDayOfWeek) == if w >= startDayOfWeek then w - startDayOfWeek else w - startDayOfWeek + 7
    {
    }
  }

  /** With a start outside 1..7 the truncating `%` lets a column fall
      outside 1..7: a start of -7 labels its first column 0. */
  lemma NegativeStartLeavesRange()
    ensures ColumnWeekday(-7, 0) == 0
  {
  }

  /** The header fits a row of a grid whose weeks start on its first
      weekday: column `i` names the weekday of the row's `i`-th day. */
  lemma HeaderLabelsRow(weekStart: int, startDayOfWeek: WeekdayNumber)
    requires Weekday(weekStart) == startDayOfWeek
    ensures forall i :: 0 <= i < 7 ==> Weekday(weekStart + i) == HeaderRow(startDayOfWeek)[i]
  {
    HeaderClosedForm(startDayOfWeek);
    var q := (weekStart + 1) / 7;
    assert weekStart + 1 == 7 * q + startDayOfWeek - 1;
    forall i | 0 <= i < 7
      ensures Weekday(weekStart + i) == HeaderRow(startDayOfWeek)[i]
    {
      if startDayOfWeek + i <= 7 {
        assert weekStart + i + 1 == 7 * q + (startDayOfWeek + i - 1);
      } else {
        assert weekStart + i + 1 == 7 * (q + 1) + (startDayOfWeek + i - 8);
      }
    }
  }
}
