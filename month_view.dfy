/** `Calendar.weeks(for:)` (MonthView.swift): the days from the start of a
    month's first week to the end of its last week, cut into rows of seven.
    Calendar lookups that Foundation may fail are parameters returning an
    `Option`; days are day numbers and an interval is half-open. */
module MonthView {
  import opened Common
  import opened Gregorian

  /** A `DateInterval` whose bounds are midnights: the days `start` up to,
      not including, `end`. */
  datatype DayInterval = DayInterval(start: int, end: int)

  /** Consecutive rows of seven, the last one shorter when `|days|` is not a
      multiple of seven. */
  function Chunks(days: seq<int>): (rows: seq<seq<int>>)
    ensures forall i :: 0 <= i < |rows| ==> 1 <= |rows[i]| <= 7
    decreases |days|
  {
    if days == [] then []
    else if |days| <= 7 then [days]
    else [days[..7]] + Chunks(days[7..])
  }

  /** Chunking loses, duplicates and reorders nothing. */
  lemma {:induction false} FlattenChunks(days: seq<int>)
    ensures Flatten(Chunks(days)) == days
    decreases |days|
  {
    if |days| > 7 {
      FlattenChunks(days[7..]);
      assert days == days[..7] + days[7..];
    }
  }

  /** A whole number of weeks followed by anything chunks independently. */
  lemma {:induction false} ChunksAppend(weeks: seq<int>, rest: seq<int>)
    requires |weeks| % 7 == 0
    ensures Chunks(weeks + rest) == Chunks(weeks) + Chunks(rest)
    decreases |weeks|
  {
    if rest == [] {
      assert weeks + rest == weeks;
    } else if weeks != [] {
      assert (weeks + rest)[..7] == weeks[..7];
      assert (weeks + rest)[7..] == weeks[7..] + rest;
      if |weeks| == 7 {
        assert weeks[7..] == [] && weeks[..7] == weeks;
        assert Chunks(weeks) == [weeks];
        assert Chunks(weeks + rest) == [weeks] + Chunks(rest);
      } else {
        ChunksAppend(weeks[7..], rest);
      }
    } else {
      assert weeks + rest == rest;
    }
  }

  /** A whole number of weeks chunks into full rows only. */
  lemma {:induction false} ChunksOfWeeks(days: seq<int>)
    requires |days| % 7 == 0
    ensures |Chunks(days)| == |days| / 7
    ensures forall i :: 0 <= i < |Chunks(days)| ==> |Chunks(days)[i]| == 7
    decreases |days|
  {
    if |days| > 7 {
      ChunksOfWeeks(days[7..]);
    }
  }

  /** One day more than a whole, non-zero number of weeks leaves a final row
      holding only the last day. */
  lemma TrailingSingleton(days: seq<int>)
    requires |days| % 7 == 1 && |days| > 1
    ensures var rows := Chunks(days);
            |rows| >= 2 && rows[|rows| - 1] == [days[|days| - 1]]
  {
    var n := |days| - 1;
    assert days == days[..n] + [days[n]];
    ChunksAppend(days[..n], [days[n]]);
    ChunksOfWeeks(days[..n]);
  }

  /** Enumerating one day past a whole number of weeks ends with a row
      holding only that day. */
  lemma TrailingOfSpan(s: int, e: int)
    requires s < e && (e - s) % 7 == 0
    ensures var rows := Chunks(Range(s, e + 1));
            |rows| >= 2 && rows[|rows| - 1] == [e]
  {
    var days := Range(s, e + 1);
    assert |days| == e - s + 1;
    TrailingSingleton(days);
    assert days[|days| - 1] == e;
  }

  /** Filling rows of seven day by day with the enumeration of `weeks(for:)`:
      the midnights from `first` on, until the first one after `last`, which
      sets `stop` and flushes a non-empty partial row. */
  method CollectWeeks(first: int, last: int) returns (weeks: seq<seq<int>>)
    ensures weeks == Chunks(Range(first, last + 1))
  {
    weeks := [];
    var currentWeek: seq<int> := [];
    var date := first;
    var stop := false;
    while !stop
      invariant !stop ==> Filling(first, weeks, currentWeek, date) && (date <= last + 1 || date == first)
      invariant stop ==> weeks == Chunks(Range(first, last + 1))
      decreases if stop then 0 else if date > last then 1 else last - date + 2
    {
      if date > last {
        stop := true;
        FillingFlush(first, last, weeks, currentWeek, date);
        if |currentWeek| != 0 {
          weeks := weeks + [currentWeek];
        }
      } else {
        if |currentWeek| < 6 {
          FillingAdd(first, weeks, currentWeek, date);
        } else {
          FillingCloseRow(first, weeks, currentWeek, date);
        }
        currentWeek := currentWeek + [date];
        if |currentWeek| == 7 {
          weeks := weeks + [currentWeek];
          currentWeek := [];
        }
        date := date + 1;
      }
    }
  }

  /** The state of `CollectWeeks` before `date` is handled: full rows of the
      days from `first` on, then the partial row up to `date`. */
  predicate Filling(first: int, weeks: seq<seq<int>>, currentWeek: seq<int>, date: int)
  {
    date == first + 7 * |weeks| + |currentWeek| && |currentWeek| < 7 &&
    weeks == Chunks(Range(first, first + 7 * |weeks|)) &&
    currentWeek == Range(first + 7 * |weeks|, date)
  }

  /** Appending `date` to a partial row that stays short of seven. */
  lemma FillingAdd(first: int, weeks: seq<seq<int>>, currentWeek: seq<int>, date: int)
    requires Filling(first, weeks, currentWeek, date) && |currentWeek| < 6
    ensures Filling(first, weeks, currentWeek + [date], date + 1)
  {
    RangeSnoc(first + 7 * |weeks|, date);
  }

  /** Appending `date` as the seventh day closes the row. */
  lemma FillingCloseRow(first: int, weeks: seq<seq<int>>, currentWeek: seq<int>, date: int)
    requires Filling(first, weeks, currentWeek, date) && |currentWeek| == 6
    ensures Filling(first, weeks + [currentWeek + [date]], [], date + 1)
  {
    var n := |weeks|;
    var full := first + 7 * n;
    RangeSnoc(full, date);
    RowsExtend(first, n, 7);
    assert first + 7 * (n + 1) == date + 1;
  }

  /** Flushing the partial row after the last day gives the rows of all the
      days from `first` through `last`. */
  lemma FillingFlush(first: int, last: int, weeks: seq<seq<int>>, currentWeek: seq<int>, date: int)
    requires Filling(first, weeks, currentWeek, date)
    requires date == last + 1 || (date == first && date > last)
    ensures (if |currentWeek| != 0 then weeks + [currentWeek] else weeks) == Chunks(Range(first, last + 1))
  {
    RowsExtend(first, |weeks|, |currentWeek|);
    if date == first {
      assert Range(first, last + 1) == [];
    }
  }

  /** The rows of a whole number of weeks and a partial row after them. */
  lemma RowsExtend(first: int, n: nat, len: nat)
    requires len <= 7
    ensures Chunks(Range(first, first + 7 * n + len)) ==
            Chunks(Range(first, first + 7 * n)) + if len == 0 then [] else [Range(first + 7 * n, first + 7 * n + len)]
  {
    var full := first + 7 * n;
    RangeSplit(first, full, full + len);
    ChunksAppendRow(Range(first, full), Range(full, full + len));
  }

  /** Whole weeks followed by at most one row's worth of days. */
  lemma ChunksAppendRow(weeks: seq<int>, row: seq<int>)
    requires |weeks| % 7 == 0 && |row| <= 7
    ensures Chunks(weeks + row) == Chunks(weeks) + if row == [] then [] else [row]
  {
    ChunksAppend(weeks, row);
  }

  /** What `weeks(for:)` returns, given the calendar's month and week
      lookups: [] when one fails, otherwise the days from the first week's
      start through the last week's `end` instant, in rows of seven. */
  function WeeksForAsWritten(date: int, monthOf: int -> Option<DayInterval>,
                             weekOf: int -> Option<DayInterval>): seq<seq<int>>
  {
    if monthOf(date).None? then []
    else
      var month := monthOf(date).value;
      var firstWeek, lastWeek := weekOf(month.start), weekOf(month.end - 1);
      if firstWeek.None? || lastWeek.None? then []
      else Chunks(Range(firstWeek.value.start, lastWeek.value.end + 1))
  }

  /** `weeks(for:)` as written: the enumeration stops only at a date
      strictly after `monthLastWeek.end`. */
  method WeeksAsWritten(date: int, monthOf: int -> Option<DayInterval>,
                        weekOf: int -> Option<DayInterval>) returns (weeks: seq<seq<int>>)
    ensures weeks == WeeksForAsWritten(date, monthOf, weekOf)
  {
    var monthInterval := monthOf(date);
    if monthInterval.None? {
      return [];
    }
    var monthFirstWeek := weekOf(monthInterval.value.start);
    var monthLastWeek := weekOf(monthInterval.value.end - 1);
    if monthFirstWeek.None? || monthLastWeek.None? {
      return [];
    }
    weeks := CollectWeeks(monthFirstWeek.value.start, monthLastWeek.value.end);
  }

  /** The evident intent of `weeks(for:)`: the days of the weeks from the
      month's first week to its last, the last week's `end` excluded. */
  function WeeksFor(date: int, monthOf: int -> Option<DayInterval>,
                    weekOf: int -> Option<DayInterval>): seq<seq<int>>
  {
    if monthOf(date).None? then []
    else
      var month := monthOf(date).value;
      var firstWeek, lastWeek := weekOf(month.start), weekOf(month.end - 1);
      if firstWeek.None? || lastWeek.None? then []
      else Chunks(Range(firstWeek.value.start, lastWeek.value.end))
  }

  /** `weeks(for:)` corrected: the enumeration stops at the first date at or
      after `monthLastWeek.end`. */
  method Weeks(date: int, monthOf: int -> Option<DayInterval>,
               weekOf: int -> Option<DayInterval>) returns (weeks: seq<seq<int>>)
    ensures weeks == WeeksFor(date, monthOf, weekOf)
  {
    var monthInterval := monthOf(date);
    if monthInterval.None? {
      return [];
    }
    var monthFirstWeek := weekOf(monthInterval.value.start);
    var monthLastWeek := weekOf(monthInterval.value.end - 1);
    if monthFirstWeek.None? || monthLastWeek.None? {
      return [];
    }
    weeks := CollectWeeks(monthFirstWeek.value.start, monthLastWeek.value.end - 1);
  }

  /** Foundation's `dateInterval(of: .month, for:)` in the Gregorian calendar. */
  function GregorianMonth(d: int): Option<DayInterval>
  {
    Some(DayInterval(StartOfMonth(d), StartOfMonth(d) + DaysInMonth(CivilOf(d).year, CivilOf(d).month)))
  }

  /** Foundation's `dateInterval(of: .weekOfMonth, for:)`: the seven days of
      the week holding `d`, from the calendar's first weekday. */
  function GregorianWeek(firstWeekday: WeekdayNumber): int -> Option<DayInterval>
  {
    d => Some(DayInterval(WeekStartOf(d, firstWeekday), WeekStartOf(d, firstWeekday) + 7))
  }

  /** The end of the last week of a month of `len` days from `m`: the first
      day of the week after the one holding the month's last day. */
  function LastWeekEnd(m: int, len: int, firstWeekday: WeekdayNumber): int
  {
    WeekStartOf(m + len - 1, firstWeekday) + 7
  }

  /** In the Gregorian calendar the month lookup always succeeds: it gives
      the 28 to 31 days of the month holding `d`, from its first day. */
  lemma GregorianMonthHoldsDate(d: int)
    ensures GregorianMonth(d).Some?
    ensures var month := GregorianMonth(d).value;
            month.start <= d < month.end && 28 <= month.end - month.start <= 31 &&
            CivilOf(month.start).day == 1 && SameMonthYear(month.start, d)
  {
  }

  /** The first week's start and the last week's end around a month of
      `len >= 1` days differ by a whole, non-zero number of weeks and
      enclose the month. */
  lemma WeekSpan(m: int, len: int, firstWeekday: WeekdayNumber)
    requires len >= 1
    ensures var s := WeekStartOf(m, firstWeekday);
            var e := LastWeekEnd(m, len, firstWeekday);
            s < e && (e - s) % 7 == 0 && s <= m && m + len <= e
  {
    var s := WeekStartOf(m, firstWeekday);
    var e := LastWeekEnd(m, len, firstWeekday);
    SameWeekday(e - 7, s);
  }

  /** With the calendar's week lookup and a month lookup that succeeds,
      `weeks(for:)` as written enumerates the days from the month's first
      week start through the last week's end; the corrected version stops
      before that day. */
  lemma GregorianWeeks(date: int, monthOf: int -> Option<DayInterval>, firstWeekday: WeekdayNumber,
                       m: int, len: int)
    requires monthOf(date) == Some(DayInterval(m, m + len))
    ensures var s := WeekStartOf(m, firstWeekday);
            var e := LastWeekEnd(m, len, firstWeekday);
            WeeksForAsWritten(date, monthOf, GregorianWeek(firstWeekday)) == Chunks(Range(s, e + 1)) &&
            WeeksFor(date, monthOf, GregorianWeek(firstWeekday)) == Chunks(Range(s, e))
  {
    var s := WeekStartOf(m, firstWeekday);
    var last := WeekStartOf(m + len - 1, firstWeekday);
    GregorianWeekAt(firstWeekday, m);
    GregorianWeekAt(firstWeekday, m + len - 1);
    WeeksForOfLookups(date, monthOf, GregorianWeek(firstWeekday), DayInterval(m, m + len),
                      DayInterval(s, s + 7), DayInterval(last, last + 7));
  }

  lemma GregorianWeekAt(firstWeekday: WeekdayNumber, x: int)
    ensures GregorianWeek(firstWeekday)(x) ==
            Some(DayInterval(WeekStartOf(x, firstWeekday), WeekStartOf(x, firstWeekday) + 7))
  {
  }

  /** Once the three lookups succeed, both versions enumerate from the first
      week's start, to the last week's end inclusive or exclusive. */
  lemma WeeksForOfLookups(date: int, monthOf: int -> Option<DayInterval>, weekOf: int -> Option<DayInterval>,
                          month: DayInterval, firstWeek: DayInterval, lastWeek: DayInterval)
    requires monthOf(date) == Some(month)
    requires weekOf(month.start) == Some(firstWeek) && weekOf(month.end - 1) == Some(lastWeek)
    ensures WeeksForAsWritten(date, monthOf, weekOf) == Chunks(Range(firstWeek.start, lastWeek.end + 1))
    ensures WeeksFor(date, monthOf, weekOf) == Chunks(Range(firstWeek.start, lastWeek.end))
  {
  }

  /** The discrepancy: whenever the month lookup succeeds (in the Gregorian
      calendar it always does), `weeks(for:)` as written ends with a row
      holding only the first day after the month's last week, a day outside
      the month. */
  lemma AsWrittenTrailingDay(date: int, monthOf: int -> Option<DayInterval>, firstWeekday: WeekdayNumber,
                             m: int, len: int)
    requires monthOf(date) == Some(DayInterval(m, m + len)) && len >= 1
    ensures var rows := WeeksForAsWritten(date, monthOf, GregorianWeek(firstWeekday));
            |rows| >= 2 && rows[|rows| - 1] == [LastWeekEnd(m, len, firstWeekday)] &&
            LastWeekEnd(m, len, firstWeekday) >= m + len
  {
    WeekSpan(m, len, firstWeekday);
    GregorianWeeks(date, monthOf, firstWeekday, m, len);
    TrailingOfSpan(WeekStartOf(m, firstWeekday), LastWeekEnd(m, len, firstWeekday));
  }

  /** The corrected rows are full weeks, read in order they are consecutive
      days from the first week's start to the last week's end, and they hold
      every day of the month. */
  lemma WeeksCoverMonth(date: int, monthOf: int -> Option<DayInterval>, firstWeekday: WeekdayNumber,
                        m: int, len: int)
    requires monthOf(date) == Some(DayInterval(m, m + len)) && len >= 1
    ensures var rows := WeeksFor(date, monthOf, GregorianWeek(firstWeekday));
            var s := WeekStartOf(m, firstWeekday);
            var e := LastWeekEnd(m, len, firstWeekday);
            (forall i :: 0 <= i < |rows| ==> |rows[i]| == 7) &&
            Flatten(rows) == Range(s, e) &&
            s <= m && m + len <= e
  {
    var s := WeekStartOf(m, firstWeekday);
    var e := LastWeekEnd(m, len, firstWeekday);
    WeekSpan(m, len, firstWeekday);
    GregorianWeeks(date, monthOf, firstWeekday, m, len);
    ChunksOfWeeks(Range(s, e));
    FlattenChunks(Range(s, e));
  }
}
