/** The time fields of the event editor (TimePicker.swift): a 12-hour text
    field pair with an AM/PM toggle (`TimePicker`) and a tap-to-pick list
    (`TimePickerScrollView`), both writing a 24-hour time of day back into
    the bound `selectedTime`. */
module TimePicker {
  import opened Common
  import opened Decimal
  import opened Events

  /** The hour shown on a 12-hour face: 0 becomes 12, 13..23 lose 12. */
  function DisplayHour(hour: int): (h: int)
    ensures 0 <= hour < 24 ==> 1 <= h <= 12 && h % 12 == hour % 12
  {
    if hour == 0 then 12 else if hour > 12 then hour - 12 else hour
  }

  /** "PM" from noon on, "AM" before. */
  function PeriodOf(hour: int): string
  {
    if hour >= 12 then "PM" else "AM"
  }

  predicate IsPeriod(period: string)
  {
    period == "AM" || period == "PM"
  }

  /** The 24-hour hour of a 12-hour face reading: PM adds 12 except to 12,
      and 12 AM is midnight. */
  function To24(hour: int, period: string): (h: int)
    ensures 1 <= hour <= 12 && IsPeriod(period) ==>
              0 <= h < 24 && PeriodOf(h) == period && DisplayHour(h) == hour
  {
    if period == "PM" && hour != 12 then hour + 12
    else if period == "AM" && hour == 12 then 0
    else hour
  }

  /** Reading a 24-hour hour on the 12-hour face and converting back gives
      the same hour. */
  lemma HourRoundTrip(hour: int)
    requires 0 <= hour < 24
    ensures To24(DisplayHour(hour), PeriodOf(hour)) == hour
  {
  }

  /** The AM/PM button's new period. */
  function Toggled(period: string): string
  {
    if period == "AM" then "PM" else "AM"
  }

  /** Toggling twice restores the period, and one toggle moves the 24-hour
      hour by twelve. */
  lemma ToggleMovesTwelveHours(hour: int, period: string)
    requires 1 <= hour <= 12 && IsPeriod(period)
    ensures Toggled(Toggled(period)) == period && Toggled(period) != period
    ensures To24(hour, Toggled(period)) == (To24(hour, period) + 12) % 24
  {
  }

  /** `validateHour()`: empty or non-numeric text becomes "12", values below
      1 become "1" and above 12 become "12"; text already naming an hour of
      the 12-hour face is kept as typed. */
  function ValidateHour(text: string): (r: string)
    ensures ParseInt(r).Some? && 1 <= ParseInt(r).value <= 12
    ensures r == text <==> ParseInt(text).Some? && 1 <= ParseInt(text).value <= 12
    ensures ParseInt(text).Some? && ParseInt(text).value < 1 ==> r == "1"
    ensures ParseInt(text).Some? && ParseInt(text).value > 12 ==> r == "12"
    ensures ParseInt(text).None? ==> r == "12"
  {
    FieldLiterals();
    if text == [] then "12"
    else match ParseInt(text)
      case Some(hour) => if hour < 1 then "1" else if hour > 12 then "12" else text
      case None => "12"
  }

  /** Validating twice is validating once. */
  lemma ValidateHourIdempotent(text: string)
    ensures ValidateHour(ValidateHour(text)) == ValidateHour(text)
  {
    var r := ValidateHour(text);
    assert ParseInt(r).Some? && 1 <= ParseInt(r).value <= 12;
  }

  /** `validateMinute()`: empty or non-numeric text becomes "00", values
      above 59 become "59", and any other value is kept and zero-padded to
      two digits. */
  function ValidateMinute(text: string): (r: string)
    ensures ParseInt(r).Some? && ParseInt(r).value <= 59
    ensures ParseInt(text).None? ==> r == "00"
    ensures ParseInt(text).Some? && ParseInt(text).value > 59 ==> r == "59"
    ensures ParseInt(text).Some? && ParseInt(text).value <= 59 ==> ParseInt(r).value == ParseInt(text).value
    ensures ParseInt(text).Some? && 0 <= ParseInt(text).value <= 59 ==> |r| == 2 && AllDigits(r)
  {
    FieldLiterals();
    if text == [] then "00"
    else match ParseInt(text)
      case Some(minute) => if minute > 59 then "59" else Format02(minute)
      case None => "00"
  }

  /** Validating twice is validating once. */
  lemma ValidateMinuteIdempotent(text: string)
    ensures ValidateMinute(ValidateMinute(text)) == ValidateMinute(text)
  {
    FieldLiterals();
    var r := ValidateMinute(text);
    var v := ParseInt(r).value;
    assert ValidateMinute(r) == Format02(v);
    if r == "00" {
      assert Format02(0) == "00";
    } else if r == "59" {
      assert NatToString(5) == "5";
      assert Format02(59) == "59";
    }
  }

  /** The hour field's `onChange` filter applied to a newly typed value:
      digits only; then a value above 12 becomes "12" and 0 becomes "1";
      then more than two digits are cut to the first two. */
  function HourFilter(newValue: string): (r: string)
    ensures AllDigits(r) && |r| <= 2
    ensures var f := Filter(newValue, IsDigit);
            && (|f| > 2 ==> r == f[..2])
            && (|f| <= 2 && f != [] && ParseInt(f).value > 12 ==> r == "12")
            && (|f| <= 2 && ParseInt(f) == Some(0) ==> r == "1")
            && (|f| <= 2 && (f == [] || 1 <= ParseInt(f).value <= 12) ==> r == f)
  {
    var filtered := Filter(newValue, IsDigit);
    DigitsParse(filtered);
    assert AllDigits("12") && AllDigits("1");
    if |filtered| > 2 then filtered[..2]
    else match ParseInt(filtered)
      case Some(hour) => if hour > 12 then "12" else if hour == 0 then "1" else filtered
      case None => filtered
  }

  /** At most two typed digits settle in one pass: on an empty field or an
      hour of the 12-hour face. */
  lemma HourFilterShortInput(newValue: string)
    requires |Filter(newValue, IsDigit)| <= 2
    ensures var r := HourFilter(newValue);
            (r == [] <==> Filter(newValue, IsDigit) == []) &&
            (r != [] ==> 1 <= ParseInt(r).value <= 12)
  {
    var filtered := Filter(newValue, IsDigit);
    var r := HourFilter(newValue);
    DigitsParse(filtered);
    FieldLiterals();
    if filtered != [] {
      var hour := ParseInt(filtered).value;
      if hour > 12 {
        assert r == "12";
      } else if hour == 0 {
        assert r == "1";
      } else {
        assert r == filtered;
      }
    }
  }

  /** The filter writes the field, which runs it again: after a second pass
      the field is empty or holds an hour of the 12-hour face, and further
      passes change nothing (a third digit can leave e.g. "99" after the
      first pass). */
  lemma HourFilterSettles(newValue: string)
    ensures var r := HourFilter(HourFilter(newValue));
            HourFilter(r) == r && (r == [] || 1 <= ParseInt(r).value <= 12)
  {
    var r1 := HourFilter(newValue);
    FilterAll(r1, IsDigit);
    HourFilterShortInput(r1);
    var r := HourFilter(r1);
    FilterAll(r, IsDigit);
    HourFilterShortInput(r);
    DigitsParse(r);
  }

  /** All-digit text parses exactly when it is non-empty, to a non-negative
      value that one digit keeps below 10 and two digits below 100. */
  lemma DigitsParse(s: string)
    requires AllDigits(s)
    ensures ParseInt(s).Some? <==> s != []
    ensures s != [] ==> 0 <= ParseInt(s).value
    ensures s != [] && |s| <= 2 ==> ParseInt(s).value < 100
    ensures |s| == 1 ==> ParseInt(s).value < 10
  {
    if s != [] {
      ParseDigits(s);
      if |s| == 1 {
        OneDigitValue(s);
      } else if |s| == 2 {
        TwoDigitsValue(s);
      }
    }
  }

  /** The minute field's `onChange` filter applied to a newly typed value:
      digits only; a value above 59 becomes "59"; more than two digits are
      cut to the first two; exactly two typed digits are validated. */
  function MinuteFilter(newValue: string): (r: string)
    ensures AllDigits(r) && |r| <= 2
    ensures var f := Filter(newValue, IsDigit);
            && (|f| > 2 ==> r == f[..2])
            && (|f| == 2 ==>
                  |r| == 2 && ParseInt(r).Some? &&
                  ParseInt(r).value == if ParseInt(f).value > 59 then 59 else ParseInt(f).value)
            && (|f| < 2 ==> r == f)
  {
    var filtered := Filter(newValue, IsDigit);
    DigitsParse(filtered);
    var clamped := if ParseInt(filtered).Some? && ParseInt(filtered).value > 59 then "59" else filtered;
    if |filtered| > 2 then filtered[..2]
    else if |filtered| == 2 then
      DigitsParse(filtered);
      FieldLiterals();
      ValidateMinute(clamped)
    else clamped
  }

  /** Two typed digits leave a two-digit minute 00..59. */
  lemma MinuteFilterTwoDigits(newValue: string)
    requires |Filter(newValue, IsDigit)| == 2
    ensures var r := MinuteFilter(newValue);
            |r| == 2 && ParseInt(r).Some? && 0 <= ParseInt(r).value <= 59
  {
    var filtered := Filter(newValue, IsDigit);
    DigitsParse(filtered);
    FieldLiterals();
  }

  /** A settled minute field: the filter leaves it as it is. */
  lemma MinuteFilterFixed(s: string)
    requires AllDigits(s) && |s| <= 2 && (|s| == 2 ==> ParseInt(s).value <= 59)
    ensures MinuteFilter(s) == s
  {
    FilterAll(s, IsDigit);
    DigitsParse(s);
    if |s| == 2 {
      Format02Digits(s);
    } else if |s| == 1 {
      ParseDigits(s);
      OneDigitValue(s);
    }
  }

  /** After the second pass the minute field is empty, a single digit or a
      two-digit minute 00..59, and further passes change nothing. */
  lemma MinuteFilterSettles(newValue: string)
    ensures var r := MinuteFilter(MinuteFilter(newValue));
            MinuteFilter(r) == r && (|r| == 2 ==> 0 <= ParseInt(r).value <= 59)
  {
    var r1 := MinuteFilter(newValue);
    FilterAll(r1, IsDigit);
    DigitsParse(r1);
    if |r1| == 2 {
      MinuteFilterTwoDigits(r1);
    } else {
      MinuteFilterFixed(r1);
    }
    var r := MinuteFilter(r1);
    DigitsParse(r);
    MinuteFilterFixed(r);
  }

  /** A two-digit minute 00..59 is its own zero-padded rendering. */
  lemma Format02Digits(s: string)
    requires |s| == 2 && AllDigits(s) && ParseInt(s).Some? && ParseInt(s).value <= 59
    ensures Format02(ParseInt(s).value) == s
  {
    var v := ParseInt(s).value;
    var f := Format02(v);
    ParseDigits(s);
    TwoDigitsValue(s);
    DigitsParse(s);
    ParseDigits(f);
    TwoDigitsValue(f);
    assert DigitValue(f[0]) * 10 + DigitValue(f[1]) == DigitValue(s[0]) * 10 + DigitValue(s[1]);
    assert f[0] == s[0] && f[1] == s[1];
  }

  /** The time `updateTime()` writes: the day of `time` with the validated
      hour, period and minute (`date(from:)` succeeds, every component being
      in range). */
  function UpdatedTime(time: DateTime, hourText: string, minuteText: string, period: string): DateTime
  {
    DateTime(time.day, To24(ParseInt(ValidateHour(hourText)).value, period),
             ParseInt(ValidateMinute(minuteText)).value)
  }

  /** Opening the picker on a time and committing it unchanged gives back
      the same time. */
  lemma InitThenUpdateKeepsTime(time: DateTime)
    requires ValidTime(time)
    ensures UpdatedTime(time, IntToString(DisplayHour(time.hour)), Format02(time.minute),
                        PeriodOf(time.hour)) == time
  {
    ParseIntToString(DisplayHour(time.hour));
    HourRoundTrip(time.hour);
  }

  /** The text-field picker's state. */
  class TextTimePicker {
    var selectedTime: DateTime
    var hourText: string
    var minuteText: string
    var selectedPeriod: string

    /** The typed minute is digits only (every writer filters or pads it)
        and the period is AM or PM. */
    ghost predicate Valid()
      reads this
    {
      AllDigits(minuteText) && IsPeriod(selectedPeriod)
    }

    /** `init(title:selectedTime:)`: the fields show the bound time on the
        12-hour face. */
    constructor (time: DateTime)
      requires ValidTime(time)
      ensures Valid() && selectedTime == time
      ensures hourText == IntToString(DisplayHour(time.hour))
      ensures minuteText == Format02(time.minute)
      ensures selectedPeriod == PeriodOf(time.hour)
    {
      var hour := time.hour;
      var minute := time.minute;
      var displayHour := if hour == 0 then 12 else if hour > 12 then hour - 12 else hour;
      selectedTime := time;
      hourText := IntToString(displayHour);
      minuteText := Format02(minute);
      selectedPeriod := if hour >= 12 then "PM" else "AM";
    }

    /** The hour field's `onChange(of: hourText)`. */
    method HourTextChanged(newValue: string)
      modifies this`hourText
      ensures hourText == HourFilter(newValue)
    {
      hourText := newValue;
      var filtered := Filter(newValue, IsDigit);
      if filtered != newValue {
        hourText := filtered;
      }
      var parsed := ParseInt(filtered);
      if parsed.Some? {
        if parsed.value > 12 {
          hourText := "12";
        } else if parsed.value == 0 {
          hourText := "1";
        }
      }
      if |filtered| > 2 {
        hourText := filtered[..2];
      }
    }

    /** The minute field's `onChange(of: minuteText)`. */
    method MinuteTextChanged(newValue: string)
      requires Valid()
      modifies this`minuteText
      ensures Valid() && minuteText == MinuteFilter(newValue)
    {
      minuteText := newValue;
      var filtered := Filter(newValue, IsDigit);
      DigitsParse(filtered);
      if filtered != newValue {
        minuteText := filtered;
      }
      var parsed := ParseInt(filtered);
      if parsed.Some? {
        if parsed.value > 59 {
          minuteText := "59";
        }
      }
      if |filtered| > 2 {
        minuteText := filtered[..2];
      }
      if |filtered| == 2 {
        FieldLiterals();
        ValidateMinuteText();
      }
      assert minuteText == MinuteFilter(newValue);
    }

    /** `validateHour()` on the field. */
    method ValidateHourText()
      modifies this`hourText
      ensures hourText == ValidateHour(old(hourText))
    {
      if hourText == [] {
        hourText := "12";
        return;
      }
      var parsed := ParseInt(hourText);
      if parsed.Some? {
        if parsed.value < 1 {
          hourText := "1";
        } else if parsed.value > 12 {
          hourText := "12";
        }
      } else {
        hourText := "12";
      }
    }

    /** `validateMinute()` on the field. */
    method ValidateMinuteText()
      modifies this`minuteText
      ensures minuteText == ValidateMinute(old(minuteText))
      ensures AllDigits(old(minuteText)) ==> AllDigits(minuteText)
    {
      if minuteText == [] {
        minuteText := "00";
        return;
      }
      var parsed := ParseInt(minuteText);
      if parsed.Some? {
        if parsed.value > 59 {
          minuteText := "59";
        } else {
          minuteText := Format02(parsed.value);
        }
      } else {
        minuteText := "00";
      }
    }

    /** `updateTime()`: validate both fields, then write their time on the
        bound date's day. */
    method UpdateTime()
      requires Valid()
      modifies this`hourText, this`minuteText, this`selectedTime
      ensures Valid()
      ensures hourText == ValidateHour(old(hourText)) && minuteText == ValidateMinute(old(minuteText))
      ensures selectedTime == UpdatedTime(old(selectedTime), old(hourText), old(minuteText), selectedPeriod)
      ensures ValidTime(selectedTime)
    {
      ValidateHourText();
      ValidateMinuteText();
      DigitsParse(minuteText);
      var hour := match ParseInt(hourText) case Some(h) => h case None => 12;
      var minute := match ParseInt(minuteText) case Some(m) => m case None => 0;
      var finalHour := hour;
      if selectedPeriod == "PM" && hour != 12 {
        finalHour := finalHour + 12;
      } else if selectedPeriod == "AM" && hour == 12 {
        finalHour := 0;
      }
      selectedTime := DateTime(selectedTime.day, finalHour, minute);
    }

    /** Submitting the hour field. */
    method SubmitHour()
      requires Valid()
      modifies this`hourText, this`minuteText, this`selectedTime
      ensures Valid()
      ensures hourText == ValidateHour(old(hourText)) && minuteText == ValidateMinute(old(minuteText))
      ensures selectedTime == UpdatedTime(old(selectedTime), old(hourText), old(minuteText), selectedPeriod)
    {
      ValidateHourText();
      UpdateTime();
      ValidateHourIdempotent(old(hourText));
    }

    /** Submitting the minute field. */
    method SubmitMinute()
      requires Valid()
      modifies this`hourText, this`minuteText, this`selectedTime
      ensures Valid()
      ensures hourText == ValidateHour(old(hourText)) && minuteText == ValidateMinute(old(minuteText))
      ensures selectedTime == UpdatedTime(old(selectedTime), old(hourText), old(minuteText), selectedPeriod)
    {
      ValidateMinuteText();
      UpdateTime();
      ValidateMinuteIdempotent(old(minuteText));
    }

    /** The AM/PM button: flip the period, then `updateTime()`. */
    method TogglePeriod()
      requires Valid()
      modifies this`hourText, this`minuteText, this`selectedTime, this`selectedPeriod
      ensures Valid() && selectedPeriod == Toggled(old(selectedPeriod))
      ensures hourText == ValidateHour(old(hourText)) && minuteText == ValidateMinute(old(minuteText))
      ensures selectedTime == UpdatedTime(old(selectedTime), old(hourText), old(minuteText), selectedPeriod)
    {
      selectedPeriod := if selectedPeriod == "AM" then "PM" else "AM";
      UpdateTime();
    }

    /** `onTimeSelected` from the drop-down list: show the chosen hour,
        minute and period, then `updateTime()`. */
    method TimeSelected(hour: int, minute: int, period: string)
      requires Valid() && 0 <= minute && IsPeriod(period)
      modifies this`hourText, this`minuteText, this`selectedTime, this`selectedPeriod
      ensures Valid() && selectedPeriod == period
      ensures hourText == ValidateHour(IntToString(hour)) && minuteText == ValidateMinute(Format02(minute))
      ensures selectedTime == UpdatedTime(old(selectedTime), IntToString(hour), Format02(minute), period)
    {
      hourText := IntToString(hour);
      minuteText := Format02(minute);
      selectedPeriod := period;
      UpdateTime();
    }
  }

  /** The list picker's state (`TimePickerScrollView`). */
  class ListTimePicker {
    var selectedTime: DateTime
    var selectedHour: int
    var selectedMinute: int
    var selectedPeriod: string

    /** Every selection comes from the lists 1...12, 0...59 and AM/PM. */
    ghost predicate Valid()
      reads this
    {
      1 <= selectedHour <= 12 && 0 <= selectedMinute <= 59 && IsPeriod(selectedPeriod)
    }

    /** `init(selectedTime:isVisible:)`. */
    constructor (time: DateTime)
      requires ValidTime(time)
      ensures Valid() && selectedTime == time
      ensures selectedHour == DisplayHour(time.hour) && selectedMinute == time.minute
      ensures selectedPeriod == PeriodOf(time.hour)
      ensures To24(selectedHour, selectedPeriod) == time.hour
    {
      var hour := time.hour;
      selectedTime := time;
      selectedHour := if hour == 0 then 12 else if hour > 12 then hour - 12 else hour;
      selectedMinute := time.minute;
      selectedPeriod := if hour >= 12 then "PM" else "AM";
      HourRoundTrip(hour);
    }

    /** `updateSelectedTime()`: the selection's 24-hour time on the bound
        date's day. */
    method UpdateSelectedTime()
      requires Valid()
      modifies this`selectedTime
      ensures selectedTime == DateTime(old(selectedTime).day, To24(selectedHour, selectedPeriod), selectedMinute)
      ensures ValidTime(selectedTime) && DisplayHour(selectedTime.hour) == selectedHour
      ensures PeriodOf(selectedTime.hour) == selectedPeriod
    {
      var hour := selectedHour;
      if selectedPeriod == "PM" && hour != 12 {
        hour := hour + 12;
      } else if selectedPeriod == "AM" && hour == 12 {
        hour := 0;
      }
      selectedTime := DateTime(selectedTime.day, hour, selectedMinute);
    }

    method HourTapped(hour: int)
      requires Valid() && 1 <= hour <= 12
      modifies this`selectedHour, this`selectedTime
      ensures Valid() && selectedHour == hour
      ensures selectedTime == DateTime(old(selectedTime).day, To24(hour, selectedPeriod), selectedMinute)
    {
      selectedHour := hour;
      UpdateSelectedTime();
    }

    method MinuteTapped(minute: int)
      requires Valid() && 0 <= minute <= 59
      modifies this`selectedMinute, this`selectedTime
      ensures Valid() && selectedMinute == minute
      ensures selectedTime == DateTime(old(selectedTime).day, To24(selectedHour, selectedPeriod), minute)
    {
      selectedMinute := minute;
      UpdateSelectedTime();
    }

    method PeriodTapped(period: string)
      requires Valid() && IsPeriod(period)
      modifies this`selectedPeriod, this`selectedTime
      ensures Valid() && selectedPeriod == period
      ensures selectedTime == DateTime(old(selectedTime).day, To24(selectedHour, period), selectedMinute)
    {
      selectedPeriod := period;
      UpdateSelectedTime();
    }
  }
}
