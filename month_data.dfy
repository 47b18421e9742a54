/** `MonthData`: a month identified by the text "month-year" of one of its
    dates, compared by that identifier alone. */
module MonthData {
  import opened Gregorian
  import opened Decimal

  datatype MonthData = MonthData(id: string, date: int)

  /** `init(date:)`: the id is the month number, "-", and the year, both
      without padding. */
  function MakeMonthData(date: int): MonthData
  {
    MonthData(IntToString(CivilOf(date).month) + "-" + IntToString(CivilOf(date).year), date)
  }

  /** `==`: equal ids. */
  predicate Same(a: MonthData, b: MonthData)
  {
    a.id == b.id
  }

  /** `==` is an equivalence relation, whatever the stored dates. */
  lemma SameIsEquivalence(a: MonthData, b: MonthData, c: MonthData)
    ensures Same(a, a)
    ensures Same(a, b) ==> Same(b, a)
    ensures Same(a, b) && Same(b, c) ==> Same(a, c)
  {
  }

  /** The month part of an id ends at its first "-". */
  lemma IdFields(m: int, y: int)
    requires 1 <= m <= 12
    ensures var id := IntToString(m) + "-" + IntToString(y);
            FieldLength(id, '-') == |IntToString(m)| &&
            id[..|IntToString(m)|] == IntToString(m) &&
            id[|IntToString(m)| + 1..] == IntToString(y)
  {
    var ms, ys := IntToString(m), IntToString(y);
    assert forall i :: 0 <= i < |ms| ==> ms[i] != '-' by {
      assert AllDigits(ms);
    }
    assert ms + "-" + ys == ms + ("-" + ys);
    FieldLengthOf(ms, "-" + ys, '-');
  }

  /** Two dates give equal `MonthData` exactly when they lie in the same
      month of the same year, whatever their days. */
  lemma SameIffSameMonthYear(a: int, b: int)
    ensures Same(MakeMonthData(a), MakeMonthData(b)) <==> SameMonthYear(a, b)
  {
    var ca, cb := CivilOf(a), CivilOf(b);
    if Same(MakeMonthData(a), MakeMonthData(b)) {
      var id := MakeMonthData(a).id;
      IdFields(ca.month, ca.year);
      IdFields(cb.month, cb.year);
      assert IntToString(ca.month) == IntToString(cb.month);
      IntToStringInjective(ca.month, cb.month);
      IntToStringInjective(ca.year, cb.year);
    }
  }
}
