/** Decimal text as Swift produces and reads it: string interpolation of an
    `Int`, `String(format: "%02d", _)`, `Int(String)` and
    `split(separator:)`. Strings are sequences of characters. */
module Decimal {
  import opened Common

  predicate IsDigit(ch: char)
  {
    '0' <= ch <= '9'
  }

  predicate AllDigits(s: string)
  {
    forall i :: 0 <= i < |s| ==> IsDigit(s[i])
  }

  function DigitChar(n: int): (ch: char)
    requires 0 <= n < 10
    ensures IsDigit(ch)
  {
    ('0' as int + n) as char
  }

  function DigitValue(ch: char): (n: int)
    requires IsDigit(ch)
    ensures 0 <= n < 10
  {
    ch as int - '0' as int
  }

  /** "\(n)" for a non-negative `n`: its decimal digits, without leading zeros. */
  function NatToString(n: nat): (s: string)
    ensures |s| >= 1 && AllDigits(s)
    ensures s[0] == '0' ==> n == 0
    decreases n
  {
    if n < 10 then [DigitChar(n)] else NatToString(n / 10) + [DigitChar(n % 10)]
  }

  /** "\(n)" for any `Int`: a minus sign before the digits of a negative value. */
  function IntToString(n: int): string
  {
    if n < 0 then "-" + NatToString(-n) else NatToString(n)
  }

  /** The value of a string of decimal digits. */
  function DigitsValue(s: string): nat
    requires AllDigits(s)
  {
    if s == [] then 0 else DigitsValue(s[..|s| - 1]) * 10 + DigitValue(s[|s| - 1])
  }

  lemma {:induction false} DigitsOfNat(n: nat)
    ensures DigitsValue(NatToString(n)) == n
    decreases n
  {
    if n >= 10 {
      var s := NatToString(n);
      assert s[..|s| - 1] == NatToString(n / 10);
      DigitsOfNat(n / 10);
    }
  }

  /** Swift's `Int(String)`: an optional `+` or `-` followed by one or more
      ASCII digits; anything else is nil. */
  function ParseInt(s: string): Option<int>
  {
    if |s| >= 2 && (s[0] == '+' || s[0] == '-') && AllDigits(s[1..]) then
      Some(if s[0] == '-' then 0 - DigitsValue(s[1..]) else DigitsValue(s[1..]))
    else if |s| >= 1 && AllDigits(s) then Some(DigitsValue(s))
    else None
  }

  /** A non-empty run of digits reads as its value. */
  lemma ParseDigits(s: string)
    requires AllDigits(s) && s != []
    ensures ParseInt(s) == Some(DigitsValue(s))
  {
    assert IsDigit(s[0]);
  }

  lemma OneDigitValue(s: string)
    requires AllDigits(s) && |s| == 1
    ensures DigitsValue(s) == DigitValue(s[0])
  {
    assert s[..0] == [];
  }

  lemma TwoDigitsValue(s: string)
    requires AllDigits(s) && |s| == 2
    ensures DigitsValue(s) == DigitValue(s[0]) * 10 + DigitValue(s[1])
  {
    var head := s[..|s| - 1];
    assert head == [s[0]];
    OneDigitValue(head);
  }

  /** The constant field texts of the time picker read as their values. */
  lemma FieldLiterals()
    ensures ParseInt("1") == Some(1) && ParseInt("12") == Some(12)
    ensures ParseInt("00") == Some(0) && ParseInt("59") == Some(59)
  {
    ParseDigits("1");
    OneDigitValue("1");
    ParseDigits("12");
    TwoDigitsValue("12");
    ParseDigits("00");
    TwoDigitsValue("00");
    ParseDigits("59");
    TwoDigitsValue("59");
  }

  /** Rendering an integer and reading it back gives the integer. */
  lemma ParseIntToString(n: int)
    ensures ParseInt(IntToString(n)) == Some(n)
  {
    if n < 0 {
      ParseNegative(-n);
    } else {
      ParseNat(n);
    }
  }

  lemma ParseNat(n: nat)
    ensures ParseInt(NatToString(n)) == Some(n)
  {
    var s := NatToString(n);
    DigitsOfNat(n);
    assert IsDigit(s[0]);
  }

  lemma ParseNegative(n: nat)
    requires n > 0
    ensures ParseInt("-" + NatToString(n)) == Some(-(n as int))
  {
    var s := "-" + NatToString(n);
    DigitsOfNat(n);
    assert s[1..] == NatToString(n);
  }

  /** Different integers render differently. */
  lemma IntToStringInjective(a: int, b: int)
    requires IntToString(a) == IntToString(b)
    ensures a == b
  {
    ParseIntToString(a);
    ParseIntToString(b);
  }

  /** `String(format: "%02d", n)`: at least two characters, zero-padded;
      a negative value keeps its sign and is not padded further. */
  function Format02(n: int): (s: string)
    ensures ParseInt(s) == Some(n)
    ensures 0 <= n ==> |s| >= 2 && AllDigits(s)
    ensures 0 <= n < 100 ==> |s| == 2
  {
    if n < 0 then
      ParseIntToString(n);
      "-" + NatToString(-n)
    else if n < 10 then
      var s := ['0', DigitChar(n)];
      assert s[..1] == ['0'] && s[..1][..0] == [];
      assert DigitsValue(s[..1]) == 0;
      assert DigitsValue(s) == DigitsValue(s[..1]) * 10 + DigitValue(s[1]);
      s
    else
      DigitsOfNat(n);
      NatToString(n)
  }

  /** Length of the longest prefix of `s` without `sep`. */
  function FieldLength(s: string, sep: char): (k: nat)
    ensures k <= |s| && (k == |s| || s[k] == sep)
    ensures forall i :: 0 <= i < k ==> s[i] != sep
  {
    if s == [] || s[0] == sep then 0 else 1 + FieldLength(s[1..], sep)
  }

  /** Swift's `split(separator:)` with its default of omitting empty
      subsequences: the maximal non-empty runs of characters other than `sep`. */
  function Split(s: string, sep: char): (fields: seq<string>)
    ensures forall i :: 0 <= i < |fields| ==> |fields[i]| >= 1
    decreases |s|
  {
    if s == [] then []
    else if s[0] == sep then Split(s[1..], sep)
    else
      var k := FieldLength(s, sep);
      [s[..k]] + Split(s[k..], sep)
  }

  lemma {:induction false} FieldLengthOf(a: string, rest: string, sep: char)
    requires forall i :: 0 <= i < |a| ==> a[i] != sep
    requires rest == [] || rest[0] == sep
    ensures FieldLength(a + rest, sep) == |a|
  {
    if a != [] {
      assert (a + rest)[1..] == a[1..] + rest;
      FieldLengthOf(a[1..], rest, sep);
    }
  }

  /** A non-empty field followed by the separator splits off as one field. */
  lemma SplitField(a: string, rest: string, sep: char)
    requires |a| >= 1 && forall i :: 0 <= i < |a| ==> a[i] != sep
    ensures Split(a + [sep] + rest, sep) == [a] + Split(rest, sep)
  {
    var s := a + [sep] + rest;
    FieldLengthOf(a, [sep] + rest, sep);
    assert s == a + ([sep] + rest);
    assert s[..|a|] == a;
    assert s[|a|..] == [sep] + rest;
    assert s[|a|..][1..] == rest;
  }

  lemma SplitLast(a: string, sep: char)
    requires |a| >= 1 && forall i :: 0 <= i < |a| ==> a[i] != sep
    ensures Split(a, sep) == [a]
  {
    FieldLengthOf(a, [], sep);
    assert a + [] == a;
    assert a[|a|..] == [];
  }
}
