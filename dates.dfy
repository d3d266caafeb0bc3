/** Calendar dates as Python's `datetime.date` has them: proleptic Gregorian,
    years 1 to 9999, compared field by field, subtracted through the day
    ordinal (`toordinal()`), read with `strptime(s, "%d %b %Y")` and shown by
    `str()` as `YYYY-MM-DD`. */
module Dates {
  import opened Wrappers
  import opened Strings

  datatype YMD = YMD(year: int, month: int, day: int)

  predicate IsLeap(y: int)
  {
    y % 4 == 0 && (y % 100 != 0 || y % 400 == 0)
  }

  function DaysInMonth(y: int, m: int): (n: int)
    requires 1 <= m <= 12
    ensures 28 <= n <= 31
  {
    if m == 2 then (if IsLeap(y) then 29 else 28)
    else if m == 4 || m == 6 || m == 9 || m == 11 then 30
    else 31
  }

  predicate ValidDate(d: YMD)
  {
    1 <= d.year <= 9999 && 1 <= d.month <= 12 && 1 <= d.day <= DaysInMonth(d.year, d.month)
  }

  /** A value of `datetime.date`: the constructor refuses anything else. */
  type Date = d: YMD | ValidDate(d) witness YMD(1, 1, 1)

  /** `a < b` on dates: by year, then month, then day. */
  predicate Before(a: Date, b: Date)
  {
    a.year < b.year || (a.year == b.year && (a.month < b.month || (a.month == b.month && a.day < b.day)))
  }

  // ---------------------------------------------------------------------------
  // Day ordinal and differences
  // ---------------------------------------------------------------------------

  function DaysBeforeYear(y: int): int
    requires y >= 1
  {
    var p := y - 1;
    p * 365 + p / 4 - p / 100 + p / 400
  }

  function DaysBeforeMonth(y: int, m: int): int
    requires 1 <= m <= 12
  {
    var common :=
      if m == 1 then 0 else if m == 2 then 31 else if m == 3 then 59
      else if m == 4 then 90 else if m == 5 then 120 else if m == 6 then 151
      else if m == 7 then 181 else if m == 8 then 212 else if m == 9 then 243
      else if m == 10 then 273 else if m == 11 then 304 else 334;
    common + (if m > 2 && IsLeap(y) then 1 else 0)
  }

  /** `d.toordinal()`: day 1 is 0001-01-01. */
  function Ordinal(d: Date): int
  {
    DaysBeforeYear(d.year) + DaysBeforeMonth(d.year, d.month) + d.day
  }

  /** `(d1 - d2).days`. */
  function DaysBetween(d1: Date, d2: Date): (r: int)
  {
    Ordinal(d1) - Ordinal(d2)
  }

  /** The month count `(y1 - y2) * 12 + m1 - m2` that several rules use
      instead of a day difference. */
  function MonthsBetween(d1: Date, d2: Date): (r: int)
  {
    (d1.year - d2.year) * 12 + d1.month - d2.month
  }

  lemma DaysBeforeMonthStep(y: int, m: int)
    requires 1 <= m < 12
    ensures DaysBeforeMonth(y, m + 1) == DaysBeforeMonth(y, m) + DaysInMonth(y, m)
  {
  }

  lemma {:induction false} DaysBeforeMonthGrows(y: int, m1: int, m2: int)
    requires 1 <= m1 < m2 <= 12
    ensures DaysBeforeMonth(y, m1) + DaysInMonth(y, m1) <= DaysBeforeMonth(y, m2)
    decreases m2 - m1
  {
    DaysBeforeMonthStep(y, m1);
    if m1 + 1 < m2 {
      DaysBeforeMonthGrows(y, m1 + 1, m2);
    }
  }

  /** The last day of a year ends it. */
  lemma YearLength(y: int)
    ensures DaysBeforeMonth(y, 12) + DaysInMonth(y, 12) == if IsLeap(y) then 366 else 365
  {
  }

  /** Going from year `y - 1` to year `y` adds one to the count of
      multiples of `k` exactly when `y` is one. */
  lemma MultiplesStep(y: int, k: int)
    requires y >= 1 && (k == 4 || k == 100 || k == 400)
    ensures y / k == (y - 1) / k + (if y % k == 0 then 1 else 0)
  {
  }

  /** A multiple of 400 is one of 100, and a multiple of 100 one of 4. */
  lemma MultiplesNest(y: int)
    ensures y % 400 == 0 ==> y % 100 == 0
    ensures y % 100 == 0 ==> y % 4 == 0
  {
  }

  lemma DaysBeforeNextYear(y: int)
    requires y >= 1
    ensures DaysBeforeYear(y + 1) == DaysBeforeYear(y) + if IsLeap(y) then 366 else 365
  {
    MultiplesStep(y, 4);
    MultiplesStep(y, 100);
    MultiplesStep(y, 400);
    MultiplesNest(y);
  }

  lemma {:induction false} DaysBeforeYearGrows(y1: int, y2: int)
    requires 1 <= y1 < y2
    ensures DaysBeforeYear(y1) + DaysBeforeMonth(y1, 12) + DaysInMonth(y1, 12) <= DaysBeforeYear(y2)
    decreases y2 - y1
  {
    DaysBeforeNextYear(y1);
    YearLength(y1);
    if y1 + 1 < y2 {
      DaysBeforeYearGrows(y1 + 1, y2);
      DaysBeforeNextYear(y1 + 1);
      YearLength(y1 + 1);
    }
  }

  /** A strictly earlier date has a strictly smaller ordinal. */
  lemma OrdinalIncreasing(a: Date, b: Date)
    requires Before(a, b)
    ensures Ordinal(a) < Ordinal(b)
  {
    if a.year < b.year {
      DaysBeforeYearGrows(a.year, b.year);
      if a.month < 12 {
        DaysBeforeMonthGrows(a.year, a.month, 12);
      }
    } else if a.month < b.month {
      DaysBeforeMonthGrows(a.year, a.month, b.month);
    }
  }

  /** The sign of `(d1 - d2).days` is the order of the dates: what lets the
      rules written with day differences be read as comparisons. */
  lemma DaysBetweenSign(d1: Date, d2: Date)
    ensures DaysBetween(d1, d2) < 0 <==> Before(d1, d2)
    ensures DaysBetween(d1, d2) == 0 <==> d1 == d2
    ensures DaysBetween(d1, d2) > 0 <==> Before(d2, d1)
  {
    if Before(d1, d2) {
      OrdinalIncreasing(d1, d2);
    } else if Before(d2, d1) {
      OrdinalIncreasing(d2, d1);
    } else {
      assert d1 == d2;
    }
  }

  /** Within one month, `(d1 - d2).days` is the difference of the days. */
  lemma DaysBetweenSameMonth(d1: Date, d2: Date)
    requires d1.year == d2.year && d1.month == d2.month
    ensures DaysBetween(d1, d2) == d1.day - d2.day
  {
  }

  /** The month count is zero exactly for dates in the same calendar month,
      and positive exactly when `d1` falls in a later month than `d2`. */
  lemma MonthsBetweenOrder(d1: Date, d2: Date)
    ensures MonthsBetween(d1, d2) == 0 <==> d1.year == d2.year && d1.month == d2.month
    ensures MonthsBetween(d1, d2) > 0 <==> d1.year > d2.year || (d1.year == d2.year && d1.month > d2.month)
  {
  }

  // ---------------------------------------------------------------------------
  // Reading "%d %b %Y" and writing dates
  // ---------------------------------------------------------------------------

  const MonthAbbreviations: seq<string> :=
    ["JAN", "FEB", "MAR", "APR", "MAY", "JUN", "JUL", "AUG", "SEP", "OCT", "NOV", "DEC"]

  function LowerAscii(c: char): char
  {
    if 'A' <= c <= 'Z' then ((c as int) + 32) as char else c
  }

  function LowerAsciiString(s: string): (r: string)
    ensures |r| == |s|
  {
    seq(|s|, i requires 0 <= i < |s| => LowerAscii(s[i]))
  }

  /** The month abbreviations as `%b` compares them, letter case folded. */
  const MonthNames: seq<string> :=
    ["jan", "feb", "mar", "apr", "may", "jun", "jul", "aug", "sep", "oct", "nov", "dec"]

  /** `%b`: a month abbreviation in any letter case; the result is the
      abbreviation's position in the calendar, counted from 1. */
  function MonthNumber(s: string): (r: Option<int>)
    ensures r.Some? <==> LowerAsciiString(s) in MonthNames
    ensures r.Some? ==> 1 <= r.value <= 12 && MonthNames[r.value - 1] == LowerAsciiString(s)
  {
    var t := LowerAsciiString(s);
    if t == "jan" then Some(1) else if t == "feb" then Some(2) else if t == "mar" then Some(3)
    else if t == "apr" then Some(4) else if t == "may" then Some(5) else if t == "jun" then Some(6)
    else if t == "jul" then Some(7) else if t == "aug" then Some(8) else if t == "sep" then Some(9)
    else if t == "oct" then Some(10) else if t == "nov" then Some(11) else if t == "dec" then Some(12)
    else None
  }

  /** `%d`: one digit 1-9, or two digits 01-31. */
  function ParseDay(s: string): (r: Option<int>)
    ensures r.Some? <==> 1 <= |s| <= 2 && AllDigits(s) && 1 <= DigitsValue(s) <= 31
    ensures r.Some? ==> r.value == DigitsValue(s)
  {
    if |s| == 1 && IsDigit(s[0]) && s[0] != '0' then Some(DigitValue(s[0]))
    else if |s| == 2 && AllDigits(s) && 1 <= DigitsValue(s) <= 31 then Some(DigitsValue(s))
    else None
  }

  lemma FourDigits(s: string)
    requires |s| == 4 && AllDigits(s)
    ensures DigitsValue(s)
      == ((DigitValue(s[0]) * 10 + DigitValue(s[1])) * 10 + DigitValue(s[2])) * 10 + DigitValue(s[3])
  {
    var s3, s2, s1 := s[..3], s[..2], s[..1];
    assert s3[..2] == s2 && s2[..1] == s1;
    assert DigitsValue(s1) == DigitValue(s[0]);
    assert DigitsValue(s2) == DigitsValue(s1) * 10 + DigitValue(s[1]);
    assert DigitsValue(s3) == DigitsValue(s2) * 10 + DigitValue(s[2]);
  }

  /** `%Y`: exactly four digits. */
  function ParseYear(s: string): (r: Option<int>)
    ensures r.Some? <==> |s| == 4 && AllDigits(s)
    ensures r.Some? ==> r.value == DigitsValue(s) && 0 <= r.value <= 9999
  {
    if |s| == 4 && AllDigits(s) then
      FourDigits(s);
      Some(DigitsValue(s))
    else None
  }

  /** `datetime.strptime(s, "%d %b %Y").date()`; None where it raises
      ValueError (no match, or no such day, or year 0). */
  function ParseDate(s: string): (r: Option<Date>)
    ensures r.Some? ==> |Split(s, ' ')| == 3
    ensures r.Some? ==>
      ParseDay(Split(s, ' ')[0]) == Some(r.value.day)
      && MonthNumber(Split(s, ' ')[1]) == Some(r.value.month)
      && ParseYear(Split(s, ' ')[2]) == Some(r.value.year)
  {
    var parts := Split(s, ' ');
    if |parts| != 3 then None
    else
      var day, month, year := ParseDay(parts[0]), MonthNumber(parts[1]), ParseYear(parts[2]);
      if day.Some? && month.Some? && year.Some? && 1 <= year.value
         && day.value <= DaysInMonth(year.value, month.value)
      then Some(YMD(year.value, month.value, day.value))
      else None
  }

  function Pad2(n: nat): (r: string)
    requires n < 100
    ensures |r| == 2 && AllDigits(r) && DigitsValue(r) == n
  {
    var r := [DigitChar(n / 10), DigitChar(n % 10)];
    assert r[..1] == [DigitChar(n / 10)];
    r
  }

  function Pad4(n: nat): (r: string)
    requires n < 10000
    ensures |r| == 4 && AllDigits(r) && DigitsValue(r) == n
  {
    var q1 := n / 10;
    var q2 := q1 / 10;
    var q3 := q2 / 10;
    var r := [DigitChar(q3), DigitChar(q2 % 10), DigitChar(q1 % 10), DigitChar(n % 10)];
    FourDigits(r);
    r
  }

  /** The date as a GEDCOM `DATE` value, e.g. `9 MAR 1961`. */
  function FormatDate(d: Date): string
  {
    NatToString(d.day) + " " + MonthAbbreviations[d.month - 1] + " " + Pad4(d.year)
  }

  /** `str(d)`: `YYYY-MM-DD`. */
  function IsoString(d: Date): string
  {
    Pad4(d.year) + "-" + Pad2(d.month) + "-" + Pad2(d.day)
  }

  lemma MonthNumberOfAbbreviation(m: int)
    requires 1 <= m <= 12
    ensures MonthNumber(MonthAbbreviations[m - 1]) == Some(m)
  {
    var t := LowerAsciiString(MonthAbbreviations[m - 1]);
    if m == 1 { assert t == "jan"; } else if m == 2 { assert t == "feb"; }
    else if m == 3 { assert t == "mar"; } else if m == 4 { assert t == "apr"; }
    else if m == 5 { assert t == "may"; } else if m == 6 { assert t == "jun"; }
    else if m == 7 { assert t == "jul"; } else if m == 8 { assert t == "aug"; }
    else if m == 9 { assert t == "sep"; } else if m == 10 { assert t == "oct"; }
    else if m == 11 { assert t == "nov"; } else { assert t == "dec"; }
  }

  lemma ParseDayOfNatToString(n: nat)
    requires 1 <= n <= 31
    ensures ParseDay(NatToString(n)) == Some(n)
  {
    var s := NatToString(n);
    if n >= 10 {
      assert s == NatToString(n / 10) + [DigitChar(n % 10)];
    }
  }

  /** Reading back a written date gives the same date. */
  lemma ParseFormatDate(d: Date)
    ensures ParseDate(FormatDate(d)) == Some(d)
  {
    var a, b, c := NatToString(d.day), MonthAbbreviations[d.month - 1], Pad4(d.year);
    assert ' ' !in a by {
      assert forall i :: 0 <= i < |a| ==> IsDigit(a[i]);
    }
    assert ' ' !in c by {
      assert forall i :: 0 <= i < |c| ==> IsDigit(c[i]);
    }
    assert FormatDate(d) == a + [' '] + b + [' '] + c;
    SplitTwoSeparators(a, b, c, ' ');
    ParseDayOfNatToString(d.day);
    MonthNumberOfAbbreviation(d.month);
  }
}
