/** The `YYYY-MM-DD` tokens the analyser and the organiser find in file names: the pattern
    `\b(\d{4}-\d{2}-\d{2})\b` and the calendar check `datetime.strptime(d, '%Y-%m-%d')`. */
module Dates {
  import opened Wrappers
  import opened Text

  /** Four digits, a dash, two digits, a dash, two digits. */
  predicate IsoShape(s: string)
  {
    |s| == 10 && s[4] == '-' && s[7] == '-' &&
    AllDigits(s[..4]) && AllDigits(s[5..7]) && AllDigits(s[8..])
  }

  /** The date pattern matches at index `i` of `s`: the shape, with a word boundary on
      each side (the token begins and ends with a digit, itself a word character). */
  predicate DateAt(s: string, i: nat)
  {
    i + 10 <= |s| && IsoShape(s[i..i + 10]) &&
    (i == 0 || !IsWordChar(s[i - 1])) &&
    (i + 10 == |s| || !IsWordChar(s[i + 10]))
  }

  /** The leftmost index at or after `from` where the date pattern matches. */
  function FirstDateFrom(s: string, from: nat): (r: Option<nat>)
    ensures r.Some? ==> from <= r.value && DateAt(s, r.value)
    ensures r.Some? ==> forall j :: from <= j < r.value ==> !DateAt(s, j)
    ensures r.None? ==> forall j :: from <= j ==> !DateAt(s, j)
    decreases |s| - from
  {
    if from + 10 > |s| then None
    else if DateAt(s, from) then Some(from)
    else FirstDateFrom(s, from + 1)
  }

  /** `re.search(date_pattern, name).group(1)`: the first date token of a name, if any. */
  function FindDate(s: string): (r: Option<string>)
    ensures r.Some? <==> exists i: nat :: DateAt(s, i)
    ensures r.Some? ==> IsoShape(r.value) && Contains(s, r.value)
  {
    match FirstDateFrom(s, 0)
    case None => None
    case Some(i) =>
      assert OccursAt(s, s[i..i + 10], i);
      Some(s[i..i + 10])
  }

  /** Gregorian leap years, as `datetime` has them. */
  predicate IsLeapYear(y: int)
  {
    y % 4 == 0 && (y % 100 != 0 || y % 400 == 0)
  }

  function DaysInMonth(y: int, m: int): (d: int)
    requires 1 <= m <= 12
    ensures 28 <= d <= 31
    ensures m == 2 ==> (d == 29 <==> IsLeapYear(y))
  {
    if m == 2 then (if IsLeapYear(y) then 29 else 28)
    else if m == 4 || m == 6 || m == 9 || m == 11 then 30
    else 31
  }

  function YearOf(d: string): nat
    requires IsoShape(d)
  {
    ParseDigits(d[..4])
  }

  function MonthOf(d: string): nat
    requires IsoShape(d)
  {
    ParseDigits(d[5..7])
  }

  function DayOf(d: string): nat
    requires IsoShape(d)
  {
    ParseDigits(d[8..])
  }

  /** `datetime.strptime(d, '%Y-%m-%d')` succeeds: year 1 to 9999, month 1 to 12 and a day
      that the month has. */
  predicate ValidIsoDate(d: string)
    requires IsoShape(d)
  {
    var y, m, day := YearOf(d), MonthOf(d), DayOf(d);
    1 <= y && 1 <= m <= 12 && 1 <= day <= DaysInMonth(y, m)
  }

  lemma TwoDigitValue(s: string)
    requires |s| == 2 && AllDigits(s)
    ensures ParseDigits(s) == 10 * DigitValue(s[0]) + DigitValue(s[1])
  {
    assert s[..1][..0] == [];
    assert ParseDigits(s[..1]) == DigitValue(s[0]);
  }

  lemma FourDigitValue(s: string)
    requires |s| == 4 && AllDigits(s)
    ensures ParseDigits(s) ==
      1000 * DigitValue(s[0]) + 100 * DigitValue(s[1]) + 10 * DigitValue(s[2]) + DigitValue(s[3])
  {
    var t := s[..3];
    assert t[..2] == s[..2];
    TwoDigitValue(s[..2]);
  }

  /** Year, month and day of a date of the right shape, digit by digit. */
  lemma DateFields(d: string)
    requires IsoShape(d)
    ensures YearOf(d) == 1000 * DigitValue(d[0]) + 100 * DigitValue(d[1]) + 10 * DigitValue(d[2]) + DigitValue(d[3])
    ensures MonthOf(d) == 10 * DigitValue(d[5]) + DigitValue(d[6])
    ensures DayOf(d) == 10 * DigitValue(d[8]) + DigitValue(d[9])
  {
    FourDigitValue(d[..4]);
    TwoDigitValue(d[5..7]);
    TwoDigitValue(d[8..]);
  }

  /** The 29th of February exists in leap years, including those divisible by 400. */
  lemma LeapDayExists()
    ensures IsoShape("2024-02-29") && ValidIsoDate("2024-02-29")
    ensures IsoShape("2000-02-29") && ValidIsoDate("2000-02-29")
  {
    DateFields("2024-02-29");
    DateFields("2000-02-29");
  }

  /** ... and nowhere else; a century year is a leap year only when divisible by 400. */
  lemma LeapDayMissing()
    ensures IsoShape("2023-02-29") && !ValidIsoDate("2023-02-29")
    ensures IsoShape("1900-02-29") && !ValidIsoDate("1900-02-29")
  {
    DateFields("2023-02-29");
    DateFields("1900-02-29");
  }

  /** There is no year 0 and no month 13. */
  lemma OutOfRangeFields()
    ensures IsoShape("0000-01-01") && !ValidIsoDate("0000-01-01")
    ensures IsoShape("2023-13-01") && !ValidIsoDate("2023-13-01")
  {
    DateFields("0000-01-01");
    DateFields("2023-13-01");
  }

  /** A date glued to a word character is not a date token; one set off by a space is. */
  lemma BoundaryExamples()
    ensures FindDate("x2023-01-05 a") == None
    ensures FindDate("Show 2023-01-05 a") == Some("2023-01-05")
  {
    var s := "Show 2023-01-05 a";
    assert s[5..15] == "2023-01-05";
    assert s[5..15][..4] == "2023" && s[5..15][5..7] == "01" && s[5..15][8..] == "05";
    assert DateAt(s, 5);
    assert forall j :: 0 <= j < 5 ==> !DateAt(s, j) by {
      forall j | 0 <= j < 5 ensures !DateAt(s, j) {
        assert s[j..j + 10][4] == s[j + 4];
      }
    }
    var t := "x2023-01-05 a";
    forall j: nat ensures !DateAt(t, j) {
      if j + 10 <= |t| {
        assert j == 0 || j == 1 || j == 2 || j == 3;
        assert t[j..j + 10][4] == t[j + 4];
      }
    }
  }
}
