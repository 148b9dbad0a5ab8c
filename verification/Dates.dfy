/**
 The proleptic Gregorian calendar the trading calendar is computed in.

 A day is its ordinal (1 is 1 January of year 1, a Monday), so "the next day" is `+ 1`.
 `Ymd` is the constructor date(year, month, day); `YearOf` recovers the year of a day.
 */
module Dates {

  predicate IsLeap(y: int) {
    y % 4 == 0 && (y % 100 != 0 || y % 400 == 0)
  }

  function DaysInMonth(y: int, m: int): int
    requires 1 <= m <= 12
  {
    if m == 2 then (if IsLeap(y) then 29 else 28)
    else if m == 4 || m == 6 || m == 9 || m == 11 then 30
    else 31
  }

  predicate ValidDate(y: int, m: int, d: int) {
    1 <= m <= 12 && 1 <= d <= DaysInMonth(y, m)
  }

  function DaysBeforeYear(y: int): int {
    365 * (y - 1) + (y - 1) / 4 - (y - 1) / 100 + (y - 1) / 400
  }

  function DaysBeforeMonth(y: int, m: int): int
    requires 1 <= m <= 12
  {
    var leap := if IsLeap(y) then 1 else 0;
    match m
    case 1 => 0
    case 2 => 31
    case 3 => 59 + leap
    case 4 => 90 + leap
    case 5 => 120 + leap
    case 6 => 151 + leap
    case 7 => 181 + leap
    case 8 => 212 + leap
    case 9 => 243 + leap
    case 10 => 273 + leap
    case 11 => 304 + leap
    case _ => 334 + leap
  }

  /** date(y, m, d) */
  function Ymd(y: int, m: int, d: int): int
    requires ValidDate(y, m, d)
  {
    DaysBeforeYear(y) + DaysBeforeMonth(y, m) + d
  }

  /** Monday is 0, Sunday is 6. */
  function Weekday(day: int): (w: int)
    ensures 0 <= w < 7
  {
    (day + 6) % 7
  }

  /** Consecutive years are 365 or 366 days apart, by the leap rule. */
  lemma YearLength(y: int)
    ensures DaysBeforeYear(y + 1) == DaysBeforeYear(y) + (if IsLeap(y) then 366 else 365)
  {
    var z := y - 1;
    assert (z + 1) / 4 == z / 4 + (if (z + 1) % 4 == 0 then 1 else 0);
    assert (z + 1) / 100 == z / 100 + (if (z + 1) % 100 == 0 then 1 else 0);
    assert (z + 1) / 400 == z / 400 + (if (z + 1) % 400 == 0 then 1 else 0);
  }

  /** The next date of the month, the first of the next month or the first of the next year. */
  lemma NextDate(y: int, m: int, d: int)
    requires ValidDate(y, m, d)
    ensures d < DaysInMonth(y, m) ==> Ymd(y, m, d + 1) == Ymd(y, m, d) + 1
    ensures d == DaysInMonth(y, m) && m < 12 ==> Ymd(y, m + 1, 1) == Ymd(y, m, d) + 1
    ensures d == DaysInMonth(y, m) && m == 12 ==> Ymd(y + 1, 1, 1) == Ymd(y, m, d) + 1
  {
    YearLength(y);
    hide DaysBeforeYear, IsLeap;
  }

  /** Weekdays follow one another in sevens. */
  lemma NextWeekday(day: int)
    ensures Weekday(day + 1) == (if Weekday(day) == 6 then 0 else Weekday(day) + 1)
  {
    var q, r := (day + 6) / 7, (day + 6) % 7;
    assert day + 1 + 6 == 7 * q + r + 1;
  }

  /** The count begins with Monday, 1 January of year 1. */
  lemma CountBegins()
    ensures Ymd(1, 1, 1) == 1 && Weekday(Ymd(1, 1, 1)) == 0
  {
  }

  /** The year containing a day, by counting 400-, 100-, 4- and 1-year cycles. */
  function YearOf(day: int): int {
    var n := day - 1;
    var n400, r400 := n / 146097, n % 146097;
    var n100, r100 := r400 / 36524, r400 % 36524;
    var n4, r4 := r100 / 1461, r100 % 1461;
    var n1 := r4 / 365;
    var y := 400 * n400 + 100 * n100 + 4 * n4 + n1 + 1;
    if n1 == 4 || n100 == 4 then y - 1 else y
  }

  /** Days before the year that is `d` years into cycle (a, b, c). */
  lemma CycleDays(a: int, b: int, c: int, d: int)
    requires 0 <= b <= 3 && 0 <= c <= 24 && 0 <= d <= 3
    ensures DaysBeforeYear(400 * a + 100 * b + 4 * c + d + 1) == 146097 * a + 36524 * b + 1461 * c + 365 * d
  {
    var z := 400 * a + 100 * b + 4 * c + d;
    assert z / 4 == 100 * a + 25 * b + c;
    assert z / 100 == 4 * a + b;
    assert z / 400 == a;
  }

  lemma YearOfBounds(day: int)
    ensures DaysBeforeYear(YearOf(day)) < day <= DaysBeforeYear(YearOf(day) + 1)
  {
    var n := day - 1;
    var a, r400 := n / 146097, n % 146097;
    var b, r100 := r400 / 36524, r400 % 36524;
    var c, r4 := r100 / 1461, r100 % 1461;
    var d := r4 / 365;
    assert YearOf(day) == 400 * a + 100 * b + 4 * c + d + 1 - (if b == 4 || d == 4 then 1 else 0);
    assert n == 146097 * a + 36524 * b + 1461 * c + r4;
    assert 0 <= b <= 4 && 0 <= c <= 24 && 0 <= d <= 4 && (b == 4 ==> r100 == 0);
    YearLength(YearOf(day));
    if b == 4 {
      CycleDays(a, 3, 24, 3);
      CycleDays(a + 1, 0, 0, 0);
      hide YearOf, DaysBeforeYear;
    } else if d == 4 {
      LastDayOfFourYears(a, b, c, r100);
      hide YearOf, DaysBeforeYear;
    } else {
      CycleDays(a, b, c, d);
      hide YearOf, DaysBeforeYear;
    }
  }

  /** The 1461st day of a four-year cycle is 31 December of a leap year. */
  lemma LastDayOfFourYears(a: int, b: int, c: int, r100: int)
    requires 0 <= b <= 3 && 0 <= r100 < 36524 && c == r100 / 1461 && r100 % 1461 == 1460
    ensures DaysBeforeYear(400 * a + 100 * b + 4 * c + 4) == 146097 * a + 36524 * b + 1461 * c + 1095
    ensures DaysBeforeYear(400 * a + 100 * b + 4 * c + 5) == 146097 * a + 36524 * b + 1461 * c + 1461
  {
    assert 0 <= c <= 23;
    CycleDays(a, b, c, 3);
    CycleDays(a, b, c + 1, 0);
  }

  lemma DaysBeforeYearMonotone(y: int, z: int)
    requires y <= z
    ensures DaysBeforeYear(y) + 365 * (z - y) <= DaysBeforeYear(z)
    decreases z - y
  {
    if y < z {
      YearLength(y);
      DaysBeforeYearMonotone(y + 1, z);
    }
  }

  /** Years partition the days: `YearOf` is the only year whose span holds the day. */
  lemma {:induction false} YearOfUnique(day: int, y: int)
    requires DaysBeforeYear(y) < day <= DaysBeforeYear(y + 1)
    ensures YearOf(day) == y
  {
    YearOfBounds(day);
    if YearOf(day) < y {
      DaysBeforeYearMonotone(YearOf(day) + 1, y);
    } else if YearOf(day) > y {
      DaysBeforeYearMonotone(y + 1, YearOf(day));
    }
  }

  /** The year of date(y, m, d) is y. */
  lemma YearOfYmd(y: int, m: int, d: int)
    requires ValidDate(y, m, d)
    ensures YearOf(Ymd(y, m, d)) == y
  {
    YearLength(y);
    YearOfUnique(Ymd(y, m, d), y);
  }
}
