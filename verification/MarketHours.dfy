/**
 The US market calendar (market_hours.py): the Easter computus, observed and
 nth-weekday holidays, market days and the next regular open.
 */
module MarketHours {
  import opened Dates
  import opened Wrappers

  const MONDAY := 0
  const THURSDAY := 3
  const SATURDAY := 5
  const SUNDAY := 6

  // ---------------------------------------------------------------- Easter

  /** The intermediates of the computus that its proof needs, and the date it names. */
  datatype Computus = Computus(h: int, l: int, m: int, month: int, day: int)

  /** The thirteen integers of the anonymous Gregorian computus. */
  function EasterComputus(year: int): Computus {
    var a := year % 19;
    var b := year / 100;
    var c := year % 100;
    var d := b / 4;
    var e := b % 4;
    var f := (b + 8) / 25;
    var g := (b - f + 1) / 3;
    var h := (19 * a + b - d - g + 15) % 30;
    var i := c / 4;
    var k := c % 4;
    var l := (32 + 2 * e + 2 * i - h - k) % 7;
    var m := (a + 11 * h + 22 * l) / 451;
    Computus(h, l, m, (h + l - 7 * m + 114) / 31, (h + l - 7 * m + 114) % 31 + 1)
  }

  // Independent reference: the ecclesiastical definition.  Easter is the first
  // Sunday strictly after the paschal full moon, and the paschal full moon is
  // 19 April less the adjusted epact.

  function ShiftedEpact(year: int): int {
    var century := year / 100 + 1;
    (14 + 11 * (year % 19) - 3 * century / 4 + (5 + 8 * century) / 25) % 30
  }

  function AdjustedEpact(year: int): int {
    var shifted := ShiftedEpact(year);
    if shifted == 0 || (shifted == 1 && year % 19 > 10) then shifted + 1 else shifted
  }

  function PaschalFullMoon(year: int): int {
    Ymd(year, 4, 19) - AdjustedEpact(year)
  }

  ghost predicate IsFirstSundayAfter(day: int, moon: int) {
    moon < day && Weekday(day) == SUNDAY && forall k :: moon < k < day ==> Weekday(k) != SUNDAY
  }

  /** The lunar correction of the computus is the one the epact uses. */
  lemma LunarCorrection(b: int)
    ensures (b - (b + 8) / 25 + 1) / 3 == (8 * b + 13) / 25
  {
    var q, r := (b + 8) / 25, (b + 8) % 25;
    assert b == 25 * q + r - 8;
    assert b - q + 1 == 24 * q + r - 7;
    assert 8 * b + 13 == 25 * (8 * q) + 8 * r - 51;
    assert (24 * q + r - 7) / 3 == 8 * q + (r - 7) / 3;
    assert (25 * (8 * q) + 8 * r - 51) / 25 == 8 * q + (8 * r - 51) / 25;
  }

  lemma SolarCorrection(b: int)
    ensures b - b / 4 == 3 * (b + 1) / 4
  {
    assert b == 4 * (b / 4) + b % 4;
  }

  lemma ComplementMod30(x: int, y: int, a: int)
    requires x + y == 30 * a + 29
    ensures y % 30 == 29 - x % 30
  {
    assert x == 30 * (x / 30) + x % 30;
    assert y == 30 * (a - x / 30) + (29 - x % 30);
  }

  /** The computus's `h` is the complement of the epact. */
  lemma MoonAge(year: int)
    ensures ShiftedEpact(year) == 29 - EasterComputus(year).h
  {
    var b := year / 100;
    var a := year % 19;
    LunarCorrection(b);
    SolarCorrection(b);
    ComplementMod30(19 * a + b - b / 4 - (b - (b + 8) / 25 + 1) / 3 + 15,
                    14 + 11 * a - 3 * (b + 1) / 4 + (5 + 8 * (b + 1)) / 25, a);
  }

  /** 1 March comes after the leap day of its own year, so March-based years follow the cycles. */
  lemma MarchYear(d: int, e: int, i: int, k: int)
    requires 0 <= e <= 3 && 0 <= i <= 24 && 0 <= k <= 3
    ensures var y := 400 * d + 100 * e + 4 * i + k;
            Ymd(y, 3, 22) == 146097 * d + 36524 * e + 1461 * i + 365 * k - 284
  {
    var y := 400 * d + 100 * e + 4 * i + k;
    CycleDays(d, e, i, k);
    YearLength(y);
  }

  lemma WeekdayOfMarch22(d: int, e: int, i: int, k: int)
    requires 0 <= e <= 3 && 0 <= i <= 24 && 0 <= k <= 3
    ensures Weekday(Ymd(400 * d + 100 * e + 4 * i + k, 3, 22)) == (5 * e + 5 * i + k + 2) % 7
  {
    MarchYear(d, e, i, k);
    SameResidue(146097 * d + 36524 * e + 1461 * i + 365 * k - 278, 5 * e + 5 * i + k + 2,
                20871 * d + 5217 * e + 208 * i + 52 * k - 40);
  }

  lemma SameResidue(x: int, y: int, q: int)
    requires x == 7 * q + y
    ensures x % 7 == y % 7
  {
    assert x == 7 * (q + y / 7) + y % 7;
  }

  /** `l` is the distance from the day after the full moon to the next Sunday. */
  lemma SundayResidue(w: int, e: int, i: int, k: int, h: int)
    requires w == (5 * e + 5 * i + k + 2) % 7
    ensures (w + h + (32 + 2 * e + 2 * i - h - k) % 7) % 7 == SUNDAY
  {
    var s := 5 * e + 5 * i + k + 2;
    var t := 32 + 2 * e + 2 * i - h - k;
    SameResidue(w + h + t % 7, SUNDAY, e + i + 4 - s / 7 - t / 7);
  }

  lemma MonthCorrection(a: int, h: int, l: int)
    requires 0 <= a < 19 && 0 <= h < 30 && 0 <= l < 7
    ensures var m := (a + 11 * h + 22 * l) / 451;
            && (m == 0 || m == 1)
            && (m == 1 <==> l == 6 && (h == 29 || (h == 28 && a > 10)))
            && 0 <= h + l - 7 * m <= 34
  {
    var t := a + 11 * h + 22 * l;
    assert t >= 451 <==> l == 6 && (h == 29 || (h == 28 && a > 10));
    assert t < 902;
  }

  /** The date the computus names is a real March or April date, `h + l - 7m` days after 22 March. */
  lemma EasterDateValid(year: int)
    ensures var p := EasterComputus(year);
            && ValidDate(year, p.month, p.day)
            && 0 <= p.h < 30 && 0 <= p.l < 7 && 0 <= p.h + p.l - 7 * p.m <= 34
            && (p.m == 0 || p.m == 1)
            && (p.m == 1 <==> p.l == 6 && (p.h == 29 || (p.h == 28 && year % 19 > 10)))
            && Ymd(year, p.month, p.day) == Ymd(year, 3, 22) + p.h + p.l - 7 * p.m
  {
    var p := EasterComputus(year);
    MonthCorrection(year % 19, p.h, p.l);
    MarchOrApril(p.h + p.l - 7 * p.m);
  }

  lemma MarchOrApril(n: int)
    requires 0 <= n <= 34
    ensures (n + 114) / 31 == (if n <= 9 then 3 else 4)
    ensures (n + 114) % 31 + 1 == (if n <= 9 then 22 + n else n - 9)
  {
  }

  lemma EasterIsSunday(year: int)
    ensures var p := EasterComputus(year);
            (Weekday(Ymd(year, 3, 22)) + p.h + p.l) % 7 == SUNDAY
  {
    var b, c := year / 100, year % 100;
    var p := EasterComputus(year);
    assert year == 400 * (b / 4) + 100 * (b % 4) + 4 * (c / 4) + c % 4;
    WeekdayOfMarch22(b / 4, b % 4, c / 4, c % 4);
    SundayResidue(Weekday(Ymd(year, 3, 22)), b % 4, c / 4, c % 4, p.h);
  }

  /** easter_date(year) */
  function EasterDate(year: int): int {
    var p := EasterComputus(year);
    EasterDateValid(year);
    Ymd(year, p.month, p.day)
  }

  /**
   For every year the computus gives the ecclesiastical Easter: the first Sunday after the
   paschal full moon, which is never before 22 March nor after 25 April.
   */
  lemma EasterIsFirstSundayAfterPaschalMoon(year: int)
    ensures IsFirstSundayAfter(EasterDate(year), PaschalFullMoon(year))
    ensures Ymd(year, 3, 22) <= EasterDate(year) <= Ymd(year, 4, 25)
    ensures YearOf(EasterDate(year)) == year
  {
    var p := EasterComputus(year);
    EasterDateValid(year);
    EasterIsSunday(year);
    MoonAge(year);
    YearOfYmd(year, p.month, p.day);
    var day := EasterDate(year);
    var moon := PaschalFullMoon(year);
    assert moon < day <= moon + 7;
    WeekdayShift(Ymd(year, 3, 22), p.h + p.l - 7 * p.m);
    SameResidue(Weekday(Ymd(year, 3, 22)) + p.h + p.l - 7 * p.m,
                Weekday(Ymd(year, 3, 22)) + p.h + p.l, -p.m);
    forall k | moon < k < day ensures Weekday(k) != SUNDAY {
      OneSundayAWeek(k, day);
    }
  }

  lemma WeekdayShift(day: int, n: int)
    ensures Weekday(day + n) == (Weekday(day) + n) % 7
  {
    SameResidue(day + n + 6, Weekday(day) + n, (day + 6) / 7);
  }

  lemma OneSundayAWeek(k: int, day: int)
    requires k < day < k + 7
    ensures Weekday(k) != Weekday(day)
  {
  }

  // -------------------------------------------------------------- Holidays

  /** The Friday before a Saturday holiday, the Monday after a Sunday one. */
  function ObservedDate(year: int, month: int, day: int): int
    requires ValidDate(year, month, day)
  {
    var actual := Ymd(year, month, day);
    if Weekday(actual) == SATURDAY then actual - 1
    else if Weekday(actual) == SUNDAY then actual + 1
    else actual
  }

  /** A fixed-date holiday is observed on the weekday nearest to it. */
  lemma ObservedDateSpec(year: int, month: int, day: int)
    requires ValidDate(year, month, day)
    ensures var actual, observed := Ymd(year, month, day), ObservedDate(year, month, day);
            && Weekday(observed) < SATURDAY
            && -1 <= observed - actual <= 1
            && (forall k :: Weekday(k) < SATURDAY ==> Distance(observed, actual) <= Distance(k, actual))
  {
    var actual := Ymd(year, month, day);
    WeekdayShift(actual, -1);
    WeekdayShift(actual, 1);
  }

  function Distance(x: int, y: int): nat {
    if x < y then y - x else x - y
  }

  /** The n-th given weekday on or after a day. */
  function NthWeekdayFrom(first: int, weekday: int, n: int): int {
    first + (weekday - Weekday(first)) % 7 + 7 * (n - 1)
  }

  /** The last given weekday on or before a day. */
  function LastWeekdayUpTo(last: int, weekday: int): int {
    last - (Weekday(last) - weekday) % 7
  }

  lemma NthWeekdayFromSpec(first: int, weekday: int, n: int)
    requires 0 <= weekday < 7
    ensures Weekday(NthWeekdayFrom(first, weekday, n)) == weekday
    ensures first + 7 * (n - 1) <= NthWeekdayFrom(first, weekday, n) < first + 7 * n
  {
    var gap := (weekday - Weekday(first)) % 7;
    WeekdayShift(first, gap + 7 * (n - 1));
    SameResidue(Weekday(first) + gap + 7 * (n - 1), weekday,
                n - 1 - (weekday - Weekday(first)) / 7);
  }

  lemma LastWeekdayUpToSpec(last: int, weekday: int)
    requires 0 <= weekday < 7
    ensures Weekday(LastWeekdayUpTo(last, weekday)) == weekday
    ensures last - 7 < LastWeekdayUpTo(last, weekday) <= last
  {
    var gap := (Weekday(last) - weekday) % 7;
    WeekdayShift(last, -gap);
    SameResidue(Weekday(last) - gap, weekday, (Weekday(last) - weekday) / 7);
  }

  /** Two days with the same weekday, less than a week apart, are the same day. */
  lemma WeekdayInWindow(x: int, y: int)
    requires Weekday(x) == Weekday(y) && -7 < x - y < 7
    ensures x == y
  {
  }

  /** nth_weekday: step to the first such weekday of the month, then whole weeks. */
  method NthWeekday(year: int, month: int, weekday: int, n: int) returns (day: int)
    requires 1 <= month <= 12 && 0 <= weekday < 7
    ensures day == NthWeekdayFrom(Ymd(year, month, 1), weekday, n)
    ensures Weekday(day) == weekday
    ensures Ymd(year, month, 1) + 7 * (n - 1) <= day < Ymd(year, month, 1) + 7 * n
  {
    var first := Ymd(year, month, 1);
    NthWeekdayFromSpec(first, weekday, 1);
    NthWeekdayFromSpec(first, weekday, n);
    ghost var target := NthWeekdayFrom(first, weekday, 1);
    var current := first;
    while Weekday(current) != weekday
      invariant first <= current <= target
      decreases target - current
    {
      current := current + 1;
    }
    WeekdayInWindow(current, target);
    day := current + 7 * (n - 1);
  }

  /** last_weekday: step back from the last day of the month. */
  method LastWeekday(year: int, month: int, weekday: int) returns (day: int)
    requires 1 <= month <= 12 && 0 <= weekday < 7
    ensures day == LastWeekdayUpTo(Ymd(year, month, DaysInMonth(year, month)), weekday)
    ensures Weekday(day) == weekday
    ensures Ymd(year, month, DaysInMonth(year, month)) - 7 < day <= Ymd(year, month, DaysInMonth(year, month))
  {
    ghost var last := Ymd(year, month, DaysInMonth(year, month));
    LastWeekdayUpToSpec(last, weekday);
    ghost var target := LastWeekdayUpTo(last, weekday);
    var current := if month == 12 then Ymd(year, 12, 31) else Ymd(year, month + 1, 1) - 1;
    assert current == last;
    while Weekday(current) != weekday
      invariant target <= current <= last
      decreases current - target
    {
      current := current - 1;
    }
    WeekdayInWindow(current, target);
    day := current;
  }

  /** The ten holidays of a year, in calendar order. */
  function HolidayList(year: int): (h: seq<int>)
    ensures |h| == 10
  {
    [
      ObservedDate(year, 1, 1),
      NthWeekdayFrom(Ymd(year, 1, 1), MONDAY, 3),
      NthWeekdayFrom(Ymd(year, 2, 1), MONDAY, 3),
      EasterDate(year) - 2,
      LastWeekdayUpTo(Ymd(year, 5, 31), MONDAY),
      ObservedDate(year, 6, 19),
      ObservedDate(year, 7, 4),
      NthWeekdayFrom(Ymd(year, 9, 1), MONDAY, 1),
      NthWeekdayFrom(Ymd(year, 11, 1), THURSDAY, 4),
      ObservedDate(year, 12, 25)
    ]
  }

  function UsMarketHolidays(year: int): set<int> {
    set day | day in HolidayList(year)
  }

  predicate IsMarketHoliday(day: int) {
    day in UsMarketHolidays(YearOf(day))
  }

  predicate IsMarketDay(day: int) {
    Weekday(day) < SATURDAY && !IsMarketHoliday(day)
  }

  /** Consecutive holidays of one year are more than three days apart, and none is near the next year. */
  lemma HolidaysSpread(year: int)
    ensures forall i :: 0 <= i < 9 ==> HolidayList(year)[i] + 3 < HolidayList(year)[i + 1]
    ensures HolidayList(year)[0] >= DaysBeforeYear(year)
    ensures HolidayList(year)[9] + 3 < DaysBeforeYear(year + 1)
  {
    EasterIsFirstSundayAfterPaschalMoon(year);
    NthWeekdayFromSpec(Ymd(year, 1, 1), MONDAY, 3);
    NthWeekdayFromSpec(Ymd(year, 2, 1), MONDAY, 3);
    LastWeekdayUpToSpec(Ymd(year, 5, 31), MONDAY);
    NthWeekdayFromSpec(Ymd(year, 9, 1), MONDAY, 1);
    NthWeekdayFromSpec(Ymd(year, 11, 1), THURSDAY, 4);
    YearLength(year);
  }

  lemma SpreadMonotone(h: seq<int>, i: nat, j: nat)
    requires i < j < |h| && forall k :: 0 <= k < |h| - 1 ==> h[k] + 3 < h[k + 1]
    ensures h[i] + 3 < h[j]
  {
    if i + 1 < j {
      SpreadMonotone(h, i, j - 1);
    }
  }

  lemma SpreadMembers(h: seq<int>, x: int, y: int)
    requires forall k :: 0 <= k < |h| - 1 ==> h[k] + 3 < h[k + 1]
    requires x in h && y in h && x < y
    ensures x + 3 < y
  {
    var i: nat :| i < |h| && h[i] == x;
    var j: nat :| j < |h| && h[j] == y;
    if i < j {
      SpreadMonotone(h, i, j);
    } else if j < i {
      SpreadMonotone(h, j, i);
    }
  }

  lemma HolidayListed(day: int)
    requires IsMarketHoliday(day)
    ensures day in HolidayList(YearOf(day)) && day + 3 < DaysBeforeYear(YearOf(day) + 1)
    ensures day > DaysBeforeYear(YearOf(day))
  {
    var h := HolidayList(YearOf(day));
    HolidaysSpread(YearOf(day));
    YearOfBounds(day);
    var i: nat :| i < 10 && h[i] == day;
    if i < 9 {
      SpreadMonotone(h, i, 9);
    }
  }

  lemma YearEndIsNoHoliday(year: int)
    ensures !IsMarketHoliday(Ymd(year, 12, 31))
  {
    var day := Ymd(year, 12, 31);
    YearLength(year);
    YearOfYmd(year, 12, 31);
    assert day == DaysBeforeYear(year + 1);
    hide UsMarketHolidays, Ymd, YearOf, DaysBeforeYear, HolidayList;
    if IsMarketHoliday(day) {
      HolidayListed(day);
    }
  }

  /** Every holiday but New Year's Day always falls in its own year, and so is always found. */
  lemma OtherHolidaysAreFound(year: int, i: nat)
    requires 0 < i < 10
    ensures YearOf(HolidayList(year)[i]) == year && IsMarketHoliday(HolidayList(year)[i])
  {
    hide HolidayList, YearOf, DaysBeforeYear;
    HolidaysSpread(year);
    SpreadMonotone(HolidayList(year), 0, i);
    if i < 9 {
      SpreadMonotone(HolidayList(year), i, 9);
    }
    YearOfUnique(HolidayList(year)[i], year);
  }

  /**
   New Year's Day closes the market on its observed day if and only if it is not a Saturday.
   On a Saturday that day is 31 December, which is only among the holidays of the year after
   it, where nothing looks it up: it is a market day like any other.
   */
  lemma NewYearIsObservedIff(year: int)
    ensures IsMarketHoliday(ObservedDate(year, 1, 1)) <==> Weekday(Ymd(year, 1, 1)) != SATURDAY
    ensures ObservedDate(year, 1, 1) in UsMarketHolidays(year)
    ensures Weekday(Ymd(year, 1, 1)) == SATURDAY ==>
              ObservedDate(year, 1, 1) == Ymd(year - 1, 12, 31) && IsMarketDay(ObservedDate(year, 1, 1))
  {
    hide HolidayList, YearOf, IsMarketHoliday, Ymd;
    NewYearIsListed(year);
    NewYearIsNear(year);
    YearEndIsNoHoliday(year - 1);
    if Weekday(Ymd(year, 1, 1)) != SATURDAY {
      NewYearIsFound(year);
    } else {
      WeekdayShift(Ymd(year, 1, 1), -1);
    }
  }

  lemma NewYearIsListed(year: int)
    ensures ObservedDate(year, 1, 1) in UsMarketHolidays(year)
  {
    hide ObservedDate, YearOf;
    assert HolidayList(year)[0] == ObservedDate(year, 1, 1);
  }

  lemma NewYearIsNear(year: int)
    ensures Ymd(year, 1, 1) - 1 == Ymd(year - 1, 12, 31) == DaysBeforeYear(year)
    ensures Ymd(year, 1, 1) + 1 <= DaysBeforeYear(year + 1)
  {
    YearLength(year - 1);
    YearLength(year);
  }

  lemma NewYearIsFound(year: int)
    requires Weekday(Ymd(year, 1, 1)) != SATURDAY
    ensures IsMarketHoliday(ObservedDate(year, 1, 1))
  {
    hide HolidayList, YearOf, Ymd, DaysBeforeYear, UsMarketHolidays;
    NewYearIsListed(year);
    NewYearIsNear(year);
    YearOfUnique(ObservedDate(year, 1, 1), year);
  }

  // Independent reference: which days the holidays are, by date and weekday alone.

  ghost predicate IsWeekdayNearest(day: int, actual: int) {
    Weekday(day) <= 4 && forall k :: Weekday(k) <= 4 ==> Distance(day, actual) <= Distance(k, actual)
  }

  /** The day is one of the ten holidays of the year; weekdays count from Monday, which is 0. */
  ghost predicate IsNamedHoliday(year: int, day: int) {
    // New Year's Day, unless it is a Saturday
    || (IsWeekdayNearest(day, Ymd(year, 1, 1)) && Weekday(Ymd(year, 1, 1)) != 5)
    // Martin Luther King Day and Presidents' Day
    || (Weekday(day) == 0 && Ymd(year, 1, 15) <= day <= Ymd(year, 1, 21))
    || (Weekday(day) == 0 && Ymd(year, 2, 15) <= day <= Ymd(year, 2, 21))
    // Good Friday
    || IsFirstSundayAfter(day + 2, PaschalFullMoon(year))
    // Memorial Day
    || (Weekday(day) == 0 && Ymd(year, 5, 25) <= day <= Ymd(year, 5, 31))
    // Juneteenth and Independence Day
    || IsWeekdayNearest(day, Ymd(year, 6, 19))
    || IsWeekdayNearest(day, Ymd(year, 7, 4))
    // Labor Day and Thanksgiving
    || (Weekday(day) == 0 && Ymd(year, 9, 1) <= day <= Ymd(year, 9, 7))
    || (Weekday(day) == 3 && Ymd(year, 11, 22) <= day <= Ymd(year, 11, 28))
    // Christmas
    || IsWeekdayNearest(day, Ymd(year, 12, 25))
  }

  lemma NthWeekdayIff(first: int, weekday: int, n: int, day: int)
    requires 0 <= weekday < 7
    ensures day == NthWeekdayFrom(first, weekday, n)
            <==> Weekday(day) == weekday && first + 7 * (n - 1) <= day < first + 7 * n
  {
    NthWeekdayFromSpec(first, weekday, n);
    hide NthWeekdayFrom;
    if Weekday(day) == weekday && first + 7 * (n - 1) <= day < first + 7 * n {
      WeekdayInWindow(day, NthWeekdayFrom(first, weekday, n));
    }
  }

  lemma LastWeekdayIff(last: int, weekday: int, day: int)
    requires 0 <= weekday < 7
    ensures day == LastWeekdayUpTo(last, weekday) <==> Weekday(day) == weekday && last - 7 < day <= last
  {
    LastWeekdayUpToSpec(last, weekday);
    hide LastWeekdayUpTo;
    if Weekday(day) == weekday && last - 7 < day <= last {
      WeekdayInWindow(day, LastWeekdayUpTo(last, weekday));
    }
  }

  lemma ObservedIff(year: int, month: int, date: int, day: int)
    requires ValidDate(year, month, date)
    ensures day == ObservedDate(year, month, date) <==> IsWeekdayNearest(day, Ymd(year, month, date))
  {
    var actual := Ymd(year, month, date);
    ObservedDateSpec(year, month, date);
    WeekdayShift(actual, -1);
    WeekdayShift(actual, 1);
    hide Ymd;
    if IsWeekdayNearest(day, actual) {
      assert Distance(day, actual) <= Distance(ObservedDate(year, month, date), actual);
    }
  }

  lemma GoodFridayIff(year: int, day: int)
    ensures day == EasterDate(year) - 2 <==> IsFirstSundayAfter(day + 2, PaschalFullMoon(year))
  {
    EasterIsFirstSundayAfterPaschalMoon(year);
    hide EasterDate, PaschalFullMoon, Weekday;
  }

  lemma MonthDays(year: int)
    ensures Ymd(year, 1, 15) == Ymd(year, 1, 1) + 14 && Ymd(year, 1, 21) == Ymd(year, 1, 1) + 20
    ensures Ymd(year, 2, 15) == Ymd(year, 2, 1) + 14 && Ymd(year, 2, 21) == Ymd(year, 2, 1) + 20
    ensures Ymd(year, 5, 25) == Ymd(year, 5, 31) - 6 && Ymd(year, 9, 7) == Ymd(year, 9, 1) + 6
    ensures Ymd(year, 11, 22) == Ymd(year, 11, 1) + 21 && Ymd(year, 11, 28) == Ymd(year, 11, 1) + 27
  {
  }

  lemma ListedMeansOneOf(year: int, day: int)
    ensures day in UsMarketHolidays(year)
            <==> || day == ObservedDate(year, 1, 1) || day == NthWeekdayFrom(Ymd(year, 1, 1), MONDAY, 3)
                 || day == NthWeekdayFrom(Ymd(year, 2, 1), MONDAY, 3) || day == EasterDate(year) - 2
                 || day == LastWeekdayUpTo(Ymd(year, 5, 31), MONDAY) || day == ObservedDate(year, 6, 19)
                 || day == ObservedDate(year, 7, 4) || day == NthWeekdayFrom(Ymd(year, 9, 1), MONDAY, 1)
                 || day == NthWeekdayFrom(Ymd(year, 11, 1), THURSDAY, 4) || day == ObservedDate(year, 12, 25)
  {
    hide ObservedDate, NthWeekdayFrom, LastWeekdayUpTo, EasterDate, Ymd;
  }

  lemma SaturdayNewYearIsElsewhere(day: int)
    requires Weekday(Ymd(YearOf(day), 1, 1)) == SATURDAY
    ensures day != ObservedDate(YearOf(day), 1, 1)
  {
    NewYearIsNear(YearOf(day));
    YearOfBounds(day);
    hide YearOf, Ymd, DaysBeforeYear;
  }

  /**
   The market holidays are exactly these: for every day, it is a holiday if and only if it is one
   of the ten named ones of its year, New Year's Day counting only when it is not a Saturday.
   */
  lemma HolidaysAreTheNamedOnes(day: int)
    ensures IsMarketHoliday(day) <==> IsNamedHoliday(YearOf(day), day)
  {
    var year := YearOf(day);
    hide UsMarketHolidays, HolidayList, ObservedDate, NthWeekdayFrom, LastWeekdayUpTo, EasterDate, PaschalFullMoon;
    hide YearOf, Ymd, Weekday, IsWeekdayNearest, IsFirstSundayAfter;
    ListedMeansOneOf(year, day);
    MonthDays(year);
    NthWeekdayIff(Ymd(year, 1, 1), MONDAY, 3, day);
    NthWeekdayIff(Ymd(year, 2, 1), MONDAY, 3, day);
    NthWeekdayIff(Ymd(year, 9, 1), MONDAY, 1, day);
    NthWeekdayIff(Ymd(year, 11, 1), THURSDAY, 4, day);
    LastWeekdayIff(Ymd(year, 5, 31), MONDAY, day);
    GoodFridayIff(year, day);
    ObservedIff(year, 1, 1, day);
    ObservedIff(year, 6, 19, day);
    ObservedIff(year, 7, 4, day);
    ObservedIff(year, 12, 25, day);
    if Weekday(Ymd(year, 1, 1)) == SATURDAY {
      SaturdayNewYearIsElsewhere(day);
    }
  }

  /** A market day is a day from Monday to Friday that is none of the named holidays of its year. */
  lemma MarketDayIff(day: int)
    ensures IsMarketDay(day) <==> 0 <= Weekday(day) <= 4 && !IsNamedHoliday(YearOf(day), day)
  {
    HolidaysAreTheNamedOnes(day);
    hide IsMarketHoliday, IsNamedHoliday, YearOf;
  }

  /** Two holidays are never within three days of each other, not even across a year end. */
  lemma HolidaysAreApart(x: int, y: int)
    requires x < y <= x + 3
    ensures !IsMarketHoliday(x) || !IsMarketHoliday(y)
  {
    if IsMarketHoliday(x) && IsMarketHoliday(y) {
      HolidayListed(x);
      HolidayListed(y);
      YearOfUnique(y, YearOf(x));
      HolidaysSpread(YearOf(x));
      SpreadMembers(HolidayList(YearOf(x)), x, y);
    }
  }

  /** Of two nearby weekdays at least one is a market day. */
  lemma OneOfTwoWorkdays(x: int, y: int) returns (z: int)
    requires x < y <= x + 3 && Weekday(x) < SATURDAY && Weekday(y) < SATURDAY
    ensures (z == x || z == y) && IsMarketDay(z)
  {
    HolidaysAreApart(x, y);
    z := if IsMarketHoliday(x) then y else x;
  }

  /** Among any four consecutive days at least one is a market day. */
  lemma MarketDayWithinFour(day: int) returns (z: int)
    ensures day <= z <= day + 3 && IsMarketDay(z)
  {
    hide IsMarketDay;
    WeekdayShift(day, 1);
    WeekdayShift(day, 2);
    WeekdayShift(day, 3);
    var w := Weekday(day);
    if w <= 3 {
      z := OneOfTwoWorkdays(day, day + 1);
    } else if w == 4 {
      z := OneOfTwoWorkdays(day, day + 3);
    } else if w == 5 {
      z := OneOfTwoWorkdays(day + 2, day + 3);
    } else {
      z := OneOfTwoWorkdays(day + 1, day + 2);
    }
  }

  // ------------------------------------------------- Next and prior market day

  /** The least market day at or after a day. */
  ghost predicate IsNextMarketDay(from: int, day: int) {
    from <= day && IsMarketDay(day) && forall k :: from <= k < day ==> !IsMarketDay(k)
  }

  /** The greatest market day at or before a day. */
  ghost predicate IsPriorMarketDay(upTo: int, day: int) {
    day <= upTo && IsMarketDay(day) && forall k :: day < k <= upTo ==> !IsMarketDay(k)
  }

  /** Seconds of a day, Eastern time. */
  const REGULAR_START := 9 * 3600 + 30 * 60
  const PREMARKET_START := 4 * 3600
  const REGULAR_END := 16 * 3600
  const AFTERMARKET_END := 20 * 3600
  const DAY_SECONDS := 24 * 3600

  predicate OpensAfter(open: int, day: int, secondOfDay: int) {
    open > day || (open == day && secondOfDay < REGULAR_START)
  }

  /**
   next_regular_open: the day of the first regular open strictly after the given Eastern
   moment.  The loop has no bound of its own; it ends because market days are never four apart.
   */
  method NextRegularOpen(day: int, secondOfDay: int) returns (open: int)
    requires 0 <= secondOfDay < DAY_SECONDS
    ensures OpensAfter(open, day, secondOfDay)
    ensures secondOfDay < REGULAR_START ==> IsNextMarketDay(day, open)
    ensures secondOfDay >= REGULAR_START ==> IsNextMarketDay(day + 1, open)
    ensures open <= day + 4
  {
    hide IsMarketDay;
    if IsMarketDay(day) && secondOfDay < REGULAR_START {
      return day;
    }
    open := day + 1;
    ghost var bound := MarketDayWithinFour(day + 1);
    while !IsMarketDay(open)
      invariant day + 1 <= open <= bound
      invariant forall k :: day + 1 <= k < open ==> !IsMarketDay(k)
      decreases bound - open
    {
      open := open + 1;
    }
  }

  /** No market day opens strictly between the moment and the open that was found. */
  lemma NoEarlierOpen(day: int, secondOfDay: int, open: int, k: int)
    requires secondOfDay < REGULAR_START ==> IsNextMarketDay(day, open)
    requires secondOfDay >= REGULAR_START ==> IsNextMarketDay(day + 1, open)
    requires IsMarketDay(k) && OpensAfter(k, day, secondOfDay)
    ensures open <= k
  {
  }

  // ---------------------------------------------------------- Market state

  datatype MarketState = Premarket | Regular | Aftermarket | Closed

  /** get_market_state at an Eastern calendar day and second of that day. */
  function MarketStateAt(day: int, secondOfDay: int): MarketState {
    if !IsMarketDay(day) then Closed
    else if PREMARKET_START <= secondOfDay < REGULAR_START then Premarket
    else if REGULAR_START <= secondOfDay < REGULAR_END then Regular
    else if REGULAR_END <= secondOfDay < AFTERMARKET_END then Aftermarket
    else Closed
  }

  /**
   The clock of the state: 4:00, 9:30, 16:00 and 20:00 Eastern part a market day, and the regular
   session runs from the open that NextRegularOpen finds for its day.
   */
  lemma MarketStateByTheClock(day: int, secondOfDay: int)
    requires 0 <= secondOfDay < DAY_SECONDS
    ensures var state := MarketStateAt(day, secondOfDay);
            var minute := secondOfDay / 60;
            && (state == Premarket <==> IsMarketDay(day) && 240 <= minute < 570)
            && (state == Regular <==> IsMarketDay(day) && 570 <= minute < 960)
            && (state == Aftermarket <==> IsMarketDay(day) && 960 <= minute < 1200)
            && (state == Closed <==> (IsMarketDay(day) ==> minute < 240 || 1200 <= minute))
            && (state == Premarket ==> IsNextMarketDay(day, day) && OpensAfter(day, day, secondOfDay))
            && (state == Regular ==> !OpensAfter(day, day, secondOfDay))
  {
    hide IsMarketDay;
  }
}
