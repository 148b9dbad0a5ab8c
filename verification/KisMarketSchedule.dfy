/**
 KIS's US-market windows (config/kis_market_schedule.py), defined on the Korean clock.

 An instant is a count of seconds on the Korean clock.  Whether US Eastern time is on
 daylight saving at that instant is the zone's answer, taken as a given flag.
 */
module KisMarketSchedule {
  import opened Wrappers
  import opened MarketHours

  datatype Window = Daytime | PremarketWindow | RegularWindow | AftermarketWindow | AftermarketExtension | ClosedWindow

  datatype Moment = Moment(kst: int, dst: bool)

  datatype Row = Row(window: Window, start: int, end: int)

  function Clock(hour: int, minute: int): int {
    3600 * hour + 60 * minute
  }

  const DST_TABLE: seq<Row> := [
    Row(Daytime, Clock(10, 0), Clock(17, 0)),
    Row(PremarketWindow, Clock(17, 0), Clock(22, 30)),
    Row(RegularWindow, Clock(22, 30), Clock(5, 0)),
    Row(AftermarketWindow, Clock(5, 0), Clock(7, 0)),
    Row(AftermarketExtension, Clock(7, 0), Clock(9, 0))
  ]

  const STANDARD_TABLE: seq<Row> := [
    Row(Daytime, Clock(10, 0), Clock(18, 0)),
    Row(PremarketWindow, Clock(18, 0), Clock(23, 30)),
    Row(RegularWindow, Clock(23, 30), Clock(6, 0)),
    Row(AftermarketWindow, Clock(6, 0), Clock(7, 0)),
    Row(AftermarketExtension, Clock(7, 0), Clock(9, 0))
  ]

  function KstDay(m: Moment): int {
    m.kst / DAY_SECONDS
  }

  function KstClock(m: Moment): int {
    m.kst % DAY_SECONDS
  }

  /** Korea is 13 hours ahead of Eastern daylight time and 14 ahead of Eastern standard time. */
  function Eastern(m: Moment): int {
    m.kst - (if m.dst then 13 else 14) * 3600
  }

  function EasternDay(m: Moment): int {
    Eastern(m) / DAY_SECONDS
  }

  function EasternClock(m: Moment): int {
    Eastern(m) % DAY_SECONDS
  }

  predicate InWindow(clock: int, start: int, end: int) {
    if start <= end then start <= clock < end else clock >= start || clock < end
  }

  function TableFor(m: Moment): seq<Row> {
    if m.dst then DST_TABLE else STANDARD_TABLE
  }

  /** The first row holding the clock, in table order. */
  function FirstMatch(table: seq<Row>, clock: int): Window {
    if table == [] then ClosedWindow
    else if InWindow(clock, table[0].start, table[0].end) then table[0].window
    else FirstMatch(table[1..], clock)
  }

  function WindowAt(m: Moment): Window {
    FirstMatch(TableFor(m), KstClock(m))
  }

  /** trading_day_for: the Eastern date, except that the evening half of daytime precedes the next day. */
  function TradingDayFor(m: Moment, window: Option<Window>): int {
    var w := if window.Some? then window.value else WindowAt(m);
    if w == Daytime && EasternClock(m) >= Clock(12, 0) then EasternDay(m) + 1 else EasternDay(m)
  }

  // ------------------------------------------------------------ The tables

  /** Rows of one table never overlap, so the order they are searched in does not matter. */
  lemma {:induction false} WindowsAreDisjoint(m: Moment, i: nat, j: nat)
    requires i < j < 5
    ensures !(InWindow(KstClock(m), TableFor(m)[i].start, TableFor(m)[i].end)
              && InWindow(KstClock(m), TableFor(m)[j].start, TableFor(m)[j].end))
  {
  }

  /** What the search answers at each Korean clock time. */
  lemma WindowByClock(m: Moment)
    ensures var c := KstClock(m);
            WindowAt(m) ==
              if m.dst then
                if c < Clock(5, 0) then RegularWindow
                else if c < Clock(7, 0) then AftermarketWindow
                else if c < Clock(9, 0) then AftermarketExtension
                else if c < Clock(10, 0) then ClosedWindow
                else if c < Clock(17, 0) then Daytime
                else if c < Clock(22, 30) then PremarketWindow
                else RegularWindow
              else
                if c < Clock(6, 0) then RegularWindow
                else if c < Clock(7, 0) then AftermarketWindow
                else if c < Clock(9, 0) then AftermarketExtension
                else if c < Clock(10, 0) then ClosedWindow
                else if c < Clock(18, 0) then Daytime
                else if c < Clock(23, 30) then PremarketWindow
                else RegularWindow
  {
    var c, t := KstClock(m), TableFor(m);
    assert t[1..][1..] == t[2..] && t[2..][1..] == t[3..] && t[3..][1..] == t[4..] && t[4..][1..] == [];
    assert FirstMatch(t[4..], c) == if InWindow(c, t[4].start, t[4].end) then t[4].window else ClosedWindow;
    assert FirstMatch(t[3..], c) == if InWindow(c, t[3].start, t[3].end) then t[3].window else FirstMatch(t[4..], c);
    assert FirstMatch(t[2..], c) == if InWindow(c, t[2].start, t[2].end) then t[2].window else FirstMatch(t[3..], c);
    assert FirstMatch(t[1..], c) == if InWindow(c, t[1].start, t[1].end) then t[1].window else FirstMatch(t[2..], c);
  }

  /** The only hour in which KIS has no window at all is 09:00 to 10:00 in Korea, all year. */
  lemma ClosedHour(m: Moment)
    ensures WindowAt(m) == ClosedWindow <==> Clock(9, 0) <= KstClock(m) < Clock(10, 0)
  {
    WindowByClock(m);
  }

  lemma EasternSplit(m: Moment)
    ensures var shift := (if m.dst then 13 else 14) * 3600;
            if KstClock(m) >= shift
            then EasternDay(m) == KstDay(m) && EasternClock(m) == KstClock(m) - shift
            else EasternDay(m) == KstDay(m) - 1 && EasternClock(m) == KstClock(m) - shift + DAY_SECONDS
  {
    var shift := (if m.dst then 13 else 14) * 3600;
    assert m.kst == DAY_SECONDS * KstDay(m) + KstClock(m);
    var r := KstClock(m) - shift;
    if r >= 0 {
      assert Eastern(m) == DAY_SECONDS * KstDay(m) + r;
    } else {
      assert Eastern(m) == DAY_SECONDS * (KstDay(m) - 1) + (r + DAY_SECONDS);
    }
  }

  /**
   Under either table, KIS's premarket and regular windows are exactly the Eastern
   04:00-09:30 and 09:30-16:00 that the market calendar uses.
   */
  lemma WindowsAgreeWithMarketHours(m: Moment)
    ensures WindowAt(m) == PremarketWindow <==> PREMARKET_START <= EasternClock(m) < REGULAR_START
    ensures WindowAt(m) == RegularWindow <==> REGULAR_START <= EasternClock(m) < REGULAR_END
    ensures MarketStateAt(EasternDay(m), EasternClock(m)) == Regular
            <==> WindowAt(m) == RegularWindow && IsMarketDay(EasternDay(m))
  {
    WindowByClock(m);
    EasternSplit(m);
  }

  /** In the daytime window the trading day is the Korean date, on both sides of Eastern midnight. */
  lemma DaytimeIsDatedInKorea(m: Moment)
    requires WindowAt(m) == Daytime
    ensures TradingDayFor(m, None) == KstDay(m)
  {
    WindowByClock(m);
    EasternSplit(m);
  }

  /** Outside daytime the trading day is the Eastern date, which trails the Korean one until 13:00 or 14:00 there. */
  lemma ElsewhereIsDatedInTheEast(m: Moment)
    requires WindowAt(m) != Daytime
    ensures var shift := Clock(if m.dst then 13 else 14, 0);
            TradingDayFor(m, None) == (if KstClock(m) < shift then KstDay(m) - 1 else KstDay(m))
  {
    EasternSplit(m);
    hide WindowAt;
  }

  /** A window that is given outranks the one on the clock; only daytime can move the date. */
  lemma GivenWindowIsBelieved(m: Moment, w: Window)
    ensures TradingDayFor(m, Some(w)) == EasternDay(m) || TradingDayFor(m, Some(w)) == EasternDay(m) + 1
    ensures TradingDayFor(m, Some(w)) == EasternDay(m) + 1 <==> w == Daytime && EasternClock(m) >= 12 * 3600
    ensures TradingDayFor(m, None) == TradingDayFor(m, Some(WindowAt(m)))
  {
    hide WindowAt, EasternDay, EasternClock;
  }

  /** Daytime on every second of an interval keeps the interval inside one Korean date. */
  lemma DaytimeRunStaysInOneDay(dst: int -> bool, from: int, to: int)
    requires from <= to
    requires forall t :: from <= t <= to ==> WindowAt(Moment(t, dst(t))) == Daytime
    ensures from / DAY_SECONDS == to / DAY_SECONDS
  {
    if from / DAY_SECONDS < to / DAY_SECONDS {
      var midnight := DAY_SECONDS * (from / DAY_SECONDS + 1);
      assert from <= midnight <= to;
      var m := Moment(midnight, dst(midnight));
      assert KstClock(m) == 0;
      WindowByClock(m);
    }
  }
}
