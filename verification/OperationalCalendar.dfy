/**
 The operational trading day (config/operational_calendar.py): forward and backward
 searches of at most five days, and the day a KIS window belongs to.
 */
module OperationalCalendar {
  import opened Wrappers
  import opened MarketHours
  import opened KisMarketSchedule

  const MAX_FORWARD_DAYS := 4

  /** next_valid_trading_day: its five candidates always suffice. */
  method NextValidTradingDay(day: Option<int>, includeSelf: bool) returns (found: Option<int>)
    ensures day.None? ==> found == None
    ensures day.Some? ==> found.Some? && IsNextMarketDay(if includeSelf then day.value else day.value + 1, found.value)
  {
    hide IsMarketDay;
    if day == None {
      return None;
    }
    var from := if includeSelf then day.value else day.value + 1;
    var candidate := from;
    ghost var bound := MarketDayWithinFour(from);
    for step := 0 to MAX_FORWARD_DAYS + 1
      invariant candidate == from + step <= bound
      invariant forall k :: from <= k < candidate ==> !IsMarketDay(k)
    {
      if IsMarketDay(candidate) {
        return Some(candidate);
      }
      candidate := candidate + 1;
    }
    return None;
  }

  /** prior_trading_day of a parseable date: the greatest market day before it. */
  method PriorTradingDay(day: Option<int>) returns (found: Option<int>)
    ensures day.None? ==> found == None
    ensures day.Some? ==> found.Some? && IsPriorMarketDay(day.value - 1, found.value)
  {
    hide IsMarketDay;
    if day == None {
      return None;
    }
    var upTo := day.value - 1;
    var candidate := upTo;
    ghost var bound := MarketDayWithinFour(upTo - 3);
    for step := 0 to MAX_FORWARD_DAYS + 1
      invariant bound <= candidate == upTo - step
      invariant forall k :: candidate < k <= upTo ==> !IsMarketDay(k)
    {
      if IsMarketDay(candidate) {
        return Some(candidate);
      }
      candidate := candidate - 1;
    }
    return None;
  }

  /** The two searches undo each other exactly on market days, in both directions. */
  lemma SearchesInvert(day: int, next: int, prior: int)
    requires IsNextMarketDay(day + 1, next) && IsPriorMarketDay(day - 1, prior)
    ensures IsPriorMarketDay(next - 1, day) <==> IsMarketDay(day)
    ensures IsNextMarketDay(prior + 1, day) <==> IsMarketDay(day)
  {
    hide IsMarketDay;
  }

  /** Both searches have at most one answer. */
  lemma SearchesAreFunctions(day: int, x: int, y: int)
    ensures IsNextMarketDay(day, x) && IsNextMarketDay(day, y) ==> x == y
    ensures IsPriorMarketDay(day, x) && IsPriorMarketDay(day, y) ==> x == y
  {
    hide IsMarketDay;
    if x < y {
      assert IsNextMarketDay(day, y) && day <= x ==> !IsMarketDay(x);
      assert IsPriorMarketDay(day, x) && y <= day ==> !IsMarketDay(y);
    } else if y < x {
      assert IsNextMarketDay(day, x) && day <= y ==> !IsMarketDay(y);
      assert IsPriorMarketDay(day, y) && x <= day ==> !IsMarketDay(x);
    }
  }

  /** Daytime work belongs to the next market day; any other window keeps its own date if that trades. */
  ghost predicate IsOperationalDay(m: Moment, day: Option<int>) {
    match WindowAt(m)
    case Daytime => day.Some? && IsNextMarketDay(TradingDayFor(m, None), day.value)
    case ClosedWindow => day == None
    case _ => day == (if IsMarketDay(EasternDay(m)) then Some(EasternDay(m)) else None)
  }

  /**
   The day resolution of resolve_operational_trading_day: daytime looks forward from the day
   it precedes, a closed hour has no day, any other window keeps its own date if it trades.
   */
  method OperationalTradingDay(m: Moment) returns (day: Option<int>)
    ensures IsOperationalDay(m, day)
  {
    hide IsMarketDay;
    var window := WindowAt(m);
    if window == Daytime {
      var base := if EasternClock(m) >= Clock(12, 0) then EasternDay(m) + 1 else EasternDay(m);
      DaytimeIsDatedInKorea(m);
      day := NextValidTradingDay(Some(base), true);
    } else if window == ClosedWindow {
      day := None;
    } else {
      day := if IsMarketDay(EasternDay(m)) then Some(EasternDay(m)) else None;
    }
  }

  /**
   Every moment of one unbroken daytime run, whatever the daylight-saving flag does during it,
   has the same operational day: the next market day from the run's trading day.
   */
  lemma OneDayPerDaytimeRun(dst: int -> bool, from: int, to: int, x: int, y: int, dx: Option<int>, dy: Option<int>)
    requires from <= x <= to && from <= y <= to
    requires forall t :: from <= t <= to ==> WindowAt(Moment(t, dst(t))) == Daytime
    requires IsOperationalDay(Moment(x, dst(x)), dx) && IsOperationalDay(Moment(y, dst(y)), dy)
    ensures dx == dy && dx.Some? && IsMarketDay(dx.value)
    ensures TradingDayFor(Moment(x, dst(x)), None) == TradingDayFor(Moment(y, dst(y)), None)
    ensures IsNextMarketDay(TradingDayFor(Moment(x, dst(x)), None), dx.value)
  {
    hide IsMarketDay;
    var mx, my := Moment(x, dst(x)), Moment(y, dst(y));
    if x <= y {
      DaytimeRunStaysInOneDay(dst, x, y);
    } else {
      DaytimeRunStaysInOneDay(dst, y, x);
    }
    DaytimeIsDatedInKorea(mx);
    DaytimeIsDatedInKorea(my);
    SearchesAreFunctions(KstDay(mx), dx.value, dy.value);
  }
}
