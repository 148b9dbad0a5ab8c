/** Metrics over a list of closed trades (backtest/metrics.py). */
module BacktestMetrics {
  import opened Wrappers
  import opened BacktestEngine

  datatype Undefined = NoTrades | NoLosingTrades | FewerThanTwoTrades

  datatype Metrics = Metrics(
    numTrades: nat, winRate: real, avgR: Option<real>, profitFactor: Result<real, Undefined>,
    expectancy: real, maxDrawdown: real, maxConsecutiveLosses: nat)

  predicate Win(t: Trade) {
    t.realizedPnl > 0.0
  }

  function TotalPnl(ts: seq<Trade>): real {
    if ts == [] then 0.0 else TotalPnl(ts[..|ts| - 1]) + ts[|ts| - 1].realizedPnl
  }

  /** The trades that won, or those that did not, in order. */
  function Outcomes(ts: seq<Trade>, won: bool): seq<Trade> {
    if ts == [] then []
    else
      var last := ts[|ts| - 1];
      Outcomes(ts[..|ts| - 1], won) + (if Win(last) == won then [last] else [])
  }

  function RValues(ts: seq<Trade>): seq<real> {
    if ts == [] then []
    else
      var last := ts[|ts| - 1];
      RValues(ts[..|ts| - 1]) + (if last.rMultiple.Some? then [last.rMultiple.value] else [])
  }

  function Sum(xs: seq<real>): real {
    if xs == [] then 0.0 else Sum(xs[..|xs| - 1]) + xs[|xs| - 1]
  }

  /** Every trade is in one outcome: the profitable ones among the wins, all the others among the losses. */
  lemma {:induction false} OutcomesPartTheTrades(ts: seq<Trade>)
    ensures multiset(ts) == multiset(Outcomes(ts, true)) + multiset(Outcomes(ts, false))
    ensures forall t :: t in Outcomes(ts, true) ==> t.realizedPnl > 0.0
    ensures forall t :: t in Outcomes(ts, false) ==> t.realizedPnl <= 0.0
  {
    if ts != [] {
      var init, last := ts[..|ts| - 1], ts[|ts| - 1];
      OutcomesPartTheTrades(init);
      assert ts == init + [last];
    }
  }

  /** Sums and R values of a list are those of its parts, down to the single trade. */
  lemma {:induction false} MeasuresAddUp(xs: seq<Trade>, ys: seq<Trade>, t: Trade)
    ensures RValues(xs + ys) == RValues(xs) + RValues(ys)
    ensures Sum(RValues(xs + ys)) == Sum(RValues(xs)) + Sum(RValues(ys))
    ensures TotalPnl([t]) == t.realizedPnl
    ensures t.rMultiple.None? ==> RValues([t]) == []
    ensures t.rMultiple.Some? ==> RValues([t]) == [t.rMultiple.value] && Sum(RValues([t])) == t.rMultiple.value
  {
    RValuesConcat(xs, ys);
    SumConcat(RValues(xs), RValues(ys));
    assert [t][..0] == [];
  }

  lemma {:induction false} RValuesConcat(xs: seq<Trade>, ys: seq<Trade>)
    ensures RValues(xs + ys) == RValues(xs) + RValues(ys)
  {
    if ys == [] {
      assert xs + ys == xs;
    } else {
      assert (xs + ys)[..|xs + ys| - 1] == xs + ys[..|ys| - 1];
      RValuesConcat(xs, ys[..|ys| - 1]);
    }
  }

  lemma {:induction false} SumConcat(xs: seq<real>, ys: seq<real>)
    ensures Sum(xs + ys) == Sum(xs) + Sum(ys)
  {
    if ys == [] {
      assert xs + ys == xs;
    } else {
      assert (xs + ys)[..|xs + ys| - 1] == xs + ys[..|ys| - 1];
      SumConcat(xs, ys[..|ys| - 1]);
    }
  }

  // ------------------------------------------------------- Ordering by entry

  function EntryTime(t: Trade): int {
    t.position.entryTime
  }

  function InsertByEntry(t: Trade, sorted: seq<Trade>): seq<Trade> {
    if sorted == [] || EntryTime(sorted[|sorted| - 1]) <= EntryTime(t) then sorted + [t]
    else InsertByEntry(t, sorted[..|sorted| - 1]) + [sorted[|sorted| - 1]]
  }

  /** sorted(trades, key=entry time): a stable sort. */
  function SortByEntry(ts: seq<Trade>): seq<Trade> {
    if ts == [] then [] else InsertByEntry(ts[|ts| - 1], SortByEntry(ts[..|ts| - 1]))
  }

  predicate SortedByEntry(ts: seq<Trade>) {
    forall j, k :: 0 <= j < k < |ts| ==> EntryTime(ts[j]) <= EntryTime(ts[k])
  }

  /** The trades entered at one time, in list order. */
  function EnteredAt(ts: seq<Trade>, time: int): seq<Trade> {
    if ts == [] then []
    else
      var last := ts[|ts| - 1];
      EnteredAt(ts[..|ts| - 1], time) + (if EntryTime(last) == time then [last] else [])
  }

  lemma EnteredAtAppend(ts: seq<Trade>, t: Trade, time: int)
    ensures EnteredAt(ts + [t], time) == EnteredAt(ts, time) + (if EntryTime(t) == time then [t] else [])
  {
    assert (ts + [t])[..|ts|] == ts;
  }

  lemma {:induction false} InsertKeepsAll(t: Trade, sorted: seq<Trade>)
    ensures multiset(InsertByEntry(t, sorted)) == multiset(sorted + [t])
  {
    if !(sorted == [] || EntryTime(sorted[|sorted| - 1]) <= EntryTime(t)) {
      var init, last := sorted[..|sorted| - 1], sorted[|sorted| - 1];
      InsertKeepsAll(t, init);
      assert sorted == init + [last];
    }
  }

  lemma {:induction false} InsertBound(t: Trade, sorted: seq<Trade>, bound: int)
    requires EntryTime(t) <= bound && forall x :: x in sorted ==> EntryTime(x) <= bound
    ensures forall x :: x in InsertByEntry(t, sorted) ==> EntryTime(x) <= bound
  {
    InsertKeepsAll(t, sorted);
    forall x | x in InsertByEntry(t, sorted) ensures x == t || x in sorted {
      assert x in multiset(InsertByEntry(t, sorted));
      assert x in multiset(sorted + [t]);
    }
  }

  lemma {:induction false} InsertKeepsOrder(t: Trade, sorted: seq<Trade>)
    requires SortedByEntry(sorted)
    ensures SortedByEntry(InsertByEntry(t, sorted))
  {
    hide EntryTime;
    if !(sorted == [] || EntryTime(sorted[|sorted| - 1]) <= EntryTime(t)) {
      var init, last := sorted[..|sorted| - 1], sorted[|sorted| - 1];
      InsertKeepsOrder(t, init);
      InsertBound(t, init, EntryTime(last));
    }
  }

  lemma {:induction false} InsertIsStable(t: Trade, sorted: seq<Trade>, time: int)
    ensures EnteredAt(InsertByEntry(t, sorted), time) == EnteredAt(sorted + [t], time)
  {
    hide EnteredAt;
    if !(sorted == [] || EntryTime(sorted[|sorted| - 1]) <= EntryTime(t)) {
      var init, last := sorted[..|sorted| - 1], sorted[|sorted| - 1];
      InsertIsStable(t, init, time);
      EnteredAtAppend(InsertByEntry(t, init), last, time);
      EnteredAtAppend(init, t, time);
      EnteredAtAppend(init, last, time);
      EnteredAtAppend(sorted, t, time);
      assert sorted == init + [last];
      if EntryTime(t) == time {
        assert EnteredAt(sorted, time) == EnteredAt(init, time) + [];
      }
    }
  }

  /** Sorting by entry orders the trades, keeps every one of them, and keeps ties in list order. */
  lemma {:induction false} SortByEntrySpec(ts: seq<Trade>, time: int)
    ensures SortedByEntry(SortByEntry(ts)) && multiset(SortByEntry(ts)) == multiset(ts)
    ensures EnteredAt(SortByEntry(ts), time) == EnteredAt(ts, time)
  {
    hide EnteredAt, SortedByEntry;
    if ts == [] {
      SortNothing();
    } else {
      var init, last := ts[..|ts| - 1], ts[|ts| - 1];
      SortByEntrySpec(init, time);
      InsertKeepsOrder(last, SortByEntry(init));
      InsertKeepsAll(last, SortByEntry(init));
      InsertIsStable(last, SortByEntry(init), time);
      EnteredAtAppend(SortByEntry(init), last, time);
      EnteredAtAppend(init, last, time);
      assert ts == init + [last];
    }
  }

  lemma SortNothing()
    ensures SortedByEntry(SortByEntry([]))
  {
  }

  // --------------------------------------------- Drawdown and losing streaks

  /** Cumulative profit after the first k trades. */
  function Equity(ts: seq<Trade>, k: nat): real
    requires k <= |ts|
  {
    if k == 0 then 0.0 else Equity(ts, k - 1) + ts[k - 1].realizedPnl
  }

  /** Equity is the profit of the trades so far. */
  lemma {:induction false} EquityIsTotalPnl(ts: seq<Trade>, k: nat)
    requires k <= |ts|
    ensures Equity(ts, k) == TotalPnl(ts[..k])
  {
    if k > 0 {
      EquityIsTotalPnl(ts, k - 1);
      assert ts[..k][..k - 1] == ts[..k - 1];
    }
  }

  /** The worst decline of equity between any two points, the start included: never positive. */
  ghost predicate IsMaxDrawdown(ts: seq<Trade>, d: real) {
    && (exists i: nat, j: nat :: i <= j <= |ts| && d == Equity(ts, j) - Equity(ts, i))
    && (forall i: nat, j: nat :: i <= j <= |ts| ==> d <= Equity(ts, j) - Equity(ts, i))
  }

  predicate LosingRun(ts: seq<Trade>, from: nat, to: nat)
    requires from <= to <= |ts|
  {
    forall k :: from <= k < to ==> ts[k].realizedPnl <= 0.0
  }

  /** The length of the longest contiguous run of trades that did not win. */
  ghost predicate IsLongestLosingRun(ts: seq<Trade>, n: nat) {
    && (exists i: nat, j: nat :: i <= j <= |ts| && LosingRun(ts, i, j) && n == j - i)
    && (forall i: nat, j: nat :: i <= j <= |ts| && LosingRun(ts, i, j) ==> j - i <= n)
  }

  /** After k trades: the running peak, and the worst decline with the two points it lies between. */
  ghost predicate DrawdownUpTo(ts: seq<Trade>, k: nat, peak: real, peakAt: nat, d: real, low: nat, high: nat) {
    && k <= |ts| && peakAt <= k && peak == Equity(ts, peakAt)
    && (forall i: nat :: i <= k ==> Equity(ts, i) <= peak)
    && low <= high <= k && d == Equity(ts, high) - Equity(ts, low) && d <= 0.0
    && (forall i: nat, j: nat :: i <= j <= k ==> d <= Equity(ts, j) - Equity(ts, i))
  }

  lemma DrawdownStep(ts: seq<Trade>, k: nat, peak: real, peakAt: nat, d: real, low: nat, high: nat)
    requires k < |ts| && DrawdownUpTo(ts, k, peak, peakAt, d, low, high)
    ensures var e := Equity(ts, k + 1);
            var peak', peakAt' := if peak < e then e else peak, if peak < e then k + 1 else peakAt;
            if e - peak' < d then DrawdownUpTo(ts, k + 1, peak', peakAt', e - peak', peakAt', k + 1)
            else DrawdownUpTo(ts, k + 1, peak', peakAt', d, low, high)
  {
    hide Equity;
  }

  /** After k trades: the current run of losses, and the longest so far with where it lies. */
  ghost predicate StreakUpTo(ts: seq<Trade>, k: nat, current: nat, n: nat, from: nat, to: nat) {
    && current <= k <= |ts| && LosingRun(ts, k - current, k) && (current < k ==> Win(ts[k - current - 1]))
    && from <= to <= k && LosingRun(ts, from, to) && n == to - from && current <= n
    && (forall i: nat, j: nat :: i <= j <= k && LosingRun(ts, i, j) ==> j - i <= n)
  }

  lemma StreakStep(ts: seq<Trade>, k: nat, current: nat, n: nat, from: nat, to: nat)
    requires k < |ts| && StreakUpTo(ts, k, current, n, from, to)
    ensures Win(ts[k]) ==> StreakUpTo(ts, k + 1, 0, n, from, to)
    ensures !Win(ts[k]) && current + 1 <= n ==> StreakUpTo(ts, k + 1, current + 1, n, from, to)
    ensures !Win(ts[k]) && current + 1 > n ==> StreakUpTo(ts, k + 1, current + 1, current + 1, k - current, k + 1)
  {
    var next := if Win(ts[k]) then 0 else current + 1;
    forall i: nat, j: nat | i <= j <= k + 1 && LosingRun(ts, i, j) ensures j <= k || j - i <= next {
    }
  }

  /** The single pass over the ordered trades. */
  method DrawdownAndStreak(ts: seq<Trade>) returns (drawdown: real, streak: nat)
    ensures IsMaxDrawdown(ts, drawdown) && drawdown <= 0.0
    ensures IsLongestLosingRun(ts, streak)
  {
    hide DrawdownUpTo, StreakUpTo, LosingRun, Win, IsMaxDrawdown, IsLongestLosingRun;
    NoTradesYet(ts);
    var equity, peak := 0.0, 0.0;
    drawdown := 0.0;
    var current: nat := 0;
    streak := 0;
    ghost var peakAt: nat, low: nat, high: nat := 0, 0, 0;
    ghost var from: nat, to: nat := 0, 0;
    for k := 0 to |ts|
      invariant equity == Equity(ts, k)
      invariant DrawdownUpTo(ts, k, peak, peakAt, drawdown, low, high)
      invariant StreakUpTo(ts, k, current, streak, from, to)
    {
      DrawdownStep(ts, k, peak, peakAt, drawdown, low, high);
      StreakStep(ts, k, current, streak, from, to);
      equity := equity + ts[k].realizedPnl;
      if peak < equity {
        peak, peakAt := equity, k + 1;
      }
      if equity - peak < drawdown {
        drawdown, low, high := equity - peak, peakAt, k + 1;
      }
      if Win(ts[k]) {
        current := 0;
      } else {
        current := current + 1;
        if streak < current {
          streak, from, to := current, k + 1 - current, k + 1;
        }
      }
    }
    WholePassIsExtreme(ts, peak, peakAt, drawdown, low, high, current, streak, from, to);
  }

  lemma NoTradesYet(ts: seq<Trade>)
    ensures DrawdownUpTo(ts, 0, 0.0, 0, 0.0, 0, 0) && StreakUpTo(ts, 0, 0, 0, 0, 0)
  {
  }

  lemma WholePassIsExtreme(ts: seq<Trade>, peak: real, peakAt: nat, d: real, low: nat, high: nat,
                           current: nat, n: nat, from: nat, to: nat)
    requires DrawdownUpTo(ts, |ts|, peak, peakAt, d, low, high) && StreakUpTo(ts, |ts|, current, n, from, to)
    ensures IsMaxDrawdown(ts, d) && d <= 0.0 && IsLongestLosingRun(ts, n)
  {
    hide Equity, LosingRun, Win;
  }

  // ------------------------------------------------------------------ Metrics

  lemma {:induction false} WinsAndLossesAddUp(ts: seq<Trade>)
    ensures TotalPnl(ts) == TotalPnl(Outcomes(ts, true)) + TotalPnl(Outcomes(ts, false))
    ensures TotalPnl(Outcomes(ts, false)) <= 0.0 <= TotalPnl(Outcomes(ts, true))
    ensures |ts| == |Outcomes(ts, true)| + |Outcomes(ts, false)|
  {
    if ts != [] {
      var init, last := ts[..|ts| - 1], ts[|ts| - 1];
      WinsAndLossesAddUp(init);
      TotalAppend(Outcomes(init, Win(last)), last);
      assert Outcomes(ts, !Win(last)) == Outcomes(init, !Win(last));
    }
  }

  lemma TotalAppend(ts: seq<Trade>, t: Trade)
    ensures TotalPnl(ts + [t]) == TotalPnl(ts) + t.realizedPnl
  {
    assert (ts + [t])[..|ts|] == ts;
  }

  /** What each metric means for a non-empty list of trades. */
  ghost predicate Describes(v: Metrics, trades: seq<Trade>) {
    && v.numTrades == |trades|
    && v.expectancy * |trades| as real == TotalPnl(trades)
    && v.winRate * |trades| as real == |Outcomes(trades, true)| as real
    && (v.avgR.Some? <==> RValues(trades) != [])
    && (v.avgR.Some? ==> v.avgR.value * |RValues(trades)| as real == Sum(RValues(trades)))
    && (v.profitFactor.Ok? <==> TotalPnl(Outcomes(trades, false)) != 0.0)
    && (v.profitFactor.Ok? ==>
          (v.profitFactor.value - 1.0) * -TotalPnl(Outcomes(trades, false)) == TotalPnl(trades))
    && IsMaxDrawdown(SortByEntry(trades), v.maxDrawdown) && v.maxDrawdown <= 0.0
    && IsLongestLosingRun(SortByEntry(trades), v.maxConsecutiveLosses)
  }

  /** compute_metrics: undefined exactly when there are no trades. */
  method ComputeMetrics(trades: seq<Trade>) returns (m: Result<Metrics, Undefined>)
    ensures m.Ok? <==> trades != []
    ensures m.Ok? ==> Describes(m.value, trades)
  {
    hide TotalPnl, Outcomes, RValues, Sum, SortByEntry, IsMaxDrawdown, IsLongestLosingRun;
    if |trades| == 0 {
      return Err(NoTrades);
    }
    var wins, losses := Outcomes(trades, true), Outcomes(trades, false);
    WinsAndLossesAddUp(trades);
    var rs := RValues(trades);
    var winRate := |wins| as real / |trades| as real;
    Quotient(|wins| as real, |trades| as real);
    var avgR := if rs != [] then Some(Sum(rs) / |rs| as real) else None;
    if rs != [] {
      Quotient(Sum(rs), |rs| as real);
    }
    var expectancy := TotalPnl(trades) / |trades| as real;
    Quotient(TotalPnl(trades), |trades| as real);
    var grossProfit := TotalPnl(wins);
    var grossLoss := Abs(TotalPnl(losses));
    var factor: Result<real, Undefined> := Err(NoLosingTrades);
    if grossLoss != 0.0 {
      factor := Ok(grossProfit / grossLoss);
      ProfitFactor(grossProfit, grossLoss);
    }
    var drawdown, streak := DrawdownAndStreak(SortByEntry(trades));
    m := Ok(Metrics(|trades|, winRate, avgR, factor, expectancy, drawdown, streak));
  }

  lemma Quotient(x: real, n: real)
    requires n != 0.0
    ensures x / n * n == x
  {
  }

  lemma ProfitFactor(profit: real, loss: real)
    requires loss != 0.0
    ensures (profit / loss - 1.0) * loss == profit - loss
  {
  }

  // -------------------------------------------------- Without the best trade

  /** The position of the first trade with the highest profit. */
  function BestTrade(ts: seq<Trade>): (b: nat)
    requires ts != []
    ensures b < |ts|
    ensures forall k :: 0 <= k < |ts| ==> ts[k].realizedPnl <= ts[b].realizedPnl
    ensures forall k :: 0 <= k < b ==> ts[k].realizedPnl < ts[b].realizedPnl
  {
    if |ts| == 1 then 0
    else
      var b := BestTrade(ts[..|ts| - 1]);
      if ts[b].realizedPnl < ts[|ts| - 1].realizedPnl then |ts| - 1 else b
  }

  function WithoutBest(ts: seq<Trade>): (rest: seq<Trade>)
    requires ts != []
    ensures |rest| == |ts| - 1
  {
    var b := BestTrade(ts);
    ts[..b] + ts[b + 1..]
  }

  lemma {:induction false} TotalConcat(xs: seq<Trade>, ys: seq<Trade>)
    ensures TotalPnl(xs + ys) == TotalPnl(xs) + TotalPnl(ys)
  {
    if ys == [] {
      assert xs + ys == xs;
    } else {
      assert xs + ys == (xs + ys[..|ys| - 1]) + [ys[|ys| - 1]];
      TotalConcat(xs, ys[..|ys| - 1]);
      TotalAppend(xs + ys[..|ys| - 1], ys[|ys| - 1]);
    }
  }

  lemma {:induction false} TotalAtMost(ts: seq<Trade>, best: real)
    requires forall k :: 0 <= k < |ts| ==> ts[k].realizedPnl <= best
    ensures TotalPnl(ts) <= |ts| as real * best
  {
    if ts != [] {
      TotalAtMost(ts[..|ts| - 1], best);
      assert |ts| as real * best == (|ts| - 1) as real * best + best;
    }
  }

  /** Dropping the best trade never improves the average trade. */
  lemma BestTradeRemovalNeverFlatters(ts: seq<Trade>)
    requires |ts| >= 1
    ensures var rest := WithoutBest(ts);
            && TotalPnl(rest) == TotalPnl(ts) - ts[BestTrade(ts)].realizedPnl
            && TotalPnl(rest) * |ts| as real <= TotalPnl(ts) * |rest| as real
  {
    hide TotalPnl, BestTrade;
    var b := BestTrade(ts);
    RemoveOne(ts, b);
    TotalAtMost(ts, ts[b].realizedPnl);
    CrossMultiply(TotalPnl(ts), ts[b].realizedPnl, |ts| as real);
  }

  lemma RemoveOne(ts: seq<Trade>, b: nat)
    requires b < |ts|
    ensures TotalPnl(ts[..b] + ts[b + 1..]) == TotalPnl(ts) - ts[b].realizedPnl
  {
    hide TotalPnl;
    assert ts == ts[..b] + [ts[b]] + ts[b + 1..];
    TotalConcat(ts[..b] + [ts[b]], ts[b + 1..]);
    TotalAppend(ts[..b], ts[b]);
    TotalConcat(ts[..b], ts[b + 1..]);
  }

  lemma CrossMultiply(total: real, best: real, n: real)
    requires total <= n * best
    ensures (total - best) * n <= total * (n - 1.0)
  {
    assert (total - best) * n == total * n - best * n;
    assert total * (n - 1.0) == total * n - total;
  }

  /** compute_metrics_with_best_trade_removed: the second answer, beside the first. */
  method ComputeMetricsWithBestTradeRemoved(trades: seq<Trade>)
    returns (all: Result<Metrics, Undefined>, without: Result<Metrics, Undefined>)
    ensures all.Ok? <==> trades != []
    ensures all.Ok? ==> Describes(all.value, trades)
    ensures without.Ok? <==> |trades| >= 2
    ensures without.Ok? ==> Describes(without.value, WithoutBest(trades))
    ensures without.Ok? ==> without.value.expectancy <= all.value.expectancy
  {
    hide WithoutBest, Describes;
    all := ComputeMetrics(trades);
    if |trades| < 2 {
      return all, Err(FewerThanTwoTrades);
    }
    var rest := WithoutBest(trades);
    without := ComputeMetrics(rest);
    RemovalLowersExpectancy(trades, all.value, without.value);
  }

  lemma RemovalLowersExpectancy(trades: seq<Trade>, all: Metrics, without: Metrics)
    requires |trades| >= 2 && Describes(all, trades) && Describes(without, WithoutBest(trades))
    ensures without.expectancy <= all.expectancy
  {
    hide *;
    BestTradeRemovalNeverFlatters(trades);
    ExpectancyMeaning(all, trades);
    ExpectancyMeaning(without, WithoutBest(trades));
    var n, m := |trades| as real, |WithoutBest(trades)| as real;
    assert m == n - 1.0;
    Averages(TotalPnl(WithoutBest(trades)), TotalPnl(trades), n, m, without.expectancy, all.expectancy);
  }

  lemma ExpectancyMeaning(v: Metrics, trades: seq<Trade>)
    requires Describes(v, trades)
    ensures v.expectancy * |trades| as real == TotalPnl(trades)
  {
  }

  lemma Scale(x: real, y: real, s: real)
    requires x > y && s > 0.0
    ensures x * s > y * s
  {
  }

  lemma Averages(rest: real, total: real, n: real, m: real, x: real, y: real)
    requires n > 0.0 && m > 0.0 && x * m == rest && y * n == total
    requires rest * n <= total * m
    ensures x <= y
  {
    var scale := n * m;
    assert rest * n == x * scale && total * m == y * scale;
    if x > y {
      Scale(x, y, scale);
    }
  }
}
