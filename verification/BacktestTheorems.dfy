/**
 What every replay keeps: no look-ahead, conservation of quantity, volume caps, trades that
 never overlap, and books that reconcile to the last cost line.
 */
module BacktestTheorems {
  import opened Wrappers
  import opened MarketHours
  import opened BacktestEngine

  // ---------------------------------------------------------- No look-ahead

  /** The trades whose last fill is before bar m. */
  function ClosedBefore(trades: seq<Trade>, m: nat): seq<Trade> {
    if trades == [] then []
    else
      var last := trades[|trades| - 1];
      ClosedBefore(trades[..|trades| - 1], m) + (if LastExitBar(last) < m then [last] else [])
  }

  /** The bar of the fill that closed a trade. */
  function LastExitBar(t: Trade): nat {
    var es := t.position.exits;
    if es == [] then t.position.entryBar else es[|es| - 1].bar
  }

  lemma SellUpToLastBar(pos: Position, want: int, bars: seq<Bar>, i: nat, quote: real, reason: Reason, cfg: Config)
    requires i < |bars|
    ensures var after := SellUpTo(pos, want, bars, i, quote, reason, cfg);
            after != pos ==> |after.exits| == |pos.exits| + 1 && after.exits[|pos.exits|].bar == i
  {
  }

  /** A bar that closes the position records a fill at that very bar. */
  lemma ClosingFillIsAtThisBar(strategy: Strategy, bars: seq<Bar>, i: nat, pos: Position, cfg: Config)
    requires i < |bars|
    ensures var m := ManageBar(strategy, bars, i, pos, cfg);
            m.closed.Some? ==> LastExitBar(FinalizeTrade(m.position, m.closed.value)) == i
  {
    var bar := bars[i];
    SellUpToLastBar(pos, pos.remaining, bars, i, bar.open, EodForcedClose, cfg);
    SellUpToLastBar(pos, pos.remaining, bars, i, bar.open, TimeStop, cfg);
    SellUpToLastBar(pos, pos.remaining, bars, i, bar.close, StrategyInvalidation, cfg);
    SellUpToLastBar(pos, pos.remaining, bars, i, pos.stop, StopLoss, cfg);
    SellUpToLastBar(pos, pos.remaining, bars, i, pos.target2, Target2, cfg);
    SellUpToLastBar(pos, PartialQty(pos.remaining, cfg), bars, i, pos.target1, PartialTarget1, cfg);
  }

  /** One step appends at most one trade, and that trade closes at the step's own bar. */
  lemma StepTrades(strategy: Strategy, bars: seq<Bar>, cfg: Config, s: Sim)
    requires s.i < |bars|
    ensures var next := Step(strategy, bars, cfg, s);
            next.trades == s.trades
            || (|next.trades| == |s.trades| + 1 && next.trades[..|s.trades|] == s.trades
                && LastExitBar(next.trades[|s.trades|]) == s.i)
  {
    hide ManageBar, TryEnter, FinalizeTrade, LastExitBar;
    if s.open.Some? {
      ClosingFillIsAtThisBar(strategy, bars, s.i, s.open.value, cfg);
    }
  }

  /** From bar m on, a replay only adds trades that close at m or later. */
  lemma {:induction false} LaterTradesCloseLater(strategy: Strategy, bars: seq<Bar>, cfg: Config, s: Sim, m: nat)
    requires s.i >= m
    ensures ClosedBefore(Replay(strategy, bars, cfg, s).trades, m) == ClosedBefore(s.trades, m)
    decreases |bars| - s.i
  {
    hide Step, LastExitBar;
    if s.i < |bars| {
      StepTrades(strategy, bars, cfg, s);
      LaterTradesCloseLater(strategy, bars, cfg, Step(strategy, bars, cfg, s), m);
    }
  }

  lemma {:induction false} AllClosedBefore(trades: seq<Trade>, m: nat)
    requires forall t :: t in trades ==> LastExitBar(t) < m
    ensures ClosedBefore(trades, m) == trades
  {
    hide LastExitBar;
    if trades != [] {
      assert trades == trades[..|trades| - 1] + [trades[|trades| - 1]];
      AllClosedBefore(trades[..|trades| - 1], m);
    }
  }

  /** Managing a bar reads nothing beyond that bar. */
  lemma ManageReadsPrefix(strategy: Strategy, bars: seq<Bar>, m: nat, i: nat, pos: Position, cfg: Config)
    requires i < m <= |bars|
    ensures ManageBar(strategy, bars[..m], i, pos, cfg) == ManageBar(strategy, bars, i, pos, cfg)
  {
    assert bars[..m][..i + 1] == bars[..i + 1];
    assert bars[..m][i] == bars[i];
  }

  /** Looking for an entry reads nothing beyond its fill bar; only a fill past the cut differs. */
  lemma EntryReadsPrefix(strategy: Strategy, bars: seq<Bar>, m: nat, i: nat, cfg: Config)
    requires i < m <= |bars|
    ensures var short, full := TryEnter(strategy, bars[..m], i, cfg), TryEnter(strategy, bars, i, cfg);
            short == full
            || (short == NoEntry(m) && (if full.NoEntry? then full.next >= m else full.fill >= m))
  {
    hide MarketStateAt, OpenAt, VolumeCappedQty;
    assert bars[..m][..i + 1] == bars[..i + 1];
    assert bars[..m][i] == bars[i];
    var fill := i + 1 + cfg.entryDelayBars;
    if fill < m {
      assert bars[..m][fill] == bars[fill];
      OpenAtReadsPrefix(strategy.entry(bars[..i + 1]), bars, m, i, fill,
                        VolumeCappedQty(cfg.nominalQty, bars[fill], cfg), cfg);
    }
  }

  lemma OpenAtReadsPrefix(ev: Evaluation, bars: seq<Bar>, m: nat, i: nat, fill: nat, qty: int, cfg: Config)
    requires i < fill < m <= |bars|
    ensures OpenAt(ev, bars[..m], i, fill, qty, cfg) == OpenAt(ev, bars, i, fill, qty, cfg)
  {
    assert bars[..m][i] == bars[i] && bars[..m][fill] == bars[fill];
  }

  lemma StepReadsPrefix(strategy: Strategy, bars: seq<Bar>, m: nat, cfg: Config, s: Sim)
    requires s.i < m <= |bars|
    ensures var short, full := Step(strategy, bars[..m], cfg, s), Step(strategy, bars, cfg, s);
            short == full || (short == Sim(m + 1, None, s.trades) && full.i >= m && full.trades == s.trades)
  {
    hide ManageBar, TryEnter;
    if s.open.Some? {
      ManageReadsPrefix(strategy, bars, m, s.i, s.open.value, cfg);
    } else {
      EntryReadsPrefix(strategy, bars, m, s.i, cfg);
    }
  }

  lemma {:induction false} PrefixReplay(strategy: Strategy, bars: seq<Bar>, m: nat, cfg: Config, s: Sim)
    requires m <= |bars| && forall t :: t in s.trades ==> LastExitBar(t) < m
    ensures Replay(strategy, bars[..m], cfg, s).trades == ClosedBefore(Replay(strategy, bars, cfg, s).trades, m)
    decreases |bars| - s.i
  {
    hide Step, LastExitBar;
    if s.i >= m {
      LaterTradesCloseLater(strategy, bars, cfg, s, m);
      AllClosedBefore(s.trades, m);
    } else {
      var short, full := Step(strategy, bars[..m], cfg, s), Step(strategy, bars, cfg, s);
      StepReadsPrefix(strategy, bars, m, cfg, s);
      StepTrades(strategy, bars, cfg, s);
      if short == full {
        PrefixReplay(strategy, bars, m, cfg, full);
      } else {
        LaterTradesCloseLater(strategy, bars, cfg, full, m);
        AllClosedBefore(s.trades, m);
      }
    }
  }

  /**
   No look-ahead.  Replaying only the first m bars gives exactly the trades the full replay
   had closed before bar m, although the shorter replay drops signals it cannot fill.
   */
  lemma NoLookAhead(strategy: Strategy, bars: seq<Bar>, m: nat, cfg: Config)
    requires cfg.minBarsRequired <= m <= |bars|
    ensures Backtest(strategy, bars[..m], cfg).trades == ClosedBefore(Backtest(strategy, bars, cfg).trades, m)
  {
    PrefixReplay(strategy, bars, m, cfg, START);
  }

  // --------------------------------------------------- Conservation over a run

  predicate WithinVolume(qty: int, bar: Bar, cfg: Config) {
    1 <= qty <= VolumeCap(bar, cfg)
  }

  function SpreadTotal(es: seq<Exit>, cfg: Config): real {
    if es == [] then 0.0
    else
      var e := es[|es| - 1];
      SpreadTotal(es[..|es| - 1], cfg) + FillCosts(e.quote, e.qty, cfg).spread
  }

  function SlippageTotal(es: seq<Exit>, cfg: Config): real {
    if es == [] then 0.0
    else
      var e := es[|es| - 1];
      SlippageTotal(es[..|es| - 1], cfg) + FillCosts(e.quote, e.qty, cfg).slippage
  }

  function FeeTotal(es: seq<Exit>, cfg: Config): real {
    if es == [] then 0.0
    else
      var e := es[|es| - 1];
      FeeTotal(es[..|es| - 1], cfg) + FillCosts(e.quote, e.qty, cfg).fee
  }

  /** Every exit is a capped sale at the adjusted price, at increasing bars from the entry on. */
  ghost predicate ExitsOk(es: seq<Exit>, entryBar: nat, before: nat, bars: seq<Bar>, cfg: Config) {
    && (forall k :: 0 <= k < |es| ==>
          && entryBar <= es[k].bar < before && es[k].bar < |bars|
          && WithinVolume(es[k].qty, bars[es[k].bar], cfg)
          && es[k].price == AdjustedPrice(es[k].quote, Sell, cfg))
    && (forall j, k :: 0 <= j < k < |es| ==> es[j].bar < es[k].bar)
  }

  /** The books of a position: nothing is lost between what was filled, sold and still held. */
  ghost predicate BooksOk(p: Position, before: nat, bars: seq<Bar>, cfg: Config) {
    && p.signalBar < p.entryBar < |bars|
    && p.filled == p.remaining + SumQty(p.exits)
    && p.remaining >= 0
    && WithinVolume(p.filled, bars[p.entryBar], cfg) && p.filled <= p.requested
    && p.entryQuote == bars[p.entryBar].open && p.signalPrice == bars[p.signalBar].close
    && p.entryPrice == AdjustedPrice(p.entryQuote, Buy, cfg)
    && p.costs.entryDelay == (p.entryQuote - p.signalPrice) * p.filled as real
    && p.costs.spread == FillCosts(p.entryQuote, p.filled, cfg).spread + SpreadTotal(p.exits, cfg)
    && p.costs.slippage == FillCosts(p.entryQuote, p.filled, cfg).slippage + SlippageTotal(p.exits, cfg)
    && p.costs.fee == FillCosts(p.entryQuote, p.filled, cfg).fee + FeeTotal(p.exits, cfg)
    && ExitsOk(p.exits, p.entryBar, before, bars, cfg)
  }

  /** One more exit adds its own quantity and costs to every total. */
  lemma TotalsAppend(es: seq<Exit>, e: Exit, cfg: Config)
    ensures SumQty(es + [e]) == SumQty(es) + e.qty
    ensures var c := FillCosts(e.quote, e.qty, cfg);
            && SpreadTotal(es + [e], cfg) == SpreadTotal(es, cfg) + c.spread
            && SlippageTotal(es + [e], cfg) == SlippageTotal(es, cfg) + c.slippage
            && FeeTotal(es + [e], cfg) == FeeTotal(es, cfg) + c.fee
  {
    hide FillCosts;
    assert (es + [e])[..|es|] == es;
  }

  lemma CappedSale(want: int, bar: Bar, cfg: Config)
    ensures var qty := VolumeCappedQty(want, bar, cfg);
            qty > 0 ==> qty <= want && WithinVolume(qty, bar, cfg)
  {
  }

  lemma ExitsAppend(es: seq<Exit>, e: Exit, entryBar: nat, bars: seq<Bar>, cfg: Config)
    requires e.bar < |bars| && entryBar <= e.bar && ExitsOk(es, entryBar, e.bar, bars, cfg)
    requires WithinVolume(e.qty, bars[e.bar], cfg) && e.price == AdjustedPrice(e.quote, Sell, cfg)
    ensures ExitsOk(es + [e], entryBar, e.bar + 1, bars, cfg)
  {
    hide AdjustedPrice, WithinVolume;
  }

  /** A sale of no more than is held keeps the books. */
  lemma SaleKeepsBooks(pos: Position, want: int, bars: seq<Bar>, i: nat, quote: real, reason: Reason, cfg: Config)
    requires i < |bars| && BooksOk(pos, i, bars, cfg) && pos.entryBar <= i && want <= pos.remaining
    ensures var after := SellUpTo(pos, want, bars, i, quote, reason, cfg);
            BooksOk(after, i + 1, bars, cfg) && (after == pos || after.remaining < pos.remaining)
  {
    hide VolumeCappedQty, AdjustedPrice, FillCosts, WithinVolume, ExitsOk, SumQty, SpreadTotal, SlippageTotal, FeeTotal;
    var qty := VolumeCappedQty(want, bars[i], cfg);
    CappedSale(want, bars[i], cfg);
    if qty > 0 {
      var e := Exit(i, quote, AdjustedPrice(quote, Sell, cfg), qty, reason);
      TotalsAppend(pos.exits, e, cfg);
      ExitsAppend(pos.exits, e, pos.entryBar, bars, cfg);
      NoEntryDelayOnExit(quote, qty, cfg);
    } else {
      BooksLater(pos, i, bars, cfg);
    }
  }

  lemma NoEntryDelayOnExit(quote: real, qty: int, cfg: Config)
    ensures FillCosts(quote, qty, cfg).entryDelay == 0.0
  {
  }

  lemma RoundNeverExceeds(x: real, n: int)
    requires x <= n as real
    ensures RoundHalfEven(x) <= n
  {
  }

  lemma ScaledDown(n: int, f: real)
    requires n >= 0 && f <= 1.0
    ensures n as real * f <= n as real
  {
  }

  lemma ScaledUp(n: int, f: real)
    requires n >= 1 && f > 1.0 && n as real * (f - 1.0) >= 1.0
    ensures RoundHalfEven(n as real * f) >= n + 1
  {
    assert n as real * f == n as real * (f - 1.0) + n as real;
  }

  /** A share count that a fraction above one rounds past. */
  lemma LargeEnough(f: real) returns (n: int)
    requires f > 1.0
    ensures n >= 1 && n as real * (f - 1.0) >= 1.0
  {
    var d := f - 1.0;
    n := (1.0 / d).Floor + 1;
    assert n as real >= 1.0 / d;
    assert n as real * d >= (1.0 / d) * d;
  }

  /**
   The partial exit never wants more than is held exactly when its configured fraction is at
   most one; the source takes the fraction from the environment without checking it.
   */
  lemma PartialExitFitsIffFractionAtMostOne(cfg: Config)
    ensures (forall n: int :: n >= 1 ==> PartialQty(n, cfg) <= n) <==> cfg.partialFraction <= 1.0
  {
    hide PartialQty;
    if cfg.partialFraction <= 1.0 {
      forall n: int | n >= 1 ensures PartialQty(n, cfg) <= n {
        SmallFractionFits(n, cfg);
      }
    } else {
      var n := LargeEnough(cfg.partialFraction);
      LargeFractionOversells(n, cfg);
    }
  }

  lemma SmallFractionFits(n: int, cfg: Config)
    requires n >= 1 && cfg.partialFraction <= 1.0
    ensures PartialQty(n, cfg) <= n
  {
    ScaledDown(n, cfg.partialFraction);
    RoundNeverExceeds(n as real * cfg.partialFraction, n);
  }

  lemma LargeFractionOversells(n: int, cfg: Config)
    requires n >= 1 && cfg.partialFraction > 1.0 && n as real * (cfg.partialFraction - 1.0) >= 1.0
    ensures PartialQty(n, cfg) > n
  {
    ScaledUp(n, cfg.partialFraction);
  }

  /** One managed bar keeps the books, and leaves shares exactly when the position stays open. */
  lemma ManageKeepsBooks(strategy: Strategy, bars: seq<Bar>, i: nat, pos: Position, cfg: Config)
    requires i < |bars| && BooksOk(pos, i, bars, cfg) && pos.entryBar <= i && pos.remaining >= 1
    requires cfg.partialFraction <= 1.0
    ensures var m := ManageBar(strategy, bars, i, pos, cfg);
            BooksOk(m.position, i + 1, bars, cfg) && m.position.entryBar == pos.entryBar
            && m.position.signalBar == pos.signalBar
            && (m.closed.Some? <==> m.position.remaining == 0)
  {
    hide BooksOk, ExitsOk;
    var bar := bars[i];
    PartialExitFitsIffFractionAtMostOne(cfg);
    BooksLater(pos, i, bars, cfg);
    SaleKeepsBooks(pos, pos.remaining, bars, i, bar.open, EodForcedClose, cfg);
    SaleKeepsBooks(pos, pos.remaining, bars, i, bar.open, TimeStop, cfg);
    SaleKeepsBooks(pos, pos.remaining, bars, i, bar.close, StrategyInvalidation, cfg);
    SaleKeepsBooks(pos, pos.remaining, bars, i, pos.stop, StopLoss, cfg);
    SaleKeepsBooks(pos, pos.remaining, bars, i, pos.target2, Target2, cfg);
    SaleKeepsBooks(pos, PartialQty(pos.remaining, cfg), bars, i, pos.target1, PartialTarget1, cfg);
    var sold := SellUpTo(pos, PartialQty(pos.remaining, cfg), bars, i, pos.target1, PartialTarget1, cfg);
    FlagKeepsBooks(sold, i + 1, bars, cfg);
  }

  lemma BooksLater(p: Position, i: nat, bars: seq<Bar>, cfg: Config)
    requires BooksOk(p, i, bars, cfg)
    ensures BooksOk(p, i + 1, bars, cfg) && p.remaining >= 0
  {
  }

  lemma FlagKeepsBooks(p: Position, i: nat, bars: seq<Bar>, cfg: Config)
    requires BooksOk(p, i, bars, cfg)
    ensures BooksOk(p.(partialExited := true), i, bars, cfg) && p.remaining >= 0
  {
    hide ExitsOk;
  }

  /** A closed trade: its exits sum to what was filled, and it is the finalized position. */
  ghost predicate TradeOk(t: Trade, bars: seq<Bar>, cfg: Config) {
    && BooksOk(t.position, |bars|, bars, cfg)
    && t.position.remaining == 0
    && t == FinalizeTrade(t.position, t.exitReason)
  }

  /** The loop's state: good books everywhere, and every trade over before the next one's signal. */
  ghost predicate SimOk(s: Sim, bars: seq<Bar>, cfg: Config) {
    && (forall k :: 0 <= k < |s.trades| ==> TradeOk(s.trades[k], bars, cfg))
    && (forall j, k :: 0 <= j < k < |s.trades| ==> LastExitBar(s.trades[j]) < s.trades[k].position.signalBar)
    && (forall k :: 0 <= k < |s.trades| ==> LastExitBar(s.trades[k]) < s.i)
    && (s.open.Some? ==>
          var p := s.open.value;
          && BooksOk(p, s.i, bars, cfg) && p.entryBar <= s.i && p.remaining >= 1
          && (forall k :: 0 <= k < |s.trades| ==> LastExitBar(s.trades[k]) < p.signalBar))
  }

  lemma BooksUpTo(p: Position, i: nat, bars: seq<Bar>, cfg: Config)
    requires BooksOk(p, i, bars, cfg)
    ensures BooksOk(p, |bars|, bars, cfg)
  {
  }

  lemma OpeningBooks(ev: Evaluation, bars: seq<Bar>, i: nat, fill: nat, cfg: Config)
    requires i < fill < |bars|
    requires VolumeCappedQty(cfg.nominalQty, bars[fill], cfg) >= 1
    ensures var p := OpenAt(ev, bars, i, fill, VolumeCappedQty(cfg.nominalQty, bars[fill], cfg), cfg);
            BooksOk(p, fill, bars, cfg) && p.entryBar == fill && p.signalBar == i && p.remaining >= 1
  {
    hide VolumeCappedQty, WithinVolume, AdjustedPrice;
    CappedSale(cfg.nominalQty, bars[fill], cfg);
  }

  lemma EntryKeepsBooks(strategy: Strategy, bars: seq<Bar>, i: nat, cfg: Config)
    requires i < |bars|
    ensures var e := TryEnter(strategy, bars, i, cfg);
            e.Entered? ==> BooksOk(e.position, e.fill, bars, cfg) && e.position.entryBar == e.fill
                           && e.position.signalBar == i && e.position.remaining >= 1
  {
    hide BooksOk, MarketStateAt, OpenAt, VolumeCappedQty;
    var fill := i + 1 + cfg.entryDelayBars;
    if fill < |bars| && VolumeCappedQty(cfg.nominalQty, bars[fill], cfg) >= 1 {
      OpeningBooks(strategy.entry(bars[..i + 1]), bars, i, fill, cfg);
    }
  }

  lemma StepKeepsSim(strategy: Strategy, bars: seq<Bar>, cfg: Config, s: Sim)
    requires s.i < |bars| && SimOk(s, bars, cfg) && cfg.partialFraction <= 1.0
    ensures SimOk(Step(strategy, bars, cfg, s), bars, cfg)
  {
    hide BooksOk, ManageBar, TryEnter, LastExitBar, FinalizeTrade;
    match s.open
    case None =>
      EntryKeepsBooks(strategy, bars, s.i, cfg);
    case Some(p) =>
      ManageKeepsBooks(strategy, bars, s.i, p, cfg);
      ClosingFillIsAtThisBar(strategy, bars, s.i, p, cfg);
      var m := ManageBar(strategy, bars, s.i, p, cfg);
      BooksNonNegative(m.position, s.i + 1, bars, cfg);
      if m.closed.Some? {
        BooksUpTo(m.position, s.i + 1, bars, cfg);
        FinalizeIsStable(m.position, m.closed.value);
      }
  }

  lemma BooksNonNegative(p: Position, i: nat, bars: seq<Bar>, cfg: Config)
    requires BooksOk(p, i, bars, cfg)
    ensures p.remaining >= 0
  {
  }

  lemma FinalizeIsStable(p: Position, reason: Reason)
    ensures var t := FinalizeTrade(p, reason);
            t.position == p && t == FinalizeTrade(t.position, t.exitReason)
  {
  }

  /** Every state of every replay keeps its books, for any strategy and any bars. */
  lemma {:induction false} ReplayConserves(strategy: Strategy, bars: seq<Bar>, cfg: Config, s: Sim)
    requires SimOk(s, bars, cfg) && cfg.partialFraction <= 1.0
    ensures SimOk(Replay(strategy, bars, cfg, s), bars, cfg)
    decreases |bars| - s.i
  {
    hide SimOk, Step;
    if s.i < |bars| {
      StepKeepsSim(strategy, bars, cfg, s);
      ReplayConserves(strategy, bars, cfg, Step(strategy, bars, cfg, s));
    }
  }

  /**
   Every backtest: each trade's exits sum to its filled quantity, every fill is within its
   bar's volume cap, and each trade is over before the next trade's signal.
   */
  lemma BacktestConserves(strategy: Strategy, bars: seq<Bar>, cfg: Config)
    requires cfg.partialFraction <= 1.0
    ensures var trades := Backtest(strategy, bars, cfg).trades;
            && (forall k :: 0 <= k < |trades| ==>
                  TradeOk(trades[k], bars, cfg)
                  && SumQty(trades[k].position.exits) == trades[k].position.filled)
            && (forall j, k :: 0 <= j < k < |trades| ==> LastExitBar(trades[j]) < trades[k].position.signalBar)
  {
    hide LastExitBar, FinalizeTrade;
    ReplayConserves(strategy, bars, cfg, START);
  }

  // ------------------------------------------------------------ Profit and loss

  function Value(quote: real, qty: int): real {
    quote * qty as real
  }

  function SumQuotes(es: seq<Exit>): real {
    if es == [] then 0.0 else SumQuotes(es[..|es| - 1]) + Value(es[|es| - 1].quote, es[|es| - 1].qty)
  }

  function Friction(cfg: Config): real {
    SpreadFraction(cfg) + SlippageFraction(cfg)
  }

  /** The profit of the same fills against some reference price, with no spread, slippage or fee. */
  function QuotedPnl(p: Position, reference: real): real {
    SumQuotes(p.exits) - reference * SumQty(p.exits) as real
  }

  lemma ScaleOne(quote: real, qty: real, x: real)
    ensures quote * (1.0 - x) * qty == quote * qty - x * (quote * qty)
  {
    assert quote * (1.0 - x) == quote - x * quote;
  }

  lemma SellPrice(quote: real, cfg: Config)
    ensures AdjustedPrice(quote, Sell, cfg) == quote * (1.0 - Friction(cfg))
    ensures AdjustedPrice(quote, Buy, cfg) == quote * (1.0 + Friction(cfg))
  {
  }

  /** Selling at adjusted prices gives up the friction fraction of the quoted proceeds. */
  lemma {:induction false} ExitProceeds(es: seq<Exit>, entryBar: nat, before: nat, bars: seq<Bar>, cfg: Config)
    requires ExitsOk(es, entryBar, before, bars, cfg)
    ensures SumValue(es) == SumQuotes(es) - Friction(cfg) * SumQuotes(es)
  {
    hide AdjustedPrice, Friction, WithinVolume;
    if es != [] {
      var rest, e := es[..|es| - 1], es[|es| - 1];
      ExitProceeds(rest, entryBar, before, bars, cfg);
      SellPrice(e.quote, cfg);
      ScaleOne(e.quote, e.qty as real, Friction(cfg));
      Distribute(Friction(cfg), SumQuotes(rest), e.quote * e.qty as real);
    }
  }

  lemma Distribute(x: real, y: real, z: real)
    ensures x * (y + z) == x * y + x * z
  {
  }

  /** Fees are charged per share on both sides. */
  lemma {:induction false} FeesPerShare(es: seq<Exit>, cfg: Config)
    ensures FeeTotal(es, cfg) == cfg.feePerShare * SumQty(es) as real
  {
    if es != [] {
      FeesPerShare(es[..|es| - 1], cfg);
      Distribute(cfg.feePerShare, SumQty(es[..|es| - 1]) as real, es[|es| - 1].qty as real);
    }
  }

  /**
   The exact gap between the frictionless profit of a trade's fills and what it realized, for
   any prices and any signs: the friction fraction of everything bought and sold, plus two
   fees for every share.
   */
  lemma RealizedPnlGap(t: Trade, bars: seq<Bar>, cfg: Config)
    requires TradeOk(t, bars, cfg)
    ensures var p := t.position;
            QuotedPnl(p, p.entryQuote) - t.realizedPnl
            == Friction(cfg) * (p.entryQuote * p.filled as real + SumQuotes(p.exits))
               + 2.0 * (cfg.feePerShare * p.filled as real)
  {
    hide AdjustedPrice, Friction, ExitsOk, WithinVolume;
    var p := t.position;
    var q := p.filled as real;
    ExitProceeds(p.exits, p.entryBar, |bars|, bars, cfg);
    FeesPerShare(p.exits, cfg);
    SellPrice(p.entryQuote, cfg);
    ScaleOne(p.entryQuote, q, -Friction(cfg));
    Distribute(Friction(cfg), p.entryQuote * q, SumQuotes(p.exits));
  }

  function Times(f: real, x: real): real {
    f * x
  }

  lemma TimesAdds(f: real, x: real, y: real)
    ensures Times(f, 0.0) == 0.0 && Times(f, x + y) == Times(f, x) + Times(f, y)
  {
  }

  lemma NonNegativeCost(quote: real, f: real, qty: int)
    requires quote >= 0.0 && f >= 0.0
    ensures Abs(quote * f) * qty as real == Times(f, Value(quote, qty))
  {
    assert quote * f >= 0.0;
  }

  /** The two friction lines of one fill, as fractions of its quoted value. */
  lemma FillFriction(quote: real, qty: int, cfg: Config)
    requires cfg.spreadBps >= 0.0 && cfg.slippageBps >= 0.0 && quote >= 0.0
    ensures FillCosts(quote, qty, cfg).spread == Times(SpreadFraction(cfg), Value(quote, qty))
    ensures FillCosts(quote, qty, cfg).slippage == Times(SlippageFraction(cfg), Value(quote, qty))
  {
    FractionsNonNegative(cfg);
    NonNegativeCost(quote, SpreadFraction(cfg), qty);
    NonNegativeCost(quote, SlippageFraction(cfg), qty);
    hide SpreadFraction, SlippageFraction, Times, Abs, Value;
  }

  /** The friction totals of one more exit, as fractions of its quoted value. */
  lemma CostStep(es: seq<Exit>, cfg: Config)
    requires es != [] && cfg.spreadBps >= 0.0 && cfg.slippageBps >= 0.0 && es[|es| - 1].quote >= 0.0
    ensures var rest, e := es[..|es| - 1], es[|es| - 1];
            var value := Value(e.quote, e.qty);
            && SumQuotes(es) == SumQuotes(rest) + value
            && SpreadTotal(es, cfg) == SpreadTotal(rest, cfg) + Times(SpreadFraction(cfg), value)
            && SlippageTotal(es, cfg) == SlippageTotal(rest, cfg) + Times(SlippageFraction(cfg), value)
  {
    hide SpreadFraction, SlippageFraction, Times, FillCosts, Value;
    var e := es[|es| - 1];
    FillFriction(e.quote, e.qty, cfg);
  }

  lemma {:induction false} CostTotals(es: seq<Exit>, cfg: Config)
    requires cfg.spreadBps >= 0.0 && cfg.slippageBps >= 0.0
    requires forall k :: 0 <= k < |es| ==> es[k].quote >= 0.0
    ensures SpreadTotal(es, cfg) == Times(SpreadFraction(cfg), SumQuotes(es))
    ensures SlippageTotal(es, cfg) == Times(SlippageFraction(cfg), SumQuotes(es))
  {
    hide SpreadFraction, SlippageFraction, Times;
    if es == [] {
      TimesAdds(SpreadFraction(cfg), 0.0, 0.0);
      TimesAdds(SlippageFraction(cfg), 0.0, 0.0);
    } else {
      hide *;
      var rest, e := es[..|es| - 1], es[|es| - 1];
      var value := Value(e.quote, e.qty);
      CostTotals(rest, cfg);
      CostStep(es, cfg);
      TimesAdds(SpreadFraction(cfg), SumQuotes(rest), value);
      TimesAdds(SlippageFraction(cfg), SumQuotes(rest), value);
      assert SumQuotes(es) == SumQuotes(rest) + value;
      assert SpreadTotal(es, cfg) == Times(SpreadFraction(cfg), SumQuotes(rest) + value);
      assert SlippageTotal(es, cfg) == Times(SlippageFraction(cfg), SumQuotes(rest) + value);
    }
  }

  lemma FractionsNonNegative(cfg: Config)
    requires cfg.spreadBps >= 0.0 && cfg.slippageBps >= 0.0
    ensures SpreadFraction(cfg) >= 0.0 && SlippageFraction(cfg) >= 0.0
  {
  }

  lemma FrictionNonNegative(cfg: Config, turnover: real)
    requires cfg.spreadBps >= 0.0 && cfg.slippageBps >= 0.0 && turnover >= 0.0
    ensures Friction(cfg) * turnover >= 0.0
  {
    FractionsNonNegative(cfg);
  }

  lemma FeeNonNegative(fee: real, qty: int)
    requires qty >= 1
    ensures fee >= 0.0 ==> fee * qty as real >= 0.0
  {
  }

  lemma FrictionSplit(cfg: Config, turnover: real)
    ensures Friction(cfg) * turnover == Times(SpreadFraction(cfg), turnover) + Times(SlippageFraction(cfg), turnover)
  {
  }

  lemma FrictionCosts(p: Position, bars: seq<Bar>, cfg: Config)
    requires BooksOk(p, |bars|, bars, cfg)
    requires cfg.spreadBps >= 0.0 && cfg.slippageBps >= 0.0 && p.entryQuote >= 0.0
    requires forall k :: 0 <= k < |p.exits| ==> p.exits[k].quote >= 0.0
    ensures var turnover := Value(p.entryQuote, p.filled) + SumQuotes(p.exits);
            p.costs.spread + p.costs.slippage == Friction(cfg) * turnover
  {
    hide AdjustedPrice, Friction, ExitsOk, WithinVolume, SpreadFraction, SlippageFraction, Times, FillCosts;
    hide SpreadTotal, SlippageTotal, SumQuotes, Value;
    var bought := Value(p.entryQuote, p.filled);
    CostTotals(p.exits, cfg);
    FillFriction(p.entryQuote, p.filled, cfg);
    TimesAdds(SpreadFraction(cfg), bought, SumQuotes(p.exits));
    TimesAdds(SlippageFraction(cfg), bought, SumQuotes(p.exits));
    FrictionSplit(cfg, bought + SumQuotes(p.exits));
  }

  lemma FeeCosts(p: Position, bars: seq<Bar>, cfg: Config)
    requires BooksOk(p, |bars|, bars, cfg)
    ensures p.costs.fee == 2.0 * (cfg.feePerShare * p.filled as real) - cfg.feePerShare * p.remaining as real
  {
    hide AdjustedPrice, ExitsOk, WithinVolume, SpreadFraction, SlippageFraction;
    FeesPerShare(p.exits, cfg);
  }

  /**
   The cost lines reconcile.  With quotes and basis points that are not negative, realized
   profit plus the reported spread, slippage and fees is the frictionless profit of the same
   fills; adding the entry delay gives the profit measured from the signal's own close.
   */
  lemma CostLinesReconcile(t: Trade, bars: seq<Bar>, cfg: Config)
    requires TradeOk(t, bars, cfg)
    requires cfg.spreadBps >= 0.0 && cfg.slippageBps >= 0.0 && t.position.entryQuote >= 0.0
    requires forall k :: 0 <= k < |t.position.exits| ==> t.position.exits[k].quote >= 0.0
    ensures var p, c := t.position, t.position.costs;
            && QuotedPnl(p, p.entryQuote) == t.realizedPnl + c.spread + c.slippage + c.fee
            && QuotedPnl(p, p.signalPrice) == t.realizedPnl + c.spread + c.slippage + c.fee + c.entryDelay
    ensures cfg.feePerShare >= 0.0 ==> t.realizedPnl <= QuotedPnl(t.position, t.position.entryQuote)
  {
    hide AdjustedPrice, Friction, ExitsOk, FinalizeTrade;
    var p := t.position;
    RealizedPnlGap(t, bars, cfg);
    FrictionCosts(p, bars, cfg);
    FeeCosts(p, bars, cfg);
    TurnoverNonNegative(p, bars, cfg);
    FrictionNonNegative(cfg, p.entryQuote * p.filled as real + SumQuotes(p.exits));
    Distribute(p.filled as real, p.entryQuote, -p.signalPrice);
    FeeNonNegative(cfg.feePerShare, p.filled);
  }

  lemma TurnoverNonNegative(p: Position, bars: seq<Bar>, cfg: Config)
    requires BooksOk(p, |bars|, bars, cfg) && p.entryQuote >= 0.0
    requires forall k :: 0 <= k < |p.exits| ==> p.exits[k].quote >= 0.0
    ensures p.entryQuote * p.filled as real + SumQuotes(p.exits) >= 0.0
  {
    hide AdjustedPrice;
    QuotesNonNegative(p.exits);
  }

  lemma {:induction false} QuotesNonNegative(es: seq<Exit>)
    requires forall k :: 0 <= k < |es| ==> es[k].quote >= 0.0 && es[k].qty >= 0
    ensures SumQuotes(es) >= 0.0
  {
    if es != [] {
      QuotesNonNegative(es[..|es| - 1]);
    }
  }

  // ------------------------------------------------------- The first target

  /** No earlier exit rule fires at the bar, and it reaches the first target. */
  predicate Touches(strategy: Strategy, bars: seq<Bar>, a: nat, p: Position, cfg: Config)
    requires a < |bars|
  {
    && !PastEodCutoff(bars[a], cfg) && bars[a].time - p.entryTime < 60 * cfg.maxHoldMinutes
    && !strategy.invalidate(bars[..a + 1]) && bars[a].low > p.stop && bars[a].high >= p.target1
  }

  predicate HasReason(es: seq<Exit>, reason: Reason) {
    exists k :: 0 <= k < |es| && es[k].reason == reason
  }

  /**
   The partial-exit flag is set by the bar that touches the first target and by no other; that
   bar sells nothing if and only if its volume allows nothing, and the flag is set all the same.
   */
  lemma FlagIsSetByTouching(strategy: Strategy, bars: seq<Bar>, i: nat, pos: Position, cfg: Config)
    requires i < |bars| && !pos.partialExited
    ensures var m := ManageBar(strategy, bars, i, pos, cfg);
            && (m.position.partialExited <==> Touches(strategy, bars, i, pos, cfg))
            && (Touches(strategy, bars, i, pos, cfg) ==>
                  (m.position.exits == pos.exits <==> VolumeCap(bars[i], cfg) <= 0)
                  && (m.position == pos.(partialExited := true) <==> VolumeCap(bars[i], cfg) <= 0))
  {
    hide AdjustedPrice, FillCosts, RoundHalfEven;
  }

  /** The first bar of a position's life that touches the first target. */
  ghost predicate FirstTouch(strategy: Strategy, bars: seq<Bar>, p: Position, cfg: Config, a: nat) {
    && p.entryBar <= a < |bars| && Touches(strategy, bars, a, p, cfg)
    && forall b: nat :: p.entryBar <= b < a ==> !Touches(strategy, bars, b, p, cfg)
  }

  ghost predicate TouchedBefore(strategy: Strategy, bars: seq<Bar>, p: Position, cfg: Config, before: int) {
    exists a: nat :: a < before && FirstTouch(strategy, bars, p, cfg, a)
  }

  ghost predicate SoldAtFirstTouch(strategy: Strategy, bars: seq<Bar>, p: Position, cfg: Config, before: int) {
    exists a: nat :: a < before && FirstTouch(strategy, bars, p, cfg, a) && VolumeCap(bars[a], cfg) > 0
  }

  /** What the flag and the exits say about the bars lived through. */
  ghost predicate FlagOk(strategy: Strategy, bars: seq<Bar>, p: Position, cfg: Config, before: int) {
    && (p.partialExited <==> TouchedBefore(strategy, bars, p, cfg, before))
    && (HasReason(p.exits, PartialTarget1) <==> SoldAtFirstTouch(strategy, bars, p, cfg, before))
    && (forall k :: 0 <= k < |p.exits| && p.exits[k].reason == Target2
                    ==> TouchedBefore(strategy, bars, p, cfg, p.exits[k].bar))
  }

  /** The position before and after a bar lives under the same entry, stop and target. */
  predicate SameLife(p: Position, q: Position) {
    p.entryBar == q.entryBar && p.entryTime == q.entryTime && p.stop == q.stop && p.target1 == q.target1
  }

  lemma TouchFrame(strategy: Strategy, bars: seq<Bar>, p: Position, q: Position, cfg: Config, before: int)
    requires SameLife(p, q)
    ensures TouchedBefore(strategy, bars, p, cfg, before) <==> TouchedBefore(strategy, bars, q, cfg, before)
    ensures SoldAtFirstTouch(strategy, bars, p, cfg, before) <==> SoldAtFirstTouch(strategy, bars, q, cfg, before)
  {
    hide VolumeCap;
    forall b: nat | b < |bars| ensures Touches(strategy, bars, b, p, cfg) <==> Touches(strategy, bars, b, q, cfg) {
    }
    hide Touches;
    forall a: nat ensures FirstTouch(strategy, bars, p, cfg, a) <==> FirstTouch(strategy, bars, q, cfg, a) {
    }
  }

  /** What one bar does to the flag and the exits. */
  lemma ManagedExits(strategy: Strategy, bars: seq<Bar>, i: nat, pos: Position, cfg: Config)
    requires i < |bars|
    ensures var q := ManageBar(strategy, bars, i, pos, cfg).position;
            var first := !pos.partialExited && Touches(strategy, bars, i, pos, cfg);
            && SameLife(pos, q)
            && (q.partialExited <==> pos.partialExited || first)
            && |pos.exits| <= |q.exits| <= |pos.exits| + 1 && pos.exits <= q.exits
            && (first ==> (|q.exits| == |pos.exits| + 1 <==> VolumeCap(bars[i], cfg) > 0))
            && (|q.exits| == |pos.exits| + 1 ==>
                  var e := q.exits[|pos.exits|];
                  e.bar == i && (e.reason == PartialTarget1 <==> first) && (e.reason == Target2 ==> pos.partialExited))
  {
    hide AdjustedPrice, FillCosts, RoundHalfEven;
  }

  lemma TouchedOneMore(strategy: Strategy, bars: seq<Bar>, p: Position, cfg: Config, i: nat)
    requires p.entryBar <= i < |bars|
    requires var first := !TouchedBefore(strategy, bars, p, cfg, i) && Touches(strategy, bars, i, p, cfg);
             first ==> forall b: nat :: p.entryBar <= b < i ==> !Touches(strategy, bars, b, p, cfg)
    ensures var first := !TouchedBefore(strategy, bars, p, cfg, i) && Touches(strategy, bars, i, p, cfg);
            && (TouchedBefore(strategy, bars, p, cfg, i + 1) <==> TouchedBefore(strategy, bars, p, cfg, i) || first)
            && (SoldAtFirstTouch(strategy, bars, p, cfg, i + 1)
                <==> SoldAtFirstTouch(strategy, bars, p, cfg, i) || (first && VolumeCap(bars[i], cfg) > 0))
  {
    hide VolumeCap, Touches;
    var first := !TouchedBefore(strategy, bars, p, cfg, i) && Touches(strategy, bars, i, p, cfg);
    assert first ==> FirstTouch(strategy, bars, p, cfg, i);
    forall a: nat | a < i && FirstTouch(strategy, bars, p, cfg, a) ensures !FirstTouch(strategy, bars, p, cfg, i) {
    }
  }

  /** If no bar was the first to touch, none touched. */
  lemma {:induction false} NoFirstNoTouch(strategy: Strategy, bars: seq<Bar>, p: Position, cfg: Config, i: nat, b: nat)
    requires p.entryBar <= b < i <= |bars| && !TouchedBefore(strategy, bars, p, cfg, i)
    ensures !Touches(strategy, bars, b, p, cfg)
    decreases b
  {
    hide Touches;
    forall c: nat | p.entryBar <= c < b ensures !Touches(strategy, bars, c, p, cfg) {
      NoFirstNoTouch(strategy, bars, p, cfg, i, c);
    }
    assert !FirstTouch(strategy, bars, p, cfg, b);
  }

  /** One bar keeps the account of the first target. */
  lemma ManageKeepsFlag(strategy: Strategy, bars: seq<Bar>, i: nat, pos: Position, cfg: Config)
    requires i < |bars| && pos.entryBar <= i && FlagOk(strategy, bars, pos, cfg, i)
    ensures FlagOk(strategy, bars, ManageBar(strategy, bars, i, pos, cfg).position, cfg, i + 1)
  {
    var q := ManageBar(strategy, bars, i, pos, cfg).position;
    ManagedExits(strategy, bars, i, pos, cfg);
    hide ManageBar, Touches, VolumeCap, FirstTouch;
    if !TouchedBefore(strategy, bars, pos, cfg, i) {
      forall b: nat | pos.entryBar <= b < i ensures !Touches(strategy, bars, b, pos, cfg) {
        NoFirstNoTouch(strategy, bars, pos, cfg, i, b);
      }
    }
    TouchedOneMore(strategy, bars, pos, cfg, i);
    TouchFrame(strategy, bars, pos, q, cfg, i + 1);
    ExitReasons(pos.exits, q.exits);
    hide TouchedBefore, SoldAtFirstTouch, HasReason;
    forall k | 0 <= k < |q.exits| && q.exits[k].reason == Target2
      ensures TouchedBefore(strategy, bars, q, cfg, q.exits[k].bar)
    {
      TouchFrame(strategy, bars, pos, q, cfg, q.exits[k].bar);
      if k < |pos.exits| {
        assert q.exits[k] == pos.exits[k];
      }
    }
  }

  lemma ExitReasons(es: seq<Exit>, more: seq<Exit>)
    requires es <= more && |more| <= |es| + 1
    ensures HasReason(more, PartialTarget1)
            <==> HasReason(es, PartialTarget1) || (|more| > |es| && more[|es|].reason == PartialTarget1)
  {
    if HasReason(es, PartialTarget1) {
      var k :| 0 <= k < |es| && es[k].reason == PartialTarget1;
      assert more[k] == es[k];
    }
    if HasReason(more, PartialTarget1) {
      var k :| 0 <= k < |more| && more[k].reason == PartialTarget1;
      assert k < |es| ==> es[k] == more[k];
    }
  }

  /** Every trade, and the open position, account for the first target. */
  ghost predicate FlagsOk(strategy: Strategy, bars: seq<Bar>, cfg: Config, s: Sim) {
    && (forall k :: 0 <= k < |s.trades| ==>
          FlagOk(strategy, bars, s.trades[k].position, cfg, LastExitBar(s.trades[k]) + 1))
    && (s.open.Some? ==> s.open.value.entryBar <= s.i && FlagOk(strategy, bars, s.open.value, cfg, s.i))
  }

  lemma EntryFlag(strategy: Strategy, bars: seq<Bar>, i: nat, cfg: Config)
    requires i < |bars|
    ensures var e := TryEnter(strategy, bars, i, cfg);
            e.Entered? ==> e.position.entryBar == e.fill && FlagOk(strategy, bars, e.position, cfg, e.fill)
  {
    hide Touches, VolumeCap, MarketStateAt, AdjustedPrice, FillCosts;
  }

  lemma StepKeepsFlags(strategy: Strategy, bars: seq<Bar>, cfg: Config, s: Sim)
    requires s.i < |bars| && FlagsOk(strategy, bars, cfg, s)
    ensures FlagsOk(strategy, bars, cfg, Step(strategy, bars, cfg, s))
  {
    hide FlagOk, ManageBar, TryEnter, LastExitBar, FinalizeTrade;
    match s.open
    case None =>
      EntryFlag(strategy, bars, s.i, cfg);
    case Some(p) =>
      ManageKeepsFlag(strategy, bars, s.i, p, cfg);
      ManageKeepsEntry(strategy, bars, s.i, p, cfg);
      ClosingFillIsAtThisBar(strategy, bars, s.i, p, cfg);
      var m := ManageBar(strategy, bars, s.i, p, cfg);
      if m.closed.Some? {
        FinalizeIsStable(m.position, m.closed.value);
      }
  }

  lemma ManageKeepsEntry(strategy: Strategy, bars: seq<Bar>, i: nat, pos: Position, cfg: Config)
    requires i < |bars|
    ensures ManageBar(strategy, bars, i, pos, cfg).position.entryBar == pos.entryBar
  {
    ManagedExits(strategy, bars, i, pos, cfg);
    hide ManageBar;
  }

  lemma {:induction false} ReplayKeepsFlags(strategy: Strategy, bars: seq<Bar>, cfg: Config, s: Sim)
    requires FlagsOk(strategy, bars, cfg, s)
    ensures FlagsOk(strategy, bars, cfg, Replay(strategy, bars, cfg, s))
    decreases |bars| - s.i
  {
    hide FlagsOk, Step;
    if s.i < |bars| {
      StepKeepsFlags(strategy, bars, cfg, s);
      ReplayKeepsFlags(strategy, bars, cfg, Step(strategy, bars, cfg, s));
    }
  }

  /** The shares sold under one exit reason. */
  function QtyFor(es: seq<Exit>, reason: Reason): int {
    if es == [] then 0
    else QtyFor(es[..|es| - 1], reason) + (if es[|es| - 1].reason == reason then es[|es| - 1].qty else 0)
  }

  lemma {:induction false} QtyForIsPositiveIff(es: seq<Exit>, reason: Reason)
    requires forall k :: 0 <= k < |es| ==> es[k].qty >= 1
    ensures 0 <= QtyFor(es, reason) <= SumQty(es)
    ensures QtyFor(es, reason) > 0 <==> HasReason(es, reason)
    ensures QtyFor(es, reason) == SumQty(es) <==> forall k :: 0 <= k < |es| ==> es[k].reason == reason
  {
    if es != [] {
      QtyForIsPositiveIff(es[..|es| - 1], reason);
    }
  }

  /**
   Over every backtest, a trade sells at the first target if and only if the first bar that
   touched it had volume to sell into, although the flag is set by that bar either way; and the
   second target is only ever taken after that bar.
   */
  lemma FirstTargetIsSoldIff(strategy: Strategy, bars: seq<Bar>, cfg: Config, k: nat, a: nat)
    requires k < |Backtest(strategy, bars, cfg).trades|
    requires var t := Backtest(strategy, bars, cfg).trades[k];
             a <= LastExitBar(t) && FirstTouch(strategy, bars, t.position, cfg, a)
    ensures var p := Backtest(strategy, bars, cfg).trades[k].position;
            && p.partialExited
            && (HasReason(p.exits, PartialTarget1) <==> VolumeCap(bars[a], cfg) > 0)
            && (forall e :: 0 <= e < |p.exits| && p.exits[e].reason == Target2 ==> a < p.exits[e].bar)
  {
    hide LastExitBar, Touches, VolumeCap;
    NoFlagsYet(strategy, bars, cfg);
    ReplayKeepsFlags(strategy, bars, cfg, START);
    hide Replay;
    var t := Backtest(strategy, bars, cfg).trades[k];
    hide Backtest;
    FirstTouchDecides(strategy, bars, t.position, cfg, LastExitBar(t) + 1, a);
  }

  /** After too thin a first touch, every filled share is left to the second target and the other exit rules. */
  lemma ThinFirstTouchSellsAllElsewhere(strategy: Strategy, bars: seq<Bar>, cfg: Config, k: nat, a: nat)
    requires cfg.partialFraction <= 1.0 && k < |Backtest(strategy, bars, cfg).trades|
    requires var t := Backtest(strategy, bars, cfg).trades[k];
             a <= LastExitBar(t) && FirstTouch(strategy, bars, t.position, cfg, a)
    ensures var p := Backtest(strategy, bars, cfg).trades[k].position;
            && 0 <= QtyFor(p.exits, PartialTarget1) <= p.filled
            && (QtyFor(p.exits, PartialTarget1) == 0 <==> VolumeCap(bars[a], cfg) <= 0)
  {
    hide LastExitBar, Touches, VolumeCap, FinalizeTrade, AdjustedPrice, Replay;
    BacktestConserves(strategy, bars, cfg);
    FirstTargetIsSoldIff(strategy, bars, cfg, k, a);
    var t := Backtest(strategy, bars, cfg).trades[k];
    hide Backtest;
    ExitsArePositive(t, bars, cfg);
    QtyForIsPositiveIff(t.position.exits, PartialTarget1);
  }

  lemma NoFlagsYet(strategy: Strategy, bars: seq<Bar>, cfg: Config)
    ensures FlagsOk(strategy, bars, cfg, START)
  {
  }

  lemma ExitsArePositive(t: Trade, bars: seq<Bar>, cfg: Config)
    requires TradeOk(t, bars, cfg)
    ensures forall k :: 0 <= k < |t.position.exits| ==> t.position.exits[k].qty >= 1
  {
    hide AdjustedPrice, FinalizeTrade;
  }

  lemma FirstTouchDecides(strategy: Strategy, bars: seq<Bar>, p: Position, cfg: Config, before: int, a: nat)
    requires FlagOk(strategy, bars, p, cfg, before) && a < before && FirstTouch(strategy, bars, p, cfg, a)
    ensures p.partialExited && (HasReason(p.exits, PartialTarget1) <==> VolumeCap(bars[a], cfg) > 0)
    ensures forall e :: 0 <= e < |p.exits| && p.exits[e].reason == Target2 ==> a < p.exits[e].bar
  {
    hide Touches, VolumeCap, HasReason;
    forall b: nat | FirstTouch(strategy, bars, p, cfg, b) ensures b == a {
    }
  }
}
