/**
 The bar-by-bar replay engine (backtest/engine.py).

 Prices are exact reals; a bar's missing volume is `None`.  A strategy is a function of the
 bars it is shown.  A fill also records the quote it was adjusted from and the index of its
 bar, which the source keeps only as the bar's timestamp.
 */
module BacktestEngine {
  import opened Wrappers
  import opened MarketHours
  import opened Numbers

  datatype Bar = Bar(day: int, second: int, time: int, open: real, high: real, low: real, close: real,
                     volume: Option<real>)

  datatype Evaluation = Evaluation(signal: bool, stop: real, target1: real, target2: real)

  datatype Strategy = Strategy(entry: seq<Bar> -> Evaluation, invalidate: seq<Bar> -> bool)

  datatype Config = Config(
    spreadBps: real, slippageBps: real, feePerShare: real, entryDelayBars: nat, maxFillFraction: real,
    minBarsRequired: int, nominalQty: int, entrySessions: set<MarketState>,
    partialFraction: real, maxHoldMinutes: int, eodMinutesBeforeClose: int)

  datatype Reason = EodForcedClose | TimeStop | StrategyInvalidation | StopLoss | Target2 | PartialTarget1

  datatype Exit = Exit(bar: nat, quote: real, price: real, qty: int, reason: Reason)

  datatype Costs = Costs(spread: real, slippage: real, fee: real, entryDelay: real)

  datatype Position = Position(
    signalBar: nat, signalPrice: real, entryBar: nat, entryTime: int, entryQuote: real, entryPrice: real,
    stop: real, target1: real, target2: real, requested: int, filled: int,
    remaining: int, exits: seq<Exit>, costs: Costs, partialExited: bool)

  datatype Trade = Trade(position: Position, exitReason: Reason, realizedPnl: real, rMultiple: Option<real>)

  datatype Status = Completed | InsufficientData

  datatype BacktestResult = BacktestResult(status: Status, trades: seq<Trade>, barsEvaluated: nat)

  datatype Side = Buy | Sell

  // ------------------------------------------------------------------ Fills

  function SpreadFraction(cfg: Config): real {
    cfg.spreadBps / 10000.0
  }

  function SlippageFraction(cfg: Config): real {
    cfg.slippageBps / 10000.0
  }

  /** The price a fill really gets: worse than the quote on both sides. */
  function AdjustedPrice(quote: real, side: Side, cfg: Config): real {
    match side
    case Buy => quote * (1.0 + SpreadFraction(cfg) + SlippageFraction(cfg))
    case Sell => quote * (1.0 - SpreadFraction(cfg) - SlippageFraction(cfg))
  }

  function Abs(x: real): real {
    if x < 0.0 then -x else x
  }

  /** The separately reported costs of one fill. */
  function FillCosts(quote: real, qty: int, cfg: Config): Costs {
    Costs(Abs(quote * SpreadFraction(cfg)) * qty as real, Abs(quote * SlippageFraction(cfg)) * qty as real,
          cfg.feePerShare * qty as real, 0.0)
  }

  function AddCosts(x: Costs, y: Costs): Costs {
    Costs(x.spread + y.spread, x.slippage + y.slippage, x.fee + y.fee, x.entryDelay + y.entryDelay)
  }

  function VolumeCap(bar: Bar, cfg: Config): int {
    match bar.volume
    case None => 0
    case Some(v) => if v <= 0.0 then 0 else (v * cfg.maxFillFraction).Floor
  }

  function VolumeCappedQty(desired: int, bar: Bar, cfg: Config): int {
    match bar.volume
    case None => 0
    case Some(v) => if v <= 0.0 then 0 else Max(0, Min(desired, VolumeCap(bar, cfg)))
  }

  /** Round to the nearest integer, ties to even. */
  function RoundHalfEven(x: real): int {
    var f := x.Floor;
    var rest := x - f as real;
    if rest < 0.5 then f
    else if rest > 0.5 then f + 1
    else if f % 2 == 0 then f else f + 1
  }

  function PartialQty(remaining: int, cfg: Config): int {
    Max(1, RoundHalfEven(remaining as real * cfg.partialFraction))
  }

  // ------------------------------------------------------- What a step does

  /** Sell up to `want` shares at bar i, as much as the bar's volume allows. */
  function SellUpTo(pos: Position, want: int, bars: seq<Bar>, i: nat, quote: real, reason: Reason, cfg: Config)
    : Position
    requires i < |bars|
  {
    var qty := VolumeCappedQty(want, bars[i], cfg);
    if qty <= 0 then pos else
      pos.(remaining := pos.remaining - qty,
           exits := pos.exits + [Exit(i, quote, AdjustedPrice(quote, Sell, cfg), qty, reason)],
           costs := AddCosts(pos.costs, FillCosts(quote, qty, cfg)))
  }

  datatype Managed = Managed(position: Position, closed: Option<Reason>)

  /** Try to close the whole position at one quote. */
  function CloseOut(pos: Position, bars: seq<Bar>, i: nat, quote: real, reason: Reason, cfg: Config): Managed
    requires i < |bars|
  {
    var after := SellUpTo(pos, pos.remaining, bars, i, quote, reason, cfg);
    Managed(after, if after != pos && after.remaining <= 0 then Some(reason) else None)
  }

  predicate PastEodCutoff(bar: Bar, cfg: Config) {
    bar.second >= REGULAR_END - 60 * cfg.eodMinutesBeforeClose
  }

  /** One bar against an open position: the exit rules in their order of precedence. */
  function ManageBar(strategy: Strategy, bars: seq<Bar>, i: nat, pos: Position, cfg: Config): Managed
    requires i < |bars|
  {
    var bar := bars[i];
    if PastEodCutoff(bar, cfg) then CloseOut(pos, bars, i, bar.open, EodForcedClose, cfg)
    else if bar.time - pos.entryTime >= 60 * cfg.maxHoldMinutes then CloseOut(pos, bars, i, bar.open, TimeStop, cfg)
    else if strategy.invalidate(bars[..i + 1]) then CloseOut(pos, bars, i, bar.close, StrategyInvalidation, cfg)
    else if bar.low <= pos.stop then CloseOut(pos, bars, i, pos.stop, StopLoss, cfg)
    else if pos.partialExited && bar.high >= pos.target2 then CloseOut(pos, bars, i, pos.target2, Target2, cfg)
    else if !pos.partialExited && bar.high >= pos.target1 then
      var part := PartialQty(pos.remaining, cfg);
      var sold := SellUpTo(pos, part, bars, i, pos.target1, PartialTarget1, cfg);
      var partDone := VolumeCappedQty(part, bar, cfg) >= part;
      Managed(sold.(partialExited := true), if partDone && sold.remaining <= 0 then Some(PartialTarget1) else None)
    else Managed(pos, None)
  }

  function SumQty(es: seq<Exit>): int {
    if es == [] then 0 else SumQty(es[..|es| - 1]) + es[|es| - 1].qty
  }

  function SumValue(es: seq<Exit>): real {
    if es == [] then 0.0 else SumValue(es[..|es| - 1]) + es[|es| - 1].price * es[|es| - 1].qty as real
  }

  /** Close the books on a position. */
  function FinalizeTrade(pos: Position, reason: Reason): Trade {
    var qty := SumQty(pos.exits);
    var pnl := SumValue(pos.exits) - pos.entryPrice * qty as real - pos.costs.fee;
    var risk := pos.entryPrice - pos.stop;
    Trade(pos, reason, pnl, if qty > 0 && risk > 0.0 then Some(RiskMultiple(pnl, qty, risk)) else None)
  }

  function RiskMultiple(pnl: real, qty: int, risk: real): real
    requires qty > 0 && risk > 0.0
  {
    var stake := qty as real * risk;
    assert stake > 0.0;
    pnl / stake
  }

  datatype Entry = NoEntry(next: nat) | Entered(fill: nat, position: Position)

  function OpenAt(evaluation: Evaluation, bars: seq<Bar>, i: nat, fill: nat, qty: int, cfg: Config): Position
    requires i < fill < |bars|
  {
    var quote := bars[fill].open;
    Position(i, bars[i].close, fill, bars[fill].time, quote, AdjustedPrice(quote, Buy, cfg),
             evaluation.stop, evaluation.target1, evaluation.target2, cfg.nominalQty, qty,
             qty, [], FillCosts(quote, qty, cfg).(entryDelay := (quote - bars[i].close) * qty as real), false)
  }

  /** Look for an entry signal at bar i. */
  function TryEnter(strategy: Strategy, bars: seq<Bar>, i: nat, cfg: Config): (e: Entry)
    requires i < |bars|
    ensures e.NoEntry? ==> i <= e.next <= |bars|
    ensures e.Entered? ==> i < e.fill < |bars|
  {
    if MarketStateAt(bars[i].day, bars[i].second) !in cfg.entrySessions then NoEntry(i) else
      var evaluation := strategy.entry(bars[..i + 1]);
      var fill := i + 1 + cfg.entryDelayBars;
      if !evaluation.signal then NoEntry(i)
      else if fill >= |bars| then NoEntry(|bars|)
      else
        var qty := VolumeCappedQty(cfg.nominalQty, bars[fill], cfg);
        if qty <= 0 then NoEntry(fill) else Entered(fill, OpenAt(evaluation, bars, i, fill, qty, cfg))
  }

  /** The state of the outer loop. */
  datatype Sim = Sim(i: nat, open: Option<Position>, trades: seq<Trade>)

  function Step(strategy: Strategy, bars: seq<Bar>, cfg: Config, s: Sim): (next: Sim)
    requires s.i < |bars|
    ensures s.i < next.i <= |bars| + 1
  {
    match s.open
    case None =>
      (match TryEnter(strategy, bars, s.i, cfg)
       case NoEntry(next) => Sim(next + 1, None, s.trades)
       case Entered(fill, position) => Sim(fill, Some(position), s.trades))
    case Some(position) =>
      var m := ManageBar(strategy, bars, s.i, position, cfg);
      if m.closed.Some? then Sim(s.i + 1, None, s.trades + [FinalizeTrade(m.position, m.closed.value)])
      else Sim(s.i + 1, Some(m.position), s.trades)
  }

  function Replay(strategy: Strategy, bars: seq<Bar>, cfg: Config, s: Sim): Sim
    decreases |bars| - s.i
  {
    if s.i >= |bars| then s else Replay(strategy, bars, cfg, Step(strategy, bars, cfg, s))
  }

  const START := Sim(0, None, [])

  function Backtest(strategy: Strategy, bars: seq<Bar>, cfg: Config): BacktestResult {
    if |bars| < cfg.minBarsRequired then BacktestResult(InsufficientData, [], |bars|)
    else BacktestResult(Completed, Replay(strategy, bars, cfg, START).trades, |bars|)
  }

  // ------------------------------------------------- The engine as it is written

  /** _OpenPosition: the position whose fields the engine updates in place. */
  class OpenPosition {
    const entry: Position
    var remaining: int
    var exits: seq<Exit>
    var costs: Costs
    var partialExited: bool

    constructor (position: Position)
      ensures entry == position && View() == position
    {
      entry := position;
      remaining := position.remaining;
      exits := position.exits;
      costs := position.costs;
      partialExited := position.partialExited;
    }

    function View(): Position
      reads this
    {
      entry.(remaining := remaining, exits := exits, costs := costs, partialExited := partialExited)
    }

    /** _apply_exit: sell what remains, as far as this bar's volume allows. */
    method ApplyExit(bars: seq<Bar>, i: nat, quote: real, reason: Reason, cfg: Config) returns (closed: bool)
      requires i < |bars|
      modifies this
      ensures View() == SellUpTo(old(View()), old(remaining), bars, i, quote, reason, cfg)
      ensures closed <==> View() != old(View()) && remaining <= 0
    {
      var qty := VolumeCappedQty(remaining, bars[i], cfg);
      if qty <= 0 {
        return false;
      }
      costs := AddCosts(costs, FillCosts(quote, qty, cfg));
      exits := exits + [Exit(i, quote, AdjustedPrice(quote, Sell, cfg), qty, reason)];
      remaining := remaining - qty;
      assert |exits| == |old(exits)| + 1;
      closed := remaining <= 0;
    }

    /** One closing rule of _manage_bar. */
    method TryClose(bars: seq<Bar>, i: nat, quote: real, reason: Reason, cfg: Config) returns (trade: Option<Trade>)
      requires i < |bars|
      modifies this
      ensures var m := CloseOut(old(View()), bars, i, quote, reason, cfg);
              View() == m.position
              && trade == (if m.closed.Some? then Some(FinalizeTrade(m.position, m.closed.value)) else None)
    {
      var closed := ApplyExit(bars, i, quote, reason, cfg);
      trade := if closed then Some(FinalizeTrade(View(), reason)) else None;
    }

    /**
     _manage_bar.  For the partial exit the engine overwrites the remaining quantity with the
     wanted part, sells, and adds the rest back: that is a plain sale of the wanted part.
     */
    method Manage(strategy: Strategy, bars: seq<Bar>, i: nat, cfg: Config) returns (trade: Option<Trade>)
      requires i < |bars|
      modifies this
      ensures var m := ManageBar(strategy, bars, i, old(View()), cfg);
              View() == m.position
              && trade == (if m.closed.Some? then Some(FinalizeTrade(m.position, m.closed.value)) else None)
    {
      var bar := bars[i];
      if PastEodCutoff(bar, cfg) {
        trade := TryClose(bars, i, bar.open, EodForcedClose, cfg);
        return;
      }
      if bar.time - entry.entryTime >= 60 * cfg.maxHoldMinutes {
        trade := TryClose(bars, i, bar.open, TimeStop, cfg);
        return;
      }
      if strategy.invalidate(bars[..i + 1]) {
        trade := TryClose(bars, i, bar.close, StrategyInvalidation, cfg);
        return;
      }
      var stopHit := bar.low <= entry.stop;
      var target2Hit := partialExited && bar.high >= entry.target2;
      var target1Hit := !partialExited && bar.high >= entry.target1;
      if stopHit {
        trade := TryClose(bars, i, entry.stop, StopLoss, cfg);
        return;
      }
      if target2Hit {
        trade := TryClose(bars, i, entry.target2, Target2, cfg);
        return;
      }
      trade := None;
      if target1Hit {
        var part := PartialQty(remaining, cfg);
        var before := remaining;
        remaining := part;
        var closed := ApplyExit(bars, i, entry.target1, PartialTarget1, cfg);
        remaining := remaining + (before - part);
        partialExited := true;
        if closed && remaining <= 0 {
          trade := Some(FinalizeTrade(View(), PartialTarget1));
        }
      }
    }
  }

  /** run_backtest: the outer loop, whose index skips to fill bars. */
  method RunBacktest(strategy: Strategy, bars: seq<Bar>, cfg: Config) returns (result: BacktestResult)
    ensures result == Backtest(strategy, bars, cfg)
  {
    hide TryEnter, ManageBar, FinalizeTrade;
    var n := |bars|;
    if n < cfg.minBarsRequired {
      return BacktestResult(InsufficientData, [], n);
    }
    var trades: seq<Trade> := [];
    var position: OpenPosition? := null;
    var i := 0;
    while i < n
      invariant fresh(position) || position == null
      invariant Replay(strategy, bars, cfg, START)
             == Replay(strategy, bars, cfg, Sim(i, if position == null then None else Some(position.View()), trades))
      decreases n - i
    {
      if position == null {
        var entry := TryEnter(strategy, bars, i, cfg);
        match entry
        case NoEntry(next) => i := next + 1;
        case Entered(fill, filled) =>
          position := new OpenPosition(filled);
          i := fill;
      } else {
        var closed := position.Manage(strategy, bars, i, cfg);
        if closed.Some? {
          trades := trades + [closed.value];
          position := null;
        }
        i := i + 1;
      }
    }
    return BacktestResult(Completed, trades, n);
  }
}
