/**
 Why and at what price every trade was entered and left (backtest/engine.py): the rules read
 off the bars and the position alone, over every replay.
 */
module BacktestRules {
  import opened Wrappers
  import opened Numbers
  import opened MarketHours
  import opened BacktestEngine
  import opened BacktestTheorems

  // --------------------------------------------------------------- The rules

  /** The rule that governs a bar of the position's life, in the order in which the rules are tried. */
  ghost predicate Fires(strategy: Strategy, bars: seq<Bar>, p: Position, cfg: Config, b: nat, reason: Reason)
    requires b < |bars|
  {
    var bar := bars[b];
    var late := bar.second >= 16 * 3600 - 60 * cfg.eodMinutesBeforeClose;
    var overdue := bar.time - p.entryTime >= 60 * cfg.maxHoldMinutes;
    var invalid := strategy.invalidate(bars[..b + 1]);
    var stopped := bar.low <= p.stop;
    match reason
    case EodForcedClose => late
    case TimeStop => !late && overdue
    case StrategyInvalidation => !late && !overdue && invalid
    case StopLoss => !late && !overdue && !invalid && stopped
    case Target2 =>
      !late && !overdue && !invalid && !stopped && TouchedBefore(strategy, bars, p, cfg, b) && bar.high >= p.target2
    case PartialTarget1 =>
      !late && !overdue && !invalid && !stopped && !TouchedBefore(strategy, bars, p, cfg, b) && bar.high >= p.target1
  }

  /** The quote each rule sells at. */
  function QuoteOf(p: Position, bar: Bar, reason: Reason): real {
    match reason
    case EodForcedClose => bar.open
    case TimeStop => bar.open
    case StrategyInvalidation => bar.close
    case StopLoss => p.stop
    case Target2 => p.target2
    case PartialTarget1 => p.target1
  }

  /** The shares each rule wants to sell of those held: part of them at the first target, else all. */
  function Wanted(held: int, reason: Reason, cfg: Config): int {
    if reason == PartialTarget1 then PartialQty(held, cfg) else held
  }

  /** At most one rule governs a bar; and on a bar whose low reached the stop, no target does. */
  lemma OneRuleABar(strategy: Strategy, bars: seq<Bar>, p: Position, cfg: Config, b: nat, x: Reason, y: Reason)
    requires b < |bars| && Fires(strategy, bars, p, cfg, b, x)
    ensures Fires(strategy, bars, p, cfg, b, y) ==> x == y
    ensures bars[b].low <= p.stop ==> x != Target2 && x != PartialTarget1
  {
    hide TouchedBefore;
  }

  // -------------------------------------------------- The numbers in the rules

  /** The cap is the whole part of the allowed fraction of the volume, and nothing without volume. */
  lemma VolumeCapIsWholePart(bar: Bar, cfg: Config)
    ensures bar.volume.None? || bar.volume.value <= 0.0 ==> VolumeCap(bar, cfg) == 0
    ensures bar.volume.Some? && bar.volume.value > 0.0 ==>
              var allowed := bar.volume.value * cfg.maxFillFraction;
              VolumeCap(bar, cfg) as real <= allowed < VolumeCap(bar, cfg) as real + 1.0
  {
  }

  /** The frictions of the configuration are in basis points. */
  lemma FrictionIsInBasisPoints(cfg: Config)
    ensures Friction(cfg) * 10000.0 == cfg.spreadBps + cfg.slippageBps
    ensures SpreadFraction(cfg) * 10000.0 == cfg.spreadBps
  {
  }

  /** A fill is what is wanted or what the volume allows, whichever is less, and never negative. */
  lemma FillIsTheLess(want: int, bar: Bar, cfg: Config)
    ensures VolumeCappedQty(want, bar, cfg)
            == if VolumeCap(bar, cfg) <= 0 || want <= 0 then 0 else Min(want, VolumeCap(bar, cfg))
  {
  }

  /** The partial share is the whole number nearest the fraction of what is held, ties to even, and at least one. */
  lemma PartialShareIsNearest(held: int, cfg: Config)
    ensures var exact, share := held as real * cfg.partialFraction, PartialQty(held, cfg);
            && share >= 1
            && (exact >= 1.0 ==> -0.5 <= share as real - exact <= 0.5)
            && (exact >= 1.0 && (share as real - exact == 0.5 || share as real - exact == -0.5) ==> share % 2 == 0)
            && (exact < 1.0 ==> share == 1)
  {
  }

  // ---------------------------------------------------------------- One bar

  /** The rules with the flag in place of the first touch it records. */
  predicate FiresNow(strategy: Strategy, bars: seq<Bar>, i: nat, p: Position, cfg: Config, reason: Reason)
    requires i < |bars|
  {
    var bar := bars[i];
    var late := bar.second >= 16 * 3600 - 60 * cfg.eodMinutesBeforeClose;
    var overdue := bar.time - p.entryTime >= 60 * cfg.maxHoldMinutes;
    var invalid := strategy.invalidate(bars[..i + 1]);
    var stopped := bar.low <= p.stop;
    match reason
    case EodForcedClose => late
    case TimeStop => !late && overdue
    case StrategyInvalidation => !late && !overdue && invalid
    case StopLoss => !late && !overdue && !invalid && stopped
    case Target2 => !late && !overdue && !invalid && !stopped && p.partialExited && bar.high >= p.target2
    case PartialTarget1 => !late && !overdue && !invalid && !stopped && !p.partialExited && bar.high >= p.target1
  }

  /** What a bar under a rule does: it sells at the rule's quote what the rule wants and the volume allows. */
  lemma BarSellsByRule(strategy: Strategy, bars: seq<Bar>, i: nat, pos: Position, cfg: Config, reason: Reason)
    requires i < |bars| && FiresNow(strategy, bars, i, pos, cfg, reason)
    ensures var m := ManageBar(strategy, bars, i, pos, cfg);
            var qty := VolumeCappedQty(Wanted(pos.remaining, reason, cfg), bars[i], cfg);
            var quote := QuoteOf(pos, bars[i], reason);
            && m.position.exits == (if qty <= 0 then pos.exits
                                    else pos.exits + [Exit(i, quote, AdjustedPrice(quote, Sell, cfg), qty, reason)])
            && m.position.remaining == pos.remaining - (if qty <= 0 then 0 else qty)
            && (m.closed.Some? ==> m.closed == Some(reason) && qty > 0)
  {
    hide AdjustedPrice, FillCosts, VolumeCappedQty, PartialQty;
    FillIsTheLess(Wanted(pos.remaining, reason, cfg), bars[i], cfg);
    PartialIsPositive(pos.remaining, cfg);
  }

  lemma PartialIsPositive(held: int, cfg: Config)
    ensures PartialQty(held, cfg) >= 1
  {
  }

  /** A bar under no rule sells nothing. */
  lemma BarWithoutRule(strategy: Strategy, bars: seq<Bar>, i: nat, pos: Position, cfg: Config)
    requires i < |bars| && forall reason :: !FiresNow(strategy, bars, i, pos, cfg, reason)
    ensures var m := ManageBar(strategy, bars, i, pos, cfg);
            m.position.exits == pos.exits && m.position.remaining == pos.remaining && m.closed.None?
  {
    assert !FiresNow(strategy, bars, i, pos, cfg, EodForcedClose) && !FiresNow(strategy, bars, i, pos, cfg, TimeStop);
    assert !FiresNow(strategy, bars, i, pos, cfg, StrategyInvalidation);
    assert !FiresNow(strategy, bars, i, pos, cfg, StopLoss) && !FiresNow(strategy, bars, i, pos, cfg, Target2);
    assert !FiresNow(strategy, bars, i, pos, cfg, PartialTarget1);
  }

  /** A bar changes neither how the position was entered nor what it is up against. */
  lemma BarKeepsEntry(strategy: Strategy, bars: seq<Bar>, i: nat, pos: Position, cfg: Config)
    requires i < |bars|
    ensures SameEntry(pos, ManageBar(strategy, bars, i, pos, cfg).position)
  {
    hide AdjustedPrice, FillCosts, VolumeCappedQty, PartialQty;
  }

  predicate SameEntry(p: Position, q: Position) {
    && SameLife(p, q) && p.target2 == q.target2 && p.filled == q.filled && p.requested == q.requested
    && p.signalBar == q.signalBar
  }

  // ------------------------------------------------------------- A position

  /** How a position was entered: a signal in an allowed session, filled after the delay, within the volume. */
  ghost predicate EntryOk(strategy: Strategy, bars: seq<Bar>, p: Position, cfg: Config) {
    && p.signalBar < p.entryBar < |bars| && p.entryBar == p.signalBar + 1 + cfg.entryDelayBars
    && MarketStateAt(bars[p.signalBar].day, bars[p.signalBar].second) in cfg.entrySessions
    && (var evaluation := strategy.entry(bars[..p.signalBar + 1]);
        && evaluation.signal && p.stop == evaluation.stop
        && p.target1 == evaluation.target1 && p.target2 == evaluation.target2)
    && p.entryTime == bars[p.entryBar].time && p.requested == cfg.nominalQty
    && 1 <= p.filled == Min(cfg.nominalQty, VolumeCap(bars[p.entryBar], cfg))
  }

  /** The k-th exit is the one its bar's rule calls for. */
  ghost predicate ExitOk(strategy: Strategy, bars: seq<Bar>, p: Position, cfg: Config, k: nat)
    requires k < |p.exits|
  {
    var e := p.exits[k];
    var held := p.filled - SumQty(p.exits[..k]);
    && p.entryBar <= e.bar < |bars| && Fires(strategy, bars, p, cfg, e.bar, e.reason)
    && e.quote == QuoteOf(p, bars[e.bar], e.reason)
    && e.qty == VolumeCappedQty(Wanted(held, e.reason, cfg), bars[e.bar], cfg)
  }

  ghost predicate RulesOk(strategy: Strategy, bars: seq<Bar>, p: Position, cfg: Config) {
    && EntryOk(strategy, bars, p, cfg)
    && p.remaining == p.filled - SumQty(p.exits)
    && forall k: nat :: k < |p.exits| ==> ExitOk(strategy, bars, p, cfg, k)
  }

  lemma FiresFrame(strategy: Strategy, bars: seq<Bar>, p: Position, q: Position, cfg: Config, b: nat, reason: Reason)
    requires b < |bars| && SameEntry(p, q)
    ensures Fires(strategy, bars, p, cfg, b, reason) <==> Fires(strategy, bars, q, cfg, b, reason)
  {
    hide TouchedBefore;
    TouchFrame(strategy, bars, p, q, cfg, b);
  }

  lemma EntryFrame(strategy: Strategy, bars: seq<Bar>, p: Position, q: Position, cfg: Config)
    requires SameEntry(p, q) && EntryOk(strategy, bars, p, cfg)
    ensures EntryOk(strategy, bars, q, cfg)
  {
    hide VolumeCap, MarketStateAt;
  }

  lemma ExitFrame(strategy: Strategy, bars: seq<Bar>, p: Position, q: Position, cfg: Config, k: nat)
    requires SameEntry(p, q) && p.exits <= q.exits && k < |p.exits| && ExitOk(strategy, bars, p, cfg, k)
    ensures ExitOk(strategy, bars, q, cfg, k)
  {
    hide Fires, VolumeCappedQty, PartialQty, SumQty;
    FiresFrame(strategy, bars, p, q, cfg, p.exits[k].bar, p.exits[k].reason);
    assert q.exits[..k] == p.exits[..k];
  }

  /** While the flag records the first touch, the two forms of the rules agree. */
  lemma FlagIsTheTouch(strategy: Strategy, bars: seq<Bar>, i: nat, p: Position, cfg: Config, reason: Reason)
    requires i < |bars| && FlagOk(strategy, bars, p, cfg, i)
    ensures FiresNow(strategy, bars, i, p, cfg, reason) <==> Fires(strategy, bars, p, cfg, i, reason)
  {
    hide TouchedBefore, SoldAtFirstTouch, HasReason;
  }

  lemma QuoteFrame(p: Position, q: Position, bar: Bar, reason: Reason)
    requires SameEntry(p, q)
    ensures QuoteOf(p, bar, reason) == QuoteOf(q, bar, reason)
  {
  }

  lemma NewExitOk(strategy: Strategy, bars: seq<Bar>, p: Position, q: Position, cfg: Config, e: Exit)
    requires SameEntry(p, q) && q.exits == p.exits + [e] && p.remaining == p.filled - SumQty(p.exits)
    requires p.entryBar <= e.bar < |bars| && Fires(strategy, bars, p, cfg, e.bar, e.reason)
    requires e.quote == QuoteOf(p, bars[e.bar], e.reason)
    requires e.qty == VolumeCappedQty(Wanted(p.remaining, e.reason, cfg), bars[e.bar], cfg)
    ensures ExitOk(strategy, bars, q, cfg, |p.exits|)
    ensures SumQty(q.exits) == SumQty(p.exits) + e.qty
  {
    hide Fires, VolumeCappedQty, Wanted, QuoteOf;
    FiresFrame(strategy, bars, p, q, cfg, e.bar, e.reason);
    QuoteFrame(p, q, bars[e.bar], e.reason);
    assert q.exits[..|p.exits|] == p.exits;
  }

  lemma AppendExit(strategy: Strategy, bars: seq<Bar>, p: Position, q: Position, cfg: Config, e: Exit)
    requires RulesOk(strategy, bars, p, cfg) && SameEntry(p, q) && q.exits == p.exits + [e]
    requires q.remaining == p.remaining - e.qty
    requires p.entryBar <= e.bar < |bars| && Fires(strategy, bars, p, cfg, e.bar, e.reason)
    requires e.quote == QuoteOf(p, bars[e.bar], e.reason)
    requires e.qty == VolumeCappedQty(Wanted(p.remaining, e.reason, cfg), bars[e.bar], cfg)
    ensures RulesOk(strategy, bars, q, cfg)
  {
    hide Fires, VolumeCappedQty, Wanted, QuoteOf, EntryOk, ExitOk, SumQty, SameEntry;
    EntryFrame(strategy, bars, p, q, cfg);
    NewExitOk(strategy, bars, p, q, cfg, e);
    SameFilled(p, q);
    forall k: nat | k < |p.exits| ensures ExitOk(strategy, bars, q, cfg, k) {
      ExitFrame(strategy, bars, p, q, cfg, k);
    }
  }

  lemma SameFilled(p: Position, q: Position)
    requires SameEntry(p, q)
    ensures p.filled == q.filled
  {
  }

  lemma SameExits(strategy: Strategy, bars: seq<Bar>, p: Position, q: Position, cfg: Config)
    requires RulesOk(strategy, bars, p, cfg) && SameEntry(p, q) && q.exits == p.exits && q.remaining == p.remaining
    ensures RulesOk(strategy, bars, q, cfg)
  {
    hide EntryOk, ExitOk, SumQty, SameEntry;
    EntryFrame(strategy, bars, p, q, cfg);
    SameFilled(p, q);
    forall k: nat | k < |q.exits| ensures ExitOk(strategy, bars, q, cfg, k) {
      ExitFrame(strategy, bars, p, q, cfg, k);
    }
  }

  /** One bar under a rule keeps every exit by its rule. */
  lemma RuleKeepsRules(strategy: Strategy, bars: seq<Bar>, i: nat, pos: Position, cfg: Config, reason: Reason)
    requires i < |bars| && pos.entryBar <= i && RulesOk(strategy, bars, pos, cfg)
    requires FlagOk(strategy, bars, pos, cfg, i) && FiresNow(strategy, bars, i, pos, cfg, reason)
    ensures RulesOk(strategy, bars, ManageBar(strategy, bars, i, pos, cfg).position, cfg)
  {
    hide *;
    var q := ManageBar(strategy, bars, i, pos, cfg).position;
    var qty := VolumeCappedQty(Wanted(pos.remaining, reason, cfg), bars[i], cfg);
    var quote := QuoteOf(pos, bars[i], reason);
    BarSellsByRule(strategy, bars, i, pos, cfg, reason);
    BarKeepsEntry(strategy, bars, i, pos, cfg);
    FlagIsTheTouch(strategy, bars, i, pos, cfg, reason);
    if qty <= 0 {
      SameExits(strategy, bars, pos, q, cfg);
    } else {
      AppendExit(strategy, bars, pos, q, cfg, Exit(i, quote, AdjustedPrice(quote, Sell, cfg), qty, reason));
    }
  }

  lemma QuietKeepsRules(strategy: Strategy, bars: seq<Bar>, i: nat, pos: Position, cfg: Config)
    requires i < |bars| && RulesOk(strategy, bars, pos, cfg)
    requires forall reason :: !FiresNow(strategy, bars, i, pos, cfg, reason)
    ensures RulesOk(strategy, bars, ManageBar(strategy, bars, i, pos, cfg).position, cfg)
  {
    hide *;
    BarWithoutRule(strategy, bars, i, pos, cfg);
    BarKeepsEntry(strategy, bars, i, pos, cfg);
    SameExits(strategy, bars, pos, ManageBar(strategy, bars, i, pos, cfg).position, cfg);
  }

  /** A bar that closes the position does so under its rule. */
  lemma ManageKeepsRules(strategy: Strategy, bars: seq<Bar>, i: nat, pos: Position, cfg: Config)
    requires i < |bars| && pos.entryBar <= i && RulesOk(strategy, bars, pos, cfg) && FlagOk(strategy, bars, pos, cfg, i)
    ensures var m := ManageBar(strategy, bars, i, pos, cfg);
            && RulesOk(strategy, bars, m.position, cfg)
            && (m.closed.Some? ==>
                  var es := m.position.exits; es != [] && es[|es| - 1].reason == m.closed.value)
  {
    hide RulesOk, FlagOk, ManageBar;
    if reason :| FiresNow(strategy, bars, i, pos, cfg, reason) {
      hide FiresNow;
      RuleKeepsRules(strategy, bars, i, pos, cfg, reason);
      BarSellsByRule(strategy, bars, i, pos, cfg, reason);
    } else {
      hide FiresNow;
      QuietKeepsRules(strategy, bars, i, pos, cfg);
      BarWithoutRule(strategy, bars, i, pos, cfg);
    }
  }

  // --------------------------------------------------------------- A replay

  /** A trade closed under the rule of its last exit. */
  ghost predicate TradeByRule(strategy: Strategy, bars: seq<Bar>, t: Trade, cfg: Config) {
    && RulesOk(strategy, bars, t.position, cfg)
    && t.position.exits != [] && t.exitReason == t.position.exits[|t.position.exits| - 1].reason
  }

  ghost predicate AllByRule(strategy: Strategy, bars: seq<Bar>, cfg: Config, s: Sim) {
    && (forall k :: 0 <= k < |s.trades| ==> TradeByRule(strategy, bars, s.trades[k], cfg))
    && (s.open.Some? ==> RulesOk(strategy, bars, s.open.value, cfg))
  }

  /** An entry is made if and only if the bar is in an allowed session, signals, and can be filled in time. */
  lemma EntersIff(strategy: Strategy, bars: seq<Bar>, i: nat, cfg: Config)
    requires i < |bars|
    ensures var e, fill := TryEnter(strategy, bars, i, cfg), i + 1 + cfg.entryDelayBars;
            var wanted := MarketStateAt(bars[i].day, bars[i].second) in cfg.entrySessions
                          && strategy.entry(bars[..i + 1]).signal;
            && (e.Entered? <==> wanted && fill < |bars| && cfg.nominalQty >= 1 && VolumeCap(bars[fill], cfg) >= 1)
            && (e.Entered? ==> e.fill == fill && RulesOk(strategy, bars, e.position, cfg))
            && (e.NoEntry? ==> e.next == if !wanted then i else if fill < |bars| then fill else |bars|)
  {
    hide AdjustedPrice, FillCosts, MarketStateAt;
    if i + 1 + cfg.entryDelayBars < |bars| {
      FillIsTheLess(cfg.nominalQty, bars[i + 1 + cfg.entryDelayBars], cfg);
    }
    hide VolumeCappedQty, VolumeCap;
  }

  lemma StepKeepsRules(strategy: Strategy, bars: seq<Bar>, cfg: Config, s: Sim)
    requires s.i < |bars| && AllByRule(strategy, bars, cfg, s) && FlagsOk(strategy, bars, cfg, s)
    ensures AllByRule(strategy, bars, cfg, Step(strategy, bars, cfg, s))
  {
    hide RulesOk, FlagOk, ManageBar, TryEnter, FinalizeTrade, LastExitBar;
    match s.open
    case None =>
      EntersIff(strategy, bars, s.i, cfg);
    case Some(p) =>
      ManageKeepsRules(strategy, bars, s.i, p, cfg);
      var m := ManageBar(strategy, bars, s.i, p, cfg);
      if m.closed.Some? {
        FinalizeKeeps(m.position, m.closed.value);
      }
  }

  lemma FinalizeKeeps(p: Position, reason: Reason)
    ensures FinalizeTrade(p, reason).position == p && FinalizeTrade(p, reason).exitReason == reason
  {
  }

  lemma {:induction false} ReplayKeepsRules(strategy: Strategy, bars: seq<Bar>, cfg: Config, s: Sim)
    requires AllByRule(strategy, bars, cfg, s) && FlagsOk(strategy, bars, cfg, s)
    ensures AllByRule(strategy, bars, cfg, Replay(strategy, bars, cfg, s))
    decreases |bars| - s.i
  {
    hide AllByRule, FlagsOk, Step;
    if s.i < |bars| {
      StepKeepsRules(strategy, bars, cfg, s);
      StepKeepsFlags(strategy, bars, cfg, s);
      ReplayKeepsRules(strategy, bars, cfg, Step(strategy, bars, cfg, s));
    }
  }

  /**
   Over every backtest: each trade was entered on a signal, and each of its exits is the one the
   rule of its bar calls for, at that rule's quote, for what the rule wanted and the volume
   allowed; and the trade is reported under the rule that closed it.
   */
  lemma EveryExitFollowsItsRule(strategy: Strategy, bars: seq<Bar>, cfg: Config, k: nat)
    requires k < |Backtest(strategy, bars, cfg).trades|
    ensures TradeByRule(strategy, bars, Backtest(strategy, bars, cfg).trades[k], cfg)
  {
    NoFlagsYet(strategy, bars, cfg);
    hide TradeByRule, FlagsOk, RulesOk;
    ReplayKeepsRules(strategy, bars, cfg, START);
    hide Replay;
  }

  // --------------------------------------------------------- Nothing missed

  /** Every bar of the life so far that had a rule and volume sold. */
  ghost predicate NoneMissed(strategy: Strategy, bars: seq<Bar>, p: Position, cfg: Config, before: nat) {
    forall b: nat, reason ::
      p.entryBar <= b < before && b < |bars| && Fires(strategy, bars, p, cfg, b, reason) && VolumeCap(bars[b], cfg) > 0
      ==> SoldAt(p.exits, b)
  }

  ghost predicate SoldAt(es: seq<Exit>, b: nat) {
    exists k :: 0 <= k < |es| && es[k].bar == b
  }

  lemma SoldAtGrows(es: seq<Exit>, more: seq<Exit>, b: nat)
    requires es <= more && SoldAt(es, b)
    ensures SoldAt(more, b)
  {
    var k :| 0 <= k < |es| && es[k].bar == b;
    assert more[k].bar == b;
  }

  lemma BarIsNotMissed(strategy: Strategy, bars: seq<Bar>, i: nat, pos: Position, cfg: Config, reason: Reason)
    requires i < |bars| && pos.remaining >= 1 && FlagOk(strategy, bars, pos, cfg, i)
    requires Fires(strategy, bars, pos, cfg, i, reason) && VolumeCap(bars[i], cfg) > 0
    ensures SoldAt(ManageBar(strategy, bars, i, pos, cfg).position.exits, i)
  {
    hide ManageBar, Fires, FlagOk, VolumeCap, PartialQty, AdjustedPrice;
    FlagIsTheTouch(strategy, bars, i, pos, cfg, reason);
    BarSellsByRule(strategy, bars, i, pos, cfg, reason);
    FillIsTheLess(Wanted(pos.remaining, reason, cfg), bars[i], cfg);
    PartialIsPositive(pos.remaining, cfg);
    hide VolumeCappedQty, FiresNow;
    var es := ManageBar(strategy, bars, i, pos, cfg).position.exits;
    assert es[|pos.exits|].bar == i;
  }

  lemma BarExtends(strategy: Strategy, bars: seq<Bar>, i: nat, pos: Position, cfg: Config)
    requires i < |bars|
    ensures pos.exits <= ManageBar(strategy, bars, i, pos, cfg).position.exits
  {
    ManagedExits(strategy, bars, i, pos, cfg);
    hide ManageBar, Touches;
  }

  lemma ManageMissesNone(strategy: Strategy, bars: seq<Bar>, i: nat, pos: Position, cfg: Config)
    requires i < |bars| && pos.remaining >= 1 && FlagOk(strategy, bars, pos, cfg, i)
    requires NoneMissed(strategy, bars, pos, cfg, i)
    ensures NoneMissed(strategy, bars, ManageBar(strategy, bars, i, pos, cfg).position, cfg, i + 1)
  {
    hide ManageBar, Fires, FlagOk, VolumeCap, SoldAt;
    var q := ManageBar(strategy, bars, i, pos, cfg).position;
    BarKeepsEntry(strategy, bars, i, pos, cfg);
    BarExtends(strategy, bars, i, pos, cfg);
    forall b: nat, reason
      | q.entryBar <= b < i + 1 && b < |bars| && Fires(strategy, bars, q, cfg, b, reason) && VolumeCap(bars[b], cfg) > 0
      ensures SoldAt(q.exits, b)
    {
      FiresFrame(strategy, bars, pos, q, cfg, b, reason);
      if b < i {
        SoldAtGrows(pos.exits, q.exits, b);
      } else {
        BarIsNotMissed(strategy, bars, i, pos, cfg, reason);
      }
    }
  }

  ghost predicate NoneMissedIn(strategy: Strategy, bars: seq<Bar>, cfg: Config, s: Sim) {
    && (forall k :: 0 <= k < |s.trades| ==>
          NoneMissed(strategy, bars, s.trades[k].position, cfg, LastExitBar(s.trades[k]) + 1))
    && (s.open.Some? ==> NoneMissed(strategy, bars, s.open.value, cfg, s.i))
  }

  lemma OpenHolds(s: Sim, bars: seq<Bar>, cfg: Config)
    requires SimOk(s, bars, cfg) && s.open.Some?
    ensures s.open.value.remaining >= 1
  {
    hide BooksOk, TradeOk, LastExitBar;
  }

  lemma OpenFlag(strategy: Strategy, bars: seq<Bar>, cfg: Config, s: Sim)
    requires FlagsOk(strategy, bars, cfg, s) && s.open.Some?
    ensures FlagOk(strategy, bars, s.open.value, cfg, s.i)
  {
    hide FlagOk, LastExitBar;
  }

  lemma EntryMissesNone(strategy: Strategy, bars: seq<Bar>, i: nat, cfg: Config)
    requires i < |bars|
    ensures var e := TryEnter(strategy, bars, i, cfg);
            e.Entered? ==> NoneMissed(strategy, bars, e.position, cfg, e.fill)
  {
    EntryFlag(strategy, bars, i, cfg);
    hide TryEnter, Fires, VolumeCap, FlagOk;
  }

  lemma StepMissesNone(strategy: Strategy, bars: seq<Bar>, cfg: Config, s: Sim)
    requires s.i < |bars| && SimOk(s, bars, cfg) && FlagsOk(strategy, bars, cfg, s)
    requires NoneMissedIn(strategy, bars, cfg, s)
    ensures NoneMissedIn(strategy, bars, cfg, Step(strategy, bars, cfg, s))
  {
    hide SimOk, FlagsOk, FlagOk, NoneMissed, ManageBar, TryEnter, FinalizeTrade, LastExitBar;
    match s.open
    case None =>
      EntryMissesNone(strategy, bars, s.i, cfg);
    case Some(p) =>
      OpenHolds(s, bars, cfg);
      OpenFlag(strategy, bars, cfg, s);
      ManageMissesNone(strategy, bars, s.i, p, cfg);
      ClosingFillIsAtThisBar(strategy, bars, s.i, p, cfg);
      var m := ManageBar(strategy, bars, s.i, p, cfg);
      if m.closed.Some? {
        FinalizeKeeps(m.position, m.closed.value);
      }
  }

  lemma {:induction false} ReplayMissesNone(strategy: Strategy, bars: seq<Bar>, cfg: Config, s: Sim)
    requires cfg.partialFraction <= 1.0
    requires SimOk(s, bars, cfg) && FlagsOk(strategy, bars, cfg, s) && NoneMissedIn(strategy, bars, cfg, s)
    ensures NoneMissedIn(strategy, bars, cfg, Replay(strategy, bars, cfg, s))
    decreases |bars| - s.i
  {
    hide SimOk, FlagsOk, NoneMissedIn, Step;
    if s.i < |bars| {
      StepKeepsSim(strategy, bars, cfg, s);
      StepKeepsFlags(strategy, bars, cfg, s);
      StepMissesNone(strategy, bars, cfg, s);
      ReplayMissesNone(strategy, bars, cfg, Step(strategy, bars, cfg, s));
    }
  }

  lemma NothingYet(strategy: Strategy, bars: seq<Bar>, cfg: Config)
    ensures SimOk(START, bars, cfg) && NoneMissedIn(strategy, bars, cfg, START)
  {
  }

  /** Over every backtest: a bar of a trade's life at which a rule governs and volume trades is a bar it sold at. */
  lemma NoRuleIsMissed(strategy: Strategy, bars: seq<Bar>, cfg: Config, k: nat, b: nat, reason: Reason)
    requires cfg.partialFraction <= 1.0 && k < |Backtest(strategy, bars, cfg).trades| && b < |bars|
    requires var t := Backtest(strategy, bars, cfg).trades[k];
             && t.position.entryBar <= b <= LastExitBar(t)
             && Fires(strategy, bars, t.position, cfg, b, reason) && VolumeCap(bars[b], cfg) > 0
    ensures SoldAt(Backtest(strategy, bars, cfg).trades[k].position.exits, b)
  {
    hide Fires, VolumeCap, LastExitBar, SoldAt, SimOk, FlagsOk;
    NoFlagsYet(strategy, bars, cfg);
    NothingYet(strategy, bars, cfg);
    ReplayMissesNone(strategy, bars, cfg, START);
    hide Replay;
  }

  // ------------------------------------------------------- Every bar is seen

  /** The strategy signals at the bar, in a session it may enter in. */
  predicate Signals(strategy: Strategy, bars: seq<Bar>, cfg: Config, b: nat)
    requires b < |bars|
  {
    MarketStateAt(bars[b].day, bars[b].second) in cfg.entrySessions && strategy.entry(bars[..b + 1]).signal
  }

  /** The bar after the delay exists and has the volume for at least one share. */
  predicate CanFill(bars: seq<Bar>, cfg: Config, b: nat) {
    var fill := b + 1 + cfg.entryDelayBars;
    fill < |bars| && cfg.nominalQty >= 1 && VolumeCap(bars[fill], cfg) >= 1
  }

  /** From a trade's signal to its last exit. */
  ghost predicate InTrade(s: Sim, b: nat) {
    exists k :: 0 <= k < |s.trades| && s.trades[k].position.signalBar <= b <= LastExitBar(s.trades[k])
  }

  /** Waiting for the fill of an earlier signal that came to nothing. */
  ghost predicate IsWaiting(strategy: Strategy, bars: seq<Bar>, cfg: Config, b: nat) {
    exists a: nat :: a < |bars| && a <= b <= a + 1 + cfg.entryDelayBars
                     && Signals(strategy, bars, cfg, a) && !CanFill(bars, cfg, a)
  }

  /** Why a bar that has been passed opened nothing of its own. */
  ghost predicate IsAccounted(strategy: Strategy, bars: seq<Bar>, cfg: Config, s: Sim, b: nat)
    requires b < |bars|
  {
    || !Signals(strategy, bars, cfg, b) || InTrade(s, b) || IsWaiting(strategy, bars, cfg, b)
    || (s.open.Some? && s.open.value.signalBar <= b)
  }

  ghost predicate AllAccounted(strategy: Strategy, bars: seq<Bar>, cfg: Config, s: Sim) {
    forall b: nat :: b < s.i && b < |bars| ==> IsAccounted(strategy, bars, cfg, s, b)
  }

  /** What accounted for a bar still does while trades are only added and an open position is kept or becomes one. */
  lemma StaysAccounted(strategy: Strategy, bars: seq<Bar>, cfg: Config, s: Sim, next: Sim, b: nat)
    requires b < |bars| && IsAccounted(strategy, bars, cfg, s, b) && s.trades <= next.trades
    requires s.open.Some? && s.open.value.signalBar <= b ==>
               InTrade(next, b) || (next.open.Some? && next.open.value.signalBar <= b)
    ensures IsAccounted(strategy, bars, cfg, next, b)
  {
    hide Signals, IsWaiting, LastExitBar;
    if InTrade(s, b) {
      var k :| 0 <= k < |s.trades| && s.trades[k].position.signalBar <= b <= LastExitBar(s.trades[k]);
      assert next.trades[k] == s.trades[k];
    }
  }

  /** The bars a flat step passes: the entry's own, or those waited for in vain. */
  lemma FlatStep(strategy: Strategy, bars: seq<Bar>, cfg: Config, s: Sim, b: nat)
    requires s.i < |bars| && s.open.None? && s.i <= b < |bars|
    ensures var next := Step(strategy, bars, cfg, s);
            && next.trades == s.trades
            && (b < next.i ==>
                  || (next.open.Some? && next.open.value.signalBar <= b) || !Signals(strategy, bars, cfg, b)
                  || (Signals(strategy, bars, cfg, s.i) && !CanFill(bars, cfg, s.i)
                      && b <= s.i + 1 + cfg.entryDelayBars))
  {
    EntersIff(strategy, bars, s.i, cfg);
    EntrySignalBar(strategy, bars, s.i, cfg);
    hide TryEnter, VolumeCap, MarketStateAt, RulesOk;
  }

  lemma EntryAccounts(strategy: Strategy, bars: seq<Bar>, cfg: Config, s: Sim, b: nat)
    requires s.i < |bars| && s.open.None? && AllAccounted(strategy, bars, cfg, s)
    requires b < Step(strategy, bars, cfg, s).i && b < |bars|
    ensures IsAccounted(strategy, bars, cfg, Step(strategy, bars, cfg, s), b)
  {
    hide Step, Signals, CanFill, InTrade;
    var next := Step(strategy, bars, cfg, s);
    FlatStep(strategy, bars, cfg, s, if b < s.i then s.i else b);
    if b < s.i {
      assert IsAccounted(strategy, bars, cfg, s, b);
      StaysAccounted(strategy, bars, cfg, s, next, b);
    }
  }

  lemma EntrySignalBar(strategy: Strategy, bars: seq<Bar>, i: nat, cfg: Config)
    requires i < |bars|
    ensures var e := TryEnter(strategy, bars, i, cfg); e.Entered? ==> e.position.signalBar == i
  {
    hide VolumeCappedQty, MarketStateAt, AdjustedPrice, FillCosts;
  }

  /** A managed bar is the next one, and leaves the position open or makes it a trade that ends there. */
  lemma ManagedStep(strategy: Strategy, bars: seq<Bar>, cfg: Config, s: Sim)
    requires s.i < |bars| && s.open.Some?
    ensures var next, from := Step(strategy, bars, cfg, s), s.open.value.signalBar;
            && next.i == s.i + 1 && s.trades <= next.trades
            && (|| (next.open.Some? && next.open.value.signalBar == from)
                || (next.open.None? && |next.trades| == |s.trades| + 1
                    && next.trades[|s.trades|].position.signalBar == from
                    && LastExitBar(next.trades[|s.trades|]) == s.i))
  {
    var p := s.open.value;
    var m := ManageBar(strategy, bars, s.i, p, cfg);
    BarKeepsEntry(strategy, bars, s.i, p, cfg);
    ClosingFillIsAtThisBar(strategy, bars, s.i, p, cfg);
    if m.closed.Some? {
      FinalizeKeeps(m.position, m.closed.value);
    }
    hide ManageBar, LastExitBar, FinalizeTrade;
  }

  lemma ManageAccounts(strategy: Strategy, bars: seq<Bar>, cfg: Config, s: Sim, b: nat)
    requires s.i < |bars| && s.open.Some? && AllAccounted(strategy, bars, cfg, s)
    requires b < Step(strategy, bars, cfg, s).i && b < |bars| && s.open.value.signalBar <= s.i
    ensures IsAccounted(strategy, bars, cfg, Step(strategy, bars, cfg, s), b)
  {
    hide Step, Signals, IsWaiting, LastExitBar;
    var next := Step(strategy, bars, cfg, s);
    ManagedStep(strategy, bars, cfg, s);
    if s.open.value.signalBar <= b {
      if next.open.None? {
        assert next.trades[|s.trades|].position.signalBar <= b <= LastExitBar(next.trades[|s.trades|]);
      }
    } else {
      assert IsAccounted(strategy, bars, cfg, s, b);
      hide IsAccounted, InTrade;
      StaysAccounted(strategy, bars, cfg, s, next, b);
    }
  }

  lemma {:induction false} ReplayAccounts(strategy: Strategy, bars: seq<Bar>, cfg: Config, s: Sim)
    requires AllAccounted(strategy, bars, cfg, s) && (s.open.Some? ==> s.open.value.signalBar <= s.i)
    ensures AllAccounted(strategy, bars, cfg, Replay(strategy, bars, cfg, s))
    ensures Replay(strategy, bars, cfg, s).i >= |bars|
    decreases |bars| - s.i
  {
    hide AllAccounted;
    if s.i < |bars| {
      StepAccounts(strategy, bars, cfg, s);
      hide Step;
      ReplayAccounts(strategy, bars, cfg, Step(strategy, bars, cfg, s));
    }
  }

  lemma StepAccounts(strategy: Strategy, bars: seq<Bar>, cfg: Config, s: Sim)
    requires s.i < |bars| && AllAccounted(strategy, bars, cfg, s) && (s.open.Some? ==> s.open.value.signalBar <= s.i)
    ensures var next := Step(strategy, bars, cfg, s);
            AllAccounted(strategy, bars, cfg, next) && (next.open.Some? ==> next.open.value.signalBar <= next.i)
  {
    var next := Step(strategy, bars, cfg, s);
    forall b: nat | b < next.i && b < |bars| ensures IsAccounted(strategy, bars, cfg, next, b) {
      if s.open.None? {
        EntryAccounts(strategy, bars, cfg, s, b);
      } else {
        ManageAccounts(strategy, bars, cfg, s, b);
      }
    }
    hide IsAccounted;
    if s.open.None? {
      EntrySignalBar(strategy, bars, s.i, cfg);
      EntersIff(strategy, bars, s.i, cfg);
    } else {
      ManagedStep(strategy, bars, cfg, s);
    }
    hide TryEnter, ManageBar, RulesOk, VolumeCap, MarketStateAt;
  }

  /**
   Over every backtest with enough bars: a bar that signals in an allowed session and can be
   filled starts a trade, unless a trade is on at that bar or an earlier signal that could not
   be filled is still being waited for; only the position left open at the end has no trade.
   */
  lemma NoSignalIsMissed(strategy: Strategy, bars: seq<Bar>, cfg: Config, b: nat)
    requires cfg.minBarsRequired <= |bars| && b < |bars| && Signals(strategy, bars, cfg, b)
    ensures var result, last := Backtest(strategy, bars, cfg), Replay(strategy, bars, cfg, START);
            && result == BacktestResult(Completed, last.trades, |bars|)
            && (InTrade(last, b) || IsWaiting(strategy, bars, cfg, b)
                || (last.open.Some? && last.open.value.signalBar <= b))
  {
    hide InTrade, IsWaiting, Signals, Replay;
    ReplayAccounts(strategy, bars, cfg, START);
    assert IsAccounted(strategy, bars, cfg, Replay(strategy, bars, cfg, START), b);
  }

  /** Too few bars are no backtest at all. */
  lemma TooFewBars(strategy: Strategy, bars: seq<Bar>, cfg: Config)
    ensures Backtest(strategy, bars, cfg).status == InsufficientData <==> |bars| < cfg.minBarsRequired
    ensures |bars| < cfg.minBarsRequired ==> Backtest(strategy, bars, cfg).trades == []
    ensures Backtest(strategy, bars, cfg).barsEvaluated == |bars|
  {
    hide Replay;
  }

  // --------------------------------------------------------- The R multiple

  /** A trade has an R multiple if and only if it risked something, and then it is the profit in units of the risk. */
  lemma RMultipleMeans(t: Trade, bars: seq<Bar>, cfg: Config)
    requires TradeOk(t, bars, cfg)
    ensures var risk := t.position.entryPrice - t.position.stop;
            && (t.rMultiple.Some? <==> risk > 0.0)
            && (t.rMultiple.Some? ==> t.rMultiple.value * (t.position.filled as real * risk) == t.realizedPnl)
  {
    hide AdjustedPrice, ExitsOk, SumValue;
  }
}
