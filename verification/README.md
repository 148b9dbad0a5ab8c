# Verified model of the trading system's core protocols

This project models, in Dafny, the parts of a KIS/Alpaca trading system whose correctness rests
on protocols, loops and arithmetic, and proves what they promise for all inputs, all runs and all
interleavings. `dafny verify dfyconfig.toml` checks everything.

| Area | Files |
|---|---|
| Trading calendar | `Dates`, `MarketHours`, `KisMarketSchedule`, `OperationalCalendar` |
| Backtest replay and metrics | `BacktestEngine`, `BacktestTheorems`, `BacktestRules`, `BacktestMetrics` |
| Cross-process rate limiter | `TempArtifacts`, `RateLimiter`, `RateLimiterProtocol`, `RetryLoop` |
| Crash-safe ordering | `OrderIntentLedger`, `Reconciliation`, `PaperOrders`, `OrderProtocol`, `ReconcilePass` |
| Account reads | `PagedSweep`, `RowMerge`, `FillInquiry`, `OrderInquiry` |
| Shared state machines | `ShadowAudit`, `TokenCache`, `KillSwitch`, `NotificationHealth` |
| Shared helpers | `Wrappers` (Option and Result), `Text` (str.strip), `Numbers` (Min and Max) |

How the source's forms appear: an object or file that the source changes in place is a class
whose methods reassign its fields and are proved against a function of the old state; a loop that
updates variables is a method with its invariants; expressions are functions. Where processes
interleave, the same steps appear again as a step system with a crash allowed between any two of
them, and safety is proved by an invariant over every run.

Conventions. Dates are day numbers (1 January of year 1 is day 1), times are integers (seconds for
the calendar, ticks of a clock elsewhere), prices and quantities are reals or integers. Files are
either their old or their new contents. What the outside world decides (the clock, the broker's
answers, which lock, read or write fails, what other processes commit in between) is a parameter
over which every theorem quantifies. A strategy is any function of the visible prefix of bars.

## Where the code differs from what it promises

Each of these is modelled as the code has it, with the exact condition or a concrete run.

- A partial exit never wants more than is held if and only if the configured fraction is at most
  one; the source reads the fraction from the environment without checking it
  (`BacktestTheorems.PartialExitFitsIffFractionAtMostOne`). Conservation is proved for fractions up to one.
- A first-target bar too thin to sell anything still marks the position as partially exited, so that the
  second target applies to every filled share. A trade sells at its first target if and only if the first bar
  that touched it had volume (`BacktestTheorems.FirstTargetIsSoldIff`).
- One broker order per symbol and day is not guaranteed: when the answer to a received order is lost, the
  history row is marked failed before the ledger row is aborted, and the slot opens again; another process may
  even have confirmed that order in between (`OrderProtocol.ConfirmedOrderCanBeDoubled`). The promise holds over
  every run in which no such answer is lost (`OrderProtocol.OneOrderPerSlotUnlessReceiptLost`), and after a lost
  one the slot can be ordered twice if and only if the day's limit is not reached
  (`OrderProtocol.LostReceiptDoublesIff`).
- `_transition` does not look at the row's present state, so committing an aborted id can occupy a
  slot twice (`OrderIntentLedger.CommitKeepsSlotsIff`).
- `DRY_RUN` is in neither reconciliation vocabulary, and a dry-run observation moves a row backwards
  (`Reconciliation.ProgressFallsIff`, `Reconciliation.DryRunLosesProgress`).
- A reconciliation pass parks a pending order in `MANUAL_REVIEW` for good if and only if the broker does not
  know it at that moment (`ReconcilePass.ParkedIff`), an order that is just about to be received included
  (`ReconcilePass.InFlightOrderIsParked`).
- Two pending records of one slot, left by a failed attempt whose record was not settled, compete for one history
  row: the last one the broker answers about decides (`ReconcilePass.HistoryFollowsTheLastRecord`).
- `inquire` says it never raises; it raises exactly when it meets a row that is not an object
  (`OrderInquiry.RaisesIff`). The average fill price divides by shares that carried no price, and is
  the true price if and only if every counted share is priced (`FillInquiry.AverageIsFairIff`).
- A row that names no venue counts once for each leg that echoes it (`RowMerge.EchoCollapsesIff`).
- A state file whose name contains a line break yields temporaries that its own pattern rejects
  (`TempArtifacts.WrittenNameParsesBackIff`).
- A New Year's Day closes the market if and only if it is not a Saturday, because the observed day of a
  Saturday belongs to the previous year (`MarketHours.NewYearIsObservedIff`).
- The notification tracker says it never overrides a more restrictive state; it does exactly when
  that state was set between its check and its write (`NotificationHealth.EscalationWeakensIff`,
  `NotificationHealth.ReviewIsOverridden`).
- A cached token dated in the future is a miss now and can become a hit later
  (`TokenCache.MissStaysIff`), so single issuance is proved from a cache that is dead, not merely missed.

## Model

| member | source | states |
|---|---|---|
| `MarketHours.EasterIsFirstSundayAfterPaschalMoon` | market_hours.py:60-75 | For every year the thirteen-integer computus gives the ecclesiastical Easter: the first Sunday after the paschal full moon, defined independently from the epact, never before 22 March nor after 25 April, and in its own year |
| `MarketHours.EasterDateValid` | market_hours.py:60-75 | Month and day always form a real date of the year, and the month correction fires exactly in the two exceptional moon ages |
| `MarketHours.ObservedDateSpec` | market_hours.py:34-40 | A fixed-date holiday is observed on the weekday nearest to it |
| `MarketHours.NthWeekday` | market_hours.py:43-47 | The loop finds the n-th given weekday on or after the first of the month |
| `MarketHours.LastWeekday` | market_hours.py:50-57 | The loop finds the last given weekday of the month, December included |
| `MarketHours.HolidaysSpread` | market_hours.py:78-91 | The ten holidays of every year are more than three days apart and end more than three days before the next year |
| `MarketHours.HolidaysAreApart` | market_hours.py:78-99 | No two market holidays are within three days, not even across a year end |
| `MarketHours.YearEndIsNoHoliday` | market_hours.py:78-99 | 31 December is never a market holiday |
| `MarketHours.HolidaysAreTheNamedOnes` | market_hours.py:34-95 | Every day is a holiday if and only if it is one of the ten named ones of its year, each given by weekday and date range, the nearest weekday, or the first Sunday after the paschal moon |
| `MarketHours.OtherHolidaysAreFound` | market_hours.py:78-95 | Every listed holiday but New Year's falls in its own year and is found there |
| `MarketHours.NewYearIsObservedIff` | market_hours.py:34-95 | New Year's Day closes the market on its observed day if and only if it is not a Saturday; on a Saturday that day is the last of the year before, and a market day |
| `MarketHours.MarketDayIff` | market_hours.py:98-99 | A market day is a Monday to Friday that is none of the ten named holidays of its year, Saturday New Years aside |
| `MarketHours.MarketDayWithinFour` | market_hours.py:98-99 | Any four consecutive days hold a market day, so every search below ends |
| `MarketHours.NextRegularOpen` | market_hours.py:123-132 | The loop ends within four days on the least market day whose 09:30 is after the given moment |
| `MarketHours.NoEarlierOpen` | market_hours.py:123-132 | No market day opens between the moment and the open it returns |
| `MarketHours.MarketStateByTheClock` | market_hours.py:143-155 | 4:00, 9:30, 16:00 and 20:00 part a market day into its states, any other day is closed, and the regular session starts at the open the search finds |
| `KisMarketSchedule.WindowsAreDisjoint` | config/kis_market_schedule.py:90-103 | Rows of either table never overlap, so search order does not matter |
| `KisMarketSchedule.WindowByClock` | config/kis_market_schedule.py:121-146 | The window at every Korean clock time under either table, the wrapping regular window included |
| `KisMarketSchedule.ClosedHour` | config/kis_market_schedule.py:129-146 | There is no window exactly from 09:00 to 10:00 in Korea, all year |
| `KisMarketSchedule.WindowsAgreeWithMarketHours` | config/kis_market_schedule.py:90-146 | The premarket and regular windows are exactly the Eastern hours the market calendar uses, under both tables |
| `KisMarketSchedule.DaytimeIsDatedInKorea` | config/kis_market_schedule.py:154-177 | In daytime the trading day is the Korean date, on both sides of Eastern midnight |
| `KisMarketSchedule.ElsewhereIsDatedInTheEast` | config/kis_market_schedule.py:154-177 | Outside daytime the trading day is the Eastern date, a day behind Korea until 13:00 or 14:00 there |
| `KisMarketSchedule.GivenWindowIsBelieved` | config/kis_market_schedule.py:154-177 | A given window outranks the clock, and only daytime in the Eastern afternoon moves the date |
| `KisMarketSchedule.DaytimeRunStaysInOneDay` | config/kis_market_schedule.py:154-177 | An unbroken daytime run stays inside one Korean date whatever the daylight-saving flag does |
| `OperationalCalendar.NextValidTradingDay` | config/operational_calendar.py:81-94 | Five candidates always suffice: the answer is the least market day at or after the start, and None only for no date |
| `OperationalCalendar.PriorTradingDay` | config/operational_calendar.py:203-219 | The answer is the greatest market day before the date |
| `OperationalCalendar.SearchesInvert` | config/operational_calendar.py:81-219 | The two searches undo each other on a day if and only if it is a market day |
| `OperationalCalendar.OperationalTradingDay` | config/operational_calendar.py:124-140 | Daytime resolves to the next market day from its trading day, a closed hour to none, another window to its own date if it trades |
| `OperationalCalendar.OneDayPerDaytimeRun` | config/operational_calendar.py:124-140 | Every moment of one daytime run has the same operational day, a market day and the next one from its trading day |
| `BacktestEngine.OpenPosition.ApplyExit` | backtest/engine.py:194-211 | One capped sale changes exactly the fields the specification says |
| `BacktestEngine.OpenPosition.Manage` | backtest/engine.py:232-292 | One bar of an open position, the temporary overwrite of the remaining quantity included, is the specification that BarSellsByRule and BarWithoutRule describe |
| `BacktestRules.BarSellsByRule` | backtest/engine.py:232-292 | A bar under a rule sells at that rule's quote what the rule wants and the volume allows, and can close only under it |
| `BacktestRules.BarWithoutRule` | backtest/engine.py:232-292 | A bar under no rule sells and closes nothing |
| `BacktestRules.OneRuleABar` | backtest/engine.py:232-292 | At most one rule governs a bar, and no target on a bar whose low reached the stop |
| `BacktestRules.EveryExitFollowsItsRule` | backtest/engine.py:89-292 | In every backtest each trade was entered on a signal after the delay, and each exit has the reason its bar's rule gives, that rule's quote and quantity; the trade is reported under the rule that closed it |
| `BacktestRules.NoRuleIsMissed` | backtest/engine.py:89-292 | In every backtest a bar of a trade's life with a rule and volume is a bar it sold at |
| `BacktestRules.EntersIff` | backtest/engine.py:134-191 | An entry is made if and only if the bar is in an allowed session, signals, and can be filled in time; otherwise the search goes on from the named bar |
| `BacktestRules.NoSignalIsMissed` | backtest/engine.py:89-131 | In every backtest a signalling bar starts a trade, unless one is on or an earlier unfillable signal is still waited for |
| `BacktestRules.TooFewBars` | backtest/engine.py:89-104 | Fewer bars than required are reported as insufficient, with no trade |
| `BacktestRules.VolumeCapIsWholePart` | backtest/engine.py:82-86 | The cap is the whole part of the allowed fraction of the volume, and nothing without volume |
| `BacktestRules.PartialShareIsNearest` | backtest/engine.py:278-280 | The partial share is the whole number nearest the fraction held, ties to even, and at least one |
| `BacktestRules.FrictionIsInBasisPoints` | backtest/engine.py:66-79 | The configured frictions are basis points of the quote |
| `BacktestRules.RMultipleMeans` | backtest/engine.py:213-229 | A trade has an R multiple if and only if it risked something, and then it is the profit in units of the risk |
| `BacktestEngine.RunBacktest` | backtest/engine.py:89-131 | The skipping loop over bars is the step-by-step replay |
| `BacktestTheorems.NoLookAhead` | backtest/engine.py:89-292 | Running the first m bars gives exactly the full run's trades whose last exit is before bar m |
| `BacktestTheorems.SaleKeepsBooks` | backtest/engine.py:194-211 | A sale of no more than is held keeps filled = remaining + sold, volume caps and every cost line |
| `BacktestTheorems.PartialExitFitsIffFractionAtMostOne` | backtest/engine.py:278-290 | The partial exit wants no more than is held, for every position, if and only if the fraction is at most one |
| `BacktestTheorems.ManageKeepsBooks` | backtest/engine.py:232-292 | One managed bar keeps the books across the partial-exit overwrite and closes exactly at zero remaining |
| `BacktestTheorems.ReplayConserves` | backtest/engine.py:89-131 | Every state of every replay keeps good books and non-overlapping trades |
| `BacktestTheorems.BacktestConserves` | backtest/engine.py:89-292 | Each closed trade's exits sum to its fill, each fill is within its bar's volume cap, each trade ends before the next signal |
| `BacktestTheorems.RealizedPnlGap` | backtest/engine.py:66-229 | Realized profit differs from the frictionless profit of the same fills by exactly the friction on turnover plus two fees a share |
| `BacktestTheorems.CostLinesReconcile` | backtest/engine.py:66-229 | Realized profit plus the reported cost lines is the frictionless profit, and never exceeds it when fees are not negative |
| `BacktestTheorems.FlagIsSetByTouching` | backtest/engine.py:263-290 | The partial-exit flag is set by the bar that touches the first target and no other; that bar sells nothing if and only if its volume allows nothing |
| `BacktestTheorems.ReplayKeepsFlags` | backtest/engine.py:89-292 | Over every replay, every trade and open position accounts for the flag, the first-target sale and the second target by the first bar that touched |
| `BacktestTheorems.FirstTargetIsSoldIff` | backtest/engine.py:232-292 | In every backtest a trade sells at the first target if and only if the first bar that touched it had volume, and takes the second target only after that bar, sold or not |
| `BacktestTheorems.ThinFirstTouchSellsAllElsewhere` | backtest/engine.py:232-292 | In every backtest no share is sold at the first target if and only if the first bar that touched it was too thin; all filled shares are then left to the other exit rules |
| `BacktestMetrics.SortByEntrySpec` | backtest/metrics.py:55-55 | The entry order is sorted, stable and complete |
| `BacktestMetrics.DrawdownAndStreak` | backtest/metrics.py:55-69 | The single pass computes the worst decline between any two points and the longest contiguous run without a win |
| `BacktestMetrics.ComputeMetrics` | backtest/metrics.py:29-80 | Every metric has its declarative meaning, and metrics are undefined exactly for no trades |
| `BacktestMetrics.OutcomesPartTheTrades` | backtest/metrics.py:25-41 | Every trade is counted once, the profitable ones as wins and all others, break-even included, as losses |
| `BacktestMetrics.MeasuresAddUp` | backtest/metrics.py:42-46 | Profit and R values of a list are those of its parts, down to the single trade; a trade without an R multiple adds none |
| `BacktestMetrics.EquityIsTotalPnl` | backtest/metrics.py:56-62 | The equity the drawdown is measured on is the profit of the trades so far |
| `BacktestMetrics.BestTradeRemovalNeverFlatters` | backtest/metrics.py:83-99 | Dropping the best trade removes exactly its profit and never improves the average |
| `BacktestMetrics.ComputeMetricsWithBestTradeRemoved` | backtest/metrics.py:83-99 | The second answer describes the trades without the best, exists from two trades on, and never has a higher expectancy |
| `TempArtifacts.NumberOfDecimal` | brokers/kis_rate_limiter.py:172-173 | Reading a printed process id gives it back |
| `TempArtifacts.FullMatchComplete` | brokers/kis_rate_limiter.py:163-173 | Parsing finds the captures of every name the pattern matches |
| `TempArtifacts.MatchIsUnique` | brokers/kis_rate_limiter.py:163-173 | A name matches in at most one way, whatever dots and digits the state name holds |
| `TempArtifacts.WrittenNameParsesBackIff` | brokers/kis_rate_limiter.py:163-173 | A written name parses back to its parts if and only if the state name is not empty and has no line break |
| `TempArtifacts.ClaimedByExactlyOne` | brokers/kis_rate_limiter.py:176-178 | A well-formed temporary is claimed by its own state file and no other, dotted prefixes included |
| `TempArtifacts.StateDirectory.ScanNamespace` | brokers/kis_rate_limiter.py:729-806 | The scan reports the classification of every claimed entry and changes nothing |
| `TempArtifacts.ScannedExactly` | brokers/kis_rate_limiter.py:729-806 | Every claimed entry of the listing is reported, and nothing else |
| `TempArtifacts.DigitsAre` | brokers/kis_rate_limiter.py:169-169 | The pattern's character classes, digit by digit |
| `TempArtifacts.ClaimsIff` | brokers/kis_rate_limiter.py:760-767 | A state file claims a name under its prefix unless the name is wholly another state file's temporary |
| `TempArtifacts.ClassifyIff` | brokers/kis_rate_limiter.py:781-806 | Stale means a regular, well-named file of a dead process, live one of a process that may be alive, invalid anything else |
| `TempArtifacts.EnforcePassesIff` | brokers/kis_rate_limiter.py:808-845 | The namespace is refused for good if and only if it holds something no limiter writes, else for now if and only if a writer may be alive, else every claimed entry is a dead writer's temporary |
| `TempArtifacts.RemovableIsOrphan` | brokers/kis_rate_limiter.py:847-926 | What a cleanup may remove from a scan is a claimed, regular temporary of a dead writer that is old enough |
| `TempArtifacts.StateDirectory.CleanupStale` | brokers/kis_rate_limiter.py:847-965 | Nothing but a stale, old enough, unchanged regular file is removed, and a normal return removed all of those |
| `RateLimiter.SlotIsSpaced` | brokers/kis_rate_limiter.py:663-725 | A granted slot is a full interval after the recorded one, not in the past, and slept until |
| `RateLimiter.KisRateLimiter.WaitLocked` | brokers/kis_rate_limiter.py:639-725 | A refused namespace touches nothing; only old enough orphans of dead writers are ever removed, all of them by a normal return; a slot is returned only when durably recorded, and is returned whenever everything works |
| `RateLimiter.KisRateLimiter.Wait` | brokers/kis_rate_limiter.py:462-548 | A wait returns only with its slot persisted and the lock released, and does return when everything works; a failed release stops this limiter for good |
| `RateLimiterProtocol.StepKeepsInv` | brokers/kis_rate_limiter.py:639-725 | Every step, crash and power loss keeps the slot chain, the lock discipline and the durable prefix |
| `RateLimiterProtocol.GrantedSlotsAreSpaced` | brokers/kis_rate_limiter.py:639-725 | Over every run, waits of one category that returned hold slots at least an interval apart, clocks stepping back included |
| `RateLimiterProtocol.RecordedSlotNeverFalls` | brokers/kis_rate_limiter.py:1035-1113 | No step lowers a recorded slot, except that a power loss, keeping any number of unsynced renames, falls back no further than the durable one |
| `RateLimiterProtocol.GrantedSlotsSurvive` | brokers/kis_rate_limiter.py:1035-1113 | A granted slot survives every later step, power loss included |
| `RateLimiterProtocol.AnythingCanHappen` | brokers/kis_rate_limiter.py:639-725 | In every state a free lock can be taken, a call at work can fail or crash, and the power can fail with every rename kept or only the synced ones |
| `RateLimiterProtocol.RateIsBounded` | brokers/kis_rate_limiter.py:639-725 | Any window of length W holds at most W / interval + 1 granted slots of a category |
| `RateLimiterProtocol.QueueReach` | brokers/kis_rate_limiter.py:378-402 | With a clock that never falls, k slots in the future put the last at most k intervals ahead |
| `RateLimiterProtocol.HorizonAdmitsTheQueue` | brokers/kis_rate_limiter.py:393-402 | A queue no deeper than the configured depth never trips the corruption guard, and a caller sleeps at most k + 1 intervals |
| `RateLimiterProtocol.HorizonIsTight` | brokers/kis_rate_limiter.py:393-402 | A burst deeper than the horizon allows is refused as a future timestamp |
| `RetryLoop.BackoffDelays` | brokers/kis_rate_limiter.py:426-433 | The delays double from the base, never fall, and never exceed the cap |
| `RetryLoop.SendUntilSettled` | brokers/kis_rate_limiter.py:1125-1144 | Each send is paced just before it and only the per-second cap leads to another, after the next delay |
| `RetryLoop.CallWithRetry` | brokers/kis_rate_limiter.py:1118-1144 | Only a READ is sent again, at most once for every delay; an order, cancellation or token request is sent at most once |
| `OrderIntentLedger.Ledger.Reserve` | order_intent_ledger.py:148-204 | The row scan is the first-active-row specification, for every broker answer and write failure |
| `OrderIntentLedger.Ledger.Transition` | order_intent_ledger.py:207-216 | Exactly the rows of the id change state; a missing id or failed write changes nothing |
| `OrderIntentLedger.ReserveKeepsSlots` | order_intent_ledger.py:148-204 | A reservation never leaves two rows of a slot that are not aborted |
| `OrderIntentLedger.ReserveOnlyAppends` | order_intent_ledger.py:148-204 | A reservation adds at most one row, only to a free slot, and changes an old row only to commit one found at the broker |
| `OrderIntentLedger.AbortKeepsSlots` | order_intent_ledger.py:224-226 | An abort never occupies a slot twice |
| `OrderIntentLedger.CommitKeepsSlotsIff` | order_intent_ledger.py:219-221 | A commit keeps slots single if and only if the row is still active or its slot is free |
| `Reconciliation.MergeIsIdempotent` | paper_strategy_order.py:693-729 | Merging the same observation again changes nothing |
| `Reconciliation.MergeTakesWhatIsSaid` | paper_strategy_order.py:693-729 | Price and time are taken when observed, the broker's word only along with a status, missing quantities count as nothing |
| `Reconciliation.StatusIsTakenIff` | paper_strategy_order.py:668-690 | Within the vocabulary a status is taken if and only if the row is not settled and the status is not behind its own |
| `Reconciliation.ProgressFallsIff` | paper_strategy_order.py:668-690 | A merge moves a status back if and only if a dry-run observation meets a row that is not terminal |
| `Reconciliation.DryRunLosesProgress` | paper_strategy_order.py:668-729 | After a dry-run observation a partially filled row can return to its first status |
| `Reconciliation.FilledIsMaximum` | paper_strategy_order.py:693-729 | After any observations in any order, filled is the largest ever seen and remaining is requested less filled, not below zero |
| `Reconciliation.StatusOverARun` | paper_strategy_order.py:668-729 | Within the declared vocabulary rank never falls, terminal statuses absorb, and the first terminal observation decides |
| `Reconciliation.ReconciliationFile.UpdateRow` | paper_strategy_order.py:732-777 | The row is merged in place or created, and any failure writes nothing |
| `Reconciliation.UpdateTouchesOneOrder` | paper_strategy_order.py:732-777 | An update keeps one row per id, loses none and touches no other order |
| `PaperOrders.ReservedHistoryKeepsRules` | paper_strategy_order.py:932-965 | A reservation that passed the checks keeps one row per slot and the daily limit |
| `PaperOrders.WithStatusKeepsRules` | paper_strategy_order.py:1052-1070 | A status rewrite keeps both rules |
| `PaperOrders.NotDuplicateIff` | paper_strategy_order.py:932-951 | A slot is free if and only if every row it has is of an attempt known to have failed |
| `PaperOrders.PendingRecordMeans` | paper_strategy_order.py:780-797 | A reservation is recorded with nothing filled, all of it remaining and no word from the broker |
| `PaperOrders.PaperOrders.TryReserveOrder` | paper_strategy_order.py:978-1049 | A normal return leaves all three rows for the id; a failure after the ledger reservation leaves it aborted if the abort is written; an earlier one leaves history and records untouched |
| `PaperOrders.PaperOrders.UpdateOrderStatus` | paper_strategy_order.py:1052-1070 | Only the slot's status changes, on a fresh read, and both rules are kept |
| `OrderProtocol.StepKeepsInv` | paper_strategy_order.py:978-1070 | Every step of every process and every crash keeps the history, ledger, job and order invariants |
| `OrderProtocol.CommitIsOfAnActiveRow` | paper_strategy_order.py:1327-1333 | Over every run a commit is of the job's own row while that row is still active, and leaves it committed if it is written |
| `OrderProtocol.OrderingIsSafe` | paper_strategy_order.py:1237-1333 | In every reachable state each submission has its own ledger row, no slot has two rows that are not aborted, and the history keeps both rules |
| `OrderProtocol.OneOrderPerSlotUnlessReceiptLost` | paper_strategy_order.py:1237-1333 | Over every run in which no answer to a received order is lost, the broker holds at most one order for a symbol and day |
| `OrderProtocol.LostReceiptCanBeDoubled` | paper_strategy_order.py:1286-1312 | Any run in which a job gave up an order the broker received, with the lock free and the day's limit not reached, goes on to a second order for the slot |
| `OrderProtocol.LostReceiptDoublesIff` | paper_strategy_order.py:1286-1312 | After a lost receipt, with the lock free, some continuation orders the slot twice if and only if the day's limit is not reached |
| `OrderProtocol.FullDayTakesNoOrder` | paper_strategy_order.py:954-1003 | Over every run a day at its limit takes no further order for a slot nobody is about to submit |
| `OrderProtocol.SlotStaysClosedUntilAborted` | order_intent_ledger.py:148-226 | Over every run an active row stays active and keeps its slot closed to every later reservation until a job holding its id aborts it |
| `OrderProtocol.CrashedReservationIsNeverReserved` | order_intent_ledger.py:148-226 | Over every run, a row whose process crashed stays active for ever, no later job has its id, and no later row is reserved for its slot |
| `OrderProtocol.NormalReturnLeavesAllThree` | paper_strategy_order.py:978-1049 | In every interleaving a normal return leaves a pending history row, a reserved ledger row and a record |
| `OrderProtocol.FailedReturnAborts` | paper_strategy_order.py:1020-1049 | A failure after the ledger reservation ends with that row aborted if the write succeeds |
| `OrderProtocol.OpenSlotCanBeOrdered` | paper_strategy_order.py:978-1049 | From any reachable state an open slot can be reserved and its order reach the broker |
| `OrderProtocol.ConfirmedOrderCanBeDoubled` | paper_strategy_order.py:1286-1312 | A concrete run in which a confirmed order's row is aborted and the slot is ordered again |
| `ReconcilePass.ReconcilePendingOrders` | paper_strategy_order.py:829-882 | The loop over the rows pending at the start, with every lookup, lock and file failure, is the pass specification; it raises exactly when some answered, updated and reloaded row meets a history lock that times out |
| `ReconcilePass.PassNeverRegresses` | paper_strategy_order.py:829-882 | Whatever the broker answers and whichever files fail, no row is added or removed, loses progress or fills, or leaves a settled status |
| `ReconcilePass.PassSettlesThePending` | paper_strategy_order.py:829-882 | When files work, exactly the pending rows are merged with the broker's answer about them |
| `ReconcilePass.TheBrokersWordDecides` | paper_strategy_order.py:109-119 | A pending row takes the status of the broker's word, an unknown word is UNKNOWN, and only a partial fill is not taken back; fills, price and remaining follow |
| `ReconcilePass.NoAnswerSettlesNothing` | paper_strategy_order.py:849-858 | A row whose lookup failed is left as it was, and pending means neither settled nor a dry run |
| `ReconcilePass.PassIsIdempotent` | paper_strategy_order.py:829-882 | A second pass with the same answers changes no row |
| `ReconcilePass.HistoryFollowsTheLastRecord` | paper_strategy_order.py:872-882 | The history row of a slot shows the status settled for its last pending record that the broker answered about, over whatever an earlier record of the slot was settled on |
| `ReconcilePass.HistoryShowsTheBrokersWord` | paper_strategy_order.py:863-882 | The history row takes the same status from the broker's word about that record |
| `ReconcilePass.HistoryKeepsUnanswered` | paper_strategy_order.py:849-882 | The history row of a slot with no answered pending record is unchanged |
| `ReconcilePass.ParkedIff` | paper_strategy_order.py:860-861 | Any pending row is parked in manual review if and only if the broker does not know its order, and then stays there whatever is observed later |
| `ReconcilePass.InFlightOrderIsParked` | paper_strategy_order.py:829-882 | A run in which the pass asks before the broker receives the order: the ledger row ends committed and the broker holds the order, while record and history stay in manual review |
| `PagedSweep.SweepLeg` | brokers/kis_broker.py:1258-1310 | The page loop with its set of seen cursors is the leg specification, in at most fifty requests |
| `PagedSweep.SweepExchangesPaged` | brokers/kis_broker.py:1221-1310 | The sweep ends within fifty requests a venue for any broker behaviour, and the first failure is the whole answer |
| `PagedSweep.FollowedIff` | brokers/kis_broker.py:1283-1299 | A page leads to another if and only if its header is F or M in either case and it names a next key |
| `PagedSweep.LegReturnsIffChainEnds` | brokers/kis_broker.py:1258-1310 | A leg returns pages if and only if they are the whole chain from the empty cursor to the first page not followed, within the limit and without a repeated cursor |
| `PagedSweep.SweepIsComplete` | brokers/kis_broker.py:1221-1310 | A sweep returns legs if and only if they are, in venue order, exactly the whole chain of every venue, each begun with the request after the one before it |
| `RowMerge.TagKeepsIdentity` | brokers/kis_broker.py:728-731 | Tagging never changes what counts as the same record |
| `RowMerge.TagReplacesNothing` | brokers/kis_broker.py:1313-1333 | A tag names the asking leg and the row's own venue, and replaces nothing the row said |
| `RowMerge.MergeRows` | brokers/kis_broker.py:797-811 | The nested loops with their set of seen identities keep the first read of every identity and everything without one |
| `RowMerge.KeptIsDistinctAndComplete` | brokers/kis_broker.py:797-811 | What is kept was read, has distinct identities and covers every identity |
| `RowMerge.DistinctReadsAreAllKept` | brokers/kis_broker.py:764-794 | Distinct records are all kept |
| `RowMerge.EchoCollapsesIff` | brokers/kis_broker.py:734-747 | An object echoed by two legs becomes one row if and only if it names its venue or the codes agree |
| `RowMerge.OrderNumberWouldLoseAFill` | brokers/kis_broker.py:764-794 | Two fills of one order are kept by execution identity and would be merged by order number |
| `FillInquiry.Aggregate` | brokers/kis_fill_inquiry.py:166-202 | The summing loop with its early exits is the declarative summary of the order's rows |
| `FillInquiry.RowIsReadFrom` | brokers/kis_fill_inquiry.py:63-65 | The fields an execution row is matched, counted and priced by, the first non-empty spelling deciding; a quantity or price that is not positive counts nothing |
| `FillInquiry.RowsAreReadInOrder` | brokers/kis_fill_inquiry.py:190-193 | Symbol and venue come from the first row that has one, the time from the last, the ordered quantity from the first that is a number other than zero |
| `FillInquiry.TotalsAddUp` | brokers/kis_fill_inquiry.py:180-197 | The filled quantity and what was paid are sums over the rows of the order alone, whichever way the rows are split |
| `FillInquiry.MergedExecutions` | brokers/kis_broker.py:764-811 | When rows name their venues, the merged rows are distinct executions and exactly those reported |
| `FillInquiry.MoreExecutionsNeverLower` | brokers/kis_fill_inquiry.py:166-202 | Reading more executions only raises the totals, and keeps an answer usable backwards |
| `FillInquiry.TotalsIgnorePaging` | brokers/kis_fill_inquiry.py:166-202 | Two reads reporting the same executions, however paged, repeated or echoed, give the same usability, count, filled quantity and average |
| `FillInquiry.PaidIsBetween` | brokers/kis_fill_inquiry.py:192-196 | What was paid lies between the lowest and the highest price of the priced shares |
| `FillInquiry.AverageIsFairIff` | brokers/kis_fill_inquiry.py:192-199 | The reported average is the true average price if and only if every counted share is priced, and otherwise below it |
| `OrderInquiry.StillOpenMeansInBook` | brokers/kis_fill_inquiry.py:343-356 | The scan of the book finds the order exactly when it is there |
| `OrderInquiry.AbandonsIff` | brokers/kis_fill_inquiry.py:229-321 | A submission is reported dead with nothing filled if and only if the account shows no execution, the readable book lacks the order, and it is known to be fifteen minutes old |
| `OrderInquiry.FinalIff` | brokers/kis_fill_inquiry.py:275-321 | A report is final if and only if everything is filled, or the book was read without the order and the order is known to be fifteen minutes old; never for a partial fill still open |
| `OrderInquiry.ReportIsAboutTheRows` | brokers/kis_fill_inquiry.py:262-300 | A usable report carries the order's id, the sum and average of its rows, and what was asked for before what the rows say |
| `OrderInquiry.StoreActsIff` | brokers/kis_fill_inquiry.py:96-122 | A store acts if and only if something was filled or the report is final, and sees exactly that |
| `OrderInquiry.UnknownIff` | brokers/kis_fill_inquiry.py:229-268 | UNKNOWN exactly for no id, a failed read or a non-numeric quantity; it carries no filled quantity and nothing a store acts on |
| `OrderInquiry.RaisesIff` | brokers/kis_fill_inquiry.py:229-300 | The inquiry raises exactly when it meets a row that is not an object |
| `OrderInquiry.QuantitiesAddUp` | brokers/kis_fill_inquiry.py:275-300 | Filled and remaining account for the whole order, FILLED means all of it, and with nothing filled everything ordered remains |
| `OrderInquiry.VerdictIgnoresPaging` | brokers/kis_fill_inquiry.py:229-300 | With the ordered quantity known, the verdict depends only on which executions were reported |
| `OrderInquiry.VerdictDependsOnOrder` | brokers/kis_fill_inquiry.py:193-269 | Without it, two rows that disagree on the ordered quantity are FILLED in one order and PARTIALLY_FILLED in the other |
| `OrderInquiry.FilledNeverFalls` | brokers/kis_fill_inquiry.py:229-300 | As executions are published the filled quantity never falls and FILLED stays FILLED |
| `ShadowAudit.AdmitKeepsOnce` | state_store/schema.py:419-423 | Any insert keeps one terminal row per run and loses no row |
| `ShadowAudit.FirstFinalizerWins` | shadow_audit.py:314-363 | For any sequence of racing inserts the stored outcome of a run is the first terminal one that reached the database |
| `ShadowAudit.ReturnsAgree` | shadow_audit.py:383-397 | Finalizers that returned normally returned the same outcome, whenever each looked |
| `ShadowAudit.EventTable.InsertOnce` | shadow_audit.py:216-243 | Success is reported only for a row that is in the table; nothing else of this process is written |
| `ShadowAudit.EventTable.RecordEvent` | shadow_audit.py:246-294 | At most five attempts, retried only while the database is locked, for any interleaving and fault |
| `ShadowAudit.EventTable.FinalizeAuditRun` | shadow_audit.py:314-380 | The answer is decided by the stored outcome: normal exactly when it is the one asked for, a contradiction when it is another, unpersisted exactly when there is none; undisturbed, it adds at most the one row, with the outcome's own result |
| `TokenCache.StoreLoadRoundTrip` | brokers/kis_token_cache.py:138-223 | A stored token loads back under its identity exactly until its refresh point, and never under another |
| `TokenCache.StoredTokenLoadsIff` | brokers/kis_token_cache.py:138-223 | Any stored token loads back if and only if it is not blank, has a lifetime with more than the refresh skew left, and not more than the longest lifetime to go; one without a lifetime is never shared |
| `TokenCache.AcceptedTokenIsSane` | brokers/kis_token_cache.py:159-199 | An accepted token is the caller's own, has more than the refresh skew to live, and no more than the clock skew and a whole lifetime, whatever the file holds |
| `TokenCache.SharedCache.GetOrIssue` | brokers/kis_token_cache.py:227-287 | At most one token is issued, only after a miss under the lock or without one; a usable record is returned and never replaced; what is stored is usable exactly until its refresh point |
| `TokenCache.MissStaysIff` | brokers/kis_token_cache.py:163-195 | A miss is for ever unless the entry is dated in the future and otherwise valid |
| `TokenCache.StepKeepsInv` | brokers/kis_token_cache.py:227-287 | Every step, crash, timeout and failed store keeps the lock, token, time and freshness invariants |
| `TokenCache.NoIssueWhileFresh` | brokers/kis_token_cache.py:227-287 | In every run no token is issued under the lock while a stored earlier one is before its refresh point |
| `TokenCache.ReturnedTokensWereIssued` | brokers/kis_token_cache.py:227-287 | Every token a caller was given was issued in this run |
| `TokenCache.OneIssuanceForAll` | brokers/kis_token_cache.py:227-287 | From a cold or expired cache, with locks and stores working, one token is issued until its refresh point and every caller has it |
| `KillSwitch.PermissionsFailClosed` | kill_switch_state.py:145-193 | Entries pass only for an absent or ACTIVE file, exits also for ENTRY_DISABLED, and nothing for a file that cannot be trusted |
| `KillSwitch.LoadedPayload` | kill_switch_state.py:145-168 | What a reader sees of an absent, a sound and a corrupt file |
| `KillSwitch.TakenUpIff` | kill_switch_state.py:215-219 | A call is taken up if and only if it names a known state, its author and, to activate, a reason |
| `KillSwitch.KillSwitchFile.Transition` | kill_switch_state.py:196-296 | The new file, result and error of every activation and release, with lock timeouts and failed writes leaving the file untouched |
| `KillSwitch.StepKeepsInv` | kill_switch_state.py:196-296 | Every step of every caller keeps the file, log and lock invariants and only appends to the history |
| `KillSwitch.BlockSharesActivation` | kill_switch_state.py:226-244 | The current activation time is that of the first entry of the trailing block of its state |
| `KillSwitch.HistoryIsTheWholeStory` | kill_switch_state.py:196-296 | After any interleaving the history is the old one plus one entry for each effective call in order, with that call's author, reason and expiry; a new state starts at the call's time and a repeated one keeps its block's first |
| `KillSwitch.OnlyACallReactivates` | kill_switch_state.py:186-296 | Entries come back only through a call that asks for ACTIVE |
| `NotificationHealth.Notifier.RecordSuccess` | notification_health.py:197-221 | The record is reset and the switch untouched, or nothing changes |
| `NotificationHealth.Notifier.RecordFailure` | notification_health.py:224-254 | The record counts one more, and only a persisted streak at the threshold escalates |
| `NotificationHealth.Notifier.EscalateKillSwitch` | notification_health.py:257-273 | An ACTIVE switch becomes ENTRY_DISABLED when lock and write succeed; any other state is untouched |
| `NotificationHealth.CountIsTheStreak` | notification_health.py:197-254 | The stored count is the length of the trailing run of persisted failures |
| `NotificationHealth.DetailsAreOfTheLastSend` | notification_health.py:197-254 | After a recorded send the details and times on file are that send's, with no error kind once it got through, and the switch is as before or ENTRY_DISABLED |
| `NotificationHealth.StatusTellsTheStreak` | notification_health.py:276-286 | The reported status is that streak compared with the threshold |
| `NotificationHealth.EntriesStopIff` | notification_health.py:224-273 | A run of sends stops entries if and only if some persisted streak reaches the threshold, and leaves a restricting switch as it was |
| `NotificationHealth.EscalationWeakensIff` | notification_health.py:257-273 | The escalation changes a restricting state if and only if it was made harsher after the check, and then lets exits through |
| `NotificationHealth.ReviewIsOverridden` | notification_health.py:257-273 | A concrete run of the switch protocol in which MANUAL_REVIEW becomes ENTRY_DISABLED |

## Left out

- Real I/O: file locks, fsync, atomic replacement, SQLite, CSV and JSON are steps that succeed or fail; the encodings are not modelled.
- Binary floating point: prices, quantities, intervals and profit are exact reals or integers, so rounding, NaN and order-dependent sums do not appear.
- Text: Unicode digits and whitespace, case folding and non-string JSON values are not modelled; `num` stands for the number parser of fill rows.
- Dates outside years 1 to 9999, where Python raises; the model's calendar has no end.
- The time-zone database: the daylight-saving flag is an input to the KIS schedule.
- `resolve_operational_trading_day` beyond its choice of a day: session capability, explicit session arguments and the report it builds.
- `backtest/metrics.py` cost summary and per-strategy breakdowns; strategy plugins are functions of the visible bars.
- `BacktestTheorems.BacktestConserves`: needs the partial-exit fraction to be at most one, exactly when partial exits fit.
- `OrderProtocol.OrderingIsSafe`: assumes fresh client order ids, and that each process submits its reservation once.
- `BacktestRules.NoRuleIsMissed`: needs the partial-exit fraction to be at most one, as above.
- `BacktestTheorems.ThinFirstTouchSellsAllElsewhere`: needs the partial-exit fraction to be at most one, as above.
- `TokenCache.OneIssuanceForAll`: a non-decreasing clock, one identity, and no crash between issuing and storing; the general safety property without these is `TokenCache.NoIssueWhileFresh`.
- `ShadowAudit.EventTable.FinalizeAuditRun`: payloads, redaction and alerts, and the retention purge, after which an old run could be finalised again.
- `OrderInquiry.VerdictIgnoresPaging`: the ordered quantity must be given, since one taken from the rows depends on their order (`OrderInquiry.VerdictDependsOnOrder`); the symbol, venue and time of the report, which come from the first or last matching row, are not part of the verdict.
- `KillSwitch.HistoryIsTheWholeStory`: starts from a file that is absent or sound; over an unreadable file the next call begins a new history.
- Ledger and history timestamps, modes and notes, which no decision reads.
- The rate limiter's telemetry, owner names and environment parsing, and process ids too large for the operating system.
- Order routing, live entry pipelines, position management, scanners, dashboards and Slack, and the other single-page account reads.
