/** The health of the alert channel, and what its failures do to the kill switch (notification_health.py). */
module NotificationHealth {
  import opened Wrappers
  import opened KillSwitch

  datatype Health = Health(failures: int, lastSuccess: Option<int>, lastFailure: Option<int>,
                           statusCode: Option<int>, errorKind: string, retryResult: string)

  datatype HealthFile = Absent | Broken | Saved(health: Health)

  datatype ChannelStatus = HEALTHY | DEGRADED | FAILED | UNKNOWN

  const FRESH := Health(0, None, None, None, "", "")

  /** _load: a file that is missing or cannot be parsed is a fresh record. */
  function LoadHealth(file: HealthFile): Health {
    if file.Saved? then file.health else FRESH
  }

  /** The call _escalate_kill_switch makes; only that its reason is not empty matters here. */
  const ESCALATION := Activate(ENTRY_DISABLED, "notification_health: consecutive failures",
      "notification_health", None, "")

  /** The outcome of a send, with what was reported about it. */
  datatype Attempt = Attempt(sent: bool, statusCode: Option<int>, errorKind: string, retryResult: string)

  /** Whether the health lock and write succeed, and whether the kill switch's do. */
  datatype Weather = Weather(recorded: bool, switchLocked: bool, switchReplaced: bool)

  datatype System = System(health: HealthFile, switch: File)

  function Recorded(health: Health, attempt: Attempt, now: int): Health {
    if attempt.sent then
      health.(failures := 0, lastSuccess := Some(now), statusCode := attempt.statusCode, errorKind := "",
      retryResult := attempt.retryResult)
    else
      health.(failures := health.failures + 1, lastFailure := Some(now), statusCode := attempt.statusCode,
      errorKind := attempt.errorKind, retryResult := attempt.retryResult)
  }

  /** _escalate_kill_switch, checking `seen` and then writing over what it finds under the lock. */
  function Escalated(seen: File, held: File, weather: Weather, now: int): File {
    if StateOf(seen) != ACTIVE || !weather.switchLocked || !weather.switchReplaced then held
    else Stored(Apply(Load(held, now), ESCALATION, now))
  }

  /** One recorded send, when nothing else runs. */
  function After(s: System, attempt: Attempt, weather: Weather, threshold: nat, now: int): System {
    if !weather.recorded then s
    else
      var health := Recorded(LoadHealth(s.health), attempt, now);
      System(Saved(health),
             if !attempt.sent && health.failures >= threshold then Escalated(s.switch, s.switch, weather, now)
             else s.switch)
  }

  class Notifier {
    var health: HealthFile
    const switch: KillSwitchFile

    constructor (switch: KillSwitchFile)
      ensures health == Absent && this.switch == switch
    {
      health := Absent;
      this.switch := switch;
    }

    /** record_success. */
    method RecordSuccess(attempt: Attempt, weather: Weather, threshold: nat, now: int) returns (record: Health)
      requires attempt.sent
      modifies this
      ensures System(health, switch.file)
              == After(System(old(health), old(switch.file)), attempt, weather, threshold, now)
      ensures record == LoadHealth(health)
    {
      record := LoadHealth(health);
      if weather.recorded {
        record := record.(failures := 0, lastSuccess := Some(now));
        record := record.(statusCode := attempt.statusCode, errorKind := "", retryResult := attempt.retryResult);
        health := Saved(record);
      }
    }

    /** record_failure: never raises, and escalates only a streak it has persisted. */
    method RecordFailure(attempt: Attempt, weather: Weather, threshold: nat, now: int) returns (record: Health)
      requires !attempt.sent
      modifies this, switch
      ensures System(health, switch.file)
              == After(System(old(health), old(switch.file)), attempt, weather, threshold, now)
      ensures record == LoadHealth(health)
    {
      record := LoadHealth(health);
      if weather.recorded {
        record := record.(failures := record.failures + 1, lastFailure := Some(now));
        record := record.(statusCode := attempt.statusCode, errorKind := attempt.errorKind,
                retryResult := attempt.retryResult);
        health := Saved(record);
        if record.failures >= threshold {
          EscalateKillSwitch(weather, now);
        }
      }
    }

    /** _escalate_kill_switch; what activate raises is only logged. */
    method EscalateKillSwitch(weather: Weather, now: int)
      modifies switch
      ensures switch.file == Escalated(old(switch.file), old(switch.file), weather, now)
    {
      if StateOf(switch.file) != ACTIVE {
        return;
      }
      var _ := switch.Transition(ESCALATION, weather.switchLocked, weather.switchReplaced, now);
    }
  }

  /** get_status. */
  function GetStatus(file: HealthFile, threshold: nat): ChannelStatus {
    if !file.Saved? then UNKNOWN
    else if file.health.failures <= 0 then HEALTHY
    else if file.health.failures >= threshold then FAILED
    else DEGRADED
  }

  // ---------------------------------------------------------- Sequential runs

  datatype Send = Send(attempt: Attempt, weather: Weather, now: int)

  function RunSends(s: System, sends: seq<Send>, threshold: nat): System {
    if sends == [] then s
    else
      var last := sends[|sends| - 1];
      After(RunSends(s, sends[..|sends| - 1], threshold), last.attempt, last.weather, threshold, last.now)
  }

  /** The sends whose outcome reached the file. */
  function Persisted(sends: seq<Send>): seq<Attempt> {
    if sends == [] then []
    else
      var last := sends[|sends| - 1];
      Persisted(sends[..|sends| - 1]) + (if last.weather.recorded then [last.attempt] else [])
  }

  /** The last n attempts failed, and the one before them, if any, did not. */
  ghost predicate TrailingFailures(attempts: seq<Attempt>, n: int) {
    && 0 <= n <= |attempts|
    && (forall k :: |attempts| - n <= k < |attempts| ==> !attempts[k].sent)
    && (n < |attempts| ==> attempts[|attempts| - n - 1].sent)
  }

  /** A run has exactly one trailing streak of failures. */
  lemma TrailingFailuresAreUnique(attempts: seq<Attempt>, m: int, n: int)
    requires TrailingFailures(attempts, m) && TrailingFailures(attempts, n)
    ensures m == n
  {
  }

  /** From a fresh file the stored count is the length of the trailing run of persisted failures. */
  lemma {:induction false} CountIsTheStreak(switch: File, sends: seq<Send>, threshold: nat)
    ensures var s := RunSends(System(Absent, switch), sends, threshold);
            && TrailingFailures(Persisted(sends), LoadHealth(s.health).failures)
            && (s.health.Saved? <==> Persisted(sends) != [])
  {
    hide Escalated;
    if sends != [] {
      CountIsTheStreak(switch, sends[..|sends| - 1], threshold);
    }
  }

  /**
   The details on file are those of the last send that was recorded: what it reported, no error
   kind once it got through, and its time as the last success or the last failure.
   */
  lemma {:induction false} DetailsAreOfTheLastSend(switch: File, sends: seq<Send>, last: Send, threshold: nat)
    requires last.weather.recorded
    ensures var before := RunSends(System(Absent, switch), sends, threshold);
            var s := RunSends(System(Absent, switch), sends + [last], threshold);
            var attempt, was := last.attempt, LoadHealth(before.health);
            && s.health.Saved?
            && s.health.health.statusCode == attempt.statusCode && s.health.health.retryResult == attempt.retryResult
            && s.health.health.errorKind == (if attempt.sent then "" else attempt.errorKind)
            && (attempt.sent ==> s.health.health.lastSuccess == Some(last.now)
                                 && s.health.health.lastFailure == was.lastFailure && s.switch == before.switch)
            && (!attempt.sent ==> s.health.health.lastFailure == Some(last.now)
                                  && s.health.health.lastSuccess == was.lastSuccess)
            && (s.switch == before.switch || StateOf(s.switch) == ENTRY_DISABLED)
  {
    hide RunSends, LoadHealth;
    RunOneMore(switch, sends, last, threshold);
  }

  lemma RunOneMore(switch: File, sends: seq<Send>, last: Send, threshold: nat)
    ensures RunSends(System(Absent, switch), sends + [last], threshold)
            == After(RunSends(System(Absent, switch), sends, threshold),
                     last.attempt, last.weather, threshold, last.now)
  {
    hide After;
    assert (sends + [last])[..|sends|] == sends;
  }

  /** The status a fresh channel reports, in terms of what happened. */
  lemma StatusTellsTheStreak(switch: File, sends: seq<Send>, threshold: nat, n: int)
    requires threshold > 0 && TrailingFailures(Persisted(sends), n)
    ensures GetStatus(RunSends(System(Absent, switch), sends, threshold).health, threshold)
            == if Persisted(sends) == [] then UNKNOWN
               else if n == 0 then HEALTHY
               else if n < threshold then DEGRADED
               else FAILED
  {
    hide RunSends, Persisted, TrailingFailures;
    CountIsTheStreak(switch, sends, threshold);
    var s := RunSends(System(Absent, switch), sends, threshold);
    TrailingFailuresAreUnique(Persisted(sends), n, LoadHealth(s.health).failures);
    StreakIsNatural(Persisted(sends), n);
  }

  lemma StreakIsNatural(attempts: seq<Attempt>, n: int)
    requires TrailingFailures(attempts, n)
    ensures n >= 0
  {
  }

  /** A send whose failure is persisted at the threshold leaves entries off. */
  lemma EscalationStopsEntries(file: File, weather: Weather, now: int)
    requires weather.switchLocked && weather.switchReplaced
    ensures !IsEntryAllowed(Escalated(file, file, weather, now))
    ensures !IsEntryAllowed(file) ==> Escalated(file, file, weather, now) == file
    ensures IsLiquidationAllowed(file) ==> IsLiquidationAllowed(Escalated(file, file, weather, now))
  {
  }

  /** Some prefix of the run ends in a persisted failure with the streak at the threshold. */
  ghost predicate ReachesThreshold(sends: seq<Send>, threshold: nat) {
    exists k :: 0 < k <= |sends| && AtThreshold(sends, k, threshold)
  }

  ghost predicate AtThreshold(sends: seq<Send>, k: int, threshold: nat)
    requires 0 < k <= |sends|
  {
    && sends[k - 1].weather.recorded && !sends[k - 1].attempt.sent
    && exists n :: TrailingFailures(Persisted(sends[..k]), n) && n >= threshold
  }

  /** Every escalation of the run gets its lock and its write. */
  ghost predicate Fair(sends: seq<Send>) {
    forall k :: 0 <= k < |sends| ==> sends[k].weather.switchLocked && sends[k].weather.switchReplaced
  }

  /**
   With nothing else touching the switch, a run of sends stops entries if and only if some streak
   of persisted failures reaches the threshold; a switch that was already restricting is left as it was.
   */
  lemma {:induction false} EntriesStopIff(switch: File, sends: seq<Send>, threshold: nat)
    requires Fair(sends)
    ensures var s := RunSends(System(Absent, switch), sends, threshold);
            && (!IsEntryAllowed(switch) ==> s.switch == switch)
            && (IsEntryAllowed(switch) ==> (!IsEntryAllowed(s.switch) <==> ReachesThreshold(sends, threshold)))
            && (IsLiquidationAllowed(switch) ==> IsLiquidationAllowed(s.switch))
  {
    hide Escalated, IsEntryAllowed, IsLiquidationAllowed, TrailingFailures, Persisted, AtThreshold;
    if sends != [] {
      var init, last := sends[..|sends| - 1], sends[|sends| - 1];
      EntriesStopIff(switch, init, threshold);
      var s := RunSends(System(Absent, switch), init, threshold);
      EscalationStopsEntries(s.switch, last.weather, last.now);
      ThresholdStep(switch, sends, threshold);
    }
  }

  lemma ThresholdStep(switch: File, sends: seq<Send>, threshold: nat)
    requires sends != []
    ensures var init, last := sends[..|sends| - 1], sends[|sends| - 1];
            var health := LoadHealth(RunSends(System(Absent, switch), init, threshold).health);
            ReachesThreshold(sends, threshold)
            <==> || ReachesThreshold(init, threshold)
                 || (last.weather.recorded && !last.attempt.sent && health.failures + 1 >= threshold)
  {
    hide TrailingFailures, Persisted, RunSends, After;
    var init, last := sends[..|sends| - 1], sends[|sends| - 1];
    forall k | 0 < k <= |init| ensures AtThreshold(sends, k, threshold) <==> AtThreshold(init, k, threshold) {
      assert sends[..k] == init[..k];
    }
    LastAtThreshold(switch, sends, threshold);
    hide AtThreshold;
    if ReachesThreshold(sends, threshold) {
      var k :| 0 < k <= |sends| && AtThreshold(sends, k, threshold);
    }
    if ReachesThreshold(init, threshold) {
      var k :| 0 < k <= |init| && AtThreshold(init, k, threshold);
      assert AtThreshold(sends, k, threshold);
    }
  }

  lemma LastAtThreshold(switch: File, sends: seq<Send>, threshold: nat)
    requires sends != []
    ensures var init, last := sends[..|sends| - 1], sends[|sends| - 1];
            var health := LoadHealth(RunSends(System(Absent, switch), init, threshold).health);
            AtThreshold(sends, |sends|, threshold)
            <==> last.weather.recorded && !last.attempt.sent && health.failures + 1 >= threshold
  {
    hide TrailingFailures, Persisted, Escalated;
    assert sends[..|sends|] == sends;
    CountIsTheStreak(switch, sends, threshold);
    var s := RunSends(System(Absent, switch), sends, threshold);
    if AtThreshold(sends, |sends|, threshold) {
      var n :| TrailingFailures(Persisted(sends[..|sends|]), n) && n >= threshold;
      TrailingFailuresAreUnique(Persisted(sends), n, LoadHealth(s.health).failures);
    }
  }

  // -------------------------------------------------------- Concurrent callers

  /**
   The check and the write are separate: the escalation changes a restricting state exactly when
   another caller made it harsher than ENTRY_DISABLED after the check, and it then lets
   liquidation orders through again.
   */
  lemma EscalationWeakensIff(seen: File, held: File, weather: Weather, now: int)
    ensures var after := Escalated(seen, held, weather, now);
            !IsEntryAllowed(held) && StateOf(after) != StateOf(held)
            <==> && StateOf(seen) == ACTIVE && weather.switchLocked && weather.switchReplaced
                 && StateOf(held) in {ALL_TRADING_DISABLED, MANUAL_REVIEW}
    ensures seen == held ==> IsEntryAllowed(held) || Escalated(seen, held, weather, now) == held
    ensures var after := Escalated(seen, held, weather, now);
            !IsLiquidationAllowed(held) && StateOf(after) != StateOf(held) ==> IsLiquidationAllowed(after)
  {
    LoadedStateIsValid(held);
  }

  lemma LoadedStateIsValid(file: File)
    ensures StateOf(file) in VALID_STATES
  {
  }

  /** Such a run exists: an operator's MANUAL_REVIEW, set after the check saw ACTIVE, ends as ENTRY_DISABLED. */
  lemma ReviewIsOverridden(review: Call) returns (states: seq<World>, steps: seq<Action>)
    requires review == Activate(MANUAL_REVIEW, "incident", "operator", None, "")
    ensures IsRun(states, steps) && |states| == 7
    ensures steps[2] == Replace(2, 1) && steps[5] == Replace(1, 2)
    ensures states[6].log == [Effect(review, 1), Effect(ESCALATION, 2)]
    ensures StateOf(states[0].file) == ACTIVE && StateOf(states[3].file) == MANUAL_REVIEW
    ensures StateOf(states[6].file) == ENTRY_DISABLED && IsLiquidationAllowed(states[6].file)
  {
    steps := [TakeLock(2, review), ReadFile(2, 1), Replace(2, 1),
              TakeLock(1, ESCALATION), ReadFile(1, 2), Replace(1, 2)];
    var s0 := World(Missing, None, map[], []);
    var s1 := Step(s0, steps[0]);
    var s2 := Step(s1, steps[1]);
    var s3 := Step(s2, steps[2]);
    var manual := Record(MANUAL_REVIEW, "incident", Some(1), "operator", None, "", None, "");
    assert s3.file == Stored(Payload(manual, [manual]));
    var s4 := Step(s3, steps[3]);
    var s5 := Step(s4, steps[4]);
    states := [s0, s1, s2, s3, s4, s5, Step(s5, steps[5])];
  }
}
