/**
 The multi-level kill switch (kill_switch_state.py): one file holding the current record and an
 append-only history, read, changed and replaced under a file lock.
 */
module KillSwitch {
  import opened Wrappers

  const ACTIVE := "ACTIVE"
  const ENTRY_DISABLED := "ENTRY_DISABLED"
  const ALL_TRADING_DISABLED := "ALL_TRADING_DISABLED"
  const MANUAL_REVIEW := "MANUAL_REVIEW"
  const VALID_STATES := {ACTIVE, ENTRY_DISABLED, ALL_TRADING_DISABLED, MANUAL_REVIEW}
  const FAIL_CLOSED_STATE := MANUAL_REVIEW

  datatype Record = Record(state: string, reason: string, activatedAt: Option<int>, activatedBy: string,
                           expiresAt: Option<int>, incidentId: string, releasedAt: Option<int>, releasedBy: string)

  datatype Payload = Payload(current: Record, history: seq<Record>)

  /** The file: absent, present but not parseable, or holding a payload. */
  datatype File = Missing | Unreadable | Stored(payload: Payload)

  function EmptyRecord(state: string): Record {
    Record(state, "", None, "", None, "", None, "")
  }

  /** _load: absence is ACTIVE, anything that cannot be trusted is MANUAL_REVIEW. */
  function Load(file: File, now: int): Payload {
    if file.Missing? then Payload(EmptyRecord(ACTIVE), [])
    else if file.Stored? && file.payload.current.state in VALID_STATES then file.payload
    else
      var closed := EmptyRecord(FAIL_CLOSED_STATE).(reason := "CORRUPTED_STATE_FILE", activatedAt := Some(now));
      Payload(closed, [closed])
  }

  function StateOf(file: File): string {
    Load(file, 0).current.state
  }

  predicate IsEntryAllowed(file: File) {
    StateOf(file) == ACTIVE
  }

  predicate IsLiquidationAllowed(file: File) {
    StateOf(file) in {ACTIVE, ENTRY_DISABLED}
  }

  /** Only a file that is absent or readable as ACTIVE lets an entry through; what cannot be read stops everything. */
  lemma PermissionsFailClosed(file: File)
    ensures IsEntryAllowed(file) ==> IsLiquidationAllowed(file)
    ensures IsEntryAllowed(file) <==> file.Missing? || (file.Stored? && file.payload.current.state == "ACTIVE")
    ensures IsLiquidationAllowed(file)
            <==> file.Missing? || (file.Stored? && file.payload.current.state in {"ACTIVE", "ENTRY_DISABLED"})
    ensures file.Unreadable? ==> !IsLiquidationAllowed(file)
  {
  }

  predicate IsKnown(state: string) {
    state in {"ACTIVE", "ENTRY_DISABLED", "ALL_TRADING_DISABLED", "MANUAL_REVIEW"}
  }

  /** What a reader sees: nothing yet, the file's own payload, or one entry that says the file is corrupt. */
  lemma LoadedPayload(file: File, now: int)
    ensures var loaded := Load(file, now);
            && (file.Missing? ==> loaded == Payload(Record("ACTIVE", "", None, "", None, "", None, ""), []))
            && (file.Stored? && IsKnown(file.payload.current.state) ==> loaded == file.payload)
            && (file.Unreadable? || (file.Stored? && !IsKnown(file.payload.current.state)) ==>
                  && loaded.history == [loaded.current] && loaded.current.activatedAt == Some(now)
                  && loaded.current.state == "MANUAL_REVIEW" && loaded.current.reason == "CORRUPTED_STATE_FILE"
                  && loaded.current.activatedBy == "" && loaded.current.releasedBy == "")
  {
  }

  /** A call with the arguments it was given; empty text stands for a missing one. */
  datatype Call =
    | Activate(state: string, reason: string, who: string, expiresAt: Option<int>, incidentId: string)
    | Release(who: string, reason: string)

  datatype SwitchError = UnknownState | MissingArgument | LockTimeout | WriteFailed

  function Complaint(call: Call): Option<SwitchError> {
    if call.Activate? then
      if call.state !in VALID_STATES then Some(UnknownState)
      else if call.reason == "" || call.who == "" then Some(MissingArgument)
      else None
    else if call.who == "" then Some(MissingArgument)
    else None
  }

  /** A call is taken up if and only if it names a known state, and says who makes it and, to activate, why. */
  lemma TakenUpIff(call: Call)
    ensures Complaint(call).None?
            <==> call.who != "" && (call.Activate? ==>
                   call.reason != "" && IsKnown(call.state))
    ensures Complaint(call) == Some(UnknownState) <==> call.Activate? && !IsKnown(call.state)
  {
  }

  /** The state a call asks for. */
  function Target(call: Call): string {
    if call.Activate? then call.state else ACTIVE
  }

  /** Releasing a switch that is already ACTIVE writes nothing. */
  predicate Writes(current: Record, call: Call) {
    call.Activate? || current.state != ACTIVE
  }

  /** The record a call writes over the current one. */
  function Next(current: Record, call: Call, now: int): Record {
    match call
    case Activate(state, reason, who, expiresAt, incidentId) =>
      if current.state == state then
        current.(reason := reason, activatedBy := who, expiresAt := expiresAt,
        incidentId := if incidentId != "" then incidentId else current.incidentId)
      else Record(state, reason, Some(now), who, expiresAt, incidentId, None, "")
    case Release(who, reason) =>
      Record(ACTIVE, reason, Some(now), who, None, "", Some(now), who)
  }

  function Apply(payload: Payload, call: Call, now: int): Payload {
    if Writes(payload.current, call) then
      var record := Next(payload.current, call, now);
      Payload(record, payload.history + [record])
    else payload
  }

  class KillSwitchFile {
    var file: File

    constructor ()
      ensures file == Missing
    {
      file := Missing;
    }

    /** activate and release, on a lock that may time out and a replacement that may fail. */
    method Transition(call: Call, locked: bool, replaced: bool, now: int) returns (r: Result<Record, SwitchError>)
      modifies this
      ensures var before := Load(old(file), now);
              && (Complaint(call).Some? ==> r == Err(Complaint(call).value))
              && (Complaint(call).None? && !locked ==> r == Err(LockTimeout))
              && (Complaint(call).None? && locked && Writes(before.current, call) && !replaced
                  ==> r == Err(WriteFailed))
              && (r.Err? ==> file == old(file))
              && (r.Ok? ==> && r.value == Apply(before, call, now).current && r.value.state == Target(call)
                            && Load(file, now) == Apply(before, call, now))
              && (r.Ok? && Writes(before.current, call) ==> file == Stored(Apply(before, call, now)))
              && (r.Ok? && !Writes(before.current, call) ==> file == old(file))
      ensures Complaint(call).None? && locked && replaced ==> r.Ok?
    {
      var complaint := Complaint(call);
      if complaint.Some? {
        return Err(complaint.value);
      }
      if !locked {
        return Err(LockTimeout);
      }
      var payload := Load(file, now);
      var current := payload.current;
      if call.Release? && current.state == ACTIVE {
        return Ok(current);
      }
      var record: Record;
      if call.Activate? && current.state == call.state {
        record := current.(reason := call.reason, activatedBy := call.who, expiresAt := call.expiresAt);
        if call.incidentId != "" {
          record := record.(incidentId := call.incidentId);
        }
      } else if call.Activate? {
        record := EmptyRecord(call.state);
        record := record.(reason := call.reason, activatedAt := Some(now), activatedBy := call.who,
        expiresAt := call.expiresAt, incidentId := call.incidentId);
      } else {
        record := EmptyRecord(ACTIVE);
        record := record.(reason := call.reason, activatedAt := Some(now), activatedBy := call.who,
        releasedAt := Some(now), releasedBy := call.who);
      }
      if !replaced {
        return Err(WriteFailed);
      }
      file := Stored(Payload(record, payload.history + [record]));
      r := Ok(record);
    }
  }

  // ------------------------------------------------------- Concurrent callers

  /** Where a process is inside activate or release. */
  datatype Control = Idle | Holding(call: Call) | HasRead(call: Call, seen: Payload)

  /** A call that took effect, and when. */
  datatype Effect = Effect(call: Call, at: int)

  /** `log` is the effective calls, in the order they took effect. */
  datatype World = World(file: File, holder: Option<nat>, procs: map<nat, Control>, log: seq<Effect>)

  datatype Action =
    | TakeLock(p: nat, call: Call)
    | ReadFile(p: nat, now: int)
    | Replace(p: nat, now: int)
    | GiveUp(p: nat)

  function At(w: World, p: nat): Control {
    if p in w.procs then w.procs[p] else Idle
  }

  /** A step can be taken: the lock is exclusive, and each process follows its own program. */
  predicate Enabled(w: World, a: Action) {
    match a
    case TakeLock(p, call) => At(w, p).Idle? && w.holder.None? && Complaint(call).None?
    case ReadFile(p, _) => At(w, p).Holding?
    case Replace(p, _) => At(w, p).HasRead? && Writes(At(w, p).seen.current, At(w, p).call)
    case GiveUp(p) => !At(w, p).Idle?
  }

  /**
   One step. GiveUp is leaving without a write: a release of an ACTIVE switch, a failed
   replacement, or a crash, after which the kernel drops the lock.
   */
  function Step(w: World, a: Action): World
    requires Enabled(w, a)
  {
    match a
    case TakeLock(p, call) => w.(holder := Some(p), procs := w.procs[p := Holding(call)])
    case ReadFile(p, now) => w.(procs := w.procs[p := HasRead(At(w, p).call, Load(w.file, now))])
    case Replace(p, now) =>
      var c := At(w, p);
      World(Stored(Apply(c.seen, c.call, now)), None, w.procs[p := Idle], w.log + [Effect(c.call, now)])
    case GiveUp(p) => w.(holder := None, procs := w.procs[p := Idle])
  }

  /** A world in which nothing has started yet. */
  ghost predicate Starts(w: World) {
    Uncorrupted(w.file) && w.holder == None && w.procs == map[] && w.log == []
  }

  /** A run from any uncorrupted file, with no call under way. */
  ghost predicate IsRun(states: seq<World>, steps: seq<Action>) {
    && |states| == |steps| + 1
    && Starts(states[0])
    && forall k :: 0 <= k < |steps| ==> Enabled(states[k], steps[k]) && states[k + 1] == Step(states[k], steps[k])
  }

  /** The record a call leaves over the one before it. */
  predicate Tells(before: Record, record: Record, e: Effect) {
    && record.state == Target(e.call) && record.activatedBy == e.call.who && record.reason == e.call.reason
    && (record.state != before.state ==> record.activatedAt == Some(e.at))
    && (record.state == before.state ==> record.activatedAt == before.activatedAt)
    && (e.call.Activate? ==> record.expiresAt == e.call.expiresAt)
    && (e.call.Activate? && (record.state != before.state || e.call.incidentId != "")
        ==> record.incidentId == e.call.incidentId)
    && (e.call.Activate? && record.state == before.state && e.call.incidentId == ""
        ==> record.incidentId == before.incidentId)
    && (e.call.Activate? && record.state != before.state ==> record.releasedAt == None && record.releasedBy == "")
    && (e.call.Release? ==>
          && record.state != before.state && record.releasedAt == Some(e.at) && record.releasedBy == e.call.who
          && record.expiresAt == None && record.incidentId == "")
  }

  /** The record an entry was written over: with no entry before it, that of an absent file. */
  function Previous(history: seq<Record>, k: nat): Record
    requires k <= |history|
  {
    if k == 0 then EmptyRecord(ACTIVE) else history[k - 1]
  }

  /** Repeating a state keeps the time it was first activated. */
  ghost predicate KeepsActivation(history: seq<Record>) {
    forall i :: 0 < i < |history| && history[i].state == history[i - 1].state
                ==> history[i].activatedAt == history[i - 1].activatedAt
  }

  /** One history entry for every effective call, in order, after the entries that were there before. */
  ghost predicate Chronicles(history: seq<Record>, base: nat, log: seq<Effect>) {
    && |history| == base + |log|
    && forall i :: 0 <= i < |log| ==> Tells(Previous(history, base + i), history[base + i], log[i])
  }

  ghost predicate Sound(payload: Payload) {
    && payload.current.state in VALID_STATES
    && (payload.history == [] ==> payload.current == EmptyRecord(ACTIVE))
    && (payload.history != [] ==> payload.current == payload.history[|payload.history| - 1])
    && KeepsActivation(payload.history)
  }

  /** The file is not corrupt and holds what this module writes. */
  ghost predicate Uncorrupted(file: File) {
    file.Missing? || (file.Stored? && file.payload.history != [] && Sound(file.payload))
  }

  ghost predicate Inv(w: World, base: nat) {
    && Uncorrupted(w.file)
    && Chronicles(Load(w.file, 0).history, base, w.log)
    && (forall p: nat :: !At(w, p).Idle? ==> w.holder == Some(p))
    && (forall p: nat :: !At(w, p).Idle? ==> Complaint(At(w, p).call).None?)
    && (forall p: nat :: At(w, p).HasRead? ==> At(w, p).seen == Load(w.file, 0))
  }

  lemma LoadIgnoresClock(file: File, now: int)
    requires Uncorrupted(file)
    ensures Load(file, now) == Load(file, 0) && Sound(Load(file, 0))
  {
  }

  lemma ApplyKeepsSound(payload: Payload, call: Call, now: int)
    requires Sound(payload) && Complaint(call).None? && Writes(payload.current, call)
    ensures Sound(Apply(payload, call, now)) && Apply(payload, call, now).history != []
    ensures Tells(Previous(payload.history, |payload.history|), Apply(payload, call, now).current, Effect(call, now))
    ensures Apply(payload, call, now).history == payload.history + [Apply(payload, call, now).current]
  {
    var after := Apply(payload, call, now);
    if payload.history != [] && after.current.state == payload.current.state {
      assert after.current.activatedAt == payload.current.activatedAt;
    }
  }

  /** Every step, by any process, keeps the invariant and changes the history only by appending. */
  lemma StepKeepsInv(w: World, a: Action, base: nat)
    requires Inv(w, base) && Enabled(w, a)
    ensures Inv(Step(w, a), base)
    ensures Load(w.file, 0).history <= Load(Step(w, a).file, 0).history
    ensures w.log <= Step(w, a).log
  {
    hide Sound, Apply, Complaint, Load, Tells;
    match a
    case TakeLock(p, call) =>
      forall q: nat ensures At(Step(w, a), q) == if q == p then Holding(call) else Idle {
        assert !At(w, q).Idle? ==> w.holder == Some(q);
      }
    case ReadFile(p, now) =>
      LoadIgnoresClock(w.file, now);
      assert At(w, p).Holding? && w.holder == Some(p);
      forall q: nat ensures At(Step(w, a), q) == if q == p then HasRead(At(w, p).call, Load(w.file, 0)) else At(w, q) {
      }
    case GiveUp(p) =>
      assert w.holder == Some(p);
      forall q: nat ensures At(Step(w, a), q).Idle? {
        assert !At(w, q).Idle? ==> w.holder == Some(q);
      }
    case Replace(p, now) =>
      LoadIgnoresClock(w.file, now);
      ReplaceKeepsInv(w, p, now, base);
  }

  lemma ReplaceKeepsInv(w: World, p: nat, now: int, base: nat)
    requires Inv(w, base) && Enabled(w, Replace(p, now))
    ensures Inv(Step(w, Replace(p, now)), base)
    ensures Load(w.file, 0).history <= Load(Step(w, Replace(p, now)).file, 0).history
  {
    hide Sound, Apply, Complaint, Tells, Writes, Load;
    var c, after := At(w, p), Step(w, Replace(p, now));
    LoadIgnoresClock(w.file, now);
    ApplyKeepsSound(c.seen, c.call, now);
    StoredLoads(Apply(c.seen, c.call, now));
    assert w.holder == Some(p);
    forall q: nat ensures At(after, q).Idle? {
      assert !At(w, q).Idle? ==> w.holder == Some(q);
    }
    var h := Load(w.file, 0).history;
    var h' := Load(after.file, 0).history;
    forall i | 0 <= i < |after.log| ensures Tells(Previous(h', base + i), h'[base + i], after.log[i]) {
      assert Previous(h', base + i) == Previous(h, base + i);
      if i < |w.log| {
        assert Tells(Previous(h, base + i), h[base + i], w.log[i]);
      }
    }
  }

  lemma StoredLoads(payload: Payload)
    requires Sound(payload)
    ensures Load(Stored(payload), 0) == payload
  {
  }

  /** Any run, of any number of processes, crashes included. */
  lemma {:induction false} RunKeepsInv(states: seq<World>, steps: seq<Action>, k: nat)
    requires IsRun(states, steps) && k < |states|
    ensures Inv(states[k], |Load(states[0].file, 0).history|)
    ensures Load(states[0].file, 0).history <= Load(states[k].file, 0).history
    decreases k
  {
    hide Inv, Load, Step, Enabled, Starts;
    if k == 0 {
      StartKeepsInv(states[0]);
    } else {
      RunKeepsInv(states, steps, k - 1);
      StepKeepsInv(states[k - 1], steps[k - 1], |Load(states[0].file, 0).history|);
    }
  }

  lemma StartKeepsInv(w: World)
    requires Starts(w)
    ensures Inv(w, |Load(w.file, 0).history|)
  {
  }

  /** Where the trailing block of entries with the current state begins. */
  function BlockStart(history: seq<Record>): (k: nat)
    requires history != []
    ensures k < |history|
  {
    var last := |history| - 1;
    if last > 0 && history[last - 1].state == history[last].state then BlockStart(history[..last]) else last
  }

  lemma {:induction false} BlockSharesActivation(history: seq<Record>)
    requires history != [] && KeepsActivation(history)
    ensures var k := BlockStart(history);
            && history[|history| - 1].activatedAt == history[k].activatedAt
            && (forall i :: k <= i < |history| ==> history[i].state == history[|history| - 1].state)
            && (k > 0 ==> history[k - 1].state != history[k].state)
  {
    var last := |history| - 1;
    if last > 0 && history[last - 1].state == history[last].state {
      BlockSharesActivation(history[..last]);
      var k := BlockStart(history[..last]);
      assert BlockStart(history) == k;
    }
  }

  /**
   From any uncorrupted file, after any interleaving of activations and releases: the history is
   the old one followed by exactly one entry for each effective call, the current record is its
   last entry, and its activation time is that of the first entry of the trailing block of its state.
   */
  lemma HistoryIsTheWholeStory(states: seq<World>, steps: seq<Action>, k: nat)
    requires IsRun(states, steps) && k < |states|
    ensures var before, after := Load(states[0].file, 0), Load(states[k].file, 0);
            && before.history <= after.history
            && Chronicles(after.history, |before.history|, states[k].log)
            && (after.history != [] ==>
                  && after.current == after.history[|after.history| - 1]
                  && after.current.activatedAt == after.history[BlockStart(after.history)].activatedAt)
  {
    RunKeepsInv(states, steps, k);
    LoadIgnoresClock(states[k].file, 0);
    hide Load, Uncorrupted, KeepsActivation, Chronicles, IsRun;
    var after := Load(states[k].file, 0);
    if after.history != [] {
      BlockSharesActivation(after.history);
    }
  }

  /** Entries come back only by a call that asks for ACTIVE; no expiry and no crash brings them back. */
  lemma OnlyACallReactivates(states: seq<World>, steps: seq<Action>, k: nat)
    requires IsRun(states, steps) && k < |states|
    requires !IsEntryAllowed(states[0].file) && IsEntryAllowed(states[k].file)
    ensures exists i :: 0 <= i < |states[k].log| && Target(states[k].log[i].call) == ACTIVE
  {
    HistoryIsTheWholeStory(states, steps, k);
    RunKeepsInv(states, steps, k);
    hide IsRun, KeepsActivation;
    var log, base := states[k].log, |Load(states[0].file, 0).history|;
    var after := Load(states[k].file, 0);
    if log != [] {
      var i := |log| - 1;
      assert Tells(Previous(after.history, base + i), after.history[base + i], log[i]);
    }
  }
}
