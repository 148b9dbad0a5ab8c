/**
 Ending an audit run (shadow_audit.py), against a table other processes write to.

 The table is the sequence of committed rows. Before each statement this process runs, other
 processes may commit any batch of rows; the n-th statement may fail in any of SQLite's ways.
 The partial unique index decides every insert, theirs and ours.
 */
module ShadowAudit {
  import opened Wrappers

  datatype Event = Event(run: string, kind: string, result: string)

  const TERMINAL := {"SHADOW_COMPLETED", "SHADOW_BLOCKED", "SHADOW_ERROR"}

  const INFORMATIONAL := {
    "SIGNAL_RECEIVED", "CONFIG_BLOCKED", "SIGNAL_EXPIRED", "INSTRUMENT_BLOCKED", "PRICE_DEVIATION_BLOCKED",
    "CASH_BLOCKED", "RECONCILIATION_BLOCKED", "UNKNOWN_ORDER_BLOCKED", "DUPLICATE_BLOCKED", "HALT_BLOCKED",
    "GATE_REJECTED", "GATE_APPROVED", "EXECUTION_PLANNED", "HYPOTHETICAL_INCOMPLETE", "KIS_PIPELINE_EXCLUDED",
    "HALT_CHECKED", "EXIT_BLOCKED_HALT", "DIAGNOSTIC_COMPLETED"}

  const WRITE_RETRIES := 5

  function ResultFor(kind: string): string {
    if kind == "SHADOW_COMPLETED" then "APPROVED" else if kind == "SHADOW_BLOCKED" then "BLOCKED" else "ERROR"
  }

  /** The first terminal event of a run, in the order the rows were committed. */
  function TerminalOf(events: seq<Event>, run: string): Option<string> {
    if events == [] then None
    else
      var before := TerminalOf(events[..|events| - 1], run);
      var last := events[|events| - 1];
      if before.Some? then before
      else if last.run == run && last.kind in TERMINAL then Some(last.kind)
      else None
  }

  /** The index on the terminal rows: one per run. */
  ghost predicate OncePerRun(events: seq<Event>) {
    forall i, j :: 0 <= i < j < |events| && events[i].kind in TERMINAL && events[j].kind in TERMINAL
                   ==> events[i].run != events[j].run
  }

  predicate Refused(events: seq<Event>, e: Event) {
    e.kind in TERMINAL && TerminalOf(events, e.run).Some?
  }

  /** An insert, as the index lets it happen. */
  function Admit(events: seq<Event>, e: Event): seq<Event> {
    if Refused(events, e) then events else events + [e]
  }

  /** The inserts of other processes, in the order the database serialised them. */
  function AdmitAll(events: seq<Event>, batch: seq<Event>): seq<Event> {
    if batch == [] then events else Admit(AdmitAll(events, batch[..|batch| - 1]), batch[|batch| - 1])
  }

  lemma {:induction false} TerminalMeansRow(events: seq<Event>, run: string)
    ensures TerminalOf(events, run).Some?
            <==> exists k :: 0 <= k < |events| && events[k].run == run && events[k].kind in TERMINAL
    ensures TerminalOf(events, run).Some?
            ==> exists k :: 0 <= k < |events| && events[k].run == run && events[k].kind in TERMINAL
                            && events[k].kind == TerminalOf(events, run).value
  {
    hide TERMINAL;
    if events != [] {
      TerminalMeansRow(events[..|events| - 1], run);
    }
  }

  /** Under the index, the terminal event of a run is the kind of any terminal row it has. */
  lemma TerminalIsTheRow(events: seq<Event>, k: nat)
    requires OncePerRun(events) && k < |events| && events[k].kind in TERMINAL
    ensures TerminalOf(events, events[k].run) == Some(events[k].kind)
  {
    hide TERMINAL;
    TerminalMeansRow(events, events[k].run);
  }

  /** Any insert, by anyone, keeps one terminal row per run and never loses a row. */
  lemma AdmitKeepsOnce(events: seq<Event>, e: Event)
    requires OncePerRun(events)
    ensures OncePerRun(Admit(events, e)) && events <= Admit(events, e)
    ensures forall run :: TerminalOf(events, run).Some? ==> TerminalOf(Admit(events, e), run) == TerminalOf(events, run)
    ensures e.kind in TERMINAL ==> TerminalOf(Admit(events, e), e.run).Some?
  {
    hide TERMINAL;
    TerminalMeansRow(events, e.run);
    assert (events + [e])[..|events|] == events;
  }

  lemma {:induction false} AdmitAllKeepsOnce(events: seq<Event>, batch: seq<Event>)
    requires OncePerRun(events)
    ensures OncePerRun(AdmitAll(events, batch)) && events <= AdmitAll(events, batch)
    ensures forall run :: TerminalOf(events, run).Some?
                          ==> TerminalOf(AdmitAll(events, batch), run) == TerminalOf(events, run)
  {
    hide TERMINAL, Admit, OncePerRun, TerminalOf;
    if batch != [] {
      AdmitAllKeepsOnce(events, batch[..|batch| - 1]);
      AdmitKeepsOnce(AdmitAll(events, batch[..|batch| - 1]), batch[|batch| - 1]);
    }
  }

  /**
   However many finalizers race for a run, the outcome stored for it is the first terminal row
   that reached the database, and there is exactly one such row.
   */
  lemma {:induction false} FirstFinalizerWins(attempts: seq<Event>, run: string)
    ensures OncePerRun(AdmitAll([], attempts))
    ensures TerminalOf(AdmitAll([], attempts), run) == TerminalOf(attempts, run)
  {
    hide TERMINAL, OncePerRun, Admit;
    OnceOnEmpty();
    AdmitAllKeepsOnce([], attempts);
    if attempts != [] {
      var init, last := attempts[..|attempts| - 1], attempts[|attempts| - 1];
      FirstFinalizerWins(init, run);
      TerminalAfterInsert(AdmitAll([], init), last, run);
    }
  }

  lemma TerminalAfterInsert(events: seq<Event>, e: Event, run: string)
    ensures TerminalOf(Admit(events, e), run)
            == if TerminalOf(events, run).Some? then TerminalOf(events, run)
               else if e.run == run && e.kind in TERMINAL then Some(e.kind)
               else None
  {
    hide TERMINAL;
    assert (events + [e])[..|events|] == events;
  }

  lemma OnceOnEmpty()
    ensures OncePerRun([])
  {
  }

  /** Two finalizers that both returned normally returned the same outcome, whenever each of them looked. */
  lemma ReturnsAgree(early: seq<Event>, late: seq<Event>, run: string, a: string, b: string)
    requires OncePerRun(late) && early <= late
    requires TerminalOf(early, run) == Some(a) && TerminalOf(late, run) == Some(b)
    ensures a == b
  {
    hide TERMINAL;
    TerminalMeansRow(early, run);
    var k :| 0 <= k < |early| && early[k].run == run && early[k].kind in TERMINAL && early[k].kind == a;
    assert late[k] == early[k];
    TerminalIsTheRow(late, k);
  }

  // ------------------------------------------------------------- The writers

  /** What SQLite does with a statement, the index apart. */
  datatype Fault = Proceeds | Locked | Fails | Vanishes

  datatype Insert = Inserted | Busy | Failed

  datatype AuditError = NotTerminal | UnknownKind | NotPersisted | Contradiction(stored: string)

  /** Rows committed by others before the n-th statement, and how the n-th statement fares. */
  datatype World = World(others: nat -> seq<Event>, fault: nat -> Fault)

  /** _resolve_existing_terminal. */
  function Resolve(asked: string, stored: string): Result<string, AuditError> {
    if stored == asked then Ok(asked) else Err(Contradiction(stored))
  }

  /** The row that ends a run: what happened, and how it counts in the audit. */
  predicate IsEnding(e: Event, run: string, kind: string) {
    && e.run == run && e.kind == kind
    && (|| (kind == "SHADOW_COMPLETED" && e.result == "APPROVED")
        || (kind == "SHADOW_BLOCKED" && e.result == "BLOCKED")
        || (kind == "SHADOW_ERROR" && e.result == "ERROR"))
  }

  class EventTable {
    var events: seq<Event>
    var statements: nat

    constructor ()
      ensures events == [] && statements == 0 && OncePerRun(events)
    {
      events := [];
      statements := 0;
    }

    /** Other processes run, then this process's next statement starts. */
    method NextStatement(world: World) returns (fault: Fault)
      requires OncePerRun(events)
      modifies this
      ensures OncePerRun(events) && statements == old(statements) + 1
      ensures events == AdmitAll(old(events), world.others(old(statements))) && old(events) <= events
      ensures fault == world.fault(old(statements))
    {
      AdmitAllKeepsOnce(events, world.others(statements));
      fault := world.fault(statements);
      events := AdmitAll(events, world.others(statements));
      statements := statements + 1;
    }

    /** _existing_terminal_events, for a table that holds at most one. */
    method Existing(run: string, world: World) returns (kind: Option<string>)
      requires OncePerRun(events)
      modifies this
      ensures OncePerRun(events) && old(events) <= events && statements == old(statements) + 1
      ensures events == AdmitAll(old(events), world.others(old(statements)))
      ensures kind == TerminalOf(events, run)
    {
      var _ := NextStatement(world);
      kind := TerminalOf(events, run);
    }

    /** _insert_once: reports success only for a row that is in the table after the commit. */
    method InsertOnce(e: Event, world: World) returns (outcome: Insert)
      requires OncePerRun(events)
      modifies this
      ensures OncePerRun(events) && old(events) <= events && statements == old(statements) + 1
      ensures outcome == Inserted ==> |events| > 0 && events[|events| - 1] == e
      ensures outcome == Inserted && e.kind in TERMINAL ==> TerminalOf(events, e.run) == Some(e.kind)
      ensures outcome == Busy <==> world.fault(old(statements)) == Locked
      ensures world.fault(old(statements)) == Proceeds
              ==> outcome != Busy && (outcome == Failed ==> e.kind in TERMINAL && TerminalOf(events, e.run).Some?)
      ensures var theirs := AdmitAll(old(events), world.others(old(statements)));
              events == if outcome == Inserted then theirs + [e] else theirs
    {
      hide OncePerRun, TERMINAL, AdmitAll, TerminalOf;
      NobodyElse(events);
      var fault := NextStatement(world);
      match fault
      case Locked => outcome := Busy;
      case Fails => outcome := Failed;
      case Vanishes => outcome := Failed;
      case Proceeds =>
        if Refused(events, e) {
          outcome := Failed;
        } else {
          AdmitKeepsOnce(events, e);
          if e.kind in TERMINAL {
            NewTerminal(events, e);
          }
          events := events + [e];
          outcome := Inserted;
        }
    }

    /** record_event: at most five attempts, retried only while the database is locked. */
    method RecordEvent(e: Event, world: World) returns (r: Result<Event, AuditError>)
      requires OncePerRun(events)
      modifies this
      ensures OncePerRun(events) && old(events) <= events && statements <= old(statements) + 5
      ensures e.kind !in TERMINAL + INFORMATIONAL ==> r == Err(UnknownKind) && events == old(events)
      ensures r.Ok? ==> r == Ok(e) && e in events
      ensures r.Ok? && e.kind in TERMINAL ==> TerminalOf(events, e.run) == Some(e.kind)
      ensures (forall n :: world.fault(n) == Proceeds) && e.kind in TERMINAL + INFORMATIONAL && r.Err?
              ==> e.kind in TERMINAL && TerminalOf(events, e.run).Some?
      ensures (forall n :: world.others(n) == []) ==>
                events == if r.Ok? then old(events) + [e] else old(events)
      ensures (forall n :: world.fault(n) == Locked) && e.kind in TERMINAL + INFORMATIONAL
              ==> r == Err(NotPersisted) && statements == old(statements) + 5
    {
      hide OncePerRun, TERMINAL, INFORMATIONAL, AdmitAll, TerminalOf;
      if e.kind !in TERMINAL + INFORMATIONAL {
        return Err(UnknownKind);
      }
      NobodyElse(events);
      for attempt := 0 to WRITE_RETRIES
        invariant OncePerRun(events) && old(events) <= events && statements == old(statements) + attempt
        invariant (forall n :: world.others(n) == []) ==> events == old(events)
        invariant attempt > 0 ==> world.fault(old(statements) + attempt - 1) == Locked
      {
        var outcome := InsertOnce(e, world);
        match outcome
        case Inserted =>
          return Ok(e);
        case Failed =>
          return Err(NotPersisted);
        case Busy =>
      }
      r := Err(NotPersisted);
    }

    /**
     finalize_audit_run: whatever other processes and the database do, the answer is decided by
     the outcome stored for the run. It returns normally exactly when that outcome is the one
     asked for, contradicts when it is another, and fails to persist exactly when there is none.
     */
    method FinalizeAuditRun(run: string, kind: string, world: World) returns (r: Result<string, AuditError>)
      requires OncePerRun(events)
      modifies this
      ensures OncePerRun(events) && old(events) <= events && statements <= old(statements) + 7
      ensures kind !in TERMINAL ==> r == Err(NotTerminal) && events == old(events)
      ensures r == Err(NotTerminal) <==> kind !in {"SHADOW_COMPLETED", "SHADOW_BLOCKED", "SHADOW_ERROR"}
      ensures kind in TERMINAL ==>
                var stored := TerminalOf(events, run);
                r == if stored.None? then Err(NotPersisted)
                     else if stored.value == kind then Ok(kind)
                     else Err(Contradiction(stored.value))
      ensures kind in TERMINAL && (forall n :: world.fault(n) == Proceeds) ==> r != Err(NotPersisted)
      ensures TerminalOf(old(events), run).Some? ==> TerminalOf(events, run) == TerminalOf(old(events), run)
      ensures kind in TERMINAL && (forall n :: world.others(n) == []) ==>
                || events == old(events)
                || (TerminalOf(old(events), run).None? && |events| == |old(events)| + 1
                    && IsEnding(events[|old(events)|], run, kind))
    {
      hide OncePerRun, TERMINAL, INFORMATIONAL, AdmitAll, TerminalOf, IsEnding, ResultFor;
      TerminalKinds(kind);
      if kind !in TERMINAL {
        return Err(NotTerminal);
      }
      KindIsKnown(kind);
      EndingOf(run, kind);
      NobodyElse(events);
      ghost var before := events;
      var existing := Existing(run, world);
      if existing.Some? {
        StoredStays(before, events, run);
        return Resolve(kind, existing.value);
      }
      var recorded := RecordEvent(Event(run, kind, ResultFor(kind)), world);
      StoredStays(before, events, run);
      if recorded.Ok? {
        return Ok(kind);
      }
      NobodyElse(events);
      ghost var failed := events;
      existing := Existing(run, world);
      StoredStays(before, events, run);
      StoredStays(failed, events, run);
      if existing.Some? {
        return Resolve(kind, existing.value);
      }
      r := Err(NotPersisted);
    }
  }

  lemma NobodyElse(events: seq<Event>)
    ensures AdmitAll(events, []) == events
  {
  }

  lemma EndingOf(run: string, kind: string)
    requires kind in TERMINAL
    ensures IsEnding(Event(run, kind, ResultFor(kind)), run, kind)
  {
  }

  lemma TerminalKinds(kind: string)
    ensures kind in TERMINAL <==> kind in {"SHADOW_COMPLETED", "SHADOW_BLOCKED", "SHADOW_ERROR"}
  {
  }

  lemma KindIsKnown(kind: string)
    requires kind in TERMINAL
    ensures kind in TERMINAL + INFORMATIONAL
  {
  }

  lemma NewTerminal(events: seq<Event>, e: Event)
    requires !Refused(events, e) && e.kind in TERMINAL
    ensures TerminalOf(events + [e], e.run) == Some(e.kind)
  {
    hide TERMINAL;
    assert (events + [e])[..|events|] == events;
  }

  lemma StoredStays(early: seq<Event>, late: seq<Event>, run: string)
    requires OncePerRun(late) && early <= late
    ensures TerminalOf(early, run).Some? ==> TerminalOf(late, run) == TerminalOf(early, run)
  {
    hide TERMINAL;
    TerminalMeansRow(early, run);
    if TerminalOf(early, run).Some? {
      var k :| 0 <= k < |early| && early[k].run == run && early[k].kind in TERMINAL
               && early[k].kind == TerminalOf(early, run).value;
      assert late[k] == early[k];
      TerminalIsTheRow(late, k);
    }
  }
}
