/**
 Ordering as a concurrent protocol (paper_strategy_order.py, order_intent_ledger.py): many
 processes reserve, submit, commit and abort, with a crash possible between any two steps.

 A job remembers the index of its ledger row, and a broker order the row it was submitted
 under; rows are never removed, so both stay valid.
 */
module OrderProtocol {
  import opened Wrappers
  import opened OrderIntentLedger
  import opened Reconciliation
  import opened PaperOrders

  type Proc = nat

  /** Where a process is between reserving a slot and settling it. */
  datatype Phase =
    | Checked | LedgerReserved | HistorySaved | MustAbort        // holding the order-history lock
    | Returned | Answered | Lost | FailureMarked | PipelineBlocked | Settled

  datatype Job = Job(phase: Phase, slot: Slot, id: Id, row: nat, snapshot: seq<HistoryRow>)

  datatype BrokerOrder = BrokerOrder(id: Id, slot: Slot, row: nat)

  datatype Sys = Sys(
    history: seq<HistoryRow>, lock: Option<Proc>, ledger: seq<Row>, tracked: set<Id>,
    orders: seq<BrokerOrder>, used: set<Id>, jobs: map<Proc, Job>)

  const INIT := Sys([], None, [], {}, [], {}, map[])

  datatype Action =
    | Begin(p: Proc, slot: Slot, id: Id)
    | ReserveInLedger(p: Proc, lookup: Id -> Lookup, saves: bool)
    | SaveHistory(p: Proc, saves: bool)
    | RecordReconciliation(p: Proc, ok: bool)
    | Submit(p: Proc, received: bool, answered: bool)
    | BlockInPipeline(p: Proc)
    | MarkFailure(p: Proc, saves: bool)
    | Abort(p: Proc, saves: bool)
    | Commit(p: Proc, saves: bool)
    | Finish(p: Proc)
    | UpdateStatus(slot: Slot, status: Status)
    | Crash(p: Proc)

  predicate At(s: Sys, p: Proc, phase: Phase) {
    p in s.jobs && s.jobs[p].phase == phase
  }

  predicate HoldsLock(phase: Phase) {
    phase in {Checked, LedgerReserved, HistorySaved, MustAbort}
  }

  predicate MayAbort(phase: Phase) {
    phase in {MustAbort, FailureMarked, PipelineBlocked}
  }

  predicate Enabled(s: Sys, a: Action) {
    match a
    case Begin(p, slot, id) =>
      s.lock == None && p !in s.jobs && id !in s.used
      && !IsDuplicateOrder(s.history, slot) && CountOrdersForDate(s.history, slot.date) < MAX_TRADES_PER_DAY
    case ReserveInLedger(p, lookup, saves) => At(s, p, Checked)
    case SaveHistory(p, saves) => At(s, p, LedgerReserved)
    case RecordReconciliation(p, ok) => At(s, p, HistorySaved)
    case Submit(p, received, answered) => At(s, p, Returned)
    case BlockInPipeline(p) => At(s, p, Returned)
    case MarkFailure(p, saves) => At(s, p, Lost) && s.lock == None
    case Abort(p, saves) => p in s.jobs && MayAbort(s.jobs[p].phase)
    case Commit(p, saves) => At(s, p, Answered)
    case Finish(p) => At(s, p, Settled)
    case UpdateStatus(slot, status) => s.lock == None
    case Crash(p) => p in s.jobs
  }

  function To(s: Sys, p: Proc, phase: Phase): Sys
    requires p in s.jobs
  {
    s.(jobs := s.jobs[p := s.jobs[p].(phase := phase)])
  }

  /** The process is gone, and with it any lock it held. */
  function Leave(s: Sys, p: Proc): Sys {
    s.(jobs := s.jobs - {p}, lock := if s.lock == Some(p) then None else s.lock)
  }

  function Next(s: Sys, a: Action): Sys
    requires Enabled(s, a)
  {
    match a
    case Begin(p, slot, id) =>
      s.(lock := Some(p), used := s.used + {id}, jobs := s.jobs[p := Job(Checked, slot, id, |s.ledger|, s.history)])
    case ReserveInLedger(p, lookup, saves) =>
      var j := s.jobs[p];
      var s' := s.(ledger := ReserveRows(s.ledger, j.slot, j.id, lookup, saves));
      if ReserveResult(s.ledger, j.slot, j.id, lookup, saves).Ok?
      then s'.(jobs := s.jobs[p := j.(phase := LedgerReserved, row := |s.ledger|)])
      else Leave(s', p)
    case SaveHistory(p, saves) =>
      if saves then To(s, p, HistorySaved).(history := ReservedHistory(s.jobs[p].snapshot, s.jobs[p].slot, "", false))
      else To(s, p, MustAbort)
    case RecordReconciliation(p, ok) =>
      if ok then To(s, p, Returned).(tracked := s.tracked + {s.jobs[p].id}, lock := None)
      else To(s, p, MustAbort)
    case Submit(p, received, answered) =>
      var j := s.jobs[p];
      To(s, p, if answered then Answered else Lost)
        .(orders := if received then s.orders + [BrokerOrder(j.id, j.slot, j.row)] else s.orders)
    case BlockInPipeline(p) => To(s, p, PipelineBlocked)
    case MarkFailure(p, saves) =>
      To(s, p, FailureMarked).(history := if saves then WithStatus(s.history, s.jobs[p].slot, SubmissionFailed)
                                          else s.history)
    case Abort(p, saves) =>
      Leave(s, p).(ledger := if saves then TransitionRows(s.ledger, s.jobs[p].id, Aborted) else s.ledger)
    case Commit(p, saves) =>
      To(s, p, Settled).(ledger := if saves then TransitionRows(s.ledger, s.jobs[p].id, Committed) else s.ledger)
    case Finish(p) => Leave(s, p)
    case UpdateStatus(slot, status) => s.(history := WithStatus(s.history, slot, status))
    case Crash(p) => Leave(s, p)
  }

  // -------------------------------------------------------------- Invariant

  /** The history obeys its two rules, and the lock holder's snapshot is the history. */
  ghost predicate HistoryOk(s: Sys) {
    && OneRowPerSlot(s.history) && WithinDailyLimit(s.history)
    && forall p :: p in s.jobs && HoldsLock(s.jobs[p].phase) ==>
         && s.lock == Some(p)
         && (s.jobs[p].phase in {Checked, LedgerReserved} ==>
               s.jobs[p].snapshot == s.history
               && CountOrdersForDate(s.history, s.jobs[p].slot.date) < MAX_TRADES_PER_DAY)
         && (s.jobs[p].phase == HistorySaved ==> HasPending(s.history, s.jobs[p].slot))
  }

  predicate HasPending(history: seq<HistoryRow>, slot: Slot) {
    exists k :: 0 <= k < |history| && history[k].slot == slot && history[k].status == PendingSubmission
  }

  ghost predicate LedgerOk(s: Sys) {
    && UniqueIds(s.ledger) && OneActivePerSlot(s.ledger)
    && forall k :: 0 <= k < |s.ledger| ==> s.ledger[k].id in s.used
  }

  /** The job's own row: not aborted while the job lives, and still reserved until it returns. */
  predicate JobRowOk(ledger: seq<Row>, j: Job) {
    if j.phase == Checked then !HasId(ledger, j.id)
    else
      && j.row < |ledger| && ledger[j.row].id == j.id && ledger[j.row].slot == j.slot
      && Active(ledger[j.row])
      && (HoldsLock(j.phase) ==> ledger[j.row].state == Reserved)
  }

  ghost predicate JobsOk(s: Sys) {
    && (forall p :: p in s.jobs ==> s.jobs[p].id in s.used && JobRowOk(s.ledger, s.jobs[p]))
    && (forall p, q :: p in s.jobs && q in s.jobs && p != q ==> s.jobs[p].id != s.jobs[q].id)
  }

  predicate NotYetSubmitted(phase: Phase) {
    HoldsLock(phase) || phase == Returned || phase == PipelineBlocked
  }

  /** Every broker order has a ledger row of its own. */
  ghost predicate OrderRows(ledger: seq<Row>, orders: seq<BrokerOrder>) {
    && (forall k :: 0 <= k < |orders| ==>
          var o := orders[k];
          o.row < |ledger| && ledger[o.row].id == o.id && ledger[o.row].slot == o.slot)
    && (forall i, k :: 0 <= i < k < |orders| ==> orders[i].row != orders[k].row)
  }

  /** Orders have their rows, and a job that has not submitted has no order. */
  ghost predicate OrdersOk(s: Sys) {
    && OrderRows(s.ledger, s.orders)
    && (forall p, k :: p in s.jobs && NotYetSubmitted(s.jobs[p].phase) && 0 <= k < |s.orders| ==>
          s.orders[k].id != s.jobs[p].id)
  }

  ghost predicate Inv(s: Sys) {
    HistoryOk(s) && LedgerOk(s) && JobsOk(s) && OrdersOk(s)
  }

  lemma PendingInReserved(history: seq<HistoryRow>, slot: Slot)
    ensures HasPending(ReservedHistory(history, slot, "", false), slot)
  {
    var r := ReservedHistory(history, slot, "", false);
    assert r[|r| - 1].slot == slot && r[|r| - 1].status == PendingSubmission;
  }

  lemma SaveKeepsHistory(s: Sys, p: Proc, saves: bool)
    requires HistoryOk(s) && At(s, p, LedgerReserved)
    ensures HistoryOk(Next(s, SaveHistory(p, saves)))
  {
    hide OneRowPerSlot, WithinDailyLimit, HasPending, IsDuplicateOrder, ReservedHistory;
    ReservedHistoryKeepsRules(s.history, s.jobs[p].slot, "", false);
    PendingInReserved(s.history, s.jobs[p].slot);
  }

  /** The history changes without the lock only while nobody holds it. */
  lemma RestatusKeepsHistory(s: Sys, t: Sys, slot: Slot, status: Status)
    requires HistoryOk(s) && s.lock == None && t.lock == None
    requires t.history == s.history || t.history == WithStatus(s.history, slot, status)
    requires forall p :: p in t.jobs && HoldsLock(t.jobs[p].phase) ==> p in s.jobs && HoldsLock(s.jobs[p].phase)
    ensures HistoryOk(t)
  {
    hide OneRowPerSlot, WithinDailyLimit, HasPending;
    WithStatusKeepsRules(s.history, slot, status);
  }

  lemma RestatusStep(s: Sys, a: Action)
    requires HistoryOk(s) && Enabled(s, a) && (a.MarkFailure? || a.UpdateStatus?)
    ensures HistoryOk(Next(s, a))
  {
    var slot := if a.MarkFailure? then s.jobs[a.p].slot else a.slot;
    var status := if a.MarkFailure? then SubmissionFailed else a.status;
    hide HistoryOk, WithStatus;
    RestatusKeepsHistory(s, Next(s, a), slot, status);
  }

  /** The other steps leave the history alone. */
  lemma OthersKeepHistory(s: Sys, a: Action)
    requires HistoryOk(s) && Enabled(s, a) && !a.SaveHistory? && !a.MarkFailure? && !a.UpdateStatus?
    ensures HistoryOk(Next(s, a))
  {
    hide OneRowPerSlot, WithinDailyLimit, HasPending, IsDuplicateOrder, ReserveRows, ReserveResult, ReservedHistory,
      WithStatus, CountOrdersForDate, TransitionRows;
  }

  lemma StepKeepsHistory(s: Sys, a: Action)
    requires HistoryOk(s) && Enabled(s, a)
    ensures HistoryOk(Next(s, a))
  {
    hide HistoryOk, Next;
    if a.SaveHistory? {
      SaveKeepsHistory(s, a.p, a.saves);
    } else if a.MarkFailure? || a.UpdateStatus? {
      RestatusStep(s, a);
    } else {
      OthersKeepHistory(s, a);
    }
  }

  lemma AnsweredRowIsActive(s: Sys, p: Proc)
    requires JobsOk(s) && At(s, p, Answered)
    ensures s.jobs[p].row < |s.ledger| && s.ledger[s.jobs[p].row].id == s.jobs[p].id && Active(s.ledger[s.jobs[p].row])
  {
  }

  lemma LedgerOkReads(s: Sys, t: Sys)
    requires LedgerOk(s) && t.ledger == s.ledger && s.used <= t.used
    ensures LedgerOk(t)
  {
    hide UniqueIds, OneActivePerSlot;
  }

  lemma ReserveKeepsLedger(s: Sys, p: Proc, lookup: Id -> Lookup, saves: bool)
    requires LedgerOk(s) && JobsOk(s) && At(s, p, Checked)
    ensures LedgerOk(Next(s, ReserveInLedger(p, lookup, saves)))
  {
    hide OneActivePerSlot, UniqueIds, ReserveRows, ReserveResult;
    var j := s.jobs[p];
    ReserveKeepsSlots(s.ledger, j.slot, j.id, lookup, saves);
    ReserveKeepsIds(s.ledger, j.slot, j.id, lookup, saves);
    ReserveOnlyAppends(s.ledger, j.slot, j.id, lookup, saves);
  }

  lemma SettleKeepsLedger(s: Sys, a: Action)
    requires LedgerOk(s) && JobsOk(s) && Enabled(s, a) && (a.Abort? || a.Commit?)
    ensures LedgerOk(Next(s, a))
  {
    hide OneActivePerSlot;
    if a.Abort? {
      AbortKeepsSlots(s.ledger, s.jobs[a.p].id);
    } else {
      AnsweredRowIsActive(s, a.p);
      CommitKeepsSlotsIff(s.ledger, s.jobs[a.p].row);
    }
  }

  lemma StepKeepsLedger(s: Sys, a: Action)
    requires LedgerOk(s) && JobsOk(s) && Enabled(s, a)
    ensures LedgerOk(Next(s, a))
  {
    hide LedgerOk, JobsOk;
    if a.ReserveInLedger? {
      ReserveKeepsLedger(s, a.p, a.lookup, a.saves);
    } else if a.Abort? || a.Commit? {
      SettleKeepsLedger(s, a);
    } else {
      LedgerOkReads(s, Next(s, a));
    }
  }

  lemma ReserveKeepsJobRow(s: Sys, p: Proc, lookup: Id -> Lookup, saves: bool, q: Proc)
    requires HistoryOk(s) && LedgerOk(s) && JobsOk(s) && At(s, p, Checked) && q in s.jobs && q != p
    ensures var j := s.jobs[p];
            JobRowOk(ReserveRows(s.ledger, j.slot, j.id, lookup, saves), s.jobs[q])
  {
    hide OneRowPerSlot, WithinDailyLimit, OneActivePerSlot, ReserveRows, ReserveResult;
    var j := s.jobs[p];
    ReserveOnlyAppends(s.ledger, j.slot, j.id, lookup, saves);
    var r := ReserveRows(s.ledger, j.slot, j.id, lookup, saves);
    assert s.jobs[q].id != j.id;
  }

  lemma BeginKeepsJobs(s: Sys, p: Proc, slot: Slot, id: Id)
    requires LedgerOk(s) && JobsOk(s) && Enabled(s, Begin(p, slot, id))
    ensures JobsOk(Next(s, Begin(p, slot, id)))
  {
    hide OneActivePerSlot, UniqueIds, IsDuplicateOrder, CountOrdersForDate;
    assert !HasId(s.ledger, id);
  }

  lemma ReserveKeepsJobs(s: Sys, p: Proc, lookup: Id -> Lookup, saves: bool)
    requires HistoryOk(s) && LedgerOk(s) && JobsOk(s) && At(s, p, Checked)
    ensures JobsOk(Next(s, ReserveInLedger(p, lookup, saves)))
  {
    hide HistoryOk, LedgerOk, ReserveRows, ReserveResult, JobRowOk;
    var j := s.jobs[p];
    var s' := Next(s, ReserveInLedger(p, lookup, saves));
    ReserveOnlyAppends(s.ledger, j.slot, j.id, lookup, saves);
    forall q | q in s.jobs && q != p ensures JobRowOk(s'.ledger, s.jobs[q]) {
      ReserveKeepsJobRow(s, p, lookup, saves, q);
    }
    if p in s'.jobs {
      NewRowIsOk(s'.ledger, s'.jobs[p]);
    }
  }

  lemma NewRowIsOk(ledger: seq<Row>, j: Job)
    requires j.phase == LedgerReserved && j.row < |ledger| && ledger[j.row] == Row(j.id, j.slot, Reserved)
    ensures JobRowOk(ledger, j)
  {
  }

  lemma SettleKeepsJobs(s: Sys, a: Action)
    requires LedgerOk(s) && JobsOk(s) && Enabled(s, a) && (a.Abort? || a.Commit?)
    ensures JobsOk(Next(s, a))
  {
    hide LedgerOk;
    TransitionKeepsOthers(s, a.p, if a.Abort? then Aborted else Committed);
  }

  lemma ToKeepsJobs(s: Sys, p: Proc, phase: Phase)
    requires JobsOk(s) && p in s.jobs && s.jobs[p].phase != Checked && phase != Checked
    requires HoldsLock(phase) ==> HoldsLock(s.jobs[p].phase)
    ensures JobsOk(To(s, p, phase))
  {
    hide HasId;
    var s' := To(s, p, phase);
    assert JobRowOk(s.ledger, s.jobs[p]);
    hide JobRowOk;
    assert forall q :: q in s.jobs && q != p ==> JobRowOk(s.ledger, s.jobs[q]) && s'.jobs[q] == s.jobs[q];
  }

  lemma LeaveKeepsJobs(s: Sys, p: Proc)
    requires JobsOk(s)
    ensures JobsOk(Leave(s, p))
  {
    hide JobRowOk;
  }

  /** What a process remembers depends on the ledger, its ids and its job alone. */
  lemma JobsOkReads(s: Sys, t: Sys)
    requires JobsOk(s) && t.ledger == s.ledger && t.used == s.used && t.jobs == s.jobs
    ensures JobsOk(t)
  {
    hide JobRowOk;
  }

  /** A step that leaves the ledger alone moves one job to a phase its row allows. */
  lemma MoveKeepsJobs(s: Sys, a: Action)
    requires JobsOk(s) && Enabled(s, a)
    requires !a.Begin? && !a.ReserveInLedger? && !a.Abort? && !a.Commit?
    ensures JobsOk(Next(s, a))
  {
    var s' := Next(s, a);
    assert s'.ledger == s.ledger && s'.used == s.used;
    if s'.jobs == s.jobs {
      hide *;
      JobsOkReads(s, s');
    } else if a.Finish? || a.Crash? {
      assert s'.jobs == Leave(s, a.p).jobs;
      hide *;
      LeaveKeepsJobs(s, a.p);
      assert Leave(s, a.p).ledger == s.ledger && Leave(s, a.p).used == s.used by {
        LeaveFrame(s, a.p);
      }
      JobsOkReads(Leave(s, a.p), s');
    } else {
      var phase := s'.jobs[a.p].phase;
      assert s'.jobs == To(s, a.p, phase).jobs;
      assert s.jobs[a.p].phase != Checked && phase != Checked && (HoldsLock(phase) ==> HoldsLock(s.jobs[a.p].phase));
      assert To(s, a.p, phase).ledger == s.ledger && To(s, a.p, phase).used == s.used;
      hide *;
      ToKeepsJobs(s, a.p, phase);
      JobsOkReads(To(s, a.p, phase), s');
    }
  }

  lemma LeaveFrame(s: Sys, p: Proc)
    ensures Leave(s, p).ledger == s.ledger && Leave(s, p).used == s.used
  {
  }

  lemma StepKeepsJobs(s: Sys, a: Action)
    requires HistoryOk(s) && LedgerOk(s) && JobsOk(s) && Enabled(s, a)
    ensures JobsOk(Next(s, a))
  {
    match a
    case Begin(p, slot, id) =>
      BeginKeepsJobs(s, p, slot, id);
    case ReserveInLedger(p, lookup, saves) =>
      ReserveKeepsJobs(s, p, lookup, saves);
    case Abort(p, saves) =>
      SettleKeepsJobs(s, a);
    case Commit(p, saves) =>
      SettleKeepsJobs(s, a);
    case _ =>
      MoveKeepsJobs(s, a);
  }

  lemma TransitionKeepsOthers(s: Sys, p: Proc, state: State)
    requires LedgerOk(s) && JobsOk(s) && p in s.jobs
    ensures var r := TransitionRows(s.ledger, s.jobs[p].id, state);
            && (forall q :: q in s.jobs && q != p ==> JobRowOk(r, s.jobs[q]))
            && (s.jobs[p].phase != Checked ==>
                  var k := s.jobs[p].row;
                  k < |r| && r[k] == s.ledger[k].(state := state))
  {
    var r := TransitionRows(s.ledger, s.jobs[p].id, state);
    forall q | q in s.jobs && q != p ensures JobRowOk(r, s.jobs[q]) {
      assert s.jobs[q].id != s.jobs[p].id;
    }
  }

  /** No step removes, re-keys or moves a ledger row. */
  lemma RowsAreStable(s: Sys, a: Action)
    requires Enabled(s, a)
    ensures var r := Next(s, a).ledger;
            |s.ledger| <= |r|
            && forall k :: 0 <= k < |s.ledger| ==> r[k].id == s.ledger[k].id && r[k].slot == s.ledger[k].slot
  {
    hide IsDuplicateOrder, CountOrdersForDate, WithStatus, ReservedHistory, ReserveResult;
    if a.ReserveInLedger? {
      ReserveOnlyAppends(s.ledger, s.jobs[a.p].slot, s.jobs[a.p].id, a.lookup, a.saves);
    }
  }

  lemma AddOrderRow(ledger: seq<Row>, orders: seq<BrokerOrder>, o: BrokerOrder)
    requires OrderRows(ledger, orders)
    requires o.row < |ledger| && ledger[o.row].id == o.id && ledger[o.row].slot == o.slot
    requires forall k :: 0 <= k < |orders| ==> orders[k].id != o.id
    ensures OrderRows(ledger, orders + [o])
  {
    assert forall k :: 0 <= k < |orders| ==> ledger[orders[k].row].id == orders[k].id;
  }

  lemma SubmitKeepsOrders(s: Sys, p: Proc, received: bool, answered: bool)
    requires JobsOk(s) && OrdersOk(s) && At(s, p, Returned)
    ensures OrdersOk(Next(s, Submit(p, received, answered)))
  {
    var j, s' := s.jobs[p], Next(s, Submit(p, received, answered));
    var o := BrokerOrder(j.id, j.slot, j.row);
    assert JobRowOk(s.ledger, j);
    assert OrderRows(s.ledger, s.orders);
    assert s'.ledger == s.ledger && s'.orders == if received then s.orders + [o] else s.orders;
    assert s'.jobs == s.jobs[p := j.(phase := if answered then Answered else Lost)];
    hide Next, Enabled, JobRowOk, HasId, Active;
    AddOrderRow(s.ledger, s.orders, o);
    forall q, k | q in s'.jobs && NotYetSubmitted(s'.jobs[q].phase) && 0 <= k < |s'.orders|
      ensures s'.orders[k].id != s'.jobs[q].id
    {
      assert q != p && s'.jobs[q] == s.jobs[q];
      if k < |s.orders| {
        assert s'.orders[k] == s.orders[k];
      }
    }
    hide JobsOk;
    assert OrderRows(s'.ledger, s'.orders);
  }

  lemma OrdersUnchanged(s: Sys, a: Action)
    requires Enabled(s, a) && !a.Submit?
    ensures Next(s, a).orders == s.orders
  {
    hide IsDuplicateOrder, CountOrdersForDate, WithStatus, ReservedHistory, ReserveRows, ReserveResult, TransitionRows;
  }

  /** A job that has not submitted after a step had not submitted before it, or has just begun with a fresh id. */
  lemma UnsubmittedBefore(s: Sys, a: Action, p: Proc)
    requires Enabled(s, a) && !a.Submit? && p in Next(s, a).jobs && NotYetSubmitted(Next(s, a).jobs[p].phase)
    ensures var id := Next(s, a).jobs[p].id;
            id !in s.used || (p in s.jobs && NotYetSubmitted(s.jobs[p].phase) && s.jobs[p].id == id)
  {
    hide IsDuplicateOrder, CountOrdersForDate, WithStatus, ReservedHistory, ReserveRows, ReserveResult, TransitionRows;
  }

  /** Other steps submit nothing, and no unsubmitted job ever shares an id with an order. */
  lemma NonSubmitKeepsOrders(s: Sys, a: Action)
    requires LedgerOk(s) && OrdersOk(s) && Enabled(s, a) && !a.Submit?
    ensures OrdersOk(Next(s, a))
  {
    hide UniqueIds, OneActivePerSlot, Next, Enabled, NotYetSubmitted;
    RowsAreStable(s, a);
    OrdersUnchanged(s, a);
    var s' := Next(s, a);
    forall p, k | p in s'.jobs && NotYetSubmitted(s'.jobs[p].phase) && 0 <= k < |s.orders|
      ensures s.orders[k].id != s'.jobs[p].id
    {
      UnsubmittedBefore(s, a, p);
      assert s.orders[k].id in s.used;
    }
  }

  lemma StepKeepsOrders(s: Sys, a: Action)
    requires LedgerOk(s) && JobsOk(s) && OrdersOk(s) && Enabled(s, a)
    ensures OrdersOk(Next(s, a))
  {
    if a.Submit? {
      SubmitKeepsOrders(s, a.p, a.received, a.answered);
    } else {
      NonSubmitKeepsOrders(s, a);
    }
  }

  /** Every step of every process, and every crash, keeps all four parts. */
  lemma StepKeepsInv(s: Sys, a: Action)
    requires Inv(s) && Enabled(s, a)
    ensures Inv(Next(s, a))
  {
    hide HistoryOk, LedgerOk, JobsOk, OrdersOk, Enabled, Next;
    StepKeepsHistory(s, a);
    StepKeepsLedger(s, a);
    StepKeepsJobs(s, a);
    StepKeepsOrders(s, a);
  }

  ghost predicate IsRun(states: seq<Sys>, actions: seq<Action>) {
    && |states| == |actions| + 1
    && states[0] == INIT
    && forall k :: 0 <= k < |actions| ==> Enabled(states[k], actions[k]) && states[k + 1] == Next(states[k], actions[k])
  }

  lemma {:induction false} RunKeepsInv(states: seq<Sys>, actions: seq<Action>, k: nat)
    requires IsRun(states, actions) && k < |states|
    ensures Inv(states[k])
    decreases k
  {
    hide Inv, Next, Enabled;
    if k == 0 {
      InitInv();
    } else {
      RunKeepsInv(states, actions, k - 1);
      StepKeepsInv(states[k - 1], actions[k - 1]);
    }
  }

  lemma InitInv()
    ensures Inv(INIT)
  {
  }

  // -------------------------------------------------------------- Guarantees

  /**
   Over every run: each broker submission has a ledger row of its own under its id, no slot has
   two rows that are not aborted, and the history keeps one row per slot and the daily limit.
   */
  lemma OrderingIsSafe(states: seq<Sys>, actions: seq<Action>, k: nat)
    requires IsRun(states, actions) && k < |states|
    ensures var s := states[k];
            && OneActivePerSlot(s.ledger) && UniqueIds(s.ledger)
            && OneRowPerSlot(s.history) && WithinDailyLimit(s.history)
            && (forall i :: 0 <= i < |s.orders| ==>
                  var o := s.orders[i];
                  o.row < |s.ledger| && s.ledger[o.row].id == o.id && s.ledger[o.row].slot == o.slot)
            && (forall i, j :: 0 <= i < j < |s.orders| ==>
                  s.orders[i].row != s.orders[j].row && s.orders[i].id != s.orders[j].id)
  {
    RunKeepsInv(states, actions, k);
    var s := states[k];
    forall i, j | 0 <= i < j < |s.orders|
      ensures s.orders[i].row != s.orders[j].row && s.orders[i].id != s.orders[j].id {
      if s.orders[i].row < s.orders[j].row {
        assert s.ledger[s.orders[i].row].id != s.ledger[s.orders[j].row].id;
      } else {
        assert s.ledger[s.orders[j].row].id != s.ledger[s.orders[i].row].id;
      }
    }
  }

  /** The broker holds two orders for one slot only if one of them was aborted after it was received. */
  lemma DoubleOrderMeansAbortedOrder(s: Sys, i: nat, j: nat)
    requires Inv(s) && i < j < |s.orders| && s.orders[i].slot == s.orders[j].slot
    ensures !Active(s.ledger[s.orders[i].row]) || !Active(s.ledger[s.orders[j].row])
  {
    hide HistoryOk, JobsOk;
    if s.orders[i].row < s.orders[j].row {
      assert s.ledger[s.orders[i].row].slot == s.ledger[s.orders[j].row].slot;
    } else {
      assert s.ledger[s.orders[j].row].slot == s.ledger[s.orders[i].row].slot;
    }
  }

  /**
   While a row is not aborted its slot stays closed: only an abort by the row's own job can
   open it, so a reservation left behind by a crash is never reserved over.
   */
  lemma LeftoverRowKeepsItsSlot(s: Sys, a: Action, k: nat)
    requires Inv(s) && Enabled(s, a) && k < |s.ledger| && Active(s.ledger[k])
    ensures var r := Next(s, a).ledger;
            && k < |r|
            && (Active(r[k]) || (a.Abort? && s.jobs[a.p].id == s.ledger[k].id))
            && (forall j :: |s.ledger| <= j < |r| ==> r[j].slot != s.ledger[k].slot)
  {
    hide IsDuplicateOrder, CountOrdersForDate, WithStatus, ReservedHistory, ReserveRows, ReserveResult;
    if a.ReserveInLedger? {
      ReserveOnlyAppends(s.ledger, s.jobs[a.p].slot, s.jobs[a.p].id, a.lookup, a.saves);
    }
  }

  /** The last step into a state of a run. */
  lemma RunStep(states: seq<Sys>, actions: seq<Action>, n: nat)
    requires IsRun(states, actions) && 0 < n < |states|
    ensures n - 1 < |actions| && Inv(states[n - 1])
    ensures Enabled(states[n - 1], actions[n - 1]) && states[n] == Next(states[n - 1], actions[n - 1])
  {
    hide Inv, Next, Enabled;
    RunKeepsInv(states, actions, n - 1);
  }

  /** The k-th row is active, under its id and slot, and no row after the first `before` is of its slot. */
  ghost predicate IsClosed(ledger: seq<Row>, before: nat, k: nat, row: Row) {
    && k < before <= |ledger| && ledger[k].id == row.id && ledger[k].slot == row.slot && Active(ledger[k])
    && forall i :: before <= i < |ledger| ==> ledger[i].slot != row.slot
  }

  lemma ClosedNow(ledger: seq<Row>, k: nat)
    requires k < |ledger| && Active(ledger[k])
    ensures IsClosed(ledger, |ledger|, k, ledger[k])
  {
  }

  predicate AbortsId(s: Sys, a: Action, id: Id) {
    a.Abort? && a.p in s.jobs && s.jobs[a.p].id == id
  }

  lemma ClosedStays(s: Sys, a: Action, before: nat, k: nat, row: Row)
    requires Inv(s) && Enabled(s, a) && IsClosed(s.ledger, before, k, row)
    requires !AbortsId(s, a, row.id)
    ensures IsClosed(Next(s, a).ledger, before, k, row)
  {
    LeftoverRowKeepsItsSlot(s, a, k);
    RowsAreStable(s, a);
    hide Inv, Next, Active;
  }

  /**
   Over every run: an active row keeps its slot closed to every later reservation, and stays
   active, until a job that holds its id aborts it.
   */
  lemma {:induction false} SlotStaysClosedUntilAborted(states: seq<Sys>, actions: seq<Action>, m: nat, n: nat, k: nat)
    requires IsRun(states, actions) && m <= n < |states| && k < |states[m].ledger| && Active(states[m].ledger[k])
    requires forall t :: m <= t < n ==> !AbortsId(states[t], actions[t], states[m].ledger[k].id)
    ensures IsClosed(states[n].ledger, |states[m].ledger|, k, states[m].ledger[k])
    decreases n
  {
    hide *;
    if m == n {
      ClosedNow(states[m].ledger, k);
    } else {
      SlotStaysClosedUntilAborted(states, actions, m, n - 1, k);
      RunStep(states, actions, n);
      ClosedStays(states[n - 1], actions[n - 1], |states[m].ledger|, k, states[m].ledger[k]);
    }
  }

  /** The id was used, and no job has it. */
  ghost predicate IsOrphan(s: Sys, id: Id) {
    id in s.used && forall q :: q in s.jobs ==> s.jobs[q].id != id
  }

  lemma CrashOrphans(s: Sys, p: Proc)
    requires JobsOk(s) && p in s.jobs
    ensures IsOrphan(Next(s, Crash(p)), s.jobs[p].id)
  {
    hide JobRowOk;
  }

  lemma OrphanStays(s: Sys, a: Action, id: Id)
    requires IsOrphan(s, id) && Enabled(s, a)
    ensures IsOrphan(Next(s, a), id)
  {
    hide IsDuplicateOrder, CountOrdersForDate, WithStatus, ReservedHistory, ReserveRows, ReserveResult, TransitionRows;
  }

  lemma OrphanStaysActive(s: Sys, a: Action, k: nat)
    requires Inv(s) && Enabled(s, a) && k < |s.ledger| && Active(s.ledger[k]) && IsOrphan(s, s.ledger[k].id)
    ensures var r := Next(s, a).ledger;
            && k < |r| && Active(r[k]) && r[k].id == s.ledger[k].id && r[k].slot == s.ledger[k].slot
            && (forall j :: |s.ledger| <= j < |r| ==> r[j].slot != s.ledger[k].slot)
            && |s.ledger| <= |r| && forall j :: 0 <= j < |s.ledger| ==> r[j].slot == s.ledger[j].slot
  {
    LeftoverRowKeepsItsSlot(s, a, k);
    RowsAreStable(s, a);
    hide Inv, Next;
  }

  /** The orphan's row is active, and no row after the first `before` is of its slot. */
  ghost predicate IsHeld(s: Sys, before: nat, j: Job) {
    && before <= |s.ledger| && j.row < before && IsOrphan(s, j.id)
    && s.ledger[j.row].id == j.id && s.ledger[j.row].slot == j.slot && Active(s.ledger[j.row])
    && forall i :: before <= i < |s.ledger| ==> s.ledger[i].slot != j.slot
  }

  lemma HeldAtCrash(s: Sys, p: Proc)
    requires Inv(s) && p in s.jobs && s.jobs[p].phase != Checked
    ensures IsHeld(Next(s, Crash(p)), |s.ledger|, s.jobs[p])
  {
    assert JobRowOk(s.ledger, s.jobs[p]);
    CrashOrphans(s, p);
    hide HistoryOk, LedgerOk, OrdersOk, JobsOk, IsOrphan;
  }

  lemma HeldStays(s: Sys, a: Action, before: nat, j: Job)
    requires Inv(s) && Enabled(s, a) && IsHeld(s, before, j)
    ensures IsHeld(Next(s, a), before, j)
  {
    hide Inv, Next, Enabled, IsOrphan, Active;
    OrphanStays(s, a, j.id);
    OrphanStaysActive(s, a, j.row);
  }

  /**
   Over every run: once a process has crashed holding a ledger row, that row stays active in
   every later state, and no later row is ever reserved for its slot.
   */
  lemma {:induction false} CrashedReservationIsNeverReserved(states: seq<Sys>, actions: seq<Action>,
                                                              k: nat, p: Proc, n: nat)
    requires IsRun(states, actions) && k < |actions| && actions[k] == Crash(p) && k < n < |states|
    requires states[k].jobs[p].phase != Checked
    ensures IsHeld(states[n], |states[k].ledger|, states[k].jobs[p])
    decreases n
  {
    hide Inv, Next, IsHeld;
    assert Enabled(states[n - 1], actions[n - 1]) && states[n] == Next(states[n - 1], actions[n - 1]);
    RunKeepsInv(states, actions, n - 1);
    if n == k + 1 {
      HeldAtCrash(states[k], p);
    } else {
      CrashedReservationIsNeverReserved(states, actions, k, p, n - 1);
      hide IsRun, Enabled;
      HeldStays(states[n - 1], actions[n - 1], |states[k].ledger|, states[k].jobs[p]);
    }
  }

  /** Over every run, a commit is of a row that is still active, and leaves it committed if it is written. */
  lemma CommitIsOfAnActiveRow(states: seq<Sys>, actions: seq<Action>, k: nat)
    requires IsRun(states, actions) && k < |actions| && actions[k].Commit?
    ensures var j, saves := states[k].jobs[actions[k].p], actions[k].saves;
            var before, after := states[k].ledger, states[k + 1].ledger;
            && j.row < |before| == |after| && before[j.row].id == j.id && Active(before[j.row])
            && after[j.row] == (if saves then Row(j.id, j.slot, Committed) else before[j.row])
  {
    RunKeepsInv(states, actions, k);
    var s, a := states[k], actions[k];
    assert Enabled(s, a) && states[k + 1] == Next(s, a);
    hide IsRun;
    AnsweredRowIsActive(s, a.p);
    assert JobRowOk(s.ledger, s.jobs[a.p]);
    hide Inv;
  }

  /** A normal return of try_reserve_order leaves its pending row, its reserved row and its record. */
  lemma NormalReturnLeavesAllThree(s: Sys, p: Proc)
    requires Inv(s) && At(s, p, HistorySaved)
    ensures var s' := Next(s, RecordReconciliation(p, true));
            var j := s.jobs[p];
            && HasPending(s'.history, j.slot)
            && j.row < |s'.ledger| && s'.ledger[j.row] == Row(j.id, j.slot, Reserved)
            && j.id in s'.tracked
  {
  }

  /** A failure after the ledger reservation ends with the row aborted, if that write succeeds. */
  lemma FailedReturnAborts(s: Sys, p: Proc)
    requires Inv(s) && At(s, p, MustAbort)
    ensures var s' := Next(s, Abort(p, true));
            var j := s.jobs[p];
            j.row < |s'.ledger| && s'.ledger[j.row] == Row(j.id, j.slot, Aborted) && s'.lock == None
  {
    TransitionKeepsOthers(s, p, Aborted);
  }

  // ----------------------------------------------- When a slot is ordered once

  /** The broker receives an order and its answer never arrives. */
  predicate LosesReceipt(a: Action) {
    a.Submit? && a.received && !a.answered
  }

  predicate MayHaveLost(phase: Phase) {
    phase == Lost || phase == FailureMarked
  }

  /** Every order's row is active, and no job that gave its submission up has an order. */
  ghost predicate NothingLost(s: Sys) {
    && (forall k :: 0 <= k < |s.orders| ==> s.orders[k].row < |s.ledger| && Active(s.ledger[s.orders[k].row]))
    && (forall p, k :: p in s.jobs && MayHaveLost(s.jobs[p].phase) && 0 <= k < |s.orders| ==>
          s.orders[k].id != s.jobs[p].id)
  }

  lemma SubmitLosesNothing(s: Sys, p: Proc, received: bool, answered: bool)
    requires Inv(s) && NothingLost(s) && At(s, p, Returned) && !LosesReceipt(Submit(p, received, answered))
    ensures NothingLost(Next(s, Submit(p, received, answered)))
  {
    var j, s' := s.jobs[p], Next(s, Submit(p, received, answered));
    var o := BrokerOrder(j.id, j.slot, j.row);
    assert JobRowOk(s.ledger, j);
    assert s'.ledger == s.ledger && s'.orders == if received then s.orders + [o] else s.orders;
    assert s'.jobs == s.jobs[p := j.(phase := if answered then Answered else Lost)];
    assert forall q :: q in s.jobs && q != p ==> s.jobs[q].id != j.id;
    assert forall k :: 0 <= k < |s.orders| ==> s.orders[k].id != j.id;
    hide Next, Enabled, JobRowOk, HasId, Inv, At;
  }

  lemma AbortLosesNothing(s: Sys, p: Proc, saves: bool)
    requires Inv(s) && NothingLost(s) && Enabled(s, Abort(p, saves))
    ensures NothingLost(Next(s, Abort(p, saves)))
  {
    var j, s' := s.jobs[p], Next(s, Abort(p, saves));
    forall k | 0 <= k < |s.orders| ensures s.orders[k].row < |s'.ledger| && Active(s'.ledger[s.orders[k].row]) {
      assert s.orders[k].id != j.id;
      assert s.ledger[s.orders[k].row].id == s.orders[k].id;
    }
    hide Inv;
  }

  lemma NobodyGivesUp(s: Sys, a: Action, p: Proc)
    requires Enabled(s, a) && !a.Submit? && !a.Abort?
    requires p in Next(s, a).jobs && MayHaveLost(Next(s, a).jobs[p].phase)
    ensures p in s.jobs && MayHaveLost(s.jobs[p].phase) && Next(s, a).jobs[p].id == s.jobs[p].id
  {
    hide IsDuplicateOrder, CountOrdersForDate, WithStatus, ReservedHistory, ReserveRows, ReserveResult, TransitionRows;
  }

  lemma OthersLoseNothing(s: Sys, a: Action)
    requires Inv(s) && NothingLost(s) && Enabled(s, a) && !a.Submit? && !a.Abort?
    ensures NothingLost(Next(s, a))
  {
    hide Inv, Next, Enabled, Active, MayHaveLost;
    var s' := Next(s, a);
    OrdersUnchanged(s, a);
    forall k | 0 <= k < |s.orders| ensures s.orders[k].row < |s'.ledger| && Active(s'.ledger[s.orders[k].row]) {
      LeftoverRowKeepsItsSlot(s, a, s.orders[k].row);
    }
    forall p, k | p in s'.jobs && MayHaveLost(s'.jobs[p].phase) && 0 <= k < |s'.orders|
      ensures s'.orders[k].id != s'.jobs[p].id
    {
      NobodyGivesUp(s, a, p);
    }
  }

  /** A step that loses no receipt keeps every order's row active. */
  lemma StepLosesNothing(s: Sys, a: Action)
    requires Inv(s) && NothingLost(s) && Enabled(s, a) && !LosesReceipt(a)
    ensures NothingLost(Next(s, a))
  {
    hide Inv, Next, NothingLost;
    if a.Submit? {
      SubmitLosesNothing(s, a.p, a.received, a.answered);
    } else if a.Abort? {
      AbortLosesNothing(s, a.p, a.saves);
    } else {
      OthersLoseNothing(s, a);
    }
  }

  lemma {:induction false} RunLosesNothing(states: seq<Sys>, actions: seq<Action>, k: nat)
    requires IsRun(states, actions) && k < |states|
    requires forall n :: 0 <= n < |actions| ==> !LosesReceipt(actions[n])
    ensures NothingLost(states[k])
    decreases k
  {
    hide Inv, Next, Enabled, LosesReceipt;
    if k > 0 {
      hide NothingLost;
      RunLosesNothing(states, actions, k - 1);
      RunKeepsInv(states, actions, k - 1);
      StepLosesNothing(states[k - 1], actions[k - 1]);
    }
  }

  /**
   Over every run in which no answer to a received order is lost, whatever else crashes, fails or
   interleaves, the broker holds at most one order for a symbol and day.
   */
  lemma OneOrderPerSlotUnlessReceiptLost(states: seq<Sys>, actions: seq<Action>, k: nat)
    requires IsRun(states, actions) && k < |states|
    requires forall n :: 0 <= n < |actions| ==> !LosesReceipt(actions[n])
    ensures forall i, j :: 0 <= i < j < |states[k].orders| ==> states[k].orders[i].slot != states[k].orders[j].slot
  {
    RunLosesNothing(states, actions, k);
    RunKeepsInv(states, actions, k);
    var s := states[k];
    hide IsRun;
    forall i: nat, j: nat | i < j < |s.orders| ensures s.orders[i].slot != s.orders[j].slot {
      if s.orders[i].slot == s.orders[j].slot {
        DoubleOrderMeansAbortedOrder(s, i, j);
      }
    }
  }

  // ------------------------------------------- Where one order per slot fails

  lemma Extend(states: seq<Sys>, actions: seq<Action>, a: Action) returns (states': seq<Sys>, actions': seq<Action>)
    requires IsRun(states, actions) && Enabled(states[|states| - 1], a)
    ensures IsRun(states', actions') && |states'| == |states| + 1 && states <= states'
    ensures states'[|states'| - 1] == Next(states[|states| - 1], a)
  {
    hide Enabled, Next;
    states', actions' := states + [Next(states[|states| - 1], a)], actions + [a];
    forall k | 0 <= k < |actions'|
      ensures Enabled(states'[k], actions'[k]) && states'[k + 1] == Next(states'[k], actions'[k]) {
      if k < |actions| {
        assert states'[k] == states[k] && states'[k + 1] == states[k + 1];
      }
    }
  }

  /** A slot that the history and the ledger both leave open. */
  predicate IsOpen(s: Sys, slot: Slot) {
    && s.lock == None && FirstActive(s.ledger, slot, 0) == None
    && !IsDuplicateOrder(s.history, slot) && CountOrdersForDate(s.history, slot.date) < MAX_TRADES_PER_DAY
  }

  /** From any state of any run, an open slot can be reserved. */
  lemma OpenSlotCanBeReserved(states: seq<Sys>, actions: seq<Action>, p: Proc, slot: Slot, id: Id)
    returns (states': seq<Sys>, actions': seq<Action>)
    requires IsRun(states, actions)
    requires var s := states[|states| - 1]; IsOpen(s, slot) && p !in s.jobs && id !in s.used
    ensures IsRun(states', actions') && |states| < |states'| && states <= states'
    ensures var s, s' := states[|states| - 1], states'[|states'| - 1];
            && s' == Sys(s.history, Some(p), s.ledger + [Row(id, slot, Reserved)], s.tracked, s.orders, s.used + {id},
                         s.jobs[p := Job(LedgerReserved, slot, id, |s.ledger|, s.history)])
  {
    hide IsDuplicateOrder, CountOrdersForDate, ReservedHistory;
    var s := states[|states| - 1];
    hide IsRun;
    states', actions' := Extend(states, actions, Begin(p, slot, id));
    states', actions' := Extend(states', actions', ReserveInLedger(p, _ => NoBroker, true));
    assert states'[|states'| - 1].jobs == s.jobs[p := Job(LedgerReserved, slot, id, |s.ledger|, s.history)];
  }

  /** From any state of any run, an open slot can be reserved and its order reach the broker. */
  lemma OpenSlotCanBeOrdered(states: seq<Sys>, actions: seq<Action>, p: Proc, slot: Slot, id: Id)
    returns (states': seq<Sys>, actions': seq<Action>)
    requires IsRun(states, actions)
    requires var s := states[|states| - 1]; IsOpen(s, slot) && p !in s.jobs && id !in s.used
    ensures IsRun(states', actions') && |states| < |states'| && states <= states'
    ensures var s, s' := states[|states| - 1], states'[|states'| - 1];
            && s'.orders == s.orders + [BrokerOrder(id, slot, |s.ledger|)]
            && s'.ledger == s.ledger + [Row(id, slot, Reserved)]
            && s'.history == ReservedHistory(s.history, slot, "", false)
            && s'.used == s.used + {id} && s'.lock == None
            && s'.jobs == s.jobs[p := Job(Lost, slot, id, |s.ledger|, s.history)]
  {
    hide IsDuplicateOrder, CountOrdersForDate, ReservedHistory, IsOpen;
    var s := states[|states| - 1];
    hide IsRun;
    states', actions' := OpenSlotCanBeReserved(states, actions, p, slot, id);
    states', actions' := Extend(states', actions', SaveHistory(p, true));
    states', actions' := Extend(states', actions', RecordReconciliation(p, true));
    states', actions' := Extend(states', actions', Submit(p, true, false));
    assert states'[|states'| - 1].jobs == s.jobs[p := Job(Lost, slot, id, |s.ledger|, s.history)];
  }

  /** Aborting the job's row frees its slot in the ledger. */
  lemma AbortFreesSlot(s: Sys, p: Proc)
    requires Inv(s) && p in s.jobs && s.jobs[p].phase == FailureMarked
    ensures var s' := Next(s, Abort(p, true));
            FirstActive(s'.ledger, s.jobs[p].slot, 0) == None && |s'.ledger| == |s.ledger|
  {
    var j, s' := s.jobs[p], Next(s, Abort(p, true));
    assert JobRowOk(s.ledger, j);
    hide HistoryOk, OrdersOk;
    forall k | 0 <= k < |s.ledger| && s.ledger[k].slot == j.slot ensures !Active(s'.ledger[k]) {
      if k < j.row {
        assert !Active(s.ledger[k]);
      } else if j.row < k {
        assert !Active(s.ledger[k]);
      }
    }
    hide Inv, Next;
    NoActiveRow(s'.ledger, j.slot, 0);
  }

  lemma {:induction false} NoActiveRow(rows: seq<Row>, slot: Slot, k: nat)
    requires k <= |rows| && forall n :: k <= n < |rows| && rows[n].slot == slot ==> !Active(rows[n])
    ensures FirstActive(rows, slot, k) == None
    decreases |rows| - k
  {
    if k < |rows| {
      NoActiveRow(rows, slot, k + 1);
    }
  }

  /** A history whose rows of the slot are all marked failed lets the slot be ordered again. */
  lemma MarkedIsOpen(history: seq<HistoryRow>, slot: Slot)
    ensures !IsDuplicateOrder(WithStatus(history, slot, SubmissionFailed), slot)
    ensures CountOrdersForDate(WithStatus(history, slot, SubmissionFailed), slot.date)
            == CountOrdersForDate(history, slot.date)
  {
    WithStatusCount(history, slot, SubmissionFailed, slot.date);
  }

  /** From a job that has marked its received order failed, the run goes on to a second order for the slot. */
  lemma MarkedOrderCanBeDoubled(states: seq<Sys>, actions: seq<Action>, p: Proc, id: Id)
    returns (states': seq<Sys>, actions': seq<Action>)
    requires IsRun(states, actions)
    requires var s := states[|states| - 1];
             && p in s.jobs && s.jobs[p].phase == FailureMarked && s.lock == None && id !in s.used
             && !IsDuplicateOrder(s.history, s.jobs[p].slot)
             && CountOrdersForDate(s.history, s.jobs[p].slot.date) < MAX_TRADES_PER_DAY
    ensures IsRun(states', actions') && |states| < |states'| && states <= states'
    ensures var s := states[|states| - 1];
            states'[|states'| - 1].orders == s.orders + [BrokerOrder(id, s.jobs[p].slot, |s.ledger|)]
  {
    hide IsDuplicateOrder, CountOrdersForDate;
    RunKeepsInv(states, actions, |states| - 1);
    var s := states[|states| - 1];
    hide IsRun;
    AbortFreesSlot(s, p);
    states', actions' := Extend(states, actions, Abort(p, true));
    assert states'[|states'| - 1] == Next(s, Abort(p, true));
    hide Inv, TransitionRows;
    states', actions' := OpenSlotCanBeOrdered(states', actions', p, s.jobs[p].slot, id);
  }

  /** The same from the moment the answer is lost. */
  lemma LostOrderCanBeDoubled(states: seq<Sys>, actions: seq<Action>, p: Proc, id: Id)
    returns (states': seq<Sys>, actions': seq<Action>)
    requires IsRun(states, actions)
    requires var s := states[|states| - 1];
             && p in s.jobs && s.jobs[p].phase == Lost && s.lock == None && id !in s.used
             && CountOrdersForDate(s.history, s.jobs[p].slot.date) < MAX_TRADES_PER_DAY
    ensures IsRun(states', actions') && |states| < |states'| && states <= states'
    ensures var s := states[|states| - 1];
            states'[|states'| - 1].orders == s.orders + [BrokerOrder(id, s.jobs[p].slot, |s.ledger|)]
  {
    hide IsDuplicateOrder, CountOrdersForDate, WithStatus;
    var s := states[|states| - 1];
    hide IsRun;
    MarkedIsOpen(s.history, s.jobs[p].slot);
    states', actions' := Extend(states, actions, MarkFailure(p, true));
    states', actions' := MarkedOrderCanBeDoubled(states', actions', p, id);
  }

  /**
   Every lost receipt can double its slot: from any state of any run in which a job has given up
   an order the broker received, with the lock free and the day's limit not reached, the run can
   go on to a second order for the same slot.
   */
  lemma LostReceiptCanBeDoubled(states: seq<Sys>, actions: seq<Action>, p: Proc, i: nat, id: Id)
    returns (states': seq<Sys>, actions': seq<Action>)
    requires IsRun(states, actions)
    requires var s := states[|states| - 1];
             && p in s.jobs && MayHaveLost(s.jobs[p].phase) && s.lock == None && id !in s.used
             && i < |s.orders| && s.orders[i].id == s.jobs[p].id
             && (s.jobs[p].phase == FailureMarked ==> !IsDuplicateOrder(s.history, s.jobs[p].slot))
             && CountOrdersForDate(s.history, s.jobs[p].slot.date) < MAX_TRADES_PER_DAY
    ensures IsRun(states', actions') && |states| < |states'| && states <= states'
    ensures var orders, orders' := states[|states| - 1].orders, states'[|states'| - 1].orders;
            |orders'| == |orders| + 1 && orders <= orders' && orders'[i].slot == orders'[|orders|].slot
  {
    assert |states| > 0;
    hide IsRun, IsDuplicateOrder, CountOrdersForDate, Inv;
    RunKeepsInv(states, actions, |states| - 1);
    var s := states[|states| - 1];
    OrderHasTheJobsSlot(s, p, i);
    assert s.jobs[p].phase != Lost ==> s.jobs[p].phase == FailureMarked;
    if s.jobs[p].phase == Lost {
      states', actions' := LostOrderCanBeDoubled(states, actions, p, id);
    } else {
      states', actions' := MarkedOrderCanBeDoubled(states, actions, p, id);
    }
  }

  lemma OrderHasTheJobsSlot(s: Sys, p: Proc, i: nat)
    requires Inv(s) && p in s.jobs && s.jobs[p].phase != Checked && i < |s.orders| && s.orders[i].id == s.jobs[p].id
    ensures s.orders[i].slot == s.jobs[p].slot
  {
    assert JobRowOk(s.ledger, s.jobs[p]);
    assert s.ledger[s.orders[i].row].id == s.ledger[s.jobs[p].row].id;
    hide HistoryOk, JobsOk;
  }

  /** The day is full and nobody is about to submit for the slot. */
  ghost predicate IsFull(s: Sys, slot: Slot) {
    && CountOrdersForDate(s.history, slot.date) >= MAX_TRADES_PER_DAY
    && forall q :: q in s.jobs && s.jobs[q].slot == slot ==> !NotYetSubmitted(s.jobs[q].phase)
  }

  lemma WithoutSlotOtherDayStep(history: seq<HistoryRow>, row: HistoryRow, slot: Slot, date: string)
    requires slot.date != date
    requires CountOrdersForDate(WithoutSlot(history, slot), date) == CountOrdersForDate(history, date)
    ensures CountOrdersForDate(WithoutSlot(history + [row], slot), date) == CountOrdersForDate(history + [row], date)
  {
    hide *;
    WithoutSlotAppend(history, row, slot);
    CountAppend(history, row, date);
    CountAppend(WithoutSlot(history, slot), row, date);
  }

  lemma {:induction false} WithoutSlotOtherDay(history: seq<HistoryRow>, slot: Slot, date: string)
    requires slot.date != date
    ensures CountOrdersForDate(WithoutSlot(history, slot), date) == CountOrdersForDate(history, date)
  {
    if history == [] {
      assert WithoutSlot(history, slot) == [];
    } else {
      hide *;
      var init, last := history[..|history| - 1], history[|history| - 1];
      WithoutSlotOtherDay(init, slot, date);
      WithoutSlotOtherDayStep(init, last, slot, date);
      assert history == init + [last];
    }
  }

  lemma CountStaysFull(s: Sys, a: Action, date: string)
    requires HistoryOk(s) && Enabled(s, a) && CountOrdersForDate(s.history, date) >= MAX_TRADES_PER_DAY
    ensures CountOrdersForDate(Next(s, a).history, date) >= MAX_TRADES_PER_DAY
  {
    hide IsDuplicateOrder, ReserveRows, ReserveResult, TransitionRows, WithStatus, CountOrdersForDate, WithoutSlot;
    hide OneRowPerSlot, WithinDailyLimit, HasPending;
    if a.SaveHistory? {
      var j := s.jobs[a.p];
      assert j.slot.date != date && j.snapshot == s.history;
      WithoutSlotOtherDay(s.history, j.slot, date);
      CountAppend(WithoutSlot(s.history, j.slot), HistoryRow(j.slot, "", false, PendingSubmission), date);
    } else if a.MarkFailure? {
      WithStatusCount(s.history, s.jobs[a.p].slot, SubmissionFailed, date);
    } else if a.UpdateStatus? {
      WithStatusCount(s.history, a.slot, a.status, date);
    }
  }

  lemma NobodyComesBack(s: Sys, a: Action, slot: Slot, q: Proc)
    requires Enabled(s, a) && IsFull(s, slot) && q in Next(s, a).jobs && Next(s, a).jobs[q].slot == slot
    ensures !NotYetSubmitted(Next(s, a).jobs[q].phase)
  {
    hide IsDuplicateOrder, ReserveRows, ReserveResult, TransitionRows, WithStatus, CountOrdersForDate, ReservedHistory;
  }

  lemma FullDaySubmits(s: Sys, a: Action, slot: Slot)
    requires Enabled(s, a) && IsFull(s, slot)
    ensures s.orders <= Next(s, a).orders
    ensures forall i :: |s.orders| <= i < |Next(s, a).orders| ==> Next(s, a).orders[i].slot != slot
  {
    if a.Submit? {
      assert s.jobs[a.p].slot != slot;
      hide IsFull;
    } else {
      OrdersUnchanged(s, a);
      hide Next, IsFull, Enabled;
    }
  }

  lemma FullStays(s: Sys, a: Action, slot: Slot)
    requires HistoryOk(s) && Enabled(s, a) && IsFull(s, slot)
    ensures IsFull(Next(s, a), slot)
    ensures s.orders <= Next(s, a).orders
    ensures forall i :: |s.orders| <= i < |Next(s, a).orders| ==> Next(s, a).orders[i].slot != slot
  {
    hide HistoryOk, CountOrdersForDate, Next, Enabled, NotYetSubmitted;
    CountStaysFull(s, a, slot.date);
    FullDaySubmits(s, a, slot);
    forall q | q in Next(s, a).jobs && Next(s, a).jobs[q].slot == slot
      ensures !NotYetSubmitted(Next(s, a).jobs[q].phase)
    {
      NobodyComesBack(s, a, slot, q);
    }
  }

  /** Over every run, a full day takes no further order for a slot nobody is about to submit. */
  lemma {:induction false} FullDayTakesNoOrder(states: seq<Sys>, actions: seq<Action>, k: nat, n: nat, slot: Slot)
    requires IsRun(states, actions) && k <= n < |states| && IsFull(states[k], slot)
    ensures IsFull(states[n], slot) && states[k].orders <= states[n].orders
    ensures forall i :: |states[k].orders| <= i < |states[n].orders| ==> states[n].orders[i].slot != slot
    decreases n
  {
    hide Next, IsFull, HistoryOk, LedgerOk, JobsOk, OrdersOk;
    if k < n {
      FullDayTakesNoOrder(states, actions, k, n - 1, slot);
      RunStep(states, actions, n);
      hide IsRun, Enabled;
      FullStays(states[n - 1], actions[n - 1], slot);
    }
  }

  /** With the lock free, a job that gave its order up is the only one of its slot. */
  lemma NobodyElseSubmits(s: Sys, p: Proc)
    requires Inv(s) && At(s, p, Lost) && s.lock == None
    requires CountOrdersForDate(s.history, s.jobs[p].slot.date) >= MAX_TRADES_PER_DAY
    ensures IsFull(s, s.jobs[p].slot)
  {
    hide CountOrdersForDate, OneRowPerSlot, WithinDailyLimit, HasPending, OrdersOk;
    var slot := s.jobs[p].slot;
    forall q | q in s.jobs && s.jobs[q].slot == slot ensures !NotYetSubmitted(s.jobs[q].phase) {
      if !HoldsLock(s.jobs[q].phase) {
        OneJobPerSlot(s, p, q);
      }
    }
  }

  lemma OneJobPerSlot(s: Sys, p: Proc, q: Proc)
    requires LedgerOk(s) && JobsOk(s) && p in s.jobs && q in s.jobs && s.jobs[p].slot == s.jobs[q].slot
    requires s.jobs[p].phase != Checked && s.jobs[q].phase != Checked
    ensures p == q
  {
    assert JobRowOk(s.ledger, s.jobs[p]) && JobRowOk(s.ledger, s.jobs[q]);
    assert s.jobs[p].row == s.jobs[q].row;
  }

  ghost predicate TwoOrders(s: Sys, slot: Slot) {
    exists i, j :: 0 <= i < j < |s.orders| && s.orders[i].slot == s.orders[j].slot == slot
  }

  /** Some continuation of the run ends with two orders for the slot. */
  ghost predicate CanDouble(states: seq<Sys>, slot: Slot) {
    exists states': seq<Sys>, actions': seq<Action> ::
      IsRun(states', actions') && states <= states' && TwoOrders(states'[|states'| - 1], slot)
  }

  /**
   When the answer to a received order has been lost, its slot can still be ordered a second
   time if and only if the day's limit is not reached.
   */
  lemma LostReceiptDoublesIff(states: seq<Sys>, actions: seq<Action>, p: Proc, i: nat, id: Id)
    requires IsRun(states, actions)
    requires var s := states[|states| - 1];
             && At(s, p, Lost) && s.lock == None && id !in s.used
             && i < |s.orders| && s.orders[i].id == s.jobs[p].id && !TwoOrders(s, s.jobs[p].slot)
    ensures var s := states[|states| - 1];
            CanDouble(states, s.jobs[p].slot)
            <==> CountOrdersForDate(s.history, s.jobs[p].slot.date) < MAX_TRADES_PER_DAY
  {
    var s := states[|states| - 1];
    var slot := s.jobs[p].slot;
    RunKeepsInv(states, actions, |states| - 1);
    OrderHasTheJobsSlot(s, p, i);
    hide CountOrdersForDate, IsRun, Inv;
    if CountOrdersForDate(s.history, slot.date) < MAX_TRADES_PER_DAY {
      var states', actions' := LostReceiptCanBeDoubled(states, actions, p, i, id);
      assert TwoOrders(states'[|states'| - 1], slot);
    } else {
      NobodyElseSubmits(s, p);
      forall states': seq<Sys>, actions': seq<Action>
        | IsRun(states', actions') && states <= states'
        ensures !TwoOrders(states'[|states'| - 1], slot)
      {
        StillOneOrder(states, states', actions', slot);
      }
    }
  }

  lemma StillOneOrder(states: seq<Sys>, states': seq<Sys>, actions': seq<Action>, slot: Slot)
    requires IsRun(states', actions') && 0 < |states| && states <= states'
    requires IsFull(states[|states| - 1], slot) && !TwoOrders(states[|states| - 1], slot)
    ensures !TwoOrders(states'[|states'| - 1], slot)
  {
    var k, n := |states| - 1, |states'| - 1;
    assert states'[k] == states[k];
    FullDayTakesNoOrder(states', actions', k, n, slot);
    hide IsRun, IsFull;
    var before, after := states[k].orders, states'[n].orders;
    forall i, j | 0 <= i < j < |after| ensures after[i].slot != slot || after[j].slot != slot {
      if j < |before| {
        assert after[i] == before[i] && after[j] == before[j];
      }
    }
  }

  /**
   One order per slot at the broker is not guaranteed.  When the answer to a received order is
   lost, its status is marked failed before its ledger row is aborted.  In between, another
   process can confirm that very order at the broker and commit its row; the abort then wipes
   the confirmation, and the slot is ordered a second time.
   */
  lemma ConfirmedOrderCanBeDoubled() returns (states: seq<Sys>, actions: seq<Action>, confirmed: nat)
    ensures IsRun(states, actions) && confirmed < |states|
    ensures states[confirmed].ledger == [Row("a", Slot("X", "d"), Committed)]
    ensures var s := states[|states| - 1];
            && s.orders == [BrokerOrder("a", Slot("X", "d"), 0), BrokerOrder("b", Slot("X", "d"), 1)]
            && s.ledger == [Row("a", Slot("X", "d"), Aborted), Row("b", Slot("X", "d"), Reserved)]
  {
    var slot := Slot("X", "d");
    states, actions := LoseAnOrder(slot);
    hide IsRun, IsDuplicateOrder, CountOrdersForDate, WithStatus, ReservedHistory;
    states, actions := Extend(states, actions, Begin(1, slot, "c"));
    states, actions := Extend(states, actions, ReserveInLedger(1, _ => Found, true));
    confirmed := |states| - 1;
    assert states[confirmed].ledger == [Row("a", slot, Committed)];
    states, actions := Extend(states, actions, Abort(0, true));
    assert states[|states| - 1].ledger == [Row("a", slot, Aborted)];
    states, actions := OpenSlotCanBeOrdered(states, actions, 2, slot, "b");
  }

  /** The state in which an order the broker has is marked failed but not yet aborted. */
  lemma LoseAnOrder(slot: Slot) returns (states: seq<Sys>, actions: seq<Action>)
    ensures IsRun(states, actions)
    ensures var s := states[|states| - 1];
            && !IsDuplicateOrder(s.history, slot) && CountOrdersForDate(s.history, slot.date) < MAX_TRADES_PER_DAY
            && s.lock == None && s.used == {"a"}
            && s.ledger == [Row("a", slot, Reserved)] && s.orders == [BrokerOrder("a", slot, 0)]
            && s.jobs.Keys == {0} && s.jobs[0].phase == FailureMarked && s.jobs[0].id == "a"
  {
    LostOrder(slot);
    states, actions := OpenSlotCanBeOrdered([INIT], [], 0, slot, "a");
    hide IsRun, IsDuplicateOrder, CountOrdersForDate, WithStatus, ReservedHistory;
    states, actions := Extend(states, actions, MarkFailure(0, true));
  }

  lemma EmptyHistory(slot: Slot)
    ensures WithoutSlot([], slot) == [] && CountOrdersForDate([], slot.date) == 0 && !IsDuplicateOrder([], slot)
  {
  }

  /** The history row of a lost order, before and after it is marked failed. */
  lemma LostOrder(slot: Slot)
    ensures var pending := ReservedHistory([], slot, "", false);
            var failed := WithStatus(pending, slot, SubmissionFailed);
            && failed == [HistoryRow(slot, "", false, SubmissionFailed)]
            && !IsDuplicateOrder(failed, slot) && CountOrdersForDate(failed, slot.date) == 1
            && !IsDuplicateOrder([], slot) && CountOrdersForDate([], slot.date) == 0
  {
    EmptyHistory(slot);
    var row := HistoryRow(slot, "", false, PendingSubmission);
    var failed := row.(status := SubmissionFailed);
    CountAppend([], failed, slot.date);
    MarkedIsOpen([row], slot);
    hide WithoutSlot, WithStatus, CountOrdersForDate, IsDuplicateOrder;
    assert [] + [row] == [row] && [] + [failed] == [failed];
    assert ReservedHistory([], slot, "", false) == [row];
    assert WithStatus([row], slot, SubmissionFailed) == [failed];
  }
}
