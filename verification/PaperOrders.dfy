/**
 The order history gate and the reservation that spans three files (paper_strategy_order.py,
 order_safety.py).
 */
module PaperOrders {
  import opened Wrappers
  import opened OrderIntentLedger
  import opened Reconciliation

  const MAX_TRADES_PER_DAY := 3

  datatype HistoryRow = HistoryRow(slot: Slot, mode: string, dryRun: bool, status: Status)

  /** is_duplicate_order: a row whose attempt is not known to have failed blocks the slot. */
  predicate IsDuplicateOrder(history: seq<HistoryRow>, slot: Slot) {
    exists k :: 0 <= k < |history| && history[k].slot == slot && history[k].status != SubmissionFailed
  }

  /** count_orders_for_date: every row of the date counts, whatever its status. */
  function CountOrdersForDate(history: seq<HistoryRow>, date: string): nat {
    if history == [] then 0
    else CountOrdersForDate(history[..|history| - 1], date)
         + (if history[|history| - 1].slot.date == date then 1 else 0)
  }

  function WithoutSlot(history: seq<HistoryRow>, slot: Slot): seq<HistoryRow> {
    if history == [] then []
    else
      var last := history[|history| - 1];
      WithoutSlot(history[..|history| - 1], slot) + (if last.slot == slot then [] else [last])
  }

  /** The history with the slot's stale row replaced by a pending one. */
  function ReservedHistory(history: seq<HistoryRow>, slot: Slot, mode: string, dryRun: bool): seq<HistoryRow> {
    WithoutSlot(history, slot) + [HistoryRow(slot, mode, dryRun, PendingSubmission)]
  }

  function WithStatus(history: seq<HistoryRow>, slot: Slot, status: Status): (r: seq<HistoryRow>)
    ensures |r| == |history|
    ensures forall k :: 0 <= k < |r| ==>
                  r[k] == (if history[k].slot == slot then history[k].(status := status) else history[k])
  {
    if history == [] then []
    else
      var last := history[|history| - 1];
      WithStatus(history[..|history| - 1], slot, status) + [if last.slot == slot then last.(status := status) else last]
  }

  /** A slot is free again if and only if every row it has is of an attempt known to have failed. */
  lemma NotDuplicateIff(history: seq<HistoryRow>, slot: Slot)
    ensures !IsDuplicateOrder(history, slot)
            <==> forall row :: row in history && row.slot == slot ==> row.status == SubmissionFailed
  {
    forall row | row in history && row.slot == slot && row.status != SubmissionFailed
      ensures IsDuplicateOrder(history, slot)
    {
      var k :| 0 <= k < |history| && history[k] == row;
    }
  }

  ghost predicate OneRowPerSlot(history: seq<HistoryRow>) {
    forall i, j :: 0 <= i < j < |history| ==> history[i].slot != history[j].slot
  }

  ghost predicate WithinDailyLimit(history: seq<HistoryRow>) {
    forall date :: CountOrdersForDate(history, date) <= MAX_TRADES_PER_DAY
  }

  lemma CountAppend(history: seq<HistoryRow>, row: HistoryRow, date: string)
    ensures CountOrdersForDate(history + [row], date)
            == CountOrdersForDate(history, date) + (if row.slot.date == date then 1 else 0)
  {
    assert (history + [row])[..|history|] == history;
  }

  lemma WithoutSlotAppend(history: seq<HistoryRow>, row: HistoryRow, slot: Slot)
    ensures WithoutSlot(history + [row], slot)
            == if row.slot == slot then WithoutSlot(history, slot) else WithoutSlot(history, slot) + [row]
  {
    assert (history + [row])[..|history|] == history;
  }

  lemma {:induction false} WithoutSlotCount(history: seq<HistoryRow>, slot: Slot, date: string)
    ensures CountOrdersForDate(WithoutSlot(history, slot), date) <= CountOrdersForDate(history, date)
  {
    if history == [] {
      assert WithoutSlot(history, slot) == [];
    } else {
      hide *;
      var init, last := history[..|history| - 1], history[|history| - 1];
      assert history == init + [last];
      WithoutSlotCount(init, slot, date);
      WithoutSlotAppend(init, last, slot);
      CountAppend(init, last, date);
      CountAppend(WithoutSlot(init, slot), last, date);
    }
  }

  lemma {:induction false} WithoutSlotRows(history: seq<HistoryRow>, slot: Slot)
    ensures forall row :: row in WithoutSlot(history, slot) <==> row in history && row.slot != slot
  {
    if history != [] {
      var init, last := history[..|history| - 1], history[|history| - 1];
      hide WithoutSlot;
      WithoutSlotRows(init, slot);
      WithoutSlotAppend(init, last, slot);
      assert history == init + [last];
    }
  }

  lemma {:induction false} WithoutSlotKeepsOne(history: seq<HistoryRow>, slot: Slot)
    requires OneRowPerSlot(history)
    ensures OneRowPerSlot(WithoutSlot(history, slot))
  {
    if history != [] {
      hide WithoutSlot;
      var init, last := history[..|history| - 1], history[|history| - 1];
      WithoutSlotKeepsOne(init, slot);
      WithoutSlotRows(init, slot);
      var rest := WithoutSlot(init, slot);
      forall k | 0 <= k < |rest| ensures rest[k].slot != last.slot {
        assert rest[k] in init;
        var j :| 0 <= j < |init| && init[j] == rest[k];
        assert history[j] == rest[k];
      }
      assert history == init + [last];
      WithoutSlotAppend(init, last, slot);
    }
  }

  /** A reservation that passed the daily check keeps both rules of the history. */
  lemma ReservedHistoryKeepsRules(history: seq<HistoryRow>, slot: Slot, mode: string, dryRun: bool)
    requires OneRowPerSlot(history) && WithinDailyLimit(history)
    requires CountOrdersForDate(history, slot.date) < MAX_TRADES_PER_DAY
    ensures OneRowPerSlot(ReservedHistory(history, slot, mode, dryRun))
    ensures WithinDailyLimit(ReservedHistory(history, slot, mode, dryRun))
  {
    ReservedIsOnePerSlot(history, slot, mode, dryRun);
    hide WithoutSlot, CountOrdersForDate, OneRowPerSlot;
    var row := HistoryRow(slot, mode, dryRun, PendingSubmission);
    forall date ensures CountOrdersForDate(ReservedHistory(history, slot, mode, dryRun), date) <= MAX_TRADES_PER_DAY {
      WithoutSlotCount(history, slot, date);
      CountAppend(WithoutSlot(history, slot), row, date);
    }
  }

  lemma ReservedIsOnePerSlot(history: seq<HistoryRow>, slot: Slot, mode: string, dryRun: bool)
    requires OneRowPerSlot(history)
    ensures OneRowPerSlot(ReservedHistory(history, slot, mode, dryRun))
  {
    hide WithoutSlot;
    var rest := WithoutSlot(history, slot);
    WithoutSlotRows(history, slot);
    WithoutSlotKeepsOne(history, slot);
    forall k | 0 <= k < |rest| ensures rest[k].slot != slot {
      assert rest[k] in rest;
    }
  }

  lemma {:induction false} WithStatusCount(history: seq<HistoryRow>, slot: Slot, status: Status, date: string)
    ensures CountOrdersForDate(WithStatus(history, slot, status), date) == CountOrdersForDate(history, date)
  {
    if history != [] {
      WithStatusCount(history[..|history| - 1], slot, status, date);
    }
  }

  lemma WithStatusKeepsRules(history: seq<HistoryRow>, slot: Slot, status: Status)
    requires OneRowPerSlot(history) && WithinDailyLimit(history)
    ensures OneRowPerSlot(WithStatus(history, slot, status)) && WithinDailyLimit(WithStatus(history, slot, status))
  {
    forall date ensures CountOrdersForDate(WithStatus(history, slot, status), date) <= MAX_TRADES_PER_DAY {
      WithStatusCount(history, slot, status, date);
    }
  }

  // -------------------------------------------------------------- The class

  datatype Failure =
    | LockTimeout | HistoryUnavailable | DuplicateOrder | DailyLimit | LedgerFailed
    | HistoryNotSaved | ReconciliationFailed

  /** Which steps of one call the filesystem and the locks allow. */
  datatype Faults = Faults(
    historyLocks: bool, historyLoads: bool, ledgerSaves: bool, historySaves: bool,
    reconciliationOk: bool, abortSaves: bool)

  class PaperOrders {
    var history: seq<HistoryRow>
    const ledger: Ledger
    const reconciliation: ReconciliationFile

    constructor (ledger: Ledger, reconciliation: ReconciliationFile)
      ensures history == [] && this.ledger == ledger && this.reconciliation == reconciliation
    {
      history := [];
      this.ledger := ledger;
      this.reconciliation := reconciliation;
    }

    /**
     try_reserve_order, with the id it generates.  A normal return leaves a pending history
     row, a reserved ledger row and a reconciliation row for the id; a failure after the
     ledger reservation leaves that row aborted if the abort can be written.
     */
    method TryReserveOrder(slot: Slot, mode: string, dryRun: bool, qty: real, id: Id,
                           lookup: Id -> Lookup, faults: Faults)
      returns (r: Result<Id, Failure>)
      requires !HasId(ledger.rows, id) && IndexOf(reconciliation.rows, id) == None
      modifies this, ledger, reconciliation
      ensures old(OneRowPerSlot(history) && WithinDailyLimit(history))
              ==> OneRowPerSlot(history) && WithinDailyLimit(history)
      ensures r.Ok? ==>
        && r.value == id
        && !IsDuplicateOrder(old(history), slot) && CountOrdersForDate(old(history), slot.date) < MAX_TRADES_PER_DAY
        && history == ReservedHistory(old(history), slot, mode, dryRun)
        && ledger.rows == old(ledger.rows) + [Row(id, slot, Reserved)]
        && FirstActive(old(ledger.rows), slot, 0) == None
        && reconciliation.rows == old(reconciliation.rows) + [PendingRecord(id, slot, qty)]
      ensures r == Err(HistoryNotSaved) ==>
        && history == old(history) && reconciliation.rows == old(reconciliation.rows)
        && ledger.rows == old(ledger.rows) + [Row(id, slot, if faults.abortSaves then Aborted else Reserved)]
      ensures r == Err(ReconciliationFailed) ==>
        && history == ReservedHistory(old(history), slot, mode, dryRun)
        && reconciliation.rows == old(reconciliation.rows)
        && ledger.rows == old(ledger.rows) + [Row(id, slot, if faults.abortSaves then Aborted else Reserved)]
      ensures r.Err? && r.error != HistoryNotSaved && r.error != ReconciliationFailed ==>
        history == old(history) && reconciliation.rows == old(reconciliation.rows)
        && |ledger.rows| == |old(ledger.rows)|
      ensures r == Err(DailyLimit) <==>
        && faults.historyLocks && faults.historyLoads && !IsDuplicateOrder(old(history), slot)
        && CountOrdersForDate(old(history), slot.date) >= 3
    {
      if !faults.historyLocks {
        return Err(LockTimeout);
      }
      if !faults.historyLoads {
        return Err(HistoryUnavailable);
      }
      if IsDuplicateOrder(history, slot) {
        return Err(DuplicateOrder);
      }
      if CountOrdersForDate(history, slot.date) >= MAX_TRADES_PER_DAY {
        return Err(DailyLimit);
      }
      var reserved := ledger.Reserve(slot, id, lookup, faults.ledgerSaves);
      ReserveOnlyAppends(old(ledger.rows), slot, id, lookup, faults.ledgerSaves);
      if reserved.Err? {
        return Err(if reserved.error == WriteFailed then LedgerFailed else DuplicateOrder);
      }
      if !faults.historySaves {
        var failed := ledger.Transition(id, Aborted, faults.abortSaves);
        AbortLast(old(ledger.rows), slot, id);
        return Err(HistoryNotSaved);
      }
      if old(OneRowPerSlot(history) && WithinDailyLimit(history)) {
        ReservedHistoryKeepsRules(history, slot, mode, dryRun);
      }
      history := ReservedHistory(history, slot, mode, dryRun);
      var recorded := reconciliation.UpdateRow(id, slot, PendingObservation(qty), faults.reconciliationOk, true, true);
      if !recorded {
        var failed := ledger.Transition(id, Aborted, faults.abortSaves);
        AbortLast(old(ledger.rows), slot, id);
        return Err(ReconciliationFailed);
      }
      return Ok(id);
    }

    /** update_order_status: reread under the lock, then rewrite only the slot's status. */
    method UpdateOrderStatus(slot: Slot, status: Status, loads: bool, saves: bool) returns (ok: bool)
      modifies this
      ensures ok <==> loads && saves
      ensures history == (if ok then WithStatus(old(history), slot, status) else old(history))
      ensures old(OneRowPerSlot(history) && WithinDailyLimit(history))
              ==> OneRowPerSlot(history) && WithinDailyLimit(history)
    {
      if !loads {
        return false;
      }
      if saves {
        if OneRowPerSlot(history) && WithinDailyLimit(history) {
          WithStatusKeepsRules(history, slot, status);
        }
        history := WithStatus(history, slot, status);
      }
      return saves;
    }
  }

  /** _record_pending_reconciliation's observation. */
  function PendingObservation(qty: real): Observation {
    Observation(Some(PendingSubmission), None, Some(0.0), None, Some(qty), Some(qty), None)
  }

  function PendingRecord(id: Id, slot: Slot, qty: real): Record {
    NewRecord(id, slot, PendingObservation(qty))
  }

  /** A reservation is recorded as nothing filled and all of it remaining, with no word from the broker yet. */
  lemma PendingRecordMeans(id: Id, slot: Slot, qty: real)
    ensures var r := PendingRecord(id, slot, qty);
            && r.id == id && r.slot == slot && r.status == PendingSubmission && r.brokerStatus == None
            && r.requested == Some(qty) && r.filled == Some(0.0) && r.remaining == Some(qty)
            && r.price == None && r.reconciledAt == None
  {
  }

  lemma AbortLast(rows: seq<Row>, slot: Slot, id: Id)
    requires !HasId(rows, id)
    ensures TransitionRows(rows + [Row(id, slot, Reserved)], id, Aborted) == rows + [Row(id, slot, Aborted)]
  {
    var all := rows + [Row(id, slot, Reserved)];
    assert forall k :: 0 <= k < |rows| ==> all[k].id != id;
  }
}
