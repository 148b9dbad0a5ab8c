/**
 Order reconciliation rows and their monotone merge (paper_strategy_order.py).

 `DryRun` is the one status the program writes outside its declared reconciliation vocabulary.
 */
module Reconciliation {
  import opened Numbers
  import opened Wrappers
  import opened OrderIntentLedger

  datatype Status =
    | PendingSubmission | Submitted | PartiallyFilled | Unknown
    | Filled | Rejected | Cancelled | Expired | ManualReview | SubmissionFailed
    | DryRun

  predicate Terminal(s: Status) {
    s in {Filled, Rejected, Cancelled, Expired, ManualReview, SubmissionFailed}
  }

  predicate Declared(s: Status) {
    s != DryRun
  }

  /** The progression rank table; statuses it does not list have none. */
  function RankEntry(s: Status): Option<int> {
    match s
    case PendingSubmission => Some(0)
    case Unknown => Some(1)
    case Submitted => Some(1)
    case PartiallyFilled => Some(2)
    case Filled => Some(3)
    case _ => None
  }

  datatype Record = Record(
    id: Id, slot: Slot, requested: Option<real>, filled: Option<real>, remaining: Option<real>,
    price: Option<real>, brokerStatus: Option<string>, status: Status, reconciledAt: Option<string>)

  datatype Observation = Observation(
    status: Option<Status>, brokerStatus: Option<string>, filled: Option<real>, price: Option<real>,
    requested: Option<real>, remaining: Option<real>, reconciledAt: Option<string>)

  /** _status_should_apply */
  predicate StatusApplies(existing: Status, incoming: Option<Status>) {
    if incoming == None || Terminal(existing) then false
    else
      match RankEntry(incoming.value)
      case Some(rank) => rank >= (if RankEntry(existing).Some? then RankEntry(existing).value else -1)
      case None => true
  }

  function OrElse<T>(x: Option<T>, y: Option<T>): Option<T> {
    if x.Some? then x else y
  }

  function Quantity(x: Option<real>): real {
    if x.Some? then x.value else 0.0
  }

  /** merge_reconciliation_state */
  function Merge(row: Record, o: Observation): Record {
    var applies := StatusApplies(row.status, o.status);
    var filled := MaxReal(Quantity(row.filled), Quantity(o.filled));
    row.(status := if applies then o.status.value else row.status,
         brokerStatus := if applies then OrElse(o.brokerStatus, row.brokerStatus) else row.brokerStatus,
         filled := Some(filled),
         remaining := if row.requested.Some? then Some(MaxReal(row.requested.value - filled, 0.0)) else row.remaining,
         price := OrElse(o.price, row.price),
         reconciledAt := OrElse(o.reconciledAt, row.reconciledAt))
  }

  function MergeAll(row: Record, os: seq<Observation>): Record {
    if os == [] then row else Merge(MergeAll(row, os[..|os| - 1]), os[|os| - 1])
  }

  /** How far along a status is; every terminal status is the end. */
  function Progress(s: Status): int {
    if Terminal(s) then 3 else if RankEntry(s).Some? then RankEntry(s).value else -1
  }

  /**
   An observation replaces the price and the time when it has them; the broker's word is taken
   only along with a status, and a status only by a row that is not settled.
   */
  lemma MergeTakesWhatIsSaid(row: Record, o: Observation)
    ensures var r := Merge(row, o);
            && r.price == (if o.price.Some? then o.price else row.price)
            && r.reconciledAt == (if o.reconciledAt.Some? then o.reconciledAt else row.reconciledAt)
            && (o.status.None? || Terminal(row.status) ==> r.status == row.status && r.brokerStatus == row.brokerStatus)
            && (r.status != row.status ==> o.status == Some(r.status))
            && (r.status != row.status && o.brokerStatus.Some? ==> r.brokerStatus == o.brokerStatus)
            && (o.brokerStatus.None? ==> r.brokerStatus == row.brokerStatus)
            && (row.requested.None? ==> r.remaining == row.remaining)
            && r.id == row.id && r.slot == row.slot && r.requested == row.requested
            && (row.filled.None? && o.filled.None? ==> r.filled == Some(0.0))
            && (row.filled.Some? && row.filled.value >= 0.0 && o.filled.None? ==> r.filled == row.filled)
            && (o.filled.Some? && o.filled.value >= 0.0 && row.filled.None? ==> r.filled == o.filled)
  {
  }

  /** A pending status is behind another that says more about the order. */
  predicate IsBehind(s: Status, t: Status) {
    || (s == PendingSubmission && t in {Submitted, Unknown, PartiallyFilled})
    || (s in {Submitted, Unknown} && t == PartiallyFilled)
  }

  /** A status is taken if and only if the row is not settled and the status is not behind the row's own. */
  lemma StatusIsTakenIff(row: Record, o: Observation)
    requires Declared(row.status) && o.status.Some? && Declared(o.status.value)
    ensures var taken := !Terminal(row.status) && !IsBehind(o.status.value, row.status);
            && Merge(row, o).status == (if taken then o.status.value else row.status)
            && Merge(row, o).brokerStatus
               == (if taken && o.brokerStatus.Some? then o.brokerStatus else row.brokerStatus)
  {
  }

  /** Seeing the same thing twice is seeing it once. */
  lemma MergeIsIdempotent(row: Record, o: Observation)
    ensures Merge(Merge(row, o), o) == Merge(row, o)
  {
    var once := Merge(row, o);
    assert StatusApplies(once.status, o.status)
           ==> StatusApplies(row.status, o.status) && once.status == o.status.value;
  }

  /**
   One merge moves a status backwards exactly when a dry-run observation meets a row that is
   not terminal; within the declared vocabulary it never does.
   */
  lemma ProgressFallsIff(row: Record, o: Observation)
    requires Declared(row.status)
    ensures Progress(Merge(row, o).status) < Progress(row.status) <==> o.status == Some(DryRun) && !Terminal(row.status)
    ensures Terminal(row.status) ==> Merge(row, o).status == row.status
  {
  }

  /** What a dry-run row forgets: it can be taken all the way back to the first status. */
  lemma DryRunLosesProgress(row: Record, dry: Observation, pending: Observation)
    requires row.status == PartiallyFilled && dry.status == Some(DryRun) && pending.status == Some(PendingSubmission)
    ensures MergeAll(row, [dry, pending]).status == PendingSubmission
  {
    assert [dry, pending][..1] == [dry];
    assert MergeAll(row, [dry]) == Merge(MergeAll(row, [dry][..0]), dry);
  }

  /** The filled quantities a row has been told of, its own first. */
  function FilledSeen(row: Record, os: seq<Observation>): seq<real> {
    if os == [] then [Quantity(row.filled)]
    else FilledSeen(row, os[..|os| - 1]) + [Quantity(os[|os| - 1].filled)]
  }

  ghost predicate IsMaximum(x: real, xs: seq<real>) {
    x in xs && forall k :: 0 <= k < |xs| ==> xs[k] <= x
  }

  /**
   After any observations in any order, the filled quantity is the largest ever seen, and what
   remains is the requested quantity less that, never below zero.
   */
  lemma {:induction false} FilledIsMaximum(row: Record, os: seq<Observation>)
    ensures var r := MergeAll(row, os);
            && IsMaximum(Quantity(r.filled), FilledSeen(row, os))
            && r.requested == row.requested && r.id == row.id && r.slot == row.slot
            && (os != [] && row.requested.Some? ==>
                  r.remaining == Some(MaxReal(row.requested.value - Quantity(r.filled), 0.0)))
  {
    if os != [] {
      var init := os[..|os| - 1];
      FilledIsMaximum(row, init);
      var seen := FilledSeen(row, init);
      var before, last := Quantity(MergeAll(row, init).filled), Quantity(os[|os| - 1].filled);
      assert FilledSeen(row, os) == seen + [last];
      if before < last {
        assert FilledSeen(row, os)[|seen|] == last;
      } else {
        var k :| 0 <= k < |seen| && seen[k] == before;
        assert FilledSeen(row, os)[k] == before;
      }
    }
  }

  predicate AllDeclared(os: seq<Observation>) {
    forall k :: 0 <= k < |os| ==> os[k].status.Some? ==> Declared(os[k].status.value)
  }

  /** The first observation that reports a terminal status. */
  ghost predicate FirstTerminal(os: seq<Observation>, k: nat) {
    && k < |os| && os[k].status.Some? && Terminal(os[k].status.value)
    && forall j :: 0 <= j < k ==> os[j].status.Some? ==> !Terminal(os[j].status.value)
  }

  /**
   Over any sequence of declared observations: a terminal row never changes status; otherwise
   the first terminal observation decides; and progress is the most any of them reported.
   */
  lemma {:induction false} StatusOverARun(row: Record, os: seq<Observation>, k: nat)
    requires Declared(row.status) && AllDeclared(os)
    ensures var r := MergeAll(row, os);
            && Declared(r.status)
            && (Terminal(row.status) ==> r.status == row.status)
            && (!Terminal(row.status) && FirstTerminal(os, k) ==> r.status == os[k].status.value)
            && Progress(row.status) <= Progress(r.status)
            && (forall j :: 0 <= j < |os| && os[j].status.Some? ==> Progress(os[j].status.value) <= Progress(r.status))
            && (r.status == row.status || exists j :: 0 <= j < |os| && os[j].status == Some(r.status))
  {
    if os != [] {
      var init, last := os[..|os| - 1], os[|os| - 1];
      StatusOverARun(row, init, k);
      var before := MergeAll(row, init);
      MergeStatus(before, last);
      if !Terminal(row.status) && FirstTerminal(os, k) && k == |init| {
        NoTerminalYet(row, init);
      }
      if Merge(before, last).status == before.status && before.status != row.status {
        var j :| 0 <= j < |init| && init[j].status == Some(before.status);
        assert os[j].status == Some(before.status);
      }
    }
  }

  lemma MergeStatus(row: Record, o: Observation)
    requires Declared(row.status) && (o.status.Some? ==> Declared(o.status.value))
    ensures var s := Merge(row, o).status;
            && Declared(s) && (s == row.status || Some(s) == o.status)
            && (Terminal(row.status) ==> s == row.status)
            && (!Terminal(row.status) && o.status.Some? && Terminal(o.status.value) ==> s == o.status.value)
            && Progress(row.status) <= Progress(s)
            && (o.status.Some? ==> Progress(o.status.value) <= Progress(s))
  {
  }

  lemma {:induction false} NoTerminalYet(row: Record, os: seq<Observation>)
    requires !Terminal(row.status) && forall j :: 0 <= j < |os| ==> os[j].status.Some? ==> !Terminal(os[j].status.value)
    ensures !Terminal(MergeAll(row, os).status)
  {
    if os != [] {
      NoTerminalYet(row, os[..|os| - 1]);
    }
  }

  // --------------------------------------------------------------- The table

  /** The row _update_reconciliation_row creates on the first observation of an id. */
  function NewRecord(id: Id, slot: Slot, o: Observation): Record {
    Record(id, slot, o.requested, Some(Quantity(o.filled)), o.remaining, o.price, o.brokerStatus,
           if o.status.Some? then o.status.value else PendingSubmission, o.reconciledAt)
  }

  function IndexOf(rows: seq<Record>, id: Id): (r: Option<nat>)
    ensures r.Some? ==> r.value < |rows| && rows[r.value].id == id && forall k :: 0 <= k < r.value ==> rows[k].id != id
    ensures r.None? ==> forall k :: 0 <= k < |rows| ==> rows[k].id != id
  {
    if rows == [] then None
    else if rows[0].id == id then Some(0)
    else
      var rest := IndexOf(rows[1..], id);
      if rest.Some? then Some(rest.value + 1) else None
  }

  function UpdateRecords(rows: seq<Record>, id: Id, slot: Slot, o: Observation): seq<Record> {
    match IndexOf(rows, id)
    case Some(k) => rows[k := Merge(rows[k], o)]
    case None => rows + [NewRecord(id, slot, o)]
  }

  class ReconciliationFile {
    var rows: seq<Record>

    constructor ()
      ensures rows == []
    {
      rows := [];
    }

    /** _update_reconciliation_row: merge in place or create; false, and nothing written, on any failure. */
    method UpdateRow(id: Id, slot: Slot, o: Observation, locks: bool, loads: bool, saves: bool) returns (ok: bool)
      modifies this
      ensures ok <==> locks && loads && saves
      ensures rows == (if ok then UpdateRecords(old(rows), id, slot, o) else old(rows))
    {
      if !locks || !loads {
        return false;
      }
      var updated: seq<Record>;
      match IndexOf(rows, id) {
        case Some(k) => updated := rows[k := Merge(rows[k], o)];
        case None => updated := rows + [NewRecord(id, slot, o)];
      }
      if saves {
        rows := updated;
      }
      return saves;
    }
  }

  ghost predicate OneRecordPerId(rows: seq<Record>) {
    forall i, j :: 0 <= i < j < |rows| ==> rows[i].id != rows[j].id
  }

  /** Updates keep one row per id, touch no other order's row, and never lose a row. */
  lemma UpdateTouchesOneOrder(rows: seq<Record>, id: Id, slot: Slot, o: Observation)
    requires OneRecordPerId(rows)
    ensures var r := UpdateRecords(rows, id, slot, o);
            && OneRecordPerId(r) && IndexOf(r, id).Some?
            && |rows| <= |r| && forall k :: 0 <= k < |rows| && rows[k].id != id ==> r[k] == rows[k]
  {
    var r := UpdateRecords(rows, id, slot, o);
    match IndexOf(rows, id)
    case Some(k) => assert r[k].id == id;
    case None => assert r[|rows|].id == id;
  }
}
