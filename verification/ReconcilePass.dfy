/** Settling unfinished orders against the broker's own answer (paper_strategy_order.py, reconcile_pending_orders). */
module ReconcilePass {
  import opened Numbers
  import opened Wrappers
  import opened OrderIntentLedger
  import opened Reconciliation
  import opened PaperOrders
  import P = OrderProtocol

  /** What asking the broker about one client order id comes to. */
  datatype BrokerView = LookupFails | Unrecognised | Knows(status: string, filled: Option<real>, price: Option<real>)

  function LocalStatus(status: string): Status {
    match status
    case "new" => Submitted
    case "accepted" => Submitted
    case "pending_new" => Submitted
    case "partially_filled" => PartiallyFilled
    case "filled" => Filled
    case "rejected" => Rejected
    case "canceled" => Cancelled
    case "cancelled" => Cancelled
    case "expired" => Expired
    case _ => Unknown
  }

  /** An order the broker does not know goes to a human; it is never sent again. */
  function ObservationOf(view: BrokerView, now: string): Option<Observation> {
    match view
    case LookupFails => None
    case Unrecognised => Some(Observation(Some(ManualReview), None, None, None, None, None, Some(now)))
    case Knows(status, filled, price) =>
      Some(Observation(Some(LocalStatus(status)), Some(status), filled, price, None, None, Some(now)))
  }

  /** RECONCILIATION_NON_TERMINAL_STATUSES; a dry-run row is in neither vocabulary and is never asked about. */
  predicate IsPending(s: Status) {
    s in {PendingSubmission, Submitted, PartiallyFilled, Unknown}
  }

  function PendingRows(rows: seq<Record>): seq<Record> {
    if rows == [] then []
    else PendingRows(rows[..|rows| - 1]) + (if IsPending(rows[|rows| - 1].status) then [rows[|rows| - 1]] else [])
  }

  datatype Books = Books(rows: seq<Record>, history: seq<HistoryRow>)

  /** Which file operations work while one row is handled; a history lock that times out raises. */
  datatype Luck = Luck(updates: bool, reloads: bool, historyLocks: bool, historyWrites: bool)

  const LUCKY := Luck(true, true, true, true)
  const ALL_WORKS: nat -> Luck := _ => LUCKY

  /** One turn of the loop: the new books, and whether the loop goes on. */
  function ReconcileOne(b: Books, r: Record, view: BrokerView, luck: Luck, now: string): (Books, bool) {
    var o := ObservationOf(view, now);
    if o.None? || !luck.updates then (b, true)
    else
      var rows := UpdateRecords(b.rows, r.id, r.slot, o.value);
      var k := IndexOf(rows, r.id);
      if !luck.reloads || k.None? then (Books(rows, b.history), true)
      else if !luck.historyLocks then (Books(rows, b.history), false)
      else (Books(rows, if luck.historyWrites then WithStatus(b.history, r.slot, rows[k.value].status)
                              else b.history), true)
  }

  /** The loop from the k-th pending row on. */
  function Pass(b: Books, todo: seq<Record>, view: Id -> BrokerView, luck: nat -> Luck, now: string, k: nat): Books
    decreases |todo| - k
  {
    if k >= |todo| then b
    else
      var (after, goes) := ReconcileOne(b, todo[k], view(todo[k].id), luck(k), now);
      if goes then Pass(after, todo, view, luck, now, k + 1) else after
  }

  /** Handling the row gets as far as the history lock, and does not get it. */
  predicate Stops(r: Record, view: BrokerView, luck: Luck) {
    !view.LookupFails? && luck.updates && luck.reloads && !luck.historyLocks
  }

  lemma UpdatedIsThere(rows: seq<Record>, id: Id, slot: Slot, o: Observation)
    ensures IndexOf(UpdateRecords(rows, id, slot, o), id).Some?
  {
    var r := UpdateRecords(rows, id, slot, o);
    match IndexOf(rows, id)
    case Some(k) => assert r[k].id == id;
    case None => assert r[|rows|].id == id;
  }

  /** reconcile_pending_orders; the rows to ask about are those pending when it starts. */
  method ReconcilePendingOrders(orders: PaperOrders, loads: bool, view: Id -> BrokerView,
                                 luck: nat -> Luck, now: string)
    returns (raised: bool)
    modifies orders, orders.reconciliation
    ensures Books(orders.reconciliation.rows, orders.history)
            == if !loads then Books(old(orders.reconciliation.rows), old(orders.history))
               else Pass(Books(old(orders.reconciliation.rows), old(orders.history)),
                         PendingRows(old(orders.reconciliation.rows)), view, luck, now, 0)
    ensures raised <==> loads && exists k: nat ::
                                   k < |PendingRows(old(orders.reconciliation.rows))|
                                   && Stops(PendingRows(old(orders.reconciliation.rows))[k],
                                            view(PendingRows(old(orders.reconciliation.rows))[k].id), luck(k))
  {
    hide UpdateRecords, WithStatus, PendingRows;
    if !loads {
      return false;
    }
    var todo := PendingRows(orders.reconciliation.rows);
    ghost var start := Books(orders.reconciliation.rows, orders.history);
    for k := 0 to |todo|
      invariant Pass(start, todo, view, luck, now, 0)
                == Pass(Books(orders.reconciliation.rows, orders.history), todo, view, luck, now, k)
      invariant forall n :: 0 <= n < k ==> !Stops(todo[n], view(todo[n].id), luck(n))
    {
      var o := ObservationOf(view(todo[k].id), now);
      if o.None? {
        continue;
      }
      UpdatedIsThere(orders.reconciliation.rows, todo[k].id, todo[k].slot, o.value);
      var updated := orders.reconciliation.UpdateRow(todo[k].id, todo[k].slot, o.value, luck(k).updates, true, true);
      if !updated || !luck(k).reloads {
        continue;
      }
      var row := IndexOf(orders.reconciliation.rows, todo[k].id);
      if row.None? {
        continue;
      }
      if !luck(k).historyLocks {
        assert Stops(todo[k], view(todo[k].id), luck(k));
        return true;
      }
      var _ := orders.UpdateOrderStatus(todo[k].slot, orders.reconciliation.rows[row.value].status,
                                        luck(k).historyWrites, true);
    }
    raised := false;
  }

  // -------------------------------------------------------- It never goes back

  /** One record does not lose progress or fills, and a settled one does not change status. */
  ghost predicate Advances(a: Record, b: Record) {
    && a.id == b.id && a.slot == b.slot && a.requested == b.requested
    && Quantity(a.filled) <= Quantity(b.filled)
    && (Terminal(a.status) ==> b.status == a.status)
    && (Declared(a.status) ==> Declared(b.status) && Progress(a.status) <= Progress(b.status))
  }

  ghost predicate AllAdvance(a: seq<Record>, b: seq<Record>) {
    |a| == |b| && forall k :: 0 <= k < |a| ==> Advances(a[k], b[k])
  }

  lemma MergeAdvances(r: Record, view: BrokerView, now: string)
    requires ObservationOf(view, now).Some?
    ensures Advances(r, Merge(r, ObservationOf(view, now).value))
  {
    if Declared(r.status) {
      ProgressFallsIff(r, ObservationOf(view, now).value);
    }
  }

  ghost predicate Tracked(rows: seq<Record>, todo: seq<Record>) {
    forall j :: 0 <= j < |todo| ==> IndexOf(rows, todo[j].id).Some?
  }

  lemma OneAdvances(b: Books, r: Record, view: BrokerView, luck: Luck, now: string)
    requires IndexOf(b.rows, r.id).Some?
    ensures AllAdvance(b.rows, ReconcileOne(b, r, view, luck, now).0.rows)
  {
    hide Merge, Advances, IndexOf, WithStatus;
    var k := IndexOf(b.rows, r.id).value;
    forall i | 0 <= i < |b.rows| ensures Advances(b.rows[i], b.rows[i]) {
      SameAdvances(b.rows[i]);
    }
    if ObservationOf(view, now).Some? {
      MergeAdvances(b.rows[k], view, now);
    }
  }

  lemma SameAdvances(r: Record)
    ensures Advances(r, r)
  {
  }

  lemma AdvanceTrans(a: seq<Record>, b: seq<Record>, c: seq<Record>)
    requires AllAdvance(a, b) && AllAdvance(b, c)
    ensures AllAdvance(a, c)
  {
    forall k | 0 <= k < |a| ensures Advances(a[k], c[k]) {
      assert Advances(a[k], b[k]) && Advances(b[k], c[k]);
    }
  }

  lemma AdvanceKeepsTracked(a: seq<Record>, b: seq<Record>, todo: seq<Record>)
    requires AllAdvance(a, b) && Tracked(a, todo)
    ensures Tracked(b, todo)
  {
    forall j | 0 <= j < |todo| ensures IndexOf(b, todo[j].id).Some? {
      var k := IndexOf(a, todo[j].id).value;
      assert Advances(a[k], b[k]);
    }
  }

  lemma {:induction false} PassAdvances(b: Books, todo: seq<Record>, view: Id -> BrokerView,
                                        luck: nat -> Luck, now: string, k: nat)
    requires Tracked(b.rows, todo)
    ensures AllAdvance(b.rows, Pass(b, todo, view, luck, now, k).rows)
    decreases |todo| - k
  {
    if k < |todo| {
      var after := ReconcileOne(b, todo[k], view(todo[k].id), luck(k), now);
      OneAdvances(b, todo[k], view(todo[k].id), luck(k), now);
      AdvanceKeepsTracked(b.rows, after.0.rows, todo);
      if after.1 {
        PassAdvances(after.0, todo, view, luck, now, k + 1);
        hide ReconcileOne, Tracked;
        AdvanceTrans(b.rows, after.0.rows, Pass(after.0, todo, view, luck, now, k + 1).rows);
      }
    } else {
      forall i | 0 <= i < |b.rows| ensures Advances(b.rows[i], b.rows[i]) {
        SameAdvances(b.rows[i]);
      }
    }
  }

  lemma {:induction false} PendingAreTracked(rows: seq<Record>)
    ensures forall j :: 0 <= j < |PendingRows(rows)| ==>
                          PendingRows(rows)[j] in rows && IsPending(PendingRows(rows)[j].status)
    ensures Tracked(rows, PendingRows(rows))
    ensures forall r :: r in rows && IsPending(r.status) ==> r in PendingRows(rows)
  {
    if rows != [] {
      PendingAreTracked(rows[..|rows| - 1]);
      assert rows == rows[..|rows| - 1] + [rows[|rows| - 1]];
    }
    hide IsPending, PendingRows;
    forall j | 0 <= j < |PendingRows(rows)| ensures IndexOf(rows, PendingRows(rows)[j].id).Some? {
      assert PendingRows(rows)[j] in rows;
    }
  }

  /**
   Whatever the broker answers and whichever files fail, a pass adds and removes no row, and no
   row loses progress or fills or leaves a settled status.
   */
  lemma PassNeverRegresses(b: Books, view: Id -> BrokerView, luck: nat -> Luck, now: string)
    ensures AllAdvance(b.rows, Pass(b, PendingRows(b.rows), view, luck, now, 0).rows)
  {
    PendingAreTracked(b.rows);
    PassAdvances(b, PendingRows(b.rows), view, luck, now, 0);
  }

  // ----------------------------------------------------------- What it settles

  /** A record after the broker's answer about it. */
  function Settled(r: Record, view: Id -> BrokerView, now: string): Record {
    var o := ObservationOf(view(r.id), now);
    if o.Some? then Merge(r, o.value) else r
  }

  ghost predicate IsDue(todo: seq<Record>, k: nat, id: Id) {
    exists j :: k <= j < |todo| && todo[j].id == id
  }

  lemma DueStep(todo: seq<Record>, k: nat, id: Id)
    requires OneRecordPerId(todo) && k < |todo|
    ensures IsDue(todo, k, id) <==> todo[k].id == id || IsDue(todo, k + 1, id)
    ensures todo[k].id == id ==> !IsDue(todo, k + 1, id)
  {
  }

  lemma OneSettles(b: Books, r: Record, view: Id -> BrokerView, now: string, i: nat)
    requires OneRecordPerId(b.rows) && IndexOf(b.rows, r.id).Some? && i < |b.rows|
    ensures var after := ReconcileOne(b, r, view(r.id), LUCKY, now);
            && after.1 && |after.0.rows| == |b.rows| && OneRecordPerId(after.0.rows)
            && after.0.rows[i] == (if b.rows[i].id == r.id then Settled(b.rows[i], view, now) else b.rows[i])
  {
    hide Merge, IndexOf, WithStatus;
    SettledKeepsId(b.rows[IndexOf(b.rows, r.id).value], view, now);
  }

  lemma SettledKeepsId(r: Record, view: Id -> BrokerView, now: string)
    ensures Settled(r, view, now).id == r.id
  {
  }

  lemma {:induction false} PassSettles(b: Books, todo: seq<Record>, view: Id -> BrokerView, now: string, k: nat, i: nat)
    requires OneRecordPerId(b.rows) && Tracked(b.rows, todo) && OneRecordPerId(todo) && i < |b.rows|
    ensures var after := Pass(b, todo, view, ALL_WORKS, now, k);
            && |after.rows| == |b.rows|
            && after.rows[i] == (if IsDue(todo, k, b.rows[i].id) then Settled(b.rows[i], view, now) else b.rows[i])
    decreases |todo| - k
  {
    if k < |todo| {
      var r := todo[k];
      var after := ReconcileOne(b, r, view(r.id), LUCKY, now);
      OneSettles(b, r, view, now, i);
      OneAdvances(b, r, view(r.id), LUCKY, now);
      AdvanceKeepsTracked(b.rows, after.0.rows, todo);
      SettledKeepsId(b.rows[i], view, now);
      DueStep(todo, k, b.rows[i].id);
      hide ReconcileOne, Tracked, OneRecordPerId, Settled, IsDue;
      PassSettles(after.0, todo, view, now, k + 1, i);
    }
  }

  lemma {:induction false} PendingIdsAreDistinct(rows: seq<Record>)
    requires OneRecordPerId(rows)
    ensures OneRecordPerId(PendingRows(rows))
  {
    if rows != [] {
      var init := rows[..|rows| - 1];
      PendingIdsAreDistinct(init);
      PendingAreTracked(init);
      forall j | 0 <= j < |PendingRows(init)| ensures PendingRows(init)[j].id != rows[|rows| - 1].id {
        assert PendingRows(init)[j] in init;
      }
    }
  }

  /** With every file operation working, exactly the pending rows are merged with the broker's answer about them. */
  lemma PassSettlesThePending(b: Books, view: Id -> BrokerView, now: string, i: nat)
    requires OneRecordPerId(b.rows) && i < |b.rows|
    ensures var after := Pass(b, PendingRows(b.rows), view, ALL_WORKS, now, 0);
            && |after.rows| == |b.rows|
            && after.rows[i] == (if IsPending(b.rows[i].status) then Settled(b.rows[i], view, now) else b.rows[i])
  {
    hide IsPending, Settled, Pass;
    var todo := PendingRows(b.rows);
    PendingAreTracked(b.rows);
    PendingIdsAreDistinct(b.rows);
    PassSettles(b, todo, view, now, 0, i);
    hide PendingRows, Tracked;
    assert b.rows[i] in b.rows;
    if IsDue(todo, 0, b.rows[i].id) {
      var j :| 0 <= j < |todo| && todo[j].id == b.rows[i].id;
      assert todo[j] in b.rows;
      var m :| 0 <= m < |b.rows| && b.rows[m] == todo[j];
      assert m == i;
    } else {
      assert b.rows[i] !in todo;
    }
  }

  /** The broker's words for an order it has taken and not begun to fill. */
  const TAKEN := {"new", "accepted", "pending_new"}

  const ENDED := {"filled", "rejected", "canceled", "cancelled", "expired"}

  /** What a pending status becomes when the broker answers with a word. */
  ghost predicate Becomes(before: Status, word: string, after: Status) {
    && (after == Filled <==> word == "filled")
    && (after == Rejected <==> word == "rejected")
    && (after == Cancelled <==> word == "canceled" || word == "cancelled")
    && (after == Expired <==> word == "expired")
    && (after == PartiallyFilled <==> word == "partially_filled" || (before == PartiallyFilled && word !in ENDED))
    && (after == Submitted <==> before != PartiallyFilled && word in TAKEN)
    && (after == Unknown <==> before != PartiallyFilled && word !in TAKEN + ENDED + {"partially_filled"})
  }

  /**
   A pending row takes the status of the broker's word: each word has its own, an unknown word
   is UNKNOWN, and only a partial fill is not taken back to a status before it.  Its fills become
   the larger of the two, its price the broker's if it gives one.
   */
  lemma TheBrokersWordDecides(r: Record, view: Id -> BrokerView, now: string)
    requires IsPending(r.status) && view(r.id).Knows?
    ensures var after, v := Settled(r, view, now), view(r.id);
            && Becomes(r.status, v.status, after.status)
            && after.filled == Some(MaxReal(Quantity(r.filled), Quantity(v.filled)))
            && after.price == (if v.price.Some? then v.price else r.price)
            && after.reconciledAt == Some(now) && after.requested == r.requested
            && (if r.status == PartiallyFilled && v.status !in ENDED + {"partially_filled"}
                then after.brokerStatus == r.brokerStatus else after.brokerStatus == Some(v.status))
            && (r.requested.Some? ==> after.remaining == Some(MaxReal(r.requested.value - Quantity(after.filled), 0.0)))
  {
  }

  /** A row whose lookup failed, or that was not pending, is left exactly as it was. */
  lemma NoAnswerSettlesNothing(r: Record, view: Id -> BrokerView, now: string)
    ensures view(r.id).LookupFails? ==> Settled(r, view, now) == r
    ensures IsPending(r.status) <==> !Terminal(r.status) && Declared(r.status)
  {
  }

  /** Running the pass again with the same answers changes no row. */
  lemma PassIsIdempotent(b: Books, view: Id -> BrokerView, now: string)
    requires OneRecordPerId(b.rows)
    ensures var once := Pass(b, PendingRows(b.rows), view, ALL_WORKS, now, 0);
            Pass(once, PendingRows(once.rows), view, ALL_WORKS, now, 0).rows == once.rows
  {
    var once := Pass(b, PendingRows(b.rows), view, ALL_WORKS, now, 0);
    PassNeverRegresses(b, view, ALL_WORKS, now);
    AdvanceKeepsOne(b.rows, once.rows);
    var twice := Pass(once, PendingRows(once.rows), view, ALL_WORKS, now, 0);
    hide Pass, PendingRows, IsPending, Settled;
    PassNeverRegresses(once, view, ALL_WORKS, now);
    forall i | 0 <= i < |once.rows| ensures twice.rows[i] == once.rows[i] {
      PassSettlesThePending(b, view, now, i);
      PassSettlesThePending(once, view, now, i);
      SettledTwice(b.rows[i], view, now);
    }
  }

  lemma SettledTwice(r: Record, view: Id -> BrokerView, now: string)
    ensures Settled(Settled(r, view, now), view, now) == Settled(r, view, now)
  {
    hide Merge;
    var o := ObservationOf(view(r.id), now);
    SettledKeepsId(r, view, now);
    if o.Some? {
      MergeIsIdempotent(r, o.value);
    }
  }

  lemma AdvanceKeepsOne(a: seq<Record>, b: seq<Record>)
    requires OneRecordPerId(a) && AllAdvance(a, b)
    ensures OneRecordPerId(b)
  {
    forall i, j | 0 <= i < j < |b| ensures b[i].id != b[j].id {
      assert Advances(a[i], b[i]) && Advances(a[j], b[j]);
    }
  }

  // --------------------------------------------------- The history follows

  lemma OneRestatuses(b: Books, r: Record, view: Id -> BrokerView, now: string, m: nat, i: nat)
    requires OneRecordPerId(b.rows) && i < |b.rows| && b.rows[i].id == r.id && m < |b.history|
    ensures var history := ReconcileOne(b, r, view(r.id), LUCKY, now).0.history;
            && |history| == |b.history|
            && history[m] == (if b.history[m].slot == r.slot && !view(r.id).LookupFails?
                              then b.history[m].(status := Settled(b.rows[i], view, now).status)
                              else b.history[m])
  {
    hide Merge, IndexOf;
    UniqueIndex(b.rows, r.id, i);
    SettledKeepsId(b.rows[i], view, now);
    var o := ObservationOf(view(r.id), now);
    if o.Some? {
      var rows := UpdateRecords(b.rows, r.id, r.slot, o.value);
      assert rows == b.rows[i := Settled(b.rows[i], view, now)];
      UniqueIndex(rows, r.id, i);
    }
  }

  lemma UniqueIndex(rows: seq<Record>, id: Id, i: nat)
    requires OneRecordPerId(rows) && i < |rows| && rows[i].id == id
    ensures IndexOf(rows, id) == Some(i)
  {
    hide IndexOf;
    var k := IndexOf(rows, id);
  }

  /** One step of a pass in which everything works, and what it leaves for the next. */
  lemma PassStep(b: Books, todo: seq<Record>, view: Id -> BrokerView, now: string, k: nat)
    requires OneRecordPerId(b.rows) && Tracked(b.rows, todo) && k < |todo|
    ensures var after := ReconcileOne(b, todo[k], view(todo[k].id), LUCKY, now).0;
            && Pass(b, todo, view, ALL_WORKS, now, k) == Pass(after, todo, view, ALL_WORKS, now, k + 1)
            && OneRecordPerId(after.rows) && Tracked(after.rows, todo) && |after.rows| == |b.rows|
  {
    var r := todo[k];
    var i := IndexOf(b.rows, r.id).value;
    OneSettles(b, r, view, now, i);
    OneAdvances(b, r, view(r.id), LUCKY, now);
    AdvanceKeepsTracked(b.rows, ReconcileOne(b, r, view(r.id), LUCKY, now).0.rows, todo);
    hide ReconcileOne, Tracked, OneRecordPerId, Settled;
  }

  /** The broker answers about the record, and it is of this slot. */
  predicate Answers(r: Record, view: Id -> BrokerView, slot: Slot) {
    r.slot == slot && !view(r.id).LookupFails?
  }

  lemma {:induction false} HistoryUntouched(b: Books, todo: seq<Record>, view: Id -> BrokerView, now: string,
                                            k: nat, m: nat)
    requires OneRecordPerId(b.rows) && Tracked(b.rows, todo) && m < |b.history|
    requires forall j :: k <= j < |todo| ==> !Answers(todo[j], view, b.history[m].slot)
    ensures var history := Pass(b, todo, view, ALL_WORKS, now, k).history;
            |history| == |b.history| && history[m] == b.history[m]
    decreases |todo| - k
  {
    if k < |todo| {
      var r := todo[k];
      var i := IndexOf(b.rows, r.id).value;
      assert !Answers(r, view, b.history[m].slot);
      hide OneRecordPerId, Settled, ReconcileOne, Pass;
      OneRestatuses(b, r, view, now, m, i);
      PassStep(b, todo, view, now, k);
      HistoryUntouched(ReconcileOne(b, r, view(r.id), LUCKY, now).0, todo, view, now, k + 1, m);
    }
  }

  /** After the pass from the k-th row on, the m-th history row shows the settled status of the i-th record. */
  ghost predicate Shows(b: Books, todo: seq<Record>, view: Id -> BrokerView, now: string, k: nat, m: nat, i: nat) {
    var history := Pass(b, todo, view, ALL_WORKS, now, k).history;
    && m < |b.history| && i < |b.rows| && m < |history|
    && history[m] == b.history[m].(status := Settled(b.rows[i], view, now).status)
  }

  /** A turn about another record leaves the record alone and at most restatuses the history row. */
  lemma OtherTurn(b: Books, todo: seq<Record>, view: Id -> BrokerView, now: string, k: nat, m: nat, i: nat)
    requires OneRecordPerId(b.rows) && Tracked(b.rows, todo) && k < |todo| && m < |b.history| && i < |b.rows|
    requires todo[k].id != b.rows[i].id
    ensures var after := ReconcileOne(b, todo[k], view(todo[k].id), LUCKY, now).0;
            && |after.history| == |b.history| && after.history[m] == b.history[m].(status := after.history[m].status)
            && i < |after.rows| && after.rows[i] == b.rows[i]
  {
    hide Settled, ReconcileOne, IndexOf;
    OneRestatuses(b, todo[k], view, now, m, IndexOf(b.rows, todo[k].id).value);
    OneSettles(b, todo[k], view, now, i);
    hide OneRecordPerId, Tracked;
  }

  lemma OwnTurn(b: Books, todo: seq<Record>, view: Id -> BrokerView, now: string, k: nat, m: nat, i: nat)
    requires OneRecordPerId(b.rows) && Tracked(b.rows, todo) && k < |todo| && m < |b.history|
    requires Answers(todo[k], view, b.history[m].slot) && i < |b.rows| && b.rows[i].id == todo[k].id
    requires forall j :: k < j < |todo| ==> !Answers(todo[j], view, b.history[m].slot)
    ensures Shows(b, todo, view, now, k, m, i)
  {
    hide Settled, ReconcileOne, IndexOf, Pass;
    OneRestatuses(b, todo[k], view, now, m, i);
    PassStep(b, todo, view, now, k);
    hide OneRecordPerId, Tracked;
    HistoryUntouched(ReconcileOne(b, todo[k], view(todo[k].id), LUCKY, now).0, todo, view, now, k + 1, m);
  }

  lemma ShowsBeforeOtherTurn(b: Books, todo: seq<Record>, view: Id -> BrokerView, now: string, k: nat, m: nat, i: nat)
    requires OneRecordPerId(b.rows) && Tracked(b.rows, todo) && k < |todo| && m < |b.history| && i < |b.rows|
    requires todo[k].id != b.rows[i].id
    requires Shows(ReconcileOne(b, todo[k], view(todo[k].id), LUCKY, now).0, todo, view, now, k + 1, m, i)
    ensures Shows(b, todo, view, now, k, m, i)
  {
    PassStep(b, todo, view, now, k);
    OtherTurn(b, todo, view, now, k, m, i);
    hide OneRecordPerId, Tracked, Pass, Settled, ReconcileOne;
  }

  lemma {:induction false} HistoryShowsSettled(b: Books, todo: seq<Record>, view: Id -> BrokerView, now: string,
                                               k: nat, j: nat, m: nat, i: nat)
    requires OneRecordPerId(b.rows) && Tracked(b.rows, todo) && OneRecordPerId(todo)
             && k <= j < |todo| && m < |b.history|
    requires Answers(todo[j], view, b.history[m].slot) && i < |b.rows| && b.rows[i].id == todo[j].id
    requires forall q :: j < q < |todo| ==> !Answers(todo[q], view, b.history[m].slot)
    ensures Shows(b, todo, view, now, k, m, i)
    decreases |todo| - k
  {
    hide Tracked, Pass, Settled, ReconcileOne, Answers;
    if k == j {
      hide OneRecordPerId, Shows;
      OwnTurn(b, todo, view, now, k, m, i);
    } else {
      assert todo[k].id != b.rows[i].id;
      hide OneRecordPerId, Shows;
      PassStep(b, todo, view, now, k);
      OtherTurn(b, todo, view, now, k, m, i);
      HistoryShowsSettled(ReconcileOne(b, todo[k], view(todo[k].id), LUCKY, now).0, todo, view, now, k + 1, j, m, i);
      ShowsBeforeOtherTurn(b, todo, view, now, k, m, i);
    }
  }

  /**
   After the pass the gate's row of a slot shows the settled status of the last pending record of
   the slot that the broker answered about; whatever an earlier record of the slot was settled on
   is overwritten.
   */
  lemma HistoryFollowsTheLastRecord(b: Books, view: Id -> BrokerView, now: string, m: nat, j: nat)
    requires OneRecordPerId(b.rows) && m < |b.history| && j < |PendingRows(b.rows)|
    requires Answers(PendingRows(b.rows)[j], view, b.history[m].slot)
    requires forall q :: j < q < |PendingRows(b.rows)| ==> !Answers(PendingRows(b.rows)[q], view, b.history[m].slot)
    ensures var after := Pass(b, PendingRows(b.rows), view, ALL_WORKS, now, 0);
            var r := Settled(PendingRows(b.rows)[j], view, now);
            && r in after.rows
            && m < |after.history| && after.history[m] == b.history[m].(status := r.status)
  {
    var todo := PendingRows(b.rows);
    PendingAreTracked(b.rows);
    PendingIdsAreDistinct(b.rows);
    var i: nat :| i < |b.rows| && b.rows[i] == todo[j];
    assert IsPending(b.rows[i].status);
    PassSettlesThePending(b, view, now, i);
    hide PendingRows, OneRecordPerId, Tracked, IsPending, Pass, Settled, Answers;
    HistoryShowsSettled(b, todo, view, now, 0, j, m, i);
    assert Pass(b, todo, view, ALL_WORKS, now, 0).rows[i] == Settled(todo[j], view, now);
  }

  /** A slot none of whose pending records the broker answered about keeps its row. */
  lemma HistoryKeepsUnanswered(b: Books, view: Id -> BrokerView, now: string, m: nat)
    requires OneRecordPerId(b.rows) && m < |b.history|
    requires forall q :: 0 <= q < |PendingRows(b.rows)| ==> !Answers(PendingRows(b.rows)[q], view, b.history[m].slot)
    ensures var after := Pass(b, PendingRows(b.rows), view, ALL_WORKS, now, 0);
            m < |after.history| && after.history[m] == b.history[m]
  {
    PendingAreTracked(b.rows);
    hide PendingRows, OneRecordPerId, Tracked, IsPending, Pass, Answers;
    HistoryUntouched(b, PendingRows(b.rows), view, now, 0, m);
  }

  /** The order history shows the same word, by the last pending record of the slot that has one. */
  lemma HistoryShowsTheBrokersWord(b: Books, view: Id -> BrokerView, now: string, m: nat, j: nat)
    requires OneRecordPerId(b.rows) && m < |b.history| && j < |PendingRows(b.rows)|
    requires Answers(PendingRows(b.rows)[j], view, b.history[m].slot) && view(PendingRows(b.rows)[j].id).Knows?
    requires forall q :: j < q < |PendingRows(b.rows)| ==> !Answers(PendingRows(b.rows)[q], view, b.history[m].slot)
    ensures var r := PendingRows(b.rows)[j];
            var after := Pass(b, PendingRows(b.rows), view, ALL_WORKS, now, 0);
            && m < |after.history| && Becomes(r.status, view(r.id).status, after.history[m].status)
            && after.history[m] == b.history[m].(status := after.history[m].status)
  {
    HistoryFollowsTheLastRecord(b, view, now, m, j);
    PendingAreTracked(b.rows);
    hide Pass, Settled, Becomes, Tracked, Answers, OneRecordPerId;
    TheBrokersWordDecides(PendingRows(b.rows)[j], view, now);
    hide PendingRows;
  }

  // ------------------------------------------------------ Parked for good

  /**
   A pending row is parked in manual review if and only if the broker does not know its order;
   and then it stays there whatever is observed later, while its fills go on counting.
   */
  lemma ParkedIff(r: Record, view: Id -> BrokerView, now: string, later: seq<Observation>)
    requires IsPending(r.status)
    ensures Settled(r, view, now).status == ManualReview <==> view(r.id).Unrecognised?
    ensures view(r.id).Unrecognised? ==> MergeAll(Settled(r, view, now), later).status == ManualReview
  {
    if view(r.id).Unrecognised? {
      StaysInReview(Settled(r, view, now), later);
    }
  }

  lemma {:induction false} StaysInReview(r: Record, later: seq<Observation>)
    requires r.status == ManualReview
    ensures MergeAll(r, later).status == ManualReview
  {
    if later != [] {
      StaysInReview(r, later[..|later| - 1]);
    }
  }

  /** One pending row of an order the broker does not know: its record and the gate's row both go to manual review. */
  lemma PassOverUnknownOrder(r: Record, history: seq<HistoryRow>, view: Id -> BrokerView, now: string)
    requires IsPending(r.status) && view(r.id).Unrecognised?
    ensures PendingRows([r]) == [r]
    ensures Pass(Books([r], history), [r], view, ALL_WORKS, now, 0)
            == Books([Settled(r, view, now)], WithStatus(history, r.slot, ManualReview))
  {
    hide Merge, WithStatus;
    assert [r][..0] == [] && PendingRows([]) == [];
    ParkedIff(r, view, now, []);
    SettledKeepsId(r, view, now);
    var b := Books([r], history);
    assert IndexOf([r], r.id) == Some(0);
    assert UpdateRecords([r], r.id, r.slot, ObservationOf(view(r.id), now).value) == [Settled(r, view, now)];
    assert IndexOf([Settled(r, view, now)], r.id) == Some(0);
    assert Pass(b, [r], view, ALL_WORKS, now, 0) == ReconcileOne(b, r, view(r.id), LUCKY, now).0;
  }

  /**
   Such a run: the order is reserved; a pass asks about it before it is submitted, so the broker
   does not know it yet; then it is submitted, received and committed.  Its ledger row says
   committed and the broker holds the order, while the record and the gate stay in manual review.
   */
  lemma InFlightOrderIsParked(slot: Slot, id: Id, qty: real, view: Id -> BrokerView,
                              now: string, later: seq<Observation>)
    returns (states: seq<P.Sys>, actions: seq<P.Action>, before: nat, pass: Books)
    requires view(id).Unrecognised?
    ensures P.IsRun(states, actions) && before + 3 < |states|
    ensures states[before].orders == []
    ensures var r := PendingRecord(id, slot, qty);
            && pass == Pass(Books([r], states[before].history), PendingRows([r]), view, ALL_WORKS, now, 0)
            && states[before + 1].history == pass.history
            && |pass.rows| == 1 && MergeAll(pass.rows[0], later).status == ManualReview
    ensures var last := states[|states| - 1];
            && last.orders == [P.BrokerOrder(id, slot, 0)] && last.ledger == [Row(id, slot, Committed)]
            && last.history == WithStatus(states[before].history, slot, ManualReview)
  {
    var r := PendingRecord(id, slot, qty);
    states, actions := ReservedAndRecorded(slot, id);
    before := |states| - 1;
    var s := states[before];
    PassOverUnknownOrder(r, s.history, view, now);
    ParkedIff(r, view, now, later);
    pass := Pass(Books([r], s.history), PendingRows([r]), view, ALL_WORKS, now, 0);
    hide P.IsRun, Pass, Settled, PendingRows, WithStatus, MergeAll;
    states, actions := P.Extend(states, actions, P.UpdateStatus(slot, ManualReview));
    states, actions := P.Extend(states, actions, P.Submit(0, true, true));
    states, actions := P.Extend(states, actions, P.Commit(0, true));
    assert states[|states| - 1].ledger == [Row(id, slot, Committed)];
  }

  /** The state in which try_reserve_order has just returned. */
  lemma ReservedAndRecorded(slot: Slot, id: Id) returns (states: seq<P.Sys>, actions: seq<P.Action>)
    ensures P.IsRun(states, actions)
    ensures var s := states[|states| - 1];
            && s.orders == [] && s.lock == None && s.ledger == [Row(id, slot, Reserved)]
            && s.jobs.Keys == {0} && s.jobs[0].phase == P.Returned && s.jobs[0].id == id && s.jobs[0].slot == slot
            && s.jobs[0].row == 0
  {
    P.EmptyHistory(slot);
    assert FirstActive([], slot, 0) == None;
    assert P.IsRun([P.INIT], []);
    hide P.IsRun, IsDuplicateOrder, CountOrdersForDate, ReservedHistory;
    states, actions := P.OpenSlotCanBeReserved([P.INIT], [], 0, slot, id);
    states, actions := P.Extend(states, actions, P.SaveHistory(0, true));
    states, actions := P.Extend(states, actions, P.RecordReconciliation(0, true));
  }
}
