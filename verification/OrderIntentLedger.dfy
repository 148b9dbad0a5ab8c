/**
 The two-phase order intent ledger (order_intent_ledger.py): reserve before submitting, then
 commit on a definitive answer or abort when the broker was never reached.
 */
module OrderIntentLedger {
  import opened Wrappers

  type Id = string

  /** What an order slot is keyed by. */
  datatype Slot = Slot(symbol: string, date: string)

  datatype State = Reserved | Committed | Aborted

  datatype Row = Row(id: Id, slot: Slot, state: State)

  /** What looking an order up at the broker yields. */
  datatype Lookup = NoBroker | Found | NotFound | LookupFailed

  datatype ReserveError = AlreadyCommitted | ConfirmedAtBroker | Unresolved | WriteFailed

  datatype LedgerUnavailable = NoReservation | UpdateFailed

  predicate Active(row: Row) {
    row.state != Aborted
  }

  /** The first row that still occupies a slot, at or after index k. */
  function FirstActive(rows: seq<Row>, slot: Slot, k: nat): (r: Option<nat>)
    requires k <= |rows|
    ensures r.Some? ==> k <= r.value < |rows| && rows[r.value].slot == slot && Active(rows[r.value])
                        && forall j :: k <= j < r.value ==> rows[j].slot == slot ==> !Active(rows[j])
    ensures r.None? ==> forall j :: k <= j < |rows| ==> rows[j].slot == slot ==> !Active(rows[j])
    decreases |rows| - k
  {
    if k == |rows| then None
    else if rows[k].slot == slot && Active(rows[k]) then Some(k)
    else FirstActive(rows, slot, k + 1)
  }

  /** The table after a reservation attempt. */
  function ReserveRows(rows: seq<Row>, slot: Slot, id: Id, lookup: Id -> Lookup, saves: bool): seq<Row> {
    match FirstActive(rows, slot, 0)
    case None => if saves then rows + [Row(id, slot, Reserved)] else rows
    case Some(k) =>
      if rows[k].state == Reserved && lookup(rows[k].id) == Found && saves
      then rows[k := rows[k].(state := Committed)] else rows
  }

  function ReserveResult(rows: seq<Row>, slot: Slot, id: Id, lookup: Id -> Lookup, saves: bool)
    : Result<Id, ReserveError> {
    match FirstActive(rows, slot, 0)
    case None => if saves then Ok(id) else Err(WriteFailed)
    case Some(k) =>
      if rows[k].state == Committed then Err(AlreadyCommitted)
      else if lookup(rows[k].id) == Found then (if saves then Err(ConfirmedAtBroker) else Err(WriteFailed))
      else Err(Unresolved)
  }

  /** Every row with the id moves to the state, whatever state it was in. */
  function TransitionRows(rows: seq<Row>, id: Id, state: State): (r: seq<Row>)
    ensures |r| == |rows|
    ensures forall k :: 0 <= k < |rows| ==> r[k] == (if rows[k].id == id then rows[k].(state := state) else rows[k])
  {
    if rows == [] then []
    else
      var last := rows[|rows| - 1];
      TransitionRows(rows[..|rows| - 1], id, state) + [if last.id == id then last.(state := state) else last]
  }

  predicate HasId(rows: seq<Row>, id: Id) {
    exists k :: 0 <= k < |rows| && rows[k].id == id
  }

  /** The ledger file and its operations; each runs under the ledger's lock. */
  class Ledger {
    var rows: seq<Row>

    constructor ()
      ensures rows == []
    {
      rows := [];
    }

    /** reserve: scan the slot's rows in order, then append. */
    method Reserve(slot: Slot, id: Id, lookup: Id -> Lookup, saves: bool) returns (r: Result<Id, ReserveError>)
      modifies this
      ensures rows == ReserveRows(old(rows), slot, id, lookup, saves)
      ensures r == ReserveResult(old(rows), slot, id, lookup, saves)
    {
      for k := 0 to |rows|
        invariant rows == old(rows) && FirstActive(rows, slot, 0) == FirstActive(rows, slot, k)
      {
        if rows[k].slot == slot && rows[k].state != Aborted {
          if rows[k].state == Committed {
            return Err(AlreadyCommitted);
          }
          if lookup(rows[k].id) == Found {
            if !saves {
              return Err(WriteFailed);
            }
            rows := rows[k := rows[k].(state := Committed)];
            return Err(ConfirmedAtBroker);
          }
          return Err(Unresolved);
        }
      }
      if !saves {
        return Err(WriteFailed);
      }
      rows := rows + [Row(id, slot, Reserved)];
      return Ok(id);
    }

    /** _transition: commit and abort are this with their state. */
    method Transition(id: Id, state: State, saves: bool) returns (failed: Option<LedgerUnavailable>)
      modifies this
      ensures rows == (if saves then TransitionRows(old(rows), id, state) else old(rows))
      ensures failed == (if !HasId(old(rows), id) then Some(NoReservation)
                         else if !saves then Some(UpdateFailed) else None)
    {
      var found := false;
      var updated: seq<Row> := [];
      for k := 0 to |rows|
        invariant found <==> HasId(rows[..k], id)
        invariant updated == TransitionRows(rows[..k], id, state)
      {
        assert rows[..k + 1] == rows[..k] + [rows[k]];
        if rows[k].id == id {
          found := true;
          assert rows[..k + 1][k].id == id;
          updated := updated + [rows[k].(state := state)];
        } else {
          updated := updated + [rows[k]];
        }
      }
      assert rows[..|rows|] == rows;
      if !found {
        NothingToMove(rows, id, state);
        return Some(NoReservation);
      }
      if !saves {
        return Some(UpdateFailed);
      }
      rows := updated;
      return None;
    }
  }

  lemma NothingToMove(rows: seq<Row>, id: Id, state: State)
    requires !HasId(rows, id)
    ensures TransitionRows(rows, id, state) == rows
  {
  }

  // ------------------------------------------------------------- What is kept

  ghost predicate UniqueIds(rows: seq<Row>) {
    forall i, j :: 0 <= i < j < |rows| ==> rows[i].id != rows[j].id
  }

  /** No slot is occupied twice. */
  ghost predicate OneActivePerSlot(rows: seq<Row>) {
    forall i, j :: 0 <= i < j < |rows| && rows[i].slot == rows[j].slot ==> !Active(rows[i]) || !Active(rows[j])
  }

  /** A reservation, whatever it finds and however it fails, never occupies a slot twice. */
  lemma ReserveKeepsSlots(rows: seq<Row>, slot: Slot, id: Id, lookup: Id -> Lookup, saves: bool)
    requires OneActivePerSlot(rows)
    ensures OneActivePerSlot(ReserveRows(rows, slot, id, lookup, saves))
  {
    var k := FirstActive(rows, slot, 0);
  }

  /** Rows are never removed or re-keyed, and a reserved row is never reserved again. */
  lemma ReserveOnlyAppends(rows: seq<Row>, slot: Slot, id: Id, lookup: Id -> Lookup, saves: bool)
    ensures var r := ReserveRows(rows, slot, id, lookup, saves);
            && |rows| <= |r| <= |rows| + 1
            && (forall k :: 0 <= k < |rows| ==>
                  r[k] == rows[k] || (r[k] == rows[k].(state := Committed) && rows[k].state == Reserved
                                      && lookup(rows[k].id) == Found && rows[k].slot == slot))
            && (ReserveResult(rows, slot, id, lookup, saves).Ok? <==> |r| == |rows| + 1)
            && (|r| == |rows| + 1 ==>
                  r[|rows|] == Row(id, slot, Reserved)
                  && forall k :: 0 <= k < |rows| ==> rows[k].slot == slot ==> !Active(rows[k]))
  {
  }

  lemma ReserveKeepsIds(rows: seq<Row>, slot: Slot, id: Id, lookup: Id -> Lookup, saves: bool)
    requires UniqueIds(rows) && !HasId(rows, id)
    ensures UniqueIds(ReserveRows(rows, slot, id, lookup, saves))
  {
    ReserveOnlyAppends(rows, slot, id, lookup, saves);
  }

  /** Moving a row out of the way never occupies a slot twice. */
  lemma AbortKeepsSlots(rows: seq<Row>, id: Id)
    requires OneActivePerSlot(rows)
    ensures OneActivePerSlot(TransitionRows(rows, id, Aborted))
  {
  }

  /**
   Committing keeps slots single exactly when the row is still active or nobody has taken its
   slot since: the ledger itself does not check, so a commit of an aborted id can double a slot.
   */
  lemma CommitKeepsSlotsIff(rows: seq<Row>, k: nat)
    requires OneActivePerSlot(rows) && UniqueIds(rows) && k < |rows|
    ensures OneActivePerSlot(TransitionRows(rows, rows[k].id, Committed))
            <==> Active(rows[k]) || forall j :: 0 <= j < |rows| ==> rows[j].slot == rows[k].slot ==> !Active(rows[j])
  {
    var r := TransitionRows(rows, rows[k].id, Committed);
    forall j | 0 <= j < |rows| ensures r[j] == if j == k then rows[k].(state := Committed) else rows[j] {
      if j != k {
        assert rows[j].id != rows[k].id;
      }
    }
  }
}
