/**
 What KIS did with one order (brokers/kis_fill_inquiry.py).

 `num` stands for _number on the text of a field: None for anything that is not a finite number.
 Quantities and prices are reals.
 */
module FillInquiry {
  import opened Wrappers
  import opened RowMerge

  type Parser = string -> Option<real>

  const ORDER_ID_FIELDS := ["ODNO", "odno"]
  const QUANTITY_FIELDS := ["ft_ccld_qty", "FT_CCLD_QTY"]
  const PRICE_FIELDS := ["ft_ccld_unpr3", "FT_CCLD_UNPR3"]
  const SYMBOL_FIELDS := ["pdno", "PDNO", "ovrs_pdno", "OVRS_PDNO"]
  const ORDERED_FIELDS := ["ft_ord_qty", "FT_ORD_QTY", "ord_qty", "ORD_QTY"]
  const TIME_FIELDS := ["ccld_tm", "CCLD_TM", "ord_tmd", "ORD_TMD"]
  const EXCHANGE_FIELDS := ["ovrs_excg_cd", "OVRS_EXCG_CD"]

  /** _first: the first of the fields that is present and not empty. */
  function FirstOf(fields: Fields, names: seq<string>): Option<string> {
    if names == [] then None
    else if Get(fields, names[0]) != "" then Some(Get(fields, names[0]))
    else FirstOf(fields, names[1..])
  }

  function OrElse(value: Option<string>, other: string): string {
    if value.Some? then value.value else other
  }

  function NumberOf(value: Option<string>, num: Parser): Option<real> {
    if value.Some? then num(value.value) else None
  }

  predicate Matches(fields: Fields, id: string) {
    OrElse(FirstOf(fields, ORDER_ID_FIELDS), "") == id
  }

  function Quantity(fields: Fields, num: Parser): Option<real> {
    NumberOf(FirstOf(fields, QUANTITY_FIELDS), num)
  }

  /** What one execution adds to the filled quantity: nothing when it is not positive. */
  function Counted(fields: Fields, num: Parser): (q: real)
    ensures q >= 0.0
  {
    var q := Quantity(fields, num);
    if q.Some? && q.value > 0.0 then q.value else 0.0
  }

  /** The execution's price; zero when it has none that is positive. */
  function Price(fields: Fields, num: Parser): (p: real)
    ensures p >= 0.0
  {
    var p := NumberOf(FirstOf(fields, PRICE_FIELDS), num);
    if p.Some? && p.value > 0.0 then p.value else 0.0
  }

  function Cost(fields: Fields, num: Parser): (c: real)
    ensures c >= 0.0
  {
    Times(Counted(fields, num), Price(fields, num))
  }

  function Times(a: real, b: real): (c: real)
    requires a >= 0.0 && b >= 0.0
    ensures c >= 0.0
  {
    a * b
  }

  /** The rows of the order. */
  function Matching(rows: seq<Row>, id: string): seq<Fields> {
    if rows == [] then []
    else
      var last := rows[|rows| - 1];
      Matching(rows[..|rows| - 1], id) + (if last.Record? && Matches(last.fields, id) then [last.fields] else [])
  }

  function Filled(ms: seq<Fields>, num: Parser): (q: real)
    ensures q >= 0.0
  {
    if ms == [] then 0.0 else Filled(ms[..|ms| - 1], num) + Counted(ms[|ms| - 1], num)
  }

  function Paid(ms: seq<Fields>, num: Parser): (c: real)
    ensures c >= 0.0
  {
    if ms == [] then 0.0 else Paid(ms[..|ms| - 1], num) + Cost(ms[|ms| - 1], num)
  }

  function FirstGiven(ms: seq<Fields>, names: seq<string>): Option<string> {
    if ms == [] then None
    else
      var before := FirstGiven(ms[..|ms| - 1], names);
      if before.Some? then before else FirstOf(ms[|ms| - 1], names)
  }

  function LastGiven(ms: seq<Fields>, names: seq<string>): Option<string> {
    if ms == [] then None
    else
      var value := FirstOf(ms[|ms| - 1], names);
      if value.Some? then value else LastGiven(ms[..|ms| - 1], names)
  }

  /** ordered = ordered or _number(...): a zero is replaced by what the next row says. */
  function OrderedOf(ms: seq<Fields>, num: Parser): Option<real> {
    if ms == [] then None
    else
      var before := OrderedOf(ms[..|ms| - 1], num);
      if before.Some? && before.value != 0.0 then before
      else NumberOf(FirstOf(ms[|ms| - 1], ORDERED_FIELDS), num)
  }

  function Average(filled: real, paid: real): Option<real> {
    if filled > 0.0 && paid != 0.0 then Some(paid / filled) else None
  }

  /** A non-numeric quantity makes the whole answer unusable; a row that is no object raises. */
  datatype Stop = NonNumericQuantity | NotAnObject

  function HaltOf(row: Row, id: string, num: Parser): Option<Stop> {
    if row.Other? then Some(NotAnObject)
    else if Matches(row.fields, id) && Quantity(row.fields, num).None? then Some(NonNumericQuantity)
    else None
  }

  function FirstHalt(rows: seq<Row>, id: string, num: Parser): Option<Stop> {
    if rows == [] then None
    else
      var before := FirstHalt(rows[..|rows| - 1], id, num);
      if before.Some? then before else HaltOf(rows[|rows| - 1], id, num)
  }

  datatype Summary = Summary(matched: nat, cumulative: real, average: Option<real>,
                             symbol: Option<string>, venue: Option<string>, stamp: Option<string>,
                             ordered: Option<real>)

  function Summarise(rows: seq<Row>, id: string, num: Parser): Result<Summary, Stop> {
    var halt := FirstHalt(rows, id, num);
    if halt.Some? then Err(halt.value)
    else
      var ms := Matching(rows, id);
      Ok(Summary(|ms|, Filled(ms, num), Average(Filled(ms, num), Paid(ms, num)),
                 FirstGiven(ms, SYMBOL_FIELDS), FirstGiven(ms, EXCHANGE_FIELDS), LastGiven(ms, TIME_FIELDS),
                 OrderedOf(ms, num)))
  }

  lemma FirstHaltPrefix(rows: seq<Row>, k: nat, id: string, num: Parser)
    requires k < |rows| && FirstHalt(rows[..k], id, num).None?
    ensures FirstHalt(rows[..k + 1], id, num) == HaltOf(rows[k], id, num)
    ensures HaltOf(rows[k], id, num).Some? ==> FirstHalt(rows, id, num) == HaltOf(rows[k], id, num)
    decreases |rows|
  {
    hide HaltOf;
    assert rows[..k + 1][..k] == rows[..k];
    if k + 1 < |rows| {
      var init := rows[..|rows| - 1];
      assert init[..k] == rows[..k] && init[k] == rows[k];
      FirstHaltPrefix(init, k, id, num);
    } else {
      assert rows[..k + 1] == rows;
    }
  }

  lemma AppendToTotals(ms: seq<Fields>, m: Fields, num: Parser)
    ensures Filled(ms + [m], num) == Filled(ms, num) + Counted(m, num)
    ensures Paid(ms + [m], num) == Paid(ms, num) + Cost(m, num)
    ensures FirstGiven(ms + [m], SYMBOL_FIELDS)
            == if FirstGiven(ms, SYMBOL_FIELDS).Some? then FirstGiven(ms, SYMBOL_FIELDS) else FirstOf(m, SYMBOL_FIELDS)
    ensures FirstGiven(ms + [m], EXCHANGE_FIELDS)
            == if FirstGiven(ms, EXCHANGE_FIELDS).Some? then FirstGiven(ms, EXCHANGE_FIELDS)
               else FirstOf(m, EXCHANGE_FIELDS)
    ensures LastGiven(ms + [m], TIME_FIELDS)
            == if FirstOf(m, TIME_FIELDS).Some? then FirstOf(m, TIME_FIELDS) else LastGiven(ms, TIME_FIELDS)
    ensures OrderedOf(ms + [m], num)
            == if OrderedOf(ms, num).Some? && OrderedOf(ms, num).value != 0.0 then OrderedOf(ms, num)
               else NumberOf(FirstOf(m, ORDERED_FIELDS), num)
  {
    hide FirstOf, NumberOf, Counted, Cost;
    assert (ms + [m])[..|ms|] == ms;
  }

  lemma MatchingStep(rows: seq<Row>, k: nat, id: string)
    requires k < |rows|
    ensures Matching(rows[..k + 1], id)
            == Matching(rows[..k], id)
               + (if rows[k].Record? && Matches(rows[k].fields, id) then [rows[k].fields] else [])
  {
    hide Matches;
    assert rows[..k + 1][..k] == rows[..k];
  }

  /** aggregate. */
  method Aggregate(rows: seq<Row>, id: string, num: Parser) returns (r: Result<Summary, Stop>)
    ensures r == Summarise(rows, id, num)
  {
    hide FirstOf, NumberOf, Counted, Price, Quantity, Matches, Matching, Filled, Paid, FirstGiven, LastGiven, OrderedOf;
    hide FirstHalt;
    var cumulative, weighted, matched := 0.0, 0.0, 0;
    var symbol: Option<string>, venue: Option<string>, stamp: Option<string> := None, None, None;
    var ordered: Option<real> := None;
    NothingYet(rows, id, num);
    for k := 0 to |rows|
      invariant FirstHalt(rows[..k], id, num).None?
      invariant matched == |Matching(rows[..k], id)|
      invariant cumulative == Filled(Matching(rows[..k], id), num)
      invariant weighted == Paid(Matching(rows[..k], id), num)
      invariant symbol == FirstGiven(Matching(rows[..k], id), SYMBOL_FIELDS)
      invariant venue == FirstGiven(Matching(rows[..k], id), EXCHANGE_FIELDS)
      invariant stamp == LastGiven(Matching(rows[..k], id), TIME_FIELDS)
      invariant ordered == OrderedOf(Matching(rows[..k], id), num)
    {
      FirstHaltPrefix(rows, k, id, num);
      MatchingStep(rows, k, id);
      if rows[k].Other? {
        return Err(NotAnObject);
      }
      var row := rows[k].fields;
      if !Matches(row, id) {
        assert Matching(rows[..k + 1], id) == Matching(rows[..k], id);
        continue;
      }
      AppendToTotals(Matching(rows[..k], id), row, num);
      CountedCases(row, num);
      matched := matched + 1;
      var qty := Quantity(row, num);
      var price := NumberOf(FirstOf(row, PRICE_FIELDS), num);
      if qty.None? {
        return Err(NonNumericQuantity);
      }
      symbol := if symbol.Some? then symbol else FirstOf(row, SYMBOL_FIELDS);
      venue := if venue.Some? then venue else FirstOf(row, EXCHANGE_FIELDS);
      stamp := if FirstOf(row, TIME_FIELDS).Some? then FirstOf(row, TIME_FIELDS) else stamp;
      ordered := if ordered.Some? && ordered.value != 0.0 then ordered else NumberOf(FirstOf(row, ORDERED_FIELDS), num);
      if qty.value <= 0.0 {
        continue;
      }
      cumulative := cumulative + qty.value;
      if price.Some? && price.value > 0.0 {
        weighted := weighted + qty.value * price.value;
      }
    }
    assert rows[..|rows|] == rows;
    r := Ok(Summary(matched, cumulative, Average(cumulative, weighted), symbol, venue, stamp, ordered));
  }

  lemma NothingYet(rows: seq<Row>, id: string, num: Parser)
    ensures FirstHalt(rows[..0], id, num).None? && Matching(rows[..0], id) == []
    ensures Filled([], num) == 0.0 && Paid([], num) == 0.0 && OrderedOf([], num) == None
    ensures FirstGiven([], SYMBOL_FIELDS) == None && FirstGiven([], EXCHANGE_FIELDS) == None
    ensures LastGiven([], TIME_FIELDS) == None
  {
  }

  lemma CountedCases(row: Fields, num: Parser)
    ensures var qty := Quantity(row, num);
            var price := NumberOf(FirstOf(row, PRICE_FIELDS), num);
            && (qty.None? || qty.value <= 0.0 ==> Counted(row, num) == 0.0 && Cost(row, num) == 0.0)
            && (qty.Some? && qty.value > 0.0 ==> Counted(row, num) == qty.value)
            && (qty.Some? && qty.value > 0.0 && price.Some? && price.value > 0.0
                ==> Cost(row, num) == qty.value * price.value)
            && (price.None? || price.value <= 0.0 ==> Cost(row, num) == 0.0)
  {
    hide FirstOf, NumberOf, Quantity;
  }

  // ------------------------------------------------------ What a row is read for

  /** v is what the first non-empty of the fields says; None when all are empty or missing. */
  ghost predicate FirstShown(f: Fields, names: seq<string>, v: Option<string>) {
    if v.None? then forall k :: 0 <= k < |names| ==> Get(f, names[k]) == ""
    else v.value != "" && exists k :: 0 <= k < |names| && Get(f, names[k]) == v.value && EmptyBefore(f, names, k)
  }

  ghost predicate EmptyBefore(f: Fields, names: seq<string>, k: int)
    requires k <= |names|
  {
    forall j :: 0 <= j < k ==> Get(f, names[j]) == ""
  }

  lemma {:induction false} FirstOfIff(f: Fields, names: seq<string>, v: Option<string>)
    ensures FirstOf(f, names) == v <==> FirstShown(f, names, v)
  {
    hide Get;
    if names != [] {
      var rest := names[1..];
      FirstOfIff(f, rest, v);
      assert forall k :: 0 < k < |names| ==> names[k] == rest[k - 1];
      assert forall k :: 0 <= k < |rest| ==> rest[k] == names[k + 1];
      if Get(f, names[0]) == "" && v.Some? {
        assert forall k :: 0 < k < |names| ==> (EmptyBefore(f, names, k) <==> EmptyBefore(f, rest, k - 1));
        assert forall k :: 0 <= k < |rest| ==> (EmptyBefore(f, rest, k) <==> EmptyBefore(f, names, k + 1));
      }
    }
  }

  /** Which fields of an execution row its order, quantity and price are read from. */
  lemma RowIsReadFrom(f: Fields, id: string, num: Parser)
    ensures Matches(f, id) <==> FirstShown(f, ["ODNO", "odno"], if id == "" then None else Some(id))
    ensures Quantity(f, num).Some?
            <==> exists v :: FirstShown(f, ["ft_ccld_qty", "FT_CCLD_QTY"], Some(v)) && num(v).Some?
    ensures forall v :: FirstShown(f, ["ft_ccld_qty", "FT_CCLD_QTY"], Some(v)) ==>
                          && Quantity(f, num) == num(v)
                          && (num(v).Some? && num(v).value > 0.0 ==> Counted(f, num) == num(v).value)
                          && (num(v).None? || num(v).value <= 0.0 ==> Counted(f, num) == 0.0)
    ensures forall v :: FirstShown(f, ["ft_ccld_unpr3", "FT_CCLD_UNPR3"], Some(v)) ==>
                          && (num(v).Some? && num(v).value > 0.0 ==> Cost(f, num) == Counted(f, num) * num(v).value)
                          && (num(v).None? || num(v).value <= 0.0 ==> Cost(f, num) == 0.0)
    ensures FirstShown(f, ["ft_ccld_unpr3", "FT_CCLD_UNPR3"], None) ==> Cost(f, num) == 0.0
  {
    hide FirstShown, FirstOf;
    forall v ensures FirstOf(f, ORDER_ID_FIELDS) == v <==> FirstShown(f, ["ODNO", "odno"], v) {
      FirstOfIff(f, ["ODNO", "odno"], v);
    }
    forall v ensures FirstOf(f, QUANTITY_FIELDS) == v <==> FirstShown(f, ["ft_ccld_qty", "FT_CCLD_QTY"], v) {
      FirstOfIff(f, ["ft_ccld_qty", "FT_CCLD_QTY"], v);
    }
    forall v ensures FirstOf(f, PRICE_FIELDS) == v <==> FirstShown(f, ["ft_ccld_unpr3", "FT_CCLD_UNPR3"], v) {
      FirstOfIff(f, ["ft_ccld_unpr3", "FT_CCLD_UNPR3"], v);
    }
    NothingShownIsEmpty(f, ORDER_ID_FIELDS);
    CountedCases(f, num);
  }

  lemma {:induction false} NothingShownIsEmpty(f: Fields, names: seq<string>)
    ensures FirstOf(f, names) != Some("")
  {
    if names != [] {
      NothingShownIsEmpty(f, names[1..]);
    }
  }

  /**
   The symbol and the venue are those of the order's first row that has one, the time that of its
   last row that has one, and the ordered quantity the first number among its rows that is not
   zero, or else whatever the last row says.
   */
  lemma {:induction false} RowsAreReadInOrder(ms: seq<Fields>, names: seq<string>, num: Parser, k: nat)
    requires k < |ms|
    ensures FirstOf(ms[k], names).Some? && (forall j :: 0 <= j < k ==> FirstOf(ms[j], names).None?)
            ==> FirstGiven(ms, names) == FirstOf(ms[k], names)
    ensures FirstOf(ms[k], names).Some? && (forall j :: k < j < |ms| ==> FirstOf(ms[j], names).None?)
            ==> LastGiven(ms, names) == FirstOf(ms[k], names)
    ensures (forall j :: 0 <= j < |ms| ==> FirstOf(ms[j], names).None?)
            ==> FirstGiven(ms, names).None? && LastGiven(ms, names).None?
    ensures OrderedSays(ms[k], num) && (forall j :: 0 <= j < k ==> !OrderedSays(ms[j], num))
            ==> OrderedOf(ms, num) == NumberOf(FirstOf(ms[k], ORDERED_FIELDS), num)
    ensures (forall j :: 0 <= j < |ms| ==> !OrderedSays(ms[j], num))
            ==> OrderedOf(ms, num) == NumberOf(FirstOf(ms[|ms| - 1], ORDERED_FIELDS), num)
  {
    hide FirstOf, NumberOf;
    NothingGiven(ms[..|ms| - 1], names, num);
    if k < |ms| - 1 {
      RowsAreReadInOrder(ms[..|ms| - 1], names, num, k);
    }
  }

  ghost predicate OrderedSays(m: Fields, num: Parser) {
    var q := NumberOf(FirstOf(m, ["ft_ord_qty", "FT_ORD_QTY", "ord_qty", "ORD_QTY"]), num);
    q.Some? && q.value != 0.0
  }

  lemma {:induction false} NothingGiven(ms: seq<Fields>, names: seq<string>, num: Parser)
    ensures (forall j :: 0 <= j < |ms| ==> FirstOf(ms[j], names).None?)
            ==> FirstGiven(ms, names).None? && LastGiven(ms, names).None?
    ensures (forall j :: 0 <= j < |ms| ==> !OrderedSays(ms[j], num))
            ==> OrderedOf(ms, num).None? || OrderedOf(ms, num).value == 0.0
  {
    hide FirstOf, NumberOf;
    if ms != [] {
      NothingGiven(ms[..|ms| - 1], names, num);
    }
  }

  /** Totals of a list of rows are those of its parts, down to the single row. */
  lemma TotalsAddUp(xs: seq<Row>, ys: seq<Row>, id: string, num: Parser)
    ensures Matching(xs + ys, id) == Matching(xs, id) + Matching(ys, id)
    ensures Filled(Matching(xs + ys, id), num) == Filled(Matching(xs, id), num) + Filled(Matching(ys, id), num)
    ensures Paid(Matching(xs + ys, id), num) == Paid(Matching(xs, id), num) + Paid(Matching(ys, id), num)
    ensures |xs| == 1 && xs[0].Record? && Matches(xs[0].fields, id)
            ==> && Filled(Matching(xs, id), num) == Counted(xs[0].fields, num)
                && Paid(Matching(xs, id), num) == Cost(xs[0].fields, num)
    ensures |xs| == 1 && (xs[0].Other? || !Matches(xs[0].fields, id)) ==> Matching(xs, id) == []
  {
    hide Counted, Cost, Matching;
    MatchingConcat(xs, ys, id);
    SumsConcat(Matching(xs, id), Matching(ys, id), num);
    if |xs| == 1 {
      MatchingOne(xs, id);
    }
  }

  lemma MatchingOne(xs: seq<Row>, id: string)
    requires |xs| == 1
    ensures Matching(xs, id) == if xs[0].Record? && Matches(xs[0].fields, id) then [xs[0].fields] else []
  {
    hide Matches;
  }

  lemma {:induction false} MatchingConcat(xs: seq<Row>, ys: seq<Row>, id: string)
    ensures Matching(xs + ys, id) == Matching(xs, id) + Matching(ys, id)
  {
    hide Matches;
    if ys == [] {
      assert xs + ys == xs;
    } else {
      assert (xs + ys)[..|xs + ys| - 1] == xs + ys[..|ys| - 1];
      MatchingConcat(xs, ys[..|ys| - 1], id);
    }
  }

  lemma {:induction false} SumsConcat(xs: seq<Fields>, ys: seq<Fields>, num: Parser)
    ensures Filled(xs + ys, num) == Filled(xs, num) + Filled(ys, num)
    ensures Paid(xs + ys, num) == Paid(xs, num) + Paid(ys, num)
  {
    hide Counted, Cost;
    if ys == [] {
      assert xs + ys == xs;
    } else {
      assert (xs + ys)[..|xs + ys| - 1] == xs + ys[..|ys| - 1];
      SumsConcat(xs, ys[..|ys| - 1], num);
    }
  }

  // ------------------------------------------------------- Paging-independence

  ghost predicate OwnVenues(feed: seq<Read>) {
    forall k :: 0 <= k < |feed| ==> feed[k].row.Record? && OwnVenue(feed[k].row.fields) != ""
  }

  ghost predicate Reports(feed: seq<Read>, payload: Fields) {
    exists k :: 0 <= k < |feed| && feed[k].row.Record? && Payload(feed[k].row.fields) == payload
  }

  /** Every execution of x is one of y, however the two reads were paged or echoed. */
  ghost predicate Within(x: seq<Read>, y: seq<Read>) {
    forall payload :: Reports(x, payload) ==> Reports(y, payload)
  }

  lemma PayloadKeeps(fields: Fields, name: string)
    requires name !in TAG_KEYS
    ensures Get(Payload(fields), name) == Get(fields, name)
  {
  }

  lemma {:induction false} PayloadSays(fields: Fields, names: seq<string>)
    requires forall k :: 0 <= k < |names| ==> names[k] !in TAG_KEYS
    ensures FirstOf(Payload(fields), names) == FirstOf(fields, names)
  {
    hide Payload, Get, TAG_KEYS;
    if names != [] {
      PayloadKeeps(fields, names[0]);
      PayloadSays(fields, names[1..]);
    }
  }

  lemma NoTagIsRead(name: string)
    requires name in ORDER_ID_FIELDS || name in QUANTITY_FIELDS || name in PRICE_FIELDS
    ensures name !in TAG_KEYS
  {
  }

  /** Nothing the aggregation reads is a tag. */
  lemma TagsAreNotRead(f: Fields, g: Fields, id: string, num: Parser)
    requires Payload(f) == Payload(g)
    ensures Matches(f, id) == Matches(g, id) && Quantity(f, num) == Quantity(g, num)
    ensures Counted(f, num) == Counted(g, num) && Cost(f, num) == Cost(g, num)
  {
    hide Payload, FirstOf, TAG_KEYS, ORDER_ID_FIELDS, QUANTITY_FIELDS, PRICE_FIELDS;
    forall name | name in ORDER_ID_FIELDS || name in QUANTITY_FIELDS || name in PRICE_FIELDS ensures name !in TAG_KEYS {
      NoTagIsRead(name);
    }
    PayloadSays(f, ORDER_ID_FIELDS);
    PayloadSays(g, ORDER_ID_FIELDS);
    PayloadSays(f, QUANTITY_FIELDS);
    PayloadSays(g, QUANTITY_FIELDS);
    PayloadSays(f, PRICE_FIELDS);
    PayloadSays(g, PRICE_FIELDS);
  }

  ghost predicate DistinctPayloads(ms: seq<Fields>) {
    forall i, j :: 0 <= i < j < |ms| ==> Payload(ms[i]) != Payload(ms[j])
  }

  ghost predicate HasPayload(ms: seq<Fields>, payload: Fields) {
    exists k :: 0 <= k < |ms| && Payload(ms[k]) == payload
  }

  lemma {:induction false} TakeOut(ms: seq<Fields>, j: nat, num: Parser)
    requires j < |ms|
    ensures var rest := ms[..j] + ms[j + 1..];
            && Filled(ms, num) == Filled(rest, num) + Counted(ms[j], num)
            && Paid(ms, num) == Paid(rest, num) + Cost(ms[j], num)
  {
    hide Counted, Cost;
    var rest := ms[..j] + ms[j + 1..];
    var init, last := ms[..|ms| - 1], ms[|ms| - 1];
    if j == |ms| - 1 {
      assert rest == init;
    } else {
      assert rest[..|rest| - 1] == init[..j] + init[j + 1..];
      TakeOut(init, j, num);
    }
  }

  /** Distinct executions found among others add up to no more than the others do. */
  lemma {:induction false} DistinctSumsAtMost(x: seq<Fields>, y: seq<Fields>, num: Parser)
    requires DistinctPayloads(x)
    requires forall i :: 0 <= i < |x| ==> HasPayload(y, Payload(x[i]))
    ensures |x| <= |y| && Filled(x, num) <= Filled(y, num) && Paid(x, num) <= Paid(y, num)
    decreases |x|
  {
    hide Payload, Counted, Cost;
    if x != [] {
      var init, last := x[..|x| - 1], x[|x| - 1];
      var j :| 0 <= j < |y| && Payload(y[j]) == Payload(last);
      var rest := y[..j] + y[j + 1..];
      forall i | 0 <= i < |init| ensures HasPayload(rest, Payload(init[i])) {
        var k :| 0 <= k < |y| && Payload(y[k]) == Payload(init[i]);
        assert k != j;
        assert rest[if k < j then k else k - 1] == y[k];
      }
      DistinctSumsAtMost(init, rest, num);
      TakeOut(y, j, num);
      TagsAreNotRead(y[j], last, "", num);
    }
  }

  lemma {:induction false} MatchingRows(rows: seq<Row>, id: string)
    ensures forall m :: m in Matching(rows, id) <==> Record(m) in rows && Matches(m, id)
  {
    hide Matches;
    if rows != [] {
      var init := rows[..|rows| - 1];
      MatchingRows(init, id);
      assert rows == init + [rows[|rows| - 1]];
    }
  }

  ghost predicate DistinctRows(rows: seq<Row>) {
    forall i, j :: 0 <= i < j < |rows| && rows[i].Record? && rows[j].Record?
                   ==> Payload(rows[i].fields) != Payload(rows[j].fields)
  }

  lemma {:induction false} MatchingIsDistinct(rows: seq<Row>, id: string)
    requires DistinctRows(rows)
    ensures DistinctPayloads(Matching(rows, id))
  {
    hide Matches, Payload;
    if rows != [] {
      var init, last := rows[..|rows| - 1], rows[|rows| - 1];
      MatchingIsDistinct(init, id);
      MatchingRows(init, id);
      if last.Record? && Matches(last.fields, id) {
        var ms := Matching(init, id);
        forall i | 0 <= i < |ms| ensures Payload(ms[i]) != Payload(last.fields) {
          assert ms[i] in ms;
          var k :| 0 <= k < |init| && init[k] == Record(ms[i]);
          assert rows[k] == init[k];
        }
      }
    }
  }

  lemma {:induction false} HaltsIff(rows: seq<Row>, id: string, num: Parser)
    ensures FirstHalt(rows, id, num).Some? <==> exists k :: 0 <= k < |rows| && HaltOf(rows[k], id, num).Some?
  {
    hide HaltOf;
    if rows != [] {
      HaltsIff(rows[..|rows| - 1], id, num);
    }
  }

  lemma OwnVenueIsPayload(f: Fields)
    ensures OwnVenue(Payload(f)) == OwnVenue(f)
  {
    hide Text.Trim;
    assert Get(Payload(f), VENUE_FIELD) == Get(f, VENUE_FIELD);
  }

  ghost predicate InRows(rows: seq<Row>, payload: Fields) {
    exists k :: 0 <= k < |rows| && rows[k].Record? && Payload(rows[k].fields) == payload
  }

  /** The merged rows are distinct executions, and exactly the executions that were read. */
  lemma MergedExecutions(feed: seq<Read>)
    requires OwnVenues(feed)
    ensures var rows := Merged(feed, ByExecution);
            && (forall k :: 0 <= k < |rows| ==> rows[k].Record?)
            && DistinctRows(rows)
            && (forall payload :: Reports(feed, payload) <==> InRows(rows, payload))
  {
    hide Text.Trim, Payload, Tag, Kept, OwnVenue;
    KeptIsDistinctAndComplete(feed, ByExecution);
    var kept, rows := Kept(feed, ByExecution), Merged(feed, ByExecution);
    forall k | 0 <= k < |kept|
      ensures rows[k].Record? && kept[k].row.Record? && Payload(rows[k].fields) == Payload(kept[k].row.fields)
      ensures IdentityOf(kept[k], ByExecution)
              == Some(Execution(OwnVenue(Payload(rows[k].fields)), Payload(rows[k].fields)))
    {
      assert kept[k] in feed;
      TagIsRecord(kept[k]);
      TagKeepsIdentity(kept[k], ByExecution);
      OwnVenueIsPayload(kept[k].row.fields);
    }
    forall payload ensures Reports(feed, payload) <==> InRows(rows, payload) {
      var key := Execution(OwnVenue(payload), payload);
      ReportedIsIdentified(feed, payload);
      assert HasIdentity(feed, key, ByExecution) <==> HasIdentity(kept, key, ByExecution);
    }
  }

  lemma TagIsRecord(read: Read)
    requires read.row.Record?
    ensures Tag(read.row, read.code).Record?
  {
    hide SetDefault, RowVenue, CanonicalExchange;
  }

  lemma ReportedIsIdentified(feed: seq<Read>, payload: Fields)
    requires OwnVenues(feed)
    ensures Reports(feed, payload) <==> HasIdentity(feed, Execution(OwnVenue(payload), payload), ByExecution)
  {
    hide Payload, OwnVenue;
    forall k | 0 <= k < |feed|
      ensures IdentityOf(feed[k], ByExecution)
              == Some(Execution(OwnVenue(Payload(feed[k].row.fields)), Payload(feed[k].row.fields)))
    {
      OwnVenueIsPayload(feed[k].row.fields);
    }
  }

  /** More executions can only raise the totals, and an answer stays usable when some are not yet read. */
  lemma MoreExecutionsNeverLower(x: seq<Read>, y: seq<Read>, id: string, num: Parser)
    requires OwnVenues(x) && OwnVenues(y) && Within(x, y)
    requires Summarise(Merged(y, ByExecution), id, num).Ok?
    ensures Summarise(Merged(x, ByExecution), id, num).Ok?
    ensures var mx, my := Matching(Merged(x, ByExecution), id), Matching(Merged(y, ByExecution), id);
            |mx| <= |my| && Filled(mx, num) <= Filled(my, num) && Paid(mx, num) <= Paid(my, num)
  {
    hide Merged, Payload, Matches, Matching, Filled, Paid, FirstHalt, Quantity, Reports;
    var rx, ry := Merged(x, ByExecution), Merged(y, ByExecution);
    MergedExecutions(x);
    MergedExecutions(y);
    RowsWithin(x, y);
    HaltsIff(rx, id, num);
    HaltsIff(ry, id, num);
    forall k | 0 <= k < |rx| ensures HaltOf(rx[k], id, num).None? {
      assert InRows(ry, Payload(rx[k].fields));
      var j :| 0 <= j < |ry| && ry[j].Record? && Payload(ry[j].fields) == Payload(rx[k].fields);
      TagsAreNotRead(rx[k].fields, ry[j].fields, id, num);
    }
    MatchingIsDistinct(rx, id);
    MatchingWithin(rx, ry, id);
    DistinctSumsAtMost(Matching(rx, id), Matching(ry, id), num);
  }

  ghost predicate RowsAmong(rx: seq<Row>, ry: seq<Row>) {
    forall k :: 0 <= k < |rx| ==> rx[k].Record? && InRows(ry, Payload(rx[k].fields))
  }

  lemma RowsWithin(x: seq<Read>, y: seq<Read>)
    requires OwnVenues(x) && OwnVenues(y) && Within(x, y)
    ensures RowsAmong(Merged(x, ByExecution), Merged(y, ByExecution))
  {
    hide Merged, Payload, Reports, OwnVenues, DistinctRows;
    MergedExecutions(x);
    MergedExecutions(y);
    var rx := Merged(x, ByExecution);
    forall k | 0 <= k < |rx| ensures InRows(Merged(y, ByExecution), Payload(rx[k].fields)) {
      assert InRows(rx, Payload(rx[k].fields));
    }
  }

  lemma MatchingWithin(rx: seq<Row>, ry: seq<Row>, id: string)
    requires RowsAmong(rx, ry)
    ensures forall i :: 0 <= i < |Matching(rx, id)| ==> HasPayload(Matching(ry, id), Payload(Matching(rx, id)[i]))
  {
    hide Payload, Matches, Matching;
    MatchingRows(rx, id);
    MatchingRows(ry, id);
    forall i | 0 <= i < |Matching(rx, id)| ensures HasPayload(Matching(ry, id), Payload(Matching(rx, id)[i])) {
      var m := Matching(rx, id)[i];
      assert m in Matching(rx, id);
      var k :| 0 <= k < |rx| && rx[k] == Record(m);
      assert InRows(ry, Payload(m));
      var j :| 0 <= j < |ry| && ry[j].Record? && Payload(ry[j].fields) == Payload(m);
      TagsAreNotRead(ry[j].fields, m, id, s => None);
      assert ry[j] == Record(ry[j].fields);
      assert ry[j].fields in Matching(ry, id);
    }
  }

  /** What paging must not change in an aggregated answer. */
  predicate SameTotals(a: Result<Summary, Stop>, b: Result<Summary, Stop>) {
    && (a.Ok? <==> b.Ok?)
    && (a.Ok? ==> a.value.matched == b.value.matched && a.value.cumulative == b.value.cumulative
                  && a.value.average == b.value.average)
  }

  /**
   Two reads that report the same executions, however they were split into pages, repeated or
   echoed across venue legs, give the same usability, row count, filled quantity and average.
   */
  lemma TotalsIgnorePaging(x: seq<Read>, y: seq<Read>, id: string, num: Parser)
    requires OwnVenues(x) && OwnVenues(y) && Within(x, y) && Within(y, x)
    ensures SameTotals(Summarise(Merged(x, ByExecution), id, num), Summarise(Merged(y, ByExecution), id, num))
  {
    hide OwnVenues, Within, Merged, Matching, Filled, Paid, FirstHalt;
    if Summarise(Merged(y, ByExecution), id, num).Ok? {
      MoreExecutionsNeverLower(x, y, id, num);
    }
    if Summarise(Merged(x, ByExecution), id, num).Ok? {
      MoreExecutionsNeverLower(y, x, id, num);
    }
  }

  // ------------------------------------------------------------- The average

  /** The part of the filled quantity that carries a usable price. */
  function Priced(ms: seq<Fields>, num: Parser): (q: real)
    ensures 0.0 <= q <= Filled(ms, num)
  {
    if ms == [] then 0.0
    else Priced(ms[..|ms| - 1], num) + (if Price(ms[|ms| - 1], num) > 0.0 then Counted(ms[|ms| - 1], num) else 0.0)
  }

  lemma Scale(a: real, b: real, c: real)
    requires a <= b && c >= 0.0
    ensures a * c <= b * c && c * a <= c * b
  {
  }

  lemma CostIsBetween(m: Fields, num: Parser, lo: real, hi: real)
    requires Price(m, num) > 0.0 ==> lo <= Price(m, num) <= hi
    ensures var q := if Price(m, num) > 0.0 then Counted(m, num) else 0.0;
            lo * q <= Cost(m, num) <= hi * q
  {
    hide Price, Counted;
    if Price(m, num) > 0.0 {
      Scale(lo, Price(m, num), Counted(m, num));
      Scale(Price(m, num), hi, Counted(m, num));
    }
  }

  /** paid is between lo and hi a share. */
  predicate Between(lo: real, hi: real, paid: real, shares: real) {
    lo * shares <= paid <= hi * shares
  }

  lemma BetweenAdds(lo: real, hi: real, p: real, a: real, q: real, b: real)
    requires Between(lo, hi, p, a) && Between(lo, hi, q, b)
    ensures Between(lo, hi, p + q, a + b)
  {
    assert lo * (a + b) == lo * a + lo * b && hi * (a + b) == hi * a + hi * b;
  }

  lemma PricedStep(ms: seq<Fields>, num: Parser)
    requires ms != []
    ensures var init, last := ms[..|ms| - 1], ms[|ms| - 1];
            && Paid(ms, num) == Paid(init, num) + Cost(last, num)
            && Priced(ms, num) == Priced(init, num) + (if Price(last, num) > 0.0 then Counted(last, num) else 0.0)
  {
    hide Price, Counted, Cost, Filled;
  }

  /** What was paid is between the lowest and the highest price of the priced quantity. */
  lemma {:induction false} PaidIsBetween(ms: seq<Fields>, num: Parser, lo: real, hi: real)
    requires forall k :: 0 <= k < |ms| && Price(ms[k], num) > 0.0 ==> lo <= Price(ms[k], num) <= hi
    ensures Between(lo, hi, Paid(ms, num), Priced(ms, num))
  {
    if ms == [] {
      assert Priced(ms, num) == 0.0 == Paid(ms, num);
    } else {
      hide Price, Counted, Cost, Filled, Paid, Priced;
      var init, last := ms[..|ms| - 1], ms[|ms| - 1];
      PaidIsBetween(init, num, lo, hi);
      CostIsBetween(last, num, lo, hi);
      var q := if Price(last, num) > 0.0 then Counted(last, num) else 0.0;
      assert Between(lo, hi, Cost(last, num), q);
      hide Between;
      BetweenAdds(lo, hi, Paid(init, num), Priced(init, num), Cost(last, num), q);
      PricedStep(ms, num);
    }
  }

  lemma DivisionBound(p: real, q: real, lo: real, hi: real)
    requires q > 0.0 && lo * q <= p <= hi * q
    ensures lo <= p / q <= hi
  {
    assert p == (p / q) * q;
  }

  lemma LargerDivisor(p: real, small: real, large: real)
    requires p > 0.0 && 0.0 < small <= large
    ensures p / large <= p / small && (p / large == p / small <==> small == large)
  {
    assert p == (p / large) * large == (p / small) * small;
  }

  /**
   The reported average is the true price of the priced shares if and only if every counted
   share is priced; otherwise unpriced shares pull it strictly below.
   */
  lemma AverageIsFairIff(ms: seq<Fields>, num: Parser, lo: real, hi: real)
    requires forall k :: 0 <= k < |ms| && Price(ms[k], num) > 0.0 ==> lo <= Price(ms[k], num) <= hi
    requires Priced(ms, num) > 0.0 && lo > 0.0
    ensures Average(Filled(ms, num), Paid(ms, num)).Some?
    ensures var average := Average(Filled(ms, num), Paid(ms, num)).value;
            var fair := Paid(ms, num) / Priced(ms, num);
            lo <= fair <= hi && average <= fair && (average == fair <==> Priced(ms, num) == Filled(ms, num))
  {
    hide Price, Priced, Paid, Filled;
    PaidIsBetween(ms, num, lo, hi);
    Scale(0.0, lo, Priced(ms, num));
    assert lo * Priced(ms, num) > 0.0;
    DivisionBound(Paid(ms, num), Priced(ms, num), lo, hi);
    LargerDivisor(Paid(ms, num), Priced(ms, num), Filled(ms, num));
  }
}
