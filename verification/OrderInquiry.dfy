/** One inquiry, one answer about one order (brokers/kis_fill_inquiry.py, inquire and what it calls). */
module OrderInquiry {
  import opened Numbers
  import opened Wrappers
  import opened RowMerge
  import opened FillInquiry

  datatype Status = NoFill | PartiallyFilled | Filled | Unknown

  datatype Report = Report(orderId: Option<string>, status: Status, ordered: Option<real>, filled: Option<real>,
                           remaining: Option<real>, average: Option<real>, terminal: bool,
                           symbol: Option<string>, venue: Option<string>, stamp: Option<string>)

  /** A row that is not an object raises AttributeError through inquire. */
  datatype Inquiry = Raised | Reported(report: Report)

  const GRACE_SECONDS := 900.0

  /** _still_open on a readable book: whether the order is in it. */
  function StillOpen(book: seq<Row>, id: string): Result<bool, Stop> {
    if book == [] then Ok(false)
    else if book[0].Other? then Err(NotAnObject)
    else if Matches(book[0].fields, id) then Ok(true)
    else StillOpen(book[1..], id)
  }

  predicate AbsenceIsFinal(openKnown: bool, stillOpen: bool, age: Option<real>) {
    openKnown && !stillOpen && age.Some? && age.value >= GRACE_SECONDS
  }

  function UnknownReport(orderId: Option<string>, symbol: Option<string>, ordered: Option<real>): Report {
    Report(orderId, Unknown, ordered, None, None, None, false, symbol, None, None)
  }

  /**
   inquire. `fills` and `book` are None when the read fails; `age` is None when the order's age
   cannot be established.
   */
  function Inquire(id: string, symbol: Option<string>, asked: Option<real>, fills: Option<seq<Row>>,
                   book: Option<seq<Row>>, age: Option<real>, num: Parser): Inquiry
  {
    if id == "" then Reported(UnknownReport(None, symbol, asked))
    else if fills.None? then Reported(UnknownReport(Some(id), symbol, asked))
    else
      match Summarise(fills.value, id, num)
      case Err(NotAnObject) => Raised
      case Err(NonNumericQuantity) => Reported(UnknownReport(Some(id), symbol, asked))
      case Ok(summary) =>
        var open := if book.Some? then StillOpen(book.value, id) else Ok(false);
        if open.Err? then Raised
        else Reported(Conclude(id, symbol, asked, summary, AbsenceIsFinal(book.Some?, open.value, age)))
  }

  /** The report once the account has been read. */
  function Conclude(id: string, symbol: Option<string>, asked: Option<real>, summary: Summary, gone: bool): Report {
    var ordered := if asked.Some? then asked else summary.ordered;
    var named := if summary.symbol.Some? then summary.symbol else symbol;
    if summary.cumulative <= 0.0 then
      Report(Some(id), NoFill, ordered, Some(0.0), ordered, None, gone, named, summary.venue, summary.stamp)
    else
      var all := ordered.Some? && summary.cumulative >= ordered.value;
      Report(Some(id), if all then Filled else PartiallyFilled, ordered, Some(summary.cumulative),
             if ordered.Some? then Some(MaxReal(0.0, ordered.value - summary.cumulative)) else None,
             summary.average, all || gone, named, summary.venue, summary.stamp)
  }

  /** as_store_fill: None means the stores must not act. */
  function AsStoreFill(report: Report): Option<(real, bool)> {
    if report.status == Unknown then None
    else if (report.filled.None? || report.filled.value == 0.0) && !report.terminal then None
    else Some((if report.filled.Some? then report.filled.value else 0.0, report.terminal))
  }

  /** The order appears in the book, before any row that cannot be read. */
  ghost predicate InBook(book: seq<Row>, id: string) {
    exists k :: 0 <= k < |book| && book[k].Record? && Matches(book[k].fields, id)
                && forall j :: 0 <= j < k ==> book[j].Record?
  }

  ghost predicate AllObjects(rows: seq<Row>) {
    forall k :: 0 <= k < |rows| ==> rows[k].Record?
  }

  /** The scan of the open-order book finds the order exactly when it is there. */
  lemma {:induction false} StillOpenMeansInBook(book: seq<Row>, id: string)
    ensures StillOpen(book, id) == Ok(true) <==> InBook(book, id)
    ensures StillOpen(book, id) == Ok(false) <==> AllObjects(book) && !InBook(book, id)
  {
    hide Matches;
    if book != [] {
      StillOpenMeansInBook(book[1..], id);
      if InBook(book[1..], id) && book[0].Record? {
        var k :| 0 <= k < |book[1..]| && book[1..][k].Record? && Matches(book[1..][k].fields, id)
                 && forall j :: 0 <= j < k ==> book[1..][j].Record?;
        assert forall j :: 0 < j < k + 1 ==> book[j] == book[1..][j - 1];
        assert book[k + 1].Record? && Matches(book[k + 1].fields, id);
      }
      if InBook(book, id) && !Matches(book[0].fields, id) {
        var k :| 0 <= k < |book| && book[k].Record? && Matches(book[k].fields, id)
                 && forall j :: 0 <= j < k ==> book[j].Record?;
        assert book[1..][k - 1] == book[k];
      }
      assert forall k :: 0 <= k < |book| - 1 ==> book[1..][k] == book[k + 1];
    }
  }

  /**
   The stores are told to abandon a submission (a final report with nothing filled) if and only if
   the account was read and shows no execution, the book was read to its end without the order,
   and the order is known to be at least fifteen minutes old.
   */
  lemma AbandonsIff(id: string, symbol: Option<string>, asked: Option<real>, fills: Option<seq<Row>>,
                    book: Option<seq<Row>>, age: Option<real>, num: Parser)
    ensures var inquiry := Inquire(id, symbol, asked, fills, book, age, num);
            inquiry.Reported? && AsStoreFill(inquiry.report) == Some((0.0, true))
            <==> && id != "" && fills.Some? && FirstHalt(fills.value, id, num).None?
                 && FillInquiry.Filled(Matching(fills.value, id), num) == 0.0
                 && book.Some? && AllObjects(book.value) && !InBook(book.value, id)
                 && age.Some? && age.value >= GRACE_SECONDS
  {
    hide FirstHalt, FillInquiry.Filled, Matching, StillOpen, InBook, AllObjects, Paid, FirstGiven, LastGiven, OrderedOf;
    if book.Some? {
      StillOpenMeansInBook(book.value, id);
    }
  }

  /**
   A report is final if and only if all that was ordered is filled, or the book was read to its
   end without the order and the order is known to be at least fifteen minutes old: a partial
   fill of an order that is still open, or whose book could not be read, is never final.
   */
  lemma FinalIff(id: string, symbol: Option<string>, asked: Option<real>, fills: Option<seq<Row>>,
                 book: Option<seq<Row>>, age: Option<real>, num: Parser)
    requires Inquire(id, symbol, asked, fills, book, age, num).Reported?
    ensures var r := Inquire(id, symbol, asked, fills, book, age, num).report;
            && (r.status == Unknown ==> !r.terminal)
            && (r.status != Unknown ==>
                  (r.terminal <==> || r.status == Filled
                                   || (book.Some? && AllObjects(book.value) && !InBook(book.value, id)
                                       && age.Some? && age.value >= 900.0)))
  {
    hide FirstHalt, FillInquiry.Filled, Matching, StillOpen, InBook, AllObjects, Paid, FirstGiven, LastGiven, OrderedOf;
    if book.Some? {
      StillOpenMeansInBook(book.value, id);
    }
  }

  /**
   A usable report carries the order's own id, the quantity its rows add up to and their average;
   what was asked for outranks what the rows say was ordered, and the rows outrank the caller's symbol.
   */
  lemma ReportIsAboutTheRows(id: string, symbol: Option<string>, asked: Option<real>, fills: Option<seq<Row>>,
                             book: Option<seq<Row>>, age: Option<real>, num: Parser)
    requires Inquire(id, symbol, asked, fills, book, age, num).Reported?
    requires Inquire(id, symbol, asked, fills, book, age, num).report.status != Unknown
    ensures fills.Some?
    ensures var r, ms := Inquire(id, symbol, asked, fills, book, age, num).report, Matching(fills.value, id);
            && r.orderId == Some(id) && r.filled == Some(FillInquiry.Filled(ms, num))
            && (asked.Some? ==> r.ordered == asked) && (asked.None? ==> r.ordered == OrderedOf(ms, num))
            && (r.average.Some? <==> FillInquiry.Filled(ms, num) > 0.0 && Paid(ms, num) > 0.0)
            && (r.average.Some? ==> r.average.value * FillInquiry.Filled(ms, num) == Paid(ms, num))
            && (var named := FirstGiven(ms, ["pdno", "PDNO", "ovrs_pdno", "OVRS_PDNO"]);
                r.symbol == if named.Some? then named else symbol)
            && r.venue == FirstGiven(ms, ["ovrs_excg_cd", "OVRS_EXCG_CD"])
            && r.stamp == LastGiven(ms, ["ccld_tm", "CCLD_TM", "ord_tmd", "ORD_TMD"])
  {
    hide FirstHalt, FillInquiry.Filled, Matching, StillOpen, Paid, FirstGiven, LastGiven, OrderedOf;
    var ms := Matching(fills.value, id);
    if FillInquiry.Filled(ms, num) > 0.0 {
      AverageTimesFilled(Paid(ms, num), FillInquiry.Filled(ms, num));
    }
  }

  lemma AverageTimesFilled(paid: real, filled: real)
    requires filled > 0.0
    ensures (paid / filled) * filled == paid
  {
  }

  /** A store acts on a report if and only if something was filled or it is final, and then sees just that. */
  lemma StoreActsIff(id: string, symbol: Option<string>, asked: Option<real>, fills: Option<seq<Row>>,
                     book: Option<seq<Row>>, age: Option<real>, num: Parser)
    requires Inquire(id, symbol, asked, fills, book, age, num).Reported?
    ensures var r := Inquire(id, symbol, asked, fills, book, age, num).report;
            && (AsStoreFill(r).Some? <==> r.status != Unknown && (r.filled.value > 0.0 || r.terminal))
            && (AsStoreFill(r).Some? ==> AsStoreFill(r).value == (r.filled.value, r.terminal))
  {
    hide FirstHalt, FillInquiry.Filled, Matching, StillOpen, Paid, FirstGiven, LastGiven, OrderedOf;
  }

  /** A failed or unusable read never produces something a store acts on, and never reads as "nothing filled". */
  lemma UnknownIff(id: string, symbol: Option<string>, asked: Option<real>, fills: Option<seq<Row>>,
                   book: Option<seq<Row>>, age: Option<real>, num: Parser)
    ensures var inquiry := Inquire(id, symbol, asked, fills, book, age, num);
            && (inquiry.Reported? && inquiry.report.status == Unknown
                <==> id == "" || fills.None? || FirstHalt(fills.value, id, num) == Some(NonNumericQuantity))
            && (inquiry.Reported? ==> (inquiry.report.status == Unknown <==> inquiry.report.filled.None?))
            && (inquiry.Reported? && inquiry.report.status == Unknown ==> AsStoreFill(inquiry.report) == None)
  {
    hide FirstHalt, FillInquiry.Filled, Matching, StillOpen, Paid, FirstGiven, LastGiven, OrderedOf;
  }

  /** inquire raises, although it promises not to, exactly when it meets a row that is no object. */
  lemma RaisesIff(id: string, symbol: Option<string>, asked: Option<real>, fills: Option<seq<Row>>,
                  book: Option<seq<Row>>, age: Option<real>, num: Parser)
    ensures Inquire(id, symbol, asked, fills, book, age, num).Raised?
            <==> && id != "" && fills.Some?
                 && (|| FirstHalt(fills.value, id, num) == Some(NotAnObject)
                     || (FirstHalt(fills.value, id, num).None? && book.Some?
                         && !AllObjects(book.value) && !InBook(book.value, id)))
  {
    hide FirstHalt, FillInquiry.Filled, Matching, StillOpen, InBook, AllObjects, Paid, FirstGiven, LastGiven, OrderedOf;
    if book.Some? {
      StillOpenMeansInBook(book.value, id);
      BookOutcomes(book.value, id);
    }
  }

  lemma {:induction false} BookOutcomes(book: seq<Row>, id: string)
    ensures StillOpen(book, id).Ok? || StillOpen(book, id) == Err(NotAnObject)
  {
    if book != [] {
      BookOutcomes(book[1..], id);
    }
  }

  /** Filled and remaining account for the whole order, and FILLED means all of it. */
  lemma QuantitiesAddUp(id: string, symbol: Option<string>, asked: Option<real>, fills: Option<seq<Row>>,
                        book: Option<seq<Row>>, age: Option<real>, num: Parser)
    requires Inquire(id, symbol, asked, fills, book, age, num).Reported?
    ensures var r := Inquire(id, symbol, asked, fills, book, age, num).report;
            r.status != Unknown && r.ordered.Some? ==>
              && r.remaining.Some?
              && (r.ordered.value >= 0.0 ==> r.remaining.value >= 0.0)
              && (r.filled.value > 0.0
                  ==> r.filled.value + r.remaining.value == MaxReal(r.filled.value, r.ordered.value))
              && (r.status == Filled <==> r.filled.value > 0.0 && r.filled.value >= r.ordered.value)
              && (r.status == NoFill <==> r.filled.value == 0.0)
              && (r.status == NoFill ==> r.remaining == r.ordered)
  {
    hide FirstHalt, FillInquiry.Filled, Matching, StillOpen, Paid, FirstGiven, LastGiven, OrderedOf;
  }

  /** What paging must not change in a report. */
  predicate SameVerdict(a: Inquiry, b: Inquiry) {
    && (a.Raised? <==> b.Raised?)
    && (a.Reported? ==>
          && a.report.status == b.report.status && a.report.filled == b.report.filled
          && a.report.remaining == b.report.remaining && a.report.average == b.report.average
          && a.report.terminal == b.report.terminal)
  }

  /** With the ordered quantity known, the verdict depends only on which executions were reported. */
  lemma VerdictIgnoresPaging(id: string, symbol: Option<string>, asked: Option<real>, x: seq<Read>, y: seq<Read>,
                             book: Option<seq<Row>>, age: Option<real>, num: Parser)
    requires asked.Some?
    requires OwnVenues(x) && OwnVenues(y) && Within(x, y) && Within(y, x)
    ensures SameVerdict(Inquire(id, symbol, asked, Some(Merged(x, ByExecution)), book, age, num),
                        Inquire(id, symbol, asked, Some(Merged(y, ByExecution)), book, age, num))
  {
    hide *;
    var rx, ry := Merged(x, ByExecution), Merged(y, ByExecution);
    TotalsIgnorePaging(x, y, id, num);
    MergedObjects(x);
    MergedObjects(y);
    ObjectsOnlyStopOnQuantity(rx, id, num);
    ObjectsOnlyStopOnQuantity(ry, id, num);
    VerdictFromTotals(id, symbol, asked, rx, ry, book, age, num);
  }

  lemma MergedObjects(x: seq<Read>)
    requires OwnVenues(x)
    ensures AllObjects(Merged(x, ByExecution))
  {
    hide OwnVenues, Merged, DistinctRows, Reports;
    MergedExecutions(x);
  }

  lemma VerdictFromTotals(id: string, symbol: Option<string>, asked: Option<real>, rx: seq<Row>, ry: seq<Row>,
                          book: Option<seq<Row>>, age: Option<real>, num: Parser)
    requires asked.Some?
    requires SameTotals(Summarise(rx, id, num), Summarise(ry, id, num))
    requires Summarise(rx, id, num).Err? ==> Summarise(rx, id, num) == Err(NonNumericQuantity)
    requires Summarise(ry, id, num).Err? ==> Summarise(ry, id, num) == Err(NonNumericQuantity)
    ensures SameVerdict(Inquire(id, symbol, asked, Some(rx), book, age, num),
                        Inquire(id, symbol, asked, Some(ry), book, age, num))
  {
    hide Summarise, StillOpen;
  }

  lemma {:induction false} ObjectsOnlyStopOnQuantity(rows: seq<Row>, id: string, num: Parser)
    requires AllObjects(rows)
    ensures FirstHalt(rows, id, num) in {None, Some(NonNumericQuantity)}
    ensures Summarise(rows, id, num).Err? ==> Summarise(rows, id, num) == Err(NonNumericQuantity)
  {
    hide Matches, Quantity, Matching, FillInquiry.Filled, Paid, FirstGiven, LastGiven, OrderedOf;
    if rows != [] {
      ObjectsOnlyStopOnQuantity(rows[..|rows| - 1], id, num);
    }
  }

  /** A fill row of one share that says how many were ordered. */
  function OneShare(id: string, ordered: string): Fields {
    map["odno" := id, "ft_ccld_qty" := "1", "ft_ord_qty" := ordered]
  }

  lemma OneShareSays(id: string, ordered: string, num: Parser)
    requires id != "" && ordered != "" && num("1") == Some(1.0)
    ensures var f := OneShare(id, ordered);
            && Matches(f, id) && Quantity(f, num) == Some(1.0) && Counted(f, num) == 1.0
            && NumberOf(FirstOf(f, ORDERED_FIELDS), num) == num(ordered)
  {
    var f := OneShare(id, ordered);
    assert ORDER_ID_FIELDS[1..] == ["odno"] && Get(f, "ODNO") == "";
    assert FirstOf(f, ORDER_ID_FIELDS) == FirstOf(f, ["odno"]);
    assert FirstOf(f, QUANTITY_FIELDS) == Some("1");
    assert FirstOf(f, ORDERED_FIELDS) == Some(ordered);
  }

  lemma TwoRows(a: Fields, b: Fields, id: string, num: Parser)
    requires Matches(a, id) && Matches(b, id) && Quantity(a, num) == Quantity(b, num) == Some(1.0)
    requires NumberOf(FirstOf(a, ORDERED_FIELDS), num).Some? && NumberOf(FirstOf(a, ORDERED_FIELDS), num).value != 0.0
    ensures var s := Summarise([Record(a), Record(b)], id, num);
            s.Ok? && s.value.cumulative == 2.0 && s.value.ordered == NumberOf(FirstOf(a, ORDERED_FIELDS), num)
  {
    hide *;
    var rows := [Record(a), Record(b)];
    NothingYet(rows, id, num);
    OneShareCounts(a, id, num);
    OneShareCounts(b, id, num);
    FirstHaltPrefix(rows, 0, id, num);
    FirstHaltPrefix(rows, 1, id, num);
    MatchingStep(rows, 0, id);
    MatchingStep(rows, 1, id);
    assert rows[..2] == rows;
    assert [] + [a] == [a];
    AppendToTotals([], a, num);
    AppendToTotals([a], b, num);
    SummaryOf(rows, id, num);
  }

  lemma OneShareCounts(m: Fields, id: string, num: Parser)
    requires Matches(m, id) && Quantity(m, num) == Some(1.0)
    ensures HaltOf(Record(m), id, num).None? && Counted(m, num) == 1.0
  {
    hide Matches, Quantity;
  }

  lemma SummaryOf(rows: seq<Row>, id: string, num: Parser)
    requires FirstHalt(rows, id, num).None?
    ensures var s := Summarise(rows, id, num);
            && s.Ok? && s.value.cumulative == FillInquiry.Filled(Matching(rows, id), num)
            && s.value.ordered == OrderedOf(Matching(rows, id), num)
  {
    hide FirstHalt, Matching, FillInquiry.Filled, Paid, FirstGiven, LastGiven, OrderedOf;
  }

  /** Without a given ordered quantity the verdict does depend on row order: the first row's is believed. */
  lemma VerdictDependsOnOrder(id: string, book: Option<seq<Row>>, age: Option<real>, num: Parser)
    requires id != "" && num("1") == Some(1.0) && num("2") == Some(2.0) && num("3") == Some(3.0) && book.None?
    ensures var x, y := Record(OneShare(id, "2")), Record(OneShare(id, "3"));
            var xy := Inquire(id, None, None, Some([x, y]), book, age, num);
            var yx := Inquire(id, None, None, Some([y, x]), book, age, num);
            && xy.Reported? && yx.Reported?
            && xy.report.status == Filled && yx.report.status == PartiallyFilled
  {
    OneShareSays(id, "2", num);
    OneShareSays(id, "3", num);
    var a, b := OneShare(id, "2"), OneShare(id, "3");
    hide OneShare, Matches, FirstOf, NumberOf, Quantity, Counted, Summarise;
    TwoRows(a, b, id, num);
    TwoRows(b, a, id, num);
  }

  /** As KIS publishes more executions, the filled quantity of a usable answer never falls. */
  lemma FilledNeverFalls(id: string, symbol: Option<string>, asked: Option<real>, x: seq<Read>, y: seq<Read>,
                         book: Option<seq<Row>>, age: Option<real>, num: Parser)
    requires id != "" && asked.Some?
    requires OwnVenues(x) && OwnVenues(y) && Within(x, y)
    requires Inquire(id, symbol, asked, Some(Merged(y, ByExecution)), book, age, num).Reported?
    requires Inquire(id, symbol, asked, Some(Merged(y, ByExecution)), book, age, num).report.status != Unknown
    ensures var before := Inquire(id, symbol, asked, Some(Merged(x, ByExecution)), book, age, num);
            var after := Inquire(id, symbol, asked, Some(Merged(y, ByExecution)), book, age, num).report;
            && before.Reported? && before.report.filled.Some? && before.report.filled.value <= after.filled.value
            && (before.report.status == Filled ==> after.status == Filled)
            && (before.report.terminal && before.report.status == Filled ==> after.terminal)
  {
    hide Merged, OwnVenues, Within, StillOpen, FirstHalt, Matching, FillInquiry.Filled, Paid;
    hide FirstGiven, LastGiven, OrderedOf;
    MoreExecutionsNeverLower(x, y, id, num);
  }
}
