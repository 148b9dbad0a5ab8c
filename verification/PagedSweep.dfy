/**
 The account sweep that follows KIS's continuation (brokers/kis_broker.py).

 The broker is any function of the request's number, venue and cursor, so it may answer
 differently every time it is asked.
 */
module PagedSweep {
  import opened Wrappers

  datatype Cursor = Cursor(fk: string, nk: string)

  const FIRST := Cursor("", "")

  /** A page: its rows, the continuation header and the (stripped) cursor it echoes. */
  datatype Page<R> = Page(rows: seq<R>, continuation: string, cursor: Cursor)

  datatype Response<R> = Answer(page: Page<R>) | LegFailure | PacingFault

  datatype SweepError = TooManyPages(venue: string) | RepeatedCursor(venue: string) | LegFailed(venue: string) | Pacing

  type Broker<!R> = (nat, string, Cursor, bool) -> Response<R>

  datatype Leg<R> = Leg(venue: string, page: Page<R>)

  const MAX_PAGES := 50

  function UpperChar(c: char): char {
    if 'a' <= c <= 'z' then c - 'a' + 'A' else c
  }

  /** str.upper() on ASCII text. */
  function Upper(text: string): string {
    seq(|text|, i requires 0 <= i < |text| => UpperChar(text[i]))
  }

  /** str(continuation).upper() is one of the "more" codes. */
  predicate SaysMore(continuation: string) {
    Upper(continuation) in {"F", "M"}
  }

  /** A page that the sweep follows; "more" without a cursor ends the leg. */
  predicate Followed<R>(page: Page<R>) {
    SaysMore(page.continuation) && page.cursor.nk != ""
  }

  /** A page is followed exactly on one of the four codes with a next key. */
  lemma FollowedIff<R>(page: Page<R>)
    ensures Followed(page)
            <==> && page.cursor.nk != []
                 && (|| page.continuation == "F" || page.continuation == "f"
                     || page.continuation == "M" || page.continuation == "m")
  {
    var code, upper := page.continuation, Upper(page.continuation);
    if |code| == 1 {
      assert upper == [UpperChar(code[0])] && code == [code[0]];
      assert UpperChar(code[0]) in {'F', 'M'} <==> code[0] in {'F', 'f', 'M', 'm'};
      assert upper == "F" <==> upper[0] == 'F';
      assert upper == "M" <==> upper[0] == 'M';
    }
  }

  /** The cursor sent with the request after these pages. */
  function CursorAfter<R>(pages: seq<Page<R>>): Cursor {
    if pages == [] then FIRST else pages[|pages| - 1].cursor
  }

  predicate SeenCursor<R>(pages: seq<Page<R>>, cursor: Cursor) {
    exists k :: 0 <= k < |pages| && pages[k].cursor == cursor
  }

  /** One venue's leg from the n-th request on, given the pages already fetched. */
  function FollowLeg<R>(ask: Broker<R>, venue: string, n: nat, pages: seq<Page<R>>): Result<seq<Page<R>>, SweepError>
    decreases MAX_PAGES - |pages|
  {
    if |pages| >= MAX_PAGES then Err(TooManyPages(venue))
    else
      match ask(n + |pages|, venue, CursorAfter(pages), pages != [])
      case PacingFault => Err(Pacing)
      case LegFailure => Err(LegFailed(venue))
      case Answer(page) =>
        if !Followed(page) then Ok(pages + [page])
        else if SeenCursor(pages, page.cursor) then Err(RepeatedCursor(venue))
        else FollowLeg(ask, venue, n, pages + [page])
  }

  function LegsOf<R>(venue: string, pages: seq<Page<R>>): (legs: seq<Leg<R>>)
    ensures |legs| == |pages| && forall k :: 0 <= k < |legs| ==> legs[k] == Leg(venue, pages[k])
  {
    if pages == [] then [] else LegsOf(venue, pages[..|pages| - 1]) + [Leg(venue, pages[|pages| - 1])]
  }

  /** Every venue in order; the first failure is the whole answer. */
  function SweepFrom<R>(ask: Broker<R>, venues: seq<string>, n: nat): Result<seq<Leg<R>>, SweepError> {
    if venues == [] then Ok([])
    else
      match FollowLeg(ask, venues[0], n, [])
      case Err(e) => Err(e)
      case Ok(pages) =>
        match SweepFrom(ask, venues[1..], n + |pages|)
        case Err(e) => Err(e)
        case Ok(rest) => Ok(LegsOf(venues[0], pages) + rest)
  }

  /** The page loop of _sweep_exchanges_paged for one venue. */
  method SweepLeg<R>(ask: Broker<R>, venue: string, start: nat)
    returns (r: Result<seq<Page<R>>, SweepError>, requests: nat)
    ensures r == FollowLeg(ask, venue, start, [])
    ensures requests <= MAX_PAGES && (r.Ok? ==> requests == |r.value|)
  {
    var pages: seq<Page<R>> := [];
    var cursor, next := FIRST, false;
    var seen: set<Cursor> := {};
    requests := 0;
    while true
      invariant requests == |pages| <= MAX_PAGES && cursor == CursorAfter(pages) && next == (pages != [])
      invariant FollowLeg(ask, venue, start, []) == FollowLeg(ask, venue, start, pages)
      invariant forall c :: c in seen <==> SeenCursor(pages, c)
      decreases MAX_PAGES - requests
    {
      if requests == MAX_PAGES {
        return Err(TooManyPages(venue)), requests;
      }
      var response := ask(start + requests, venue, cursor, next);
      requests := requests + 1;
      match response
      case PacingFault =>
        return Err(Pacing), requests;
      case LegFailure =>
        return Err(LegFailed(venue)), requests;
      case Answer(page) =>
        if !Followed(page) {
          return Ok(pages + [page]), requests;
        }
        if page.cursor in seen {
          return Err(RepeatedCursor(venue)), requests;
        }
        SeenAppend(pages, page);
        pages := pages + [page];
        seen := seen + {page.cursor};
        cursor, next := page.cursor, true;
    }
  }

  /** _sweep_exchanges_paged: at most fifty requests a venue, whatever the broker answers. */
  method SweepExchangesPaged<R>(ask: Broker<R>, venues: seq<string>)
    returns (r: Result<seq<Leg<R>>, SweepError>, requests: nat)
    ensures r == SweepFrom(ask, venues, 0)
    ensures requests <= MAX_PAGES * |venues|
  {
    hide FollowLeg;
    var results: seq<Leg<R>> := [];
    requests := 0;
    assert venues[0..] == venues;
    PrependNothing(SweepFrom(ask, venues, 0));
    for v := 0 to |venues|
      invariant requests <= MAX_PAGES * v
      invariant SweepFrom(ask, venues, 0) == Prepend(results, SweepFrom(ask, venues[v..], requests))
    {
      assert venues[v..][0] == venues[v] && venues[v..][1..] == venues[v + 1..];
      var leg, used := SweepLeg(ask, venues[v], requests);
      requests := requests + used;
      if leg.Err? {
        return Err(leg.error), requests;
      }
      PrependTwice(results, LegsOf(venues[v], leg.value), SweepFrom(ask, venues[v + 1..], requests));
      results := results + LegsOf(venues[v], leg.value);
    }
    assert results + [] == results;
    return Ok(results), requests;
  }

  function Prepend<R>(legs: seq<Leg<R>>, rest: Result<seq<Leg<R>>, SweepError>): Result<seq<Leg<R>>, SweepError> {
    if rest.Ok? then Ok(legs + rest.value) else rest
  }

  lemma PrependNothing<R>(rest: Result<seq<Leg<R>>, SweepError>)
    ensures Prepend([], rest) == rest
  {
    if rest.Ok? {
      assert [] + rest.value == rest.value;
    }
  }

  lemma PrependTwice<R>(x: seq<Leg<R>>, y: seq<Leg<R>>, rest: Result<seq<Leg<R>>, SweepError>)
    ensures Prepend(x, Prepend(y, rest)) == Prepend(x + y, rest)
  {
    if rest.Ok? {
      assert x + (y + rest.value) == (x + y) + rest.value;
    }
  }

  lemma SeenAppend<R>(pages: seq<Page<R>>, page: Page<R>)
    ensures forall c :: SeenCursor(pages + [page], c) <==> SeenCursor(pages, c) || c == page.cursor
  {
    forall c ensures SeenCursor(pages + [page], c) <==> SeenCursor(pages, c) || c == page.cursor {
      if SeenCursor(pages, c) {
        var k :| 0 <= k < |pages| && pages[k].cursor == c;
        assert (pages + [page])[k].cursor == c;
      }
      if c == page.cursor {
        assert (pages + [page])[|pages|].cursor == c;
      }
    }
  }

  // ------------------------------------------------------------ What is read

  /** The broker answered the k-th request of the leg with this page. */
  ghost predicate Answered<R>(ask: Broker<R>, venue: string, n: nat, pages: seq<Page<R>>, k: nat)
    requires k < |pages|
  {
    ask(n + k, venue, CursorAfter(pages[..k]), k > 0) == Answer(pages[k])
  }

  ghost predicate DistinctCursors<R>(pages: seq<Page<R>>, n: int) {
    forall i, k :: 0 <= i < k < n && k < |pages| ==> pages[i].cursor != pages[k].cursor
  }

  /** Pages the broker answered in turn, each but the last followed, with no cursor repeated. */
  ghost predicate PartOfChain<R>(ask: Broker<R>, venue: string, n: nat, pages: seq<Page<R>>) {
    && |pages| <= MAX_PAGES
    && (forall k :: 0 <= k < |pages| ==> Answered(ask, venue, n, pages, k))
    && (forall k :: 0 <= k < |pages| - 1 ==> Followed(pages[k]))
    && DistinctCursors(pages, |pages| - 1)
  }

  /** The whole leg: from the empty cursor to the first page that is not followed. */
  ghost predicate IsWholeChain<R>(ask: Broker<R>, venue: string, n: nat, pages: seq<Page<R>>) {
    PartOfChain(ask, venue, n, pages) && pages != [] && !Followed(pages[|pages| - 1])
  }

  /** Pages fetched so far, all of them followed on. */
  ghost predicate OpenChain<R>(ask: Broker<R>, venue: string, n: nat, pages: seq<Page<R>>) {
    && PartOfChain(ask, venue, n, pages)
    && (pages != [] ==> Followed(pages[|pages| - 1]) && !SeenCursor(pages[..|pages| - 1], pages[|pages| - 1].cursor))
  }

  lemma ExtendAnswers<R>(ask: Broker<R>, venue: string, n: nat, pages: seq<Page<R>>, page: Page<R>, k: nat)
    requires OpenChain(ask, venue, n, pages) && k <= |pages|
    requires ask(n + |pages|, venue, CursorAfter(pages), pages != []) == Answer(page)
    ensures Answered(ask, venue, n, pages + [page], k)
  {
    hide Followed, SeenCursor, CursorAfter, DistinctCursors;
    assert (pages + [page])[..k] == pages[..k];
    if k == |pages| {
      assert pages[..k] == pages;
    } else {
      assert Answered(ask, venue, n, pages, k);
    }
  }

  lemma ExtendCursors<R>(pages: seq<Page<R>>, page: Page<R>)
    requires DistinctCursors(pages, |pages| - 1)
    requires pages != [] ==> !SeenCursor(pages[..|pages| - 1], pages[|pages| - 1].cursor)
    ensures DistinctCursors(pages + [page], |pages|)
  {
    forall i | 0 <= i < |pages| - 1 ensures pages[i].cursor != pages[|pages| - 1].cursor {
      assert pages[..|pages| - 1][i] == pages[i];
    }
  }

  lemma ExtendOpen<R>(ask: Broker<R>, venue: string, n: nat, pages: seq<Page<R>>, page: Page<R>)
    requires OpenChain(ask, venue, n, pages) && |pages| < MAX_PAGES
    requires ask(n + |pages|, venue, CursorAfter(pages), pages != []) == Answer(page)
    ensures PartOfChain(ask, venue, n, pages + [page])
    ensures !SeenCursor(pages, page.cursor) && Followed(page) ==> OpenChain(ask, venue, n, pages + [page])
  {
    hide Followed, SeenCursor, CursorAfter, DistinctCursors, Answered;
    var all := pages + [page];
    assert all[..|all| - 1] == pages;
    forall k | 0 <= k < |all| ensures Answered(ask, venue, n, all, k) {
      ExtendAnswers(ask, venue, n, pages, page, k);
    }
    ExtendCursors(pages, page);
  }

  /** A leg that returns normally returns exactly its whole chain of pages. */
  lemma {:induction false} LegIsWholeChain<R>(ask: Broker<R>, venue: string, n: nat, pages: seq<Page<R>>)
    requires OpenChain(ask, venue, n, pages)
    ensures var r := FollowLeg(ask, venue, n, pages);
            r.Ok? ==> IsWholeChain(ask, venue, n, r.value) && pages <= r.value
    decreases MAX_PAGES - |pages|
  {
    hide OpenChain, PartOfChain;
    if |pages| < MAX_PAGES {
      var response := ask(n + |pages|, venue, CursorAfter(pages), pages != []);
      if response.Answer? {
        ExtendOpen(ask, venue, n, pages, response.page);
        if Followed(response.page) && !SeenCursor(pages, response.page.cursor) {
          LegIsWholeChain(ask, venue, n, pages + [response.page]);
        }
      }
    }
  }

  lemma StepOfChain<R>(ask: Broker<R>, venue: string, n: nat, all: seq<Page<R>>, k: nat)
    requires IsWholeChain(ask, venue, n, all) && k < |all|
    ensures ask(n + k, venue, CursorAfter(all[..k]), all[..k] != []) == Answer(all[k])
    ensures Followed(all[k]) <==> k + 1 < |all|
    ensures k + 1 < |all| ==> !SeenCursor(all[..k], all[k].cursor)
  {
    hide Followed, CursorAfter;
    assert Answered(ask, venue, n, all, k);
    if k + 1 < |all| {
      forall i | 0 <= i < k ensures all[..k][i].cursor != all[k].cursor {
        assert all[..k][i] == all[i];
      }
    }
  }

  /** Whenever a whole chain exists the leg returns it: nothing shorter is ever accepted. */
  lemma {:induction false} WholeChainIsReturned<R>(ask: Broker<R>, venue: string, n: nat, all: seq<Page<R>>, k: nat)
    requires IsWholeChain(ask, venue, n, all) && k < |all|
    ensures FollowLeg(ask, venue, n, all[..k]) == Ok(all)
    decreases |all| - k
  {
    StepOfChain(ask, venue, n, all, k);
    ChainIsShort(ask, venue, n, all);
    assert all[..k + 1] == all[..k] + [all[k]];
    if k + 1 < |all| {
      WholeChainIsReturned(ask, venue, n, all, k + 1);
    } else {
      assert all[..k + 1] == all;
    }
    hide IsWholeChain, CursorAfter, Followed, SeenCursor;
  }

  lemma ChainIsShort<R>(ask: Broker<R>, venue: string, n: nat, all: seq<Page<R>>)
    requires IsWholeChain(ask, venue, n, all)
    ensures |all| <= MAX_PAGES
  {
  }

  /**
   For any broker behaviour, a leg returns normally if and only if its chain from the empty
   cursor ends within the page limit with no cursor repeated, and then returns that chain whole.
   */
  lemma LegReturnsIffChainEnds<R>(ask: Broker<R>, venue: string, n: nat, pages: seq<Page<R>>)
    ensures FollowLeg(ask, venue, n, []) == Ok(pages) <==> IsWholeChain(ask, venue, n, pages)
  {
    LegIsWholeChain(ask, venue, n, []);
    if IsWholeChain(ask, venue, n, pages) {
      WholeChainIsReturned(ask, venue, n, pages, 0);
      assert pages[..0] == [];
    }
  }

  /** One chain of pages a venue, in order, each begun after the requests of the ones before it. */
  ghost predicate AreWholeChains<R>(ask: Broker<R>, venues: seq<string>, n: nat, chains: seq<seq<Page<R>>>)
    decreases |venues|
  {
    && |chains| == |venues|
    && (venues != [] ==>
          && IsWholeChain(ask, venues[0], n, chains[0])
          && AreWholeChains(ask, venues[1..], n + |chains[0]|, chains[1..]))
  }

  /** The chains of all venues as one list of legs, in venue order and page order. */
  function Joined<R>(venues: seq<string>, chains: seq<seq<Page<R>>>): seq<Leg<R>>
    requires |venues| == |chains|
  {
    if venues == [] then [] else LegsOf(venues[0], chains[0]) + Joined(venues[1..], chains[1..])
  }

  lemma {:induction false} SweptChains<R>(ask: Broker<R>, venues: seq<string>, n: nat)
    returns (chains: seq<seq<Page<R>>>)
    requires SweepFrom(ask, venues, n).Ok?
    ensures |chains| == |venues| && AreWholeChains(ask, venues, n, chains)
    ensures SweepFrom(ask, venues, n).value == Joined(venues, chains)
    decreases |venues|
  {
    hide IsWholeChain, FollowLeg;
    chains := [];
    if venues != [] {
      var pages := FollowLeg(ask, venues[0], n, []).value;
      LegReturnsIffChainEnds(ask, venues[0], n, pages);
      var rest := SweptChains(ask, venues[1..], n + |pages|);
      chains := [pages] + rest;
      assert chains[0] == pages && chains[1..] == rest;
    }
  }

  lemma {:induction false} ChainsAreSwept<R>(ask: Broker<R>, venues: seq<string>, n: nat, chains: seq<seq<Page<R>>>)
    requires AreWholeChains(ask, venues, n, chains)
    ensures SweepFrom(ask, venues, n) == Ok(Joined(venues, chains))
    decreases |venues|
  {
    hide IsWholeChain, FollowLeg;
    if venues != [] {
      LegReturnsIffChainEnds(ask, venues[0], n, chains[0]);
      ChainsAreSwept(ask, venues[1..], n + |chains[0]|, chains[1..]);
    }
  }

  /**
   For any broker behaviour, a sweep returns legs if and only if they are, in venue order, exactly
   the whole chain of every venue, each begun with the request after the last one of the venue
   before it: nothing is missing, and nothing comes from anywhere else.
   */
  lemma SweepIsComplete<R>(ask: Broker<R>, venues: seq<string>, legs: seq<Leg<R>>)
    ensures SweepFrom(ask, venues, 0) == Ok(legs)
            <==> exists chains: seq<seq<Page<R>>> ::
                   |chains| == |venues| && AreWholeChains(ask, venues, 0, chains) && legs == Joined(venues, chains)
  {
    hide SweepFrom, Joined, AreWholeChains;
    if SweepFrom(ask, venues, 0) == Ok(legs) {
      var chains := SweptChains(ask, venues, 0);
    }
    forall chains: seq<seq<Page<R>>> | |chains| == |venues| && AreWholeChains(ask, venues, 0, chains)
      ensures SweepFrom(ask, venues, 0) == Ok(Joined(venues, chains))
    {
      ChainsAreSwept(ask, venues, 0, chains);
    }
  }
}
