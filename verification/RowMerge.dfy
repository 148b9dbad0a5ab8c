/**
 Merging the rows of an account read into one list (brokers/kis_broker.py).

 A row is a JSON object, here a map from field to text, or something that is not an object.
 */
module RowMerge {
  import opened Text
  import opened Wrappers

  type Fields = map<string, string>

  datatype Row = Record(fields: Fields) | Other(text: string)

  /** A row as one leg of the sweep delivered it, with the venue code the leg asked for. */
  datatype Read = Read(code: string, row: Row)

  const TAG_KEYS := {"kis_exchange_code", "canonical_exchange", "kis_requested_exchange_code"}
  const VENUE_FIELD := "ovrs_excg_cd"

  /** str(row.get(field) or ""). */
  function Get(fields: Fields, field: string): string {
    if field in fields then fields[field] else ""
  }

  /** The venue the row itself names; empty when it names none. */
  function OwnVenue(fields: Fields): string {
    Trim(Get(fields, VENUE_FIELD))
  }

  function RowVenue(fields: Fields, code: string): string {
    if OwnVenue(fields) != "" then OwnVenue(fields) else code
  }

  function SetDefault(fields: Fields, field: string, value: string): Fields {
    if field in fields then fields else fields[field := value]
  }

  /** exchange_for_kis_order_code: the inverse of the order-code table. */
  function CanonicalExchange(code: string): Option<string> {
    match code
    case "NASD" => Some("NASDAQ")
    case "NYSE" => Some("NYSE")
    case "AMEX" => Some("NYSE_AMERICAN")
    case _ => None
  }

  /** _tag_rows for one row: adds where it came from, and replaces nothing. */
  function Tag(row: Row, code: string): Row {
    match row
    case Other(_) => row
    case Record(fields) =>
      var venued := SetDefault(fields, "kis_exchange_code", RowVenue(fields, code));
      var requested := SetDefault(venued, "kis_requested_exchange_code", code);
      var canonical := CanonicalExchange(code);
      Record(if canonical.Some? then SetDefault(requested, "canonical_exchange", canonical.value) else requested)
  }

  /** What KIS sent, without this program's tags. */
  function Payload(fields: Fields): Fields {
    fields - TAG_KEYS
  }

  datatype Identity = Execution(venue: string, payload: Fields) | Order(venue: string, number: string)

  datatype Scheme = ByExecution | ByOrder

  function ExecutionIdentity(fields: Fields, code: string): Identity {
    Execution(RowVenue(fields, code), Payload(fields))
  }

  function OrderIdentity(fields: Fields, code: string): Option<Identity> {
    if Get(fields, "odno") != "" then Some(Order(RowVenue(fields, code), fields["odno"]))
    else if Get(fields, "ODNO") != "" then Some(Order(RowVenue(fields, code), fields["ODNO"]))
    else None
  }

  /** The identity under which a read is de-duplicated; only objects have one. */
  function IdentityOf(read: Read, scheme: Scheme): Option<Identity> {
    if read.row.Other? then None
    else if scheme.ByExecution? then Some(ExecutionIdentity(read.row.fields, read.code))
    else OrderIdentity(read.row.fields, read.code)
  }

  /** Tagging a row never changes what counts as the same record. */
  lemma TagKeepsIdentity(read: Read, scheme: Scheme)
    ensures IdentityOf(Read(read.code, Tag(read.row, read.code)), scheme) == IdentityOf(read, scheme)
    ensures read.row.Record? ==> Payload(Tag(read.row, read.code).fields) == Payload(read.row.fields)
  {
    hide Text.Trim, CanonicalExchange;
    if read.row.Record? {
      var fields, tagged := read.row.fields, Tag(read.row, read.code).fields;
      assert Payload(tagged) == Payload(fields);
      assert forall f :: f !in TAG_KEYS ==> Get(tagged, f) == Get(fields, f);
    }
  }

  /** A tagged row says which leg asked and which venue it belongs to, and keeps everything it said itself. */
  lemma TagReplacesNothing(fields: Fields, code: string)
    ensures Tag(Record(fields), code).Record?
    ensures var tagged := Tag(Record(fields), code).fields;
            && fields.Keys <= tagged.Keys <= fields.Keys + TAG_KEYS
            && (forall f :: f in fields ==> tagged[f] == fields[f])
            && ("kis_exchange_code" !in fields ==>
                  var own := Trim(Get(fields, "ovrs_excg_cd"));
                  tagged["kis_exchange_code"] == if own != "" then own else code)
            && ("kis_requested_exchange_code" !in fields ==> tagged["kis_requested_exchange_code"] == code)
            && ("canonical_exchange" !in fields ==>
                  Get(tagged, "canonical_exchange")
                    == if code == "NASD" then "NASDAQ" else if code == "NYSE" then "NYSE"
                       else if code == "AMEX" then "NYSE_AMERICAN" else "")
  {
    hide Trim;
  }

  // ---------------------------------------------------------------- Merging

  /** An earlier read with the same identity exists. */
  ghost predicate IsRepeat(feed: seq<Read>, k: int, scheme: Scheme)
    requires 0 <= k < |feed|
  {
    && IdentityOf(feed[k], scheme).Some?
    && exists j :: 0 <= j < k && IdentityOf(feed[j], scheme) == IdentityOf(feed[k], scheme)
  }

  /** The feed that are kept: the first of every identity, and everything without one. */
  ghost function Kept(feed: seq<Read>, scheme: Scheme): seq<Read> {
    if feed == [] then []
    else
      var last := |feed| - 1;
      Kept(feed[..last], scheme) + (if IsRepeat(feed, last, scheme) then [] else [feed[last]])
  }

  ghost function Merged(feed: seq<Read>, scheme: Scheme): (rows: seq<Row>)
    ensures |rows| == |Kept(feed, scheme)|
    ensures forall k :: 0 <= k < |rows| ==> rows[k] == Tag(Kept(feed, scheme)[k].row, Kept(feed, scheme)[k].code)
  {
    seq(|Kept(feed, scheme)|, k requires 0 <= k < |Kept(feed, scheme)| =>
      Tag(Kept(feed, scheme)[k].row, Kept(feed, scheme)[k].code))
  }

  function ReadsOf(code: string, rows: seq<Row>): (feed: seq<Read>)
    ensures |feed| == |rows| && forall k :: 0 <= k < |rows| ==> feed[k] == Read(code, rows[k])
  {
    seq(|rows|, k requires 0 <= k < |rows| => Read(code, rows[k]))
  }

  /** Every row of every leg, in the order they are visited. */
  function AllReads(legs: seq<(string, seq<Row>)>): seq<Read> {
    if legs == [] then []
    else AllReads(legs[..|legs| - 1]) + ReadsOf(legs[|legs| - 1].0, legs[|legs| - 1].1)
  }

  ghost predicate SeenIs(seen: set<Identity>, feed: seq<Read>, scheme: Scheme) {
    forall key :: key in seen <==> exists j :: 0 <= j < |feed| && IdentityOf(feed[j], scheme) == Some(key)
  }

  lemma SeenGrows(seen: set<Identity>, feed: seq<Read>, read: Read, scheme: Scheme)
    requires SeenIs(seen, feed, scheme)
    ensures IdentityOf(read, scheme).None? ==> SeenIs(seen, feed + [read], scheme)
    ensures IdentityOf(read, scheme).Some? ==> SeenIs(seen + {IdentityOf(read, scheme).value}, feed + [read], scheme)
  {
    hide IdentityOf;
    var all := feed + [read];
    forall key, j | 0 <= j < |feed| && IdentityOf(feed[j], scheme) == Some(key)
      ensures IdentityOf(all[j], scheme) == Some(key)
    {
    }
    assert all[|feed|] == read;
  }

  lemma KeptAppend(feed: seq<Read>, read: Read, scheme: Scheme, seen: set<Identity>)
    requires SeenIs(seen, feed, scheme)
    ensures var key := IdentityOf(read, scheme);
            Kept(feed + [read], scheme)
            == if key.Some? && key.value in seen then Kept(feed, scheme) else Kept(feed, scheme) + [read]
  {
    hide IdentityOf;
    var all := feed + [read];
    assert all[..|feed|] == feed && all[|feed|] == read;
    var key := IdentityOf(read, scheme);
    if key.Some? && key.value in seen {
      var j :| 0 <= j < |feed| && IdentityOf(feed[j], scheme) == key;
      assert IdentityOf(all[j], scheme) == key;
    }
  }

  lemma MergedAppend(feed: seq<Read>, read: Read, scheme: Scheme, seen: set<Identity>)
    requires SeenIs(seen, feed, scheme)
    ensures var key := IdentityOf(read, scheme);
            Merged(feed + [read], scheme)
            == if key.Some? && key.value in seen then Merged(feed, scheme)
               else Merged(feed, scheme) + [Tag(read.row, read.code)]
  {
    hide IdentityOf, Kept, Tag, SeenIs;
    KeptAppend(feed, read, scheme, seen);
  }

  /** _merge_rows. */
  method MergeRows(legs: seq<(string, seq<Row>)>, scheme: Scheme) returns (merged: seq<Row>)
    ensures merged == Merged(AllReads(legs), scheme)
  {
    hide IdentityOf, Kept, Tag, SeenIs, Merged;
    merged := [];
    var seen: set<Identity> := {};
    ghost var feed: seq<Read> := [];
    EmptyMerge(scheme);
    for l := 0 to |legs|
      invariant feed == AllReads(legs[..l]) && merged == Merged(feed, scheme) && SeenIs(seen, feed, scheme)
    {
      var (code, body) := legs[l];
      assert legs[..l + 1][..l] == legs[..l];
      assert AllReads(legs[..l]) + ReadsOf(code, body)[..0] == AllReads(legs[..l]);
      for k := 0 to |body|
        invariant feed == AllReads(legs[..l]) + ReadsOf(code, body)[..k]
        invariant merged == Merged(feed, scheme) && SeenIs(seen, feed, scheme)
      {
        var read := Read(code, body[k]);
        var row := Tag(body[k], code);
        TagKeepsIdentity(read, scheme);
        var key := IdentityOf(Read(code, row), scheme);
        MergedAppend(feed, read, scheme, seen);
        SeenGrows(seen, feed, read, scheme);
        assert AllReads(legs[..l]) + ReadsOf(code, body)[..k + 1] == feed + [read];
        feed := feed + [read];
        if key.Some? && key.value in seen {
          assert seen + {key.value} == seen;
          continue;
        }
        if key.Some? {
          seen := seen + {key.value};
        }
        merged := merged + [row];
      }
      assert ReadsOf(code, body)[..|body|] == ReadsOf(code, body);
    }
    assert legs[..|legs|] == legs;
  }

  lemma EmptyMerge(scheme: Scheme)
    ensures Merged([], scheme) == [] && SeenIs({}, [], scheme)
  {
  }

  // ------------------------------------------------------ What merging keeps

  ghost predicate DistinctIdentities(feed: seq<Read>, scheme: Scheme) {
    forall i, j :: 0 <= i < j < |feed| && IdentityOf(feed[i], scheme).Some?
                   ==> IdentityOf(feed[i], scheme) != IdentityOf(feed[j], scheme)
  }

  ghost predicate HasIdentity(feed: seq<Read>, key: Identity, scheme: Scheme) {
    exists j :: 0 <= j < |feed| && IdentityOf(feed[j], scheme) == Some(key)
  }

  /** What is kept was read, has pairwise distinct identities, and covers every identity read. */
  lemma {:induction false} KeptIsDistinctAndComplete(feed: seq<Read>, scheme: Scheme)
    ensures forall k :: 0 <= k < |Kept(feed, scheme)| ==> Kept(feed, scheme)[k] in feed
    ensures DistinctIdentities(Kept(feed, scheme), scheme)
    ensures forall key :: HasIdentity(feed, key, scheme) <==> HasIdentity(Kept(feed, scheme), key, scheme)
  {
    hide IdentityOf;
    if feed != [] {
      var last := |feed| - 1;
      var init, kept := feed[..last], Kept(feed[..last], scheme);
      KeptIsDistinctAndComplete(init, scheme);
      assert feed == init + [feed[last]];
      KeptStep(init, feed[last], kept, scheme);
    }
  }

  lemma KeptStep(init: seq<Read>, read: Read, kept: seq<Read>, scheme: Scheme)
    requires kept == Kept(init, scheme) && DistinctIdentities(kept, scheme)
    requires forall k :: 0 <= k < |kept| ==> kept[k] in init
    requires forall key :: HasIdentity(init, key, scheme) <==> HasIdentity(kept, key, scheme)
    ensures var after := Kept(init + [read], scheme);
            && (forall k :: 0 <= k < |after| ==> after[k] in init + [read])
            && DistinctIdentities(after, scheme)
            && (forall key :: HasIdentity(init + [read], key, scheme) <==> HasIdentity(after, key, scheme))
  {
    hide IdentityOf, Kept;
    var key := IdentityOf(read, scheme);
    StepOfKept(init, read, scheme);
    var after := Kept(init + [read], scheme);
    forall k | 0 <= k < |after| ensures after[k] in init + [read] {
      if k < |kept| {
        assert kept[k] in init;
      }
    }
    assert key.Some? && after != kept ==> !HasIdentity(kept, key.value, scheme);
    forall other ensures HasIdentity(init + [read], other, scheme) <==> HasIdentity(after, other, scheme) {
      HasAppend(init, read, other, scheme);
      HasAppend(kept, read, other, scheme);
    }
  }

  lemma StepOfKept(init: seq<Read>, read: Read, scheme: Scheme)
    ensures var key := IdentityOf(read, scheme);
            Kept(init + [read], scheme)
            == if key.Some? && HasIdentity(init, key.value, scheme) then Kept(init, scheme)
               else Kept(init, scheme) + [read]
  {
    hide IdentityOf;
    var all := init + [read];
    assert all[..|init|] == init && all[|init|] == read;
    var key := IdentityOf(read, scheme);
    if key.Some? && HasIdentity(init, key.value, scheme) {
      var j :| 0 <= j < |init| && IdentityOf(init[j], scheme) == key;
      assert IdentityOf(all[j], scheme) == key;
    }
  }

  lemma HasAppend(feed: seq<Read>, read: Read, key: Identity, scheme: Scheme)
    ensures HasIdentity(feed + [read], key, scheme)
            <==> HasIdentity(feed, key, scheme) || IdentityOf(read, scheme) == Some(key)
  {
    hide IdentityOf;
    var all := feed + [read];
    if HasIdentity(feed, key, scheme) {
      var j :| 0 <= j < |feed| && IdentityOf(feed[j], scheme) == Some(key);
      assert IdentityOf(all[j], scheme) == Some(key);
    }
    assert all[|feed|] == read;
  }

  /** Distinct records are all kept, even when they share an order number. */
  lemma {:induction false} DistinctReadsAreAllKept(feed: seq<Read>, scheme: Scheme)
    requires DistinctIdentities(feed, scheme)
    ensures Kept(feed, scheme) == feed
  {
    hide IdentityOf;
    if feed != [] {
      DistinctReadsAreAllKept(feed[..|feed| - 1], scheme);
    }
  }

  /** One object echoed by two legs collapses to one row if and only if it names its venue or the codes agree. */
  lemma EchoCollapsesIff(fields: Fields, c: string, d: string)
    ensures |Merged([Read(c, Record(fields)), Read(d, Record(fields))], ByExecution)| == 1
            <==> OwnVenue(fields) != "" || c == d
  {
    hide OwnVenue, Payload, Tag, Kept;
    var first, second := Read(c, Record(fields)), Read(d, Record(fields));
    assert [first] + [second] == [first, second] && [] + [first] == [first];
    StepOfKept([], first, ByExecution);
    StepOfKept([first], second, ByExecution);
    HasAppend([], first, ExecutionIdentity(fields, d), ByExecution);
    EmptyMerge(ByExecution);
  }

  /** Two fills of one order: kept apart by execution, wrongly merged by order number. */
  lemma OrderNumberWouldLoseAFill(fields: Fields, other: Fields, code: string)
    requires Get(fields, "odno") != "" && Get(other, "odno") == Get(fields, "odno")
    requires Payload(fields) != Payload(other) && OwnVenue(fields) == OwnVenue(other)
    ensures var feed := [Read(code, Record(fields)), Read(code, Record(other))];
            |Merged(feed, ByExecution)| == 2 && |Merged(feed, ByOrder)| == 1
  {
    hide OwnVenue, Payload, Tag, Kept;
    var first, second := Read(code, Record(fields)), Read(code, Record(other));
    assert [first] + [second] == [first, second] && [] + [first] == [first];
    EmptyMerge(ByExecution);
    EmptyMerge(ByOrder);
    StepOfKept([], first, ByExecution);
    StepOfKept([first], second, ByExecution);
    HasAppend([], first, ExecutionIdentity(other, code), ByExecution);
    StepOfKept([], first, ByOrder);
    StepOfKept([first], second, ByOrder);
    HasAppend([], first, OrderIdentity(other, code).value, ByOrder);
  }
}
