/** The rankings resource: every ledger row, most read first, each looked up
    through an internal (uncounted) get-by-id and given the record's
    downsized-medium URL, then numbered from 1. */
module GifRankingsResource {
  import opened Basics
  import opened Giphy
  import opened Store
  import opened Utils
  import opened Ordering
  import opened GifByIdResource

  const RankingFailed := "GifRanking failed: "

  /** A ranking entry: the ledger row spread into a new object, the URL when
      the record has a non-empty one, and the rank once numbered. */
  datatype Ranking = Ranking(entry: Row, url: Option<string>, rank: Option<nat>)

  /** The sort key of `b.counter - a.counter`; a row without a counter sorts
      as 0. */
  function CountKey(row: Row): int
  {
    row.counter.GetOr(0)
  }

  /** The id a ledger row is looked up by; a missing `gif_id` is the empty id
      that get-by-id refuses. */
  function IdOf(row: Row): string
  {
    row.gifId.GetOr("")
  }

  /** `gifRecord?.images?.downsized_medium?.url`, kept only when truthy. */
  function UrlOf(record: Option<GiphyRecord>): Option<string>
  {
    if record.Some? && record.value.images.Some? && record.value.images.value.downsizedMedium.Some?
    then
      var url := record.value.images.value.downsizedMedium.value.url;
      if url.Some? && url.value != "" then url else None
    else None
  }

  /** The entry built for one row: an uncounted get-by-id, whose error is
      the one the whole ranking rejects with. */
  function LookupOne(row: Row, giphy: string -> Reply<ByIdPayload>): Result<Ranking, string>
  {
    match Resolve(IdOf(row), giphy)
    case Failure(error) => Failure(error)
    case Success(record) => Success(Ranking(row, UrlOf(record), None))
  }

  /** The entries of `rows`, in order, or the error of the first row whose
      lookup fails. */
  function LookupAll(rows: seq<Row>, giphy: string -> Reply<ByIdPayload>): (r: Result<seq<Ranking>, string>)
    ensures r.Success? <==> forall i :: 0 <= i < |rows| ==> Resolve(IdOf(rows[i]), giphy).Success?
    ensures r.Success? ==> |r.value| == |rows|
    ensures r.Success? ==> forall i :: 0 <= i < |rows| ==>
              r.value[i] == Ranking(rows[i], UrlOf(Resolve(IdOf(rows[i]), giphy).value), None)
    ensures r.Failure? ==> exists i :: 0 <= i < |rows| && Resolve(IdOf(rows[i]), giphy) == Failure(r.error)
                                       && forall j :: 0 <= j < i ==> Resolve(IdOf(rows[j]), giphy).Success?
    decreases |rows|
  {
    if rows == [] then Success([])
    else
      var init := rows[..|rows| - 1];
      assert forall j :: 0 <= j < |init| ==> rows[j] == init[j];
      match LookupAll(init, giphy)
      case Failure(error) =>
        ghost var i :| 0 <= i < |init| && Resolve(IdOf(init[i]), giphy) == Failure(error)
                       && forall j :: 0 <= j < i ==> Resolve(IdOf(init[j]), giphy).Success?;
        Failure(error)
      case Success(entries) =>
        match LookupOne(rows[|rows| - 1], giphy)
        case Failure(error) =>
          assert Resolve(IdOf(rows[|rows| - 1]), giphy) == Failure(error);
          Failure(error)
        case Success(entry) =>
          assert entry == Ranking(rows[|rows| - 1], UrlOf(Resolve(IdOf(rows[|rows| - 1]), giphy).value), None);
          Success(entries + [entry])
  }

  /** A lookup that has failed on a prefix fails the whole sequence the same
      way. */
  lemma {:induction false} LookupAllFailurePersists(rows: seq<Row>, giphy: string -> Reply<ByIdPayload>, n: nat)
    requires n <= |rows| && LookupAll(rows[..n], giphy).Failure?
    ensures LookupAll(rows, giphy) == LookupAll(rows[..n], giphy)
    decreases |rows| - n
  {
    if n < |rows| {
      var longer := rows[..n + 1];
      assert longer[..|longer| - 1] == rows[..n];
      LookupAllFailurePersists(rows, giphy, n + 1);
    } else {
      assert rows[..n] == rows;
    }
  }

  /** The entries numbered 1, 2, … in order. */
  function Ranked(entries: seq<Ranking>): seq<Ranking>
  {
    seq(|entries|, i requires 0 <= i < |entries| => entries[i].(rank := Some(i + 1)))
  }

  function Entries(rankings: seq<Ranking>): seq<Row>
  {
    seq(|rankings|, i requires 0 <= i < |rankings| => rankings[i].entry)
  }

  /** What `get()` resolves to: the ledger scanned, sorted by counter,
      looked up row by row and numbered; any failure, of the scan or of one
      lookup, fails the whole call under one prefix. */
  function Rankings(st: StoreState, giphy: string -> Reply<ByIdPayload>, scan: Transport): Result<seq<Ranking>, string>
  {
    var results := Post(st, ScanDescription(CounterTable), ScanRequest(CounterTable, []), scan);
    if results.Failure? then Failure(RankingFailed + results.error)
    else
      match LookupAll(SortDesc(results.value, CountKey), giphy)
      case Failure(error) => Failure(RankingFailed + error)
      case Success(entries) => Success(Ranked(entries))
  }

  /** Every row names a record the upstream returns. */
  predicate ResolvesAll(rows: seq<Row>, giphy: string -> Reply<ByIdPayload>)
  {
    forall i :: 0 <= i < |rows| ==> Resolve(IdOf(rows[i]), giphy).Success?
  }

  lemma ResolvesAllPermuted(rows: seq<Row>, other: seq<Row>, giphy: string -> Reply<ByIdPayload>)
    requires multiset(rows) == multiset(other) && ResolvesAll(rows, giphy)
    ensures ResolvesAll(other, giphy)
  {
    forall j | 0 <= j < |other| ensures Resolve(IdOf(other[j]), giphy).Success? {
      assert other[j] in multiset(rows);
      var i :| 0 <= i < |rows| && rows[i] == other[j];
    }
  }

  /** The ranking succeeds exactly when the ledger can be read and every row
      in it names a record the upstream returns; a failure of either kind
      carries one prefix. */
  lemma RankingsSucceed(st: StoreState, giphy: string -> Reply<ByIdPayload>, scan: Transport)
    ensures var r := Rankings(st, giphy, scan);
            && (r.Success? <==> scan.Delivered? && ResolvesAll(st.Table(CounterTable), giphy))
            && (r.Failure? ==> StartsWith(r.error, RankingFailed))
  {
    var rows := st.Table(CounterTable);
    var r := Rankings(st, giphy, scan);
    ScanReadsWholeTable(st, CounterTable);
    var sorted := SortDesc(rows, CountKey);
    SortDescOrdered(rows, CountKey);
    if r.Failure? {
      var message := if scan.Delivered? then LookupAll(sorted, giphy).error
                     else Post(st, ScanDescription(CounterTable), ScanRequest(CounterTable, []), scan).error;
      assert r.error == RankingFailed + message;
      assert r.error[..|RankingFailed|] == RankingFailed;
    }
    if scan.Delivered? {
      if ResolvesAll(rows, giphy) {
        ResolvesAllPermuted(rows, sorted, giphy);
      }
      if ResolvesAll(sorted, giphy) {
        ResolvesAllPermuted(sorted, rows, giphy);
      }
    }
  }

  /** A successful ranking holds every ledger row once, most read first,
      with ranks 1 to N and each record's URL. */
  lemma RankingsCorrect(st: StoreState, giphy: string -> Reply<ByIdPayload>, scan: Transport)
    requires Rankings(st, giphy, scan).Success?
    ensures var rows := st.Table(CounterTable);
            var r := Rankings(st, giphy, scan).value;
            && |r| == |rows|
            && Entries(r) == SortDesc(rows, CountKey)
            && NonIncreasing(Entries(r), CountKey)
            && multiset(Entries(r)) == multiset(rows)
            && forall i :: 0 <= i < |r| ==>
                 r[i].rank == Some(i + 1) && r[i].url == UrlOf(Resolve(IdOf(r[i].entry), giphy).value)
  {
    var rows := st.Table(CounterTable);
    ScanReadsWholeTable(st, CounterTable);
    SortDescOrdered(rows, CountKey);
    assert Entries(Rankings(st, giphy, scan).value) == SortDesc(rows, CountKey);
  }

  /** The sort is stable: rows with equal counters keep their ledger order. */
  lemma RankingsStable(st: StoreState, giphy: string -> Reply<ByIdPayload>, scan: Transport, k: int)
    requires Rankings(st, giphy, scan).Success?
    ensures WithKey(Entries(Rankings(st, giphy, scan).value), CountKey, k) == WithKey(st.Table(CounterTable), CountKey, k)
  {
    RankingsCorrect(st, giphy, scan);
    SortDescStable(st.Table(CounterTable), CountKey, k);
  }

  /** Numbers the entries in place, 1 upwards, in their order. */
  method AssignRanks(entries: array<Ranking>)
    modifies entries
    ensures entries[..] == Ranked(old(entries[..]))
  {
    var rank := 1;
    var i := 0;
    while i < entries.Length
      invariant 0 <= i <= entries.Length && rank == i + 1
      invariant forall m :: 0 <= m < i ==> entries[m] == old(entries[m]).(rank := Some(m + 1))
      invariant forall m :: i <= m < entries.Length ==> entries[m] == old(entries[m])
    {
      entries[i] := entries[i].(rank := Some(rank));
      rank := rank + 1;
      i := i + 1;
    }
  }

  /** `GifRankings.get()`: reads the ledger and the upstream, counts nothing. */
  method Get(store: Store, giphy: string -> Reply<ByIdPayload>, scan: Transport) returns (r: Result<seq<Ranking>, string>)
    ensures r == Rankings(store.State(), giphy, scan)
  {
    var gifCountersResults := FetchAllRecords(store, CounterTable, scan);
    if gifCountersResults.Failure? {
      return Failure(RankingFailed + gifCountersResults.error);
    }
    var results := gifCountersResults.value;
    var rows := new Row[|results|](i requires 0 <= i < |results| => results[i]);
    assert rows[..] == results;
    SortInPlace(rows, CountKey);
    var orderedByCount := LookupEach(store, rows, giphy);
    if orderedByCount.Failure? {
      return Failure(RankingFailed + orderedByCount.error);
    }
    var entries := orderedByCount.value;
    var ranked := new Ranking[|entries|](m requires 0 <= m < |entries| => entries[m]);
    assert ranked[..] == entries;
    AssignRanks(ranked);
    r := Success(ranked[..]);
  }

  /** The lookups of the sorted rows, one uncounted get-by-id each, in order;
      the first that fails fails them all. */
  method LookupEach(store: Store, rows: array<Row>, giphy: string -> Reply<ByIdPayload>)
    returns (r: Result<seq<Ranking>, string>)
    ensures r == LookupAll(rows[..], giphy)
  {
    ghost var sorted := rows[..];
    var orderedByCount: seq<Ranking> := [];
    var i := 0;
    while i < rows.Length
      invariant 0 <= i <= rows.Length
      invariant LookupAll(sorted[..i], giphy) == Success(orderedByCount)
    {
      var gifByIdResource := new GifById(IdOf(rows[i]), false);
      var gifRecord := gifByIdResource.Get(store, giphy, CounterIO(Delivered, Delivered, ""));
      assert sorted[..i + 1][..i] == sorted[..i];
      if gifRecord.Failure? {
        LookupAllFailurePersists(sorted, giphy, i + 1);
        return Failure(gifRecord.error);
      }
      var gifRanking := Ranking(rows[i], UrlOf(gifRecord.value), None);
      orderedByCount := orderedByCount + [gifRanking];
      i := i + 1;
    }
    assert sorted[..rows.Length] == sorted;
    r := Success(orderedByCount);
  }
}
