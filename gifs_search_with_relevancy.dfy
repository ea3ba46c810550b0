/** The relevancy search: a plain search, then every hit paired with the read
    counter of its ledger row (0 when it has none), most read first. */
module GifsSearchWithRelevancyResource {
  import opened Basics
  import opened Giphy
  import opened Store
  import opened Utils
  import opened Ordering
  import opened GifByIdResource
  import opened GifsSearchResource

  /** A search hit spread into a new object with its `counter` added. */
  datatype Scored = Scored(gif: Gif, counter: Option<int>)

  /** How the search and the ledger scan of one relevancy search end. */
  datatype RelevancyIO = RelevancyIO(search: SearchIO, scan: Transport)

  /** The sort key of `b.counter - a.counter`; a missing counter sorts as 0. */
  function ScoreKey(s: Scored): int
  {
    s.counter.GetOr(0)
  }

  /** The counter of the first ledger row for the id, the literal 0 when no
      row has it. */
  function CounterFor(rows: seq<Row>, id: string): Option<int>
  {
    match FirstWith(rows, "gif_id", id)
    case Some(row) => row.counter
    case None => Some(0)
  }

  /** Each hit paired with its counter, in search order. */
  function WithCounters(gifs: seq<Gif>, rows: seq<Row>): seq<Scored>
  {
    seq(|gifs|, i requires 0 <= i < |gifs| => Scored(gifs[i], CounterFor(rows, gifs[i].id)))
  }

  function GifsOf(scored: seq<Scored>): seq<Gif>
  {
    seq(|scored|, i requires 0 <= i < |scored| => scored[i].gif)
  }

  lemma GifsOfAppend(a: seq<Scored>, b: seq<Scored>)
    ensures GifsOf(a + b) == GifsOf(a) + GifsOf(b)
  {
    assert forall i :: 0 <= i < |a + b| ==> GifsOf(a + b)[i] == (GifsOf(a) + GifsOf(b))[i];
  }

  /** Inserting one scored hit adds exactly its hit to the hits. */
  lemma {:induction false} GifsOfInsert(x: Scored, s: seq<Scored>)
    ensures multiset(GifsOf(InsertStable(x, s, ScoreKey))) == multiset(GifsOf(s)) + multiset{x.gif}
    decreases |s|
  {
    if s == [] {
      assert GifsOf([x]) == [x.gif];
    } else if ScoreKey(s[0]) >= ScoreKey(x) {
      var rest := InsertStable(x, s[1..], ScoreKey);
      GifsOfInsert(x, s[1..]);
      GifsOfAppend([s[0]], rest);
      GifsOfAppend([s[0]], s[1..]);
      assert [s[0]] + s[1..] == s;
      assert GifsOf([s[0]]) == [s[0].gif];
    } else {
      GifsOfAppend([x], s);
      assert GifsOf([x]) == [x.gif];
    }
  }

  /** Sorting moves the hits around but keeps each of them. */
  lemma {:induction false} GifsOfSorted(s: seq<Scored>)
    ensures multiset(GifsOf(SortDesc(s, ScoreKey))) == multiset(GifsOf(s))
    decreases |s|
  {
    if s != [] {
      var init := s[..|s| - 1];
      var last := s[|s| - 1];
      GifsOfSorted(init);
      GifsOfInsert(last, SortDesc(init, ScoreKey));
      GifsOfAppend(init, [last]);
      assert init + [last] == s;
      assert GifsOf([last]) == [last.gif];
    }
  }

  /** `get(query)`: the search's effect and result, then the ledger scan
      and the sort. Neither the search's nor the scan's error is wrapped. */
  function Relevance(st: StoreState, term: string, search: string -> Reply<SearchPayload>, io: RelevancyIO)
    : Effect<Result<seq<Scored>, string>>
  {
    var found := Search(st, term, search, io.search);
    if found.result.Failure? then Effect(found.after, Failure(found.result.error))
    else
      var counters := Post(found.after, ScanDescription(CounterTable), ScanRequest(CounterTable, []), io.scan);
      if counters.Failure? then Effect(found.after, Failure(counters.error))
      else Effect(found.after, Success(SortDesc(WithCounters(found.result.value, counters.value), ScoreKey)))
  }

  /** The search's cache write never touches the ledger. */
  lemma SearchKeepsLedger(st: StoreState, term: string, search: string -> Reply<SearchPayload>, io: SearchIO)
    ensures Search(st, term, search, io).after.Table(CounterTable) == st.Table(CounterTable)
  {
    var e := Search(st, term, search, io);
    if e.after != st {
      CacheWriteAppendsRow(st, SearchCacheTable, term, e.result.value);
    }
  }

  /** The relevancy search fails exactly when the search or the ledger scan
      does, with the search's own message in the first case; it changes the
      store as the search does. On success it returns a permutation of the
      search's hits, each paired with its ledger counter, most read first. */
  lemma RelevanceCorrect(st: StoreState, term: string, search: string -> Reply<SearchPayload>, io: RelevancyIO)
    ensures var found := Search(st, term, search, io.search);
            var e := Relevance(st, term, search, io);
            && e.after == found.after
            && (e.result.Success? <==> found.result.Success? && io.scan.Delivered?)
            && (found.result.Failure? ==> e.result == Failure(found.result.error))
            && (e.result.Success? ==> |e.result.value| == |found.result.value|)
            && (e.result.Success? ==> multiset(GifsOf(e.result.value)) == multiset(found.result.value))
            && (e.result.Success? ==>
                  multiset(e.result.value) == multiset(WithCounters(found.result.value, st.Table(CounterTable))))
            && (e.result.Success? ==> NonIncreasing(e.result.value, ScoreKey))
            && (e.result.Success? ==> forall i :: 0 <= i < |e.result.value| ==>
                  e.result.value[i].counter == CounterFor(st.Table(CounterTable), e.result.value[i].gif.id))
  {
    var found := Search(st, term, search, io.search);
    var e := Relevance(st, term, search, io);
    ScanReadsWholeTable(found.after, CounterTable);
    if e.result.Success? {
      SearchKeepsLedger(st, term, search, io.search);
      var rows := st.Table(CounterTable);
      assert e.result.value == SortDesc(WithCounters(found.result.value, rows), ScoreKey);
      SortedWithCounters(found.result.value, rows);
    }
  }

  /** The sorted merge holds every hit once, each with its own counter,
      most read first. */
  lemma SortedWithCounters(gifs: seq<Gif>, rows: seq<Row>)
    ensures var merged := WithCounters(gifs, rows);
            var sorted := SortDesc(merged, ScoreKey);
            && |sorted| == |gifs|
            && multiset(sorted) == multiset(merged)
            && multiset(GifsOf(sorted)) == multiset(gifs)
            && NonIncreasing(sorted, ScoreKey)
            && forall i :: 0 <= i < |sorted| ==> sorted[i].counter == CounterFor(rows, sorted[i].gif.id)
  {
    var merged := WithCounters(gifs, rows);
    var sorted := SortDesc(merged, ScoreKey);
    SortDescOrdered(merged, ScoreKey);
    assert GifsOf(merged) == gifs;
    GifsOfSorted(merged);
    forall i | 0 <= i < |sorted|
      ensures sorted[i].counter == CounterFor(rows, sorted[i].gif.id)
    {
      assert sorted[i] in multiset(merged);
      var j :| 0 <= j < |merged| && merged[j] == sorted[i];
    }
  }

  /** Hits with the same counter keep the order the search returned them in. */
  lemma RelevanceStable(st: StoreState, term: string, search: string -> Reply<SearchPayload>, io: RelevancyIO, k: int)
    requires Relevance(st, term, search, io).result.Success?
    ensures var found := Search(st, term, search, io.search);
            WithKey(Relevance(st, term, search, io).result.value, ScoreKey, k)
            == WithKey(WithCounters(found.result.value, st.Table(CounterTable)), ScoreKey, k)
  {
    var found := Search(st, term, search, io.search);
    ScanReadsWholeTable(found.after, CounterTable);
    SearchKeepsLedger(st, term, search, io.search);
    SortDescStable(WithCounters(found.result.value, st.Table(CounterTable)), ScoreKey, k);
  }

  /** `GifsSearchWithRelevancy.get(query)`. */
  method Get(store: Store, query: string, search: string -> Reply<SearchPayload>, io: RelevancyIO)
    returns (r: Result<seq<Scored>, string>)
    modifies store
    ensures Effect(store.State(), r) == Relevance(old(store.State()), query, search, io)
  {
    var gifs := GifsSearchResource.Get(store, query, search, io.search);
    if gifs.Failure? {
      return Failure(gifs.error);
    }
    var gifCounters := FetchAllRecords(store, CounterTable, io.scan);
    if gifCounters.Failure? {
      return Failure(gifCounters.error);
    }
    var gifsWithCounters := WithCounters(gifs.value, gifCounters.value);
    var sorted := new Scored[|gifsWithCounters|](i requires 0 <= i < |gifsWithCounters| => gifsWithCounters[i]);
    assert sorted[..] == gifsWithCounters;
    SortInPlace(sorted, ScoreKey);
    r := Success(sorted[..]);
  }
}
