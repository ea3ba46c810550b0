/** The search resource: answers a search term from the search cache when
    the first cached row for it carries a non-empty `cacheValue`, and
    otherwise asks the upstream API, projects each record to `{id, url,
    title}` and caches the projection under the term. */
module GifsSearchResource {
  import opened Basics
  import opened Giphy
  import opened Store
  import opened Utils

  const SearchCacheTable := "GifSearchCache"
  const QueryRequired := "Search query param required for finding Gifs"
  const SearchFailed := "Failed to fetch Giphy data: "

  /** The message of the `TypeError` a property read on `undefined` throws. */
  function ReadOfUndefined(property: string): string
  {
    "Cannot read properties of undefined (reading '" + property + "')"
  }

  /** How the cache lookup and the cache write of one search end. */
  datatype SearchIO = SearchIO(lookup: Transport, write: Transport)

  /** The cache-hit test on the rows the lookup returned: the first row's
      `cacheValue`, when it is there and not empty. */
  function CachedGifs(response: seq<Row>): Option<seq<Gif>>
  {
    if |response| > 0 && response[0].cacheValue.Some? && |response[0].cacheValue.value| > 0
    then Some(response[0].cacheValue.value)
    else None
  }

  /** `{id, url: images.downsized_medium.url, title}`; reading through a
      missing `images` or `downsized_medium` throws. */
  function ProjectRecord(record: GiphyRecord): Result<Gif, string>
  {
    match record.images
    case None => Failure(ReadOfUndefined("downsized_medium"))
    case Some(images) =>
      match images.downsizedMedium
      case None => Failure(ReadOfUndefined("url"))
      case Some(rendition) => Success(Gif(record.id, rendition.url, record.title))
  }

  /** `data.map(...)` with that projection: every record projected, in
      order, or the error of the first record that cannot be. */
  function Project(records: seq<GiphyRecord>): (r: Result<seq<Gif>, string>)
    ensures r.Success? <==> forall i :: 0 <= i < |records| ==> ProjectRecord(records[i]).Success?
    ensures r.Success? ==> |r.value| == |records|
    ensures r.Success? ==> forall i :: 0 <= i < |records| ==> r.value[i] == ProjectRecord(records[i]).value
    ensures r.Failure? ==> exists i :: 0 <= i < |records| && ProjectRecord(records[i]) == Failure(r.error)
                                       && forall j :: 0 <= j < i ==> ProjectRecord(records[j]).Success?
  {
    if records == [] then Success([])
    else
      match ProjectRecord(records[0])
      case Failure(error) => Failure(error)
      case Success(gif) =>
        var rest := Project(records[1..]);
        if rest.Failure? then
          ghost var i :| 0 <= i < |records[1..]| && ProjectRecord(records[1..][i]) == Failure(rest.error)
                         && forall j :: 0 <= j < i ==> ProjectRecord(records[1..][j]).Success?;
          assert forall j :: 0 <= j < i + 1 ==> ProjectRecord(records[j]).Success? by {
            forall j | 0 < j < i + 1 ensures ProjectRecord(records[j]).Success? {
              assert records[j] == records[1..][j - 1];
            }
          }
          Failure(rest.error)
        else
          Success([gif] + rest.value)
  }

  /** The upstream half of a search, before its errors are wrapped: the
      request, the ok check, then the projection of `data`. */
  function Upstream(term: string, search: string -> Reply<SearchPayload>): Result<seq<Gif>, string>
  {
    match search(term)
    case NotOk(statusText) => Failure("GifsSearch Giphy API error: " + statusText)
    case Unreachable(message) => Failure(message)
    case Payload(body) =>
      match body.data
      case None => Failure(ReadOfUndefined("map"))
      case Some(records) => Project(records)
  }

  /** The cache lookup request a search posts. */
  function Lookup(term: string): Request
  {
    CacheLookupRequest(SearchCacheTable, term, ["*"], 20, 0)
  }

  /** `get(query)`: the store afterwards and what the call resolves to. The
      lookup's error is thrown before the `try` and so is not wrapped; the
      upstream and cache-write errors are. */
  function Search(st: StoreState, term: string, search: string -> Reply<SearchPayload>, io: SearchIO)
    : (e: Effect<Result<seq<Gif>, string>>)
    ensures term == "" ==> e == Effect(st, Failure(QueryRequired))
    ensures term != "" && !io.lookup.Delivered? ==>
              e == Effect(st, Failure(PostFailure(CacheLookupDescription(term), io.lookup)))
    ensures e.result.Failure? ==> e.after == st
    ensures e.after == st || (e.result.Success? && e.after == Apply(st, CacheWriteRequest(SearchCacheTable, term, e.result.value)))
  {
    if term == "" then Effect(st, Failure(QueryRequired))
    else
      var cacheResponse := Post(st, CacheLookupDescription(term), Lookup(term), io.lookup);
      if cacheResponse.Failure? then Effect(st, Failure(cacheResponse.error))
      else
        match CachedGifs(cacheResponse.value)
        case Some(gifs) => Effect(st, Success(gifs))
        case None =>
          match Upstream(term, search)
          case Failure(error) => Effect(st, Failure(SearchFailed + error))
          case Success(gifs) =>
            var write := CacheWriteRequest(SearchCacheTable, term, gifs);
            var posted := Post(st, "adding cache for " + term, write, io.write);
            Effect(Sent(st, write, io.write), if posted.Failure? then Failure(SearchFailed + posted.error) else Success(gifs))
  }

  /** The cached gifs of the first cache row for the term, if it has some. */
  function FirstCached(st: StoreState, term: string): Option<seq<Gif>>
  {
    match FirstWith(st.Table(SearchCacheTable), "searchTerm", term)
    case None => None
    case Some(row) => if row.cacheValue.Some? && |row.cacheValue.value| > 0 then row.cacheValue else None
  }

  /** The lookup response's hit test reads the first cache row for the term. */
  lemma LookupSeesFirstRow(st: StoreState, term: string, io: SearchIO)
    requires io.lookup.Delivered?
    ensures var response := Post(st, CacheLookupDescription(term), Lookup(term), io.lookup);
            response.Success? && CachedGifs(response.value) == FirstCached(st, term)
  {
    SearchStartsWithFirstMatch(st.Table(SearchCacheTable), "searchTerm", term, ["*"], 20);
  }

  /** A hit is served from the cache, whatever the upstream would answer,
      and writes nothing. */
  lemma CacheHitServesCached(st: StoreState, term: string, search: string -> Reply<SearchPayload>, io: SearchIO)
    requires term != "" && io.lookup.Delivered?
    requires FirstCached(st, term).Some?
    ensures Search(st, term, search, io) == Effect(st, Success(FirstCached(st, term).value))
  {
    LookupSeesFirstRow(st, term, io);
  }

  /** A miss asks the upstream: the search succeeds exactly when the upstream
      answer projects and the cache write goes through, returns that
      projection, and appends it to the cache under the term. */
  lemma CacheMissFetches(st: StoreState, term: string, search: string -> Reply<SearchPayload>, io: SearchIO)
    requires term != "" && io.lookup.Delivered?
    requires FirstCached(st, term) == None
    ensures var e := Search(st, term, search, io);
            && (e.result.Success? <==> Upstream(term, search).Success? && io.write.Delivered?)
            && (e.result.Success? ==> e.result.value == Upstream(term, search).value)
            && (e.result.Success? ==>
                  e.after.Table(SearchCacheTable)
                  == st.Table(SearchCacheTable) + [CacheRecord(term, e.result.value).(id := Some(st.nextKey))])
            && (Upstream(term, search).Failure? ==> e.result == Failure(SearchFailed + Upstream(term, search).error))
  {
    LookupSeesFirstRow(st, term, io);
    if Upstream(term, search).Success? {
      CacheWriteAppendsRow(st, SearchCacheTable, term, Upstream(term, search).value);
    }
  }

  /** No cache row carries `cacheValue`. */
  ghost predicate NoCacheValue(rows: seq<Row>)
  {
    forall i :: 0 <= i < |rows| ==> rows[i].cacheValue.None?
  }

  /** The cache writes `gifs`, never `cacheValue`, so a cache that starts
      without `cacheValue` stays so after any search. */
  lemma SearchKeepsNoCacheValue(st: StoreState, term: string, search: string -> Reply<SearchPayload>, io: SearchIO)
    requires NoCacheValue(st.Table(SearchCacheTable))
    ensures NoCacheValue(Search(st, term, search, io).after.Table(SearchCacheTable))
  {
    var e := Search(st, term, search, io);
    if e.after != st {
      CacheWriteAppendsRow(st, SearchCacheTable, term, e.result.value);
    }
  }

  /** Consequently a search repeated right after a successful one is still
      answered by the upstream: the row the first search cached is never a
      hit. */
  lemma RepeatedSearchRefetches(st: StoreState, term: string, first: string -> Reply<SearchPayload>,
                                second: string -> Reply<SearchPayload>, io: SearchIO)
    requires term != "" && io.lookup.Delivered?
    requires NoCacheValue(st.Table(SearchCacheTable))
    ensures var again := Search(Search(st, term, first, io).after, term, second, io);
            && (again.result.Success? <==> Upstream(term, second).Success? && io.write.Delivered?)
            && (again.result.Success? ==> again.result.value == Upstream(term, second).value)
  {
    var st1 := Search(st, term, first, io).after;
    SearchKeepsNoCacheValue(st, term, first, io);
    var rows := st1.Table(SearchCacheTable);
    var i := FirstIndexWith(rows, "searchTerm", term);
    if i < |rows| {
      assert rows[i].cacheValue.None?;
    }
    CacheMissFetches(st1, term, second, io);
  }

  /** `GifsSearch.get(query)`, with `query.url` as `query` ("" when absent). */
  method Get(store: Store, query: string, search: string -> Reply<SearchPayload>, io: SearchIO)
    returns (r: Result<seq<Gif>, string>)
    modifies store
    ensures Effect(store.State(), r) == Search(old(store.State()), query, search, io)
  {
    if query == "" {
      return Failure(QueryRequired);
    }
    var cacheResponse := GetCacheResult(store, SearchCacheTable, query, ["*"], 20, 0, io.lookup);
    if cacheResponse.Failure? {
      return Failure(cacheResponse.error);
    }
    var rows := cacheResponse.value;
    if |rows| > 0 && rows[0].cacheValue.Some? && |rows[0].cacheValue.value| > 0 {
      return Success(rows[0].cacheValue.value);
    }
    var response := search(query);
    match response {
      case NotOk(statusText) =>
        var message := "GifsSearch Giphy API error: " + statusText;
        return Failure(SearchFailed + message);
      case Unreachable(message) =>
        return Failure(SearchFailed + message);
      case Payload(json) =>
        if json.data.None? {
          return Failure(SearchFailed + ReadOfUndefined("map"));
        }
        var gifsArr := Project(json.data.value);
        if gifsArr.Failure? {
          return Failure(SearchFailed + gifsArr.error);
        }
        var cached := CacheSearchResult(store, SearchCacheTable, query, gifsArr.value, io.write);
        if cached.Failure? {
          return Failure(SearchFailed + cached.error);
        }
        return Success(gifsArr.value);
    }
  }
}
