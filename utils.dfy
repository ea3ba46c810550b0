/** The store helpers shared by the resources: the full-scan query, the
    search-cache lookup and insert, and the single post routine that turns a
    store failure into an error message. */
module Utils {
  import opened Basics
  import opened Giphy
  import opened Store

  /** The SQL text `fetchAllRecords` builds: every column when no attribute
      is named, otherwise the named ones, in order, joined by ", ". */
  function ScanQuery(table: string, getAttributes: seq<string>): string
  {
    if |getAttributes| > 0 then "SELECT " + Join(getAttributes, ", ") + "\n       FROM data." + table
    else "SELECT * FROM data." + table
  }

  function ScanRequest(table: string, getAttributes: seq<string>): Request
  {
    Sql(ScanQuery(table, getAttributes))
  }

  function ScanDescription(table: string): string
  {
    "POST SQL Query " + ScanQuery(table, [])
  }

  /** The scan request without attributes is read by the store as a scan of
      exactly the named table, and answers with all of its rows. */
  lemma ScanReadsWholeTable(st: StoreState, table: string)
    ensures ScanTarget(ScanQuery(table, [])) == Some(table)
    ensures Answer(st, ScanRequest(table, [])) == Success(st.Table(table))
  {
    var q := ScanQuery(table, []);
    assert q[..|ScanPrefix|] == ScanPrefix;
    assert q[|ScanPrefix|..] == table;
  }

  /** The message `postToDatabase` throws for a failed request. */
  function PostFailure(description: string, fault: Transport): (message: string)
    requires !fault.Delivered?
    ensures StartsWith(message, "Failed " + description + ": ")
  {
    var prefix := "Failed " + description + ": ";
    var message := match fault
      case ErrorStatus(statusText) => prefix + "HarperDB error: " + statusText
      case NoConnection(reason) => prefix + reason;
    assert message[..|prefix|] == prefix;
    message
  }

  /** What `postToDatabase` resolves to, given the store before the request. */
  function Post(st: StoreState, description: string, request: Request, transport: Transport): (r: Result<seq<Row>, string>)
    ensures r.Failure? <==> !transport.Delivered? || Answer(st, request).Failure?
    ensures r.Success? ==> r.value == Answer(st, request).value
    ensures r.Failure? ==> StartsWith(r.error, "Failed " + description + ": ")
  {
    var reply := if transport.Delivered? then Answer(st, request) else Failure(transport);
    match reply
    case Success(rows) => Success(rows)
    case Failure(fault) => Failure(PostFailure(description, fault))
  }

  /** The store after `postToDatabase`: changed only by a delivered write. */
  function Sent(st: StoreState, request: Request, transport: Transport): StoreState
  {
    if transport.Delivered? then Apply(st, request) else st
  }

  method PostToDatabase(store: Store, description: string, request: Request, transport: Transport)
    returns (r: Result<seq<Row>, string>)
    modifies if request.IsWrite() then {store} else {}
    ensures r == Post(old(store.State()), description, request, transport)
    ensures store.State() == Sent(old(store.State()), request, transport)
  {
    var reply := store.Execute(request, transport);
    match reply {
      case Success(rows) =>
        r := Success(rows);
      case Failure(fault) =>
        r := Failure(PostFailure(description, fault));
    }
  }

  /** `fetchAllRecords(table)`: every row of the table, or the post error. */
  method FetchAllRecords(store: Store, table: string, transport: Transport) returns (r: Result<seq<Row>, string>)
    ensures r == Post(store.State(), ScanDescription(table), ScanRequest(table, []), transport)
    ensures r.Success? <==> transport.Delivered?
    ensures r.Success? ==> r.value == store.State().Table(table)
  {
    var query := ScanQuery(table, []);
    var body := Sql(query);
    ScanReadsWholeTable(store.State(), table);
    r := PostToDatabase(store, "POST SQL Query " + query, body, transport);
  }

  /** The one record `cacheSearchResult` writes: `{searchTerm, gifs}`. */
  function CacheRecord(searchTerm: string, gifs: seq<Gif>): Row
  {
    EmptyRow.(searchTerm := Some(searchTerm), gifs := Some(gifs))
  }

  function CacheWriteRequest(table: string, searchTerm: string, gifs: seq<Gif>): Request
  {
    Insert(table, [CacheRecord(searchTerm, gifs)])
  }

  /** A cache write appends exactly one row under a fresh identifier and
      touches nothing else; being an insert, a second identical write adds a
      second row. */
  lemma CacheWriteAppendsRow(st: StoreState, table: string, searchTerm: string, gifs: seq<Gif>)
    ensures var after := Apply(st, CacheWriteRequest(table, searchTerm, gifs));
            && after.Table(table) == st.Table(table) + [CacheRecord(searchTerm, gifs).(id := Some(st.nextKey))]
            && after.nextKey == st.nextKey + 1
            && forall name :: name != table ==> after.Table(name) == st.Table(name)
  {
    var records := [CacheRecord(searchTerm, gifs)];
    assert records[1..] == [];
    assert InsertAll(st, table, records) == InsertOne(st, table, records[0]);
  }

  /** Caching the same result twice leaves two rows for it. */
  lemma CacheWriteTwiceAddsTwoRows(st: StoreState, table: string, searchTerm: string, gifs: seq<Gif>)
    ensures var request := CacheWriteRequest(table, searchTerm, gifs);
            var after := Apply(Apply(st, request), request);
            after.Table(table) == st.Table(table) + [CacheRecord(searchTerm, gifs).(id := Some(st.nextKey)),
                                                     CacheRecord(searchTerm, gifs).(id := Some(st.nextKey + 1))]
  {
    var request := CacheWriteRequest(table, searchTerm, gifs);
    CacheWriteAppendsRow(st, table, searchTerm, gifs);
    CacheWriteAppendsRow(Apply(st, request), table, searchTerm, gifs);
  }

  method CacheSearchResult(store: Store, table: string, searchTerm: string, gifs: seq<Gif>, transport: Transport)
    returns (r: Result<(), string>)
    modifies store
    ensures r.Success? <==> transport.Delivered?
    ensures r.Failure? ==> r.error == PostFailure("adding cache for " + searchTerm, transport)
    ensures store.State() == Sent(old(store.State()), CacheWriteRequest(table, searchTerm, gifs), transport)
  {
    var requestBody := Insert(table, [CacheRecord(searchTerm, gifs)]);
    var posted := PostToDatabase(store, "adding cache for " + searchTerm, requestBody, transport);
    r := if posted.Success? then Success(()) else Failure(posted.error);
  }

  /** The body `getCacheResult` posts; the `limit` and `offset` arguments are
      accepted and ignored. */
  function CacheLookupRequest(table: string, searchTerm: string, getAttributes: seq<string>,
                              limit: int, offset: int): Request
  {
    SearchByValue("data", table, "searchTerm", searchTerm, getAttributes, 20, 0, false, false)
  }

  function CacheLookupDescription(searchTerm: string): string
  {
    "Finding cache results for searchTerm " + searchTerm
  }

  /** `getCacheResult`: the first twenty rows of the table whose `searchTerm`
      is the term, whatever `limit` and `offset` were passed. */
  method GetCacheResult(store: Store, table: string, searchTerm: string, getAttributes: seq<string>,
                        limit: int, offset: int, transport: Transport)
    returns (r: Result<seq<Row>, string>)
    ensures r == Post(store.State(), CacheLookupDescription(searchTerm),
                      CacheLookupRequest(table, searchTerm, getAttributes, 20, 0), transport)
    ensures r.Success? <==> transport.Delivered?
    ensures r.Success? ==>
      r.value == SelectAll(Window(Matching(store.State().Table(table), "searchTerm", searchTerm), 0, 20), getAttributes)
  {
    var body := CacheLookupRequest(table, searchTerm, getAttributes, limit, offset);
    r := PostToDatabase(store, CacheLookupDescription(searchTerm), body, transport);
  }
}
