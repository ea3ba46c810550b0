# giphy-cache: a verified model of the counter, cache and ranking pipeline

giphy-cache is a small service in front of the GIPHY API. It has four resources:

- **get by id**: fetches one GIF (given a working configuration; see "## Left out"). A request from outside the system also adds one to that GIF's read counter in the `GifCounter` table.
- **search**: a cache-aside search over the `GifSearchCache` table.
- **rankings**: lists every counted GIF, most read first.
- **relevancy search**: a search whose hits are re-ordered by their read counters.

The remote record store (HarperDB) is modelled as in-memory tables of rows (`Store.StoreState`). It is held by a mutable `Store.Store` object that accepts the four request kinds the core posts: a full-scan SQL query, a search by value, an insert and an upsert.

- Whether a request reaches the store is a `Transport` argument: delivered, a status that is not ok, or a rejected `fetch`.
- The GIPHY API is an oracle: a function from the requested id or search term to a `Reply`. "Makes no upstream call" is stated as "the result does not depend on the oracle".
- Each resource's `get` is a method that changes the store step by step. Each is proved equal to a function of the store before the call (`Resolve`/`CountedGet`, `Search`, `Rankings`, `Relevance`), and the promised properties are lemmas about those functions.
- Both in-place `.sort` calls are one stable insertion sort on an array, `Ordering.SortInPlace`. It is proved equal to a reference sort on sequences, and that reference sort is proved ordered, a permutation and stable.

Three behaviours of the code are modelled as written:

- The search cache stores its hits in the field `gifs` (utils.js:49). The hit test reads `cacheValue` (dataResources/gifsSearch.js:26). So rows the core writes itself never produce a hit (`GifsSearchResource.RepeatedSearchRefetches`).
- In the rankings lookup, the `try` returns the lookup's promise without `await` (dataResources/gifRankings.js:19-23). So one failed lookup fails the whole ranking (`GifRankingsResource.RankingsSucceed`).
- In `incrementGifCounter`, the guard `gifCounter !== {}` is always true. So the found row's `id` is always copied into the upsert, and when there is no row it is absent, which makes the upsert an insert.

## Model

| member | source | states |
|---|---|---|
| Basics.JoinAppend | utils.js:16-18 | the select list keeps the attributes in their given order: one more attribute lands at the end, after one more ", " |
| Store.Store.Execute | utils.js:59-71 | a request that reaches the store returns the store's answer and, only for a write, changes the tables; a request that does not reach it fails with its status or rejection and changes nothing |
| Store.SearchStartsWithFirstMatch | dataResources/gifById.js:88-96 | a search-by-value response is non-empty exactly when some row matches, and then its first element is the table's first matching row |
| Store.ApplyKeepsValid | dataResources/gifById.js:126-131 | inserts and upserts keep every row identified, identifiers unique within a table, and all below the next fresh identifier |
| Utils.ScanReadsWholeTable | utils.js:16-24 | the attribute-less scan query is exactly `SELECT * FROM data.<table>` for that table, and the store answers it with every row of the table |
| Utils.PostFailure | utils.js:69-78 | a failed post's message starts with "Failed <description>: " |
| Utils.Post | utils.js:57-79 | a post fails exactly when the request is not delivered or is refused; otherwise it resolves to the store's answer |
| Utils.PostToDatabase | utils.js:57-79 | resolves as `Post` does, and the store changes only by a delivered write |
| Utils.FetchAllRecords | utils.js:15-26 | succeeds exactly when the request is delivered, then returns every row of the table; changes nothing |
| Utils.CacheWriteAppendsRow | utils.js:44-55 | caching a result appends exactly one row `{searchTerm, gifs}` under a fresh identifier and leaves every other table alone |
| Utils.CacheWriteTwiceAddsTwoRows | utils.js:45-54 | the cache write is an insert, not an upsert: caching the same result twice leaves two rows |
| Utils.CacheSearchResult | utils.js:44-55 | succeeds exactly when delivered; a failure carries the "Failed adding cache for <term>: " message and writes nothing |
| Utils.GetCacheResult | utils.js:81-99 | returns the first twenty rows of the table whose `searchTerm` is the term, whatever `limit` and `offset` were passed; changes nothing |
| GifByIdResource.CounterRecord | dataResources/gifById.js:55-100 | the counter lookup succeeds exactly when delivered, and returns the first `GifCounter` row for the id, or `{}` when there is none; otherwise it fails with "Error fetching data from GifCounter: <statusText>", or with the rejection's own message when the request never reaches the store |
| GifByIdResource.Increment | dataResources/gifById.js:108-133 | an increment succeeds exactly when both its read and its write are delivered; a failed increment writes nothing |
| GifByIdResource.IncrementInsertsFirstRow | dataResources/gifById.js:110-131 | with no row for the id, the increment appends one row with counter 1 under a fresh identifier and changes nothing else |
| GifByIdResource.IncrementBumpsFirstRow | dataResources/gifById.js:110-131 | with a row for the id, the first such row gets counter (its counter, or 0 if absent or 0) plus 1 and the new timestamp, in place; nothing else changes |
| GifByIdResource.BumpAddsOne | dataResources/gifById.js:110-131 | when the id has a row, an increment adds one to its count and no other id's count changes |
| GifByIdResource.AppendAddsOne | dataResources/gifById.js:110-131 | when the id has no row, an increment makes its count 1 and no other id's count changes |
| GifByIdResource.IncrementAddsOne | dataResources/gifById.js:108-133 | one increment adds exactly one to the id's count and leaves every other id's count unchanged |
| GifByIdResource.IncrementsCount | dataResources/gifById.js:108-131 | n successive increments of an id with no row leave a single new row for it with counter n and the last timestamp |
| GifByIdResource.IncrementLastRow | dataResources/gifById.js:110-131 | an increment of an id whose only row is the table's last bumps that row's counter by one and stamps it, in place, with no new identifier |
| GifByIdResource.IncrementKeepsValid | dataResources/gifById.js:126-131 | increments keep the store's identifiers well formed |
| GifByIdResource.IncrementKeepsLedgerWellFormed | dataResources/gifById.js:116-124 | every ledger row keeps a `gif_id` and a counter of at least 1 |
| GifByIdResource.Resolve | dataResources/gifById.js:18-53 | an empty id fails with "Gif ID is required to fetch a Gif" whatever the upstream would answer; otherwise the get succeeds exactly when the upstream answers ok, returning `data.data` or null, and fails with "Failed to fetch Gif: ..." |
| GifByIdResource.CountedGet | dataResources/gifById.js:32-52 | an external get succeeds exactly when the upstream and both ledger requests succeed; it then returns what the uncounted get returns and the store is that of one increment; any failure leaves the store unchanged, and any failure for a non-empty id carries "Failed to fetch Gif: " |
| GifByIdResource.CountedGetAddsOne | dataResources/gifById.js:41-46 | a successful external get adds exactly one to its id's count and to no other id |
| GifByIdResource.GifById.constructor | dataResources/gifById.js:13-17 | the resource keeps its id and `external` flag |
| GifByIdResource.GifById.Get | dataResources/gifById.js:18-53 | an internal get leaves the store unchanged and resolves as `Resolve`; an external get resolves and changes the store as `CountedGet` |
| GifByIdResource.GifById.GetGifCounter | dataResources/gifById.js:55-100 | resolves as `CounterRecord` and changes nothing |
| GifByIdResource.GifById.IncrementGifCounter | dataResources/gifById.js:108-133 | resolves and changes the store as `Increment` |
| GifsSearchResource.Project | dataResources/gifsSearch.js:45-49 | the projection succeeds exactly when every record can be projected; it then keeps length and order and maps each record to its id, downsized-medium url and title; otherwise it fails with the first failing record's error |
| GifsSearchResource.Search | dataResources/gifsSearch.js:19-59 | an empty term fails with "Search query param required for finding Gifs" and touches nothing; a failed cache lookup fails the search with the lookup's own "Failed Finding cache results for searchTerm <term>: ..." message, not wrapped by the search's prefix; a failed search writes nothing; a search writes nothing or exactly the cache write of the result it returns |
| GifsSearchResource.LookupSeesFirstRow | dataResources/gifsSearch.js:24-26 | the hit test reads the first cache row for the term |
| GifsSearchResource.CacheHitServesCached | dataResources/gifsSearch.js:24-29 | when the first cache row for the term has a non-empty `cacheValue`, the search returns it unchanged, whatever the upstream would answer, and writes nothing |
| GifsSearchResource.CacheMissFetches | dataResources/gifsSearch.js:35-58 | on a miss the search succeeds exactly when the upstream answer projects and the cache write is delivered; it returns that projection and appends exactly one cache row for it; an upstream failure surfaces as "Failed to fetch Giphy data: ..." |
| GifsSearchResource.SearchKeepsNoCacheValue | utils.js:44-55 | the cache rows the core writes never carry `cacheValue` |
| GifsSearchResource.RepeatedSearchRefetches | dataResources/gifsSearch.js:24-29 | when no cache row carries `cacheValue`, a search repeated right after a successful one is answered by the upstream again |
| GifsSearchResource.Get | dataResources/gifsSearch.js:19-59 | resolves and changes the store as `Search` |
| Ordering.SortDescOrdered | dataResources/gifRankings.js:32 | the descending sort is ordered by non-increasing key and a permutation of its input |
| Ordering.SortDescStable | dataResources/gifRankings.js:32 | the descending sort is stable: the elements of each key keep their input order |
| Ordering.InsertNext | dataResources/gifRankings.js:32 | one insertion step extends the sorted prefix by one element: the first i+1 cells become the reference sort of the first i+1 inputs, and the rest is untouched |
| Ordering.SortInPlace | dataResources/gifsSearchWithRelevancy.js:38-40 | sorting the array in place leaves exactly the reference descending sort of its old contents |
| GifRankingsResource.LookupAll | dataResources/gifRankings.js:30-41 | the lookups succeed exactly when every row's id resolves; each entry is then its row with the record's url; otherwise the error is that of the first row that fails |
| GifRankingsResource.LookupAllFailurePersists | dataResources/gifRankings.js:19-23 | a lookup failure is not caught: once a prefix fails, the whole sequence fails with that error |
| GifRankingsResource.RankingsSucceed | dataResources/gifRankings.js:26-54 | rankings succeed exactly when the ledger is readable and every ledger row's id resolves upstream; any failure, of the scan or of one lookup, starts with "GifRanking failed: " |
| GifRankingsResource.RankingsCorrect | dataResources/gifRankings.js:26-49 | a successful ranking holds every ledger row once, in the stable descending order of its counter, with rank i+1 at position i and the record's downsized-medium url |
| GifRankingsResource.RankingsStable | dataResources/gifRankings.js:32 | ledger rows with equal counters keep their scan order |
| GifRankingsResource.AssignRanks | dataResources/gifRankings.js:44-49 | the entries are numbered 1 to N in place, in order, and are otherwise unchanged |
| GifRankingsResource.Get | dataResources/gifRankings.js:9-55 | resolves as `Rankings` and changes nothing, counters included |
| GifRankingsResource.LookupEach | dataResources/gifRankings.js:13-24 | looking the sorted rows up one uncounted get-by-id at a time resolves as `LookupAll`: the entries in order, or the error of the first row that fails |
| GifsSearchWithRelevancyResource.SearchKeepsLedger | dataResources/gifsSearchWithRelevancy.js:17-26 | the search's cache write leaves the counter table unchanged |
| GifsSearchWithRelevancyResource.RelevanceCorrect | dataResources/gifsSearchWithRelevancy.js:14-42 | fails exactly when the search or the ledger scan fails, with the search's own error in the first case; changes the store only as the search does; on success returns a permutation of the search's hits paired with their counters, whose hits are exactly the search's hits, each hit carrying the counter of the first ledger row for its id (0 when none), by non-increasing counter |
| GifsSearchWithRelevancyResource.SortedWithCounters | dataResources/gifsSearchWithRelevancy.js:28-40 | the sorted merge has one entry per hit, holds exactly the hits, pairs each with the counter of the first ledger row for its id (0 when none), and is ordered by non-increasing counter |
| GifsSearchWithRelevancyResource.GifsOfSorted | dataResources/gifsSearchWithRelevancy.js:38-40 | sorting the scored hits keeps exactly the same hits |
| GifsSearchWithRelevancyResource.RelevanceStable | dataResources/gifsSearchWithRelevancy.js:38-40 | hits with equal counters keep their search order |
| GifsSearchWithRelevancyResource.Get | dataResources/gifsSearchWithRelevancy.js:14-42 | resolves and changes the store as `Relevance` |

## Left out

- HTTP, URL and query-string construction, the API key, the `Authorization` header, environment loading and the credential check: they are configuration and transport. The upstream is an oracle and the store is an in-memory model with a per-request `Transport`.
- JSON parsing of responses and the store's acknowledgement bodies: the model passes parsed values, and the core ignores write acknowledgements.
- `resources.js`: it registers tables with the hosting framework, and the framework enforces the 360000 ms expiration, not this code.
- Logging, including the swapped "Internal"/"External" messages: it has no effect on results.
- Concurrency: `Promise.all` is modelled as a sequential map. The lost-update race between two concurrent increments of one id cannot arise in a sequential model.
- GifRankingsResource.LookupAll: when several lookups fail, `Promise.all` rejects with the one that fails first in time. The model reports the first in sorted order.
- `dataResources/gifById.js:1` imports `getConfig` from `utils.js`, but `utils.js` exports no such function. Its fields `HARPER_DB_URL`, `AUTH_HEADER`, `GIPHY_GET_BY_ID_URL_PATH` and `GIPHY_API_KEY` (gifById.js:20-30, 56-79) are defined nowhere in `utils.js`, which has only `harperDbUrl` and `authHeader` (utils.js:12-13). As written the module cannot be linked, and neither can `gifRankings.js` and `resources.js`, which import it. The model assumes a configuration that supplies the store URL, the auth header, the API path and the API key, and models get-by-id as it would behave then.
- GifByIdResource.GifById.constructor: the defaults `id = null, external = true` (gifById.js:13) are not modelled; callers pass both. A request from outside the system is one built with `external` true, as the framework's default construction does.
- Counters are unbounded integers. In the source they are JavaScript numbers (IEEE doubles), so `currentCount + 1` (gifById.js:112-114) is exact only below 2^53, and the sort keys of gifRankings.js:32 and gifsSearchWithRelevancy.js:39 are differences of doubles. The exact "+1" of `GifByIdResource.IncrementAddsOne` and the "counter n" of `GifByIdResource.IncrementsCount` therefore hold in the source only below 2^53. A stored counter that is not an integer is not modelled.
- Timestamps from `new Date().toISOString()` are an opaque string argument.
- A `null` or `undefined` id or search term is modelled as the empty string; both are falsy, and the source treats them alike.
- GifRankingsResource.CountKey: a row without `counter` sorts as 0. In the source the comparator then returns `NaN`, and the resulting order is engine-defined.
- GifsSearchWithRelevancyResource.ScoreKey: a hit whose ledger row has no `counter` sorts as 0, for the same reason.
- GifsSearchWithRelevancyResource.Get: the `!gifs` branch cannot be taken, because the search always resolves to an array and arrays are truthy. The `order` query field is read but never used, so the model takes no such argument.
- The store's SQL engine: the model answers only the attribute-less full scan the core sends. A projecting `SELECT` is answered as a bad request.
- A missing table reads as empty.
