/** The get-by-id resource: validates the id, asks the upstream API for the
    record and, for requests from outside the system, bumps the id's row in
    the `GifCounter` ledger before answering. */
module GifByIdResource {
  import opened Basics
  import opened Giphy
  import opened Store
  import Utils

  const CounterTable := "GifCounter"
  const IdRequired := "Gif ID is required to fetch a Gif"
  const FetchFailed := "Failed to fetch Gif: "

  /** The two ledger requests of one increment, how each ends, and the
      timestamp (`new Date().toISOString()`) it writes. */
  datatype CounterIO = CounterIO(read: Transport, write: Transport, now: string)

  /** The search-by-value body `getGifCounter` posts. */
  function CounterLookupRequest(gifId: string): Request
  {
    SearchByValue("data", CounterTable, "gif_id", gifId, ["*"], 20, 0, false, false)
  }

  /** The error `getGifCounter`'s own request throws: the status text after
      the table name, or the rejection's own message. */
  function CounterLookupFailure(fault: Transport): string
    requires !fault.Delivered?
  {
    match fault
    case ErrorStatus(statusText) => "Error fetching data from " + CounterTable + ": " + statusText
    case NoConnection(message) => message
  }

  /** What `getGifCounter` resolves to: the first ledger row for the id, or
      `{}` when there is none. */
  function CounterRecord(st: StoreState, gifId: string, read: Transport): (r: Result<Row, string>)
    ensures r.Success? <==> read.Delivered?
    ensures r.Success? ==> r.value == FirstWith(st.Table(CounterTable), "gif_id", gifId).GetOr(EmptyRow)
    ensures r.Failure? ==> r.error == CounterLookupFailure(read)
  {
    if !read.Delivered? then Failure(CounterLookupFailure(read))
    else
      var rows := st.Table(CounterTable);
      SearchStartsWithFirstMatch(rows, "gif_id", gifId, ["*"], 20);
      var json := Answer(st, CounterLookupRequest(gifId)).value;
      Success(if |json| > 0 then json[0] else EmptyRow)
  }

  /** `counter ? counter : 0`: a missing or zero counter counts as 0. */
  function CurrentCount(found: Row): int
  {
    if found.counter.Some? && found.counter.value != 0 then found.counter.value else 0
  }

  /** The count the ledger holds for an id: that of its first row, 0 if none. */
  function Count(st: StoreState, gifId: string): int
  {
    CurrentCount(FirstWith(st.Table(CounterTable), "gif_id", gifId).GetOr(EmptyRow))
  }

  /** The record `incrementGifCounter` upserts. The guard `gifCounter !== {}`
      compares two distinct objects and always holds, so the found row's `id`
      is always carried over, and is absent when nothing was found. */
  function CounterUpdate(found: Row, gifId: string, now: string): Row
  {
    EmptyRow.(gifId := Some(gifId), timestamp := Some(now), counter := Some(CurrentCount(found) + 1), id := found.id)
  }

  function IncrementDescription(gifId: string, newCount: int): string
  {
    "incremented counter for Gif ID: " + gifId + " to " + IntToString(newCount)
  }

  /** `incrementGifCounter(gifId)`: the store afterwards and whether it threw.
      A failed increment writes nothing. */
  function Increment(st: StoreState, gifId: string, io: CounterIO): (e: Effect<Result<(), string>>)
    ensures e.result.Success? <==> io.read.Delivered? && io.write.Delivered?
    ensures e.result.Failure? ==> e.after == st
  {
    match CounterRecord(st, gifId, io.read)
    case Failure(error) => Effect(st, Failure(error))
    case Success(found) =>
      var record := CounterUpdate(found, gifId, io.now);
      var request := Upsert(CounterTable, [record]);
      var posted := Utils.Post(st, IncrementDescription(gifId, record.counter.value), request, io.write);
      Effect(Utils.Sent(st, request, io.write), if posted.Success? then Success(()) else Failure(posted.error))
  }

  /** The get-by-id path without the ledger: validation, then the upstream
      request; `data.data || null` is the optional record. */
  function Resolve(id: string, giphy: string -> Reply<ByIdPayload>): (r: Result<Option<GiphyRecord>, string>)
    ensures id == "" ==> r == Failure(IdRequired)
    ensures r.Success? <==> id != "" && giphy(id).Payload?
    ensures r.Success? ==> r.value == giphy(id).body.data
    ensures id != "" && r.Failure? ==> StartsWith(r.error, FetchFailed)
  {
    if id == "" then Failure(IdRequired)
    else
      var message := match giphy(id)
        case Payload(body) => ""
        case NotOk(statusText) => FetchFailed + "GifByID Giphy API error: " + statusText
        case Unreachable(reason) => FetchFailed + reason;
      assert message != "" ==> message[..|FetchFailed|] == FetchFailed;
      if giphy(id).Payload? then Success(giphy(id).body.data) else Failure(message)
  }

  /** The get-by-id path of an external request: the upstream answer, then
      one increment of the id's ledger row; a failed increment fails the
      request, wrapped like an upstream failure. */
  function CountedGet(st: StoreState, id: string, giphy: string -> Reply<ByIdPayload>, io: CounterIO)
    : (e: Effect<Result<Option<GiphyRecord>, string>>)
    ensures e.result.Success? <==> Resolve(id, giphy).Success? && io.read.Delivered? && io.write.Delivered?
    ensures e.result.Success? ==> e.result == Resolve(id, giphy) && e.after == Increment(st, id, io).after
    ensures e.result.Failure? ==> e.after == st
    ensures id != "" && e.result.Failure? ==> StartsWith(e.result.error, FetchFailed)
  {
    match Resolve(id, giphy)
    case Failure(error) => Effect(st, Failure(error))
    case Success(data) =>
      var counted := Increment(st, id, io);
      if counted.result.Failure? then
        var message := FetchFailed + counted.result.error;
        assert message[..|FetchFailed|] == FetchFailed;
        Effect(counted.after, Failure(message))
      else Effect(counted.after, Success(data))
  }

  /** An external get that succeeds adds exactly one to its id's count and
      to no other; the ledger stays well formed. */
  lemma CountedGetAddsOne(st: StoreState, id: string, giphy: string -> Reply<ByIdPayload>, io: CounterIO)
    requires st.Valid()
    requires CountedGet(st, id, giphy, io).result.Success?
    ensures var after := CountedGet(st, id, giphy, io).after;
            && after.Valid()
            && Count(after, id) == Count(st, id) + 1
            && forall other :: other != id ==> Count(after, other) == Count(st, other)
  {
    IncrementAddsOne(st, id, io);
    IncrementKeepsValid(st, id, io);
  }

  /** A ledger row as an increment leaves it. */
  function CounterRow(k: Key, gifId: string, count: int, now: string): Row
  {
    EmptyRow.(id := Some(k), gifId := Some(gifId), counter := Some(count), timestamp := Some(now))
  }

  /** No row for the id yet: the increment appends one with counter 1 under
      a fresh identifier and changes no other table. */
  lemma IncrementInsertsFirstRow(st: StoreState, gifId: string, io: CounterIO)
    requires io.read.Delivered? && io.write.Delivered?
    requires FirstWith(st.Table(CounterTable), "gif_id", gifId) == None
    ensures var e := Increment(st, gifId, io);
            && e.result == Success(())
            && e.after.Table(CounterTable) == st.Table(CounterTable) + [CounterRow(st.nextKey, gifId, 1, io.now)]
            && e.after.nextKey == st.nextKey + 1
            && forall name :: name != CounterTable ==> e.after.Table(name) == st.Table(name)
  {
    var record := CounterUpdate(EmptyRow, gifId, io.now);
    var records := [record];
    assert records[1..] == [];
    assert UpsertAll(st, CounterTable, records) == UpsertOne(st, CounterTable, record);
  }

  /** A row for the id exists: the first one gets counter `CurrentCount + 1`
      and the new timestamp, in place; nothing else in the store changes. */
  lemma IncrementBumpsFirstRow(st: StoreState, gifId: string, io: CounterIO)
    requires st.Valid()
    requires io.read.Delivered? && io.write.Delivered?
    requires FirstIndexWith(st.Table(CounterTable), "gif_id", gifId) < |st.Table(CounterTable)|
    ensures var rows := st.Table(CounterTable);
            var i := FirstIndexWith(rows, "gif_id", gifId);
            var e := Increment(st, gifId, io);
            && e.result == Success(())
            && e.after.Table(CounterTable)
               == rows[i := rows[i].(counter := Some(CurrentCount(rows[i]) + 1), timestamp := Some(io.now))]
            && e.after.nextKey == st.nextKey
            && forall name :: name != CounterTable ==> e.after.Table(name) == st.Table(name)
  {
    var rows := st.Table(CounterTable);
    var i := FirstIndexWith(rows, "gif_id", gifId);
    assert CounterTable in st.tables;
    var found := rows[i];
    var k := found.id.value;
    var record := CounterUpdate(found, gifId, io.now);
    var records := [record];
    assert records[1..] == [];
    assert UpsertAll(st, CounterTable, records) == UpsertOne(st, CounterTable, record);
    assert HasKey(rows, k);
    ReplaceKeyedAt(rows, i, record);
    assert Merge(found, record) == found.(counter := Some(CurrentCount(found) + 1), timestamp := Some(io.now));
  }

  /** Increments keep the store well formed. */
  lemma IncrementKeepsValid(st: StoreState, gifId: string, io: CounterIO)
    requires st.Valid()
    ensures Increment(st, gifId, io).after.Valid()
  {
    var e := Increment(st, gifId, io);
    if e.result.Success? {
      var record := CounterUpdate(CounterRecord(st, gifId, io.read).value, gifId, io.now);
      ApplyKeepsValid(st, Upsert(CounterTable, [record]));
    }
  }

  /** The first row for the id, rewritten in place: its count goes up by one
      and no other id's count moves. */
  lemma BumpAddsOne(st: StoreState, gifId: string, io: CounterIO)
    requires st.Valid()
    requires io.read.Delivered? && io.write.Delivered?
    requires FirstIndexWith(st.Table(CounterTable), "gif_id", gifId) < |st.Table(CounterTable)|
    ensures var after := Increment(st, gifId, io).after;
            && Count(after, gifId) == Count(st, gifId) + 1
            && forall other :: other != gifId ==> Count(after, other) == Count(st, other)
  {
    var rows := st.Table(CounterTable);
    var after := Increment(st, gifId, io).after;
    var rows' := after.Table(CounterTable);
    var i := FirstIndexWith(rows, "gif_id", gifId);
    IncrementBumpsFirstRow(st, gifId, io);
    assert forall j :: 0 <= j < i ==> rows'[j] == rows[j];
    FirstIndexWithIs(rows', "gif_id", gifId, i);
    forall other | other != gifId
      ensures Count(after, other) == Count(st, other)
    {
      FirstIndexWithAgrees(rows, rows', "gif_id", other);
      var f := FirstIndexWith(rows, "gif_id", other);
      if f < |rows| {
        assert f != i;
      }
    }
  }

  /** A new row for the id, appended: its count goes from 0 to 1 and no other
      id's count moves. */
  lemma AppendAddsOne(st: StoreState, gifId: string, io: CounterIO)
    requires io.read.Delivered? && io.write.Delivered?
    requires FirstIndexWith(st.Table(CounterTable), "gif_id", gifId) == |st.Table(CounterTable)|
    ensures var after := Increment(st, gifId, io).after;
            && Count(after, gifId) == Count(st, gifId) + 1
            && forall other :: other != gifId ==> Count(after, other) == Count(st, other)
  {
    var rows := st.Table(CounterTable);
    var after := Increment(st, gifId, io).after;
    var rows' := after.Table(CounterTable);
    IncrementInsertsFirstRow(st, gifId, io);
    FirstIndexWithIs(rows', "gif_id", gifId, |rows|);
    forall other | other != gifId
      ensures Count(after, other) == Count(st, other)
    {
      var f := FirstIndexWith(rows, "gif_id", other);
      if f < |rows| {
        FirstIndexWithIs(rows', "gif_id", other, f);
      } else {
        assert FirstIndexWith(rows', "gif_id", other) == |rows'|;
      }
    }
  }

  /** One successful increment adds exactly one to the id's count and leaves
      the count of every other id as it was. */
  lemma IncrementAddsOne(st: StoreState, gifId: string, io: CounterIO)
    requires st.Valid()
    requires io.read.Delivered? && io.write.Delivered?
    ensures var after := Increment(st, gifId, io).after;
            && Count(after, gifId) == Count(st, gifId) + 1
            && forall other :: other != gifId ==> Count(after, other) == Count(st, other)
  {
    if FirstIndexWith(st.Table(CounterTable), "gif_id", gifId) < |st.Table(CounterTable)| {
      BumpAddsOne(st, gifId, io);
    } else {
      AppendAddsOne(st, gifId, io);
    }
  }

  /** The successive increments of an id, one per timestamp. */
  function Increments(st: StoreState, gifId: string, stamps: seq<string>): StoreState
    decreases |stamps|
  {
    if stamps == [] then st
    else Increment(Increments(st, gifId, stamps[..|stamps| - 1]), gifId,
                   CounterIO(Delivered, Delivered, stamps[|stamps| - 1])).after
  }

  /** The id's only row sits last: one more increment rewrites it with the
      next count and the new timestamp. */
  lemma IncrementLastRow(st: StoreState, rows: seq<Row>, k: Key, gifId: string, count: int, stamp: string, io: CounterIO)
    requires st.Valid() && count >= 1
    requires io.read.Delivered? && io.write.Delivered?
    requires FirstIndexWith(rows, "gif_id", gifId) == |rows|
    requires st.Table(CounterTable) == rows + [CounterRow(k, gifId, count, stamp)]
    ensures var after := Increment(st, gifId, io).after;
            && after.Valid()
            && after.nextKey == st.nextKey
            && after.Table(CounterTable) == rows + [CounterRow(k, gifId, count + 1, io.now)]
  {
    var table := st.Table(CounterTable);
    FirstIndexWithIs(table, "gif_id", gifId, |rows|);
    IncrementBumpsFirstRow(st, gifId, io);
    IncrementKeepsValid(st, gifId, io);
    assert table[|rows| := CounterRow(k, gifId, count + 1, io.now)] == rows + [CounterRow(k, gifId, count + 1, io.now)];
  }

  /** Starting from no row for the id, n successful increments leave one row
      for it, appended under a fresh identifier, whose counter is n and whose
      timestamp is the last one written. */
  lemma {:induction false} IncrementsCount(st: StoreState, gifId: string, stamps: seq<string>)
    requires st.Valid()
    requires FirstWith(st.Table(CounterTable), "gif_id", gifId) == None
    requires |stamps| > 0
    ensures var after := Increments(st, gifId, stamps);
            && after.Valid()
            && after.nextKey == st.nextKey + 1
            && after.Table(CounterTable)
               == st.Table(CounterTable) + [CounterRow(st.nextKey, gifId, |stamps|, stamps[|stamps| - 1])]
  {
    var n := |stamps|;
    var io := CounterIO(Delivered, Delivered, stamps[n - 1]);
    var prev := Increments(st, gifId, stamps[..n - 1]);
    assert Increments(st, gifId, stamps) == Increment(prev, gifId, io).after;
    if n == 1 {
      assert prev == st;
      IncrementInsertsFirstRow(st, gifId, io);
      IncrementKeepsValid(st, gifId, io);
    } else {
      IncrementsCount(st, gifId, stamps[..n - 1]);
      var rows := st.Table(CounterTable);
      assert stamps[..n - 1][n - 2] == stamps[n - 2];
      assert FirstIndexWith(rows, "gif_id", gifId) == |rows|;
      IncrementLastRow(prev, rows, st.nextKey, gifId, n - 1, stamps[n - 2], io);
    }
  }

  /** A ledger row as increments write it: an id and a positive counter. */
  ghost predicate LedgerRow(row: Row)
  {
    row.gifId.Some? && row.counter.Some? && row.counter.value >= 1
  }

  ghost predicate LedgerWellFormed(rows: seq<Row>)
  {
    forall i :: 0 <= i < |rows| ==> LedgerRow(rows[i])
  }

  /** Increments keep every ledger row well formed. */
  lemma IncrementKeepsLedgerWellFormed(st: StoreState, gifId: string, io: CounterIO)
    requires st.Valid() && LedgerWellFormed(st.Table(CounterTable))
    ensures LedgerWellFormed(Increment(st, gifId, io).after.Table(CounterTable))
  {
    if io.read.Delivered? && io.write.Delivered? {
      var rows := st.Table(CounterTable);
      if FirstIndexWith(rows, "gif_id", gifId) < |rows| {
        IncrementBumpsFirstRow(st, gifId, io);
      } else {
        IncrementInsertsFirstRow(st, gifId, io);
      }
    }
  }

  /** The resource instance for one id; `external` is false when another
      resource looks a record up on its own behalf. */
  class GifById {
    const id: string
    const external: bool

    constructor (id: string, external: bool)
      ensures this.id == id && this.external == external
    {
      this.id := id;
      this.external := external;
    }

    /** `get()`: the upstream record; an external request also counts it. */
    method Get(store: Store, giphy: string -> Reply<ByIdPayload>, io: CounterIO)
      returns (r: Result<Option<GiphyRecord>, string>)
      modifies if external then {store} else {}
      ensures !external ==> r == Resolve(id, giphy) && store.State() == old(store.State())
      ensures external ==> Effect(store.State(), r) == CountedGet(old(store.State()), id, giphy, io)
    {
      var gifId := id;
      if gifId == "" {
        return Failure(IdRequired);
      }
      var response := giphy(gifId);
      match response {
        case NotOk(statusText) =>
          return Failure(FetchFailed + "GifByID Giphy API error: " + statusText);
        case Unreachable(message) =>
          return Failure(FetchFailed + message);
        case Payload(data) =>
          if external {
            var counted := IncrementGifCounter(store, gifId, io);
            if counted.Failure? {
              return Failure(FetchFailed + counted.error);
            }
          }
          return Success(data.data);
      }
    }

    /** `getGifCounter(gifId)`: reads the ledger, changes nothing. */
    method GetGifCounter(store: Store, gifId: string, read: Transport) returns (r: Result<Row, string>)
      ensures r == CounterRecord(store.State(), gifId, read)
    {
      var body := CounterLookupRequest(gifId);
      var response := store.Execute(body, read);
      if response.Failure? {
        return Failure(CounterLookupFailure(response.error));
      }
      var json := response.value;
      var record := EmptyRow;
      if |json| > 0 {
        record := json[0];
      }
      r := Success(record);
    }

    /** `incrementGifCounter(gifId)`: read the id's row, then upsert it with
        the count plus one. */
    method IncrementGifCounter(store: Store, gifId: string, io: CounterIO) returns (r: Result<(), string>)
      modifies store
      ensures Effect(store.State(), r) == Increment(old(store.State()), gifId, io)
    {
      var found := GetGifCounter(store, gifId, io.read);
      if found.Failure? {
        return Failure(found.error);
      }
      var gifCounter := found.value;
      var currentCount := if gifCounter.counter.Some? && gifCounter.counter.value != 0 then gifCounter.counter.value else 0;
      var newCount := currentCount + 1;
      var record := EmptyRow.(gifId := Some(gifId), timestamp := Some(io.now), counter := Some(newCount));
      // always taken: see CounterUpdate
      record := record.(id := gifCounter.id);
      var requestBody := Upsert(CounterTable, [record]);
      var posted := Utils.PostToDatabase(store, IncrementDescription(gifId, newCount), requestBody, io.write);
      r := if posted.Success? then Success(()) else Failure(posted.error);
    }
  }
}
