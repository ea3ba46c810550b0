/** The remote record store the core talks to, reduced to in-memory tables of
    rows and the four request kinds the core sends: a full-scan SQL query, a
    search by attribute value, an insert and an upsert. Whether a request
    reaches the store is decided by a `Transport` value the caller supplies,
    one per request. */
module Store {
  import opened Basics
  import opened Giphy

  /** The store-assigned row identifier (`id`, the table's hash attribute). */
  type Key = nat

  /** A stored row: a JavaScript object whose fields may be missing. Counter
      rows use `gifId`, `counter` and `timestamp`; search-cache rows use
      `searchTerm` and `gifs` (the search resource reads `cacheValue`). */
  datatype Row = Row(
    id: Option<Key>,
    gifId: Option<string>,
    counter: Option<int>,
    timestamp: Option<string>,
    searchTerm: Option<string>,
    gifs: Option<seq<Gif>>,
    cacheValue: Option<seq<Gif>>)

  /** The object literal `{}`. */
  const EmptyRow: Row := Row(None, None, None, None, None, None, None)

  /** The JSON bodies the core posts to the store. */
  datatype Request =
    | Sql(sql: string)
    | SearchByValue(schema: string, table: string, searchAttribute: string, searchValue: string,
                    getAttributes: seq<string>, limit: int, offset: int,
                    onlyIfCached: bool, noCacheStore: bool)
    | Insert(table: string, records: seq<Row>)
    | Upsert(table: string, records: seq<Row>)
  {
    predicate IsWrite() {
      Insert? || Upsert?
    }
  }

  /** How one request to the store ends: delivered (the response is ok), a
      response whose status is not ok, or a `fetch` that rejects. */
  datatype Transport = Delivered | ErrorStatus(statusText: string) | NoConnection(message: string)

  /** The string-valued attributes a search by value can match on. */
  function TextAttribute(row: Row, name: string): Option<string>
  {
    if name == "gif_id" then row.gifId
    else if name == "searchTerm" then row.searchTerm
    else if name == "timestamp" then row.timestamp
    else None
  }

  /** The rows whose attribute equals `value`, in table order. */
  function Matching(rows: seq<Row>, attribute: string, value: string): seq<Row>
  {
    if rows == [] then []
    else (if TextAttribute(rows[0], attribute) == Some(value) then [rows[0]] else [])
         + Matching(rows[1..], attribute, value)
  }

  /** The index of the first row whose attribute equals `value`, or `|rows|`
      when there is none. */
  function FirstIndexWith(rows: seq<Row>, attribute: string, value: string): (i: nat)
    ensures i <= |rows|
    ensures forall j :: 0 <= j < i ==> TextAttribute(rows[j], attribute) != Some(value)
    ensures i < |rows| ==> TextAttribute(rows[i], attribute) == Some(value)
  {
    if rows == [] then 0
    else if TextAttribute(rows[0], attribute) == Some(value) then 0
    else 1 + FirstIndexWith(rows[1..], attribute, value)
  }

  /** The first row whose attribute equals `value`, if any. */
  function FirstWith(rows: seq<Row>, attribute: string, value: string): Option<Row>
  {
    var i := FirstIndexWith(rows, attribute, value);
    if i < |rows| then Some(rows[i]) else None
  }

  /** `offset` rows skipped, then at most `limit` rows kept. */
  function Window<T>(s: seq<T>, offset: int, limit: int): seq<T>
  {
    var from := if offset < 0 then 0 else if offset > |s| then |s| else offset;
    var rest := s[from..];
    if limit <= 0 then [] else if limit < |rest| then rest[..limit] else rest
  }

  /** A row restricted to `get_attributes`; `"*"` keeps every field. */
  function Select(row: Row, attributes: seq<string>): Row
  {
    if "*" in attributes then row
    else Row(
      if "id" in attributes then row.id else None,
      if "gif_id" in attributes then row.gifId else None,
      if "counter" in attributes then row.counter else None,
      if "timestamp" in attributes then row.timestamp else None,
      if "searchTerm" in attributes then row.searchTerm else None,
      if "gifs" in attributes then row.gifs else None,
      if "cacheValue" in attributes then row.cacheValue else None)
  }

  function SelectAll(rows: seq<Row>, attributes: seq<string>): seq<Row>
  {
    seq(|rows|, i requires 0 <= i < |rows| => Select(rows[i], attributes))
  }

  /** An update applied to a stored row: fields the update carries replace the
      stored ones, fields it leaves out keep their stored value. */
  function Merge(current: Row, update: Row): Row
  {
    Row(update.id.OrElse(current.id),
        update.gifId.OrElse(current.gifId),
        update.counter.OrElse(current.counter),
        update.timestamp.OrElse(current.timestamp),
        update.searchTerm.OrElse(current.searchTerm),
        update.gifs.OrElse(current.gifs),
        update.cacheValue.OrElse(current.cacheValue))
  }

  predicate HasKey(rows: seq<Row>, k: Key)
  {
    exists i :: 0 <= i < |rows| && rows[i].id == Some(k)
  }

  /** Every row keyed by `k` updated with `update`; the others untouched. */
  function ReplaceKeyed(rows: seq<Row>, k: Key, update: Row): seq<Row>
  {
    seq(|rows|, i requires 0 <= i < |rows| => if rows[i].id == Some(k) then Merge(rows[i], update) else rows[i])
  }

  ghost predicate KeysBelow(rows: seq<Row>, bound: Key)
  {
    forall i :: 0 <= i < |rows| ==> rows[i].id.Some? && rows[i].id.value < bound
  }

  ghost predicate DistinctKeys(rows: seq<Row>)
  {
    forall i, j :: 0 <= i < j < |rows| ==> rows[i].id != rows[j].id
  }

  /** The contents of the store: its tables (a missing table reads as empty)
      and the next identifier it will hand out. */
  datatype StoreState = StoreState(tables: map<string, seq<Row>>, nextKey: Key) {

    function Table(name: string): seq<Row>
    {
      if name in tables then tables[name] else []
    }

    function Put(name: string, rows: seq<Row>): StoreState
    {
      this.(tables := tables[name := rows])
    }

    /** Every row has an identifier, identifiers are unique within a table,
        and all of them lie below `nextKey`. */
    ghost predicate Valid()
    {
      forall name | name in tables :: KeysBelow(tables[name], nextKey) && DistinctKeys(tables[name])
    }
  }

  /** A record appended to a table, under its own identifier or, when it has
      none, under a fresh one. */
  function Append(st: StoreState, table: string, record: Row): StoreState
  {
    match record.id
    case None =>
      st.Put(table, st.Table(table) + [record.(id := Some(st.nextKey))]).(nextKey := st.nextKey + 1)
    case Some(k) =>
      st.Put(table, st.Table(table) + [record]).(nextKey := if k < st.nextKey then st.nextKey else k + 1)
  }

  /** An insert skips a record whose identifier the table already holds. */
  function InsertOne(st: StoreState, table: string, record: Row): StoreState
  {
    if record.id.Some? && HasKey(st.Table(table), record.id.value) then st
    else Append(st, table, record)
  }

  /** An upsert updates the row with the record's identifier, and inserts
      when there is no such row or no identifier at all. */
  function UpsertOne(st: StoreState, table: string, record: Row): StoreState
  {
    if record.id.Some? && HasKey(st.Table(table), record.id.value)
    then st.Put(table, ReplaceKeyed(st.Table(table), record.id.value, record))
    else Append(st, table, record)
  }

  function InsertAll(st: StoreState, table: string, records: seq<Row>): StoreState
    decreases |records|
  {
    if records == [] then st else InsertAll(InsertOne(st, table, records[0]), table, records[1..])
  }

  function UpsertAll(st: StoreState, table: string, records: seq<Row>): StoreState
    decreases |records|
  {
    if records == [] then st else UpsertAll(UpsertOne(st, table, records[0]), table, records[1..])
  }

  const ScanPrefix := "SELECT * FROM data."

  /** The table a full-scan query names, if the query is one. */
  function ScanTarget(sql: string): Option<string>
  {
    if StartsWith(sql, ScanPrefix) then Some(sql[|ScanPrefix|..]) else None
  }

  /** The rows a delivered request returns. Writes answer with no rows: the
      core ignores their acknowledgement. */
  function Answer(st: StoreState, request: Request): (r: Result<seq<Row>, Transport>)
    ensures r.Failure? ==> !r.error.Delivered?
  {
    match request
    case Sql(sql) =>
      if ScanTarget(sql).Some? then Success(st.Table(ScanTarget(sql).value))
      else Failure(ErrorStatus("Bad Request"))
    case SearchByValue(_, table, attribute, value, attributes, limit, offset, _, _) =>
      Success(SelectAll(Window(Matching(st.Table(table), attribute, value), offset, limit), attributes))
    case Insert(_, _) => Success([])
    case Upsert(_, _) => Success([])
  }

  /** The store after a delivered request. */
  function Apply(st: StoreState, request: Request): StoreState
  {
    match request
    case Insert(table, records) => InsertAll(st, table, records)
    case Upsert(table, records) => UpsertAll(st, table, records)
    case _ => st
  }

  /** What an operation of the core leaves behind: the store after it and
      the value it resolves to (or the error it throws). */
  datatype Effect<R> = Effect(after: StoreState, result: R)

  /** The store as a mutable object: every request the core posts goes
      through `Execute`, and only writes change the tables. */
  class Store {
    var tables: map<string, seq<Row>>
    var nextKey: Key

    function State(): StoreState
      reads this
    {
      StoreState(tables, nextKey)
    }

    constructor ()
      ensures State() == StoreState(map[], 0)
    {
      tables := map[];
      nextKey := 0;
    }

    method Execute(request: Request, transport: Transport) returns (r: Result<seq<Row>, Transport>)
      modifies if request.IsWrite() then {this} else {}
      ensures r == if transport.Delivered? then Answer(old(State()), request) else Failure(transport)
      ensures State() == if transport.Delivered? then Apply(old(State()), request) else old(State())
    {
      if !transport.Delivered? {
        return Failure(transport);
      }
      r := Answer(State(), request);
      if request.IsWrite() {
        var after := Apply(State(), request);
        tables, nextKey := after.tables, after.nextKey;
      }
    }
  }

  // ---------------------------------------------------------------------
  // Properties of the store model

  /** A search response (with `"*"` attributes, offset 0 and a positive limit)
      is empty exactly when no row matches, and otherwise starts with the
      first matching row of the table. */
  lemma {:induction false} SearchStartsWithFirstMatch(rows: seq<Row>, attribute: string, value: string,
                                                       attributes: seq<string>, limit: int)
    requires "*" in attributes && limit > 0
    ensures var response := SelectAll(Window(Matching(rows, attribute, value), 0, limit), attributes);
            var i := FirstIndexWith(rows, attribute, value);
            (|response| > 0 <==> i < |rows|) && (i < |rows| ==> response[0] == rows[i])
  {
    MatchingStartsWithFirst(rows, attribute, value);
  }

  lemma {:induction false} MatchingStartsWithFirst(rows: seq<Row>, attribute: string, value: string)
    ensures var i := FirstIndexWith(rows, attribute, value);
            var m := Matching(rows, attribute, value);
            (|m| > 0 <==> i < |rows|) && (i < |rows| ==> m[0] == rows[i])
  {
    if rows != [] && TextAttribute(rows[0], attribute) != Some(value) {
      MatchingStartsWithFirst(rows[1..], attribute, value);
    }
  }

  /** The first match is the only index with a match and none before it. */
  lemma FirstIndexWithIs(rows: seq<Row>, attribute: string, value: string, i: nat)
    requires i < |rows| && TextAttribute(rows[i], attribute) == Some(value)
    requires forall j :: 0 <= j < i ==> TextAttribute(rows[j], attribute) != Some(value)
    ensures FirstIndexWith(rows, attribute, value) == i
  {
  }

  /** Two tables that match a search at the same positions have the same
      first match. */
  lemma FirstIndexWithAgrees(rows: seq<Row>, other: seq<Row>, attribute: string, value: string)
    requires |rows| == |other|
    requires forall j :: 0 <= j < |rows| ==>
               (TextAttribute(rows[j], attribute) == Some(value) <==> TextAttribute(other[j], attribute) == Some(value))
    ensures FirstIndexWith(rows, attribute, value) == FirstIndexWith(other, attribute, value)
  {
    var f := FirstIndexWith(rows, attribute, value);
    if f < |rows| {
      FirstIndexWithIs(other, attribute, value, f);
    }
  }

  /** With distinct identifiers, updating the rows keyed like row `i` touches
      row `i` only. */
  lemma ReplaceKeyedAt(rows: seq<Row>, i: nat, update: Row)
    requires DistinctKeys(rows) && i < |rows| && rows[i].id.Some?
    ensures ReplaceKeyed(rows, rows[i].id.value, update) == rows[i := Merge(rows[i], update)]
  {
  }

  lemma AppendKeepsValid(st: StoreState, table: string, record: Row)
    requires st.Valid()
    requires record.id.Some? ==> !HasKey(st.Table(table), record.id.value)
    ensures Append(st, table, record).Valid()
  {
    var after := Append(st, table, record);
    forall name | name in after.tables
      ensures KeysBelow(after.tables[name], after.nextKey) && DistinctKeys(after.tables[name])
    {
      if name != table {
        assert after.tables[name] == st.tables[name];
      }
    }
  }

  lemma UpsertOneKeepsValid(st: StoreState, table: string, record: Row)
    requires st.Valid()
    ensures UpsertOne(st, table, record).Valid()
  {
    if record.id.Some? && HasKey(st.Table(table), record.id.value) {
      var after := UpsertOne(st, table, record);
      var rows := st.Table(table);
      var replaced := ReplaceKeyed(rows, record.id.value, record);
      assert forall i :: 0 <= i < |rows| ==> replaced[i].id == rows[i].id;
      forall name | name in after.tables
        ensures KeysBelow(after.tables[name], after.nextKey) && DistinctKeys(after.tables[name])
      {
        if name != table {
          assert after.tables[name] == st.tables[name];
        }
      }
    } else {
      AppendKeepsValid(st, table, record);
    }
  }

  lemma InsertOneKeepsValid(st: StoreState, table: string, record: Row)
    requires st.Valid()
    ensures InsertOne(st, table, record).Valid()
  {
    if !(record.id.Some? && HasKey(st.Table(table), record.id.value)) {
      AppendKeepsValid(st, table, record);
    }
  }

  /** Every request leaves a valid store valid. */
  lemma {:induction false} ApplyKeepsValid(st: StoreState, request: Request)
    requires st.Valid()
    ensures Apply(st, request).Valid()
  {
    match request
    case Insert(table, records) => InsertAllKeepsValid(st, table, records);
    case Upsert(table, records) => UpsertAllKeepsValid(st, table, records);
    case _ =>
  }

  lemma {:induction false} InsertAllKeepsValid(st: StoreState, table: string, records: seq<Row>)
    requires st.Valid()
    ensures InsertAll(st, table, records).Valid()
    decreases |records|
  {
    if records != [] {
      InsertOneKeepsValid(st, table, records[0]);
      InsertAllKeepsValid(InsertOne(st, table, records[0]), table, records[1..]);
    }
  }

  lemma {:induction false} UpsertAllKeepsValid(st: StoreState, table: string, records: seq<Row>)
    requires st.Valid()
    ensures UpsertAll(st, table, records).Valid()
    decreases |records|
  {
    if records != [] {
      UpsertOneKeepsValid(st, table, records[0]);
      UpsertAllKeepsValid(UpsertOne(st, table, records[0]), table, records[1..]);
    }
  }
}
