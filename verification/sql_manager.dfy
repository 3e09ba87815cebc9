/**
 SQLDatabasePropertyManager: a properties cache loaded from a key/value
 table. A load replaces the cache with the rows read; a write turns the
 given entries into one batch of DELETE / INSERT / UPDATE statements,
 executed as a unit.

 The table is a sequence of rows with no key constraint, and executing a
 statement is given its SQL meaning on those rows, so that what a batch does
 can be compared with what the cache believes. Whether the database can be
 reached is the `online` flag of the database value.
 */
module SqlManager {
  import opened Reloadable

  datatype Row = Row(key: string, value: string)

  datatype Database = Database(rows: seq<Row>, online: bool)

  /** `DELETE FROM t`, `INSERT INTO t VALUES(k, v)`, `UPDATE t SET value = v WHERE key = k`. */
  datatype Stmt = DeleteAll | Insert(key: string, value: string) | Update(key: string, value: string)

  function RowKeys(rows: seq<Row>): set<string> {
    set i | 0 <= i < |rows| :: rows[i].key
  }

  /** No row after position `i` has the key of row `i`. */
  ghost predicate LastWithKey(rows: seq<Row>, i: int)
    requires 0 <= i < |rows|
  {
    forall j :: i < j < |rows| ==> rows[j].key != rows[i].key
  }

  /** The map `loadProperties` builds from a result set: each row is put in
      turn, so a later row overrides an earlier one with the same key. */
  function LoadRows(rows: seq<Row>): map<string, string>
    decreases |rows|
  {
    if |rows| == 0 then map[] else LoadRows(rows[..|rows| - 1])[rows[|rows| - 1].key := rows[|rows| - 1].value]
  }

  lemma RowKeysSnoc(init: seq<Row>, last: Row)
    ensures RowKeys(init + [last]) == RowKeys(init) + {last.key}
  {
    var rows := init + [last];
    forall x | x in RowKeys(rows)
      ensures x in RowKeys(init) + {last.key}
    {
      var i :| 0 <= i < |rows| && rows[i].key == x;
      if i < |init| {
        assert init[i] == rows[i];
      }
    }
    assert rows[|init|] == last;
    forall x | x in RowKeys(init)
      ensures x in RowKeys(rows)
    {
      var i :| 0 <= i < |init| && init[i].key == x;
      assert rows[i] == init[i];
    }
  }

  /** A load holds every key of the rows and nothing else, each bound to
      the value of the last row carrying it. */
  lemma {:induction false} LoadRowsLastWins(rows: seq<Row>)
    ensures LoadRows(rows).Keys == RowKeys(rows)
    ensures forall i :: 0 <= i < |rows| && LastWithKey(rows, i) ==> LoadRows(rows)[rows[i].key] == rows[i].value
    decreases |rows|
  {
    if |rows| > 0 {
      var init := rows[..|rows| - 1];
      var last := rows[|rows| - 1];
      assert rows == init + [last];
      LoadRowsLastWins(init);
      RowKeysSnoc(init, last);
      var m := LoadRows(rows);
      forall i | 0 <= i < |rows| && LastWithKey(rows, i)
        ensures m[rows[i].key] == rows[i].value
      {
        if i < |init| {
          assert rows[i] == init[i];
          assert LastWithKey(init, i) by {
            forall j | i < j < |init|
              ensures init[j].key != init[i].key
            {
              assert rows[j] == init[j];
            }
          }
        }
      }
    }
  }

  /** Every row with key `k` takes value `v`; the others are unchanged. */
  function SetValue(rows: seq<Row>, k: string, v: string): (r: seq<Row>)
    ensures |r| == |rows|
    ensures forall i :: 0 <= i < |rows| ==> r[i] == (if rows[i].key == k then Row(k, v) else rows[i])
  {
    seq(|rows|, i requires 0 <= i < |rows| => if rows[i].key == k then Row(k, v) else rows[i])
  }

  /** The rows after one statement. */
  function Apply(s: Stmt, rows: seq<Row>): seq<Row> {
    match s
    case DeleteAll => []
    case Insert(k, v) => rows + [Row(k, v)]
    case Update(k, v) => SetValue(rows, k, v)
  }

  /** The rows after a batch, statement by statement in order. */
  function Execute(batch: seq<Stmt>, rows: seq<Row>): seq<Row>
    decreases |batch|
  {
    if |batch| == 0 then rows else Execute(batch[1..], Apply(batch[0], rows))
  }

  lemma ExecuteSingle(s: Stmt, rows: seq<Row>)
    ensures Execute([s], rows) == Apply(s, rows)
  {
    assert [s][1..] == [];
  }

  lemma LoadAppend(rows: seq<Row>, k: string, v: string)
    ensures LoadRows(rows + [Row(k, v)]) == LoadRows(rows)[k := v]
  {
    assert (rows + [Row(k, v)])[..|rows|] == rows;
  }

  /** An UPDATE rebinds its key when the table has it and does nothing
      otherwise. */
  lemma {:induction false} LoadSetValue(rows: seq<Row>, k: string, v: string)
    ensures LoadRows(SetValue(rows, k, v)) ==
            if k in LoadRows(rows) then LoadRows(rows)[k := v] else LoadRows(rows)
    decreases |rows|
  {
    if |rows| > 0 {
      var n := |rows|;
      var init := rows[..n - 1];
      var updated := SetValue(rows, k, v);
      assert updated[..n - 1] == SetValue(init, k, v);
      LoadSetValue(init, k, v);
    }
  }

  /** `order` lists every key of `m` exactly once: the iteration order of
      the entry set, which the Java map leaves unspecified. */
  predicate Enumerates(order: seq<string>, m: map<string, string>) {
    && (forall i :: 0 <= i < |order| ==> order[i] in m)
    && (forall k :: k in m ==> k in order)
    && (forall i, j :: 0 <= i < j < |order| ==> order[i] != order[j])
  }

  lemma {:induction false} EnumerationSize(order: seq<string>, m: map<string, string>)
    requires Enumerates(order, m)
    ensures |order| == |m|
    decreases |order|
  {
    if |order| > 0 {
      var m' := m - {order[0]};
      assert Enumerates(order[1..], m') by {
        forall k | k in m'
          ensures k in order[1..]
        {
          var i :| 0 <= i < |order| && order[i] == k;
          assert i != 0;
        }
      }
      EnumerationSize(order[1..], m');
    }
  }

  /** The entries of `m` whose keys occur in `order`. */
  function Restrict(m: map<string, string>, order: seq<string>): map<string, string> {
    map k | k in m && k in order :: m[k]
  }

  /** The statement for one entry: an UPDATE when the key counts as
      existing, an INSERT otherwise. */
  function StmtFor(existing: set<string>, k: string, v: string): Stmt {
    if k in existing then Update(k, v) else Insert(k, v)
  }

  /** One statement per key of `order`, in that order, carrying the key's
      value in `m`. */
  function EntryStmts(existing: set<string>, m: map<string, string>, order: seq<string>): (batch: seq<Stmt>)
    requires forall i :: 0 <= i < |order| ==> order[i] in m
    ensures |batch| == |order|
    ensures forall i :: 0 <= i < |order| ==> batch[i] == StmtFor(existing, order[i], m[order[i]])
    decreases |order|
  {
    if |order| == 0 then []
    else [StmtFor(existing, order[0], m[order[0]])] + EntryStmts(existing, m, order[1..])
  }

  /** `writeToDB`: with `refresh`, one DELETE followed by one INSERT per
      entry; without, one statement per entry, an UPDATE exactly when the
      cache holds the key at call time and an INSERT otherwise. The entries
      are visited in `order`, so each key of `m` gets exactly one statement. */
  function WriteToDb(cache: map<string, string>, m: map<string, string>, order: seq<string>, refresh: bool)
    : (batch: seq<Stmt>)
    requires Enumerates(order, m)
    ensures refresh ==> |batch| == |order| + 1 == |m| + 1 && batch[0] == DeleteAll
    ensures refresh ==> forall i :: 0 <= i < |order| ==> batch[i + 1] == Insert(order[i], m[order[i]])
    ensures !refresh ==> |batch| == |order| == |m|
    ensures !refresh ==> forall i :: 0 <= i < |order| ==>
      batch[i] == (if order[i] in cache then Update(order[i], m[order[i]]) else Insert(order[i], m[order[i]]))
  {
    EnumerationSize(order, m);
    if refresh then [DeleteAll] + EntryStmts({}, m, order) else EntryStmts(cache.Keys, m, order)
  }

  lemma RestrictCons(loaded: map<string, string>, m: map<string, string>, order: seq<string>)
    requires 0 < |order| && order[0] in m
    ensures loaded[order[0] := m[order[0]]] + Restrict(m, order[1..]) == loaded + Restrict(m, order)
  {
    var k := order[0];
    assert forall x :: x in order <==> x == k || x in order[1..] by {
      assert order == [k] + order[1..];
    }
    var lhs := loaded[k := m[k]] + Restrict(m, order[1..]);
    var rhs := loaded + Restrict(m, order);
    assert lhs.Keys == rhs.Keys;
    forall x | x in lhs
      ensures lhs[x] == rhs[x]
    {
    }
  }

  /** Executing the statements for `order` rebinds each of its keys to its
      value in `m`, as long as every key that gets an UPDATE is in the
      table: an UPDATE of a missing key would be lost. */
  lemma {:induction false} ExecuteEntries(existing: set<string>, m: map<string, string>, order: seq<string>, rows: seq<Row>)
    requires forall i :: 0 <= i < |order| ==> order[i] in m
    requires existing <= LoadRows(rows).Keys
    ensures LoadRows(Execute(EntryStmts(existing, m, order), rows)) == LoadRows(rows) + Restrict(m, order)
    decreases |order|
  {
    var loaded := LoadRows(rows);
    if |order| == 0 {
      assert Restrict(m, order) == map[];
      assert loaded + map[] == loaded;
    } else {
      var k := order[0];
      var batch := EntryStmts(existing, m, order);
      var rest := EntryStmts(existing, m, order[1..]);
      assert batch[1..] == rest;
      var rows1 := Apply(batch[0], rows);
      assert Execute(batch, rows) == Execute(rest, rows1);
      if k in existing {
        LoadSetValue(rows, k, m[k]);
      } else {
        LoadAppend(rows, k, m[k]);
      }
      assert LoadRows(rows1) == loaded[k := m[k]];
      ExecuteEntries(existing, m, order[1..], rows1);
      RestrictCons(loaded, m, order);
    }
  }

  lemma RestrictAll(m: map<string, string>, order: seq<string>)
    requires Enumerates(order, m)
    ensures Restrict(m, order) == m
  {
  }

  /** A refreshing batch leaves a table that loads as exactly `m`. */
  lemma ReplaceBatchLoads(cache: map<string, string>, m: map<string, string>, order: seq<string>, rows: seq<Row>)
    requires Enumerates(order, m)
    ensures LoadRows(Execute(WriteToDb(cache, m, order, true), rows)) == m
  {
    var batch := WriteToDb(cache, m, order, true);
    var entries := EntryStmts({}, m, order);
    assert batch == [DeleteAll] + entries;
    assert batch[1..] == entries;
    assert Execute(batch, rows) == Execute(entries, []);
    ExecuteEntries({}, m, order, []);
    RestrictAll(m, order);
    var empty: seq<Row> := [];
    assert LoadRows(empty) == map[];
    assert map[] + m == m;
  }

  /** An upsert batch built against a cache whose keys are all in the table
      leaves a table that loads as the old contents with `m` laid over them. */
  lemma UpsertBatchLoads(cache: map<string, string>, m: map<string, string>, order: seq<string>, rows: seq<Row>)
    requires Enumerates(order, m)
    requires cache.Keys <= LoadRows(rows).Keys
    ensures LoadRows(Execute(WriteToDb(cache, m, order, false), rows)) == LoadRows(rows) + m
  {
    ExecuteEntries(cache.Keys, m, order, rows);
    assert Restrict(m, order) == m;
  }

  /** The manager's state. Construction rejects null strategies, so they
      are plain values here. */
  datatype Manager = Manager(
    reload: ReloadStrategy,
    update: UpdateStrategy,
    cache: map<string, string>,
    schedule: Option<string>)

  /** The outcome of a write: the manager, the database afterwards, the
      batch submitted (empty when none was), and success or the exception. */
  datatype Step = Step(state: Manager, db: Database, sent: seq<Stmt>, result: Result<(), Error>)

  /** The cache holds what a load of the table would give. */
  ghost predicate Synced(st: Manager, db: Database) {
    st.cache == LoadRows(db.rows)
  }

  predicate ValidName(name: Option<string>) {
    name.Some? && |name.value| > 0
  }

  /** The constructor with an explicit interval. The names are checked
      first, then the strategies, then the initial load runs; only after it
      is an interval below one rejected, and only under INTERVAL. */
  function Construct(table: Option<string>, keyColumn: Option<string>, valueColumn: Option<string>, db: Database,
                     reload: Option<ReloadStrategy>, update: Option<UpdateStrategy>, interval: int)
    : (r: Result<Manager, Error>)
    ensures !(ValidName(table) && ValidName(keyColumn) && ValidName(valueColumn)) ==>
      r == Err(PropertyException(InvalidNames))
    ensures ValidName(table) && ValidName(keyColumn) && ValidName(valueColumn) && reload.None? ==>
      r == Err(PropertyException(NullReloadStrategy))
    ensures ValidName(table) && ValidName(keyColumn) && ValidName(valueColumn) && reload.Some? && update.None? ==>
      r == Err(PropertyException(NullUpdateStrategy))
    ensures (ValidName(table) && ValidName(keyColumn) && ValidName(valueColumn) && reload.Some? && update.Some? &&
             !db.online) ==> r == Err(PropertyException(SourceUnreadable))
    ensures (ValidName(table) && ValidName(keyColumn) && ValidName(valueColumn) && update.Some? && db.online &&
             reload == Some(Interval) && interval < 1) ==> r == Err(PropertyException(IntervalBelowOne))
    ensures r.Ok? <==> ValidName(table) && ValidName(keyColumn) && ValidName(valueColumn) && reload.Some? &&
                       update.Some? && db.online && (reload == Some(Interval) ==> 1 <= interval)
    ensures r.Ok? ==> Synced(r.value, db) && Some(r.value.reload) == reload && Some(r.value.update) == update
    ensures r.Ok? ==> (r.value.schedule.Some? <==> reload == Some(Interval))
    ensures r.Ok? && reload == Some(Interval) ==> 1 <= interval && r.value.schedule == Some(SchedulePattern(interval))
  {
    if !(ValidName(table) && ValidName(keyColumn) && ValidName(valueColumn)) then
      Err(PropertyException(InvalidNames))
    else if reload.None? then Err(PropertyException(NullReloadStrategy))
    else if update.None? then Err(PropertyException(NullUpdateStrategy))
    else if !db.online then Err(PropertyException(SourceUnreadable))
    else
      var cache := LoadRows(db.rows);
      if reload.value == Interval then
        if interval < 1 then Err(PropertyException(IntervalBelowOne))
        else Ok(Manager(reload.value, update.value, cache, Some(SchedulePattern(interval))))
      else
        Ok(Manager(reload.value, update.value, cache, None))
  }

  /** `loadProperties` as the scheduled task runs it: the cache is replaced
      by exactly the rows read, or the task fails and the cache stays. */
  function Reload(st: Manager, db: Database): (r: Reply<Manager, ()>)
    ensures r.result.Ok? <==> db.online
    ensures r.result.Ok? ==> Synced(r.state, db)
    ensures r.state.(cache := st.cache) == st
    ensures r.result.Err? ==> r.state == st && r.result.error == RuntimeException(SourceUnreadable)
  {
    if db.online then Reply(st.(cache := LoadRows(db.rows)), Ok(()))
    else Reply(st, Err(RuntimeException(SourceUnreadable)))
  }

  /** `getProperty`: the cached value or null, with no look at the table. */
  function GetProperty(st: Manager, key: string): (r: Option<string>)
    ensures r.Some? <==> key in st.cache
    ensures r.Some? ==> r.value == st.cache[key]
  {
    Lookup(st.cache, key)
  }

  /** `getProperties`: a copy of the cache. */
  function GetProperties(st: Manager): (r: map<string, string>)
    ensures forall k :: GetProperty(st, k) == Lookup(r, k)
  {
    st.cache
  }

  /** `setProperty` as written: the cache takes the new entry before the
      batch is built, so the membership test always finds the key and the
      batch is a single UPDATE, even for a key the table does not have. */
  function SetProperty(st: Manager, db: Database, key: string, value: string): (r: Step)
    ensures st.update == External ==> r == Step(st, db, [], Ok(()))
    ensures st.update == Internal ==>
      && r.state.cache.Keys == st.cache.Keys + {key}
      && r.state.cache[key] == value
      && (forall k :: k in st.cache && k != key ==> r.state.cache[k] == st.cache[k])
    ensures r.state.(cache := st.cache) == st
    ensures st.update == Internal && db.online ==>
      r.result == Ok(()) && r.sent == [Update(key, value)] && r.db.rows == SetValue(db.rows, key, value)
    ensures st.update == Internal && !db.online ==>
      r.result == Err(PropertyException(WriteFailed)) && r.sent == [] && r.db == db
  {
    if st.update == External then Step(st, db, [], Ok(()))
    else
      var st' := st.(cache := st.cache[key := value]);
      if db.online then
        var batch := WriteToDb(st'.cache, map[key := value], [key], false);
        assert batch == [Update(key, value)];
        ExecuteSingle(batch[0], db.rows);
        Step(st', db.(rows := Execute(batch, db.rows)), batch, Ok(()))
      else
        Step(st', db, [], Err(PropertyException(WriteFailed)))
  }

  /** The membership test placed before the cache update, as the upsert of
      `setProperties` has it: a new key is INSERTed and so reaches the table. */
  function SetPropertyIntended(st: Manager, db: Database, key: string, value: string): (r: Step)
    ensures st.update == External ==> r == Step(st, db, [], Ok(()))
    ensures st.update == Internal ==> r.state.cache == st.cache[key := value]
    ensures r.state.(cache := st.cache) == st
    ensures st.update == Internal && db.online ==>
      && r.result == Ok(())
      && r.sent == [if key in st.cache then Update(key, value) else Insert(key, value)]
      && r.db == db.(rows := Execute(r.sent, db.rows))
    ensures st.update == Internal && !db.online ==>
      r.result == Err(PropertyException(WriteFailed)) && r.sent == [] && r.db == db
  {
    if st.update == External then Step(st, db, [], Ok(()))
    else
      var st' := st.(cache := st.cache[key := value]);
      if db.online then
        var batch := WriteToDb(st.cache, map[key := value], [key], false);
        Step(st', db.(rows := Execute(batch, db.rows)), batch, Ok(()))
      else
        Step(st', db, [], Err(PropertyException(WriteFailed)))
  }

  /** The intended `setProperty` keeps the cache equal to what a reload
      would read back. */
  lemma SetPropertyIntendedKeepsSynced(st: Manager, db: Database, key: string, value: string)
    requires Synced(st, db) && db.online
    ensures var r := SetPropertyIntended(st, db, key, value);
            Synced(r.state, r.db) && Reload(r.state, r.db).state == r.state
  {
    if st.update == Internal {
      var m := map[key := value];
      UpsertBatchLoads(st.cache, m, [key], db.rows);
      assert st.cache + m == st.cache[key := value];
    }
  }

  /** The lost write: on an empty, reachable table, `setProperty("a", "1")`
      caches `a=1`, sends only an UPDATE that matches no row, and the next
      reload forgets `a`. The intended version keeps cache and table in step. */
  lemma SetPropertyLosesNewKey()
    ensures var st := Manager(NoReload, Internal, map[], None);
            var db := Database([], true);
            var asWritten := SetProperty(st, db, "a", "1");
            var intended := SetPropertyIntended(st, db, "a", "1");
            && asWritten.state.cache == map["a" := "1"]
            && asWritten.sent == [Update("a", "1")]
            && Reload(asWritten.state, asWritten.db).state.cache == map[]
            && Reload(intended.state, intended.db).state.cache == map["a" := "1"]
  {
    var st := Manager(NoReload, Internal, map[], None);
    var db := Database([], true);
    var asWritten := SetProperty(st, db, "a", "1");
    assert asWritten.db.rows == [];
    var intended := SetPropertyIntended(st, db, "a", "1");
    SetPropertyIntendedKeepsSynced(st, db, "a", "1");
  }

  /** `setProperties`: does nothing under EXTERNAL. Otherwise the cache is
      cleared first when `refresh` holds; the batch is sent; and only when
      it succeeds does the cache take the entries of `m`. A failed write
      therefore leaves the cache as it was, or empty after a refresh. */
  function SetProperties(st: Manager, db: Database, m: map<string, string>, order: seq<string>, refresh: bool)
    : (r: Step)
    requires Enumerates(order, m)
    ensures st.update == External ==> r == Step(st, db, [], Ok(()))
    ensures r.state.(cache := st.cache) == st
    ensures st.update == Internal && db.online ==>
      && r.result == Ok(())
      && r.sent == WriteToDb(st.cache, m, order, refresh)
      && r.db == db.(rows := Execute(r.sent, db.rows))
      && (refresh ==> r.state.cache == m)
      && (!refresh ==> Upserted(st.cache, m, r.state.cache))
    ensures st.update == Internal && !db.online ==>
      && r.result == Err(PropertyException(WriteFailed))
      && r.sent == [] && r.db == db
      && r.state.cache == (if refresh then map[] else st.cache)
  {
    if st.update == External then Step(st, db, [], Ok(()))
    else
      var kept := if refresh then map[] else st.cache;
      if db.online then
        var batch := WriteToDb(kept, m, order, refresh);
        // a refreshing batch does not consult the cache
        assert batch == WriteToDb(st.cache, m, order, refresh);
        Step(st.(cache := Written(st.cache, m, refresh)), db.(rows := Execute(batch, db.rows)), batch, Ok(()))
      else
        Step(st.(cache := kept), db, [], Err(PropertyException(WriteFailed)))
  }

  /** A successful `setProperties` on an INTERNAL manager keeps the cache
      equal to what a reload would read back; with `refresh` this holds
      whatever the cache held before. */
  lemma SetPropertiesKeepsSynced(st: Manager, db: Database, m: map<string, string>, order: seq<string>, refresh: bool)
    requires Enumerates(order, m)
    requires st.update == Internal && db.online
    requires refresh || Synced(st, db)
    ensures var r := SetProperties(st, db, m, order, refresh);
            Synced(r.state, r.db) && Reload(r.state, r.db).state == r.state
  {
    var r := SetProperties(st, db, m, order, refresh);
    if refresh {
      ReplaceBatchLoads(map[], m, order, db.rows);
      assert r.db.rows == Execute(WriteToDb(map[], m, order, true), db.rows);
      assert map[] + m == m;
    } else {
      UpsertBatchLoads(st.cache, m, order, db.rows);
      assert r.db.rows == Execute(WriteToDb(st.cache, m, order, false), db.rows);
    }
  }

  /** After `setProperty(k, v)` on an INTERNAL manager, `getProperty(k)`
      answers `v`, whether or not the write reached the table. */
  lemma SetThenGet(st: Manager, db: Database, key: string, value: string)
    requires st.update == Internal
    ensures GetProperty(SetProperty(st, db, key, value).state, key) == Some(value)
  {
  }

  /** `close`: the scheduled reload, if any, is dropped. */
  function Close(st: Manager): (r: Manager)
    ensures r.schedule == None && r.(schedule := st.schedule) == st
  {
    st.(schedule := None)
  }
}
