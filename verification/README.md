# nimo property managers, modelled in Dafny

nimo keeps string properties (a `Map<String, String>`) in memory and reloads them from a
backing store. Every store implements the `Reloadable` interface: `getProperty`,
`getProperties`, `setProperty`, `setProperties(map, refresh)` and `close`.

The file and SQL managers are configured with two strategies:

- a reload strategy: NONE, INTERVAL (a cron-scheduled reload every *n* minutes) or
  STORE_CHANGED. Only the file manager acts on STORE_CHANGED, and only together with EXTERNAL:
  a read then first reloads the file if its modification stamp is newer than the last one
  seen. The SQL manager accepts STORE_CHANGED, only logs a warning, and answers every read
  from its cache;
- an update strategy: EXTERNAL (the store is changed elsewhere, so the setters do nothing) or
  INTERNAL.

The JNDI loader has no strategies. It always schedules a periodic reload, and both of its
setters always throw.

This project models the state machine of the three managers as pure functions. Each takes a
manager state and a value describing the store, and returns the new state together with the
result or the exception raised.

- `reloadable.dfy` (module `Reloadable`) holds the shared vocabulary:
  - the two strategies, and the exceptions modelled as `Error` with a `Reason`;
  - the cron pattern `*/n * * * *`, with a proof that the interval can be read back from it;
  - the map algebra of an update: `Written`, and `Upserted` as an independent definition of
    "replace matching keys, add the others".
- `file_manager.dfy` (module `FileManager`) models `FilePropertyManager`:
  - the file at the manager's path is a `FileEntry` value (absent, a directory, or a regular
    file), with its parsed contents, its modification stamp and its permissions;
  - the staleness check of STORE_CHANGED + EXTERNAL reads;
  - the cache-only `setProperty`;
  - the `setProperties` that writes the cache first and the file afterwards, together with
    `writeToFile` as written.
- `sql_manager.dfy` (module `SqlManager`) models `SQLDatabasePropertyManager`:
  - the table is a sequence of rows;
  - a write is the batch of `Stmt`s that `writeToDB` builds;
  - executing a batch has its SQL meaning (DELETE empties the table, INSERT appends a row,
    UPDATE rewrites the matching rows);
  - so the lemmas can say what the table loads as after a write (`Synced`).
- `jndi_loader.dfy` (module `JndiLoader`) models `JNDILoader`:
  - the naming context is a map from names to bound objects, plus a reachability flag;
  - loads replace the cache;
  - both setters are unsupported.

Parameters stand for the things the code asks of its environment:
- `FileEntry` is the file system at the path;
- `Database.online` says whether a connection and statement execution succeed;
- `NamingContext` is what a JNDI lookup returns;
- `now` is the stamp of a freshly written file;
- `order` is the iteration order of the argument map's entry set. HashMap leaves that order
  unspecified, so every lemma holds for any `order` that lists each key exactly once.

## Model

| member | source | states |
|---|---|---|
| Reloadable.SchedulePattern | src/main/java/net/kush/nimo/FilePropertyManager.java:100-101 | the pattern is `*/`, the interval in decimal, then ` * * * *`; an interval of one gives exactly DEFAULT_RELOAD_INTERVAL (Reloadable.java:13) |
| Reloadable.SchedulePatternRoundTrip | src/main/java/net/kush/nimo/FilePropertyManager.java:100-101 | the interval can be parsed back out of the scheduled pattern, so distinct intervals are scheduled distinctly |
| Reloadable.Decimal | src/main/java/net/kush/nimo/FilePropertyManager.java:101 | the appended int is a non-empty string of digits with no leading zero |
| Reloadable.DecimalRoundTrip | src/main/java/net/kush/nimo/FilePropertyManager.java:101 | parsing the decimal text of a natural gives the natural back |
| Reloadable.Lookup | src/main/java/net/kush/nimo/Reloadable.java:37-45 | a key present in the map yields its value; an absent key yields null, not an error |
| Reloadable.UpsertIsOverride | src/main/java/net/kush/nimo/Reloadable.java:67-79 | "replace matching keys and add non-existing ones" holds of a map exactly when it is the old map overridden by the new entries (both directions) |
| Reloadable.Written | src/main/java/net/kush/nimo/Reloadable.java:67-79 | with refresh, the result is exactly the new map; without, it is the upsert of the new map onto the old one |
| FileManager.LoadFile | src/main/java/net/kush/nimo/FilePropertyManager.java:246-265 | succeeds exactly on a readable regular file that parses; the file's entries are laid over the cache and no cached key is removed; an unparsable file is told apart from an unopenable one |
| FileManager.Construct | src/main/java/net/kush/nimo/FilePropertyManager.java:83-117 | a path that is no regular file fails with FILE_NOT_FOUND; INTERVAL with an interval below one fails before any load; otherwise success exactly when the file reads; the cache is the file's map, with stamp 0, and a schedule exists exactly under INTERVAL and carries the interval's pattern; a failed INTERVAL load is a RuntimeException, any other failed load a PropertyException |
| FileManager.IntervalIgnoredUnlessInterval | src/main/java/net/kush/nimo/FilePropertyManager.java:94-116 | outside INTERVAL, the interval argument cannot change the outcome of construction |
| FileManager.Refresh | src/main/java/net/kush/nimo/FilePropertyManager.java:148-160 | only a STORE_CHANGED + EXTERNAL manager looks at the file, and it reloads exactly when the file's stamp is strictly newer than the last one seen; it then overlays the file and records the stamp; an unopenable file becomes a PropertyException and an unparsable one an IllegalArgumentException |
| FileManager.GetProperty | src/main/java/net/kush/nimo/FilePropertyManager.java:144-169 | any other strategy pair answers from the cache alone, whatever the file holds; after a successful check, the answer is the cached value or null; a failed check leaves the manager unchanged and raises the check's own exception (a PropertyException for an unopenable file, an IllegalArgumentException for a malformed one) |
| FileManager.GetProperties | src/main/java/net/kush/nimo/FilePropertyManager.java:176-205 | the same staleness check, then the whole cache; a failed check leaves the manager unchanged and raises the check's own exception |
| FileManager.GetPropertyAgreesWithGetProperties | src/main/java/net/kush/nimo/FilePropertyManager.java:144-205 | both reads leave the same state and fail together; the single answer is the whole map's entry for the key |
| FileManager.StaleReadReloads | src/main/java/net/kush/nimo/FilePropertyManager.java:151-155 | a watching read of a newer, parsable file answers from the cache with the file laid over it, and records the file's stamp |
| FileManager.SecondReadDoesNotReload | src/main/java/net/kush/nimo/FilePropertyManager.java:151 | after one successful read, a second read against the same file does not reload |
| FileManager.SetProperty | src/main/java/net/kush/nimo/FilePropertyManager.java:124-137 | under EXTERNAL nothing changes; otherwise the cache gains the key with the value, keeps every other key's value, and the file is not touched |
| FileManager.SetThenGet | src/main/java/net/kush/nimo/FilePropertyManager.java:124-137 | on a writable manager, `getProperty(k)` after `setProperty(k, v)` answers v |
| FileManager.WriteToFile | src/main/java/net/kush/nimo/FilePropertyManager.java:267-294 | the file is truncated before the upsert branch reads it back, so a successful write leaves exactly the new map in both modes; a failed open leaves the file alone; a failed read-back leaves it empty |
| FileManager.WriteToFileIntended | src/main/java/net/kush/nimo/Reloadable.java:67-79 | a successful refresh write leaves exactly the new map; a successful upsert write leaves the old file contents with the new map laid over them; a failure changes nothing |
| FileManager.SetProperties | src/main/java/net/kush/nimo/FilePropertyManager.java:212-239 | under EXTERNAL nothing changes; otherwise the cache becomes the new map (refresh) or its upsert, and then the file is written with `writeToFile`; a failed write is a PropertyException and the cache keeps the change |
| FileManager.ReplaceThenGetAll | src/main/java/net/kush/nimo/FilePropertyManager.java:220-231 | after `setProperties(m, true)` on a writable manager, `getProperties()` answers exactly m |
| FileManager.UpsertThenGet | src/main/java/net/kush/nimo/FilePropertyManager.java:226-230 | after `setProperties(m, false)`, every key of m reads its new value and every other key reads what it did before |
| FileManager.SetPropertiesIntended | src/main/java/net/kush/nimo/Reloadable.java:67-79 | the same cache change as `setProperties`, with the file written by the documented upsert |
| FileManager.IntendedWriteKeepsFileInStep | src/main/java/net/kush/nimo/Reloadable.java:67-79 | with the documented write, if the cache matched the file before a successful `setProperties`, it still matches it afterwards |
| FileManager.UpsertWriteLosesEntries | src/main/java/net/kush/nimo/FilePropertyManager.java:269-278 | with cache and file holding a=1, `setProperties({b=2}, false)` caches a=1 and b=2 but leaves a file holding only b=2; the documented write leaves a=1 and b=2 |
| FileManager.Reload | src/main/java/net/kush/nimo/FilePropertyManager.java:296-309 | the scheduled task overlays the file on the cache exactly when the file reads; otherwise it raises a RuntimeException and leaves the manager unchanged |
| FileManager.ReloadKeepsKeys | src/main/java/net/kush/nimo/FilePropertyManager.java:257-261 | a reload never removes a cached key, even one the file no longer has |
| FileManager.Close | src/main/java/net/kush/nimo/FilePropertyManager.java:242-244 | the schedule is dropped and nothing else changes |
| SqlManager.LoadRowsLastWins | src/main/java/net/kush/nimo/SQLDatabasePropertyManager.java:210-214 | the loaded map holds exactly the keys of the rows, each bound to the value of the last row carrying it |
| SqlManager.EntryStmts | src/main/java/net/kush/nimo/SQLDatabasePropertyManager.java:297-309 | one statement per key in iteration order, carrying the key's value: an UPDATE for an existing key, otherwise an INSERT |
| SqlManager.WriteToDb | src/main/java/net/kush/nimo/SQLDatabasePropertyManager.java:280-316 | with refresh, the batch is one DELETE followed by one INSERT per entry; without, one statement per entry, an UPDATE exactly when the cache holds the key at call time; every key of the map gets exactly one statement |
| SqlManager.ExecuteEntries | src/main/java/net/kush/nimo/SQLDatabasePropertyManager.java:297-313 | if every key that gets an UPDATE is already in the table, executing the per-entry statements rebinds exactly those keys to their new values |
| SqlManager.ReplaceBatchLoads | src/main/java/net/kush/nimo/SQLDatabasePropertyManager.java:284-293 | after a refreshing batch, the table loads as exactly the new map, whatever it held before |
| SqlManager.UpsertBatchLoads | src/main/java/net/kush/nimo/SQLDatabasePropertyManager.java:295-313 | after an upsert batch built against a cache whose keys are all in the table, the table loads as its old contents with the new map laid over them |
| SqlManager.Construct | src/main/java/net/kush/nimo/SQLDatabasePropertyManager.java:86-158 | checks run in this order: null or empty names, then a null reload strategy, then a null update strategy, then an unreachable database, then the load, and only then an INTERVAL interval below one, which is a PropertyException; a successful construction is in sync with the table and is scheduled exactly under INTERVAL |
| SqlManager.Reload | src/main/java/net/kush/nimo/SQLDatabasePropertyManager.java:201-230 | the cache is replaced by exactly what the table loads as, or the task raises a RuntimeException and the cache stays |
| SqlManager.GetProperty | src/main/java/net/kush/nimo/SQLDatabasePropertyManager.java:165-175 | the cached value or null, with no look at the table |
| SqlManager.GetProperties | src/main/java/net/kush/nimo/SQLDatabasePropertyManager.java:182-194 | a map that answers every key as `getProperty` does |
| SqlManager.SetProperty | src/main/java/net/kush/nimo/SQLDatabasePropertyManager.java:232-251 | under EXTERNAL nothing changes; otherwise the cache gains the entry first and the batch sent is a single UPDATE, even for a key the table lacks; an unreachable database gives a PropertyException with the cache already changed |
| SqlManager.SetPropertyIntended | src/main/java/net/kush/nimo/SQLDatabasePropertyManager.java:297-305 | the membership test is taken before the cache changes, so a new key is INSERTed and the table is the old table with that one statement executed; an unreachable database gives a PropertyException, sends nothing and leaves the table alone |
| SqlManager.SetPropertyIntendedKeepsSynced | src/main/java/net/kush/nimo/SQLDatabasePropertyManager.java:297-305 | from a cache in sync with a reachable table, the corrected `setProperty` leaves them in sync, so a reload changes nothing |
| SqlManager.SetPropertyLosesNewKey | src/main/java/net/kush/nimo/SQLDatabasePropertyManager.java:238-244 | on an empty table, `setProperty("a", "1")` caches a=1 and sends an UPDATE that matches no row, so the next reload forgets a; the corrected version keeps it |
| SqlManager.SetProperties | src/main/java/net/kush/nimo/SQLDatabasePropertyManager.java:253-278 | under EXTERNAL nothing changes; otherwise the batch sent is `writeToDB` against the cache at call time, and on success the table is the old table with that batch executed and the cache becomes the new map (refresh) or its upsert; on failure, a PropertyException, the table is untouched, and the cache is left empty (refresh) or unchanged |
| SqlManager.SetPropertiesKeepsSynced | src/main/java/net/kush/nimo/SQLDatabasePropertyManager.java:253-278 | a successful INTERNAL `setProperties` leaves the cache equal to what a reload would read; with refresh, this holds even from an out-of-sync cache |
| SqlManager.SetThenGet | src/main/java/net/kush/nimo/SQLDatabasePropertyManager.java:238-239 | on an INTERNAL manager, `getProperty(k)` after `setProperty(k, v)` answers v, whether or not the write reached the table |
| SqlManager.Close | src/main/java/net/kush/nimo/SQLDatabasePropertyManager.java:197-199 | the schedule is dropped and nothing else changes |
| JndiLoader.LookupName | src/main/java/net/kush/nimo/JNDILoader.java:134 | a lookup yields the bound object exactly when the context is reachable and the name is bound |
| JndiLoader.ConvertBoundObjectToMap | src/main/java/net/kush/nimo/JNDILoader.java:154-178 | a Map is taken as it is; null and any non-map are rejected |
| JndiLoader.LoadProperties | src/main/java/net/kush/nimo/JNDILoader.java:128-152 | success exactly when the name resolves to a map, giving that map; a failed lookup and a non-map binding are told apart |
| JndiLoader.Construct | src/main/java/net/kush/nimo/JNDILoader.java:61-90 | checks run in this order: a null context, then a null name, then the load, and only then an interval below one, which is a PropertyException; a successful construction caches the bound map and always schedules the interval's pattern |
| JndiLoader.ConstructDefault | src/main/java/net/kush/nimo/JNDILoader.java:42-44 | the two-argument constructor schedules DEFAULT_RELOAD_INTERVAL and succeeds exactly when the load does |
| JndiLoader.Reload | src/main/java/net/kush/nimo/JNDILoader.java:193-203 | the cache becomes exactly the bound map, or the task raises a RuntimeException and the cache stays as it was |
| JndiLoader.NonMapBindingFailsConstruction | src/main/java/net/kush/nimo/JNDILoader.java:143-144 | a name bound to null or to a non-map fails construction with a PropertyException |
| JndiLoader.GetProperty | src/main/java/net/kush/nimo/JNDILoader.java:97-107 | the cached value or null |
| JndiLoader.GetProperties | src/main/java/net/kush/nimo/JNDILoader.java:114-126 | a map that answers every key as `getProperty` does |
| JndiLoader.ReadsAfterReload | src/main/java/net/kush/nimo/JNDILoader.java:138-139 | after a successful reload, reads answer from the bound map and nothing else |
| JndiLoader.SetProperty | src/main/java/net/kush/nimo/JNDILoader.java:180-182 | always an UnsupportedOperationException, with the cache untouched |
| JndiLoader.SetProperties | src/main/java/net/kush/nimo/JNDILoader.java:184-186 | always an UnsupportedOperationException, with the cache untouched |
| JndiLoader.Close | src/main/java/net/kush/nimo/JNDILoader.java:189-191 | the schedule is dropped and nothing else changes |

## Left out

- The cron4j scheduler and `Util`'s shared scheduler are not modelled. A schedule is the pattern
  string the manager would register, `close` clears it, and a firing of the scheduled task is a
  call to `Reload`.
- Locks and concurrency: each operation is one atomic step. The read/write locks only serialise
  these steps.
- The `java.util.Properties` text format: a regular file is abstracted to the map its parser
  would read, or to "malformed". `props.store` writes exactly the map it holds.
- `FileManager.Refresh`: an `IOException` raised in the middle of reading an opened file is not
  modelled. Opening either succeeds and the whole file is read, or it fails.
- JDBC: the connection check, the SQL text and its quoting (values containing `'` would break the
  statements), and partial batch failure. A reachable database runs the whole batch; an
  unreachable one rejects it before any statement runs.
- The table has no key constraint, as in the test fixture's table: an INSERT of a key the table
  already holds adds a second row instead of failing, and a load keeps the last such row. A
  table with a primary key on the key column would reject such a batch; the lemmas about what
  a batch loads as (`SqlManager.UpsertBatchLoads`, `SqlManager.SetPropertiesKeepsSynced`)
  assume the unconstrained table.
- The table name, and the column names beyond the checks that they are non-empty: the model has
  one key/value table.
- `FileManager.Construct` and `SqlManager.Construct` cover the shorter constructor overloads,
  which pass NONE / INTERNAL and an interval of 1 (the file manager also has a three-argument form that passes only the interval). They are not separate members.
- Null keys and values, and argument maps that reject `put`. `writeToDB` writes each entry back
  into its argument map, which throws on an immutable map. Keys and values here are always
  strings.
- A `java.util.Properties` bound under a JNDI name is a `Map`, so it takes the first branch of
  `convertBoundObjectToMap`. The `Properties` branch cannot be reached and is not modelled.
- Logging, and exception message texts: each error carries only a `Reason`.

## Findings

| source | as written | input that shows it | evidently intended | confidence | as-written member | corrected member |
|---|---|---|---|---|---|---|
| src/main/java/net/kush/nimo/FilePropertyManager.java:269-278 | the `FileOutputStream` truncates the file before the upsert branch reloads it, so `props` starts empty and the file ends up holding only the new map | file and cache holding `a=1`, then `setProperties({b=2}, false)` | the file holds the old entries with the new ones laid over them (`a=1`, `b=2`), as documented at Reloadable.java:67-79 | not executed | FileManager.WriteToFile (shown by FileManager.UpsertWriteLosesEntries) | FileManager.WriteToFileIntended (proved in FileManager.IntendedWriteKeepsFileInStep) |
| src/main/java/net/kush/nimo/SQLDatabasePropertyManager.java:238-244 | `setProperty` puts the entry into the cache before `writeToDB` tests whether the cache holds the key, so the test always succeeds and a new key is sent as an UPDATE that matches no row | empty reachable table, INTERNAL, `setProperty("a", "1")`, then a reload | a new key is INSERTed, so the table, and every later reload, keeps `a=1` | not executed | SqlManager.SetProperty (shown by SqlManager.SetPropertyLosesNewKey) | SqlManager.SetPropertyIntended (proved in SqlManager.SetPropertyIntendedKeepsSynced) |

The manager transitions (`FileManager.SetProperties`, `SqlManager.SetProperty`) follow the code as
written. The corrected definitions sit beside them, with the intended invariant proved.

Where the code and the description of the library differ, the model follows the code:
- the file manager's `setProperty` changes only the cache and never writes the file;
- the file manager's `setProperties` changes the cache before writing, and keeps that change when
  the write fails;
- the SQL manager's `setProperties(m, true)` clears the cache before writing, so a failed write
  leaves it empty;
- an INTERVAL file manager's initial load runs as the scheduled task and fails with a
  `RuntimeException`, not a `PropertyException`;
- the file manager's constructor does not reject null strategies, so its strategies are
  optional values.
