/**
 FilePropertyManager: a properties cache loaded from one file. Reading a
 file overlays it on the cache; under STORE_CHANGED with EXTERNAL updates a
 read first reloads when the file's modification stamp has moved past the
 last one seen. `setProperty` changes only the cache; `setProperties` changes
 the cache and then rewrites the file.

 The file at the manager's path is a value handed to every operation that
 looks at it; the text of a regular file is abstracted to the map the
 properties parser reads from it.
 */
module FileManager {
  import opened Reloadable

  /** What the file system holds at the manager's path. `text` is None when
      the properties parser rejects the file's contents. */
  datatype FileEntry =
    | Absent
    | Directory(dirStamp: nat)
    | Regular(text: Option<map<string, string>>, stamp: nat, readable: bool, writable: bool)

  /** `File.lastModified()`: the entry's stamp, or 0 when nothing is there. */
  function LastModified(f: FileEntry): nat {
    match f
    case Absent => 0
    case Directory(s) => s
    case Regular(_, s, _, _) => s
  }

  /** The file manager's state. The strategies are optional because this
      constructor does not reject null ones. */
  datatype Manager = Manager(
    reload: Option<ReloadStrategy>,
    update: Option<UpdateStrategy>,
    cache: map<string, string>,
    lastModified: nat,
    schedule: Option<string>)

  /** The one strategy pair under which a read looks at the file first. */
  predicate WatchesFile(st: Manager) {
    st.reload == Some(StoreChanged) && st.update == Some(External)
  }

  /** Under EXTERNAL updates the setters return without doing anything. */
  predicate ReadOnly(st: Manager) {
    st.update == Some(External)
  }

  /** How reading the file failed: it could not be opened for reading, or
      the properties parser rejected its text. */
  datatype LoadFailure = CannotOpen | Malformed

  /** Reading the file into the cache: the file's entries are laid over the
      cache and no key absent from the file is removed. */
  function LoadFile(cache: map<string, string>, f: FileEntry): (r: Result<map<string, string>, LoadFailure>)
    ensures r.Ok? <==> f.Regular? && f.readable && f.text.Some?
    ensures r.Ok? ==> Upserted(cache, f.text.value, r.value)
    ensures r.Ok? ==> cache.Keys <= r.value.Keys
    ensures r == Err(Malformed) <==> f.Regular? && f.readable && f.text.None?
  {
    match f
    case Regular(Some(props), _, true, _) => Ok(cache + props)
    case Regular(None, _, true, _) => Err(Malformed)
    case _ => Err(CannotOpen)
  }

  /** The constructor with an explicit interval. Construction fails when the
      path is not an existing regular file, or when INTERVAL is asked for
      with an interval below one; the interval plays no part otherwise. The
      initial load of an INTERVAL manager runs as the scheduled task would,
      so its failure surfaces as a RuntimeException. */
  function Construct(f: FileEntry, reload: Option<ReloadStrategy>, update: Option<UpdateStrategy>, interval: int)
    : (r: Result<Manager, Error>)
    ensures !f.Regular? ==> r == Err(PropertyException(FileNotFound))
    ensures f.Regular? && reload == Some(Interval) && interval < 1 ==> r == Err(PropertyException(IntervalBelowOne))
    ensures r.Ok? <==> f.Regular? && f.readable && f.text.Some? && (reload == Some(Interval) ==> 1 <= interval)
    ensures r.Ok? ==> r.value.cache == f.text.value && r.value.lastModified == 0
    ensures r.Ok? ==> r.value.reload == reload && r.value.update == update
    ensures r.Ok? ==> (r.value.schedule.Some? <==> reload == Some(Interval))
    ensures r.Ok? && reload == Some(Interval) ==> r.value.schedule == Some(SchedulePattern(interval))
    ensures r.Err? && f.Regular? && reload == Some(Interval) && 1 <= interval ==> r.error.RuntimeException?
    ensures r.Err? && f.Regular? && reload != Some(Interval) ==> r.error.PropertyException?
  {
    if !f.Regular? then Err(PropertyException(FileNotFound))
    else if reload == Some(Interval) then
      if interval < 1 then Err(PropertyException(IntervalBelowOne))
      else
        match LoadFile(map[], f)
        case Ok(props) => Ok(Manager(reload, update, props, 0, Some(SchedulePattern(interval))))
        case Err(failure) => Err(RuntimeException(FailureReason(failure)))
    else
      match LoadFile(map[], f)
      case Ok(props) => Ok(Manager(reload, update, props, 0, None))
      case Err(failure) => Err(PropertyException(FailureReason(failure)))
  }

  function FailureReason(failure: LoadFailure): Reason {
    if failure == CannotOpen then FileNotFound else MalformedSource
  }

  /** The interval is read only under the INTERVAL strategy. */
  lemma IntervalIgnoredUnlessInterval(f: FileEntry, reload: Option<ReloadStrategy>, update: Option<UpdateStrategy>,
                                      i: int, j: int)
    requires reload != Some(Interval)
    ensures Construct(f, reload, update, i) == Construct(f, reload, update, j)
  {
  }

  /** The staleness check a read starts with. Only a WatchesFile manager
      looks at the file, and it reloads exactly when the file's stamp is
      strictly newer than the last one seen, recording that stamp. A failed
      reload leaves the manager as it was. */
  function Refresh(st: Manager, f: FileEntry): (r: Result<Manager, Error>)
    ensures !WatchesFile(st) || LastModified(f) <= st.lastModified ==> r == Ok(st)
    ensures r.Ok? ==> r.value.reload == st.reload && r.value.update == st.update && r.value.schedule == st.schedule
    ensures r.Ok? && r.value != st ==> WatchesFile(st) && st.lastModified < LastModified(f)
    ensures WatchesFile(st) && st.lastModified < LastModified(f) ==>
      match LoadFile(st.cache, f)
      case Ok(_) =>
        r.Ok? && r.value.lastModified == LastModified(f) && Upserted(st.cache, f.text.value, r.value.cache)
      case Err(CannotOpen) => r == Err(PropertyException(FileNotFound))
      case Err(Malformed) => r == Err(IllegalArgumentException)
  {
    if WatchesFile(st) && LastModified(f) > st.lastModified then
      match LoadFile(st.cache, f)
      case Ok(cache') => Ok(st.(cache := cache', lastModified := LastModified(f)))
      case Err(CannotOpen) => Err(PropertyException(FileNotFound))
      case Err(Malformed) => Err(IllegalArgumentException)
    else
      Ok(st)
  }

  /** `getProperty`: the cache's value for `key` after the staleness check,
      or null; a missing key is never an error. A manager that does not
      watch the file answers from its cache alone, whatever the file says. */
  function GetProperty(st: Manager, f: FileEntry, key: string): (r: Reply<Manager, Option<string>>)
    ensures !WatchesFile(st) ==> r == Reply(st, Ok(Lookup(st.cache, key)))
    ensures r.result.Ok? ==> Refresh(st, f) == Ok(r.state)
    ensures r.result.Ok? && key !in r.state.cache ==> r.result.value == None
    ensures r.result.Ok? && key in r.state.cache ==> r.result.value == Some(r.state.cache[key])
    ensures r.result.Err? ==> r.state == st && Refresh(st, f) == Err(r.result.error)
  {
    match Refresh(st, f)
    case Ok(st') => Reply(st', Ok(Lookup(st'.cache, key)))
    case Err(e) => Reply(st, Err(e))
  }

  /** `getProperties`: a copy of the whole cache after the staleness check. */
  function GetProperties(st: Manager, f: FileEntry): (r: Reply<Manager, map<string, string>>)
    ensures !WatchesFile(st) ==> r == Reply(st, Ok(st.cache))
    ensures r.result.Ok? ==> Refresh(st, f) == Ok(r.state) && r.result.value == r.state.cache
    ensures r.result.Err? ==> r.state == st && Refresh(st, f) == Err(r.result.error)
  {
    match Refresh(st, f)
    case Ok(st') => Reply(st', Ok(st'.cache))
    case Err(e) => Reply(st, Err(e))
  }

  /** `getProperty(k)` and `getProperties()` agree: same state afterwards,
      and the single answer is the entry of the whole map for `k`. */
  lemma GetPropertyAgreesWithGetProperties(st: Manager, f: FileEntry, key: string)
    ensures GetProperty(st, f, key).state == GetProperties(st, f).state
    ensures GetProperty(st, f, key).result.Ok? <==> GetProperties(st, f).result.Ok?
    ensures GetProperties(st, f).result.Ok? ==>
      GetProperty(st, f, key).result.value == Lookup(GetProperties(st, f).result.value, key)
  {
  }

  /** A read of a watching manager whose file has a newer stamp and parses
      overlays the file on the cache and records the stamp. */
  lemma StaleReadReloads(st: Manager, f: FileEntry, key: string)
    requires WatchesFile(st) && st.lastModified < LastModified(f)
    requires f.Regular? && f.readable && f.text.Some?
    ensures GetProperty(st, f, key).state.cache == st.cache + f.text.value
    ensures GetProperty(st, f, key).state.lastModified == f.stamp
    ensures GetProperty(st, f, key).result == Ok(Lookup(st.cache + f.text.value, key))
  {
    UpsertIsOverride(st.cache, f.text.value, GetProperty(st, f, key).state.cache);
  }

  /** Once a read has succeeded, a second read against the same file does
      not reload: its state is unchanged and it answers from the cache. */
  lemma SecondReadDoesNotReload(st: Manager, f: FileEntry, k1: string, k2: string)
    requires GetProperty(st, f, k1).result.Ok?
    ensures var st1 := GetProperty(st, f, k1).state;
            GetProperty(st1, f, k2) == Reply(st1, Ok(Lookup(st1.cache, k2)))
  {
  }

  /** `setProperty`: does nothing under EXTERNAL; otherwise binds `key` to
      `value` in the cache and changes no other key. The file is not an
      argument, so it is never written. */
  function SetProperty(st: Manager, key: string, value: string): (r: Manager)
    ensures ReadOnly(st) ==> r == st
    ensures !ReadOnly(st) ==> r.cache.Keys == st.cache.Keys + {key} && r.cache[key] == value
    ensures forall k :: k in st.cache && k != key ==> r.cache[k] == st.cache[k]
    ensures r.(cache := st.cache) == st
  {
    if ReadOnly(st) then st else st.(cache := st.cache[key := value])
  }

  /** After `setProperty(k, v)` on a writable manager, `getProperty(k)`
      answers `v`, whatever the file holds. */
  lemma SetThenGet(st: Manager, f: FileEntry, key: string, value: string)
    requires !ReadOnly(st)
    ensures GetProperty(SetProperty(st, key, value), f, key).result == Ok(Some(value))
  {
  }

  /** The file after a write attempt, and whether the write succeeded. */
  datatype FileWrite = FileWrite(file: FileEntry, ok: bool)

  /** `writeToFile` as written. The output stream is opened, which creates
      or truncates the file, before the upsert branch reads the file back;
      that read therefore sees an empty file, and on success the file holds
      exactly `m` in both modes. A failure to open the output leaves the
      file alone; a failure to read it back leaves it truncated. */
  function WriteToFile(f: FileEntry, m: map<string, string>, refresh: bool, now: nat): (r: FileWrite)
    ensures r.ok <==> f.Absent? || (f.Regular? && f.writable && (refresh || f.readable))
    ensures r.ok ==> r.file.Regular? && r.file.text == Some(m) && r.file.stamp == now
    ensures !r.ok && (f.Directory? || (f.Regular? && !f.writable)) ==> r.file == f
    ensures !r.ok && f.Regular? && f.writable ==> r.file.Regular? && r.file.text == Some(map[])
  {
    if f.Directory? || (f.Regular? && !f.writable) then FileWrite(f, false)
    else
      // opening the output stream creates or truncates the file
      var truncated := Regular(Some(map[]), now, f.Absent? || f.readable, true);
      if refresh then FileWrite(truncated.(text := Some(m)), true)
      else if !truncated.readable then FileWrite(truncated, false)
      else
        // the properties read back from the truncated file are empty
        var props := LoadFile(map[], truncated).value;
        assert props + m == m;
        FileWrite(truncated.(text := Some(props + m)), true)
  }

  /** The upsert the method documents: read the file before rewriting it. */
  function WriteToFileIntended(f: FileEntry, m: map<string, string>, refresh: bool, now: nat): (r: FileWrite)
    ensures r.ok ==> r.file.Regular? && r.file.stamp == now
    ensures r.ok && refresh ==> r.file.text == Some(m)
    ensures r.ok && !refresh ==> f.Regular? && f.text.Some? && r.file.text.Some? && Upserted(f.text.value, m, r.file.text.value)
    ensures !r.ok ==> r.file == f
    ensures r.ok <==> if refresh then f.Absent? || (f.Regular? && f.writable)
                     else f.Regular? && f.writable && f.readable && f.text.Some?
  {
    if refresh then
      match f
      case Absent => FileWrite(Regular(Some(m), now, true, true), true)
      case Directory(_) => FileWrite(f, false)
      case Regular(_, _, readable, writable) =>
        if writable then FileWrite(Regular(Some(m), now, readable, writable), true) else FileWrite(f, false)
    else
      match LoadFile(map[], f)
      case Err(_) => FileWrite(f, false)
      case Ok(props) =>
        if f.writable then FileWrite(f.(text := Some(props + m), stamp := now), true) else FileWrite(f, false)
  }

  /** The outcome of a write: the manager, the file afterwards, and success
      or the exception. */
  datatype WriteStep = WriteStep(state: Manager, file: FileEntry, result: Result<(), Error>)

  /** `setProperties`: does nothing under EXTERNAL. Otherwise the cache
      becomes exactly `m` when `refresh` holds and the upsert of `m`
      otherwise, and only then is the file rewritten: the cache keeps the
      change even when the write fails. */
  function SetProperties(st: Manager, f: FileEntry, m: map<string, string>, refresh: bool, now: nat): (r: WriteStep)
    ensures ReadOnly(st) ==> r == WriteStep(st, f, Ok(()))
    ensures !ReadOnly(st) && refresh ==> r.state.cache == m
    ensures !ReadOnly(st) && !refresh ==> Upserted(st.cache, m, r.state.cache)
    ensures r.state.(cache := st.cache) == st
    ensures !ReadOnly(st) ==> FileWrite(r.file, r.result.Ok?) == WriteToFile(f, m, refresh, now)
    ensures !ReadOnly(st) && r.result.Err? ==> r.result.error == PropertyException(WriteFailed)
  {
    if ReadOnly(st) then WriteStep(st, f, Ok(()))
    else
      var st' := st.(cache := Written(st.cache, m, refresh));
      var w := WriteToFile(f, m, refresh, now);
      WriteStep(st', w.file, if w.ok then Ok(()) else Err(PropertyException(WriteFailed)))
  }

  /** With `refresh`, `getProperties` afterwards answers exactly `m`: no
      previous key survives. */
  lemma ReplaceThenGetAll(st: Manager, f: FileEntry, m: map<string, string>, now: nat, g: FileEntry)
    requires !ReadOnly(st)
    ensures GetProperties(SetProperties(st, f, m, true, now).state, g).result == Ok(m)
  {
  }

  /** Without `refresh`, every key of `m` reads back its new value and
      every other key reads back what it read before. */
  lemma UpsertThenGet(st: Manager, f: FileEntry, m: map<string, string>, now: nat, g: FileEntry, key: string)
    requires !ReadOnly(st)
    ensures var after := GetProperty(SetProperties(st, f, m, false, now).state, g, key).result;
            after == Ok(if key in m then Some(m[key]) else Lookup(st.cache, key))
  {
    var st' := SetProperties(st, f, m, false, now).state;
    assert !WatchesFile(st');
  }

  /** `setProperties` with the documented file write: the same cache
      change, and a file rewritten as the old file with `m` laid over it
      (or as exactly `m` with `refresh`). */
  function SetPropertiesIntended(st: Manager, f: FileEntry, m: map<string, string>, refresh: bool, now: nat)
    : (r: WriteStep)
    ensures ReadOnly(st) ==> r == WriteStep(st, f, Ok(()))
    ensures !ReadOnly(st) ==> r.state == SetProperties(st, f, m, refresh, now).state
    ensures !ReadOnly(st) ==> FileWrite(r.file, r.result.Ok?) == WriteToFileIntended(f, m, refresh, now)
  {
    if ReadOnly(st) then WriteStep(st, f, Ok(()))
    else
      var w := WriteToFileIntended(f, m, refresh, now);
      WriteStep(st.(cache := Written(st.cache, m, refresh)), w.file, if w.ok then Ok(()) else Err(PropertyException(WriteFailed)))
  }

  /** With the documented write, a manager whose cache matches its file
      still matches it after a successful `setProperties`: a manager built
      afresh over the file would read what this one caches. */
  lemma IntendedWriteKeepsFileInStep(st: Manager, f: FileEntry, m: map<string, string>, refresh: bool, now: nat)
    requires !ReadOnly(st) && f.Regular? && f.text == Some(st.cache)
    ensures var r := SetPropertiesIntended(st, f, m, refresh, now);
            r.result.Ok? ==> r.file.text == Some(r.state.cache)
  {
    var r := SetPropertiesIntended(st, f, m, refresh, now);
    if r.result.Ok? && !refresh {
      UpsertIsOverride(st.cache, m, r.file.text.value);
    }
  }

  /** The truncation loses data: with a file and cache both holding `a=1`,
      `setProperties({b=2}, false)` caches `a=1, b=2` but leaves a file
      holding only `b=2`; the documented write leaves `a=1, b=2` in both. */
  lemma UpsertWriteLosesEntries()
    ensures var st := Manager(Some(NoReload), Some(Internal), map["a" := "1"], 0, None);
            var f := Regular(Some(map["a" := "1"]), 5, true, true);
            var m := map["b" := "2"];
            && SetProperties(st, f, m, false, 6).state.cache == map["a" := "1", "b" := "2"]
            && SetProperties(st, f, m, false, 6).file.text == Some(map["b" := "2"])
            && SetPropertiesIntended(st, f, m, false, 6).file.text == Some(map["a" := "1", "b" := "2"])
  {
    var f := Regular(Some(map["a" := "1"]), 5, true, true);
    var m := map["b" := "2"];
    assert LoadFile(map[], f) == Ok(map["a" := "1"]) by {
      assert map[] + map["a" := "1"] == map["a" := "1"];
    }
    assert map["a" := "1"] + m == map["a" := "1", "b" := "2"];
  }

  /** The scheduled task (and the INTERVAL constructor's first load): the
      file is overlaid on the cache, or the task fails with a
      RuntimeException and the cache is left alone. */
  function Reload(st: Manager, f: FileEntry): (r: Reply<Manager, ()>)
    ensures r.result.Ok? <==> f.Regular? && f.readable && f.text.Some?
    ensures r.result.Ok? ==> Upserted(st.cache, f.text.value, r.state.cache)
    ensures r.state.(cache := st.cache) == st
    ensures r.result.Err? ==> r.state == st && r.result.error.RuntimeException?
  {
    match LoadFile(st.cache, f)
    case Ok(cache') => Reply(st.(cache := cache'), Ok(()))
    case Err(failure) => Reply(st, Err(RuntimeException(FailureReason(failure))))
  }

  /** A reload never drops a key: keys removed from the file stay cached. */
  lemma ReloadKeepsKeys(st: Manager, f: FileEntry, key: string)
    requires key in st.cache
    ensures key in Reload(st, f).state.cache
  {
  }

  /** `close`: the scheduled reload, if any, is dropped; nothing else
      changes. */
  function Close(st: Manager): (r: Manager)
    ensures r.schedule == None && r.(schedule := st.schedule) == st
  {
    st.(schedule := None)
  }
}
