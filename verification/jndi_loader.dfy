/**
 JNDILoader: a read-only properties cache loaded from the object bound to
 one name in a naming context. A load replaces the cache with the bound
 map; the loader always schedules a periodic reload; both setters are
 unsupported.

 The naming context is a value: the bindings it would resolve, and whether
 a lookup can reach it at all.
 */
module JndiLoader {
  import opened Reloadable

  /** The object a name is bound to. A `java.util.Properties` is itself a
      `Map`, so it is an `AMap` here like any other map. */
  datatype Bound = Null | AMap(entries: map<string, string>) | Other

  datatype NamingContext = NamingContext(bindings: map<string, Bound>, reachable: bool)

  /** `Context.lookup`: the bound object, or None for a NamingException. */
  function LookupName(ctx: NamingContext, name: string): (r: Option<Bound>)
    ensures r.Some? <==> ctx.reachable && name in ctx.bindings
    ensures r.Some? ==> r.value == ctx.bindings[name]
  {
    if ctx.reachable && name in ctx.bindings then Some(ctx.bindings[name]) else None
  }

  /** `convertBoundObjectToMap`: a map is taken as it is; null and anything
      that is no map are rejected. */
  function ConvertBoundObjectToMap(b: Bound): (r: Option<map<string, string>>)
    ensures r.Some? <==> b.AMap?
    ensures r.Some? ==> r.value == b.entries
  {
    match b
    case AMap(entries) => Some(entries)
    case _ => None
  }

  datatype Loader = Loader(name: string, cache: map<string, string>, schedule: Option<string>)

  /** `loadProperties` without its cache update: the map that would replace
      the cache, or why there is none (the lookup failed, or the bound object
      is no map). */
  function LoadProperties(ctx: NamingContext, name: string): (r: Result<map<string, string>, Reason>)
    ensures r.Ok? <==> ctx.reachable && name in ctx.bindings && ctx.bindings[name].AMap?
    ensures r.Ok? ==> r.value == ctx.bindings[name].entries
    ensures r.Err? && ctx.reachable && name in ctx.bindings ==> r.error == NotAMap
    ensures r.Err? && !(ctx.reachable && name in ctx.bindings) ==> r.error == SourceUnreadable
  {
    match LookupName(ctx, name)
    case None => Err(SourceUnreadable)
    case Some(b) =>
      match ConvertBoundObjectToMap(b)
      case None => Err(NotAMap)
      case Some(m) => Ok(m)
  }

  /** The constructor with an explicit interval. A null context or name is
      rejected first; then the initial load runs, a failed lookup or a
      non-map binding failing construction; only then is an interval below
      one rejected. A reload is always scheduled. */
  function Construct(ctx: Option<NamingContext>, name: Option<string>, interval: int): (r: Result<Loader, Error>)
    ensures ctx.None? ==> r == Err(PropertyException(NullContext))
    ensures ctx.Some? && name.None? ==> r == Err(PropertyException(NullName))
    ensures ctx.Some? && name.Some? && LoadProperties(ctx.value, name.value).Err? ==>
      r == Err(PropertyException(LoadProperties(ctx.value, name.value).error))
    ensures ctx.Some? && name.Some? && LoadProperties(ctx.value, name.value).Ok? && interval < 1 ==>
      r == Err(PropertyException(IntervalBelowOne))
    ensures r.Ok? <==> ctx.Some? && name.Some? && LoadProperties(ctx.value, name.value).Ok? && 1 <= interval
    ensures r.Ok? ==> 1 <= interval && r.value.schedule == Some(SchedulePattern(interval))
    ensures r.Ok? ==> r.value.name == name.value && ctx.value.bindings[name.value] == AMap(r.value.cache)
  {
    if ctx.None? then Err(PropertyException(NullContext))
    else if name.None? then Err(PropertyException(NullName))
    else
      match LoadProperties(ctx.value, name.value)
      case Err(reason) => Err(PropertyException(reason))
      case Ok(m) =>
        if interval < 1 then Err(PropertyException(IntervalBelowOne))
        else Ok(Loader(name.value, m, Some(SchedulePattern(interval))))
  }

  /** The two-argument constructor reloads every minute. */
  function ConstructDefault(ctx: Option<NamingContext>, name: Option<string>): (r: Result<Loader, Error>)
    ensures r.Ok? ==> r.value.schedule == Some(DefaultReloadInterval)
    ensures r.Ok? <==> ctx.Some? && name.Some? && LoadProperties(ctx.value, name.value).Ok?
  {
    Construct(ctx, name, 1)
  }

  /** The scheduled task: a successful load replaces the cache with exactly
      the bound map; a failed lookup or conversion raises a
      RuntimeException and leaves the cache as it was, because the
      conversion happens before the cache is cleared. */
  function Reload(st: Loader, ctx: NamingContext): (r: Reply<Loader, ()>)
    ensures r.result.Ok? <==> LoadProperties(ctx, st.name).Ok?
    ensures r.result.Ok? ==> ctx.bindings[st.name] == AMap(r.state.cache)
    ensures r.state.(cache := st.cache) == st
    ensures r.result.Err? ==> r.state == st && r.result.error.RuntimeException?
  {
    match LoadProperties(ctx, st.name)
    case Ok(m) => Reply(st.(cache := m), Ok(()))
    case Err(reason) => Reply(st, Err(RuntimeException(reason)))
  }

  /** A name bound to null or to a non-map object is refused with
      PropertyException at construction, never a bare type error. */
  lemma NonMapBindingFailsConstruction(ctx: NamingContext, name: string, interval: int)
    requires ctx.reachable && name in ctx.bindings && !ctx.bindings[name].AMap?
    ensures Construct(Some(ctx), Some(name), interval) == Err(PropertyException(NotAMap))
  {
  }

  /** `getProperty`: the cached value or null. */
  function GetProperty(st: Loader, key: string): (r: Option<string>)
    ensures r.Some? <==> key in st.cache
    ensures r.Some? ==> r.value == st.cache[key]
  {
    Lookup(st.cache, key)
  }

  /** `getProperties`: a copy of the cache. */
  function GetProperties(st: Loader): (r: map<string, string>)
    ensures forall k :: GetProperty(st, k) == Lookup(r, k)
  {
    st.cache
  }

  /** After a successful reload, reads answer from the bound map and from
      nothing else. */
  lemma ReadsAfterReload(st: Loader, ctx: NamingContext, key: string)
    requires LoadProperties(ctx, st.name).Ok?
    ensures GetProperties(Reload(st, ctx).state) == ctx.bindings[st.name].entries
    ensures GetProperty(Reload(st, ctx).state, key) == Lookup(ctx.bindings[st.name].entries, key)
  {
  }

  /** `setProperty` is not supported, whatever the arguments; the cache is
      untouched. */
  function SetProperty(st: Loader, key: string, value: string): (r: Reply<Loader, ()>)
    ensures r.state == st && r.result == Err(UnsupportedOperationException)
  {
    Reply(st, Err(UnsupportedOperationException))
  }

  /** `setProperties` is not supported, whatever the arguments; the cache is
      untouched. */
  function SetProperties(st: Loader, m: map<string, string>, refresh: bool): (r: Reply<Loader, ()>)
    ensures r.state == st && r.result == Err(UnsupportedOperationException)
  {
    Reply(st, Err(UnsupportedOperationException))
  }

  /** `close`: the scheduled reload is dropped. */
  function Close(st: Loader): (r: Loader)
    ensures r.schedule == None && r.(schedule := st.schedule) == st
  {
    st.(schedule := None)
  }
}
