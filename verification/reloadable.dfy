/**
 The vocabulary shared by the three property managers (file, SQL table and
 JNDI binding): the reload and update strategies, the errors a public
 operation can end in, the cron pattern a periodic reload is scheduled with,
 and the map algebra of a properties cache.
 */
module Reloadable {

  datatype Option<+T> = None | Some(value: T)

  /** A value, or the failure that ended the computation. */
  datatype Result<+T, +E> = Ok(value: T) | Err(error: E)

  /** RELOAD_STRATEGY: never reload, reload on a schedule, or reload on a
      read when the store has changed since the last one. */
  datatype ReloadStrategy = NoReload | Interval | StoreChanged

  /** UPDATE_STRATEGY: External means the store is changed outside the
      library, so the local setters leave it alone. */
  datatype UpdateStrategy = External | Internal

  /** Why a PropertyException (or a RuntimeException from a scheduled task) was raised. */
  datatype Reason =
    | FileNotFound       // the path is no regular file, or it cannot be opened
    | IntervalBelowOne   // INTERVAL reloads need an interval of at least one minute
    | InvalidNames       // a table, key column or value column name is null or empty
    | NullReloadStrategy
    | NullUpdateStrategy
    | NullContext
    | NullName
    | MalformedSource    // the properties text parser rejected the file
    | SourceUnreadable   // the SQL query or the JNDI lookup failed
    | NotAMap            // the JNDI name is bound to null or to something that is no Map
    | WriteFailed        // persisting to the file or the table failed

  /** The exception a public operation ends in. */
  datatype Error =
    | PropertyException(reason: Reason)
    | RuntimeException(reason: Reason)
    | IllegalArgumentException
    | UnsupportedOperationException

  /** What an operation answers, together with the state it leaves. */
  datatype Reply<+S, +T> = Reply(state: S, result: Result<T, Error>)

  /** The pattern used when an interval of one minute is wanted. */
  const DefaultReloadInterval: string := "*/1 * * * *"

  const CronPrefix: string := "*/"
  const CronSuffix: string := " * * * *"

  predicate IsDigit(c: char) {
    '0' <= c <= '9'
  }

  predicate AllDigits(s: string) {
    forall i :: 0 <= i < |s| ==> IsDigit(s[i])
  }

  function DigitChar(d: nat): (c: char)
    requires d < 10
    ensures IsDigit(c) && (c as int) - ('0' as int) == d
  {
    ('0' as int + d) as char
  }

  /** The decimal text of `n`, as Java appends an int to a StringBuilder. */
  function Decimal(n: nat): (s: string)
    ensures 1 <= |s|
    ensures AllDigits(s)
    ensures 1 < |s| ==> s[0] != '0'
    decreases n
  {
    if n < 10 then [DigitChar(n)] else Decimal(n / 10) + [DigitChar(n % 10)]
  }

  /** The number a string of decimal digits denotes. */
  function ParseDecimal(s: string): nat
    requires AllDigits(s)
    decreases |s|
  {
    if |s| == 0 then 0
    else 10 * ParseDecimal(s[..|s| - 1]) + ((s[|s| - 1] as int) - ('0' as int))
  }

  lemma {:induction false} DecimalRoundTrip(n: nat)
    ensures ParseDecimal(Decimal(n)) == n
    decreases n
  {
    var s := Decimal(n);
    if n >= 10 {
      DecimalRoundTrip(n / 10);
      assert s[..|s| - 1] == Decimal(n / 10);
    }
  }

  /** The cron pattern a reload every `interval` minutes is scheduled with. */
  function SchedulePattern(interval: int): (p: string)
    requires 1 <= interval
    ensures |p| > |CronPrefix| + |CronSuffix|
    ensures p[..|CronPrefix|] == CronPrefix && p[|p| - |CronSuffix|..] == CronSuffix
    ensures interval == 1 ==> p == DefaultReloadInterval
  {
    CronPrefix + Decimal(interval) + CronSuffix
  }

  // The minute interval a pattern made of CronPrefix, decimal digits and
  // CronSuffix schedules, if it has that shape.
  function IntervalOf(p: string): Option<nat> {
    if |p| <= |CronPrefix| + |CronSuffix| then None
    else if p[..|CronPrefix|] != CronPrefix || p[|p| - |CronSuffix|..] != CronSuffix then None
    else
      var digits := p[|CronPrefix|..|p| - |CronSuffix|];
      if AllDigits(digits) then Some(ParseDecimal(digits)) else None
  }

  /** The schedule pattern records its interval faithfully: distinct
      intervals give distinct patterns, and the interval can be read back. */
  lemma SchedulePatternRoundTrip(interval: int)
    requires 1 <= interval
    ensures IntervalOf(SchedulePattern(interval)) == Some(interval)
  {
    var p := SchedulePattern(interval);
    var d := Decimal(interval);
    assert p[|CronPrefix|..|p| - |CronSuffix|] == d;
    DecimalRoundTrip(interval);
  }

  /** What `Map.get` answers: the value for `key`, or null. */
  function Lookup(cache: map<string, string>, key: string): (r: Option<string>)
    ensures r.Some? <==> key in cache
    ensures r.Some? ==> r.value == cache[key]
  {
    if key in cache then Some(cache[key]) else None
  }

  /** `after` is `before` with every entry of `m` written over it: the keys
      of `m` take their new values and every other key keeps its old value
      or stays absent. This is the "replace any matching keys and add any
      non-existing ones" reading of an update without refresh. */
  ghost predicate Upserted(before: map<string, string>, m: map<string, string>, after: map<string, string>) {
    && after.Keys == before.Keys + m.Keys
    && (forall k :: k in m ==> after[k] == m[k])
    && (forall k :: k in before && k !in m ==> after[k] == before[k])
  }

  /** Map override is exactly the upsert reading, in both directions. */
  lemma UpsertIsOverride(before: map<string, string>, m: map<string, string>, after: map<string, string>)
    ensures Upserted(before, m, after) <==> after == before + m
  {
    if Upserted(before, m, after) {
      assert forall k :: k in after ==> after[k] == (before + m)[k];
    }
  }

  /** The map an update with `refresh` set leaves behind: everything
      discarded and exactly `m` adopted when `refresh` holds, the upsert
      otherwise. */
  function Written(cache: map<string, string>, m: map<string, string>, refresh: bool): (r: map<string, string>)
    ensures refresh ==> r == m
    ensures !refresh ==> Upserted(cache, m, r)
  {
    (if refresh then map[] else cache) + m
  }
}
