/**
 The rules engine's cache over whole runs: it is the bounded recency cache of the hosts that were looked
 up and saved, so a host's rule stays until enough other hosts have been used.
 */
module RulesEngineCache {
  import opened Bytes
  import opened RecencyList
  import opened RuleScan
  import opened RulesEngine
  import opened RulesEngineRuns
  import Recency = RecencyRuns

  /** What the moves of a run do to the cache. */
  function LogOf(capacity: nat, judge: Judge, run: Run): (r: Recency.Log<nat, Found>)
    requires Valid(capacity, judge, Fresh(), run)
  {
    match run
    case Begin => Recency.Start
    case More(before, Look(_, connection)) =>
      if connection.host.Some? then Recency.Then(LogOf(capacity, judge, before), Recency.Fetching(connection.host.value))
      else LogOf(capacity, judge, before)
    case More(before, Save(t)) =>
      var s := Exec(capacity, judge, Fresh(), before);
      Recency.Then(LogOf(capacity, judge, before), Recency.Setting(s.scans[t].host, Scanned(judge, s, t)))
    case More(before, ClearCache) => Recency.Then(LogOf(capacity, judge, before), Recency.Clearing)
    case More(before, _) => LogOf(capacity, judge, before)
  }

  /** In every run the cache is the recency list of those operations. */
  lemma {:induction false} CacheIsRecencyList(capacity: nat, judge: Judge, run: Run)
    requires Valid(capacity, judge, Fresh(), run)
    ensures Exec(capacity, judge, Fresh(), run).cache == Recency.Contents<nat, Found>(capacity, LogOf(capacity, judge, run))
  {
    if run.More? {
      CacheIsRecencyList(capacity, judge, run.before);
    }
  }

  /** A lookup is answered from the cache, with the rule last saved for its host, as long as fewer than
      `capacity` other hosts were found or saved since the host was. */
  lemma {:induction false} RecentHostIsServed(capacity: nat, judge: Judge, run: Run, l: nat, c: Connection)
    requires Valid(capacity, judge, Fresh(), run) && l !in Exec(capacity, judge, Fresh(), run).lookups && c.host.Some?
    requires var log := LogOf(capacity, judge, run);
             && Recency.LastSet<nat, Found>(log, c.host.value).Some?
             && |Recency.Rivals<nat, Found>(capacity, log, c.host.value)| < capacity
    ensures var f := Recency.LastSet<nat, Found>(LogOf(capacity, judge, run), c.host.value).value;
            var s := Exec(capacity, judge, Fresh(), run);
            Step(capacity, judge, s, Look(l, c)).lookups[l] == Answered(c, f.rule, Some(f))
  {
    CacheIsRecencyList(capacity, judge, run);
    Recency.RecentStaysCached<nat, Found>(capacity, LogOf(capacity, judge, run), c.host.value);
  }

  /** And without that a lookup misses and waits for a scan. */
  lemma {:induction false} UnsavedHostMisses(capacity: nat, judge: Judge, run: Run, l: nat, c: Connection)
    requires Valid(capacity, judge, Fresh(), run) && l !in Exec(capacity, judge, Fresh(), run).lookups && c.host.Some?
    requires Recency.LastSet<nat, Found>(LogOf(capacity, judge, run), c.host.value).None?
    ensures var s := Exec(capacity, judge, Fresh(), run);
            Step(capacity, judge, s, Look(l, c)).lookups[l] == Missed(c)
  {
    var s := Exec(capacity, judge, Fresh(), run);
    CacheIsRecencyList(capacity, judge, run);
    if Find<nat, Found>(s.cache, c.host.value).Some? {
      Recency.CachedIsLastSet<nat, Found>(capacity, LogOf(capacity, judge, run), c.host.value);
    }
  }
}
