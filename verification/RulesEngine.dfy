/**
 The rules engine as a machine whose steps may interleave: lookups through the cache, lookups that
 share one running scan per host, and replacement of the rules followed by a cache reset.
 */
module RulesEngine {
  import opened Bytes
  import opened RecencyList
  import opened RuleScan

  /** A rule with where it came from: the connection it was chosen for, and which of the rule lists
      set so far was scanned. The program keeps only the rule. */
  datatype Found = Found(rule: Rule, connection: Connection, version: nat)

  /** A running scan: created, holding its copy of the rules, saved in the cache, finished. */
  datatype Phase = Created | Holding(version: nat) | Saved(found: Found) | Finished(result: Found)

  datatype Scan = Scan(host: nat, connection: Connection, phase: Phase)

  /** A lookup: missed the cache, waiting for a scan, or answered. */
  datatype Lookup =
    | Missed(connection: Connection)
    | Waiting(connection: Connection, scan: nat)
    | Answered(connection: Connection, rule: Rule, from: Option<Found>)

  /** `lists` are the rule lists set so far, the current one last. */
  datatype State = State(
    lists: seq<seq<Rule>>,
    cache: Entries<nat, Found>,
    flights: map<nat, nat>,
    scans: map<nat, Scan>,
    lookups: map<nat, Lookup>)

  datatype Move =
    | Look(lookup: nat, connection: Connection)
    | Join(lookup: nat, scan: nat)
    | CopyRules(scan: nat)
    | Save(scan: nat)
    | Finish(scan: nat)
    | Return(lookup: nat)
    | SetRules(rules: seq<Rule>)
    | ClearCache

  predicate Enabled(s: State, m: Move) {
    match m
    case Look(l, _) => l !in s.lookups
    case Join(l, t) => l in s.lookups && s.lookups[l].Missed? && s.lookups[l].connection.host.Some? && t !in s.scans
    case CopyRules(t) => t in s.scans && s.scans[t].phase.Created?
    case Save(t) => t in s.scans && s.scans[t].phase.Holding? && s.scans[t].phase.version < |s.lists|
    case Finish(t) => t in s.scans && s.scans[t].phase.Saved?
    case Return(l) => l in s.lookups && s.lookups[l].Waiting? && s.lookups[l].scan in s.scans && s.scans[s.lookups[l].scan].phase.Finished?
    case SetRules(_) => true
    case ClearCache => true
  }

  function Lookups(s: State, l: nat, lookup: Lookup): (r: State) {
    s.(lookups := s.lookups[l := lookup])
  }

  function Phased(s: State, t: nat, phase: Phase): (r: State)
    requires t in s.scans
  {
    s.(scans := s.scans[t := s.scans[t].(phase := phase)])
  }

  function AfterLook(s: State, l: nat, connection: Connection): (r: State) {
    match connection.host
    case None => Lookups(s, l, Answered(connection, BUILT_IN, None))
    case Some(host) =>
      match Find<nat, Found>(s.cache, host)
      case Some(found) => Lookups(s.(cache := Touch<nat, Found>(s.cache, host)), l, Answered(connection, found.rule, Some(found)))
      case None => Lookups(s, l, Missed(connection))
  }

  /** Joins the scan running for the host, or starts one. */
  function AfterJoin(s: State, l: nat, t: nat): (r: State)
    requires Enabled(s, Join(l, t))
  {
    var connection := s.lookups[l].connection;
    var host := connection.host.value;
    if host in s.flights then Lookups(s, l, Waiting(connection, s.flights[host]))
    else Lookups(s.(flights := s.flights[host := t], scans := s.scans[t := Scan(host, connection, Created)]),
                 l, Waiting(connection, t))
  }

  function Scanned(judge: Judge, s: State, t: nat): (r: Found)
    requires Enabled(s, Save(t))
  {
    var scan := s.scans[t];
    Found(Choice(s.lists[scan.phase.version], judge, scan.connection), scan.connection, scan.phase.version)
  }

  function Step(capacity: nat, judge: Judge, s: State, m: Move): (r: State)
    requires Enabled(s, m) && s.lists != []
    ensures r.lists != []
  {
    match m
    case Look(l, connection) => AfterLook(s, l, connection)
    case Join(l, t) => AfterJoin(s, l, t)
    case CopyRules(t) => Phased(s, t, Holding(|s.lists| - 1))
    case Save(t) =>
      var found := Scanned(judge, s, t);
      Phased(s.(cache := Put<nat, Found>(capacity, s.cache, s.scans[t].host, found)), t, Saved(found))
    case Finish(t) =>
      Phased(s.(flights := s.flights - {s.scans[t].host}), t, Finished(s.scans[t].phase.found))
    case Return(l) =>
      var found := s.scans[s.lookups[l].scan].phase.result;
      Lookups(s, l, Answered(s.lookups[l].connection, found.rule, Some(found)))
    case SetRules(rules) => s.(lists := s.lists + [rules])
    case ClearCache => s.(cache := [])
  }

  /** The engine at its start: no rules. */
  function Fresh(): (r: State) {
    State([[]], [], map[], map[], map[])
  }

  // What every run keeps.

  /** A rule for a host was chosen from a list that was set, for a connection to that host. */
  predicate Sound(judge: Judge, lists: seq<seq<Rule>>, host: nat, f: Found) {
    && f.version < |lists|
    && f.connection.host == Some(host)
    && f.rule == Choice(lists[f.version], judge, f.connection)
  }

  predicate SoundPhase(judge: Judge, lists: seq<seq<Rule>>, host: nat, p: Phase) {
    match p
    case Created => true
    case Holding(v) => v < |lists|
    case Saved(f) => Sound(judge, lists, host, f)
    case Finished(f) => Sound(judge, lists, host, f)
  }

  predicate SoundCache(judge: Judge, lists: seq<seq<Rule>>, cache: Entries<nat, Found>) {
    forall i :: 0 <= i < |cache| ==> Sound(judge, lists, cache[i].0, cache[i].1)
  }

  ghost predicate SoundScans(judge: Judge, s: State) {
    forall t :: t in s.scans ==>
      && s.scans[t].connection.host == Some(s.scans[t].host)
      && SoundPhase(judge, s.lists, s.scans[t].host, s.scans[t].phase)
  }

  /** There is exactly one running scan for each host in flight, and every running scan is one. */
  ghost predicate OneScanPerHost(s: State) {
    && (forall h :: h in s.flights ==>
          s.flights[h] in s.scans && s.scans[s.flights[h]].host == h && !s.scans[s.flights[h]].phase.Finished?)
    && (forall t :: t in s.scans && !s.scans[t].phase.Finished? ==>
          s.scans[t].host in s.flights && s.flights[s.scans[t].host] == t)
  }

  predicate SoundLookup(judge: Judge, lists: seq<seq<Rule>>, scans: map<nat, Scan>, l: Lookup) {
    match l
    case Missed(c) => c.host.Some?
    case Waiting(c, t) => c.host.Some? && t in scans && scans[t].host == c.host.value
    case Answered(c, rule, from) =>
      match c.host
      case None => rule == BUILT_IN
      case Some(host) => from.Some? && Sound(judge, lists, host, from.value) && rule == from.value.rule
  }

  ghost predicate SoundLookups(judge: Judge, s: State) {
    forall l :: l in s.lookups ==> SoundLookup(judge, s.lists, s.scans, s.lookups[l])
  }

  ghost predicate Inv(judge: Judge, s: State) {
    && s.lists != [] && SoundCache(judge, s.lists, s.cache)
    && SoundScans(judge, s) && OneScanPerHost(s) && SoundLookups(judge, s)
  }

  lemma {:induction false} StepKeepsOneScan(capacity: nat, judge: Judge, s: State, m: Move)
    requires Enabled(s, m) && s.lists != [] && OneScanPerHost(s)
    ensures OneScanPerHost(Step(capacity, judge, s, m))
  {
  }

  lemma {:induction false} SoundLater(judge: Judge, lists: seq<seq<Rule>>, rules: seq<Rule>, host: nat, f: Found)
    requires Sound(judge, lists, host, f)
    ensures Sound(judge, lists + [rules], host, f)
  {
  }

  lemma {:induction false} FindIsSound(judge: Judge, lists: seq<seq<Rule>>, cache: Entries<nat, Found>, host: nat)
    requires SoundCache(judge, lists, cache) && Find<nat, Found>(cache, host).Some?
    ensures Sound(judge, lists, host, Find<nat, Found>(cache, host).value)
  {
    var e := (host, Find<nat, Found>(cache, host).value);
    var i :| 0 <= i < |cache| && cache[i] == e;
    assert Sound(judge, lists, cache[i].0, cache[i].1);
  }

  lemma {:induction false} PutIsSound(capacity: nat, judge: Judge, lists: seq<seq<Rule>>, cache: Entries<nat, Found>, host: nat, f: Found)
    requires SoundCache(judge, lists, cache) && Sound(judge, lists, host, f)
    ensures SoundCache(judge, lists, Put<nat, Found>(capacity, cache, host, f))
  {
    var r := Put<nat, Found>(capacity, cache, host, f);
    forall i | 0 <= i < |r| ensures Sound(judge, lists, r[i].0, r[i].1) {
      PutIsPart<nat, Found>(capacity, cache, host, f, r[i]);
    }
  }

  lemma {:induction false} TouchIsSound(judge: Judge, lists: seq<seq<Rule>>, cache: Entries<nat, Found>, host: nat)
    requires SoundCache(judge, lists, cache)
    ensures SoundCache(judge, lists, Touch<nat, Found>(cache, host))
  {
    var r := Touch<nat, Found>(cache, host);
    forall i | 0 <= i < |r| ensures Sound(judge, lists, r[i].0, r[i].1) {
      TouchIsPart<nat, Found>(cache, host, r[i]);
    }
  }

  lemma {:induction false} StepKeepsCache(capacity: nat, judge: Judge, s: State, m: Move)
    requires Enabled(s, m) && Inv(judge, s)
    ensures SoundCache(judge, Step(capacity, judge, s, m).lists, Step(capacity, judge, s, m).cache)
  {
    match m
    case Look(_, connection) =>
      if connection.host.Some? {
        TouchIsSound(judge, s.lists, s.cache, connection.host.value);
      }
    case Save(t) =>
      assert s.scans[t].connection.host == Some(s.scans[t].host);
      PutIsSound(capacity, judge, s.lists, s.cache, s.scans[t].host, Scanned(judge, s, t));
    case SetRules(rules) =>
      forall i | 0 <= i < |s.cache| ensures Sound(judge, s.lists + [rules], s.cache[i].0, s.cache[i].1) {
        SoundLater(judge, s.lists, rules, s.cache[i].0, s.cache[i].1);
      }
    case _ =>
  }

  lemma {:induction false} StepKeepsScans(capacity: nat, judge: Judge, s: State, m: Move)
    requires Enabled(s, m) && s.lists != [] && SoundScans(judge, s)
    ensures SoundScans(judge, Step(capacity, judge, s, m))
  {
    if m.Save? {
      assert s.scans[m.scan].connection.host == Some(s.scans[m.scan].host);
    }
  }

  lemma {:induction false} StepKeepsLookups(capacity: nat, judge: Judge, s: State, m: Move)
    requires Enabled(s, m) && Inv(judge, s)
    ensures SoundLookups(judge, Step(capacity, judge, s, m))
  {
    match m
    case Look(_, connection) =>
      if connection.host.Some? && Find<nat, Found>(s.cache, connection.host.value).Some? {
        FindIsSound(judge, s.lists, s.cache, connection.host.value);
      }
    case Join(l, t) =>
      assert SoundLookup(judge, s.lists, s.scans, s.lookups[l]);
    case Return(l) =>
      assert SoundLookup(judge, s.lists, s.scans, s.lookups[l]);
      assert SoundPhase(judge, s.lists, s.scans[s.lookups[l].scan].host, s.scans[s.lookups[l].scan].phase);
    case _ =>
  }

  /** Every step keeps the invariant. */
  lemma {:induction false} StepKeepsInv(capacity: nat, judge: Judge, s: State, m: Move)
    requires Enabled(s, m) && Inv(judge, s)
    ensures Inv(judge, Step(capacity, judge, s, m))
  {
    StepKeepsCache(capacity, judge, s, m);
    StepKeepsScans(capacity, judge, s, m);
    StepKeepsOneScan(capacity, judge, s, m);
    StepKeepsLookups(capacity, judge, s, m);
  }
}
