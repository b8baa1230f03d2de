/**
 What the rules engine guarantees over whole runs, in whatever order its steps come.
 */
module RulesEngineRuns {
  import opened Bytes
  import opened RecencyList
  import opened RuleScan
  import opened RulesEngine

  /** A run, the latest step outermost. */
  datatype Run = Begin | More(before: Run, move: Move)

  predicate Valid(capacity: nat, judge: Judge, s: State, run: Run)
    requires s.lists != []
    decreases run, 0
  {
    match run
    case Begin => true
    case More(before, m) => Valid(capacity, judge, s, before) && Enabled(Exec(capacity, judge, s, before), m)
  }

  function Exec(capacity: nat, judge: Judge, s: State, run: Run): (r: State)
    requires s.lists != [] && Valid(capacity, judge, s, run)
    ensures r.lists != []
    decreases run, 1
  {
    match run
    case Begin => s
    case More(before, m) => Step(capacity, judge, Exec(capacity, judge, s, before), m)
  }

  lemma {:induction false} OneMore(capacity: nat, judge: Judge, s: State, run: Run, m: Move, now: State)
    requires s.lists != [] && Valid(capacity, judge, s, run) && Exec(capacity, judge, s, run) == now && Enabled(now, m)
    ensures Valid(capacity, judge, s, More(run, m))
    ensures Exec(capacity, judge, s, More(run, m)) == Step(capacity, judge, now, m)
  {
  }

  lemma {:induction false} RunKeepsInv(capacity: nat, judge: Judge, s: State, run: Run)
    requires Inv(judge, s) && Valid(capacity, judge, s, run)
    ensures Inv(judge, Exec(capacity, judge, s, run))
  {
    if run.More? {
      RunKeepsInv(capacity, judge, s, run.before);
      StepKeepsInv(capacity, judge, Exec(capacity, judge, s, run.before), run.move);
    }
  }

  lemma {:induction false} FreshInv(judge: Judge)
    ensures Inv(judge, Fresh())
  {
  }

  /** Two scans for one host never run at the same time. */
  lemma {:induction false} ScansAreShared(capacity: nat, judge: Judge, run: Run, t: nat, u: nat)
    requires Valid(capacity, judge, Fresh(), run)
    requires var scans := Exec(capacity, judge, Fresh(), run).scans;
             && t in scans && u in scans && scans[t].host == scans[u].host
             && !scans[t].phase.Finished? && !scans[u].phase.Finished?
    ensures t == u
  {
    FreshInv(judge);
    RunKeepsInv(capacity, judge, Fresh(), run);
  }

  /** The connections that were looked up. */
  ghost function Connections(s: State): (r: set<Connection>) {
    set l | l in s.lookups :: s.lookups[l].connection
  }

  predicate PhaseFrom(p: Phase, cs: set<Connection>) {
    match p
    case Saved(f) => f.connection in cs
    case Finished(f) => f.connection in cs
    case _ => true
  }

  /** Every rule in the engine was chosen for a connection that was looked up. */
  ghost predicate FromLookups(s: State) {
    var cs := Connections(s);
    && (forall i :: 0 <= i < |s.cache| ==> s.cache[i].1.connection in cs)
    && (forall t :: t in s.scans ==> s.scans[t].connection in cs && PhaseFrom(s.scans[t].phase, cs))
    && (forall l :: l in s.lookups && s.lookups[l].Answered? && s.lookups[l].from.Some? ==> s.lookups[l].from.value.connection in cs)
  }

  lemma {:induction false} ConnectionsGrow(capacity: nat, judge: Judge, s: State, m: Move)
    requires Enabled(s, m) && s.lists != []
    ensures Connections(s) <= Connections(Step(capacity, judge, s, m))
  {
    var r := Step(capacity, judge, s, m);
    forall c | c in Connections(s) ensures c in Connections(r) {
      var l :| l in s.lookups && s.lookups[l].connection == c;
      assert l in r.lookups && r.lookups[l].connection == c;
    }
  }

  lemma {:induction false} CacheFromLookups(capacity: nat, judge: Judge, s: State, m: Move, i: nat)
    requires Enabled(s, m) && s.lists != [] && FromLookups(s)
    requires i < |Step(capacity, judge, s, m).cache|
    ensures Step(capacity, judge, s, m).cache[i].1.connection in Connections(s)
  {
    var r := Step(capacity, judge, s, m);
    match m
    case Look(_, connection) =>
      if connection.host.Some? && Find<nat, Found>(s.cache, connection.host.value).Some? {
        TouchIsPart<nat, Found>(s.cache, connection.host.value, r.cache[i]);
      }
    case Save(t) => PutIsPart<nat, Found>(capacity, s.cache, s.scans[t].host, Scanned(judge, s, t), r.cache[i]);
    case _ =>
  }

  lemma {:induction false} FoundIsCached(cache: Entries<nat, Found>, host: nat) returns (i: nat)
    requires Find<nat, Found>(cache, host).Some?
    ensures i < |cache| && cache[i].1 == Find<nat, Found>(cache, host).value
  {
    var e := (host, Find<nat, Found>(cache, host).value);
    i :| 0 <= i < |cache| && cache[i] == e;
  }

  lemma {:induction false} ScansFromLookups(capacity: nat, judge: Judge, s: State, m: Move, t: nat)
    requires Enabled(s, m) && s.lists != [] && FromLookups(s)
    requires t in Step(capacity, judge, s, m).scans
    ensures var scan := Step(capacity, judge, s, m).scans[t];
            scan.connection in Connections(s) && PhaseFrom(scan.phase, Connections(s))
  {
    if m.Join? {
      assert s.lookups[m.lookup].connection in Connections(s);
    }
  }

  lemma {:induction false} AnswersFromLookups(capacity: nat, judge: Judge, s: State, m: Move, l: nat)
    requires Enabled(s, m) && s.lists != [] && FromLookups(s)
    requires var lookups := Step(capacity, judge, s, m).lookups; l in lookups && lookups[l].Answered? && lookups[l].from.Some?
    ensures Step(capacity, judge, s, m).lookups[l].from.value.connection in Connections(s)
  {
    if m.Look? && m.lookup == l {
      var i := FoundIsCached(s.cache, m.connection.host.value);
    } else if m.Return? && m.lookup == l {
      assert PhaseFrom(s.scans[s.lookups[l].scan].phase, Connections(s));
    }
  }

  lemma {:induction false} StepKeepsFromLookups(capacity: nat, judge: Judge, s: State, m: Move)
    requires Enabled(s, m) && s.lists != [] && FromLookups(s)
    ensures FromLookups(Step(capacity, judge, s, m))
  {
    var r := Step(capacity, judge, s, m);
    ConnectionsGrow(capacity, judge, s, m);
    forall i | 0 <= i < |r.cache| ensures r.cache[i].1.connection in Connections(r) {
      CacheFromLookups(capacity, judge, s, m, i);
    }
    forall t | t in r.scans ensures r.scans[t].connection in Connections(r) && PhaseFrom(r.scans[t].phase, Connections(r)) {
      ScansFromLookups(capacity, judge, s, m, t);
    }
    forall l | l in r.lookups && r.lookups[l].Answered? && r.lookups[l].from.Some?
      ensures r.lookups[l].from.value.connection in Connections(r) {
      AnswersFromLookups(capacity, judge, s, m, l);
    }
  }

  lemma {:induction false} RunKeepsFromLookups(capacity: nat, judge: Judge, run: Run)
    requires Valid(capacity, judge, Fresh(), run)
    ensures FromLookups(Exec(capacity, judge, Fresh(), run))
  {
    if run.More? {
      RunKeepsFromLookups(capacity, judge, run.before);
      StepKeepsFromLookups(capacity, judge, Exec(capacity, judge, Fresh(), run.before), run.move);
    }
  }

  /** Whatever the order of the steps, a connection to a host gets the rule that some list set so far
      gives for some connection to that host that was looked up; without a host it gets the built-in
      rule. */
  lemma {:induction false} AnswersAreChoices(capacity: nat, judge: Judge, run: Run, l: nat)
    requires Valid(capacity, judge, Fresh(), run)
    requires var lookups := Exec(capacity, judge, Fresh(), run).lookups; l in lookups && lookups[l].Answered?
    ensures var s := Exec(capacity, judge, Fresh(), run);
            var a := s.lookups[l];
            if a.connection.host.None? then a.rule == BUILT_IN
            else exists v, k :: 0 <= v < |s.lists| && k in s.lookups && s.lookups[k].connection.host == a.connection.host &&
                                a.rule == Choice(s.lists[v], judge, s.lookups[k].connection)
  {
    FreshInv(judge);
    RunKeepsInv(capacity, judge, Fresh(), run);
    RunKeepsFromLookups(capacity, judge, run);
    var s := Exec(capacity, judge, Fresh(), run);
    assert SoundLookup(judge, s.lists, s.scans, s.lookups[l]);
    if s.lookups[l].connection.host.Some? {
      var f := s.lookups[l].from.value;
      var k :| k in s.lookups && s.lookups[k].connection == f.connection;
      assert s.lookups[l].rule == Choice(s.lists[f.version], judge, s.lookups[k].connection);
    }
  }

  // Rules that look at more than the host.

  ghost predicate HostOnly(judge: Judge) {
    forall rule, c: Connection, d: Connection :: c.host == d.host ==> judge(rule, c) == judge(rule, d)
  }

  lemma {:induction false} ChoiceByHost(rules: seq<Rule>, judge: Judge, c: Connection, d: Connection)
    requires HostOnly(judge) && c.host == d.host
    ensures Choice(rules, judge, c) == Choice(rules, judge, d)
  {
    MatchByHost(rules, judge, c, d);
  }

  lemma {:induction false} MatchByHost(rules: seq<Rule>, judge: Judge, c: Connection, d: Connection)
    requires HostOnly(judge) && c.host == d.host
    ensures FirstMatch(rules, judge, c) == FirstMatch(rules, judge, d)
  {
    if rules != [] {
      assert judge(rules[0], c) == judge(rules[0], d);
      MatchByHost(rules[1..], judge, c, d);
    }
  }

  /** When rules look at the host only, the answer is a choice for the connection itself. */
  lemma {:induction false} HostOnlyAnswers(capacity: nat, judge: Judge, run: Run, l: nat)
    requires Valid(capacity, judge, Fresh(), run) && HostOnly(judge)
    requires var lookups := Exec(capacity, judge, Fresh(), run).lookups; l in lookups && lookups[l].Answered?
    requires Exec(capacity, judge, Fresh(), run).lookups[l].connection.host.Some?
    ensures var s := Exec(capacity, judge, Fresh(), run);
            exists v :: 0 <= v < |s.lists| && s.lookups[l].rule == Choice(s.lists[v], judge, s.lookups[l].connection)
  {
    AnswersAreChoices(capacity, judge, run, l);
    var s := Exec(capacity, judge, Fresh(), run);
    var v, k :| 0 <= v < |s.lists| && k in s.lookups && s.lookups[k].connection.host == s.lookups[l].connection.host &&
                s.lookups[l].rule == Choice(s.lists[v], judge, s.lookups[k].connection);
    ChoiceByHost(s.lists[v], judge, s.lookups[k].connection, s.lookups[l].connection);
  }

  // Coherence with the current rules.

  function Current(s: State): (r: seq<Rule>)
    requires s.lists != []
  {
    s.lists[|s.lists| - 1]
  }

  /** Every cached rule is what the current list gives for the connection it was chosen for. */
  predicate Coherent(judge: Judge, s: State)
    requires s.lists != []
  {
    forall i :: 0 <= i < |s.cache| ==> s.cache[i].1.rule == Choice(Current(s), judge, s.cache[i].1.connection)
  }

  /** The copy of the rules that a scan holds makes another choice than the current list. */
  predicate Outdated(judge: Judge, s: State, t: nat)
    requires s.lists != []
  {
    && Enabled(s, Save(t))
    && Scanned(judge, s, t).rule != Choice(Current(s), judge, s.scans[t].connection)
  }

  ghost predicate NoneOutdated(judge: Judge, s: State)
    requires s.lists != []
  {
    forall t :: t in s.scans ==> !Outdated(judge, s, t)
  }

  predicate NeverSets(run: Run) {
    run.More? ==> !run.move.SetRules? && NeverSets(run.before)
  }

  lemma {:induction false} StepKeepsCoherence(capacity: nat, judge: Judge, s: State, m: Move)
    requires Enabled(s, m) && s.lists != [] && Coherent(judge, s) && NoneOutdated(judge, s) && !m.SetRules?
    ensures Coherent(judge, Step(capacity, judge, s, m))
  {
    var r := Step(capacity, judge, s, m);
    match m
    case Look(_, connection) =>
      if connection.host.Some? && Find<nat, Found>(s.cache, connection.host.value).Some? {
        forall i | 0 <= i < |r.cache| ensures r.cache[i].1.rule == Choice(Current(r), judge, r.cache[i].1.connection) {
          TouchIsPart<nat, Found>(s.cache, connection.host.value, r.cache[i]);
        }
      }
    case Save(t) =>
      assert !Outdated(judge, s, t);
      forall i | 0 <= i < |r.cache| ensures r.cache[i].1.rule == Choice(Current(r), judge, r.cache[i].1.connection) {
        PutIsPart<nat, Found>(capacity, s.cache, s.scans[t].host, Scanned(judge, s, t), r.cache[i]);
      }
    case _ =>
  }

  lemma {:induction false} StepKeepsNoneOutdated(capacity: nat, judge: Judge, s: State, m: Move)
    requires Enabled(s, m) && s.lists != [] && NoneOutdated(judge, s) && !m.SetRules?
    ensures NoneOutdated(judge, Step(capacity, judge, s, m))
  {
    var r := Step(capacity, judge, s, m);
    forall t | t in r.scans ensures !Outdated(judge, r, t) {
      if t in s.scans && r.scans[t] == s.scans[t] {
        assert !Outdated(judge, s, t);
      }
    }
  }

  lemma {:induction false} RunKeepsCoherence(capacity: nat, judge: Judge, s: State, run: Run)
    requires s.lists != [] && Valid(capacity, judge, s, run) && NeverSets(run) && Coherent(judge, s) && NoneOutdated(judge, s)
    ensures Coherent(judge, Exec(capacity, judge, s, run)) && NoneOutdated(judge, Exec(capacity, judge, s, run))
  {
    if run.More? {
      RunKeepsCoherence(capacity, judge, s, run.before);
      StepKeepsCoherence(capacity, judge, Exec(capacity, judge, s, run.before), run.move);
      StepKeepsNoneOutdated(capacity, judge, Exec(capacity, judge, s, run.before), run.move);
    }
  }

  /** However the run goes on, the cache is coherent until the rules are replaced. */
  ghost predicate StaysCoherent(capacity: nat, judge: Judge, s: State)
    requires s.lists != []
  {
    forall run: Run :: Valid(capacity, judge, s, run) && NeverSets(run) ==> Coherent(judge, Exec(capacity, judge, s, run))
  }

  /** Saving an outdated choice puts a rule in the cache that the current list does not give, and the
      next lookup of that connection gets it. */
  lemma {:induction false} OutdatedIsServed(capacity: nat, judge: Judge, s: State, t: nat, l: nat)
    requires capacity > 0 && Inv(judge, s) && Outdated(judge, s, t) && l !in s.lookups
    ensures var saved := Step(capacity, judge, s, Save(t));
            var r := Step(capacity, judge, saved, Look(l, s.scans[t].connection));
            && !Coherent(judge, saved)
            && r.lookups[l].Answered? && r.lookups[l].rule != Choice(Current(r), judge, s.scans[t].connection)
  {
    var saved := Step(capacity, judge, s, Save(t));
    assert s.scans[t].connection.host == Some(s.scans[t].host);
    assert saved.cache[0] == (s.scans[t].host, Scanned(judge, s, t));
  }

  /** At any point of any run, the cache is and stays coherent with the current rules, until they are
      replaced, exactly when it is now and no scan holds a copy whose choice is outdated. */
  lemma {:induction false} CoherentExactly(capacity: nat, judge: Judge, run: Run)
    requires capacity > 0 && Valid(capacity, judge, Fresh(), run)
    ensures var s := Exec(capacity, judge, Fresh(), run);
            StaysCoherent(capacity, judge, s) <==> Coherent(judge, s) && NoneOutdated(judge, s)
  {
    var s := Exec(capacity, judge, Fresh(), run);
    FreshInv(judge);
    RunKeepsInv(capacity, judge, Fresh(), run);
    if Coherent(judge, s) && NoneOutdated(judge, s) {
      forall more: Run | Valid(capacity, judge, s, more) && NeverSets(more) ensures Coherent(judge, Exec(capacity, judge, s, more)) {
        RunKeepsCoherence(capacity, judge, s, more);
      }
    } else if !Coherent(judge, s) {
      assert Valid(capacity, judge, s, Begin) && NeverSets(Begin) && !Coherent(judge, Exec(capacity, judge, s, Begin));
    } else {
      var t :| t in s.scans && Outdated(judge, s, t);
      var l := Unused(s.lookups.Keys);
      OutdatedIsServed(capacity, judge, s, t, l);
      var more := More(Begin, Save(t));
      OneMore(capacity, judge, s, Begin, Save(t), s);
      assert Valid(capacity, judge, s, more) && NeverSets(more) && !Coherent(judge, Exec(capacity, judge, s, more));
    }
  }

  lemma {:induction false} Unused(used: set<nat>) returns (l: nat)
    ensures l !in used && forall x :: x in used ==> x < l
    decreases |used|
  {
    if used == {} {
      l := 0;
    } else {
      var x :| x in used;
      var rest := Unused(used - {x});
      assert forall y :: y in used ==> y == x || y in used - {x};
      l := if rest > x then rest else x + 1;
    }
  }

  /** Right after a reset it is a matter of the scans alone. */
  lemma {:induction false} ResetIsCoherentExactly(capacity: nat, judge: Judge, run: Run)
    requires capacity > 0 && Valid(capacity, judge, Fresh(), More(run, ClearCache))
    ensures var s := Exec(capacity, judge, Fresh(), More(run, ClearCache));
            StaysCoherent(capacity, judge, s) <==> NoneOutdated(judge, s)
  {
    CoherentExactly(capacity, judge, More(run, ClearCache));
  }

  /** A run goes on without setting rules. */
  predicate GoesOnUnchanged(run: Run, more: Run) {
    more == run || (more.More? && !more.move.SetRules? && GoesOnUnchanged(run, more.before))
  }

  lemma {:induction false} NothingInFlight(judge: Judge, s: State, rules: seq<Rule>)
    requires Inv(judge, s) && s.flights == map[]
    ensures NoneOutdated(judge, s.(lists := s.lists + [rules]))
  {
    var r := s.(lists := s.lists + [rules]);
    forall t | t in r.scans ensures !Outdated(judge, r, t) {
      assert s.scans[t].phase.Finished?;
    }
  }

  lemma {:induction false} StaysNoneOutdated(capacity: nat, judge: Judge, run: Run, more: Run)
    requires Valid(capacity, judge, Fresh(), run) && Valid(capacity, judge, Fresh(), more) && GoesOnUnchanged(run, more)
    requires NoneOutdated(judge, Exec(capacity, judge, Fresh(), run))
    ensures NoneOutdated(judge, Exec(capacity, judge, Fresh(), more))
  {
    if more != run {
      StaysNoneOutdated(capacity, judge, run, more.before);
      StepKeepsNoneOutdated(capacity, judge, Exec(capacity, judge, Fresh(), more.before), more.move);
    }
  }

  /** What a caller can see to: if no lookup is in flight when the rules are set, then after the reset,
      whatever comes between the two, the cache is and stays coherent until the rules are replaced. */
  lemma {:induction false} QuietChangeIsCoherent(capacity: nat, judge: Judge, run: Run, rules: seq<Rule>, more: Run)
    requires capacity > 0 && Valid(capacity, judge, Fresh(), run) && Exec(capacity, judge, Fresh(), run).flights == map[]
    requires GoesOnUnchanged(More(run, SetRules(rules)), more) && Valid(capacity, judge, Fresh(), More(more, ClearCache))
    ensures StaysCoherent(capacity, judge, Exec(capacity, judge, Fresh(), More(more, ClearCache)))
  {
    var s := Exec(capacity, judge, Fresh(), run);
    FreshInv(judge);
    RunKeepsInv(capacity, judge, Fresh(), run);
    NothingInFlight(judge, s, rules);
    OneMore(capacity, judge, Fresh(), run, SetRules(rules), s);
    StaysNoneOutdated(capacity, judge, More(run, SetRules(rules)), More(more, ClearCache));
    ResetIsCoherentExactly(capacity, judge, more);
  }

  /** A lookup that starts after the rules were replaced and the cache was reset, and is answered with
      a rule of the old list that the new one does not give. */
  lemma {:induction false} OldRuleAfterReset(capacity: nat, judge: Judge, rule: Rule, c: Connection)
    requires capacity > 0 && c.host.Some? && rule != BUILT_IN && judge(rule, c).Yes?
    ensures var copied := More(More(More(More(Begin, SetRules([rule])), Look(0, c)), Join(0, 0)), CopyRules(0));
            var run := More(More(More(More(copied, SetRules([])), ClearCache), Save(0)), Look(1, c));
            && Valid(capacity, judge, Fresh(), run)
            && var s := Exec(capacity, judge, Fresh(), run);
               1 in s.lookups && s.lookups[1].Answered? && s.lookups[1].connection == c && s.lookups[1].rule == rule
               && Current(s) == [] && Choice(Current(s), judge, c) == BUILT_IN
  {
    var s3 := CopiedRun(capacity, judge, rule, c);
    var r4 := More(More(More(More(Begin, SetRules([rule])), Look(0, c)), Join(0, 0)), CopyRules(0));
    var s4 := Step(capacity, judge, s3, SetRules([]));
    var s5 := Step(capacity, judge, s4, ClearCache);
    var s6 := Step(capacity, judge, s5, Save(0));
    assert s6.cache == [(c.host.value, Found(rule, c, 1))];
    assert Find<nat, Found>(s6.cache, c.host.value) == Some(Found(rule, c, 1));
    OneMore(capacity, judge, Fresh(), r4, SetRules([]), s3);
    OneMore(capacity, judge, Fresh(), More(r4, SetRules([])), ClearCache, s4);
    OneMore(capacity, judge, Fresh(), More(More(r4, SetRules([])), ClearCache), Save(0), s5);
    OneMore(capacity, judge, Fresh(), More(More(More(r4, SetRules([])), ClearCache), Save(0)), Look(1, c), s6);
  }

  /** One rule is set and the scan for a connection has copied it. */
  lemma {:induction false} CopiedRun(capacity: nat, judge: Judge, rule: Rule, c: Connection) returns (s: State)
    requires c.host.Some? && judge(rule, c).Yes?
    ensures var run := More(More(More(More(Begin, SetRules([rule])), Look(0, c)), Join(0, 0)), CopyRules(0));
            Valid(capacity, judge, Fresh(), run) && Exec(capacity, judge, Fresh(), run) == s
    ensures s.lists == [[], [rule]] && s.cache == [] && s.scans == map[0 := Scan(c.host.value, c, Holding(1))]
    ensures s.lookups == map[0 := Waiting(c, 0)] && Choice([rule], judge, c) == rule
  {
    var s0 := Step(capacity, judge, Fresh(), SetRules([rule]));
    var s1 := Step(capacity, judge, s0, Look(0, c));
    assert s1.lookups == map[0 := Missed(c)];
    var s2 := Step(capacity, judge, s1, Join(0, 0));
    assert s2.scans == map[0 := Scan(c.host.value, c, Created)];
    s := Step(capacity, judge, s2, CopyRules(0));
    var r1 := More(Begin, SetRules([rule]));
    OneMore(capacity, judge, Fresh(), Begin, SetRules([rule]), Fresh());
    OneMore(capacity, judge, Fresh(), r1, Look(0, c), s0);
    OneMore(capacity, judge, Fresh(), More(r1, Look(0, c)), Join(0, 0), s1);
    OneMore(capacity, judge, Fresh(), More(More(r1, Look(0, c)), Join(0, 0)), CopyRules(0), s2);
  }

  /** A rule that is not FINAL and looks past the host can be given to a connection for which no
      list set so far would choose it. */
  lemma {:induction false} SharedHostSharesRule(capacity: nat, judge: Judge, rule: Rule, c: Connection, d: Connection)
    requires capacity > 0 && c.host.Some? && c.host == d.host && !rule.isFinal
    requires judge(rule, c).Yes? && !judge(rule, d).Yes?
    ensures var run := More(More(More(More(More(More(Begin, SetRules([rule])), Look(0, c)), Join(0, 0)), CopyRules(0)), Save(0)), Look(1, d));
            && Valid(capacity, judge, Fresh(), run)
            && var s := Exec(capacity, judge, Fresh(), run);
               1 in s.lookups && s.lookups[1].Answered? && s.lookups[1].connection == d && s.lookups[1].rule == rule
               && forall v :: 0 <= v < |s.lists| ==> Choice(s.lists[v], judge, d) != rule
  {
    var s3 := CopiedRun(capacity, judge, rule, c);
    var r4 := More(More(More(More(Begin, SetRules([rule])), Look(0, c)), Join(0, 0)), CopyRules(0));
    var s4 := Step(capacity, judge, s3, Save(0));
    assert s4.cache == [(c.host.value, Found(rule, c, 1))];
    assert Find<nat, Found>(s4.cache, c.host.value) == Some(Found(rule, c, 1));
    NoneMatches([rule], judge, d);
    NoFinal([rule]);
    assert Choice([], judge, d) == BUILT_IN && Choice([rule], judge, d) == BUILT_IN;
    OneMore(capacity, judge, Fresh(), r4, Save(0), s3);
    OneMore(capacity, judge, Fresh(), More(r4, Save(0)), Look(1, d), s4);
  }

  // No lookup waits forever.

  function StepsLeft(p: Phase): (r: nat) {
    match p
    case Created => 3
    case Holding(_) => 2
    case Saved(_) => 1
    case Finished(_) => 0
  }

  function NextMove(t: nat, p: Phase): (r: Move)
    requires !p.Finished?
  {
    match p
    case Created => CopyRules(t)
    case Holding(_) => Save(t)
    case Saved(_) => Finish(t)
  }

  /** A run goes on with steps of one scan, and the return of one lookup, only. */
  predicate GoesOnWith(run: Run, more: Run, t: nat, l: nat) {
    more == run ||
    (more.More? && more.move in {CopyRules(t), Save(t), Finish(t), Return(l)} && GoesOnWith(run, more.before, t, l))
  }

  function Length(run: Run): (r: nat) {
    if run.Begin? then 0 else 1 + Length(run.before)
  }

  lemma {:induction false} GoesOnLonger(run: Run, m: Move, more: Run, t: nat, l: nat)
    requires m in {CopyRules(t), Save(t), Finish(t), Return(l)} && GoesOnWith(More(run, m), more, t, l)
    ensures GoesOnWith(run, more, t, l)
  {
    if more != More(run, m) {
      GoesOnLonger(run, m, more.before, t, l);
    } else {
      assert GoesOnWith(run, more.before, t, l);
    }
  }

  lemma {:induction false} ScanGoesOn(capacity: nat, judge: Judge, run: Run, l: nat) returns (more: Run)
    requires Valid(capacity, judge, Fresh(), run) && Inv(judge, Exec(capacity, judge, Fresh(), run))
    requires var r := Exec(capacity, judge, Fresh(), run); l in r.lookups && r.lookups[l].Waiting? && r.lookups[l].scan in r.scans
    ensures Valid(capacity, judge, Fresh(), more)
    ensures var s, r := Exec(capacity, judge, Fresh(), run), Exec(capacity, judge, Fresh(), more);
            var t := s.lookups[l].scan;
            && l in r.lookups && r.lookups[l].Answered? && r.lookups[l].connection == s.lookups[l].connection
            && GoesOnWith(run, more, t, l)
            && Length(more) == Length(run) + StepsLeft(s.scans[t].phase) + 1
    decreases var r := Exec(capacity, judge, Fresh(), run); StepsLeft(r.scans[r.lookups[l].scan].phase)
  {
    var r := Exec(capacity, judge, Fresh(), run);
    var t := r.lookups[l].scan;
    var phase := r.scans[t].phase;
    assert SoundPhase(judge, r.lists, r.scans[t].host, phase);
    if phase.Finished? {
      OneMore(capacity, judge, Fresh(), run, Return(l), r);
      more := More(run, Return(l));
      assert GoesOnWith(run, more.before, t, l);
    } else {
      var m := NextMove(t, phase);
      OneMore(capacity, judge, Fresh(), run, m, r);
      StepKeepsInv(capacity, judge, r, m);
      more := ScanGoesOn(capacity, judge, More(run, m), l);
      GoesOnLonger(run, m, more, t, l);
    }
  }

  /** From every state of every run, a waiting lookup is answered by at most three steps of the scan it
      waits for and its own return, whatever else is going on. */
  lemma {:induction false} WaitEnds(capacity: nat, judge: Judge, run: Run, l: nat) returns (more: Run)
    requires Valid(capacity, judge, Fresh(), run)
    requires var r := Exec(capacity, judge, Fresh(), run); l in r.lookups && r.lookups[l].Waiting?
    ensures Valid(capacity, judge, Fresh(), more)
    ensures var s, r := Exec(capacity, judge, Fresh(), run), Exec(capacity, judge, Fresh(), more);
            && l in r.lookups && r.lookups[l].Answered? && r.lookups[l].connection == s.lookups[l].connection
            && GoesOnWith(run, more, s.lookups[l].scan, l) && Length(more) <= Length(run) + 4
  {
    var r := Exec(capacity, judge, Fresh(), run);
    FreshInv(judge);
    RunKeepsInv(capacity, judge, Fresh(), run);
    assert SoundLookup(judge, r.lists, r.scans, r.lookups[l]);
    more := ScanGoesOn(capacity, judge, run, l);
  }
}
