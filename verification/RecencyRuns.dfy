/**
 What a bounded cache holds after any run of its operations: the value last set, for exactly the
 keys that fewer than `capacity` other keys have overtaken.
 */
module RecencyRuns {
  import opened Bytes
  import opened RecencyList

  datatype Op<K, V> = Setting(key: K, value: V) | Fetching(key: K) | Removing(key: K) | Clearing

  /** The operations of a run, the latest one outermost. */
  datatype Log<K, V> = Start | Then(before: Log<K, V>, op: Op<K, V>)

  function Apply<K(==), V>(capacity: nat, es: Entries<K, V>, op: Op<K, V>): (r: Entries<K, V>) {
    match op
    case Setting(k, v) => Put(capacity, es, k, v)
    case Fetching(k) => Touch(es, k)
    case Removing(k) => Without(es, k)
    case Clearing => []
  }

  function Contents<K(==), V>(capacity: nat, log: Log<K, V>): (r: Entries<K, V>) {
    match log
    case Start => []
    case Then(before, op) => Apply(capacity, Contents(capacity, before), op)
  }

  /** What the run last set for a key, unless it was removed since. */
  function LastSet<K(==), V>(log: Log<K, V>, k: K): (r: Option<V>) {
    match log
    case Start => None
    case Then(before, Setting(j, v)) => if j == k then Some(v) else LastSet(before, k)
    case Then(before, Fetching(_)) => LastSet(before, k)
    case Then(before, Removing(j)) => if j == k then None else LastSet(before, k)
    case Then(_, Clearing) => None
  }

  /** An operation uses a key by setting it, or by finding it. */
  predicate Uses<K(==), V>(es: Entries<K, V>, op: Op<K, V>, k: K) {
    match op
    case Setting(j, _) => j == k
    case Fetching(j) => j == k && Find(es, k).Some?
    case _ => false
  }

  predicate Forgets<K(==), V>(op: Op<K, V>, k: K) {
    op.Clearing? || (op.Removing? && op.key == k)
  }

  /** The key an operation moves to the front, if any. */
  function Front<K(==), V>(es: Entries<K, V>, op: Op<K, V>): (r: Option<K>) {
    if !op.Clearing? && Uses(es, op, op.key) then Some(op.key) else None
  }

  /** The keys used since the last use of `k`. */
  function Rivals<K(==), V>(capacity: nat, log: Log<K, V>, k: K): (r: set<K>) {
    match log
    case Start => {}
    case Then(before, op) =>
      var es := Contents(capacity, before);
      if Uses(es, op, k) || Forgets(op, k) then {}
      else match Front(es, op)
        case Some(j) => Rivals(capacity, before, k) + {j}
        case None => Rivals(capacity, before, k)
  }

  predicate NeverRemoves<K, V>(log: Log<K, V>) {
    match log
    case Start => true
    case Then(before, op) => !op.Removing? && !op.Clearing? && NeverRemoves(before)
  }

  /** The keys in front of a key. */
  function Ahead<K(==), V>(es: Entries<K, V>, k: K): (r: set<K>) {
    if es == [] || es[0].0 == k then {} else Ahead(es[1..], k) + {es[0].0}
  }

  lemma {:induction false} FindWithout<K, V>(es: Entries<K, V>, j: K, k: K)
    ensures Find(Without(es, j), k) == if j == k then None else Find(es, k)
    ensures j != k ==> Ahead(Without(es, j), k) == Ahead(es, k) - {j}
    decreases |es|
  {
    if es != [] {
      FindWithout(es[1..], j, k);
      if es[0].0 != j {
        assert Without(es, j)[1..] == Without(es[1..], j);
      }
    }
  }

  lemma {:induction false} FindFirst<K, V>(es: Entries<K, V>, j: K, v: V, k: K)
    ensures Find([(j, v)] + es, k) == if j == k then Some(v) else Find(es, k)
    ensures Ahead([(j, v)] + es, k) == if j == k then {} else Ahead(es, k) + {j}
  {
    assert ([(j, v)] + es)[1..] == es;
  }

  /** Dropping the last entry loses that key only. */
  lemma {:induction false} FindButLast<K, V>(es: Entries<K, V>, k: K)
    requires es != [] && Distinct(es)
    ensures Find(es[..|es| - 1], k) == if es[|es| - 1].0 == k then None else Find(es, k)
    decreases |es|
  {
    var r := es[..|es| - 1];
    if |es| > 1 {
      assert es[1..][..|es| - 2] == r[1..];
      assert es[1..][|es| - 2] == es[|es| - 1];
      FindButLast(es[1..], k);
    }
  }

  lemma {:induction false} AheadButLast<K, V>(es: Entries<K, V>, k: K)
    requires es != [] && es[|es| - 1].0 != k && Find(es, k).Some?
    ensures Ahead(es[..|es| - 1], k) == Ahead(es, k)
    decreases |es|
  {
    var r := es[..|es| - 1];
    if |es| > 1 && es[0].0 != k {
      assert es[1..][..|es| - 2] == r[1..];
      assert es[1..][|es| - 2] == es[|es| - 1];
      AheadButLast(es[1..], k);
    }
  }

  /** All other keys are in front of the last one. */
  lemma {:induction false} AheadOfLast<K, V>(es: Entries<K, V>)
    requires es != [] && Distinct(es)
    ensures |Ahead(es, es[|es| - 1].0)| == |es| - 1
    decreases |es|
  {
    var k := es[|es| - 1].0;
    if |es| > 1 {
      assert es[1..][|es| - 2] == es[|es| - 1];
      AheadOfLast(es[1..]);
      AheadAreKeys(es[1..], k, es[0].0);
    }
  }

  lemma {:induction false} AheadAreKeys<K, V>(es: Entries<K, V>, k: K, j: K)
    ensures j in Ahead(es, k) ==> HasKey(es, j) && j != k
    ensures |Ahead(es, k)| <= |es|
    ensures Find(es, k).Some? ==> |Ahead(es, k)| < |es|
    decreases |es|
  {
    if es != [] && es[0].0 != k {
      AheadAreKeys(es[1..], k, j);
      if j in Ahead(es[1..], k) {
        var i :| 0 <= i < |es[1..]| && es[1..][i].0 == j;
        assert es[i + 1].0 == j;
      }
      if j == es[0].0 {
        assert HasKey(es, j);
      }
    }
  }

  lemma {:induction false} WithoutKeepsDistinct<K, V>(es: Entries<K, V>, k: K)
    requires Distinct(es)
    ensures Distinct(Without(es, k))
    ensures |Without(es, k)| == if HasKey(es, k) then |es| - 1 else |es|
  {
    if i :| 0 <= i < |es| && es[i].0 == k {
      WithoutAt(es, i);
    } else {
      WithoutAbsent(es, k);
    }
  }

  /** Every operation keeps the keys distinct and no more than `capacity` of them. */
  lemma {:induction false} ApplyKeepsBounds<K, V>(capacity: nat, es: Entries<K, V>, op: Op<K, V>)
    requires Distinct(es) && |es| <= capacity
    ensures Distinct(Apply(capacity, es, op)) && |Apply(capacity, es, op)| <= capacity
  {
    if !op.Clearing? {
      WithoutKeepsDistinct(es, op.key);
      FindWithout(es, op.key, op.key);
    }
  }

  lemma {:induction false} ContentsAreBounded<K, V>(capacity: nat, log: Log<K, V>)
    ensures Distinct(Contents(capacity, log)) && |Contents(capacity, log)| <= capacity
  {
    if log.Then? {
      ContentsAreBounded(capacity, log.before);
      ApplyKeepsBounds(capacity, Contents(capacity, log.before), log.op);
    }
  }

  /** What one operation does to the value found for a key. */
  lemma {:induction false} FindAfter<K, V>(capacity: nat, es: Entries<K, V>, op: Op<K, V>, k: K)
    requires Distinct(es) && |es| <= capacity
    ensures Find(Apply(capacity, es, op), k).Some? ==>
              Find(Apply(capacity, es, op), k) == if op.Setting? && op.key == k then Some(op.value) else Find(es, k)
    ensures Forgets(op, k) ==> Find(Apply(capacity, es, op), k).None?
  {
    match op
    case Setting(j, v) =>
      FindFirst(es, j, v, k);
      if HasKey(es, j) {
        FindFirst(Without(es, j), j, v, k);
        FindWithout(es, j, k);
      } else {
        var all := [(j, v)] + es;
        if |es| + 1 > capacity {
          assert all[..|es|] == all[..|all| - 1];
          FindButLast(all, k);
        }
      }
    case Fetching(j) =>
      if Find(es, j).Some? {
        FindFirst(Without(es, j), j, Find(es, j).value, k);
        FindWithout(es, j, k);
      }
    case Removing(j) => FindWithout(es, j, k);
    case Clearing =>
  }

  /** Whatever is cached for a key is what was last set for it, and not removed since. */
  lemma {:induction false} CachedIsLastSet<K, V>(capacity: nat, log: Log<K, V>, k: K)
    requires Find(Contents(capacity, log), k).Some?
    ensures LastSet(log, k) == Find(Contents(capacity, log), k)
  {
    ContentsAreBounded(capacity, log.before);
    FindAfter(capacity, Contents(capacity, log.before), log.op, k);
    if log.op.Setting? && log.op.key == k {
    } else {
      CachedIsLastSet(capacity, log.before, k);
    }
  }

  /** Moving a key to the front puts it ahead of every other one. */
  lemma {:induction false} MovedAhead<K, V>(es: Entries<K, V>, j: K, v: V, k: K)
    requires j != k
    ensures Find([(j, v)] + Without(es, j), k) == Find(es, k)
    ensures Ahead([(j, v)] + Without(es, j), k) == Ahead(es, k) + {j}
  {
    FindFirst(Without(es, j), j, v, k);
    FindWithout(es, j, k);
  }

  /** A new key in a full list: another key stays behind it, or had all the others in front. */
  lemma {:induction false} PushedIn<K, V>(es: Entries<K, V>, j: K, v: V, k: K)
    requires Distinct(es) && Find(es, j).None? && Find(es, k).Some?
    ensures var r := ([(j, v)] + es)[..|es|];
            if Find(r, k).Some? then Ahead(r, k) == Ahead(es, k) + {j} else |Ahead(es, k) + {j}| == |es|
  {
    var rest := es[..|es| - 1];
    assert ([(j, v)] + es)[..|es|] == [(j, v)] + rest;
    FindFirst(rest, j, v, k);
    FindButLast(es, k);
    if es[|es| - 1].0 == k {
      AheadOfLast(es);
      AheadAreKeys(es, k, j);
    } else {
      AheadButLast(es, k);
    }
  }

  /** What one operation does to the keys in front of a key that stays. */
  lemma {:induction false} AheadAfter<K, V>(capacity: nat, es: Entries<K, V>, op: Op<K, V>, k: K)
    requires Distinct(es) && Find(es, k).Some? && Find(Apply(capacity, es, op), k).Some? && !Uses(es, op, k)
    ensures var r := Ahead(Apply(capacity, es, op), k);
            match Front(es, op)
            case Some(j) => r == Ahead(es, k) + {j}
            case None => r <= Ahead(es, k) && (!op.Removing? ==> r == Ahead(es, k))
  {
    match op
    case Setting(j, v) =>
      if HasKey(es, j) {
        MovedAhead(es, j, v, k);
      } else if |es| + 1 > capacity {
        PushedIn(es, j, v, k);
      } else {
        FindFirst(es, j, v, k);
      }
    case Fetching(j) =>
      if Find(es, j).Some? {
        MovedAhead(es, j, Find(es, j).value, k);
      }
    case Removing(j) => FindWithout(es, j, k);
    case Clearing =>
  }

  /** A used key is in front. */
  lemma {:induction false} UsedIsFirst<K, V>(capacity: nat, es: Entries<K, V>, op: Op<K, V>, k: K)
    requires Uses(es, op, k)
    ensures Ahead(Apply(capacity, es, op), k) == {}
    ensures capacity > 0 ==> Find(Apply(capacity, es, op), k).Some?
  {
    var r := Apply(capacity, es, op);
    assert r != [] ==> r[0].0 == k;
  }

  /** Only a new key pushes another one out, and only when `capacity` keys are in front of it then. */
  lemma {:induction false} PushedOut<K, V>(capacity: nat, es: Entries<K, V>, op: Op<K, V>, k: K)
    requires Distinct(es) && Find(es, k).Some? && Find(Apply(capacity, es, op), k).None?
    requires !Forgets(op, k) && !Uses(es, op, k)
    ensures Front(es, op).Some? && |Ahead(es, k) + {Front(es, op).value}| >= capacity
  {
    match op
    case Setting(j, v) =>
      if HasKey(es, j) {
        MovedAhead(es, j, v, k);
      } else if |es| + 1 > capacity {
        PushedIn(es, j, v, k);
      } else {
        FindFirst(es, j, v, k);
      }
    case Fetching(j) =>
      if Find(es, j).Some? {
        MovedAhead(es, j, Find(es, j).value, k);
      }
    case Removing(j) => FindWithout(es, j, k);
  }

  /** A key that was set and not removed since is cached behind some of its rivals (all of them, in
      a run without removals), or has at least `capacity` of them. */
  lemma {:induction false} RivalsAhead<K, V>(capacity: nat, log: Log<K, V>, k: K)
    requires LastSet(log, k).Some?
    ensures var es := Contents(capacity, log);
            var rivals := Rivals(capacity, log, k);
            if Find(es, k).Some? then Ahead(es, k) <= rivals && (NeverRemoves(log) ==> Ahead(es, k) == rivals)
            else |rivals| >= capacity
  {
    var es := Contents(capacity, log.before);
    ContentsAreBounded(capacity, log.before);
    if Uses(es, log.op, k) {
      UsedIsFirst(capacity, es, log.op, k);
    } else {
      RivalsAhead(capacity, log.before, k);
      RivalsStep(capacity, log.before, log.op, k);
    }
  }

  lemma {:induction false} RivalsStep<K, V>(capacity: nat, before: Log<K, V>, op: Op<K, V>, k: K)
    requires var es := Contents(capacity, before);
             && Distinct(es) && |es| <= capacity && !Uses(es, op, k) && !Forgets(op, k)
             && (Find(es, k).Some? ==> Ahead(es, k) <= Rivals(capacity, before, k))
             && (Find(es, k).Some? && NeverRemoves(before) ==> Ahead(es, k) == Rivals(capacity, before, k))
             && (Find(es, k).None? ==> |Rivals(capacity, before, k)| >= capacity)
    ensures var es := Contents(capacity, Then(before, op));
            var rivals := Rivals(capacity, Then(before, op), k);
            && (Find(es, k).Some? ==> Ahead(es, k) <= rivals)
            && (Find(es, k).Some? && NeverRemoves(Then(before, op)) ==> Ahead(es, k) == rivals)
            && (Find(es, k).None? ==> |rivals| >= capacity)
  {
    var es, was := Contents(capacity, before), Rivals(capacity, before, k);
    var now := Rivals(capacity, Then(before, op), k);
    assert was <= now && (Front(es, op).Some? ==> now == was + {Front(es, op).value});
    Subsets(was, now);
    FindAfter(capacity, es, op, k);
    if Find(es, k).Some? {
      if Find(Apply(capacity, es, op), k).Some? {
        AheadAfter(capacity, es, op, k);
      } else {
        PushedOut(capacity, es, op, k);
        Subsets(Ahead(es, k) + {Front(es, op).value}, now);
      }
    }
  }

  lemma {:induction false} Subsets<T>(a: set<T>, b: set<T>)
    requires a <= b
    ensures |a| <= |b|
  {
    assert b == a + (b - a);
  }

  /** A key stays cached, with the value last set, while fewer than `capacity` other keys have been
      used since its own last use. */
  lemma {:induction false} RecentStaysCached<K, V>(capacity: nat, log: Log<K, V>, k: K)
    requires LastSet(log, k).Some? && |Rivals(capacity, log, k)| < capacity
    ensures Find(Contents(capacity, log), k) == LastSet(log, k)
  {
    RivalsAhead(capacity, log, k);
    CachedIsLastSet(capacity, log, k);
  }

  /** In a run without removals that is exact: at `capacity` rivals the key is gone. */
  lemma {:induction false} CachedExactly<K, V>(capacity: nat, log: Log<K, V>, k: K)
    requires NeverRemoves(log)
    ensures Find(Contents(capacity, log), k).Some? <==>
              LastSet(log, k).Some? && |Rivals(capacity, log, k)| < capacity
  {
    var es := Contents(capacity, log);
    if Find(es, k).Some? {
      CachedIsLastSet(capacity, log, k);
      RivalsAhead(capacity, log, k);
      AheadAreKeys(es, k, k);
      ContentsAreBounded(capacity, log);
    } else if LastSet(log, k).Some? {
      RivalsAhead(capacity, log, k);
    }
  }

  /** A removal makes room, so after one a key can outlast more rivals than that. */
  lemma {:induction false} RemovalMakesRoom()
    ensures var log := Then(Then(Then(Then(Start, Setting(1, 10)), Setting(2, 20)), Removing(2)), Setting(3, 30));
            Find(Contents(2, log), 1) == Some(10) && Rivals(2, log, 1) == {2, 3}
  {
    var one := Then(Start, Setting(1, 10));
    var two := Then(one, Setting(2, 20));
    var three := Then(two, Removing(2));
    var es: Entries<int, int> := [];
    assert Contents(2, one) == [(1, 10)];
    assert Contents(2, two) == [(2, 20), (1, 10)];
    assert Contents(2, two)[1..] == Contents(2, one);
    assert Contents(2, one)[1..] == es;
    assert Contents(2, three) == [(1, 10)];
    assert Contents(2, Then(three, Setting(3, 30))) == [(3, 30), (1, 10)];
    assert [(3, 30), (1, 10)][1..] == [(1, 10)];
    assert Rivals(2, one, 1) == {} && Rivals(2, two, 1) == {2} && Rivals(2, three, 1) == {2};
  }
}
