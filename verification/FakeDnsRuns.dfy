/**
 Queries answered one after another: which answers are remembered, when the pool is too small, and
 what a race between two queries does. Then the text of a reverse query.
 */
module FakeDnsRuns {
  import opened Bytes
  import opened RecencyList
  import opened RecencyRuns
  import opened DomainText
  import opened FakeDns
  import Pools = AddressPool

  /** Names in the order they were asked for, the latest one outermost. */
  datatype History = Nobody | Asked(before: History, name: Text)

  /** The operations on the cache, and how many addresses were taken from the pool. */
  datatype Record = Record(log: Log<Text, nat>, misses: nat)

  /** The answer to a query: the cached address, or else the next one of the pool. */
  function Reply(range: Range, es: Entries<Text, nat>, misses: nat, name: Text): (r: nat)
    requires range.InSize()
  {
    match Find<Text, nat>(es, name)
    case Some(address) => address
    case None => range.Address(misses)
  }

  function Ask(capacity: nat, range: Range, r: Record, name: Text): (next: Record)
    requires range.InSize()
  {
    var es := Contents<Text, nat>(capacity, r.log);
    Record(Then(Then(r.log, Fetching(name)), Setting(name, Reply(range, es, r.misses, name))),
           r.misses + if Find<Text, nat>(es, name).Some? then 0 else 1)
  }

  function After(capacity: nat, range: Range, h: History): (r: Record)
    requires range.InSize()
  {
    match h
    case Nobody => Record(Start, 0)
    case Asked(before, name) => Ask(capacity, range, After(capacity, range, before), name)
  }

  function Cached(capacity: nat, range: Range, h: History): (r: Entries<Text, nat>)
    requires range.InSize()
  {
    Contents<Text, nat>(capacity, After(capacity, range, h).log)
  }

  /** The answer to the next query. */
  function Answer(capacity: nat, range: Range, h: History, name: Text): (r: nat)
    requires range.InSize()
  {
    Reply(range, Cached(capacity, range, h), After(capacity, range, h).misses, name)
  }

  /** What one query does to the cache. */
  lemma {:induction false} AskContents(capacity: nat, range: Range, r: Record, name: Text)
    requires range.InSize()
    ensures var es := Contents<Text, nat>(capacity, r.log);
            Contents<Text, nat>(capacity, Ask(capacity, range, r, name).log) ==
              Put<Text, nat>(capacity, Touch<Text, nat>(es, name), name, Reply(range, es, r.misses, name))
  {
    var es := Contents<Text, nat>(capacity, r.log);
    assert Contents<Text, nat>(capacity, Then(r.log, Fetching(name))) == Touch<Text, nat>(es, name);
  }

  function LastAnswer(capacity: nat, range: Range, h: History, x: Text): (r: Option<nat>)
    requires range.InSize()
  {
    match h
    case Nobody => None
    case Asked(before, name) =>
      if name == x then Some(Answer(capacity, range, before, name)) else LastAnswer(capacity, range, before, x)
  }

  /** The other names asked for since `x` was. */
  function Since(h: History, x: Text): (r: set<Text>) {
    match h
    case Nobody => {}
    case Asked(before, name) => if name == x then {} else Since(before, x) + {name}
  }

  /** Fetching a name and then setting it makes it a rival of every other name. */
  lemma {:induction false} QueryAddsRival(capacity: nat, log: Log<Text, nat>, name: Text, address: nat, x: Text)
    ensures Rivals(capacity, Then(Then(log, Fetching(name)), Setting(name, address)), x) ==
              if name == x then {} else Rivals(capacity, log, x) + {name}
  {
    var fetched := Then(log, Fetching(name));
    assert name != x ==> Rivals(capacity, log, x) <= Rivals(capacity, fetched, x) <= Rivals(capacity, log, x) + {name};
  }

  lemma {:induction false} RivalsAreSince(capacity: nat, range: Range, h: History, x: Text)
    requires range.InSize()
    ensures Rivals(capacity, After(capacity, range, h).log, x) == Since(h, x)
  {
    if h.Asked? {
      RivalsAreSince(capacity, range, h.before, x);
      QueryAddsRival(capacity, After(capacity, range, h.before).log, h.name, Answer(capacity, range, h.before, h.name), x);
    }
  }

  lemma {:induction false} HistoryAsLog(capacity: nat, range: Range, h: History, x: Text)
    requires range.InSize()
    ensures NeverRemoves(After(capacity, range, h).log)
    ensures LastSet(After(capacity, range, h).log, x) == LastAnswer(capacity, range, h, x)
  {
    if h.Asked? {
      HistoryAsLog(capacity, range, h.before, x);
      var fetched := Then(After(capacity, range, h.before).log, Fetching(h.name));
      assert After(capacity, range, h).log.before == fetched;
      assert LastSet(fetched, x) == LastSet(fetched.before, x);
    }
  }

  /** A name is remembered exactly while fewer than `capacity` other names were asked for since. */
  lemma {:induction false} RememberedExactly(capacity: nat, range: Range, h: History, x: Text)
    requires range.InSize()
    ensures Find(Cached(capacity, range, h), x).Some? <==>
              LastAnswer(capacity, range, h, x).Some? && |Since(h, x)| < capacity
  {
    HistoryAsLog(capacity, range, h, x);
    RivalsAreSince(capacity, range, h, x);
    CachedExactly(capacity, After(capacity, range, h).log, x);
  }

  /** And while it is, every query for it gets the same address. */
  lemma {:induction false} SameAnswer(capacity: nat, range: Range, h: History, x: Text)
    requires range.InSize() && LastAnswer(capacity, range, h, x).Some? && |Since(h, x)| < capacity
    ensures Answer(capacity, range, h, x) == LastAnswer(capacity, range, h, x).value
  {
    HistoryAsLog(capacity, range, h, x);
    RivalsAreSince(capacity, range, h, x);
    RecentStaysCached<Text, nat>(capacity, After(capacity, range, h).log, x);
    assert Find(Cached(capacity, range, h), x) == LastAnswer(capacity, range, h, x);
  }

  // Sequential queries as moves of the interleaved resolver.

  /** The steps of a query: an address is taken only for a name that is not remembered. */
  function QueryMoves(known: bool, name: Text): (r: seq<Move>) {
    if known then [LookUp(0, name), Store(0)] else [LookUp(0, name), Take(0), Store(0)]
  }

  predicate Knows(capacity: nat, range: Range, h: History, name: Text)
    requires range.InSize()
  {
    Find<Text, nat>(Cached(capacity, range, h), name).Some?
  }

  function Moves(capacity: nat, range: Range, h: History): (r: seq<Move>)
    requires range.InSize()
  {
    match h
    case Nobody => []
    case Asked(before, name) => Moves(capacity, range, before) + QueryMoves(Knows(capacity, range, before, name), name)
  }

  /** The names for which addresses were taken, in order. */
  function Fresh(capacity: nat, range: Range, h: History): (r: seq<Text>)
    requires range.InSize()
    ensures |r| == After(capacity, range, h).misses
  {
    match h
    case Nobody => []
    case Asked(before, name) =>
      Fresh(capacity, range, before) + if Knows(capacity, range, before, name) then [] else [name]
  }

  function StateOf(capacity: nat, range: Range, h: History): (r: State)
    requires range.InSize()
    ensures r.counter < range.size
  {
    State(Cached(capacity, range, h), Counter(range, range.start, After(capacity, range, h).misses), map[], map[],
          Fresh(capacity, range, h))
  }

  lemma {:induction false} ReachesOneMore(capacity: nat, range: Range, moves: seq<Move>, s: State, m: Move)
    requires range.InSize() && Reaches(capacity, range, moves, s) && s.counter < range.size && Enabled(s, m)
    ensures Reaches(capacity, range, moves + [m], Advance(capacity, range, s, m))
  {
    assert (moves + [m])[..|moves|] == moves;
  }

  /** The state between looking a name up and storing the answer. */
  function Answering(capacity: nat, range: Range, h: History, name: Text): (r: State)
    requires range.InSize()
    ensures r.counter < range.size
  {
    var next := StateOf(capacity, range, Asked(h, name));
    next.(es := Touch<Text, nat>(Cached(capacity, range, h), name),
          pending := map[0 := Pending(name, Answer(capacity, range, h, name))])
  }

  lemma {:induction false} KnownQueryLooks(capacity: nat, range: Range, h: History, name: Text)
    requires range.InSize() && Knows(capacity, range, h, name)
    ensures Advance(capacity, range, StateOf(capacity, range, h), LookUp(0, name)) == Answering(capacity, range, h, name)
  {
  }

  lemma {:induction false} NewQueryTakes(capacity: nat, range: Range, h: History, name: Text)
    requires range.InSize() && !Knows(capacity, range, h, name)
    ensures var looked := Advance(capacity, range, StateOf(capacity, range, h), LookUp(0, name));
            Enabled(looked, Take(0)) && Advance(capacity, range, looked, Take(0)) == Answering(capacity, range, h, name)
  {
    var looked := Advance(capacity, range, StateOf(capacity, range, h), LookUp(0, name));
    AllocationAfter(range, range.start, After(capacity, range, h).misses);
    assert looked.missed - {0} == map[];
    assert Touch<Text, nat>(Cached(capacity, range, h), name) == Cached(capacity, range, h);
  }

  lemma {:induction false} QueryStores(capacity: nat, range: Range, h: History, name: Text)
    requires range.InSize()
    ensures Advance(capacity, range, Answering(capacity, range, h, name), Store(0)) == StateOf(capacity, range, Asked(h, name))
  {
    AskContents(capacity, range, After(capacity, range, h), name);
    assert Answering(capacity, range, h, name).pending - {0} == map[];
  }

  /** A history is a run of the resolver. */
  lemma {:induction false} HistoryIsRun(capacity: nat, range: Range, h: History)
    requires range.InSize()
    ensures Reaches(capacity, range, Moves(capacity, range, h), StateOf(capacity, range, h))
  {
    if h.Asked? {
      HistoryIsRun(capacity, range, h.before);
      var moves := Moves(capacity, range, h.before);
      if Knows(capacity, range, h.before, h.name) {
        KnownQueryIsRun(capacity, range, moves, h.before, h.name);
      } else {
        NewQueryIsRun(capacity, range, moves, h.before, h.name);
      }
    } else {
      assert StateOf(capacity, range, h) == Idle(range);
    }
  }

  lemma {:induction false} KnownQueryIsRun(capacity: nat, range: Range, moves: seq<Move>, h: History, name: Text)
    requires range.InSize() && Reaches(capacity, range, moves, StateOf(capacity, range, h)) && Knows(capacity, range, h, name)
    ensures Reaches(capacity, range, moves + [LookUp(0, name), Store(0)], StateOf(capacity, range, Asked(h, name)))
  {
    KnownQueryLooks(capacity, range, h, name);
    QueryStores(capacity, range, h, name);
    ReachesTwoMore(capacity, range, moves, StateOf(capacity, range, h), LookUp(0, name), Answering(capacity, range, h, name), Store(0));
  }

  lemma {:induction false} NewQueryIsRun(capacity: nat, range: Range, moves: seq<Move>, h: History, name: Text)
    requires range.InSize() && Reaches(capacity, range, moves, StateOf(capacity, range, h)) && !Knows(capacity, range, h, name)
    ensures Reaches(capacity, range, moves + [LookUp(0, name), Take(0), Store(0)], StateOf(capacity, range, Asked(h, name)))
  {
    var look := LookUp(0, name);
    var looked := Advance(capacity, range, StateOf(capacity, range, h), look);
    NewQueryTakes(capacity, range, h, name);
    QueryStores(capacity, range, h, name);
    ReachesTwoMore(capacity, range, moves, StateOf(capacity, range, h), look, looked, Take(0));
    ReachesOneMore(capacity, range, moves + [look, Take(0)], Answering(capacity, range, h, name), Store(0));
    assert moves + [look, Take(0)] + [Store(0)] == moves + [look, Take(0), Store(0)];
  }

  lemma {:induction false} ReachesTwoMore(capacity: nat, range: Range, moves: seq<Move>, s: State, m: Move, t: State, n: Move)
    requires range.InSize() && Reaches(capacity, range, moves, s) && s.counter < range.size && Enabled(s, m)
    requires t == Advance(capacity, range, s, m) && Enabled(t, n)
    ensures Reaches(capacity, range, moves + [m, n], Advance(capacity, range, t, n))
  {
    ReachesOneMore(capacity, range, moves, s, m);
    ReachesOneMore(capacity, range, moves + [m], t, n);
    assert moves + [m] + [n] == moves + [m, n];
  }

  /** While a name is remembered, and no more addresses were taken than the pool has, the address it
      was last answered with leads back to it. */
  lemma {:induction false} LastAnswerReverses(capacity: nat, range: Range, h: History, x: Text)
    requires range.Valid() && After(capacity, range, h).misses <= range.Room()
    requires LastAnswer(capacity, range, h, x).Some? && |Since(h, x)| < capacity
    ensures NameOf(Cached(capacity, range, h), LastAnswer(capacity, range, h, x).value) == Some(x)
  {
    var answer := LastAnswer(capacity, range, h, x).value;
    HistoryAsLog(capacity, range, h, x);
    RivalsAreSince(capacity, range, h, x);
    RecentStaysCached<Text, nat>(capacity, After(capacity, range, h).log, x);
    assert Find<Text, nat>(Cached(capacity, range, h), x) == Some(answer);
    assert (x, answer) in Cached(capacity, range, h);
    HistoryIsRun(capacity, range, h);
    FewAreCurrent(capacity, range, Moves(capacity, range, h), StateOf(capacity, range, h));
    ReverseInverts(range, StateOf(capacity, range, h), x, answer);
  }

  /** Distinct names. */
  function Numbered(i: nat): (r: Text)
    ensures |r| == i
  {
    seq(i, _ => 97)
  }

  /** One name asked for over and over, with a new name in between each time. */
  function Busy(i: nat): (r: History) {
    if i == 0 then Asked(Nobody, Numbered(0)) else Asked(Asked(Busy(i - 1), Numbered(0)), Numbered(i))
  }

  /** Asking for a remembered name puts it in front and changes nothing else. */
  lemma {:induction false} AskAgain(capacity: nat, es: Entries<Text, nat>, x: Text, address: nat)
    requires Find<Text, nat>(es, x) == Some(address)
    ensures Put<Text, nat>(capacity, Touch<Text, nat>(es, x), x, address) == [(x, address)] + Without<Text, nat>(es, x)
  {
    var touched := Touch<Text, nat>(es, x);
    assert touched[0].0 == x && touched[1..] == Without<Text, nat>(es, x);
    FindWithout<Text, nat>(es, x, x);
    WithoutAbsent<Text, nat>(Without<Text, nat>(es, x), x);
  }

  /** Asking for a new name puts it in front of what was there. */
  lemma {:induction false} AskNew(capacity: nat, es: Entries<Text, nat>, x: Text, address: nat)
    requires Find<Text, nat>(es, x).None? && capacity >= 2 && |es| >= 1
    ensures var r := Put<Text, nat>(capacity, Touch<Text, nat>(es, x), x, address);
            |r| >= 2 && r[0] == (x, address) && r[1..] == es[..|r| - 1]
  {
  }

  /** The cache of a busy history: the latest name in front, the first name next. */
  ghost predicate BusyCache(range: Range, es: Entries<Text, nat>, i: nat)
    requires range.InSize()
  {
    && (forall k :: 0 <= k < |es| ==> |es[k].0| <= i)
    && |es| > 0 && es[0] == (Numbered(i), range.Address(i))
    && (i > 0 ==> |es| > 1 && es[1] == (Numbered(0), range.Address(0)))
  }

  lemma {:induction false} BusyFirst(range: Range, es: Entries<Text, nat>, i: nat)
    requires range.InSize() && BusyCache(range, es, i)
    ensures Find<Text, nat>(es, Numbered(0)) == Some(range.Address(0))
    ensures forall k :: 0 <= k < |Without<Text, nat>(es, Numbered(0))| ==> |Without<Text, nat>(es, Numbered(0))[k].0| <= i
  {
    if i > 0 {
      assert es[1..][0] == es[1];
    }
    var rest := Without<Text, nat>(es, Numbered(0));
    forall k | 0 <= k < |rest| ensures |rest[k].0| <= i {
      WithoutIsPart<Text, nat>(es, Numbered(0), rest[k]);
    }
  }

  /** Asking once more for the first name brings it to the front. */
  lemma {:induction false} BusyAgain(capacity: nat, range: Range, r: Record, i: nat)
    requires range.InSize() && BusyCache(range, Contents<Text, nat>(capacity, r.log), i)
    ensures var again := Ask(capacity, range, r, Numbered(0));
            var front := Contents<Text, nat>(capacity, again.log);
            && again.misses == r.misses && |front| > 0 && front[0] == (Numbered(0), range.Address(0))
            && forall k :: 0 <= k < |front| ==> |front[k].0| <= i
  {
    var es := Contents<Text, nat>(capacity, r.log);
    BusyFirst(range, es, i);
    AskAgain(capacity, es, Numbered(0), range.Address(0));
    AskContents(capacity, range, r, Numbered(0));
  }

  /** Then asking for a new name puts that in front of it. */
  lemma {:induction false} BusyNew(capacity: nat, range: Range, r: Record, i: nat)
    requires range.InSize() && capacity >= 2 && i > 0 && r.misses == i
    requires var front := Contents<Text, nat>(capacity, r.log);
             && |front| > 0 && front[0] == (Numbered(0), range.Address(0))
             && forall k :: 0 <= k < |front| ==> |front[k].0| <= i - 1
    ensures var next := Ask(capacity, range, r, Numbered(i));
            next.misses == i + 1 && BusyCache(range, Contents<Text, nat>(capacity, next.log), i)
  {
    var front := Contents<Text, nat>(capacity, r.log);
    AskContents(capacity, range, r, Numbered(i));
    AskNew(capacity, front, Numbered(i), range.Address(i));
    var last := Contents<Text, nat>(capacity, Ask(capacity, range, r, Numbered(i)).log);
    assert last[1] == last[1..][0];
    forall k | 0 <= k < |last| ensures |last[k].0| <= i {
      if k > 0 {
        assert last[k] == last[1..][k - 1] == front[k - 1];
      }
    }
  }

  lemma {:induction false} BusyStep(capacity: nat, range: Range, r: Record, i: nat)
    requires range.InSize() && capacity >= 2 && i > 0
    requires r.misses == i && BusyCache(range, Contents<Text, nat>(capacity, r.log), i - 1)
    ensures var next := Ask(capacity, range, Ask(capacity, range, r, Numbered(0)), Numbered(i));
            next.misses == i + 1 && BusyCache(range, Contents<Text, nat>(capacity, next.log), i)
  {
    BusyAgain(capacity, range, r, i - 1);
    BusyNew(capacity, range, Ask(capacity, range, r, Numbered(0)), i);
  }

  lemma {:induction false} BusyHistory(capacity: nat, range: Range, i: nat)
    requires range.InSize() && capacity >= 2
    ensures After(capacity, range, Busy(i)).misses == i + 1 && BusyCache(range, Cached(capacity, range, Busy(i)), i)
  {
    if i == 0 {
      var r := After(capacity, range, Nobody);
      AskContents(capacity, range, r, Numbered(0));
      assert Contents<Text, nat>(capacity, r.log) == [];
      assert Cached(capacity, range, Busy(0)) == [(Numbered(0), range.Address(0))];
    } else {
      BusyHistory(capacity, range, i - 1);
      BusyStep(capacity, range, After(capacity, range, Busy(i - 1)), i);
    }
  }

  /** The bound on the number of addresses is exact: one more, and a remembered address can lead
      back to another name. */
  lemma {:induction false} OneMoreCanClash(capacity: nat, range: Range)
    requires range.Valid() && capacity >= 2
    ensures var s := StateOf(capacity, range, Busy(range.Room()));
            && Reaches(capacity, range, Moves(capacity, range, Busy(range.Room())), s)
            && |s.asked| == range.Room() + 1
            && (Numbered(0), range.Address(0)) in s.es
            && NameOf(s.es, range.Address(0)) == Some(Numbered(range.Room()))
  {
    var n := range.Room();
    HistoryIsRun(capacity, range, Busy(n));
    BusyHistory(capacity, range, n);
    Pools.NoEarlyRepeat(range.size, range.lower, range.upper, range.start, 0, n);
    var es := Cached(capacity, range, Busy(n));
    assert es[0] == (Numbered(n), range.Address(0)) && es[1] == (Numbered(0), range.Address(0));
  }

  /** Two queries for the same new name that both miss. */
  lemma {:induction false} RaceMissesTwice(capacity: nat, range: Range, x: Text)
    requires range.InSize()
    ensures Reaches(capacity, range, [LookUp(0, x), LookUp(1, x)], State([], range.start, map[0 := x, 1 := x], map[], []))
  {
    var none: seq<Move> := [];
    var s1 := State([], range.start, map[0 := x], map[], []);
    ReachesTwoMore(capacity, range, none, Idle(range), LookUp(0, x), s1, LookUp(1, x));
    assert none + [LookUp(0, x), LookUp(1, x)] == [LookUp(0, x), LookUp(1, x)];
  }

  /** Then each takes an address. */
  lemma {:induction false} RaceTakesTwo(capacity: nat, range: Range, moves: seq<Move>, x: Text)
    requires range.InSize() && Reaches(capacity, range, moves, State([], range.start, map[0 := x, 1 := x], map[], []))
    ensures Reaches(capacity, range, moves + [Take(0), Take(1)], RaceState(range, x))
  {
    var s2 := State([], range.start, map[0 := x, 1 := x], map[], []);
    var s3 := State([], Counter(range, range.start, 1), map[1 := x], map[0 := Pending(x, range.Address(0))], [x]);
    AllocationAfter(range, range.start, 0);
    AllocationAfter(range, range.start, 1);
    assert s2.missed - {0} == s3.missed && s3.missed - {1} == map[];
    ReachesTwoMore(capacity, range, moves, s2, Take(0), s3, Take(1));
  }

  /** Both have an address to store. */
  function RaceState(range: Range, x: Text): (r: State)
    requires range.InSize()
    ensures r.counter < range.size
  {
    State([], Counter(range, range.start, 2), map[],
          map[0 := Pending(x, range.Address(0)), 1 := Pending(x, range.Address(1))], [x, x])
  }

  /** The address that was stored first leads back to the name, and nowhere after the other is stored. */
  lemma {:induction false} RaceLosesAnAnswer(capacity: nat, range: Range, x: Text)
    requires range.Valid() && range.Room() >= 2 && capacity >= 1
    ensures var moves := [LookUp(0, x), LookUp(1, x)] + [Take(0), Take(1)];
            var first := Advance(capacity, range, RaceState(range, x), Store(0));
            var both := Advance(capacity, range, first, Store(1));
            && Reaches(capacity, range, moves + [Store(0)], first) && Reaches(capacity, range, moves + [Store(0), Store(1)], both)
            && NameOf(first.es, range.Address(0)) == Some(x) && NameOf(both.es, range.Address(0)) == None
  {
    var moves := [LookUp(0, x), LookUp(1, x)] + [Take(0), Take(1)];
    var s := RaceState(range, x);
    RaceMissesTwice(capacity, range, x);
    RaceTakesTwo(capacity, range, [LookUp(0, x), LookUp(1, x)], x);
    ReachesOneMore(capacity, range, moves, s, Store(0));
    ReachesTwoMore(capacity, range, moves, s, Store(0), Advance(capacity, range, s, Store(0)), Store(1));
    Pools.NoEarlyRepeat(range.size, range.lower, range.upper, range.start, 0, 1);
    OneStoredOver(capacity, x, range.Address(0), range.Address(1));
  }

  lemma {:induction false} OneStoredOver(capacity: nat, x: Text, a: nat, b: nat)
    requires capacity >= 1
    ensures Put<Text, nat>(capacity, [], x, a) == [(x, a)] && Put<Text, nat>(capacity, [(x, a)], x, b) == [(x, b)]
  {
    var es: Entries<Text, nat> := [(x, a)];
    assert es[0].0 == x && es[1..] == [];
    assert Without<Text, nat>(es, x) == [];
  }

  // The text of a reverse query.

  /** `.in-addr.arpa` */
  const SUFFIX: Text := [46, 105, 110, 45, 97, 100, 100, 114, 46, 97, 114, 112, 97]

  function Append(name: Name, text: Text): (r: Name) {
    match name
    case Root => Part(text, Root)
    case Part(first, rest) => Part(first, Append(rest, text))
  }

  function Reversed(name: Name): (r: Name) {
    match name
    case Root => Root
    case Part(text, rest) => Append(Reversed(rest), text)
  }

  /** The address text in the name of a reverse query. */
  function AddressText(name: Text): (r: Option<Text>) {
    if |name| < |SUFFIX| || name[|name| - |SUFFIX|..] != SUFFIX then None
    else Some(Join(Reversed(Split(name[..|name| - |SUFFIX|]))))
  }

  /** The name to ask for to reverse an address. */
  function ReverseName(address: Text): (r: Text) {
    Join(Reversed(Split(address))) + SUFFIX
  }

  lemma {:induction false} AppendReverses(name: Name, text: Text)
    ensures Reversed(Append(name, text)) == Part(text, Reversed(name))
  {
    if name.Part? {
      AppendReverses(name.rest, text);
    }
  }

  lemma {:induction false} ReversedTwice(name: Name)
    ensures Reversed(Reversed(name)) == name
  {
    if name.Part? {
      ReversedTwice(name.rest);
      AppendReverses(Reversed(name.rest), name.text);
    }
  }

  lemma {:induction false} AppendLast(d: Text, c: Text, b: Text, a: Text)
    ensures Append(Part(d, Part(c, Part(b, Root))), a) == Part(d, Part(c, Part(b, Part(a, Root))))
  {
    assert Append(Part(b, Root), a) == Part(b, Append(Root, a)) == Part(b, Part(a, Root));
    assert Append(Part(c, Part(b, Root)), a) == Part(c, Append(Part(b, Root), a));
  }

  /** Four labels come out in the opposite order. */
  lemma {:induction false} ReversedFour(a: Text, b: Text, c: Text, d: Text)
    ensures Reversed(Part(a, Part(b, Part(c, Part(d, Root))))) == Part(d, Part(c, Part(b, Part(a, Root))))
  {
    var one, two := Part(d, Root), Part(d, Part(c, Root));
    assert Reversed(one) == Append(Root, d) == one;
    assert Append(one, c) == Part(d, Append(Root, c)) == two;
    assert Reversed(Part(c, one)) == two;
    assert Append(two, b) == Part(d, Append(Part(c, Root), b)) == Part(d, Part(c, Part(b, Root)));
    assert Reversed(Part(b, Part(c, one))) == Part(d, Part(c, Part(b, Root)));
    AppendLast(d, c, b, a);
  }

  /** The text after the address, letter by letter. */
  lemma {:induction false} SuffixSpelled()
    ensures |SUFFIX| == |".in-addr.arpa"| && forall i :: 0 <= i < |SUFFIX| ==> SUFFIX[i] == ".in-addr.arpa"[i] as int
  {
  }

  /** A query for `d.c.b.a.in-addr.arpa` asks for the address `a.b.c.d`. */
  lemma {:induction false} FourPartsAreReversed(a: Text, b: Text, c: Text, d: Text)
    requires IsLabel(a) && IsLabel(b) && IsLabel(c) && IsLabel(d)
    ensures AddressText(d + [DOT] + (c + [DOT] + (b + [DOT] + a)) + SUFFIX) ==
              Some(a + [DOT] + (b + [DOT] + (c + [DOT] + d)))
  {
    var last := Part(a, Root);
    var third := Part(b, last);
    var second := Part(c, third);
    var name := Part(d, second);
    var front := Join(name);
    assert Join(last) == a && AreLabels(last);
    assert Join(third) == b + [DOT] + a && AreLabels(third);
    assert Join(second) == c + [DOT] + (b + [DOT] + a) && AreLabels(second);
    assert AreLabels(name);
    assert Join(Part(d, Root)) == d;
    assert Join(Part(c, Part(d, Root))) == c + [DOT] + d;
    assert Join(Part(b, Part(c, Part(d, Root)))) == b + [DOT] + (c + [DOT] + d);
    SplitJoin(name);
    ReversedFour(d, c, b, a);
    assert (front + SUFFIX)[..|front|] == front && (front + SUFFIX)[|front|..] == SUFFIX;
  }

  lemma {:induction false} AppendKeepsLabels(name: Name, text: Text)
    requires AreLabels(name) && IsLabel(text)
    ensures AreLabels(Append(name, text))
  {
    if name.Part? {
      AppendKeepsLabels(name.rest, text);
    }
  }

  lemma {:induction false} ReversedKeepsLabels(name: Name)
    requires AreLabels(name)
    ensures AreLabels(Reversed(name))
  {
    if name.Part? {
      ReversedKeepsLabels(name.rest);
      AppendKeepsLabels(Reversed(name.rest), name.text);
    }
  }

  /** The reverse name of an address reads back as that address, without its empty parts. */
  lemma {:induction false} ReverseNameReadsBack(address: Text)
    ensures AddressText(ReverseName(address)) == Some(Canonical(address))
  {
    var labels := Split(address);
    SplitGivesLabels(address);
    ReversedKeepsLabels(labels);
    SplitJoin(Reversed(labels));
    ReversedTwice(labels);
    var front := Join(Reversed(labels));
    assert (front + SUFFIX)[..|front|] == front && (front + SUFFIX)[|front|..] == SUFFIX;
  }

  datatype Reverse = Elsewhere | Unknown | Known(name: Text)

  /** A reverse query: passed on unless it names an address of the pool; then answered from the
      cache. Reading an address from text is a parameter. */
  function QueryPtr(es: Entries<Text, nat>, range: Range, parse: Text -> Option<nat>, name: Text): (r: Reverse) {
    match AddressText(name)
    case None => Elsewhere
    case Some(text) =>
      match parse(text)
      case None => Elsewhere
      case Some(address) =>
        if !(range.lower <= address <= range.upper) then Elsewhere
        else
          match NameOf(es, address)
          case None => Unknown
          case Some(x) => Known(x)
  }

  /** The address that a reverse query asks for, if it is for one. */
  function Asks(parse: Text -> Option<nat>, name: Text): (r: Option<nat>) {
    var text := AddressText(name);
    if text.Some? then parse(text.value) else None
  }

  /** When a reverse query is passed on, answered with nothing, and answered with a name: it is passed on
      exactly when it is not for an address, or for one outside the pool's bounds; and it is answered with
      nothing exactly when it is for one inside that no cached name has. */
  lemma {:induction false} QueryPtrExactly(es: Entries<Text, nat>, range: Range, parse: Text -> Option<nat>, name: Text)
    ensures var asked := Asks(parse, name);
            var inside := asked.Some? && range.lower <= asked.value <= range.upper;
            && (QueryPtr(es, range, parse, name) == Elsewhere <==> !inside)
            && (QueryPtr(es, range, parse, name) == Unknown <==> inside && forall e :: e in es ==> e.1 != asked.value)
            && (forall x :: QueryPtr(es, range, parse, name) == Known(x) ==> inside && (x, asked.value) in es)
  {
    var asked := Asks(parse, name);
    if asked.Some? {
      var p := Standing(asked.value);
      var found := FirstWhere<Text, nat>(es, p);
      if found.None? {
        forall e | e in es ensures e.1 != asked.value {
          var i :| 0 <= i < |es| && es[i] == e;
          assert !p(es[i].0, es[i].1);
        }
      }
    }
  }

  /** End to end: as long as all cached answers are current, a reverse query for an address is answered
      with a name exactly when the table maps that name to it. */
  lemma {:induction false} ReverseQueryFindsName(
      range: Range, s: State, parse: Text -> Option<nat>, text: Text, address: nat, x: Text)
    requires range.Valid() && AllCurrent(range, s)
    requires parse(Canonical(text)) == Some(address)
    ensures QueryPtr(s.es, range, parse, ReverseName(text)) == Known(x) <==> (x, address) in s.es
  {
    ReverseNameReadsBack(text);
    ReverseInverts(range, s, x, address);
    if (x, address) in s.es {
      assert Current(range, s.asked, (x, address).0, (x, address).1);
      var i :| 0 <= i < |s.asked| && |s.asked| - range.Room() <= i && s.asked[i] == x && range.Address(i) == address;
      Pools.HandedAround(range.size, range.lower, range.upper, range.start, i);
    }
  }
}
