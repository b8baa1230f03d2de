/**
 The resolver that answers with made-up addresses: each name gets the next address of a pool, a
 bounded cache remembers which, and a reverse query finds the name again.
 */
module FakeDns {
  import opened Bytes
  import opened RecencyList
  import opened LruCaching
  import opened DomainText
  import Pools = AddressPool

  /** The pool a resolver hands out addresses from, and the counter it started with. */
  datatype Range = Range(size: nat, lower: nat, upper: nat, start: nat) {
    ghost predicate Valid() {
      Pools.Roomy(size, lower, upper, start)
    }

    predicate InSize() {
      lower < size && upper < size && start < size
    }

    function Address(i: nat): (r: nat)
      requires InSize()
    {
      Pools.Handed(size, lower, upper, start, i)
    }

    /** How many addresses can be handed out before one comes back. */
    function Room(): (r: int) {
      upper - lower - 1
    }
  }

  /** The remembered address of a name, or else the next one of the pool. */
  method LookUpAddress(cache: LruCache<Text, nat>, pool: Pools.Pool, name: Text) returns (address: nat)
    requires cache.Valid() && pool.Valid()
    modifies cache, cache.nodes, pool`counter
    ensures cache.Valid() && pool.Valid() && forall n :: n in cache.nodes ==> n in old(cache.nodes)
    ensures cache.Entries() == Touch(old(cache.Entries()), name)
    ensures match old(Find(cache.Entries(), name))
            case Some(known) => address == known && pool.counter == old(pool.counter)
            case None => Pools.Step(address, pool.counter) == Pools.Allocation(pool.size, pool.lower, pool.upper, old(pool.counter))
  {
    var stored := cache.Value(name);
    match stored {
      case Some(known) => address := known;
      case None => address := pool.Allocate();
    }
  }

  /** Answers a query for the address of a name, and remembers the answer. */
  method QueryDisguised(cache: LruCache<Text, nat>, pool: Pools.Pool, name: Text) returns (address: nat)
    requires cache.Valid() && pool.Valid()
    modifies cache, cache.nodes, pool`counter
    ensures cache.Valid() && pool.Valid()
    ensures cache.Entries() == Put(cache.capacity, Touch(old(cache.Entries()), name), name, address)
    ensures match old(Find(cache.Entries(), name))
            case Some(known) => address == known && pool.counter == old(pool.counter)
            case None => Pools.Step(address, pool.counter) == Pools.Allocation(pool.size, pool.lower, pool.upper, old(pool.counter))
  {
    address := LookUpAddress(cache, pool, name);
    cache.SetValue(Some(address), name);
  }

  /** The name that a cached address stands for: the most recently used one. */
  function NameOf(es: Entries<Text, nat>, address: nat): (r: Option<Text>) {
    match FirstWhere<Text, nat>(es, Standing(address))
    case None => None
    case Some(entry) => Some(entry.0)
  }

  function Standing(address: nat): (r: (Text, nat) -> bool) {
    (_, a) => a == address
  }

  /** Answers a reverse query from the cache, without touching it. */
  method FindName(cache: LruCache<Text, nat>, address: nat) returns (r: Option<Text>)
    requires cache.Valid()
    ensures r == NameOf(cache.Entries(), address)
  {
    var entry := cache.First(Standing(address));
    r := if entry.Some? then Some(entry.value.0) else None;
  }

  // Interleaved queries: looking a name up, taking an address for it if it is not known, and storing
  // the answer are separate steps, and steps of different queries may come in any order.

  datatype Pending = Pending(name: Text, address: nat)

  /** `missed` are the calls that have looked their name up in vain, `pending` those that have an answer
      to store. `asked[i]` is the name for which the `i`-th address was taken from the pool. */
  datatype State = State(
    es: Entries<Text, nat>,
    counter: nat,
    missed: map<nat, Text>,
    pending: map<nat, Pending>,
    asked: seq<Text>)

  datatype Move = LookUp(call: nat, name: Text) | Take(call: nat) | Store(call: nat)

  predicate Enabled(s: State, m: Move) {
    match m
    case LookUp(call, _) => call !in s.missed && call !in s.pending
    case Take(call) => call in s.missed
    case Store(call) => call in s.pending
  }

  function Advance(capacity: nat, range: Range, s: State, m: Move): (r: State)
    requires range.InSize() && s.counter < range.size
    requires Enabled(s, m)
    ensures r.counter < range.size
  {
    match m
    case LookUp(call, name) =>
      (match Find<Text, nat>(s.es, name)
       case Some(address) =>
         s.(es := Touch<Text, nat>(s.es, name), pending := s.pending[call := Pending(name, address)])
       case None => s.(missed := s.missed[call := name]))
    case Take(call) =>
      var step := Pools.Allocation(range.size, range.lower, range.upper, s.counter);
      s.(counter := step.counter,
         missed := s.missed - {call},
         pending := s.pending[call := Pending(s.missed[call], step.address)],
         asked := s.asked + [s.missed[call]])
    case Store(call) =>
      var p := s.pending[call];
      s.(es := Put<Text, nat>(capacity, s.es, p.name, p.address), pending := s.pending - {call})
  }

  /** A resolver that nothing was asked of. */
  function Idle(range: Range): (r: State) {
    State([], range.start, map[], map[], [])
  }

  /** The runs of a resolver, by the states they reach. */
  ghost predicate Reaches(capacity: nat, range: Range, moves: seq<Move>, s: State)
    requires range.InSize()
  {
    if moves == [] then
      s == Idle(range)
    else
      var n := |moves| - 1;
      exists before: State ::
        && Reaches(capacity, range, moves[..n], before)
        && before.counter < range.size && Enabled(before, moves[n])
        && s == Advance(capacity, range, before, moves[n])
  }

  /** An address was taken from the pool for this name. */
  ghost predicate Genuine(range: Range, asked: seq<Text>, name: Text, address: nat)
    requires range.InSize()
  {
    exists i :: 0 <= i < |asked| && asked[i] == name && range.Address(i) == address
  }

  /** The counter after `i` allocations. */
  function Counter(range: Range, counter: nat, i: nat): (r: nat)
    requires range.InSize() && counter < range.size
    ensures r < range.size
    decreases i
  {
    if i == 0 then counter
    else Counter(range, Pools.Allocation(range.size, range.lower, range.upper, counter).counter, i - 1)
  }

  ghost predicate Inv(range: Range, s: State)
    requires range.InSize()
  {
    && s.counter == Counter(range, range.start, |s.asked|)
    && (forall e :: e in s.es ==> Genuine(range, s.asked, e.0, e.1))
    && (forall c :: c in s.pending ==> Genuine(range, s.asked, s.pending[c].name, s.pending[c].address))
  }

  lemma {:induction false} AllocationAfter(range: Range, counter: nat, i: nat)
    requires range.InSize() && counter < range.size
    ensures var step := Pools.Allocation(range.size, range.lower, range.upper, Counter(range, counter, i));
            && step.address == Pools.Handed(range.size, range.lower, range.upper, counter, i)
            && step.counter == Counter(range, counter, i + 1)
    decreases i
  {
    if i > 0 {
      AllocationAfter(range, Pools.Allocation(range.size, range.lower, range.upper, counter).counter, i - 1);
    }
  }

  lemma {:induction false} StillGenuine(range: Range, asked: seq<Text>, more: seq<Text>, name: Text, address: nat)
    requires range.InSize()
    requires Genuine(range, asked, name, address)
    ensures Genuine(range, asked + more, name, address)
  {
    var i :| 0 <= i < |asked| && asked[i] == name && range.Address(i) == address;
    assert (asked + more)[i] == name;
  }

  lemma {:induction false} AllocationIsGenuine(range: Range, asked: seq<Text>, name: Text)
    requires range.InSize()
    ensures var step := Pools.Allocation(range.size, range.lower, range.upper, Counter(range, range.start, |asked|));
            Genuine(range, asked + [name], name, step.address) && step.counter == Counter(range, range.start, |asked| + 1)
  {
    AllocationAfter(range, range.start, |asked|);
    assert (asked + [name])[|asked|] == name;
    assert range.Address(|asked|) == Pools.Handed(range.size, range.lower, range.upper, range.start, |asked|);
  }

  lemma {:induction false} TakeKeepsInv(capacity: nat, range: Range, s: State, call: nat)
    requires range.InSize() && s.counter < range.size && Inv(range, s) && call in s.missed
    ensures Inv(range, Advance(capacity, range, s, Take(call)))
  {
    var r := Advance(capacity, range, s, Take(call));
    var name := s.missed[call];
    AllocationIsGenuine(range, s.asked, name);
    forall e | e in r.es ensures Genuine(range, r.asked, e.0, e.1) {
      StillGenuine(range, s.asked, [name], e.0, e.1);
    }
    forall c | c in r.pending && c != call ensures Genuine(range, r.asked, r.pending[c].name, r.pending[c].address) {
      StillGenuine(range, s.asked, [name], s.pending[c].name, s.pending[c].address);
    }
  }

  /** Every step keeps all cached and pending answers genuine. */
  lemma {:induction false} StepKeepsInv(capacity: nat, range: Range, s: State, m: Move)
    requires range.InSize() && s.counter < range.size
    requires Inv(range, s) && Enabled(s, m)
    ensures Inv(range, Advance(capacity, range, s, m))
  {
    var r := Advance(capacity, range, s, m);
    match m
    case LookUp(_, name) =>
      if Find<Text, nat>(s.es, name).Some? {
        forall e | e in r.es ensures Genuine(range, r.asked, e.0, e.1) {
          TouchIsPart<Text, nat>(s.es, name, e);
        }
        assert (name, Find<Text, nat>(s.es, name).value) in s.es;
      }
    case Take(call) => TakeKeepsInv(capacity, range, s, call);
    case Store(call) =>
      var p := s.pending[call];
      forall e | e in r.es ensures Genuine(range, r.asked, e.0, e.1) {
        PutIsPart<Text, nat>(capacity, s.es, p.name, p.address, e);
      }
  }

  lemma {:induction false} RunsKeepInv(capacity: nat, range: Range, moves: seq<Move>, s: State)
    requires range.InSize()
    requires Reaches(capacity, range, moves, s)
    ensures Inv(range, s)
    decreases |moves|
  {
    if moves != [] {
      var n := |moves| - 1;
      var before: State :|
        && Reaches(capacity, range, moves[..n], before)
        && before.counter < range.size && Enabled(before, moves[n])
        && s == Advance(capacity, range, before, moves[n]);
      RunsKeepInv(capacity, range, moves[..n], before);
      StepKeepsInv(capacity, range, before, moves[n]);
    }
  }

  /** An address was taken for this name, and is among the last ones the pool can hand out before one
      comes back. */
  ghost predicate Current(range: Range, asked: seq<Text>, name: Text, address: nat)
    requires range.InSize()
  {
    exists i :: 0 <= i < |asked| && |asked| - range.Room() <= i && asked[i] == name && range.Address(i) == address
  }

  lemma {:induction false} CurrentApart(range: Range, asked: seq<Text>, x: Text, y: Text, address: nat)
    requires range.Valid() && Current(range, asked, x, address) && Current(range, asked, y, address)
    ensures x == y
  {
    var i :| 0 <= i < |asked| && |asked| - range.Room() <= i && asked[i] == x && range.Address(i) == address;
    var j :| 0 <= j < |asked| && |asked| - range.Room() <= j && asked[j] == y && range.Address(j) == address;
    if i != j {
      Pools.NoEarlyRepeat(range.size, range.lower, range.upper, range.start, Min(i, j), if i < j then j else i);
    }
  }

  /** All cached answers are among the last addresses handed out. */
  ghost predicate AllCurrent(range: Range, s: State)
    requires range.InSize()
  {
    forall e :: e in s.es ==> Current(range, s.asked, e.0, e.1)
  }

  /** While no more addresses were taken than the pool has, all answers are current. */
  lemma {:induction false} FewAreCurrent(capacity: nat, range: Range, moves: seq<Move>, s: State)
    requires range.InSize() && Reaches(capacity, range, moves, s) && |s.asked| <= range.Room()
    ensures AllCurrent(range, s)
  {
    RunsKeepInv(capacity, range, moves, s);
    forall e | e in s.es ensures Current(range, s.asked, e.0, e.1) {
      assert Genuine(range, s.asked, e.0, e.1);
    }
  }

  /** Current answers for different names are different, in whatever order the steps of the queries
      came and however many addresses were taken. */
  lemma {:induction false} NamesKeepApart(range: Range, s: State, x: Text, y: Text, address: nat)
    requires range.Valid() && AllCurrent(range, s)
    requires (x, address) in s.es && (y, address) in s.es
    ensures x == y
  {
    assert Current(range, s.asked, (x, address).0, (x, address).1);
    assert Current(range, s.asked, (y, address).0, (y, address).1);
    CurrentApart(range, s.asked, x, y, address);
  }

  /** So the reverse query inverts the table. */
  lemma {:induction false} ReverseInverts(range: Range, s: State, name: Text, address: nat)
    requires range.Valid() && AllCurrent(range, s)
    ensures (name, address) in s.es <==> NameOf(s.es, address) == Some(name)
  {
    var p := Standing(address);
    var found := FirstWhere<Text, nat>(s.es, p);
    if (name, address) in s.es {
      var i :| 0 <= i < |s.es| && s.es[i] == (name, address);
      assert p(s.es[i].0, s.es[i].1);
      NamesKeepApart(range, s, name, found.value.0, address);
    }
  }

  /** Right after an answer is stored, the reverse query finds its name, whatever came before. */
  lemma {:induction false} FreshAnswerReversesSafely(capacity: nat, range: Range, s: State, call: nat)
    requires range.InSize() && s.counter < range.size
    requires capacity > 0 && call in s.pending
    ensures var p := s.pending[call];
            NameOf(Advance(capacity, range, s, Store(call)).es, p.address) == Some(p.name)
  {
    var p := s.pending[call];
    var es := Put<Text, nat>(capacity, s.es, p.name, p.address);
    assert es != [] && es[0] == (p.name, p.address);
  }
}
