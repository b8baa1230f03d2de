/**
 Queries for one name that overlap: exactly when they give it two addresses, and what becomes of the
 answers then.
 */
module FakeDnsRaces {
  import opened Bytes
  import opened RecencyList
  import opened RecencyRuns
  import opened DomainText
  import opened FakeDns
  import opened FakeDnsRuns
  import Pools = AddressPool

  /** A run of the resolver, the latest step outermost. */
  datatype Run = Begin | More(before: Run, move: Move)

  predicate Valid(capacity: nat, range: Range, run: Run)
    requires range.InSize()
    decreases run, 0
  {
    match run
    case Begin => true
    case More(before, m) => Valid(capacity, range, before) && Enabled(Exec(capacity, range, before), m)
  }

  function Exec(capacity: nat, range: Range, run: Run): (s: State)
    requires range.InSize() && Valid(capacity, range, run)
    ensures s.counter < range.size
    decreases run, 1
  {
    match run
    case Begin => Idle(range)
    case More(before, m) => Advance(capacity, range, Exec(capacity, range, before), m)
  }

  function MovesOf(run: Run): (r: seq<Move>) {
    if run.Begin? then [] else MovesOf(run.before) + [run.move]
  }

  lemma {:induction false} RunReaches(capacity: nat, range: Range, run: Run)
    requires range.InSize() && Valid(capacity, range, run)
    ensures Reaches(capacity, range, MovesOf(run), Exec(capacity, range, run))
  {
    if run.More? {
      RunReaches(capacity, range, run.before);
      ReachesOneMore(capacity, range, MovesOf(run.before), Exec(capacity, range, run.before), run.move);
    }
  }

  /** Conversely, whatever moves reach is what a run reaches. */
  lemma {:induction false} RunOfMoves(capacity: nat, range: Range, moves: seq<Move>, s: State) returns (run: Run)
    requires range.InSize() && Reaches(capacity, range, moves, s)
    ensures Valid(capacity, range, run) && MovesOf(run) == moves && Exec(capacity, range, run) == s
    decreases |moves|
  {
    if moves == [] {
      run := Begin;
    } else {
      var n := |moves| - 1;
      var before: State :|
        && Reaches(capacity, range, moves[..n], before)
        && before.counter < range.size && Enabled(before, moves[n])
        && s == Advance(capacity, range, before, moves[n]);
      var r := RunOfMoves(capacity, range, moves[..n], before);
      run := More(r, moves[n]);
      assert moves == moves[..n] + [moves[n]];
    }
  }

  lemma {:induction false} CacheStaysDistinct(capacity: nat, range: Range, run: Run)
    requires range.InSize() && Valid(capacity, range, run)
    ensures var es := Exec(capacity, range, run).es; Distinct<Text, nat>(es) && |es| <= capacity
  {
    if run.More? {
      CacheStaysDistinct(capacity, range, run.before);
      var s := Exec(capacity, range, run.before);
      match run.move
      case LookUp(_, name) => ApplyKeepsBounds<Text, nat>(capacity, s.es, Fetching(name));
      case Take(_) =>
      case Store(call) => ApplyKeepsBounds<Text, nat>(capacity, s.es, Setting(s.pending[call].name, s.pending[call].address));
    }
  }

  predicate PendingFor(s: State, call: nat, x: Text) {
    call in s.pending && s.pending[call].name == x
  }

  /** All calls pending for a name, and the cache if it knows the name, have the same address for it. */
  ghost predicate OneAddress(s: State, x: Text) {
    && (forall c, d :: PendingFor(s, c, x) && PendingFor(s, d, x) ==> s.pending[c].address == s.pending[d].address)
    && (forall c :: PendingFor(s, c, x) && Find<Text, nat>(s.es, x).Some? ==>
          Find<Text, nat>(s.es, x) == Some(s.pending[c].address))
  }

  /** The name has this address, in the cache or in a pending answer. */
  ghost predicate HasAddress(s: State, x: Text, address: nat) {
    Find<Text, nat>(s.es, x) == Some(address) || exists c :: PendingFor(s, c, x) && s.pending[c].address == address
  }

  /** A step does not take an address for a name that has one. */
  ghost predicate CarefulStep(s: State, m: Move, x: Text)
    requires Enabled(s, m)
  {
    m.Take? && s.missed[m.call] == x ==> forall address :: !HasAddress(s, x, address)
  }

  ghost predicate Careful(capacity: nat, range: Range, run: Run, x: Text)
    requires range.InSize() && Valid(capacity, range, run)
  {
    run.More? ==> Careful(capacity, range, run.before, x) && CarefulStep(Exec(capacity, range, run.before), run.move, x)
  }

  /** What a step can do to what the cache knows of a name. */
  lemma {:induction false} FindAfterMove(capacity: nat, range: Range, s: State, m: Move, x: Text)
    requires range.InSize() && s.counter < range.size && Enabled(s, m)
    requires Distinct<Text, nat>(s.es) && |s.es| <= capacity
    ensures var found := Find<Text, nat>(Advance(capacity, range, s, m).es, x);
            found.Some? ==>
              found == if m.Store? && PendingFor(s, m.call, x) then Some(s.pending[m.call].address) else Find<Text, nat>(s.es, x)
  {
    match m
    case LookUp(_, name) => FindAfter<Text, nat>(capacity, s.es, Fetching(name), x);
    case Take(_) =>
    case Store(call) => FindAfter<Text, nat>(capacity, s.es, Setting(s.pending[call].name, s.pending[call].address), x);
  }

  /** Which pending calls there are for a name after a step. */
  lemma {:induction false} PendingAfterMove(capacity: nat, range: Range, s: State, m: Move, x: Text, c: nat)
    requires range.InSize() && s.counter < range.size && Enabled(s, m) && PendingFor(Advance(capacity, range, s, m), c, x)
    ensures var r := Advance(capacity, range, s, m);
            || (PendingFor(s, c, x) && r.pending[c] == s.pending[c])
            || (m == LookUp(c, x) && Find<Text, nat>(s.es, x) == Some(r.pending[c].address))
            || (m == Take(c) && s.missed[c] == x)
  {
  }

  lemma {:induction false} CarefulStepKeepsOne(capacity: nat, range: Range, s: State, m: Move, x: Text)
    requires range.InSize() && s.counter < range.size && Enabled(s, m)
    requires Distinct<Text, nat>(s.es) && |s.es| <= capacity
    requires OneAddress(s, x) && CarefulStep(s, m, x)
    ensures OneAddress(Advance(capacity, range, s, m), x)
  {
    var r := Advance(capacity, range, s, m);
    FindAfterMove(capacity, range, s, m, x);
    forall c, d | PendingFor(r, c, x) && PendingFor(r, d, x) ensures r.pending[c].address == r.pending[d].address {
      PendingAfterMove(capacity, range, s, m, x, c);
      PendingAfterMove(capacity, range, s, m, x, d);
      if m.Take? && s.missed[m.call] == x {
        NothingToClash(s, m, x, c);
        NothingToClash(s, m, x, d);
      }
    }
    forall c | PendingFor(r, c, x) && Find<Text, nat>(r.es, x).Some? ensures Find<Text, nat>(r.es, x) == Some(r.pending[c].address) {
      PendingAfterMove(capacity, range, s, m, x, c);
      if m.Take? && s.missed[m.call] == x {
        NothingToClash(s, m, x, c);
      }
    }
  }

  lemma {:induction false} NothingToClash(s: State, m: Move, x: Text, c: nat)
    requires Enabled(s, m) && CarefulStep(s, m, x) && m.Take? && s.missed[m.call] == x
    ensures !PendingFor(s, c, x) && Find<Text, nat>(s.es, x).None?
  {
    if PendingFor(s, c, x) {
      assert HasAddress(s, x, s.pending[c].address);
    }
    if Find<Text, nat>(s.es, x).Some? {
      assert HasAddress(s, x, Find<Text, nat>(s.es, x).value);
    }
  }

  /** In a careful run a name never has two addresses at a time. */
  lemma {:induction false} CarefulKeepsOne(capacity: nat, range: Range, run: Run, x: Text)
    requires range.InSize() && Valid(capacity, range, run) && Careful(capacity, range, run, x)
    ensures OneAddress(Exec(capacity, range, run), x)
  {
    if run.More? {
      CarefulKeepsOne(capacity, range, run.before, x);
      CacheStaysDistinct(capacity, range, run.before);
      CarefulStepKeepsOne(capacity, range, Exec(capacity, range, run.before), run.move, x);
    }
  }

  lemma {:induction false} AddressIsGenuine(capacity: nat, range: Range, run: Run, x: Text, a: nat)
    requires range.InSize() && Valid(capacity, range, run) && HasAddress(Exec(capacity, range, run), x, a)
    ensures Genuine(range, Exec(capacity, range, run).asked, x, a)
  {
    var s := Exec(capacity, range, run);
    RunReaches(capacity, range, run);
    RunsKeepInv(capacity, range, MovesOf(run), s);
    if Find<Text, nat>(s.es, x) == Some(a) {
      assert Genuine(range, s.asked, (x, a).0, (x, a).1);
    } else {
      var c :| PendingFor(s, c, x) && s.pending[c].address == a;
      assert Genuine(range, s.asked, s.pending[c].name, s.pending[c].address);
    }
  }

  /** Taking an address for a name that has one gives it a second. */
  lemma {:induction false} CarelessStepGivesTwo(capacity: nat, range: Range, run: Run, d: nat, x: Text, a: nat)
    requires range.Valid() && Valid(capacity, range, run) && |Exec(capacity, range, run).asked| < range.Room()
    requires var s := Exec(capacity, range, run); HasAddress(s, x, a) && d in s.missed && s.missed[d] == x
    ensures var s := Exec(capacity, range, run);
            var r := Advance(capacity, range, s, Take(d));
            && PendingFor(r, d, x) && r.pending[d].address != a && |r.asked| == |s.asked| + 1
            && (d !in s.pending ==> !OneAddress(r, x))
  {
    var s := Exec(capacity, range, run);
    var r, n := Advance(capacity, range, s, Take(d)), |s.asked|;
    RunReaches(capacity, range, run);
    RunsKeepInv(capacity, range, MovesOf(run), s);
    AddressIsGenuine(capacity, range, run, x, a);
    var i :| 0 <= i < n && s.asked[i] == x && range.Address(i) == a;
    AllocationAfter(range, range.start, n);
    Pools.NoEarlyRepeat(range.size, range.lower, range.upper, range.start, i, n);
    if d !in s.pending && Find<Text, nat>(s.es, x) != Some(a) {
      var c :| PendingFor(s, c, x) && s.pending[c].address == a;
      assert PendingFor(r, c, x) && r.pending[c].address == a;
    }
  }

  /** A call has either missed or got an answer. */
  lemma {:induction false} MissedAreNotPending(capacity: nat, range: Range, run: Run, c: nat)
    requires range.InSize() && Valid(capacity, range, run)
    ensures var s := Exec(capacity, range, run); !(c in s.missed && c in s.pending)
  {
    if run.More? {
      MissedAreNotPending(capacity, range, run.before, c);
    }
  }

  ghost predicate AlwaysOne(capacity: nat, range: Range, run: Run, x: Text)
    requires range.InSize() && Valid(capacity, range, run)
  {
    OneAddress(Exec(capacity, range, run), x) && (run.More? ==> AlwaysOne(capacity, range, run.before, x))
  }

  /** Within what the pool has, a name never has two addresses at a time exactly if no address is taken
      for it while it has one. */
  lemma {:induction false} OneAddressExactly(capacity: nat, range: Range, run: Run, x: Text)
    requires range.Valid() && Valid(capacity, range, run) && |Exec(capacity, range, run).asked| <= range.Room()
    ensures AlwaysOne(capacity, range, run, x) <==> Careful(capacity, range, run, x)
  {
    if run.More? {
      var s := Exec(capacity, range, run.before);
      OneAddressExactly(capacity, range, run.before, x);
      if Careful(capacity, range, run, x) {
        CarefulKeepsOne(capacity, range, run, x);
      } else if !CarefulStep(s, run.move, x) {
        var a :| HasAddress(s, x, a);
        MissedAreNotPending(capacity, range, run.before, run.move.call);
        CarelessStepGivesTwo(capacity, range, run.before, run.move.call, x, a);
      }
    }
  }

  // Answers and their reverses.

  predicate Extends(run: Run, more: Run) {
    more == run || (more.More? && Extends(run, more.before))
  }

  /** A run extends another exactly when its moves begin with the other's. */
  lemma {:induction false} ExtendsExactly(run: Run, more: Run)
    ensures Extends(run, more) <==> MovesOf(run) <= MovesOf(more)
    decreases more
  {
    if more.More? {
      ExtendsExactly(run, more.before);
      if MovesOf(run) == MovesOf(more) {
        SameMovesSameRun(run, more);
      }
    }
  }

  lemma {:induction false} SameMovesSameRun(run: Run, other: Run)
    requires MovesOf(run) == MovesOf(other)
    ensures run == other
    decreases run
  {
    if run.More? && other.More? {
      var a, b := MovesOf(run.before), MovesOf(other.before);
      assert a == (a + [run.move])[..|a|] && b == (b + [other.move])[..|b|];
      assert (a + [run.move])[|a|] == run.move && (b + [other.move])[|b|] == other.move;
      SameMovesSameRun(run.before, other.before);
    }
  }

  /** The cache knows the name in every state after `run`, up to `more`. */
  predicate Remembered(capacity: nat, range: Range, run: Run, more: Run, x: Text)
    requires range.InSize() && Valid(capacity, range, more)
  {
    more == run ||
    (more.More? && Find<Text, nat>(Exec(capacity, range, more).es, x).Some? && Remembered(capacity, range, run, more.before, x))
  }

  lemma {:induction false} RememberedAnswerStays(capacity: nat, range: Range, run: Run, more: Run, x: Text, address: nat)
    requires range.InSize() && Valid(capacity, range, more) && Valid(capacity, range, run)
    requires Careful(capacity, range, more, x) && Remembered(capacity, range, run, more, x)
    requires Find<Text, nat>(Exec(capacity, range, run).es, x) == Some(address)
    ensures Find<Text, nat>(Exec(capacity, range, more).es, x) == Some(address)
  {
    if more != run {
      var s := Exec(capacity, range, more.before);
      RememberedAnswerStays(capacity, range, run, more.before, x, address);
      CarefulKeepsOne(capacity, range, more.before, x);
      CacheStaysDistinct(capacity, range, more.before);
      FindAfterMove(capacity, range, s, more.move, x);
    }
  }

  lemma {:induction false} StoredIsFound(capacity: nat, range: Range, s: State, call: nat, x: Text)
    requires range.InSize() && s.counter < range.size && capacity > 0 && PendingFor(s, call, x)
    ensures Find<Text, nat>(Advance(capacity, range, s, Store(call)).es, x) == Some(s.pending[call].address)
  {
    var es := Put<Text, nat>(capacity, s.es, x, s.pending[call].address);
    assert es != [] && es[0] == (x, s.pending[call].address);
  }

  /** In a careful run, every answer given for a name leads back to it for as long as the name is
      remembered. */
  lemma {:induction false} CarefulAnswersReverse(capacity: nat, range: Range, run: Run, call: nat, more: Run, x: Text)
    requires range.Valid() && capacity > 0 && Valid(capacity, range, run) && PendingFor(Exec(capacity, range, run), call, x)
    requires Valid(capacity, range, more) && Careful(capacity, range, more, x)
    requires Remembered(capacity, range, More(run, Store(call)), more, x)
    requires |Exec(capacity, range, more).asked| <= range.Room()
    ensures NameOf(Exec(capacity, range, more).es, Exec(capacity, range, run).pending[call].address) == Some(x)
  {
    var answer := Exec(capacity, range, run).pending[call].address;
    StoredIsFound(capacity, range, Exec(capacity, range, run), call, x);
    RememberedAnswerStays(capacity, range, More(run, Store(call)), more, x, answer);
    RunReaches(capacity, range, more);
    FewAreCurrent(capacity, range, MovesOf(more), Exec(capacity, range, more));
    assert (x, answer) in Exec(capacity, range, more).es;
    ReverseInverts(range, Exec(capacity, range, more), x, answer);
  }

  lemma {:induction false} AskedGrows(capacity: nat, range: Range, run: Run, more: Run)
    requires range.InSize() && Valid(capacity, range, run) && Valid(capacity, range, more) && Extends(run, more)
    ensures Exec(capacity, range, run).asked <= Exec(capacity, range, more).asked
  {
    if more != run {
      AskedGrows(capacity, range, run, more.before);
    }
  }

  /** Of two addresses taken for one name, one leads nowhere. */
  lemma {:induction false} OneOfTwoIsLost(capacity: nat, range: Range, run: Run, x: Text, a: nat, b: nat)
    requires range.Valid() && Valid(capacity, range, run) && a != b
    requires var s := Exec(capacity, range, run);
             |s.asked| <= range.Room() && Genuine(range, s.asked, x, a) && Genuine(range, s.asked, x, b)
    ensures var es := Exec(capacity, range, run).es; NameOf(es, a) == None || NameOf(es, b) == None
  {
    var s := Exec(capacity, range, run);
    RunReaches(capacity, range, run);
    RunsKeepInv(capacity, range, MovesOf(run), s);
    CacheStaysDistinct(capacity, range, run);
    if NameOf(s.es, a).Some? && NameOf(s.es, b).Some? {
      var i := OwnerIs(range, s, x, a);
      var j := OwnerIs(range, s, x, b);
    }
  }

  lemma {:induction false} OwnerIs(range: Range, s: State, x: Text, a: nat) returns (i: nat)
    requires range.Valid() && |s.asked| <= range.Room() && Inv(range, s)
    requires Genuine(range, s.asked, x, a) && NameOf(s.es, a).Some?
    ensures i < |s.es| && s.es[i] == (x, a)
  {
    var y := NameOf(s.es, a).value;
    assert (y, a) in s.es;
    assert Genuine(range, s.asked, (y, a).0, (y, a).1);
    assert Current(range, s.asked, x, a) && Current(range, s.asked, y, a);
    CurrentApart(range, s.asked, x, y, a);
    i :| 0 <= i < |s.es| && s.es[i] == (y, a);
  }

  /** Conversely, after an address was taken for a name that had one, the two are different, and from
      then on one of them always leads nowhere. */
  lemma {:induction false} CarelessAnswerIsLost(capacity: nat, range: Range, run: Run, d: nat, more: Run, x: Text, a: nat)
    requires range.Valid() && Valid(capacity, range, run) && HasAddress(Exec(capacity, range, run), x, a)
    requires d in Exec(capacity, range, run).missed && Exec(capacity, range, run).missed[d] == x
    requires Valid(capacity, range, more) && Extends(More(run, Take(d)), more)
    requires |Exec(capacity, range, more).asked| <= range.Room()
    ensures var b := Exec(capacity, range, More(run, Take(d))).pending[d].address;
            var es := Exec(capacity, range, more).es;
            a != b && (NameOf(es, a) == None || NameOf(es, b) == None)
  {
    var next := More(run, Take(d));
    var s, r := Exec(capacity, range, next), Exec(capacity, range, more);
    AskedGrows(capacity, range, next, more);
    CarelessStepGivesTwo(capacity, range, run, d, x, a);
    AddressIsGenuine(capacity, range, run, x, a);
    StillGenuine(range, Exec(capacity, range, run).asked, [x], x, a);
    assert HasAddress(s, x, s.pending[d].address);
    AddressIsGenuine(capacity, range, next, x, s.pending[d].address);
    var rest := r.asked[|s.asked|..];
    assert r.asked == s.asked + rest;
    StillGenuine(range, s.asked, rest, x, a);
    StillGenuine(range, s.asked, rest, x, s.pending[d].address);
    OneOfTwoIsLost(capacity, range, more, x, a, s.pending[d].address);
  }

  // A condition on the calls alone.

  /** The calls for a name that have looked it up and not yet stored their answer. */
  function OpenCalls(run: Run, x: Text): (r: set<nat>) {
    match run
    case Begin => {}
    case More(before, LookUp(call, name)) => OpenCalls(before, x) + if name == x then {call} else {}
    case More(before, Take(_)) => OpenCalls(before, x)
    case More(before, Store(call)) => OpenCalls(before, x) - {call}
  }

  /** No call for the name starts while another one is open. */
  predicate OneAtATime(run: Run, x: Text) {
    run.More? ==>
      OneAtATime(run.before, x) && (run.move.LookUp? && run.move.name == x ==> OpenCalls(run.before, x) == {})
  }

  predicate OpenFor(s: State, call: nat, x: Text) {
    PendingFor(s, call, x) || (call in s.missed && s.missed[call] == x)
  }

  lemma {:induction false} OpenCallsAreOpen(capacity: nat, range: Range, run: Run, x: Text, c: nat)
    requires range.InSize() && Valid(capacity, range, run)
    ensures c in OpenCalls(run, x) <==> OpenFor(Exec(capacity, range, run), c, x)
  {
    if run.More? {
      OpenCallsAreOpen(capacity, range, run.before, x, c);
      MissedAreNotPending(capacity, range, run.before, c);
    }
  }

  /** While a call that has missed a name is open, it is the only one, and the name stays unknown. */
  ghost predicate Alone(s: State, x: Text) {
    forall c, d :: c in s.missed && s.missed[c] == x && OpenFor(s, d, x) ==> c == d && Find<Text, nat>(s.es, x).None?
  }

  lemma {:induction false} OneAtATimeIsAlone(capacity: nat, range: Range, run: Run, x: Text)
    requires range.InSize() && Valid(capacity, range, run) && OneAtATime(run, x)
    ensures Alone(Exec(capacity, range, run), x)
  {
    if run.More? {
      var s := Exec(capacity, range, run.before);
      var r := Exec(capacity, range, run);
      OneAtATimeIsAlone(capacity, range, run.before, x);
      CacheStaysDistinct(capacity, range, run.before);
      FindAfterMove(capacity, range, s, run.move, x);
      forall c, d | c in r.missed && r.missed[c] == x && OpenFor(r, d, x) ensures c == d && Find<Text, nat>(r.es, x).None? {
        OpenCallsAreOpen(capacity, range, run.before, x, c);
        OpenCallsAreOpen(capacity, range, run.before, x, d);
        MissedAreNotPending(capacity, range, run.before, c);
        if c in s.missed {
          assert s.missed[c] == x && OpenFor(s, c, x);
          if run.move.Store? && PendingFor(s, run.move.call, x) {
            assert OpenFor(s, run.move.call, x);
          }
        }
      }
    }
  }

  /** Calls for a name that do not overlap never take an address for it while it has one. */
  lemma {:induction false} OneAtATimeIsCareful(capacity: nat, range: Range, run: Run, x: Text)
    requires range.InSize() && Valid(capacity, range, run) && OneAtATime(run, x)
    ensures Careful(capacity, range, run, x)
  {
    if run.More? {
      var s, m := Exec(capacity, range, run.before), run.move;
      OneAtATimeIsCareful(capacity, range, run.before, x);
      OneAtATimeIsAlone(capacity, range, run.before, x);
      if m.Take? && s.missed[m.call] == x {
        MissedAreNotPending(capacity, range, run.before, m.call);
        assert OpenFor(s, m.call, x);
        forall address ensures !HasAddress(s, x, address) {
          if c :| PendingFor(s, c, x) && s.pending[c].address == address {
            assert OpenFor(s, c, x);
          }
        }
      }
    }
  }
}
