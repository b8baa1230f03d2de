/**
 What the traffic totals amount to after any series of updates.
 */
module AccountingRuns {
  import opened Accounting

  /** One counter of every report in a table. */
  function Column<K>(m: map<K, PathReport>, i: nat): (r: map<K, int>)
    ensures r.Keys == m.Keys
  {
    map k | k in m :: Counter(m[k], i)
  }

  predicate Congruent(a: int, b: int) {
    (a - b) % 0x1_0000_0000_0000_0000 == 0
  }

  /** Every counter of the table adds up to that of the connections, up to wrap-around. */
  ghost predicate Conserved(b: Book) {
    forall i: nat :: Congruent(Total(Column(b.table, i)), Total(Column(b.latest, i)))
  }

  lemma {:induction false} ColumnSet<K>(m: map<K, PathReport>, k: K, v: PathReport, i: nat)
    ensures Column(m[k := v], i) == Column(m, i)[k := Counter(v, i)]
  {
  }

  /** Replacing an entry by what the change of a connection's total makes of it keeps two sums
      congruent, one with the entry and the other with the total. */
  lemma {:induction false} ChangeIsCongruent(a: int, b: int, entry: u64, totals: u64, before: u64)
    requires Congruent(a, b)
    ensures Congruent(a + (Add(entry, Subtract(totals, before)) - entry), b + (totals - before))
  {
    var change := Add(entry, Subtract(totals, before)) - entry - (totals - before);
    assert change == 0 || change == MODULUS || change == 0 - MODULUS;
    Shifted(a - b, change);
  }

  lemma {:induction false} EntryIsCongruent(entry: u64, now: u64, share: int, after: int, totals: u64, before: u64)
    requires Congruent(entry, share)
    requires now == Add(entry, Subtract(totals, before)) && after == share + (totals - before)
    ensures Congruent(now, after)
  {
    ChangeIsCongruent(entry, share, entry, totals, before);
  }

  lemma {:induction false} Shifted(d: int, change: int)
    requires d % 0x1_0000_0000_0000_0000 == 0
    requires change == 0 || change == MODULUS || change == 0 - MODULUS
    ensures (d + change) % 0x1_0000_0000_0000_0000 == 0
  {
  }

  /** What recording totals adds to one counter: of the table, and of the connections. */
  lemma {:induction false} RecordedCounter(b: Book, u: Update, totals: PathReport, i: nat)
    ensures var before := Counter(At(b.latest, u.id), i);
            var entry := Counter(At(b.table, u.Key()), i);
            && Counter(Recorded(b, u, totals).table[u.Key()], i) == Add(entry, Subtract(Counter(totals, i), before))
  {
    var entry := At(b.table, u.Key());
    if u.id in b.latest {
      var change := Minus(totals, b.latest[u.id]);
      CountersAdd(totals, b.latest[u.id], i);
      CountersAdd(entry, change, i);
    } else {
      assert Counter(ZERO, i) == 0;
      CountersAdd(entry, totals, i);
    }
  }

  /** An update with totals changes the entry of the protocol it names, or of "DIRECT" if it names none, by
      what the totals changed by; it changes no other entry, and without totals none. */
  lemma {:induction false} UpdateChangesOneEntry(b: Book, u: Update, key: string, i: nat)
    ensures var r := After(b, u);
            var mine := u.totals.Some? && key == (match u.protocol case Some(name) => name case None => "DIRECT");
            Counter(At(r.table, key), i) ==
              if mine
              then Add(Counter(At(b.table, key), i), Subtract(Counter(u.totals.value, i), Counter(At(b.latest, u.id), i)))
              else Counter(At(b.table, key), i)
  {
    var seen := b.(known := b.known + {u.id},
                   active := if u.stage.Other? then b.active - {u.id} else b.active + {u.id});
    if u.totals.Some? {
      RecordedCounter(seen, u, u.totals.value, i);
    }
  }

  lemma {:induction false} ColumnTotal<K(!new)>(m: map<K, PathReport>, k: K, v: PathReport, i: nat)
    ensures Total(Column(m[k := v], i)) == Total(Column(m, i)) + (Counter(v, i) - Counter(At(m, k), i))
  {
    ColumnSet(m, k, v, i);
    TotalSet(Column(m, i), k, Counter(v, i));
    assert Counter(ZERO, i) == 0;
  }

  lemma {:induction false} EntryIsConserved(
      table: map<string, PathReport>, latest: map<nat, PathReport>, key: string, id: nat, now: PathReport, totals: PathReport, i: nat)
    requires Congruent(Total(Column(table, i)), Total(Column(latest, i)))
    requires Counter(now, i) == Add(Counter(At(table, key), i), Subtract(Counter(totals, i), Counter(At(latest, id), i)))
    ensures Congruent(Total(Column(table[key := now], i)), Total(Column(latest[id := totals], i)))
  {
    ColumnTotal(table, key, now, i);
    ColumnTotal(latest, id, totals, i);
    ChangeIsCongruent(Total(Column(table, i)), Total(Column(latest, i)),
                      Counter(At(table, key), i), Counter(totals, i), Counter(At(latest, id), i));
  }

  lemma {:induction false} RecordedIsConserved(b: Book, u: Update, totals: PathReport, i: nat)
    requires Congruent(Total(Column(b.table, i)), Total(Column(b.latest, i)))
    ensures var r := Recorded(b, u, totals); Congruent(Total(Column(r.table, i)), Total(Column(r.latest, i)))
  {
    RecordedCounter(b, u, totals, i);
    EntryIsConserved(b.table, b.latest, u.Key(), u.id, Recorded(b, u, totals).table[u.Key()], totals, i);
  }

  lemma {:induction false} UpdateIsConserved(b: Book, u: Update)
    requires Conserved(b)
    ensures Conserved(After(b, u))
  {
    var seen := b.(known := b.known + {u.id},
                   active := if u.stage.Other? then b.active - {u.id} else b.active + {u.id});
    forall i: nat ensures Congruent(Total(Column(After(b, u).table, i)), Total(Column(After(b, u).latest, i))) {
      if u.totals.Some? {
        RecordedIsConserved(seen, u, u.totals.value, i);
      }
    }
  }

  lemma {:induction false} EmptyIsConserved()
    ensures Conserved(EMPTY)
  {
    forall i: nat ensures Congruent(Total(Column(EMPTY.table, i)), Total(Column(EMPTY.latest, i))) {
      assert Column(EMPTY.table, i) == map[] && Column(EMPTY.latest, i) == map[];
    }
  }

  /** Whatever is reported, in whatever order and under whatever protocols, in however many batches, the
      table as a whole goes on adding up to the latest totals of all connections. */
  lemma {:induction false} TotalsAreConserved(b: Book, updates: seq<Update>)
    requires Conserved(b)
    ensures Conserved(AfterAll(b, updates))
    decreases |updates|
  {
    if updates != [] {
      TotalsAreConserved(b, updates[..|updates| - 1]);
      UpdateIsConserved(AfterAll(b, updates[..|updates| - 1]), updates[|updates| - 1]);
    }
  }

  /** Batches one after the other are one batch, so what holds after any updates holds after any batches. */
  lemma {:induction false} BatchesJoin(b: Book, first: seq<Update>, second: seq<Update>)
    ensures AfterAll(AfterAll(b, first), second) == AfterAll(b, first + second)
    decreases |second|
  {
    if second == [] {
      assert first + second == first;
    } else {
      var n := |second| - 1;
      BatchesJoin(b, first, second[..n]);
      assert (first + second)[..|first| + n] == first + second[..n];
    }
  }

  // Each protocol by itself.

  /** One counter of the connections that last reported under a protocol. */
  ghost function Share(b: Book, key: string, i: nat): (r: map<nat, int>) {
    map id | id in b.latest && id in b.keys && b.keys[id] == key :: Counter(b.latest[id], i)
  }

  /** Every entry of the table is the total of the connections under that protocol. */
  ghost predicate ByProtocol(b: Book) {
    forall key: string, i: nat :: Congruent(Counter(At(b.table, key), i), Total(Share(b, key, i)))
  }

  ghost predicate Tracked(b: Book) {
    b.keys.Keys == b.latest.Keys && b.latest.Keys <= b.known
  }

  /** The share of a protocol after totals are recorded under it. */
  lemma {:induction false} ShareJoined(b: Book, u: Update, totals: PathReport, i: nat)
    ensures Share(Recorded(b, u, totals), u.Key(), i) == Share(b, u.Key(), i)[u.id := Counter(totals, i)]
  {
  }

  /** The share of every other protocol loses the connection, if it was there. */
  lemma {:induction false} ShareLeft(b: Book, u: Update, totals: PathReport, key: string, i: nat)
    requires key != u.Key()
    ensures Share(Recorded(b, u, totals), key, i) == Share(b, key, i) - {u.id}
  {
  }

  /** A connection may change its protocol only while it has no totals. */
  ghost predicate KeepsProtocol(b: Book, u: Update)
    requires Tracked(b)
  {
    u.totals.None? || u.id !in b.latest || b.keys[u.id] == u.Key() || b.latest[u.id] == ZERO
  }

  /** What the connection counted for in the share of a protocol. */
  ghost function Part(b: Book, id: nat, key: string, i: nat): (r: int)
    requires Tracked(b)
  {
    if id in b.latest && b.keys[id] == key then Counter(b.latest[id], i) else 0
  }

  lemma {:induction false} JoinedTotal(b: Book, u: Update, totals: PathReport, i: nat)
    requires Tracked(b)
    ensures Total(Share(Recorded(b, u, totals), u.Key(), i)) ==
              Total(Share(b, u.Key(), i)) + (Counter(totals, i) - Part(b, u.id, u.Key(), i))
  {
    ShareJoined(b, u, totals, i);
    TotalSet(Share(b, u.Key(), i), u.id, Counter(totals, i));
  }

  lemma {:induction false} LeftTotal(b: Book, u: Update, totals: PathReport, key: string, i: nat)
    requires Tracked(b) && key != u.Key()
    ensures Total(Share(Recorded(b, u, totals), key, i)) == Total(Share(b, key, i)) - Part(b, u.id, key, i)
  {
    var share := Share(b, key, i);
    ShareLeft(b, u, totals, key, i);
    if u.id in share {
      TotalWithout(share, u.id);
    } else {
      assert share - {u.id} == share;
    }
  }

  /** Under its own protocol a connection is accounted for exactly if what it counted for there is what
      it reported before. */
  lemma {:induction false} OwnProtocol(b: Book, u: Update, totals: PathReport, i: nat)
    requires Tracked(b) && Congruent(Counter(At(b.table, u.Key()), i), Total(Share(b, u.Key(), i)))
    requires Part(b, u.id, u.Key(), i) == Counter(At(b.latest, u.id), i)
    ensures var r := Recorded(b, u, totals);
            Congruent(Counter(At(r.table, u.Key()), i), Total(Share(r, u.Key(), i)))
  {
    var r := Recorded(b, u, totals);
    RecordedCounter(b, u, totals, i);
    JoinedTotal(b, u, totals, i);
    EntryIsCongruent(Counter(At(b.table, u.Key()), i), Counter(At(r.table, u.Key()), i),
                     Total(Share(b, u.Key(), i)), Total(Share(r, u.Key(), i)),
                     Counter(totals, i), Counter(At(b.latest, u.id), i));
  }

  lemma {:induction false} RecordedByProtocol(b: Book, u: Update, totals: PathReport, key: string, i: nat)
    requires Tracked(b) && ByProtocol(b)
    requires u.id !in b.latest || b.keys[u.id] == u.Key() || b.latest[u.id] == ZERO
    ensures var r := Recorded(b, u, totals); Congruent(Counter(At(r.table, key), i), Total(Share(r, key, i)))
  {
    assert Counter(ZERO, i) == 0;
    assert Congruent(Counter(At(b.table, key), i), Total(Share(b, key, i)));
    if key == u.Key() {
      OwnProtocol(b, u, totals, i);
    } else {
      LeftTotal(b, u, totals, key, i);
    }
  }

  lemma {:induction false} SomeCounterDiffers(a: PathReport) returns (i: nat)
    requires a != ZERO
    ensures Counter(a, i) != 0
  {
    if i: nat :| Counter(a, i) != 0 {
      return i;
    }
    forall i: nat ensures Counter(a, i) == Counter(ZERO, i) {
    }
    CountersDecide(a, ZERO);
  }

  /** Bringing the totals of another protocol along leaves them in the old entry too. */
  lemma {:induction false} MovedTotalsStay(b: Book, u: Update, totals: PathReport)
    requires Tracked(b) && ByProtocol(b)
    requires u.id in b.latest && b.keys[u.id] != u.Key() && b.latest[u.id] != ZERO
    ensures !ByProtocol(Recorded(b, u, totals))
  {
    var i := SomeCounterDiffers(b.latest[u.id]);
    var key := b.keys[u.id];
    var r := Recorded(b, u, totals);
    LeftTotal(b, u, totals, key, i);
    assert Congruent(Counter(At(b.table, key), i), Total(Share(b, key, i)));
    assert At(r.table, key) == At(b.table, key);
    NotBoth(Counter(At(b.table, key), i), Total(Share(b, key, i)), Counter(b.latest[u.id], i));
    assert !Congruent(Counter(At(r.table, key), i), Total(Share(r, key, i)));
  }

  lemma {:induction false} NotBoth(a: int, b: int, c: u64)
    requires Congruent(a, b) && c != 0
    ensures !Congruent(a, b - c)
  {
  }

  /** One update keeps every entry right exactly when it does not move totals to another protocol. */
  lemma {:induction false} ByProtocolExactly(b: Book, u: Update)
    requires Tracked(b) && ByProtocol(b)
    ensures Tracked(After(b, u))
    ensures ByProtocol(After(b, u)) <==> KeepsProtocol(b, u)
  {
    var seen := b.(known := b.known + {u.id},
                   active := if u.stage.Other? then b.active - {u.id} else b.active + {u.id});
    SameShares(b, seen);
    if u.totals.Some? {
      if KeepsProtocol(b, u) {
        forall key: string, i: nat ensures Congruent(Counter(At(After(b, u).table, key), i), Total(Share(After(b, u), key, i))) {
          RecordedByProtocol(seen, u, u.totals.value, key, i);
        }
      } else {
        MovedTotalsStay(seen, u, u.totals.value);
      }
    }
  }

  lemma {:induction false} SameShares(b: Book, c: Book)
    requires ByProtocol(b) && c.table == b.table && c.latest == b.latest && c.keys == b.keys
    ensures ByProtocol(c)
  {
    forall key: string, i: nat ensures Congruent(Counter(At(c.table, key), i), Total(Share(c, key, i))) {
      assert Congruent(Counter(At(b.table, key), i), Total(Share(b, key, i)));
      assert Share(c, key, i) == Share(b, key, i);
    }
  }

  /** Every connection reports totals under one protocol only. */
  ghost predicate FixedProtocols(updates: seq<Update>) {
    forall i, j :: 0 <= i < j < |updates| && updates[i].id == updates[j].id && updates[i].totals.Some? && updates[j].totals.Some? ==>
      updates[i].Key() == updates[j].Key()
  }

  /** The recorded protocols and totals come from updates. */
  lemma {:induction false} KeysComeFromUpdates(updates: seq<Update>, id: nat)
    ensures Tracked(AfterAll(EMPTY, updates))
    ensures var b := AfterAll(EMPTY, updates);
            id in b.latest ==> exists i :: 0 <= i < |updates| && updates[i].id == id && updates[i].totals.Some? && updates[i].Key() == b.keys[id]
    decreases |updates|
  {
    if updates != [] {
      var n := |updates| - 1;
      KeysComeFromUpdates(updates[..n], id);
      var b := AfterAll(EMPTY, updates[..n]);
      if id in b.latest && !(updates[n].id == id && updates[n].totals.Some?) {
        var i :| 0 <= i < n && updates[..n][i].id == id && updates[..n][i].totals.Some? && updates[..n][i].Key() == b.keys[id];
        assert updates[i] == updates[..n][i];
      }
    }
  }

  lemma {:induction false} EmptyByProtocol()
    ensures ByProtocol(EMPTY)
  {
    forall key: string, i: nat ensures Congruent(Counter(At(EMPTY.table, key), i), Total(Share(EMPTY, key, i))) {
      assert Share(EMPTY, key, i) == map[] && Counter(ZERO, i) == 0;
    }
  }

  /** The last of the updates of connections with fixed protocols moves no totals. */
  lemma {:induction false} LastKeepsProtocol(updates: seq<Update>)
    requires updates != [] && FixedProtocols(updates)
    ensures Tracked(AfterAll(EMPTY, updates[..|updates| - 1]))
    ensures KeepsProtocol(AfterAll(EMPTY, updates[..|updates| - 1]), updates[|updates| - 1])
  {
    var n := |updates| - 1;
    var b, u := AfterAll(EMPTY, updates[..n]), updates[n];
    KeysComeFromUpdates(updates[..n], u.id);
    if u.totals.Some? && u.id in b.latest {
      var i :| 0 <= i < n && updates[..n][i].id == u.id && updates[..n][i].totals.Some? && updates[..n][i].Key() == b.keys[u.id];
      assert updates[i] == updates[..n][i];
    }
  }

  lemma {:induction false} ProtocolTotals(updates: seq<Update>)
    requires FixedProtocols(updates)
    ensures ByProtocol(AfterAll(EMPTY, updates))
    decreases |updates|
  {
    if updates == [] {
      EmptyByProtocol();
    } else {
      var n := |updates| - 1;
      ProtocolTotals(updates[..n]);
      LastKeepsProtocol(updates);
      ByProtocolExactly(AfterAll(EMPTY, updates[..n]), updates[n]);
    }
  }

  /** When connections do not change their protocol, each entry is the sum, in 64 bits, of the latest
      totals of the connections under that protocol. */
  lemma {:induction false} ProtocolTotalsAreExact(updates: seq<Update>, key: string, i: nat)
    requires FixedProtocols(updates)
    ensures var b := AfterAll(EMPTY, updates); Counter(At(b.table, key), i) == Total(Share(b, key, i)) % MODULUS
  {
    ProtocolTotals(updates);
    var b := AfterAll(EMPTY, updates);
    assert Congruent(Counter(At(b.table, key), i), Total(Share(b, key, i)));
  }

  /** A connection is listed as active exactly if its last update said so. */
  lemma {:induction false} ActiveExactly(updates: seq<Update>, id: nat)
    ensures var b := AfterAll(EMPTY, updates);
            && (id in b.known <==> exists i :: 0 <= i < |updates| && updates[i].id == id)
            && (id in b.active <==> exists i :: 0 <= i < |updates| && updates[i].id == id && !updates[i].stage.Other? &&
                                      forall j :: i < j < |updates| ==> updates[j].id != id)
    decreases |updates|
  {
    if updates != [] {
      var n := |updates| - 1;
      ActiveExactly(updates[..n], id);
      var b, r := AfterAll(EMPTY, updates[..n]), AfterAll(EMPTY, updates);
      if updates[n].id == id {
        assert r.known == b.known + {id};
      } else {
        assert id in r.active <==> id in b.active;
        assert id in r.known <==> id in b.known;
        if i :| 0 <= i < |updates[..n]| && updates[..n][i].id == id {
          assert updates[i].id == id;
        }
        if i :| 0 <= i < |updates| && updates[i].id == id {
          assert updates[..n][i].id == id;
        }
        if i :| 0 <= i < n && updates[..n][i].id == id && !updates[..n][i].stage.Other? &&
                forall j :: i < j < n ==> updates[..n][j].id != id {
          assert updates[i].id == id && !updates[i].stage.Other?;
          forall j | i < j < |updates| ensures updates[j].id != id {
            assert j < n ==> updates[..n][j].id != id;
          }
        }
        if i :| 0 <= i < |updates| && updates[i].id == id && !updates[i].stage.Other? &&
                forall j :: i < j < |updates| ==> updates[j].id != id {
          assert updates[..n][i].id == id && !updates[..n][i].stage.Other?;
          forall j | i < j < n ensures updates[..n][j].id != id {
            assert updates[j].id != id;
          }
        }
      }
    }
  }
}
