/**
 Traffic totals by forwarding protocol, kept up to date from the running totals that connections
 report, in 64-bit counters that wrap around.
 */
module Accounting {
  import opened Bytes

  const MODULUS: nat := 0x1_0000_0000_0000_0000

  type u64 = x: int | 0 <= x < 0x1_0000_0000_0000_0000

  datatype PathReport = PathReport(
    receivedPackets: u64,
    sentPackets: u64,
    received: u64,
    receivedDuplicate: u64,
    receivedOutOfOrder: u64,
    sent: u64,
    retransmitted: u64,
    receivedByApplication: u64,
    sentByApplication: u64)

  const ZERO: PathReport := PathReport(0, 0, 0, 0, 0, 0, 0, 0, 0)

  /** Addition with wrap-around. */
  function Add(a: u64, b: u64): (r: u64)
    ensures r == (a + b) % MODULUS
  {
    if a + b < MODULUS then a + b else a + b - MODULUS
  }

  /** Subtraction with wrap-around. */
  function Subtract(a: u64, b: u64): (r: u64)
    ensures r == (a - b) % MODULUS
  {
    if a >= b then a - b else a - b + MODULUS
  }

  function Plus(a: PathReport, b: PathReport): (r: PathReport) {
    PathReport(
      Add(a.receivedPackets, b.receivedPackets),
      Add(a.sentPackets, b.sentPackets),
      Add(a.received, b.received),
      Add(a.receivedDuplicate, b.receivedDuplicate),
      Add(a.receivedOutOfOrder, b.receivedOutOfOrder),
      Add(a.sent, b.sent),
      Add(a.retransmitted, b.retransmitted),
      Add(a.receivedByApplication, b.receivedByApplication),
      Add(a.sentByApplication, b.sentByApplication))
  }

  function Minus(a: PathReport, b: PathReport): (r: PathReport) {
    PathReport(
      Subtract(a.receivedPackets, b.receivedPackets),
      Subtract(a.sentPackets, b.sentPackets),
      Subtract(a.received, b.received),
      Subtract(a.receivedDuplicate, b.receivedDuplicate),
      Subtract(a.receivedOutOfOrder, b.receivedOutOfOrder),
      Subtract(a.sent, b.sent),
      Subtract(a.retransmitted, b.retransmitted),
      Subtract(a.receivedByApplication, b.receivedByApplication),
      Subtract(a.sentByApplication, b.sentByApplication))
  }

  /** The counters of a report, by number. */
  function Counter(r: PathReport, i: nat): (c: u64) {
    match i
    case 0 => r.receivedPackets
    case 1 => r.sentPackets
    case 2 => r.received
    case 3 => r.receivedDuplicate
    case 4 => r.receivedOutOfOrder
    case 5 => r.sent
    case 6 => r.retransmitted
    case 7 => r.receivedByApplication
    case _ => r.sentByApplication
  }

  lemma {:induction false} CountersAdd(a: PathReport, b: PathReport, i: nat)
    ensures Counter(Plus(a, b), i) == Add(Counter(a, i), Counter(b, i))
    ensures Counter(Minus(a, b), i) == Subtract(Counter(a, i), Counter(b, i))
  {
  }

  lemma {:induction false} CountersDecide(a: PathReport, b: PathReport)
    requires forall i: nat :: Counter(a, i) == Counter(b, i)
    ensures a == b
  {
    assert Counter(a, 0) == Counter(b, 0) && Counter(a, 1) == Counter(b, 1) && Counter(a, 2) == Counter(b, 2);
    assert Counter(a, 3) == Counter(b, 3) && Counter(a, 4) == Counter(b, 4) && Counter(a, 5) == Counter(b, 5);
    assert Counter(a, 6) == Counter(b, 6) && Counter(a, 7) == Counter(b, 7) && Counter(a, 8) == Counter(b, 8);
  }

  datatype Stage = Establishing | Active | Other

  /** What a connection reports: its stage, the protocol it is forwarded with, its running totals. */
  datatype Update = Update(id: nat, stage: Stage, protocol: Option<string>, totals: Option<PathReport>) {
    function Key(): (r: string) {
      if protocol.Some? then protocol.value else "DIRECT"
    }
  }

  /** `known` are the connections seen, `latest` their last totals, `table` the totals by protocol.
      `keys`, the protocol of the last totals of each connection, is not kept by the program. */
  datatype Book = Book(
    known: set<nat>,
    active: set<nat>,
    latest: map<nat, PathReport>,
    table: map<string, PathReport>,
    keys: map<nat, string>)

  function At<K>(m: map<K, PathReport>, k: K): (r: PathReport) {
    if k in m then m[k] else ZERO
  }

  /** What new totals of a connection add: all of them the first time, then what they changed by. */
  function Change(latest: map<nat, PathReport>, id: nat, totals: PathReport): (r: PathReport) {
    if id in latest then Minus(totals, latest[id]) else totals
  }

  function Recorded(b: Book, u: Update, totals: PathReport): (r: Book) {
    b.(latest := b.latest[u.id := totals],
       keys := b.keys[u.id := u.Key()],
       table := b.table[u.Key() := Plus(At(b.table, u.Key()), Change(b.latest, u.id, totals))])
  }

  /** What one update does to the book. */
  function After(b: Book, u: Update): (r: Book) {
    var seen := b.(known := b.known + {u.id},
                   active := if u.stage.Other? then b.active - {u.id} else b.active + {u.id});
    if u.totals.Some? then Recorded(seen, u, u.totals.value) else seen
  }

  function AfterAll(b: Book, updates: seq<Update>): (r: Book) {
    if updates == [] then b else After(AfterAll(b, updates[..|updates| - 1]), updates[|updates| - 1])
  }

  const EMPTY: Book := Book({}, {}, map[], map[], map[])

  lemma {:induction false} AfterByParts(
      b: Book, u: Update, known: set<nat>, active: set<nat>, latest: map<nat, PathReport>, table: map<string, PathReport>,
      keys: map<nat, string>)
    requires known == b.known + {u.id}
    requires active == if u.stage.Other? then b.active - {u.id} else b.active + {u.id}
    requires u.totals.None? ==> latest == b.latest && table == b.table && keys == b.keys
    requires u.totals.Some? ==>
               && latest == b.latest[u.id := u.totals.value] && keys == b.keys[u.id := u.Key()]
               && table == b.table[u.Key() := Plus(At(b.table, u.Key()), Change(b.latest, u.id, u.totals.value))]
    ensures Book(known, active, latest, table, keys) == After(b, u)
  {
  }

  /** The record of one connection. Its totals are missing until it first reports some. */
  class Connection {
    const id: nat
    var report: Option<PathReport>

    constructor (id: nat)
      ensures this.id == id && report == None
    {
      this.id, report := id, None;
    }
  }

  /** The last totals of the connections that have reported some. */
  ghost function LatestOf(indexes: map<nat, Connection>): (r: map<nat, PathReport>)
    reads indexes.Values
  {
    map id | id in indexes && indexes[id].report.Some? :: indexes[id].report.value
  }

  class Dashboard {
    /** The connections in the order they were first seen. */
    var results: seq<Connection>
    var indexes: map<nat, Connection>
    var activeIndexes: map<nat, Connection>
    var pathReportTable: map<string, PathReport>
    ghost var keys: map<nat, string>

    /** The list and the index hold the same records, each under its own identifier and only once, and
        the active ones are among them. */
    ghost predicate Valid()
      reads this
    {
      && |results| == |indexes|
      && (forall id :: id in indexes ==> indexes[id].id == id && indexes[id] in results)
      && (forall i :: 0 <= i < |results| ==> results[i].id in indexes && indexes[results[i].id] == results[i])
      && (forall id :: id in activeIndexes ==> id in indexes && activeIndexes[id] == indexes[id])
    }

    /** The book that the records amount to. */
    ghost function Model(): (r: Book)
      reads this, indexes.Values
    {
      Book(indexes.Keys, activeIndexes.Keys, LatestOf(indexes), pathReportTable, keys)
    }

    constructor ()
      ensures Valid() && Model() == EMPTY && results == []
    {
      results, indexes, activeIndexes, pathReportTable, keys := [], map[], map[], map[], map[];
    }

    /** The record of a connection, made and listed if there is none. */
    method RecordOf(id: nat) returns (c: Connection)
      requires Valid()
      modifies this`results, this`indexes
      ensures Valid() && id in indexes && indexes[id] == c && old(results) <= results
      ensures indexes.Keys == old(indexes).Keys + {id} && LatestOf(indexes) == old(LatestOf(indexes))
      ensures forall o :: o in results ==> o in old(results) || fresh(o)
    {
      if id in indexes {
        return indexes[id];
      }
      c := new Connection(id);
      ghost var before := LatestOf(indexes);
      results := results + [c];
      indexes := indexes[id := c];
      assert LatestOf(indexes) == before;
      assert indexes.Keys == old(indexes).Keys + {id};
      assert results[|results| - 1] == c;
    }

    /** Indexes a connection as active, or not. */
    method Track(c: Connection, stage: Stage)
      requires Valid() && c.id in indexes && indexes[c.id] == c
      modifies this`activeIndexes
      ensures Valid()
      ensures activeIndexes.Keys == if stage.Other? then old(activeIndexes).Keys - {c.id} else old(activeIndexes).Keys + {c.id}
    {
      if stage.Establishing? || stage.Active? {
        activeIndexes := activeIndexes[c.id := c];
      } else {
        activeIndexes := activeIndexes - {c.id};
      }
    }

    /** Stores the totals in a connection's record. */
    method StoreTotals(c: Connection, totals: PathReport)
      requires Valid() && c.id in indexes && indexes[c.id] == c
      modifies c
      ensures LatestOf(indexes) == old(LatestOf(indexes))[c.id := totals]
    {
      c.report := Some(totals);
    }

    /** Adds to the entry of a protocol what new totals of a connection add: all of them the first time,
        and what they have changed by from then on. */
    method AddTotals(c: Connection, key: string, totals: PathReport)
      requires Valid() && c.id in indexes && indexes[c.id] == c
      modifies this`pathReportTable
      ensures pathReportTable ==
                old(pathReportTable)[key := Plus(At(old(pathReportTable), key), Change(LatestOf(indexes), c.id, totals))]
    {
      var entry := At(pathReportTable, key);
      match c.report {
        case None => pathReportTable := pathReportTable[key := Plus(entry, totals)];
        case Some(before) => pathReportTable := pathReportTable[key := Plus(entry, Minus(totals, before))];
      }
    }

    /** Merges new totals of a connection. */
    method Merge(c: Connection, key: string, totals: PathReport)
      requires Valid() && c.id in indexes && indexes[c.id] == c
      modifies this`pathReportTable, this`keys, c
      ensures Valid() && LatestOf(indexes) == old(LatestOf(indexes))[c.id := totals] && keys == old(keys)[c.id := key]
      ensures pathReportTable ==
                old(pathReportTable)[key := Plus(At(old(pathReportTable), key), Change(old(LatestOf(indexes)), c.id, totals))]
    {
      AddTotals(c, key, totals);
      StoreTotals(c, totals);
      keys := keys[c.id := key];
    }

    method Insert(u: Update)
      requires Valid()
      modifies this, results
      ensures Valid() && Model() == After(old(Model()), u)
      ensures old(results) <= results && forall o :: o in results ==> o in old(results) || fresh(o)
    {
      var c := RecordOf(u.id);
      Track(c, u.stage);
      if u.totals.Some? {
        var key := if u.protocol.Some? then u.protocol.value else "DIRECT";
        Merge(c, key, u.totals.value);
      }
      AfterByParts(old(Model()), u, indexes.Keys, activeIndexes.Keys, LatestOf(indexes), pathReportTable, keys);
    }

    method PerformBatchUpdates(updates: seq<Update>)
      requires Valid()
      modifies this, results
      ensures Valid() && Model() == AfterAll(old(Model()), updates)
      ensures old(results) <= results
    {
      for i := 0 to |updates|
        invariant Valid() && Model() == AfterAll(old(Model()), updates[..i])
        invariant old(results) <= results && forall o :: o in results ==> o in old(results) || fresh(o)
      {
        assert updates[..i + 1][..i] == updates[..i];
        Insert(updates[i]);
      }
      assert updates[..|updates|] == updates;
    }
  }

  // Sums over a table.

  ghost function Total<K(!new)>(m: map<K, int>): (r: int)
    decreases |m|
  {
    if m == map[] then 0
    else
      var k :| k in m;
      m[k] + Total(m - {k})
  }

  lemma {:induction false} SmallerMap<K, V>(m: map<K, V>, k: K)
    requires k in m
    ensures |m - {k}| < |m|
  {
    assert (m - {k}).Keys == m.Keys - {k};
  }

  /** A sum does not depend on the order in which it is taken. */
  lemma {:induction false} TotalWithout<K(!new)>(m: map<K, int>, k: K)
    requires k in m
    ensures Total(m) == m[k] + Total(m - {k})
    decreases |m|
  {
    var j :| j in m && Total(m) == m[j] + Total(m - {j});
    if j != k {
      SmallerMap(m, j);
      SmallerMap(m, k);
      TotalWithout(m - {j}, k);
      TotalWithout(m - {k}, j);
      assert m - {j} - {k} == m - {k} - {j};
    }
  }

  lemma {:induction false} TotalSet<K(!new)>(m: map<K, int>, k: K, v: int)
    ensures Total(m[k := v]) == Total(m) - (if k in m then m[k] else 0) + v
  {
    TotalWithout(m[k := v], k);
    assert m[k := v] - {k} == m - {k};
    if k in m {
      TotalWithout(m, k);
    } else {
      assert m - {k} == m;
    }
  }
}
