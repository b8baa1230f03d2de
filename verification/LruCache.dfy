/**
 The least-recently-used cache as it is built: nodes in a doubly linked list, and a dictionary
 from keys to nodes. Every operation is proved against the plain recency list.
 */
module LruCaching {
  import opened Bytes
  import opened RecencyList

  class Node<K, V> {
    const key: K
    var value: V
    var next: Node?<K, V>
    var prev: Node?<K, V>

    constructor (key: K, value: V)
      ensures this.key == key && this.value == value && next == null && prev == null
    {
      this.key, this.value, next, prev := key, value, null, null;
    }
  }

  /** The node at a position of the list, null beyond its ends. */
  ghost function At<K, V>(nodes: seq<Node<K, V>>, i: int): (r: Node?<K, V>) {
    if 0 <= i < |nodes| then nodes[i] else null
  }

  /** The list without the node at one position. */
  ghost function Cut<T>(s: seq<T>, at: nat): (r: seq<T>)
    requires at < |s|
    ensures |r| == |s| - 1
    ensures forall i {:trigger r[i]} :: 0 <= i < |r| ==> r[i] == if i < at then s[i] else s[i + 1]
  {
    s[..at] + s[at + 1..]
  }

  /** The dictionary holds exactly the listed nodes, each under its key. */
  ghost predicate Indexed<K, V>(table: map<K, Node<K, V>>, nodes: seq<Node<K, V>>) {
    && |table| == |nodes|
    && (forall i :: 0 <= i < |nodes| ==> nodes[i].key in table && table[nodes[i].key] == nodes[i])
    && (forall k :: k in table ==> table[k] in nodes && table[k].key == k)
  }

  /** Every listed node has its own place, so none is listed twice. */
  ghost predicate Placed<K, V>(nodes: seq<Node<K, V>>, place: map<Node<K, V>, nat>) {
    forall i :: 0 <= i < |nodes| ==> nodes[i] in place && place[nodes[i]] == i
  }

  ghost function EntriesOf<K, V>(nodes: seq<Node<K, V>>): (r: Entries<K, V>)
    reads nodes`value
    ensures |r| == |nodes|
    ensures forall i {:trigger r[i]} :: 0 <= i < |nodes| ==> r[i] == (nodes[i].key, nodes[i].value)
  {
    if nodes == [] then [] else [(nodes[0].key, nodes[0].value)] + EntriesOf(nodes[1..])
  }

  lemma {:induction false} CutIndexed<K, V>(table: map<K, Node<K, V>>, nodes: seq<Node<K, V>>, place: map<Node<K, V>, nat>, at: nat)
    requires Indexed(table, nodes) && Placed(nodes, place) && at < |nodes|
    ensures Indexed(table - {nodes[at].key}, Cut(nodes, at))
  {
    var k := nodes[at].key;
    var c := Cut(nodes, at);
    RemoveKeySize(table, k);
    forall x | x in table && x != k ensures table[x] in c {
      var i :| 0 <= i < |nodes| && nodes[i] == table[x];
      assert c[if i < at then i else i - 1] == table[x];
    }
  }

  lemma {:induction false} PrependIndexed<K, V>(table: map<K, Node<K, V>>, nodes: seq<Node<K, V>>, node: Node<K, V>)
    requires Indexed(table, nodes) && node.key !in table
    ensures Indexed(table[node.key := node], [node] + nodes)
  {
    var t, ns := table[node.key := node], [node] + nodes;
    forall x | x in t ensures t[x] in ns {
      if x != node.key {
        var i :| 0 <= i < |nodes| && nodes[i] == table[x];
        assert ns[i + 1] == table[x];
      } else {
        assert ns[0] == node;
      }
    }
  }

  lemma {:induction false} MoveIndexed<K, V>(table: map<K, Node<K, V>>, nodes: seq<Node<K, V>>, place: map<Node<K, V>, nat>, at: nat)
    requires Indexed(table, nodes) && Placed(nodes, place) && at < |nodes|
    ensures Indexed(table, [nodes[at]] + Cut(nodes, at))
  {
    var node := nodes[at];
    CutIndexed(table, nodes, place, at);
    PrependIndexed(table - {node.key}, Cut(nodes, at), node);
    assert (table - {node.key})[node.key := node] == table;
  }

  /** The dictionary knows exactly the keys of the entries. */
  lemma {:induction false} TableKeys<K, V>(table: map<K, Node<K, V>>, nodes: seq<Node<K, V>>, k: K)
    requires Indexed(table, nodes)
    ensures HasKey(EntriesOf(nodes), k) <==> k in table
  {
    var es := EntriesOf(nodes);
    if k in table {
      var i :| 0 <= i < |nodes| && nodes[i] == table[k];
      assert es[i].0 == k;
    }
    if i :| 0 <= i < |es| && es[i].0 == k {
      assert nodes[i].key in table;
    }
  }

  lemma {:induction false} KeysAreDistinct<K, V>(table: map<K, Node<K, V>>, nodes: seq<Node<K, V>>, place: map<Node<K, V>, nat>)
    requires Indexed(table, nodes) && Placed(nodes, place)
    ensures Distinct(EntriesOf(nodes))
  {
    var es := EntriesOf(nodes);
    forall i, j | 0 <= i < j < |es| ensures es[i].0 != es[j].0 {
      assert table[nodes[i].key] == nodes[i] && table[nodes[j].key] == nodes[j];
    }
  }

  /** Taking out the node of a key takes out its entry. */
  lemma {:induction false} CutEntries<K, V>(table: map<K, Node<K, V>>, nodes: seq<Node<K, V>>, place: map<Node<K, V>, nat>, at: nat)
    requires Indexed(table, nodes) && Placed(nodes, place) && at < |nodes|
    ensures EntriesOf(Cut(nodes, at)) == Without(EntriesOf(nodes), nodes[at].key)
    ensures Find(EntriesOf(nodes), nodes[at].key) == Some(nodes[at].value)
  {
    var es := EntriesOf(nodes);
    KeysAreDistinct(table, nodes, place);
    assert es[at] == (nodes[at].key, nodes[at].value);
    WithoutAt(es, at);
    assert EntriesOf(Cut(nodes, at)) == es[..at] + es[at + 1..];
  }

  lemma {:induction false} PrependEntries<K, V>(nodes: seq<Node<K, V>>, node: Node<K, V>)
    ensures EntriesOf([node] + nodes) == [(node.key, node.value)] + EntriesOf(nodes)
  {
  }

  /** The places after one of them is taken out. */
  ghost function Shifted<K, V>(place: map<Node<K, V>, nat>, at: nat): (r: map<Node<K, V>, nat>) {
    map n | n in place :: if place[n] > at then place[n] - 1 else place[n]
  }

  lemma {:induction false} CutPlaced<K, V>(nodes: seq<Node<K, V>>, place: map<Node<K, V>, nat>, at: nat)
    requires Placed(nodes, place) && at < |nodes|
    ensures Placed(Cut(nodes, at), Shifted(place, at))
  {
  }

  /** `next` and `prev` lead along the list, and are each other's inverse. */
  ghost predicate Chained<K, V>(nodes: seq<Node<K, V>>)
    reads nodes`next, nodes`prev
  {
    && (forall i {:trigger nodes[i].next} :: 0 <= i < |nodes| ==> nodes[i].next == At(nodes, i + 1))
    && (forall i {:trigger nodes[i].prev} :: 0 <= i < |nodes| ==> nodes[i].prev == At(nodes, i - 1))
  }

  /** Once its neighbours bypass a node, the links spell out the list without it. */
  lemma {:induction false} CutLinked<K, V>(ns: seq<Node<K, V>>, at: nat)
    requires at < |ns|
    requires forall i {:trigger ns[i].next} :: 0 <= i < |ns| ==>
               ns[i].next == if i + 1 == at then At(ns, at + 1) else At(ns, i + 1)
    requires forall i {:trigger ns[i].prev} :: 0 <= i < |ns| ==>
               ns[i].prev == if i == at + 1 then At(ns, at - 1) else At(ns, i - 1)
    ensures Chained(Cut(ns, at))
  {
  }

  class LruCache<K(==), V> {
    const capacity: nat
    var table: map<K, Node<K, V>>
    var head: Node?<K, V>
    var tail: Node?<K, V>
    /** The linked nodes, from head to tail. */
    ghost var nodes: seq<Node<K, V>>
    /** The position of each linked node. */
    ghost var place: map<Node<K, V>, nat>

    /** The links spell out `nodes`: `next` and `prev` are each other's inverse, nothing is linked
        twice, and head and tail are the ends. */
    ghost predicate Linked()
      reads this`head, this`tail, this`nodes, this`place, nodes`next, nodes`prev
    {
      && Placed(nodes, place)
      && head == At(nodes, 0) && tail == At(nodes, |nodes| - 1)
      && Chained(nodes)
    }

    ghost predicate Valid()
      reads this, nodes`next, nodes`prev
    {
      Linked() && Indexed(table, nodes) && |nodes| <= capacity
    }

    ghost function Entries(): (r: Entries<K, V>)
      reads this`nodes, nodes`value
    {
      EntriesOf(nodes)
    }

    constructor (capacity: nat)
      ensures Valid() && this.capacity == capacity && Entries() == []
    {
      this.capacity := capacity;
      table, head, tail, nodes, place := map[], null, null, [], map[];
    }

    /** Links the neighbours of a node to each other. */
    method Bypass(node: Node<K, V>, ghost at: nat)
      requires Linked() && at < |nodes| && nodes[at] == node
      modifies nodes`next, nodes`prev
      ensures Chained(Cut(nodes, at))
    {
      var prev, next := node.prev, node.next;
      if prev != null {
        prev.next := next;
      }
      if next != null {
        next.prev := prev;
      }
      CutLinked(nodes, at);
    }

    /** Takes a node out of the list, leaving its own links as they were. */
    method Unlink(node: Node<K, V>, ghost at: nat)
      requires Linked() && at < |nodes| && nodes[at] == node
      modifies this`head, this`tail, this`nodes, this`place, nodes`next, nodes`prev
      ensures Linked() && nodes == Cut(old(nodes), at)
    {
      var prev, next := node.prev, node.next;
      Bypass(node, at);
      if node == head {
        head := next;
      }
      if node == tail {
        tail := prev;
      }
      CutPlaced(nodes, place, at);
      nodes := Cut(nodes, at);
      place := Shifted(place, at);
    }

    method Prepend(node: Node<K, V>)
      requires Linked() && node !in nodes
      modifies this`head, this`tail, this`nodes, this`place, nodes`prev, node`next, node`prev
      ensures Linked() && nodes == [node] + old(nodes)
    {
      node.prev := null;
      node.next := head;
      if head != null {
        head.prev := node;
      }
      head := node;
      if tail == null {
        tail := head;
      }
      ghost var was := nodes;
      nodes := [node] + was;
      place := (map n | n in place :: place[n] + 1)[node := 0];
      forall i {:trigger nodes[i].next} | 0 <= i < |nodes| ensures nodes[i].next == At(nodes, i + 1) {
        if i > 0 {
          assert old(was[i - 1].next) == At(was, i);
        }
      }
      forall i {:trigger nodes[i].prev} | 0 <= i < |nodes| ensures nodes[i].prev == At(nodes, i - 1) {
        if i > 1 {
          assert old(was[i - 1].prev) == At(was, i - 2);
        }
      }
    }

    method MoveToHead(node: Node<K, V>, ghost at: nat)
      requires Linked() && at < |nodes| && nodes[at] == node
      modifies this`head, this`tail, this`nodes, this`place, nodes`next, nodes`prev
      ensures Linked() && nodes == [node] + Cut(old(nodes), at)
    {
      if node == head {
        return;
      }
      Unlink(node, at);
      Prepend(node);
    }

    /** What the operations need to know of a key in the dictionary. */
    lemma {:induction false} Locate(k: K) returns (at: nat)
      requires Linked() && Indexed(table, nodes)
      ensures HasKey(Entries(), k) <==> k in table
      ensures k in table ==> at < |nodes| && nodes[at] == table[k] && nodes[at].key == k
    {
      TableKeys(table, nodes, k);
      at := 0;
      if k in table {
        at :| 0 <= at < |nodes| && nodes[at] == table[k];
      }
    }

    method MoveEntry(node: Node<K, V>, ghost at: nat)
      requires Linked() && at < |nodes| && nodes[at] == node
      modifies this`head, this`tail, this`nodes, this`place, nodes`next, nodes`prev
      ensures Linked() && nodes == [node] + Cut(old(nodes), at)
      ensures Entries() == [(node.key, node.value)] + old(EntriesOf(Cut(nodes, at)))
    {
      PrependEntries(Cut(nodes, at), node);
      MoveToHead(node, at);
    }

    /** Moves a linked node to the front. */
    method Promote(node: Node<K, V>, ghost at: nat)
      requires Linked() && Indexed(table, nodes) && at < |nodes| && nodes[at] == node
      modifies this`head, this`tail, this`nodes, this`place, nodes`next, nodes`prev
      ensures Linked() && Indexed(table, nodes) && nodes == [node] + Cut(old(nodes), at)
      ensures Entries() == [(node.key, node.value)] + old(EntriesOf(Cut(nodes, at)))
    {
      MoveIndexed(table, nodes, place, at);
      MoveEntry(node, at);
    }

    /** Fetches a value, which moves its entry to the front. */
    method Value(k: K) returns (r: Option<V>)
      requires Valid()
      modifies this`head, this`tail, this`nodes, this`place, nodes`next, nodes`prev
      ensures Valid() && Entries() == Touch(old(Entries()), k) && r == Find(old(Entries()), k)
      ensures forall n :: n in nodes ==> n in old(nodes)
    {
      ghost var at := Locate(k);
      if k !in table {
        return None;
      }
      var node := table[k];
      CutEntries(table, nodes, place, at);
      Promote(node, at);
      r := Some(node.value);
    }

    /** Takes a node out of the dictionary and the list. */
    method Drop(node: Node<K, V>, ghost at: nat)
      requires Linked() && Indexed(table, nodes) && at < |nodes| && nodes[at] == node
      modifies this, nodes`next, nodes`prev
      ensures Linked() && Indexed(table, nodes) && nodes == Cut(old(nodes), at)
    {
      CutIndexed(table, nodes, place, at);
      table := table - {node.key};
      Unlink(node, at);
    }

    /** Removes a value and returns it. */
    method RemoveValue(k: K) returns (r: Option<V>)
      requires Valid()
      modifies this, nodes`next, nodes`prev
      ensures Valid() && Entries() == Without(old(Entries()), k) && r == Find(old(Entries()), k)
    {
      ghost var at := Locate(k);
      if k !in table {
        WithoutAbsent(Entries(), k);
        return None;
      }
      var node := table[k];
      CutEntries(table, nodes, place, at);
      Drop(node, at);
      r := Some(node.value);
    }

    /** Drops the last entry. */
    method Evict()
      requires Linked() && Indexed(table, nodes)
      modifies this, nodes`next, nodes`prev
      ensures Linked() && Indexed(table, nodes)
      ensures Entries() == if old(nodes) == [] then [] else old(Entries())[..|old(nodes)| - 1]
    {
      var last := tail;
      if last != null {
        ghost var at := |nodes| - 1;
        ghost var es := Entries();
        assert EntriesOf(Cut(nodes, at)) == es[..at];
        Drop(last, at);
      }
    }

    /** Puts a new node at the front of the list; the dictionary follows. */
    method PrependEntry(node: Node<K, V>)
      requires Linked() && node !in nodes
      modifies this`head, this`tail, this`nodes, this`place, nodes`prev, node`next, node`prev
      ensures Linked() && nodes == [node] + old(nodes)
      ensures Entries() == [(node.key, node.value)] + old(Entries())
    {
      PrependEntries(nodes, node);
      Prepend(node);
    }

    /** Puts a new node in the dictionary and at the front of the list. */
    method Add(node: Node<K, V>)
      requires Linked() && Indexed(table, nodes) && node.key !in table
      modifies this, nodes`prev, node`next, node`prev
      ensures Linked() && Indexed(table, nodes) && nodes == [node] + old(nodes)
      ensures Entries() == [(node.key, node.value)] + old(Entries())
    {
      PrependIndexed(table, nodes, node);
      table := table[node.key := node];
      PrependEntry(node);
    }

    /** Drops the last entry if there is one too many. */
    method Trim()
      requires Linked() && Indexed(table, nodes) && |nodes| <= capacity + 1
      modifies this, nodes`next, nodes`prev
      ensures Valid() && Entries() == Trimmed(capacity, old(Entries()))
    {
      if |table| > capacity {
        Evict();
      }
    }

    /** Adds a new node; if that makes one too many, the last one goes. */
    method AddAndTrim(node: Node<K, V>)
      requires Valid() && node.key !in table
      modifies this, nodes`next, nodes`prev, node`next, node`prev
      ensures Valid() && Entries() == Trimmed(capacity, [(node.key, node.value)] + old(Entries()))
    {
      Add(node);
      Trim();
    }

    method Insert(k: K, value: V)
      requires Valid() && k !in table
      modifies this, nodes`next, nodes`prev
      ensures Valid() && Entries() == Put(capacity, old(Entries()), k, value)
    {
      ghost var _ := Locate(k);
      PutNew(capacity, Entries(), k, value);
      var node := new Node(k, value);
      AddAndTrim(node);
    }

    /** A known entry gets the new value and goes to the front. */
    method Replace(k: K, value: V)
      requires Valid() && k in table
      modifies this`head, this`tail, this`nodes, this`place, nodes
      ensures Valid() && Entries() == Put(capacity, old(Entries()), k, value)
    {
      ghost var at := Locate(k);
      var node := table[k];
      CutEntries(table, nodes, place, at);
      ghost var rest := EntriesOf(Cut(nodes, at));
      node.value := value;
      assert EntriesOf(Cut(nodes, at)) == rest;
      Promote(node, at);
    }

    /** Sets a value; setting nothing removes the entry. */
    method SetValue(value: Option<V>, k: K)
      requires Valid()
      modifies this, nodes
      ensures Valid()
      ensures Entries() == if value.None? then Without(old(Entries()), k) else Put(capacity, old(Entries()), k, value.value)
    {
      if value.None? {
        var _ := RemoveValue(k);
      } else if k in table {
        Replace(k, value.value);
      } else {
        Insert(k, value.value);
      }
    }

    method RemoveAllValues()
      modifies this
      ensures Valid() && Entries() == []
    {
      table, head, tail, nodes, place := map[], null, null, [], map[];
    }

    /** The first entry, most recent first, that satisfies the predicate. */
    method First(p: (K, V) -> bool) returns (r: Option<(K, V)>)
      requires Valid()
      ensures r == FirstWhere(Entries(), p)
    {
      var node := head;
      ghost var i := 0;
      while node != null
        invariant 0 <= i <= |nodes| && node == At(nodes, i)
        invariant FirstWhere(Entries()[i..], p) == FirstWhere(Entries(), p)
        decreases |nodes| - i
      {
        assert Entries()[i..][0] == (node.key, node.value) && Entries()[i..][1..] == Entries()[i + 1..];
        if p(node.key, node.value) {
          return Some((node.key, node.value));
        }
        node := node.next;
        i := i + 1;
      }
      r := None;
    }
  }

  lemma {:induction false} RemoveKeySize<K, V>(m: map<K, V>, k: K)
    requires k in m
    ensures |m - {k}| == |m| - 1
  {
    assert (m - {k}).Keys == m.Keys - {k};
  }
}
