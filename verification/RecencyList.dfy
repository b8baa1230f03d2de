/**
 A bounded cache as a plain list of entries, most recently touched first: the specification of
 the linked-list cache.
 */
module RecencyList {
  import opened Bytes

  type Entries<K, V> = seq<(K, V)>

  predicate HasKey<K(==), V>(es: Entries<K, V>, k: K) {
    exists i :: 0 <= i < |es| && es[i].0 == k
  }

  function Find<K(==), V>(es: Entries<K, V>, k: K): (r: Option<V>)
    ensures r.Some? <==> HasKey(es, k)
    ensures r.Some? ==> (k, r.value) in es
  {
    if es == [] then None
    else if es[0].0 == k then Some(es[0].1)
    else
      var r := Find(es[1..], k);
      assert HasKey(es, k) <==> HasKey(es[1..], k) by {
        if i :| 0 <= i < |es| && es[i].0 == k { assert es[1..][i - 1].0 == k; }
        if i :| 0 <= i < |es[1..]| && es[1..][i].0 == k { assert es[i + 1].0 == k; }
      }
      r
  }

  function Without<K(==), V>(es: Entries<K, V>, k: K): (r: Entries<K, V>)
    ensures |r| <= |es|
  {
    if es == [] then []
    else if es[0].0 == k then Without(es[1..], k)
    else [es[0]] + Without(es[1..], k)
  }

  /** Setting a value: the entry moves to the front; a new entry may push the last one out. */
  function Put<K(==), V>(capacity: nat, es: Entries<K, V>, k: K, v: V): (r: Entries<K, V>) {
    if HasKey(es, k) then [(k, v)] + Without(es, k)
    else if |es| + 1 > capacity then ([(k, v)] + es)[..|es|]
    else [(k, v)] + es
  }

  /** The list without its last entry, if it has one too many. */
  function Trimmed<K, V>(capacity: nat, es: Entries<K, V>): (r: Entries<K, V>) {
    if |es| > capacity then es[..|es| - 1] else es
  }

  /** Fetching a value moves its entry to the front. */
  function Touch<K(==), V>(es: Entries<K, V>, k: K): (r: Entries<K, V>) {
    match Find(es, k)
    case None => es
    case Some(v) => [(k, v)] + Without(es, k)
  }

  /** The first entry that satisfies the predicate. */
  function FirstWhere<K, V>(es: Entries<K, V>, p: (K, V) -> bool): (r: Option<(K, V)>)
    ensures r.Some? ==> r.value in es && p(r.value.0, r.value.1)
    ensures r.None? ==> forall i :: 0 <= i < |es| ==> !p(es[i].0, es[i].1)
  {
    if es == [] then None
    else if p(es[0].0, es[0].1) then Some(es[0])
    else FirstWhere(es[1..], p)
  }

  predicate Distinct<K(==), V>(es: Entries<K, V>) {
    forall i, j :: 0 <= i < j < |es| ==> es[i].0 != es[j].0
  }

  /** Removing the one entry of a key from a list of distinct keys. */
  lemma {:induction false} WithoutAt<K, V>(es: Entries<K, V>, i: nat)
    requires Distinct(es) && i < |es|
    ensures Without(es, es[i].0) == es[..i] + es[i + 1..]
    ensures Find(es, es[i].0) == Some(es[i].1)
    decreases i
  {
    var k := es[i].0;
    if i == 0 {
      WithoutAbsent(es[1..], k);
    } else {
      assert es[1..][i - 1] == es[i];
      WithoutAt(es[1..], i - 1);
      assert es[1..][..i - 1] == es[1..i] && es[1..][i..] == es[i + 1..];
      assert [es[0]] + es[1..i] == es[..i];
    }
  }

  lemma {:induction false} WithoutAbsent<K, V>(es: Entries<K, V>, k: K)
    requires forall i :: 0 <= i < |es| ==> es[i].0 != k
    ensures Without(es, k) == es
    decreases |es|
  {
    if es != [] {
      WithoutAbsent(es[1..], k);
    }
  }

  lemma {:induction false} WithoutIsPart<K, V>(es: Entries<K, V>, k: K, e: (K, V))
    requires e in Without(es, k)
    ensures e in es
    decreases |es|
  {
    if es[0].0 == k || e != es[0] {
      WithoutIsPart(es[1..], k, e);
    }
  }

  lemma {:induction false} TouchIsPart<K, V>(es: Entries<K, V>, k: K, e: (K, V))
    requires e in Touch(es, k)
    ensures e in es
  {
    if Find(es, k).Some? && e != (k, Find(es, k).value) {
      WithoutIsPart(es, k, e);
    }
  }

  lemma {:induction false} PutIsPart<K, V>(capacity: nat, es: Entries<K, V>, k: K, v: V, e: (K, V))
    requires e in Put(capacity, es, k, v)
    ensures e == (k, v) || e in es
  {
    if e != (k, v) && HasKey(es, k) {
      WithoutIsPart(es, k, e);
    }
  }

  lemma {:induction false} PutNew<K, V>(capacity: nat, es: Entries<K, V>, k: K, v: V)
    requires !HasKey(es, k)
    ensures Put(capacity, es, k, v) == Trimmed(capacity, [(k, v)] + es)
  {
  }
}
