/** Sums over sequences and maps, as multisets: what a queue or a table holds in all. */
module Bags {

  function Bag<T, U>(q: seq<T>, f: T -> multiset<U>): multiset<U> {
    if q == [] then multiset{} else f(q[0]) + Bag(q[1..], f)
  }

  function Removed<T>(q: seq<T>, i: nat): seq<T>
    requires i < |q|
  {
    q[..i] + q[i + 1..]
  }

  lemma {:induction false} BagConcat<T, U>(a: seq<T>, b: seq<T>, f: T -> multiset<U>)
    ensures Bag(a + b, f) == Bag(a, f) + Bag(b, f)
  {
    if a == [] {
      assert a + b == b;
    } else {
      assert (a + b)[1..] == a[1..] + b;
      BagConcat(a[1..], b, f);
    }
  }

  lemma BagAppend<T, U>(a: seq<T>, x: T, f: T -> multiset<U>)
    ensures Bag(a + [x], f) == Bag(a, f) + f(x)
  {
    BagConcat(a, [x], f);
    assert [x][1..] == [];
  }

  lemma BagRemoved<T, U>(q: seq<T>, i: nat, f: T -> multiset<U>)
    requires i < |q|
    ensures Bag(q, f) == f(q[i]) + Bag(Removed(q, i), f)
    ensures forall x | x in Removed(q, i) :: x in q
  {
    assert q == q[..i] + q[i..];
    BagConcat(q[..i], q[i..], f);
    assert q[i..][1..] == q[i + 1..];
    BagConcat(q[..i], q[i + 1..], f);
  }

  lemma BagHolds<T, U>(q: seq<T>, x: T, f: T -> multiset<U>)
    requires x in q
    ensures f(x) <= Bag(q, f)
  {
    var i :| 0 <= i < |q| && q[i] == x;
    BagRemoved(q, i, f);
  }

  ghost function MapBag<K, V, U>(m: map<K, V>, f: (K, V) -> multiset<U>): multiset<U> {
    if m == map[] then multiset{}
    else
      var k :| k in m;
      f(k, m[k]) + MapBag(m - {k}, f)
  }

  lemma {:induction false} MapBagTake<K, V, U>(m: map<K, V>, k: K, f: (K, V) -> multiset<U>)
    requires k in m
    ensures MapBag(m, f) == f(k, m[k]) + MapBag(m - {k}, f)
    decreases |m|
  {
    var j :| j in m && MapBag(m, f) == f(j, m[j]) + MapBag(m - {j}, f);
    if j != k {
      MapBagTake(m - {j}, k, f);
      MapBagTake(m - {k}, j, f);
      assert m - {j} - {k} == m - {k} - {j};
    }
  }

  lemma MapBagSet<K, V, U>(m: map<K, V>, k: K, v: V, f: (K, V) -> multiset<U>)
    ensures k in m ==> MapBag(m[k := v], f) + f(k, m[k]) == MapBag(m, f) + f(k, v)
    ensures k !in m ==> MapBag(m[k := v], f) == MapBag(m, f) + f(k, v)
  {
    MapBagTake(m[k := v], k, f);
    assert m[k := v] - {k} == m - {k};
    if k in m {
      MapBagTake(m, k, f);
    } else {
      assert m - {k} == m;
    }
  }

  lemma {:induction false} MapBagMember<K, V, U>(m: map<K, V>, x: U, f: (K, V) -> multiset<U>)
    requires x in MapBag(m, f)
    ensures exists k :: k in m && x in f(k, m[k])
    decreases |m|
  {
    var k :| k in m && MapBag(m, f) == f(k, m[k]) + MapBag(m - {k}, f);
    if x !in f(k, m[k]) {
      MapBagMember(m - {k}, x, f);
      var j :| j in m - {k} && x in f(j, (m - {k})[j]);
      assert j in m && x in f(j, m[j]);
    }
  }

  lemma MapBagEmpty<K, V, U>(m: map<K, V>, f: (K, V) -> multiset<U>)
    requires forall k | k in m :: f(k, m[k]) == multiset{}
    ensures MapBag(m, f) == multiset{}
  {
    if MapBag(m, f) != multiset{} {
      var x :| x in MapBag(m, f);
      MapBagMember(m, x, f);
    }
  }

  /** A value that only one entry can supply is supplied as often as that entry says. */
  lemma {:induction false} MapBagOnce<K, V, U>(m: map<K, V>, k: K, x: U, f: (K, V) -> multiset<U>)
    requires k in m && forall j | j in m && j != k :: x !in f(j, m[j])
    ensures MapBag(m, f)[x] == f(k, m[k])[x]
  {
    MapBagTake(m, k, f);
    if x in MapBag(m - {k}, f) {
      MapBagMember(m - {k}, x, f);
    }
  }
}
