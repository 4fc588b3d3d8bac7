/** Finite sets: picking an element and comparing sizes. */
module Sets {

  ghost function One<T>(s: set<T>): (x: T)
    requires s != {}
    ensures x in s
  {
    var x :| x in s; x
  }

  method Pick<T>(s: set<T>) returns (x: T)
    requires s != {}
    ensures x in s
  {
    x :| x in s;
  }

  lemma SameSet<T(!new)>(a: set<T>, b: set<T>)
    requires forall x :: x in a <==> x in b
    ensures a == b
  {
  }

  lemma UnionSize<T>(a: set<T>, b: set<T>)
    ensures |a + b| == |a| + |b| - |a * b|
    ensures |a * b| == 0 <==> a !! b
  {
    if a * b == {} {
      forall x | x in a
        ensures x !in b
      {
        assert x in a && x in b ==> x in a * b;
      }
    }
  }

  lemma SubsetSize<T>(a: set<T>, b: set<T>)
    requires a <= b
    ensures |a| <= |b|
    ensures |a| == |b| <==> a == b
  {
    assert b == a + (b - a);
    if a != b {
      var x := One(b - a);
      assert |b - a| != 0;
    }
  }

  /** An injective map into `b` needs at least as many elements there. */
  lemma Pigeonhole<A(!new), B(!new)>(a: set<A>, f: A -> B, b: set<B>)
    requires forall x :: x in a ==> f(x) in b
    requires forall x, y :: x in a && y in a && f(x) == f(y) ==> x == y
    ensures |a| <= |b|
  {
    if a != {} {
      var x := One(a);
      Pigeonhole(a - {x}, f, b - {f(x)});
    }
  }

  /** `sum(m.values())`. */
  ghost function SumValues<K>(m: map<K, int>): int {
    if m.Keys == {} then 0
    else
      var k := One(m.Keys);
      m[k] + SumValues(m - {k})
  }

  /** The sizes of disjoint shares add up to the size of what they share. */
  lemma {:induction false} PartitionSum<K(!new), T(!new)>(m: map<K, int>, share: K -> set<T>, whole: set<T>)
    requires forall k :: k in m ==> m[k] == |share(k)| && share(k) <= whole
    requires forall k, l :: k in m && l in m && k != l ==> share(k) !! share(l)
    requires forall t :: t in whole ==> exists k :: k in m && t in share(k)
    ensures SumValues(m) == |whole|
  {
    if m.Keys == {} {
      assert whole == {};
    } else {
      var k := One(m.Keys);
      assert forall l :: l in m - {k} ==> l in m && l != k;
      PartitionSum(m - {k}, share, whole - share(k));
      assert whole == share(k) + (whole - share(k));
    }
  }

  function ValueAt<K>(m: map<K, int>, k: K): int {
    if k in m then m[k] else 0
  }

  lemma {:induction false} SumValuesRemove<K(!new)>(m: map<K, int>, k: K)
    ensures SumValues(m) == ValueAt(m, k) + SumValues(m - {k})
  {
    if k !in m {
      assert m - {k} == m;
    } else {
      var j := One(m.Keys);
      if j != k {
        SumValuesRemove(m - {j}, k);
        SumValuesRemove(m - {k}, j);
        assert m - {j} - {k} == m - {k} - {j};
      }
    }
  }

  lemma {:induction false} SumValuesRemoveTwo<K(!new)>(m: map<K, int>, j: K, k: K)
    requires j != k
    ensures SumValues(m) == ValueAt(m, j) + ValueAt(m, k) + SumValues(m - {j, k})
  {
    SumValuesRemove(m, j);
    SumValuesRemove(m - {j}, k);
    assert m - {j} - {k} == m - {j, k};
  }

  lemma {:induction false} SumValuesZero<K(!new)>(m: map<K, int>)
    requires forall k :: k in m ==> m[k] == 0
    ensures SumValues(m) == 0
  {
    if m.Keys != {} {
      SumValuesZero(m - {One(m.Keys)});
    }
  }
}
