/** Stable sorting by an integer key, as Python's `sorted(..., key=...)`, and sorted sets. */
module Sorting {
  import opened Sets

  /** A lexicographic sort key of up to three integers. */
  datatype Key = Key(a: int, b: int, c: int)

  predicate LE(x: Key, y: Key) {
    x.a < y.a || (x.a == y.a && (x.b < y.b || (x.b == y.b && x.c <= y.c)))
  }

  ghost predicate SortedBy<T>(xs: seq<T>, key: T -> Key) {
    forall i, j :: 0 <= i < j < |xs| ==> LE(key(xs[i]), key(xs[j]))
  }

  /** Inserts `x` behind every element whose key is not larger. */
  function InsertBy<T>(x: T, xs: seq<T>, key: T -> Key): (r: seq<T>)
    ensures multiset(r) == multiset(xs) + multiset{x}
  {
    if xs == [] then [x]
    else if LE(key(xs[0]), key(x)) then
      assert xs == [xs[0]] + xs[1..];
      [xs[0]] + InsertBy(x, xs[1..], key)
    else [x] + xs
  }

  lemma {:induction false} InsertBySorted<T>(x: T, xs: seq<T>, key: T -> Key)
    requires SortedBy(xs, key)
    ensures SortedBy(InsertBy(x, xs, key), key)
  {
    if xs != [] && LE(key(xs[0]), key(x)) {
      var rest := InsertBy(x, xs[1..], key);
      InsertBySorted(x, xs[1..], key);
      forall j | 0 <= j < |rest|
        ensures LE(key(xs[0]), key(rest[j]))
      {
        assert rest[j] in multiset(rest);
        assert rest[j] == x || rest[j] in xs[1..];
      }
    }
  }

  function SortBy<T>(xs: seq<T>, key: T -> Key): (r: seq<T>)
    ensures multiset(r) == multiset(xs) && |r| == |xs|
    ensures SortedBy(r, key)
  {
    if xs == [] then []
    else
      var n := |xs| - 1;
      assert xs == xs[..n] + [xs[n]];
      var r := SortBy(xs[..n], key);
      InsertBySorted(xs[n], r, key);
      var s := InsertBy(xs[n], r, key);
      assert |multiset(s)| == |s| && |multiset(xs)| == |xs|;
      s
  }

  lemma {:induction false} SameElements<T>(xs: seq<T>, key: T -> Key)
    ensures forall x :: x in SortBy(xs, key) <==> x in xs
  {
    forall x
      ensures x in SortBy(xs, key) <==> x in xs
    {
      assert x in multiset(xs) <==> x in xs;
      assert x in multiset(SortBy(xs, key)) <==> x in SortBy(xs, key);
    }
  }

  lemma {:induction false} InsertLast<T>(x: T, xs: seq<T>, key: T -> Key)
    requires forall i :: 0 <= i < |xs| ==> LE(key(xs[i]), key(x))
    ensures InsertBy(x, xs, key) == xs + [x]
  {
    if xs != [] {
      InsertLast(x, xs[1..], key);
      assert xs + [x] == [xs[0]] + (xs[1..] + [x]);
    }
  }

  /** Sorting leaves a sorted list alone. */
  lemma {:induction false} SortOfSorted<T>(xs: seq<T>, key: T -> Key)
    requires SortedBy(xs, key)
    ensures SortBy(xs, key) == xs
  {
    if xs != [] {
      var n := |xs| - 1;
      SortOfSorted(xs[..n], key);
      InsertLast(xs[n], xs[..n], key);
    }
  }

  /** The elements with key `k`, in their order. */
  ghost function WithKey<T>(xs: seq<T>, key: T -> Key, k: Key): seq<T> {
    if xs == [] then [] else (if key(xs[0]) == k then [xs[0]] else []) + WithKey(xs[1..], key, k)
  }

  lemma {:induction false} WithKeyFirst<T>(x: T, xs: seq<T>, key: T -> Key, k: Key)
    ensures WithKey([x] + xs, key, k) == (if key(x) == k then [x] else []) + WithKey(xs, key, k)
  {
    assert ([x] + xs)[1..] == xs;
  }

  lemma {:induction false} WithKeyLast<T>(xs: seq<T>, x: T, key: T -> Key, k: Key)
    ensures WithKey(xs + [x], key, k) == WithKey(xs, key, k) + if key(x) == k then [x] else []
  {
    if xs == [] {
      assert [] + [x] == [x] + [];
      WithKeyFirst(x, [], key, k);
    } else {
      WithKeyLast(xs[1..], x, key, k);
      assert (xs + [x])[1..] == xs[1..] + [x];
    }
  }

  lemma {:induction false} NoneWithKey<T>(xs: seq<T>, key: T -> Key, k: Key)
    requires forall i :: 0 <= i < |xs| ==> key(xs[i]) != k
    ensures WithKey(xs, key, k) == []
  {
    if xs != [] {
      NoneWithKey(xs[1..], key, k);
    }
  }

  lemma {:induction false} InsertStable<T>(x: T, xs: seq<T>, key: T -> Key, k: Key)
    requires SortedBy(xs, key)
    ensures WithKey(InsertBy(x, xs, key), key, k) == WithKey(xs, key, k) + if key(x) == k then [x] else []
  {
    if xs == [] {
      WithKeyFirst(x, [], key, k);
    } else if LE(key(xs[0]), key(x)) {
      InsertStable(x, xs[1..], key, k);
      WithKeyFirst(xs[0], InsertBy(x, xs[1..], key), key, k);
    } else {
      WithKeyFirst(x, xs, key, k);
      if key(x) == k {
        NoneWithKey(xs, key, k);
      }
    }
  }

  /** Sorting keeps elements with equal keys in the order in which they came. */
  lemma {:induction false} Stable<T>(xs: seq<T>, key: T -> Key, k: Key)
    ensures WithKey(SortBy(xs, key), key, k) == WithKey(xs, key, k)
  {
    if xs != [] {
      var n := |xs| - 1;
      Stable(xs[..n], key, k);
      InsertStable(xs[n], SortBy(xs[..n], key), key, k);
      WithKeyLast(xs[..n], xs[n], key, k);
      assert xs == xs[..n] + [xs[n]];
    }
  }

  ghost predicate NoRepeat<T(!new)>(xs: seq<T>) {
    forall x :: multiset(xs)[x] <= 1
  }

  lemma NoRepeatApart<T(!new)>(xs: seq<T>, i: nat, j: nat)
    requires NoRepeat(xs) && i < j < |xs|
    ensures xs[i] != xs[j]
  {
    assert xs == xs[..j] + xs[j..];
    assert xs[i] in xs[..j] && xs[j] in xs[j..];
    assert multiset(xs[..j])[xs[i]] >= 1 && multiset(xs[j..])[xs[j]] >= 1;
    assert multiset(xs)[xs[i]] == multiset(xs[..j])[xs[i]] + multiset(xs[j..])[xs[i]];
  }

  lemma NoRepeatFront<T(!new)>(xs: seq<T>)
    requires NoRepeat(xs) && xs != []
    ensures NoRepeat(xs[..|xs| - 1])
  {
    var n := |xs| - 1;
    assert xs == xs[..n] + [xs[n]];
    forall x
      ensures multiset(xs[..n])[x] <= 1
    {
      assert multiset(xs)[x] == multiset(xs[..n])[x] + multiset([xs[n]])[x];
    }
  }

  lemma NoRepeatAppend<T(!new)>(xs: seq<T>, x: T)
    requires NoRepeat(xs) && x !in xs
    ensures NoRepeat(xs + [x])
  {
    assert x !in multiset(xs);
  }

  lemma NoRepeatJoin<T(!new)>(xs: seq<T>, ys: seq<T>)
    requires NoRepeat(xs) && NoRepeat(ys) && forall x :: x in xs ==> x !in ys
    ensures NoRepeat(xs + ys)
  {
    forall x
      ensures multiset(xs + ys)[x] <= 1
    {
      assert x in xs <==> x in multiset(xs);
      assert x in ys <==> x in multiset(ys);
    }
  }

  ghost predicate Increasing(xs: seq<int>) {
    forall i, j :: 0 <= i < j < |xs| ==> xs[i] < xs[j]
  }

  /** The elements at the given positions. */
  ghost function ElementsAt<T>(xs: seq<T>, at: seq<nat>): (r: seq<T>)
    requires forall k :: 0 <= k < |at| ==> at[k] < |xs|
    ensures |r| == |at| && forall k :: 0 <= k < |r| ==> r[k] == xs[at[k]]
  {
    seq(|at|, k requires 0 <= k < |at| => xs[at[k]])
  }

  lemma JoinIncreasing(r: seq<int>, q: seq<int>)
    requires Increasing(r) && Increasing(q)
    requires r != [] && q != [] ==> r[|r| - 1] < q[0]
    ensures Increasing(r + q)
  {
    forall i, j | 0 <= i < |r| && 0 <= j < |q|
      ensures r[i] < q[j]
    {
      assert r[i] <= r[|r| - 1] && q[0] <= q[j];
    }
  }

  /** Puts `m` between the smaller and the larger elements. */
  lemma PutBetween(r: seq<int>, k: nat, m: int)
    requires Increasing(r) && k <= |r|
    requires (k > 0 ==> r[k - 1] < m) && (k < |r| ==> m < r[k])
    ensures Increasing(r[..k] + [m] + r[k..])
    ensures forall x :: x in r[..k] + [m] + r[k..] <==> x in r || x == m
  {
    JoinIncreasing(r[..k], [m]);
    JoinIncreasing(r[..k] + [m], r[k..]);
    forall x
      ensures x in r[..k] + [m] + r[k..] <==> x in r || x == m
    {
      assert r == r[..k] + r[k..];
    }
  }

  /** `sorted(s)` for a set of integers. */
  method SortedSet(s: set<int>) returns (r: seq<int>)
    ensures Increasing(r)
    ensures forall x :: x in r <==> x in s
  {
    r := [];
    var todo := s;
    while |todo| > 0
      invariant todo <= s
      invariant Increasing(r)
      invariant forall x :: x in r <==> x in s - todo
    {
      var m := Pick(todo);
      r := Insert(r, m);
      todo := todo - {m};
    }
  }

  method Insert(r: seq<int>, m: int) returns (q: seq<int>)
    requires Increasing(r) && m !in r
    ensures Increasing(q) && forall x :: x in q <==> x in r || x == m
  {
    var k := |r|;
    while k > 0 && r[k - 1] > m
      invariant 0 <= k <= |r|
      invariant k < |r| ==> m < r[k]
    {
      k := k - 1;
    }
    assert k > 0 ==> r[k - 1] in r;
    PutBetween(r, k, m);
    q := r[..k] + [m] + r[k..];
  }

  ghost predicate Lists(xs: seq<int>, s: set<int>) {
    Increasing(xs) && forall x :: x in xs <==> x in s
  }

  ghost function Largest(s: set<int>): (m: int)
    requires |s| > 0
    ensures m in s && forall x :: x in s ==> x <= m
    decreases |s|
  {
    var x := One(s);
    if |s - {x}| == 0 then x
    else
      var m := Largest(s - {x});
      if m > x then m else x
  }

  lemma ListsPlus(xs: seq<int>, s: set<int>, m: int)
    requires m in s && Lists(xs, s - {m}) && forall x :: x in s ==> x <= m
    ensures Lists(xs + [m], s)
  {
    assert xs != [] ==> xs[|xs| - 1] in xs;
    JoinIncreasing(xs, [m]);
  }

  /** The elements of a set in increasing order. */
  ghost function Listing(s: set<int>): (xs: seq<int>)
    ensures Lists(xs, s)
    decreases |s|
  {
    if |s| == 0 then []
    else
      var m := Largest(s);
      var rest := Listing(s - {m});
      ListsPlus(rest, s, m);
      rest + [m]
  }

  lemma FrontsAgree(xs: seq<int>, ys: seq<int>, xf: seq<int>, yf: seq<int>)
    requires Increasing(xs) && Increasing(ys) && (forall x :: x in xs <==> x in ys) && xs != [] && ys != []
    requires xf == xs[..|xs| - 1] && yf == ys[..|ys| - 1]
    ensures forall x :: x in xf <==> x in yf
  {
    SameLast(xs, ys);
    forall x
      ensures x in xf <==> x in yf
    {
      FrontMembers(xs, x);
      FrontMembers(ys, x);
    }
  }

  /** Two increasing lists of the same elements are the same list. */
  lemma SameIncreasing(xs: seq<int>, ys: seq<int>)
    requires Increasing(xs) && Increasing(ys) && forall x :: x in xs <==> x in ys
    ensures xs == ys
    decreases |xs|
  {
    assert (xs != [] ==> xs[0] in xs) && (ys != [] ==> ys[0] in ys);
    if xs != [] {
      SameLast(xs, ys);
      FrontsAgree(xs, ys, xs[..|xs| - 1], ys[..|ys| - 1]);
      SameIncreasing(xs[..|xs| - 1], ys[..|ys| - 1]);
      assert xs == xs[..|xs| - 1] + [xs[|xs| - 1]] && ys == ys[..|ys| - 1] + [ys[|ys| - 1]];
    }
  }

  lemma SameLast(xs: seq<int>, ys: seq<int>)
    requires Increasing(xs) && Increasing(ys) && (forall x :: x in xs <==> x in ys) && xs != [] && ys != []
    ensures xs[|xs| - 1] == ys[|ys| - 1]
  {
    assert xs[|xs| - 1] in xs && ys[|ys| - 1] in ys;
    assert xs[|xs| - 1] in ys && ys[|ys| - 1] in xs;
  }

  lemma FrontMembers(xs: seq<int>, x: int)
    requires Increasing(xs) && xs != []
    ensures x in xs[..|xs| - 1] <==> x in xs && x != xs[|xs| - 1]
  {
    assert xs == xs[..|xs| - 1] + [xs[|xs| - 1]];
  }

  lemma {:induction false} OneListing(xs: seq<int>, s: set<int>)
    requires Lists(xs, s)
    ensures xs == Listing(s)
  {
    SameIncreasing(xs, Listing(s));
  }
}
