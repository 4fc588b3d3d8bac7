/** Half-open integer intervals and the measure of the instants they cover. */
module Spans {
  import opened Sets

  datatype Span = Span(lo: int, hi: int)

  function Min(a: int, b: int): int {
    if a < b then a else b
  }

  function Max(a: int, b: int): int {
    if a < b then b else a
  }

  predicate Holds(s: Span, t: int) {
    s.lo <= t < s.hi
  }

  function Length(s: Span): nat {
    if s.lo < s.hi then s.hi - s.lo else 0
  }

  ghost function Instants(lo: int, hi: int): set<int> {
    set t | lo <= t < hi && Holds(Span(lo, hi), t)
  }

  /** Every instant some interval of `xs` holds. Its size is the measure of the union. */
  ghost function Covered(xs: seq<Span>): set<int> {
    set x, t | x in xs && x.lo <= t < x.hi && Holds(x, t) :: t
  }

  function SumLengths(xs: seq<Span>): nat {
    if xs == [] then 0 else SumLengths(xs[..|xs| - 1]) + Length(xs[|xs| - 1])
  }

  ghost predicate Disjoint(xs: seq<Span>) {
    forall i, j, t :: 0 <= i < j < |xs| && Holds(xs[i], t) ==> !Holds(xs[j], t)
  }

  lemma InstantsSize(lo: int, hi: int)
    ensures |Instants(lo, hi)| == if lo < hi then hi - lo else 0
    decreases hi - lo
  {
    if lo < hi {
      InstantsSize(lo, hi - 1);
      assert Instants(lo, hi) == Instants(lo, hi - 1) + {hi - 1};
    } else {
      assert Instants(lo, hi) == {};
    }
  }

  lemma CoveredSplit(xs: seq<Span>, ys: seq<Span>)
    ensures Covered(xs + ys) == Covered(xs) + Covered(ys)
  {
  }

  lemma CoveredOne(s: Span)
    ensures Covered([s]) == Instants(s.lo, s.hi)
  {
    assert s in [s];
  }

  lemma CoveredLast(xs: seq<Span>)
    requires xs != []
    ensures Covered(xs) == Covered(xs[..|xs| - 1]) + Instants(xs[|xs| - 1].lo, xs[|xs| - 1].hi)
  {
    var n := |xs| - 1;
    assert xs == xs[..n] + [xs[n]];
    CoveredSplit(xs[..n], [xs[n]]);
    assert xs[n] in [xs[n]];
    assert Covered([xs[n]]) == Instants(xs[n].lo, xs[n].hi);
  }

  lemma DisjointLast(xs: seq<Span>)
    requires xs != []
    ensures var n := |xs| - 1;
      Disjoint(xs) <==> Disjoint(xs[..n]) && Covered(xs[..n]) !! Instants(xs[n].lo, xs[n].hi)
  {
    var n := |xs| - 1;
    var front, last := xs[..n], Instants(xs[n].lo, xs[n].hi);
    if Disjoint(xs) {
      forall t | t in Covered(front)
        ensures t !in last
      {
        var i :| 0 <= i < n && Holds(front[i], t);
        assert Holds(xs[i], t) && !Holds(xs[n], t);
      }
    } else {
      var i, j, t :| 0 <= i < j < |xs| && Holds(xs[i], t) && Holds(xs[j], t);
      assert front[i] in front;
      if j < n {
        assert Holds(front[i], t) && Holds(front[j], t);
      } else {
        assert t in Covered(front) && t in last;
      }
    }
  }

  lemma DisjointJoin(xs: seq<Span>, ys: seq<Span>)
    requires Disjoint(xs) && Disjoint(ys) && Covered(xs) !! Covered(ys)
    ensures Disjoint(xs + ys)
  {
    var zs := xs + ys;
    forall i, j, t | 0 <= i < j < |zs| && Holds(zs[i], t)
      ensures !Holds(zs[j], t)
    {
      if j < |xs| {
        assert Holds(xs[i], t);
      } else if |xs| <= i {
        assert Holds(ys[i - |xs|], t);
      } else {
        assert t in Covered(xs);
        assert zs[j] in ys;
      }
    }
  }

  /** Lengths add up to at least the measure of the union, and exactly to it iff nothing is covered twice. */
  lemma {:induction false} SumAndMeasure(xs: seq<Span>)
    ensures |Covered(xs)| <= SumLengths(xs)
    ensures SumLengths(xs) == |Covered(xs)| <==> Disjoint(xs)
  {
    if xs == [] {
      assert Covered(xs) == {};
    } else {
      var n := |xs| - 1;
      var front, last := Covered(xs[..n]), Instants(xs[n].lo, xs[n].hi);
      SumAndMeasure(xs[..n]);
      CoveredLast(xs);
      DisjointLast(xs);
      InstantsSize(xs[n].lo, xs[n].hi);
      UnionSize(front, last);
    }
  }

  lemma {:induction false} SumLengthsSnoc(xs: seq<Span>, x: Span)
    ensures SumLengths(xs + [x]) == SumLengths(xs) + Length(x)
  {
    assert (xs + [x])[..|xs|] == xs;
  }

  lemma {:induction false} SumLengthsSplit(xs: seq<Span>, ys: seq<Span>)
    ensures SumLengths(xs + ys) == SumLengths(xs) + SumLengths(ys)
  {
    if ys == [] {
      assert xs + ys == xs;
    } else {
      var n := |ys| - 1;
      assert (xs + ys)[..|xs| + n] == xs + ys[..n];
      SumLengthsSplit(xs, ys[..n]);
    }
  }
}
