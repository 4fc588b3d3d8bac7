/** The interval algebra of the trace converter: timestamps, clipping, merging and uncovered time. */
module Intervals {
  import opened Sets
  import opened Spans
  import opened Sorting
  import Doubles

  datatype Option<+T> = None | Some(value: T)

  /** Integers above this are nanoseconds already; positive integers below it would be read as seconds. */
  const NS_FLOOR: int := 100_000_000_000_000

  /** Timestamps that `to_ns` leaves alone: in nanoseconds already, or not positive, which reads as missing. */
  predicate Stamp(v: int) {
    v <= 0 || NS_FLOOR < v
  }

  predicate Stamped(s: Span) {
    Stamp(s.lo) && Stamp(s.hi)
  }

  predicate AllStamped(xs: seq<Span>) {
    forall x :: x in xs ==> Stamped(x)
  }

  /** `to_ns` on integers. What is not positive is missing; what is small is read as seconds, in a
      floating-point product. */
  function ToNs(v: int): (r: Option<int>)
    ensures r.Some? <==> 0 < v
  {
    if v <= 0 then None
    else if NS_FLOOR < v then Some(v)
    else Some(Doubles.Rounded(v * 1_000_000_000))
  }

  /** A small positive integer is moved far from where it was. */
  lemma SecondsAreFar(v: int)
    requires 0 < v <= NS_FLOOR
    ensures ToNs(v).value >= 2 * v
  {
    Doubles.RoundedNear(v * 1_000_000_000);
  }

  /** What is not positive is missing, and what is above 100 000 s in nanoseconds stays. The rest is taken for seconds:
      no double is nearer to the number of nanoseconds. */
  lemma ToNsIs(v: int)
    ensures v <= 0 ==> ToNs(v) == None
    ensures v > 100_000_000_000_000 ==> ToNs(v) == Some(v)
    ensures 0 < v <= 9_007_199 ==> ToNs(v) == Some(v * 1_000_000_000)
    ensures 0 < v <= 100_000_000_000_000 ==>
      && ToNs(v).value >= 0 && (exists k, e :: Doubles.IsDouble(ToNs(v).value, k, e))
      && forall m, k, e :: Doubles.IsDouble(m, k, e) ==>
           Doubles.Distance(ToNs(v).value, v * 1_000_000_000) <= Doubles.Distance(m, v * 1_000_000_000)
  {
    if 0 < v <= 100_000_000_000_000 {
      Doubles.RoundedNear(v * 1_000_000_000);
      Doubles.RoundedNearest(v * 1_000_000_000);
    }
  }

  function ClipInterval(s: Span, wlo: Option<int>, whi: Option<int>): Option<Span>
    requires Stamped(s)
  {
    match (ToNs(s.lo), ToNs(s.hi))
    case (Some(start), Some(end)) =>
      if end <= start then None
      else
        var lo := if wlo.Some? then Max(start, wlo.value) else start;
        var hi := if whi.Some? then Min(end, whi.value) else end;
        if hi <= lo then None else Some(Span(lo, hi))
    case _ => None
  }

  predicate InWindow(t: int, wlo: Option<int>, whi: Option<int>) {
    (wlo.Some? ==> wlo.value <= t) && (whi.Some? ==> t < whi.value)
  }

  /** The instants of the intervals that carry a start, inside an optional window. */
  ghost function Recorded(xs: seq<Span>, wlo: Option<int>, whi: Option<int>): set<int> {
    set t | t in Covered(xs) && InWindow(t, wlo, whi) && exists x :: x in xs && 0 < x.lo && Holds(x, t)
  }

  lemma {:induction false} ClipUnchanged(xs: seq<Span>, start: int, end: int)
    requires AllStamped(xs) && forall x :: x in xs ==> 0 < x.lo < x.hi && start <= x.lo && x.hi <= end
    ensures ClipAll(xs, Some(start), Some(end)) == xs
  {
    if xs != [] {
      var n := |xs| - 1;
      ClipUnchanged(xs[..n], start, end);
      assert xs[n] in xs;
      assert xs == xs[..n] + [xs[n]];
    }
  }

  /** Intervals inside the window keep all their instants. */
  lemma RecordedUnchanged(xs: seq<Span>, start: int, end: int)
    requires forall x :: x in xs ==> 0 < x.lo < x.hi && start <= x.lo && x.hi <= end
    ensures Recorded(xs, Some(start), Some(end)) == Covered(xs)
  {
  }

  lemma AllRecorded(xs: seq<Span>)
    requires forall x :: x in xs ==> 0 < x.lo || x.hi <= x.lo
    ensures Recorded(xs, None, None) == Covered(xs)
  {
  }

  lemma ClipMeaning(s: Span, wlo: Option<int>, whi: Option<int>)
    requires Stamped(s)
    ensures var r := ClipInterval(s, wlo, whi);
      (r.Some? ==> NS_FLOOR < r.value.lo < r.value.hi && Stamped(r.value)) &&
      forall t :: (r.Some? && Holds(r.value, t)) <==> (0 < s.lo && Holds(s, t) && InWindow(t, wlo, whi))
  {
  }

  function ClipAll(xs: seq<Span>, wlo: Option<int>, whi: Option<int>): seq<Span>
    requires AllStamped(xs)
  {
    if xs == [] then []
    else
      var n := |xs| - 1;
      var rest := ClipAll(xs[..n], wlo, whi);
      var r := ClipInterval(xs[n], wlo, whi);
      if r.Some? then rest + [r.value] else rest
  }

  lemma {:induction false} ClipAllMeaning(xs: seq<Span>, wlo: Option<int>, whi: Option<int>)
    requires AllStamped(xs)
    ensures Covered(ClipAll(xs, wlo, whi)) == Recorded(xs, wlo, whi)
    ensures forall y :: y in ClipAll(xs, wlo, whi) ==> NS_FLOOR < y.lo < y.hi
    ensures AllStamped(ClipAll(xs, wlo, whi))
  {
    if xs != [] {
      var n := |xs| - 1;
      var rest, r := ClipAll(xs[..n], wlo, whi), ClipInterval(xs[n], wlo, whi);
      ClipAllMeaning(xs[..n], wlo, whi);
      ClipMeaning(xs[n], wlo, whi);
      assert forall x :: x in xs <==> x in xs[..n] || x == xs[n];
      assert Recorded(xs, wlo, whi) == Recorded(xs[..n], wlo, whi) + Recorded([xs[n]], wlo, whi);
      if r.Some? {
        CoveredSplit(rest, [r.value]);
        assert Covered([r.value]) == Recorded([xs[n]], wlo, whi);
      } else {
        assert Recorded([xs[n]], wlo, whi) == {};
      }
    }
  }

  // ---------------------------------------------------------------- merging

  /** Sorted, non-empty intervals with a strict gap between neighbours. */
  /** `at` lists, in order, the places of the intervals of which something is left in the window. */
  ghost predicate ClipPlaces(xs: seq<Span>, wlo: Option<int>, whi: Option<int>, at: seq<nat>)
    requires AllStamped(xs)
  {
    && Increasing(at) && (forall k :: 0 <= k < |at| ==> at[k] < |xs|)
    && forall i: nat :: i in at <==> i < |xs| && Stamped(xs[i]) && ClipInterval(xs[i], wlo, whi).Some?
  }

  ghost predicate ClipsTo(xs: seq<Span>, i: nat, wlo: Option<int>, whi: Option<int>, r: Span) {
    i < |xs| && Stamped(xs[i]) && ClipInterval(xs[i], wlo, whi) == Some(r)
  }

  /** Clipping a list keeps its order and its repetitions. */
  lemma {:induction false} ClipAllAre(xs: seq<Span>, wlo: Option<int>, whi: Option<int>) returns (at: seq<nat>)
    requires AllStamped(xs)
    ensures ClipPlaces(xs, wlo, whi, at) && |ClipAll(xs, wlo, whi)| == |at|
    ensures forall k :: 0 <= k < |at| ==> ClipsTo(xs, at[k], wlo, whi, ClipAll(xs, wlo, whi)[k])
  {
    at := [];
    if xs != [] {
      var n := |xs| - 1;
      var front := xs[..n];
      assert xs[n] in xs && xs == front + [xs[n]];
      at := ClipAllAre(front, wlo, whi);
      var r, rest, was := ClipAll(xs, wlo, whi), ClipAll(front, wlo, whi), at;
      ClipPlacesPlus(front, xs[n], wlo, whi, at);
      at := if ClipInterval(xs[n], wlo, whi).Some? then at + [n] else at;
      forall k | 0 <= k < |at|
        ensures ClipsTo(xs, at[k], wlo, whi, r[k])
      {
        if k < |was| {
          assert at[k] == was[k] && r[k] == rest[k] && ClipsTo(front, was[k], wlo, whi, rest[k]);
        }
      }
    }
  }

  lemma ClipPlacesPlus(front: seq<Span>, x: Span, wlo: Option<int>, whi: Option<int>, at: seq<nat>)
    requires AllStamped(front) && Stamped(x) && ClipPlaces(front, wlo, whi, at)
    ensures AllStamped(front + [x])
    ensures ClipPlaces(front + [x], wlo, whi, if ClipInterval(x, wlo, whi).Some? then at + [|front|] else at)
  {
    var xs := front + [x];
    assert xs[|front|] == x && forall i: nat :: i < |front| ==> xs[i] == front[i];
    assert forall k :: 0 <= k < |at| ==> at[k] < |front|;
  }

  ghost predicate Canonical(xs: seq<Span>) {
    && (forall i :: 0 <= i < |xs| ==> xs[i].lo < xs[i].hi)
    && (forall i, j :: 0 <= i < j < |xs| ==> xs[i].hi < xs[j].lo)
  }

  lemma {:induction false} CanonicalDisjoint(xs: seq<Span>)
    requires Canonical(xs)
    ensures Disjoint(xs) && SumLengths(xs) == |Covered(xs)|
  {
    SumAndMeasure(xs);
  }

  /** The first interval starts at the first covered instant and ends at the next uncovered one. */
  lemma FirstInterval(xs: seq<Span>)
    requires Canonical(xs) && xs != []
    ensures xs[0].lo in Covered(xs) && xs[0].hi !in Covered(xs)
    ensures forall t :: t in Covered(xs) ==> xs[0].lo <= t
    ensures forall t :: xs[0].lo <= t < xs[0].hi ==> t in Covered(xs)
  {
    assert Holds(xs[0], xs[0].lo);
    forall t | xs[0].lo <= t < xs[0].hi
      ensures t in Covered(xs)
    {
      assert Holds(xs[0], t);
    }
  }

  lemma CoveredTail(a: seq<Span>)
    requires Canonical(a) && a != []
    ensures Covered(a[1..]) == Covered(a) - Instants(a[0].lo, a[0].hi)
  {
    assert a == [a[0]] + a[1..];
    CoveredSplit([a[0]], a[1..]);
    assert a[0] in [a[0]];
    assert Covered([a[0]]) == Instants(a[0].lo, a[0].hi);
    forall t | t in Covered(a[1..])
      ensures t !in Instants(a[0].lo, a[0].hi)
    {
      var i :| 0 <= i < |a[1..]| && Holds(a[1..][i], t);
      assert a[i + 1] == a[1..][i];
    }
  }

  lemma CanonicalHead(a: seq<Span>, b: seq<Span>)
    requires Canonical(a) && Canonical(b) && Covered(a) == Covered(b) && a != []
    ensures b != [] && a[0] == b[0]
  {
    FirstInterval(a);
    if b != [] {
      FirstInterval(b);
    }
  }

  /** Two canonical forms of the same instants are the same sequence. */
  lemma CanonicalUnique(a: seq<Span>, b: seq<Span>)
    requires Canonical(a) && Canonical(b) && Covered(a) == Covered(b)
    ensures a == b
  {
    if a != [] {
      CanonicalHead(a, b);
      CoveredTail(a);
      CoveredTail(b);
      CanonicalUnique(a[1..], b[1..]);
      assert a == [a[0]] + a[1..] && b == [b[0]] + b[1..];
    } else if b != [] {
      CanonicalHead(b, a);
    }
  }

  function SpanKey(s: Span): Key {
    Key(s.lo, s.hi, 0)
  }

  /** Intervals are sorted by start, then by end. */
  lemma SpanOrder(a: Span, b: Span)
    ensures LE(SpanKey(a), SpanKey(b)) <==> a.lo < b.lo || (a.lo == b.lo && a.hi <= b.hi)
    ensures SpanKey(a) == SpanKey(b) <==> a == b
  {
  }

  /** The merged list after one more interval, which starts no earlier than the last one. */
  ghost function Absorb(m: seq<Span>, s: Span): seq<Span> {
    var n := |m|;
    if s.hi <= s.lo then m
    else if n == 0 || m[n - 1].hi < s.lo then m + [s]
    else m[..n - 1] + [Span(m[n - 1].lo, Max(m[n - 1].hi, s.hi))]
  }

  lemma Widen(m: seq<Span>, l: Span, s: Span)
    requires Canonical(m) && m != [] && s.lo < s.hi
    requires m[|m| - 1].lo <= s.lo <= m[|m| - 1].hi
    requires l.lo == m[|m| - 1].lo && l.hi == Max(m[|m| - 1].hi, s.hi)
    ensures Covered(m[..|m| - 1] + [l]) == Covered(m) + Covered([s])
  {
    var n := |m|;
    CoveredSplit(m[..n - 1], [l]);
    CoveredLast(m);
    CoveredOne(l);
    CoveredOne(s);
    assert Instants(l.lo, l.hi) == Instants(m[n - 1].lo, m[n - 1].hi) + Instants(s.lo, s.hi);
  }

  lemma MergeStep(m: seq<Span>, s: Span)
    requires Canonical(m)
    requires m != [] ==> m[|m| - 1].lo <= s.lo
    ensures Canonical(Absorb(m, s)) && Covered(Absorb(m, s)) == Covered(m) + Covered([s])
    ensures var r := Absorb(m, s); r != [] ==> r[|r| - 1].lo <= s.lo
  {
    var n := |m|;
    if s.hi <= s.lo {
      assert Covered([s]) == {};
    } else if n == 0 || m[n - 1].hi < s.lo {
      CoveredSplit(m, [s]);
    } else {
      Widen(m, Absorb(m, s)[n - 1], s);
    }
  }

  /** What the merge loop holds after the sorted intervals `xs`. */
  ghost function Merging(xs: seq<Span>): seq<Span> {
    if xs == [] then [] else Absorb(Merging(xs[..|xs| - 1]), xs[|xs| - 1])
  }

  ghost predicate MergedTo(m: seq<Span>, xs: seq<Span>) {
    && Canonical(m) && Covered(m) == Covered(xs)
    && (m != [] ==> xs != [] && m[|m| - 1].lo <= xs[|xs| - 1].lo)
  }

  lemma MergeNext(m: seq<Span>, xs: seq<Span>, s: Span)
    requires MergedTo(m, xs) && (xs != [] ==> xs[|xs| - 1].lo <= s.lo)
    ensures MergedTo(Absorb(m, s), xs + [s])
  {
    MergeStep(m, s);
    CoveredSplit(xs, [s]);
  }

  lemma {:induction false} MergingMeaning(xs: seq<Span>)
    requires SortedBy(xs, SpanKey)
    ensures MergedTo(Merging(xs), xs)
  {
    if xs != [] {
      var n := |xs| - 1;
      MergingMeaning(xs[..n]);
      assert n > 0 ==> LE(SpanKey(xs[n - 1]), SpanKey(xs[n]));
      MergeNext(Merging(xs[..n]), xs[..n], xs[n]);
      assert xs[..n] + [xs[n]] == xs;
    }
  }

  lemma {:induction false} MergeDone(xs: seq<Span>)
    ensures var merged := Merging(SortBy(xs, SpanKey));
      && Canonical(merged) && Covered(merged) == Covered(xs) && SumLengths(merged) == |Covered(xs)|
      && (Canonical(xs) ==> merged == xs)
  {
    var ordered := SortBy(xs, SpanKey);
    MergingMeaning(ordered);
    SameElements(xs, SpanKey);
    assert Covered(ordered) == Covered(xs);
    CanonicalDisjoint(Merging(ordered));
    if Canonical(xs) {
      CanonicalUnique(Merging(ordered), xs);
    }
  }

  /** `merge_intervals`: the canonical form of the instants the input covers. */
  method MergeIntervals(xs: seq<Span>) returns (merged: seq<Span>)
    ensures Canonical(merged) && Covered(merged) == Covered(xs)
    ensures SumLengths(merged) == |Covered(xs)|
    ensures Canonical(xs) ==> merged == xs
  {
    merged := [];
    var ordered := SortBy(xs, SpanKey);
    for i := 0 to |ordered|
      invariant merged == Merging(ordered[..i])
    {
      assert ordered[..i + 1][..i] == ordered[..i];
      var s := ordered[i];
      if s.hi <= s.lo {
        continue;
      }
      var n := |merged|;
      if n == 0 || s.lo > merged[n - 1].hi {
        merged := merged + [s];
      } else {
        merged := merged[..n - 1] + [Span(merged[n - 1].lo, Max(merged[n - 1].hi, s.hi))];
      }
    }
    assert ordered[..|ordered|] == ordered;
    MergeDone(xs);
  }

  // ------------------------------------------------- sums inside a window

  /** `uncovered_interval_ns`: the window's instants that no interval covers. */
  method UncoveredIntervalNs(wlo: int, whi: int, xs: seq<Span>) returns (n: int)
    requires AllStamped(xs)
    ensures n == |Instants(wlo, whi) - Recorded(xs, None, None)|
    ensures n + |Recorded(xs, Some(wlo), Some(whi))| == |Instants(wlo, whi)|
  {
    var clipped := ClipEach(xs, Some(wlo), Some(whi));
    var merged := MergeIntervals(clipped);
    var total := Max(0, whi - wlo);
    n := Max(0, total - SumLengths(merged));
    var window, inside := Instants(wlo, whi), Recorded(xs, Some(wlo), Some(whi));
    InstantsSize(wlo, whi);
    SubsetSize(inside, window);
    assert window - Recorded(xs, None, None) == window - inside;
  }

  method ClipEach(xs: seq<Span>, wlo: Option<int>, whi: Option<int>) returns (clipped: seq<Span>)
    requires AllStamped(xs)
    ensures clipped == ClipAll(xs, wlo, whi)
    ensures Covered(clipped) == Recorded(xs, wlo, whi)
    ensures forall y :: y in clipped ==> NS_FLOOR < y.lo < y.hi
  {
    clipped := [];
    for i := 0 to |xs|
      invariant clipped == ClipAll(xs[..i], wlo, whi)
    {
      assert xs[..i + 1][..i] == xs[..i];
      var span := ClipInterval(xs[i], wlo, whi);
      if span.Some? {
        clipped := clipped + [span.value];
      }
    }
    assert xs[..|xs|] == xs;
    ClipAllMeaning(xs, wlo, whi);
  }

  /** `sum_clipped_interval_items`. */
  method SumClippedItems(xs: seq<Span>, wlo: Option<int>, whi: Option<int>, mergeOverlaps: bool)
    returns (total: int, clipped: seq<Span>)
    requires AllStamped(xs)
    ensures Covered(clipped) == Recorded(xs, wlo, whi)
    ensures forall y :: y in clipped ==> NS_FLOOR < y.lo < y.hi
    ensures mergeOverlaps ==> Canonical(clipped) && total == |Recorded(xs, wlo, whi)|
    ensures !mergeOverlaps ==> clipped == ClipAll(xs, wlo, whi) && total == SumLengths(clipped)
    ensures total >= |Recorded(xs, wlo, whi)|
  {
    clipped := ClipEach(xs, wlo, whi);
    SumAndMeasure(clipped);
    if mergeOverlaps {
      ghost var before := clipped;
      clipped := MergeIntervals(clipped);
      CanonicalStamped(clipped, before);
    }
    total := SumLengths(clipped);
  }

  /** A canonical form of stamped instants is stamped. */
  lemma CanonicalStamped(m: seq<Span>, xs: seq<Span>)
    requires Canonical(m) && Covered(m) == Covered(xs)
    requires forall x :: x in xs ==> NS_FLOOR < x.lo < x.hi
    ensures forall y :: y in m ==> NS_FLOOR < y.lo < y.hi && Stamped(y)
  {
    forall y | y in m
      ensures NS_FLOOR < y.lo < y.hi
    {
      assert Holds(y, y.lo);
      assert y.lo in Covered(xs);
    }
  }
}
