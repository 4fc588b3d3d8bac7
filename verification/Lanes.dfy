/** Greedy lane allocation: overlapping intervals get different drawing lanes. */
module Lanes {
  import opened Sets
  import opened Spans
  import opened Sorting
  import opened Intervals

  predicate Valid(s: Span) {
    0 < s.lo < s.hi
  }

  datatype Entry = Entry(idx: nat, span: Span)

  function Enumerate(xs: seq<Span>): (r: seq<Entry>)
    ensures |r| == |xs| && forall i :: 0 <= i < |r| ==> r[i] == Entry(i, xs[i])
  {
    seq(|xs|, i requires 0 <= i < |xs| => Entry(i, xs[i]))
  }

  /** `to_ns(...) or 0`, then the original index. */
  function EntryKey(e: Entry): Key {
    Key(Max(0, e.span.lo), Max(0, e.span.hi), e.idx)
  }

  // ------------------------------------------------ what an assignment must do

  /** The valid intervals that hold instant `t`, by index. */
  ghost function Alive(xs: seq<Span>, t: int): set<int> {
    set i | 0 <= i < |xs| && 0 < xs[i].lo && Holds(xs[i], t)
  }

  /** Intervals that share an instant never share a lane, and lanes are below `m`. */
  ghost predicate Proper(xs: seq<Span>, lanes: seq<nat>, m: nat) {
    && |lanes| == |xs|
    && (forall i :: 0 <= i < |xs| && 0 < xs[i].lo < xs[i].hi ==> lanes[i] < m)
    && forall i, j, t :: 0 <= i < j < |xs| && 0 < xs[i].lo && 0 < xs[j].lo && Holds(xs[i], t) && Holds(xs[j], t)
         ==> lanes[i] != lanes[j]
  }

  /** The order in which intervals get their lanes: by start, then end, then place. */
  ghost predicate Earlier(x: Span, i: nat, y: Span, j: nat) {
    x.lo < y.lo || (x.lo == y.lo && (x.hi < y.hi || (x.hi == y.hi && i < j)))
  }

  /** When interval `i` gets its lane, an earlier one in lane `l` is still alive. */
  ghost predicate LaneTaken(xs: seq<Span>, lanes: seq<nat>, i: nat, l: nat)
    requires i < |xs| == |lanes|
  {
    exists j :: 0 <= j < |xs| && 0 < xs[j].lo && lanes[j] == l && Holds(xs[j], xs[i].lo) && Earlier(xs[j], j, xs[i], i)
  }

  /** No interval is in a lane while a lower one is free. */
  ghost predicate FirstFit(xs: seq<Span>, lanes: seq<nat>) {
    |lanes| == |xs| &&
    forall i, l :: 0 <= i < |xs| && 0 < xs[i].lo < xs[i].hi && 0 <= l < lanes[i] ==> LaneTaken(xs, lanes, i, l)
  }

  /** However the lanes are chosen, the intervals alive at one instant need that many. */
  lemma AliveNeedLanes(xs: seq<Span>, lanes: seq<nat>, m: nat, t: int)
    requires Proper(xs, lanes, m)
    ensures |Alive(xs, t)| <= m
  {
    var f: int -> int := i => if 0 <= i < |lanes| then lanes[i] else 0;
    forall i, j | i in Alive(xs, t) && j in Alive(xs, t) && f(i) == f(j)
      ensures i == j
    {
    }
    InstantsSize(0, m);
    Pigeonhole(Alive(xs, t), f, Instants(0, m));
  }

  // -------------------------------------------------------------- the order

  ghost predicate IsOrder(xs: seq<Span>, o: seq<Entry>) {
    && |o| == |xs|
    && (forall e :: e in o <==> e.idx < |xs| && e.span == xs[e.idx])
    && (forall a, b :: 0 <= a < b < |o| ==> o[a].idx != o[b].idx)
    && SortedBy(o, EntryKey)
  }

  lemma EnumerateApart(xs: seq<Span>)
    ensures NoRepeat(Enumerate(xs))
    decreases |xs|
  {
    if xs != [] {
      var n := |xs| - 1;
      EnumerateApart(xs[..n]);
      NoRepeatAppend(Enumerate(xs[..n]), Entry(n, xs[n]));
      assert Enumerate(xs) == Enumerate(xs[..n]) + [Entry(n, xs[n])];
    }
  }

  lemma OrderIs(xs: seq<Span>)
    ensures IsOrder(xs, SortBy(Enumerate(xs), EntryKey))
  {
    var es := Enumerate(xs);
    var o := SortBy(es, EntryKey);
    SameElements(es, EntryKey);
    EnumerateApart(xs);
    forall e
      ensures e in o <==> e.idx < |xs| && e.span == xs[e.idx]
    {
      if e.idx < |xs| && e.span == xs[e.idx] {
        assert es[e.idx] == e;
      }
    }
    forall a, b | 0 <= a < b < |o|
      ensures o[a].idx != o[b].idx
    {
      assert NoRepeat(o);
      NoRepeatApart(o, a, b);
      assert o[a] in o && o[b] in o;
    }
  }

  lemma StartsInOrder(xs: seq<Span>, o: seq<Entry>, a: nat, b: nat)
    requires IsOrder(xs, o) && a < b < |o| && Valid(o[a].span) && Valid(o[b].span)
    ensures o[a].span.lo <= o[b].span.lo
  {
    assert LE(EntryKey(o[a]), EntryKey(o[b]));
  }

  // -------------------------------------------------------------- the loop

  /** Loop state: lane ends, the lane of each entry so far, and, for the proof, the last entry of each
      lane and the entries that were all alive at `at` when the newest lane opened. */
  datatype Lanes = Lanes(ends: seq<int>, placed: seq<nat>)

  ghost predicate AssignedTo(o: seq<Entry>, s: Lanes) {
    && |s.placed| <= |o|
    && (forall j :: 0 <= j < |s.placed| && Valid(o[j].span) ==>
          s.placed[j] < |s.ends| && o[j].span.hi <= s.ends[s.placed[j]])
    && (forall j :: 0 <= j < |s.placed| && !Valid(o[j].span) ==> s.placed[j] == 0)
    && forall i, j :: 0 <= i < j < |s.placed| && Valid(o[i].span) && Valid(o[j].span) && s.placed[i] == s.placed[j]
         ==> o[i].span.hi <= o[j].span.lo
  }

  /** `pick[l]` is an entry of lane `l`. */
  ghost predicate OnePerLane(o: seq<Entry>, s: Lanes, pick: seq<nat>) {
    && |pick| == |s.ends|
    && forall l :: 0 <= l < |pick| ==>
         pick[l] < |s.placed| <= |o| && Valid(o[pick[l]].span) && s.placed[pick[l]] == l
  }

  ghost predicate LastOfLanes(o: seq<Entry>, s: Lanes, last: seq<nat>) {
    OnePerLane(o, s, last) && forall l :: 0 <= l < |last| ==> o[last[l]].span.hi == s.ends[l]
  }

  ghost predicate AliveAt(o: seq<Entry>, s: Lanes, pick: seq<nat>, t: int) {
    OnePerLane(o, s, pick) && forall l :: 0 <= l < |pick| ==> Holds(o[pick[l]].span, t)
  }

  /** The first lane that is free at `start`, or the number of lanes. */
  method FirstFree(ends: seq<int>, start: int) returns (l: nat)
    ensures l <= |ends| && (l < |ends| ==> ends[l] <= start)
    ensures forall k :: 0 <= k < l ==> start < ends[k]
  {
    l := 0;
    while l < |ends| && start < ends[l]
      invariant l <= |ends| && forall k :: 0 <= k < l ==> start < ends[k]
    {
      l := l + 1;
    }
  }

  /** The loop invariant, with the two witnesses. */
  ghost predicate GreedyOk(o: seq<Entry>, s: Lanes, last: seq<nat>, pick: seq<nat>, t: int) {
    AssignedTo(o, s) && LastOfLanes(o, s, last) && AliveAt(o, s, pick, t)
  }

  /** An earlier entry in lane `l` is still alive when entry `k` starts. */
  ghost predicate Taken(o: seq<Entry>, s: Lanes, k: nat, l: nat)
    requires k < |s.placed| <= |o|
  {
    exists j :: 0 <= j < k && Valid(o[j].span) && s.placed[j] == l && o[k].span.lo < o[j].span.hi
  }

  /** Every entry is in the first lane that was free. */
  ghost predicate FirstLanes(o: seq<Entry>, s: Lanes) {
    && |s.placed| <= |o|
    && forall k, l :: 0 <= k < |s.placed| && Valid(o[k].span) && 0 <= l < s.placed[k] ==> Taken(o, s, k, l)
  }

  lemma FirstKeeps(o: seq<Entry>, s: Lanes, r: Lanes, last: seq<nat>)
    requires FirstLanes(o, s) && LastOfLanes(o, s, last) && |s.placed| < |o| && |r.placed| == |s.placed| + 1
    requires r.placed[..|s.placed|] == s.placed
    requires var k := |s.placed|;
      Valid(o[k].span) ==> r.placed[k] <= |s.ends| && forall l :: 0 <= l < r.placed[k] ==> o[k].span.lo < s.ends[l]
    ensures FirstLanes(o, r)
  {
    var n := |s.placed|;
    assert forall j :: 0 <= j < n ==> r.placed[j] == s.placed[j];
    forall k, l | 0 <= k < n + 1 && Valid(o[k].span) && 0 <= l < r.placed[k]
      ensures Taken(o, r, k, l)
    {
      if k < n {
        assert Taken(o, s, k, l);
        var j :| 0 <= j < k && Valid(o[j].span) && s.placed[j] == l && o[k].span.lo < o[j].span.hi;
        assert r.placed[j] == l;
      } else {
        assert r.placed[last[l]] == l;
      }
    }
  }

  lemma SkipKeeps(o: seq<Entry>, s: Lanes, r: Lanes, last: seq<nat>, pick: seq<nat>, t: int)
    requires GreedyOk(o, s, last, pick, t) && |s.placed| < |o| && !Valid(o[|s.placed|].span)
    requires r == Lanes(s.ends, s.placed + [0])
    ensures GreedyOk(o, r, last, pick, t)
  {
  }

  lemma PlaceAssigned(o: seq<Entry>, s: Lanes, r: Lanes, l: nat)
    requires AssignedTo(o, s) && |s.placed| < |o| && Valid(o[|s.placed|].span)
    requires l <= |s.ends| && (l < |s.ends| ==> s.ends[l] <= o[|s.placed|].span.lo)
    requires var hi := o[|s.placed|].span.hi;
      r == Lanes(if l < |s.ends| then s.ends[l := hi] else s.ends + [hi], s.placed + [l])
    ensures AssignedTo(o, r)
  {
  }

  lemma PickKeeps(o: seq<Entry>, s: Lanes, r: Lanes, pick: seq<nat>, t: int)
    requires AliveAt(o, s, pick, t) && |r.ends| == |s.ends| && s.placed <= r.placed && |r.placed| <= |o|
    ensures AliveAt(o, r, pick, t)
  {
  }

  lemma ReuseLast(o: seq<Entry>, s: Lanes, r: Lanes, l: nat, last: seq<nat>)
    requires LastOfLanes(o, s, last) && |s.placed| < |o| && Valid(o[|s.placed|].span) && l < |s.ends|
    requires r == Lanes(s.ends[l := o[|s.placed|].span.hi], s.placed + [l])
    ensures LastOfLanes(o, r, last[l := |s.placed|])
  {
  }

  lemma OpenLast(o: seq<Entry>, s: Lanes, r: Lanes, last: seq<nat>)
    requires LastOfLanes(o, s, last) && |s.placed| < |o| && Valid(o[|s.placed|].span)
    requires r == Lanes(s.ends + [o[|s.placed|].span.hi], s.placed + [|s.ends|])
    ensures LastOfLanes(o, r, last + [|s.placed|])
  {
  }

  lemma ReuseKeeps(o: seq<Entry>, s: Lanes, r: Lanes, l: nat, last: seq<nat>, pick: seq<nat>, t: int)
    requires GreedyOk(o, s, last, pick, t) && |s.placed| < |o| && Valid(o[|s.placed|].span)
    requires l < |s.ends| && s.ends[l] <= o[|s.placed|].span.lo
    requires r == Lanes(s.ends[l := o[|s.placed|].span.hi], s.placed + [l])
    ensures GreedyOk(o, r, last[l := |s.placed|], pick, t)
  {
    PlaceAssigned(o, s, r, l);
    PickKeeps(o, s, r, pick, t);
    ReuseLast(o, s, r, l, last);
  }

  lemma OpenKeeps(xs: seq<Span>, o: seq<Entry>, s: Lanes, r: Lanes, last: seq<nat>, pick: seq<nat>, t: int)
    requires IsOrder(xs, o) && GreedyOk(o, s, last, pick, t) && |s.placed| < |o| && Valid(o[|s.placed|].span)
    requires forall l :: 0 <= l < |s.ends| ==> o[|s.placed|].span.lo < s.ends[l]
    requires r == Lanes(s.ends + [o[|s.placed|].span.hi], s.placed + [|s.ends|])
    ensures GreedyOk(o, r, last + [|s.placed|], last + [|s.placed|], o[|s.placed|].span.lo)
  {
    var k := |s.placed|;
    PlaceAssigned(o, s, r, |s.ends|);
    OpenLast(o, s, r, last);
    forall l | 0 <= l < |last|
      ensures Holds(o[last[l]].span, o[k].span.lo)
    {
      StartsInOrder(xs, o, last[l], k);
    }
  }

  /** The greedy pass over the intervals in start order. */
  method Greedy(xs: seq<Span>, o: seq<Entry>) returns (s: Lanes, ghost pick: seq<nat>, ghost t: int)
    requires IsOrder(xs, o)
    ensures |s.placed| == |o| && AssignedTo(o, s) && AliveAt(o, s, pick, t) && FirstLanes(o, s)
  {
    s := Lanes([], []);
    ghost var last: seq<nat> := [];
    pick, t := [], 0;
    for k := 0 to |o|
      invariant |s.placed| == k && GreedyOk(o, s, last, pick, t) && FirstLanes(o, s)
    {
      ghost var was := s;
      var x := o[k].span;
      if !Valid(x) {
        s := Lanes(s.ends, s.placed + [0]);
        FirstKeeps(o, was, s, last);
        SkipKeeps(o, was, s, last, pick, t);
        continue;
      }
      var l := FirstFree(s.ends, x.lo);
      if l == |s.ends| {
        s := Lanes(s.ends + [x.hi], s.placed + [l]);
        FirstKeeps(o, was, s, last);
        OpenKeeps(xs, o, was, s, last, pick, t);
        last := last + [k];
        pick, t := last, x.lo;
      } else {
        s := Lanes(s.ends[l := x.hi], s.placed + [l]);
        FirstKeeps(o, was, s, last);
        ReuseKeeps(o, was, s, l, last, pick, t);
        last := last[l := k];
      }
    }
  }

  /** The lanes in original order. */
  method Scatter(xs: seq<Span>, o: seq<Entry>, placed: seq<nat>) returns (lanes: seq<nat>)
    requires IsOrder(xs, o) && |placed| == |o|
    ensures |lanes| == |xs| && forall j :: 0 <= j < |o| ==> o[j].idx < |xs| && lanes[o[j].idx] == placed[j]
  {
    lanes := seq(|xs|, _ => 0);
    for k := 0 to |o|
      invariant |lanes| == |xs|
      invariant forall j :: 0 <= j < k ==> o[j].idx < |xs| && lanes[o[j].idx] == placed[j]
    {
      assert o[k] in o;
      lanes := lanes[o[k].idx := placed[k]];
    }
  }

  lemma PositionOf(xs: seq<Span>, o: seq<Entry>, i: nat) returns (a: nat)
    requires IsOrder(xs, o) && i < |xs|
    ensures a < |o| && o[a] == Entry(i, xs[i])
  {
    assert Entry(i, xs[i]) in o;
    a :| 0 <= a < |o| && o[a] == Entry(i, xs[i]);
  }

  lemma ScatteredProper(xs: seq<Span>, o: seq<Entry>, s: Lanes, lanes: seq<nat>)
    requires IsOrder(xs, o) && |s.placed| == |o| && AssignedTo(o, s) && |lanes| == |xs|
    requires forall j :: 0 <= j < |o| ==> o[j].idx < |xs| && lanes[o[j].idx] == s.placed[j]
    ensures Proper(xs, lanes, |s.ends|)
    ensures forall i :: 0 <= i < |xs| && !Valid(xs[i]) ==> lanes[i] == 0
  {
    forall i | 0 <= i < |xs|
      ensures if Valid(xs[i]) then lanes[i] < |s.ends| else lanes[i] == 0
    {
      var a := PositionOf(xs, o, i);
    }
    forall i, j, t | 0 <= i < j < |xs| && Valid(xs[i]) && Valid(xs[j]) && Holds(xs[i], t) && Holds(xs[j], t)
      ensures lanes[i] != lanes[j]
    {
      var a := PositionOf(xs, o, i);
      var b := PositionOf(xs, o, j);
      if a < b {
        assert s.placed[a] != s.placed[b];
      } else {
        assert s.placed[b] != s.placed[a];
      }
    }
  }

  lemma EarlierEntry(o: seq<Entry>, a: nat, b: nat)
    requires SortedBy(o, EntryKey) && a < b < |o| && Valid(o[a].span) && Valid(o[b].span) && o[a].idx != o[b].idx
    ensures Earlier(o[a].span, o[a].idx, o[b].span, o[b].idx)
  {
    assert LE(EntryKey(o[a]), EntryKey(o[b]));
  }

  lemma ScatteredFirst(xs: seq<Span>, o: seq<Entry>, s: Lanes, lanes: seq<nat>)
    requires IsOrder(xs, o) && |s.placed| == |o| && FirstLanes(o, s) && |lanes| == |xs|
    requires forall j :: 0 <= j < |o| ==> o[j].idx < |xs| && lanes[o[j].idx] == s.placed[j]
    ensures FirstFit(xs, lanes)
  {
    forall i, l | 0 <= i < |xs| && 0 < xs[i].lo < xs[i].hi && 0 <= l < lanes[i]
      ensures LaneTaken(xs, lanes, i, l)
    {
      var b := PositionOf(xs, o, i);
      assert Taken(o, s, b, l);
      var a :| 0 <= a < b && Valid(o[a].span) && s.placed[a] == l && o[b].span.lo < o[a].span.hi;
      assert o[a] in o;
      EarlierEntry(o, a, b);
    }
  }

  lemma PickedAlive(xs: seq<Span>, o: seq<Entry>, s: Lanes, pick: seq<nat>, t: int)
    requires IsOrder(xs, o) && |s.placed| == |o| && AliveAt(o, s, pick, t)
    ensures |s.ends| <= |Alive(xs, t)|
  {
    var f: int -> int := l => if 0 <= l < |pick| && pick[l] < |o| then o[pick[l]].idx else 0;
    forall l | l in Instants(0, |pick|)
      ensures f(l) in Alive(xs, t)
    {
      assert o[pick[l]] in o;
    }
    forall k, l | k in Instants(0, |pick|) && l in Instants(0, |pick|) && f(k) == f(l)
      ensures k == l
    {
      assert pick[k] == pick[l];
    }
    InstantsSize(0, |pick|);
    Pigeonhole(Instants(0, |pick|), f, Alive(xs, t));
  }

  /** `assign_non_overlapping_lanes`: a proper assignment that uses as many lanes as intervals are
      alive at the busiest instant. */
  method AssignLanes(xs: seq<Span>) returns (lanes: seq<nat>, count: nat)
    requires AllStamped(xs)
    ensures Proper(xs, lanes, count)
    ensures forall i :: 0 <= i < |xs| && !(0 < xs[i].lo < xs[i].hi) ==> lanes[i] == 0
    ensures FirstFit(xs, lanes)
    ensures exists t :: |Alive(xs, t)| == count
    ensures forall t :: |Alive(xs, t)| <= count
    ensures forall other, m :: Proper(xs, other, m) ==> count <= m
  {
    var o := SortBy(Enumerate(xs), EntryKey);
    OrderIs(xs);
    var s;
    ghost var pick, at;
    s, pick, at := Greedy(xs, o);
    lanes := Scatter(xs, o, s.placed);
    count := |s.ends|;
    ScatteredProper(xs, o, s, lanes);
    ScatteredFirst(xs, o, s, lanes);
    PickedAlive(xs, o, s, pick, at);
    forall t
      ensures |Alive(xs, t)| <= count
    {
      AliveNeedLanes(xs, lanes, count, t);
    }
    forall other, m | Proper(xs, other, m)
      ensures count <= m
    {
      AliveNeedLanes(xs, other, m, at);
    }
  }
}
