/** Request-level totals of the breakdown, attributed over the merged dispatch windows. */
module Totals {
  import opened Sets
  import opened Spans
  import opened Sorting
  import opened Intervals
  import opened Sweep
  import opened Stages
  import opened Breakdown

  /** The instants that belong to `c` in whichever window holds them. */
  ghost function WindowShare(items: seq<Item>, ws: seq<Span>, c: Component): set<int> {
    set w, t | w in ws && w.lo <= t < w.hi && Holds(w, t) && Chosen(items, w.lo, w.hi, t, c) :: t
  }

  /** Adds one window's components to the running totals. */
  method AddWall(total: map<Component, int>, wall: map<Component, int>) returns (r: map<Component, int>)
    ensures forall c :: At(r, c) == At(total, c) + At(wall, c)
  {
    r := total;
    var todo := wall.Keys;
    while |todo| > 0
      invariant todo <= wall.Keys
      invariant forall c :: At(r, c) == At(total, c) + if c in todo then 0 else At(wall, c)
    {
      var c := Pick(todo);
      todo := todo - {c};
      r := r[c := At(r, c) + wall[c]];
    }
  }

  /** An instant lies in one canonical window only, so that window decides. */
  lemma WindowShareAt(items: seq<Item>, ws: seq<Span>, c: Component, w: Span, t: int)
    requires Canonical(ws) && w in ws && Holds(w, t)
    ensures t in WindowShare(items, ws, c) <==> Chosen(items, w.lo, w.hi, t, c)
  {
    if t in WindowShare(items, ws, c) {
      var v :| v in ws && Holds(v, t) && Chosen(items, v.lo, v.hi, t, c);
      var i :| 0 <= i < |ws| && ws[i] == v;
      var j :| 0 <= j < |ws| && ws[j] == w;
      CanonicalDisjoint(ws);
      assert Holds(ws[i], t) && Holds(ws[j], t);
    }
  }

  lemma WindowShareJoin(items: seq<Item>, ws: seq<Span>, c: Component)
    requires ws != []
    ensures var n := |ws| - 1;
      WindowShare(items, ws, c) == WindowShare(items, ws[..n], c) + Share(items, ws[n].lo, ws[n].hi, c)
  {
    assert forall w :: w in ws <==> w in ws[..|ws| - 1] || w == ws[|ws| - 1];
  }

  lemma WindowShareLast(items: seq<Item>, ws: seq<Span>, c: Component)
    requires ws != [] && Disjoint(ws)
    ensures var n := |ws| - 1;
      |WindowShare(items, ws, c)| == |WindowShare(items, ws[..n], c)| + |Share(items, ws[n].lo, ws[n].hi, c)|
  {
    var n := |ws| - 1;
    var a, b := WindowShare(items, ws[..n], c), Share(items, ws[n].lo, ws[n].hi, c);
    WindowShareJoin(items, ws, c);
    DisjointLast(ws);
    SharesInside(items, ws[..n], c);
    assert b <= Instants(ws[n].lo, ws[n].hi);
    assert a * b == {};
  }

  lemma SharesInside(items: seq<Item>, ws: seq<Span>, c: Component)
    ensures WindowShare(items, ws, c) <= Covered(ws)
  {
  }

  /** What the windows hide: clipped lengths minus the measure of their union, window by window. */
  ghost function OverlapIn(xs: seq<Span>, ws: seq<Span>): int
    requires AllStamped(xs)
  {
    if ws == [] then 0
    else
      var w := ws[|ws| - 1];
      OverlapIn(xs, ws[..|ws| - 1])
        + SumLengths(ClipAll(xs, Some(w.lo), Some(w.hi))) - |Recorded(xs, Some(w.lo), Some(w.hi))|
  }

  lemma SpansStamped(items: seq<Item>)
    requires ItemsStamped(items)
    ensures AllStamped(SpansOf(items))
  {
    var xs := SpansOf(items);
    forall x | x in xs
      ensures Stamped(x)
    {
      var i :| 0 <= i < |xs| && xs[i] == x;
      assert items[i] in items;
    }
  }

  ghost predicate Recordable(xs: seq<Span>) {
    forall x :: x in xs ==> NS_FLOOR < x.lo < x.hi
  }

  /** The lengths of the intervals inside the windows. */
  ghost function LengthIn(xs: seq<Span>, ws: seq<Span>): int
    requires Recordable(xs)
  {
    if ws == [] then 0
    else
      var w := ws[|ws| - 1];
      LengthIn(xs, ws[..|ws| - 1]) + SumLengths(ClipAll(xs, Some(w.lo), Some(w.hi)))
  }

  lemma {:induction false} LengthInNothing(ws: seq<Span>)
    ensures LengthIn([], ws) == 0
  {
    if ws != [] {
      LengthInNothing(ws[..|ws| - 1]);
    }
  }

  lemma {:induction false} LengthInLast(xs: seq<Span>, ws: seq<Span>)
    requires xs != [] && Recordable(xs) && Disjoint(ws)
    ensures var n := |xs| - 1;
      LengthIn(xs, ws) == LengthIn(xs[..n], ws) + |Instants(xs[n].lo, xs[n].hi) * Covered(ws)|
    decreases |ws|
  {
    var x := xs[|xs| - 1];
    var front := xs[..|xs| - 1];
    if ws == [] {
      assert Covered(ws) == {};
      assert Instants(x.lo, x.hi) * Covered(ws) == {};
    } else {
      var n := |ws| - 1;
      var w := ws[n];
      DisjointLast(ws);
      LengthInLast(xs, ws[..n]);
      ClipLast(xs, w);
      InstantsOverlap(x, ws);
    }
  }

  /** Clipping one more interval adds its share of the window. */
  lemma {:induction false} ClipLast(xs: seq<Span>, w: Span)
    requires xs != [] && Recordable(xs)
    ensures var n := |xs| - 1;
      SumLengths(ClipAll(xs, Some(w.lo), Some(w.hi)))
      == SumLengths(ClipAll(xs[..n], Some(w.lo), Some(w.hi))) + |Instants(xs[n].lo, xs[n].hi) * Instants(w.lo, w.hi)|
  {
    var x := xs[|xs| - 1];
    assert x in xs;
    var rest, r := ClipAll(xs[..|xs| - 1], Some(w.lo), Some(w.hi)), ClipInterval(x, Some(w.lo), Some(w.hi));
    var lo, hi := Max(x.lo, w.lo), Min(x.hi, w.hi);
    assert Instants(x.lo, x.hi) * Instants(w.lo, w.hi) == Instants(lo, hi);
    InstantsSize(lo, hi);
    if r.Some? {
      SumLengthsSnoc(rest, r.value);
    }
  }

  lemma InstantsOverlap(x: Span, ws: seq<Span>)
    requires ws != [] && Disjoint(ws)
    ensures var n := |ws| - 1;
      |Instants(x.lo, x.hi) * Covered(ws)|
      == |Instants(x.lo, x.hi) * Covered(ws[..n])| + |Instants(x.lo, x.hi) * Instants(ws[n].lo, ws[n].hi)|
  {
    SetOverlap(Instants(x.lo, x.hi), ws);
  }

  lemma SetOverlap(s: set<int>, ws: seq<Span>)
    requires ws != [] && Disjoint(ws)
    ensures var n := |ws| - 1;
      |s * Covered(ws)| == |s * Covered(ws[..n])| + |s * Instants(ws[n].lo, ws[n].hi)|
  {
    var n := |ws| - 1;
    CoveredLast(ws);
    DisjointLast(ws);
    var a, b := s * Covered(ws[..n]), s * Instants(ws[n].lo, ws[n].hi);
    assert s * Covered(ws) == a + b;
    assert a * b == {};
    UnionSize(a, b);
  }

  /** Intervals inside the windows keep their whole length there. */
  lemma {:induction false} LengthInAll(xs: seq<Span>, ws: seq<Span>)
    requires Recordable(xs) && Disjoint(ws) && Covered(xs) <= Covered(ws)
    ensures LengthIn(xs, ws) == SumLengths(xs)
  {
    if xs == [] {
      LengthInNothing(ws);
    } else {
      var n := |xs| - 1;
      var x := xs[n];
      CoveredLast(xs);
      LengthInAll(xs[..n], ws);
      LengthInLast(xs, ws);
      assert Instants(x.lo, x.hi) * Covered(ws) == Instants(x.lo, x.hi);
      InstantsSize(x.lo, x.hi);
      assert x in xs;
    }
  }

  lemma {:induction false} OverlapInIs(xs: seq<Span>, ws: seq<Span>)
    requires AllStamped(xs) && Recordable(xs) && Disjoint(ws)
    ensures OverlapIn(xs, ws) == LengthIn(xs, ws) - |Covered(xs) * Covered(ws)|
    decreases |ws|
  {
    if ws == [] {
      assert Covered(xs) * Covered(ws) == {};
    } else {
      var n := |ws| - 1;
      var w := ws[n];
      DisjointLast(ws);
      OverlapInIs(xs, ws[..n]);
      SetOverlap(Covered(xs), ws);
      assert Recorded(xs, Some(w.lo), Some(w.hi)) == Covered(xs) * Instants(w.lo, w.hi);
    }
  }

  /** Over windows that hold all intervals, what is hidden is their total length minus the measure of their union. */
  lemma {:induction false} HiddenTime(xs: seq<Span>, ws: seq<Span>)
    requires AllStamped(xs) && Recordable(xs) && Canonical(ws) && Covered(xs) <= Covered(ws)
    ensures OverlapIn(xs, ws) == SumLengths(xs) - |Covered(xs)|
  {
    CanonicalDisjoint(ws);
    OverlapInIs(xs, ws);
    LengthInAll(xs, ws);
    assert Covered(xs) * Covered(ws) == Covered(xs);
  }

  /** The loop over the merged windows. */
  method AttributeWindows(items: seq<Item>, ws: seq<Span>) returns (total: map<Component, int>, overlap: int)
    requires ItemsStamped(items) && Canonical(ws) && forall w :: w in ws ==> NS_FLOOR < w.lo
    ensures forall c :: At(total, c) == |WindowShare(items, ws, c)|
    ensures overlap == OverlapIn(SpansOf(items), ws)
  {
    total, overlap := map[], 0;
    SpansStamped(items);
    assert forall c :: WindowShare(items, [], c) == {};
    for i := 0 to |ws|
      invariant forall c :: At(total, c) == |WindowShare(items, ws[..i], c)|
      invariant overlap == OverlapIn(SpansOf(items), ws[..i])
    {
      assert ws[..i + 1][..i] == ws[..i];
      var wall := AttributeWall(items, ws[i].lo, ws[i].hi);
      overlap := overlap + wall.overlap;
      ghost var was := total;
      total := AddWall(total, wall.wall);
      NextWindow(items, ws, i, was, wall.wall, total);
    }
    assert ws[..|ws|] == ws;
  }

  lemma NextWindow(items: seq<Item>, ws: seq<Span>, i: nat, was: map<Component, int>, wall: map<Component, int>,
                   total: map<Component, int>)
    requires i < |ws| && Canonical(ws) && forall c :: At(was, c) == |WindowShare(items, ws[..i], c)|
    requires forall c :: At(wall, c) == |Share(items, ws[i].lo, ws[i].hi, c)|
    requires forall c :: At(total, c) == At(was, c) + At(wall, c)
    ensures forall c :: At(total, c) == |WindowShare(items, ws[..i + 1], c)|
  {
    forall c
      ensures At(total, c) == |WindowShare(items, ws[..i + 1], c)|
    {
      CanonicalDisjoint(ws[..i + 1]);
      WindowShareLast(items, ws[..i + 1], c);
      assert ws[..i + 1][..i] == ws[..i];
      assert At(was, c) == |WindowShare(items, ws[..i], c)|;
    }
  }

  lemma FirstComponent(s: set<Component>) returns (c: Component)
    requires s != {}
    ensures c in s && forall d :: d in s ==> Before(c, d)
  {
    c := One(s);
    if s != {c} {
      var d := FirstComponent(s - {c});
      var least := if Before(c, d) then c else d;
      forall e | e in s
        ensures Before(least, e)
      {
        assert e == c || e in s - {c};
      }
      c := least;
    }
  }

  lemma SomeChosen(items: seq<Item>, lo: int, hi: int, t: int) returns (c: Component)
    ensures Chosen(items, lo, hi, t, c)
  {
    if !Meets(items, lo, hi) {
      c := OtherCompute;
    } else if Active(items, t) == {} {
      c := PipelineGap;
    } else {
      c := FirstComponent(Active(items, t));
    }
  }

  /** The totals fill the windows: they add up to the measure of all dispatch windows. */
  lemma {:induction false} TotalsSum(items: seq<Item>, ws: seq<Span>, total: map<Component, int>)
    requires Canonical(ws) && forall c :: At(total, c) == |WindowShare(items, ws, c)|
    ensures SumValues(total) == |Covered(ws)|
  {
    var share := c => WindowShare(items, ws, c);
    forall t | t in Covered(ws)
      ensures exists c :: c in total && t in share(c)
    {
      var w :| w in ws && Holds(w, t);
      var c := SomeChosen(items, w.lo, w.hi, t);
      WindowShareAt(items, ws, c, w, t);
      SubsetSize({t}, WindowShare(items, ws, c));
      assert At(total, c) == |WindowShare(items, ws, c)|;
      assert t in share(c);
    }
    forall c, d | c != d
      ensures share(c) !! share(d)
    {
      WindowSharesApart(items, ws, c, d);
    }
    forall c | c in total
      ensures total[c] == |share(c)| && share(c) <= Covered(ws)
    {
      assert At(total, c) == |WindowShare(items, ws, c)|;
    }
    PartitionSum(total, share, Covered(ws));
  }

  lemma WindowSharesApart(items: seq<Item>, ws: seq<Span>, c: Component, d: Component)
    requires Canonical(ws) && c != d
    ensures WindowShare(items, ws, c) !! WindowShare(items, ws, d)
  {
    forall t | t in WindowShare(items, ws, c)
      ensures t !in WindowShare(items, ws, d)
    {
      var w :| w in ws && Holds(w, t);
      WindowShareAt(items, ws, c, w, t);
      WindowShareAt(items, ws, d, w, t);
      ChosenOnce(items, w.lo, w.hi, t, c, d);
    }
  }

  lemma ChosenOnce(items: seq<Item>, lo: int, hi: int, t: int, c: Component, d: Component)
    requires c != d && Chosen(items, lo, hi, t, c)
    ensures !Chosen(items, lo, hi, t, d)
  {
    if Meets(items, lo, hi) && Top(items, t, d) {
      TopUnique(items, t, c, d);
    }
  }

  /** The totals of the keys in `todo` that count as compute. */
  ghost function ComputeOnly(total: map<Component, int>, todo: set<Component>): map<Component, int> {
    map c | c in total && c in todo && c != PpGap && c != PipelineGap :: total[c]
  }

  lemma ComputeOnlyStep(total: map<Component, int>, todo: set<Component>, c: Component)
    requires c in todo && c in total
    ensures SumValues(ComputeOnly(total, todo))
         == SumValues(ComputeOnly(total, todo - {c})) + if c != PpGap && c != PipelineGap then total[c] else 0
  {
    SumValuesRemove(ComputeOnly(total, todo), c);
    assert ComputeOnly(total, todo) - {c} == ComputeOnly(total, todo - {c});
  }

  lemma ComputeRest(total: map<Component, int>)
    ensures ComputeOnly(total, total.Keys) == total - {PpGap, PipelineGap}
  {
  }

  lemma {:induction false} ComputeOnlyAll(total: map<Component, int>)
    ensures SumValues(ComputeOnly(total, total.Keys)) + At(total, PpGap) + At(total, PipelineGap) == SumValues(total)
  {
    ComputeRest(total);
    SumValuesRemoveTwo(total, PpGap, PipelineGap);
  }

  /** `sum(val for key, val in ... if key not in ("pp_gap", "pipeline_gap"))`. */
  method SumCompute(total: map<Component, int>) returns (n: int)
    ensures n + At(total, PpGap) + At(total, PipelineGap) == SumValues(total)
  {
    n := 0;
    var todo := total.Keys;
    ComputeOnlyAll(total);
    while |todo| > 0
      invariant todo <= total.Keys
      invariant n + SumValues(ComputeOnly(total, todo)) == SumValues(ComputeOnly(total, total.Keys))
    {
      var c := Pick(todo);
      ComputeOnlyStep(total, todo, c);
      todo := todo - {c};
      if c != PpGap && c != PipelineGap {
        n := n + total[c];
      }
    }
    SumValuesZero(ComputeOnly(total, todo));
  }

  // ------------------------------------------------------ the whole breakdown

  datatype Report = Report(
    rows: seq<Row>,
    windows: seq<Span>,
    wall: map<Component, int>,
    totalComputeNs: int,
    totalPpGapNs: int,
    totalUnattributedNs: int,
    totalWallNs: int,
    totalOverlapNs: int)

  predicate Usable(d: Dispatch) {
    0 < d.span.lo < d.span.hi
  }

  function DispatchKey(d: Dispatch): Key {
    SpanKey(d.span)
  }

  /** The dispatches that get a row. */
  function Kept(ds: seq<Dispatch>): (r: seq<Dispatch>)
    ensures forall d :: d in r <==> d in ds && Usable(d)
  {
    if ds == [] then []
    else
      var n := |ds| - 1;
      assert forall d :: d in ds <==> d in ds[..n] || d == ds[n];
      Kept(ds[..n]) + if Usable(ds[n]) then [ds[n]] else []
  }

  function DispatchSpans(ds: seq<Dispatch>): (r: seq<Span>)
    ensures |r| == |ds| && forall i :: 0 <= i < |r| ==> r[i] == ds[i].span
  {
    seq(|ds|, i requires 0 <= i < |ds| => ds[i].span)
  }

  ghost function Flat(parts: seq<seq<Item>>): seq<Item> {
    if parts == [] then [] else Flat(parts[..|parts| - 1]) + parts[|parts| - 1]
  }

  function AllGaps(rows: seq<Row>): seq<Span> {
    if rows == [] then [] else AllGaps(rows[..|rows| - 1]) + GapSpans(rows[|rows| - 1].gaps)
  }

  /** The compute time of all groups of all rows. */
  ghost function SumRowCompute(rows: seq<Row>): int {
    if rows == [] then 0 else SumRowCompute(rows[..|rows| - 1]) + SumValues(rows[|rows| - 1].compute)
  }

  function SumRowGaps(rows: seq<Row>): int {
    if rows == [] then 0 else SumRowGaps(rows[..|rows| - 1]) + rows[|rows| - 1].ppGapNs
  }

  function SumRawGaps(rows: seq<Row>): int {
    if rows == [] then 0 else SumRawGaps(rows[..|rows| - 1]) + rows[|rows| - 1].rawPpGapNs
  }

  /** Row `i` is the row of dispatch `i`, built from the items `parts[i]`. */
  ghost predicate RowsRight(ds: seq<Dispatch>, logs: seq<PhaseLog>, steps: seq<Work>, rows: seq<Row>,
                            parts: seq<seq<Item>>) {
    && |rows| == |parts| == |ds|
    && forall i :: 0 <= i < |ds| ==> RowRight(ds[i], logs, steps, rows[i], parts[i])
  }

  lemma {:induction false} FlatActive(parts: seq<seq<Item>>, t: int, c: Component)
    ensures c in Active(Flat(parts), t) <==> exists i :: 0 <= i < |parts| && c in Active(parts[i], t)
  {
    if parts != [] {
      var n := |parts| - 1;
      FlatActive(parts[..n], t, c);
      ActiveSplit(Flat(parts[..n]), parts[n], t);
      if c in Active(Flat(parts[..n]), t) {
        var i :| 0 <= i < n && c in Active(parts[..n][i], t);
        assert c in Active(parts[i], t);
      }
      if i :| 0 <= i < |parts| && c in Active(parts[i], t) {
        assert i < n ==> c in Active(parts[..n][i], t);
      }
    }
  }

  lemma {:induction false} AllGapsCovered(rows: seq<Row>, t: int)
    ensures t in Covered(AllGaps(rows)) <==> exists i :: 0 <= i < |rows| && t in Covered(GapSpans(rows[i].gaps))
  {
    if rows == [] {
      assert Covered(AllGaps(rows)) == {};
    } else {
      var n := |rows| - 1;
      AllGapsCovered(rows[..n], t);
      CoveredSplit(AllGaps(rows[..n]), GapSpans(rows[n].gaps));
      if i :| 0 <= i < n && t in Covered(GapSpans(rows[..n][i].gaps)) {
        assert t in Covered(GapSpans(rows[i].gaps));
      }
      if i :| 0 <= i < |rows| && t in Covered(GapSpans(rows[i].gaps)) {
        assert i < n ==> t in Covered(GapSpans(rows[..n][i].gaps));
      }
    }
  }

  /** In every row the gap total is the measure of its gaps, which raw sums can only exceed. */
  ghost predicate RowTotals(rows: seq<Row>) {
    forall row :: row in rows ==>
      && row.ppGapNs == |Covered(GapSpans(row.gaps))| <= row.rawPpGapNs
      && SumValues(row.wall.wall) == Length(row.dispatch.span)
  }

  lemma RowsTotals(ds: seq<Dispatch>, logs: seq<PhaseLog>, steps: seq<Work>, rows: seq<Row>, parts: seq<seq<Item>>)
    requires RowsRight(ds, logs, steps, rows, parts) && forall d :: d in ds ==> Usable(d)
    ensures RowTotals(rows)
  {
    forall i | 0 <= i < |rows|
      ensures rows[i].ppGapNs == |Covered(GapSpans(rows[i].gaps))| <= rows[i].rawPpGapNs
      ensures SumValues(rows[i].wall.wall) == Length(rows[i].dispatch.span)
    {
      assert ds[i] in ds;
      RowExact(ds[i], logs, steps, rows[i], parts[i]);
    }
  }

  /** The request's gap total is at most the sum over rows, which is at most the raw sum over edges. */
  lemma {:induction false} GapTotalsOrdered(rows: seq<Row>)
    requires RowTotals(rows)
    ensures |Covered(AllGaps(rows))| <= SumRowGaps(rows) <= SumRawGaps(rows)
  {
    if rows == [] {
      assert Covered(AllGaps(rows)) == {};
    } else {
      var n := |rows| - 1;
      GapTotalsOrdered(rows[..n]);
      assert rows[n] in rows;
      CoveredSplit(AllGaps(rows[..n]), GapSpans(rows[n].gaps));
      UnionSize(Covered(AllGaps(rows[..n])), Covered(GapSpans(rows[n].gaps)));
    }
  }

  /** At an instant of dispatch `i`'s row, the pipeline gap is active there iff a gap of the row holds it. */
  lemma RowGapActive(d: Dispatch, logs: seq<PhaseLog>, steps: seq<Work>, row: Row, items: seq<Item>, t: int)
    requires RowRight(d, logs, steps, row, items)
    ensures PpGap in Active(items, t) <==> t in Covered(GapSpans(row.gaps))
    ensures t in Covered(GapSpans(row.gaps)) ==> Holds(d.span, t)
  {
    GapsWithin(d, steps, row.stages, row.gaps);
    NoPhasePpGap(d.key, logs, t);
  }

  lemma {:induction false} GapShare(ds: seq<Dispatch>, logs: seq<PhaseLog>, steps: seq<Work>, rows: seq<Row>,
                                    parts: seq<seq<Item>>, ws: seq<Span>)
    requires RowsRight(ds, logs, steps, rows, parts)
    requires Canonical(ws) && Covered(ws) == Covered(DispatchSpans(ds))
    ensures WindowShare(Flat(parts), ws, PpGap) == Covered(AllGaps(rows))
  {
    var items := Flat(parts);
    forall t
      ensures t in WindowShare(items, ws, PpGap) <==> t in Covered(AllGaps(rows))
    {
      AllGapsCovered(rows, t);
      FlatActive(parts, t, PpGap);
      forall i | 0 <= i < |rows|
        ensures PpGap in Active(parts[i], t) <==> t in Covered(GapSpans(rows[i].gaps))
        ensures t in Covered(GapSpans(rows[i].gaps)) ==> t in Covered(ws)
      {
        RowGapActive(ds[i], logs, steps, rows[i], parts[i], t);
        assert DispatchSpans(ds)[i] in DispatchSpans(ds);
      }
      if t in Covered(ws) {
        var w :| w in ws && Holds(w, t);
        WindowShareAt(items, ws, PpGap, w, t);
        PpGapShare(items, w.lo, w.hi, t);
      } else {
        SharesInside(items, ws, PpGap);
      }
    }
  }

  // ------------------------------------- what the totals say, instant by instant

  /** `t` lies between two neighbouring stages of dispatch `d`. */
  ghost predicate InPpGap(d: Dispatch, steps: seq<Work>, t: int) {
    exists ws, g :: StageWindows(d.key, d.span, steps, ws) && IsGap(ws, g) && Holds(g.span, t)
  }

  /** What dispatch `d` does at instant `t`. */
  ghost function WorkOf(d: Dispatch, logs: seq<PhaseLog>, steps: seq<Work>, t: int): set<Component> {
    if !Holds(d.span, t) then {} else Computing(d.key, logs, t) + if InPpGap(d, steps, t) then {PpGap} else {}
  }

  /** What the request does at instant `t`. */
  ghost function Working(ds: seq<Dispatch>, logs: seq<PhaseLog>, steps: seq<Work>, t: int): set<Component> {
    set d, c | d in ds && c in WorkOf(d, logs, steps, t) :: c
  }

  ghost predicate Busy(ds: seq<Dispatch>, logs: seq<PhaseLog>, steps: seq<Work>, w: Span) {
    exists t :: Holds(w, t) && Working(ds, logs, steps, t) != {}
  }

  /** The component of instant `t` of the merged dispatch window `w`: the most important work at
      `t`, the pipeline gap when there is none, or other compute when nothing was logged in `w`. */
  ghost predicate BelongsTo(ds: seq<Dispatch>, logs: seq<PhaseLog>, steps: seq<Work>, w: Span, t: int, c: Component) {
    if Busy(ds, logs, steps, w) then Gets(Working(ds, logs, steps, t), c) else c == OtherCompute
  }

  /** The instants of component `c`. */
  ghost function TimeOf(ds: seq<Dispatch>, logs: seq<PhaseLog>, steps: seq<Work>, ws: seq<Span>,
                        c: Component): set<int> {
    set w, t | w in ws && w.lo <= t < w.hi && Holds(w, t) && BelongsTo(ds, logs, steps, w, t, c) :: t
  }

  lemma HullUnique(v: Span, w: Span, s: set<int>)
    requires IsHull(v, s) && IsHull(w, s)
    ensures v == w
  {
  }

  lemma GapTimeIs(d: Dispatch, steps: seq<Work>, stages: map<Stage, Span>, gaps: seq<Gap>, t: int)
    requires StageWindows(d.key, d.span, steps, stages) && forall g :: g in gaps <==> IsGap(stages, g)
    ensures t in Covered(GapSpans(gaps)) <==> InPpGap(d, steps, t)
  {
    GapSpansCover(gaps, t);
    if InPpGap(d, steps, t) {
      var ws, g :| StageWindows(d.key, d.span, steps, ws) && IsGap(ws, g) && Holds(g.span, t);
      StagesUnique(d, steps, ws, stages);
      assert g in gaps;
    }
  }

  lemma StagesUnique(d: Dispatch, steps: seq<Work>, v: map<Stage, Span>, w: map<Stage, Span>)
    requires StageWindows(d.key, d.span, steps, v) && StageWindows(d.key, d.span, steps, w)
    ensures v == w
  {
    forall st
      ensures st in v <==> st in w
      ensures st in v ==> v[st] == w[st]
    {
      var s := GroupTime(MatchedSteps(d.key, steps), d.span, st);
      if st in v && st in w {
        HullUnique(v[st], w[st], s);
      }
    }
  }

  lemma ActiveIsWork(d: Dispatch, logs: seq<PhaseLog>, steps: seq<Work>, row: Row, items: seq<Item>, t: int)
    requires RowRight(d, logs, steps, row, items)
    ensures Active(items, t) == WorkOf(d, logs, steps, t)
  {
    GapTimeIs(d, steps, row.stages, row.gaps, t);
  }

  lemma {:induction false} FlatIsWorking(ds: seq<Dispatch>, logs: seq<PhaseLog>, steps: seq<Work>, rows: seq<Row>,
                                         parts: seq<seq<Item>>, t: int)
    requires RowsRight(ds, logs, steps, rows, parts)
    ensures Active(Flat(parts), t) == Working(ds, logs, steps, t)
  {
    forall c
      ensures c in Active(Flat(parts), t) <==> c in Working(ds, logs, steps, t)
    {
      FlatActive(parts, t, c);
      forall i | 0 <= i < |ds|
        ensures Active(parts[i], t) == WorkOf(ds[i], logs, steps, t)
      {
        ActiveIsWork(ds[i], logs, steps, rows[i], parts[i], t);
      }
      if c in Working(ds, logs, steps, t) {
        var i :| 0 <= i < |ds| && c in WorkOf(ds[i], logs, steps, t);
        assert c in Active(parts[i], t);
      }
      if i :| 0 <= i < |parts| && c in Active(parts[i], t) {
        assert ds[i] in ds;
      }
    }
  }

  lemma {:induction false} ShareIsTime(ds: seq<Dispatch>, logs: seq<PhaseLog>, steps: seq<Work>, rows: seq<Row>,
                                       parts: seq<seq<Item>>, ws: seq<Span>, c: Component)
    requires RowsRight(ds, logs, steps, rows, parts)
    ensures WindowShare(Flat(parts), ws, c) == TimeOf(ds, logs, steps, ws, c)
  {
    var items := Flat(parts);
    forall t
      ensures Active(items, t) == Working(ds, logs, steps, t)
    {
      FlatIsWorking(ds, logs, steps, rows, parts, t);
    }
    forall w, t | w in ws && Holds(w, t)
      ensures Chosen(items, w.lo, w.hi, t, c) <==> BelongsTo(ds, logs, steps, w, t, c)
    {
      assert Meets(items, w.lo, w.hi) <==> Busy(ds, logs, steps, w);
      FirstGets(Working(ds, logs, steps, t), c);
    }
  }

  lemma {:induction false} FlatItems(ds: seq<Dispatch>, logs: seq<PhaseLog>, steps: seq<Work>, rows: seq<Row>,
                                     parts: seq<seq<Item>>)
    requires RowsRight(ds, logs, steps, rows, parts)
    ensures forall x :: x in Flat(parts) ==> Stamped(x.span) && NS_FLOOR < x.span.lo && ReportedComponent(x.component)
  {
    if parts != [] {
      var n := |parts| - 1;
      FlatItems(ds[..n], logs, steps, rows[..n], parts[..n]);
      assert RowRight(ds[n], logs, steps, rows[n], parts[n]);
      forall x | x in parts[n]
        ensures Stamped(x.span) && NS_FLOOR < x.span.lo && ReportedComponent(x.component)
      {
        RowComponents(ds[n], logs, rows[n].gaps, parts[n], x);
      }
    }
  }

  /** The components a breakdown can report besides the pipeline gap. */
  predicate ReportedComponent(c: Component) {
    c in {PpGap, ModelForward, Sampling, Postprocess, BookkeepingSync, WorkerPreprocess, OtherCompute}
  }

  lemma RowComponents(d: Dispatch, logs: seq<PhaseLog>, gaps: seq<Gap>, items: seq<Item>, x: Item)
    requires RowItems(d, logs, gaps, items) && x in items
    ensures Stamped(x.span) && NS_FLOOR < x.span.lo && ReportedComponent(x.component)
  {
    assert Holds(d.span, x.span.lo) && Holds(x.span, x.span.lo);
    assert x.component in Active(items, x.span.lo);
    if x.component != PpGap {
      assert x.component in Computing(d.key, logs, x.span.lo);
    }
  }

  lemma OnlyReported(items: seq<Item>, ws: seq<Span>, total: map<Component, int>, c: Component)
    requires forall x :: x in items ==> ReportedComponent(x.component)
    requires At(total, c) == |WindowShare(items, ws, c)| && At(total, c) != 0
    ensures ReportedComponent(c) || c == PipelineGap
  {
    var t := One(WindowShare(items, ws, c));
    var w :| w in ws && Holds(w, t) && Chosen(items, w.lo, w.hi, t, c);
  }

  lemma {:induction false} RowsAppend(ds: seq<Dispatch>, logs: seq<PhaseLog>, steps: seq<Work>, rows: seq<Row>,
                                      parts: seq<seq<Item>>, d: Dispatch, row: Row, items: seq<Item>)
    requires RowsRight(ds, logs, steps, rows, parts) && RowRight(d, logs, steps, row, items)
    ensures RowsRight(ds + [d], logs, steps, rows + [row], parts + [items])
    ensures Flat(parts + [items]) == Flat(parts) + items
    ensures DispatchSpans(ds + [d]) == DispatchSpans(ds) + [d.span]
  {
    assert (parts + [items])[..|parts|] == parts;
  }

  method BuildRows(dispatches: seq<Dispatch>, logs: seq<PhaseLog>, steps: seq<Work>)
    returns (rows: seq<Row>, items: seq<Item>, spans: seq<Span>, ghost parts: seq<seq<Item>>)
    requires forall d :: d in dispatches ==> Stamped(d.span)
    requires LogsStamped(logs) && WorksStamped(steps)
    ensures var kept := Kept(SortBy(dispatches, DispatchKey));
      RowsRight(kept, logs, steps, rows, parts) && spans == DispatchSpans(kept)
    ensures items == Flat(parts)
  {
    rows, items, spans, parts := [], [], [], [];
    var ordered := SortBy(dispatches, DispatchKey);
    SameElements(dispatches, DispatchKey);
    ghost var kept := [];
    for i := 0 to |ordered|
      invariant kept == Kept(ordered[..i])
      invariant RowsRight(kept, logs, steps, rows, parts)
      invariant items == Flat(parts) && spans == DispatchSpans(kept)
    {
      var d := ordered[i];
      KeptNext(ordered, i);
      assert d in ordered;
      if Usable(d) {
        var row, rowItems := BuildRow(d, logs, steps);
        RowsAppend(kept, logs, steps, rows, parts, d, row, rowItems);
        rows := rows + [row];
        items := items + rowItems;
        spans := spans + [d.span];
        parts := parts + [rowItems];
        kept := kept + [d];
      }
    }
    assert ordered[..|ordered|] == ordered;
  }

  lemma KeptNext(ordered: seq<Dispatch>, i: nat)
    requires i < |ordered|
    ensures Kept(ordered[..i + 1])
      == if Usable(ordered[i]) then Kept(ordered[..i]) + [ordered[i]] else Kept(ordered[..i])
  {
    assert ordered[..i + 1][..i] == ordered[..i];
  }

  /** The kept dispatches in start order. */
  function Rows(dispatches: seq<Dispatch>): seq<Dispatch> {
    Kept(SortBy(dispatches, DispatchKey))
  }

  lemma {:induction false} KeptWithKey(ds: seq<Dispatch>, s: Span, k: Key)
    requires k == SpanKey(s)
    ensures WithKey(Kept(ds), DispatchKey, k) == if 0 < s.lo < s.hi then WithKey(ds, DispatchKey, k) else []
  {
    if ds != [] {
      var front, d := ds[..|ds| - 1], ds[|ds| - 1];
      assert ds == front + [d];
      KeptWithKey(front, s, k);
      WithKeyLast(front, d, DispatchKey, k);
      SpanOrder(d.span, s);
      var mine := if DispatchKey(d) == k then [d] else [];
      assert WithKey(ds, DispatchKey, k) == WithKey(front, DispatchKey, k) + mine;
      if Usable(d) {
        WithKeyLast(Kept(front), d, DispatchKey, k);
        assert Kept(ds) == Kept(front) + [d];
        assert WithKey(Kept(ds), DispatchKey, k) == WithKey(Kept(front), DispatchKey, k) + mine;
        assert mine != [] ==> d.span == s;
      } else {
        assert Kept(ds) == Kept(front);
        assert mine != [] ==> d.span == s;
      }
    }
  }

  /** A breakdown has a row for every dispatch with a positive start before its end, ordered by start and then by end,
      and in the given order where both are the same. */
  lemma {:induction false} RowsAre(ds: seq<Dispatch>, s: Span)
    ensures forall i, j :: 0 <= i < j < |Rows(ds)| ==>
      var a, b := Rows(ds)[i].span, Rows(ds)[j].span;
      a.lo < b.lo || (a.lo == b.lo && a.hi <= b.hi)
    ensures WithKey(Rows(ds), DispatchKey, SpanKey(s))
      == if 0 < s.lo < s.hi then WithKey(ds, DispatchKey, SpanKey(s)) else []
  {
    var ordered := SortBy(ds, DispatchKey);
    KeptWithKey(ordered, s, SpanKey(s));
    Stable(ds, DispatchKey, SpanKey(s));
    KeptSorted(ordered);
    forall i, j | 0 <= i < j < |Rows(ds)|
      ensures var a, b := Rows(ds)[i].span, Rows(ds)[j].span;
        a.lo < b.lo || (a.lo == b.lo && a.hi <= b.hi)
    {
      assert LE(DispatchKey(Rows(ds)[i]), DispatchKey(Rows(ds)[j]));
      SpanOrder(Rows(ds)[i].span, Rows(ds)[j].span);
    }
  }

  lemma {:induction false} KeptSorted(ds: seq<Dispatch>)
    requires SortedBy(ds, DispatchKey)
    ensures SortedBy(Kept(ds), DispatchKey)
  {
    if ds != [] {
      var n := |ds| - 1;
      KeptSorted(ds[..n]);
      forall i | 0 <= i < |Kept(ds[..n])|
        ensures LE(DispatchKey(Kept(ds[..n])[i]), DispatchKey(ds[n]))
      {
        var d := Kept(ds[..n])[i];
        assert d in Kept(ds[..n]);
        var k :| 0 <= k < n && ds[k] == d;
      }
    }
  }

  /** The rows of a report, each for its own dispatch. */
  ghost predicate RowsFor(ds: seq<Dispatch>, logs: seq<PhaseLog>, steps: seq<Work>, rows: seq<Row>) {
    exists parts :: RowsRight(ds, logs, steps, rows, parts)
  }

  /** `build_pp_gap_dispatch_breakdown`. */
  method BuildBreakdown(dispatches: seq<Dispatch>, logs: seq<PhaseLog>, steps: seq<Work>) returns (b: Report)
    requires forall d :: d in dispatches ==> Stamped(d.span)
    requires LogsStamped(logs) && WorksStamped(steps)
    ensures RowsFor(Rows(dispatches), logs, steps, b.rows)
    ensures Canonical(b.windows) && Covered(b.windows) == Covered(DispatchSpans(Kept(dispatches)))
    ensures forall c :: At(b.wall, c) == |TimeOf(Rows(dispatches), logs, steps, b.windows, c)|
    ensures forall c :: At(b.wall, c) != 0 ==> ReportedComponent(c) || c == PipelineGap
    ensures b.totalWallNs == SumValues(b.wall) == |Covered(DispatchSpans(Kept(dispatches)))|
    ensures b.totalComputeNs + b.totalPpGapNs + b.totalUnattributedNs == b.totalWallNs
    ensures b.totalPpGapNs == At(b.wall, PpGap) && b.totalUnattributedNs == At(b.wall, PipelineGap)
    ensures RowTotals(b.rows)
    ensures b.totalPpGapNs == |Covered(AllGaps(b.rows))| <= SumRowGaps(b.rows) <= SumRawGaps(b.rows)
    ensures b.totalOverlapNs == SumRowCompute(b.rows) + SumRawGaps(b.rows) - |WorkTime(Rows(dispatches), logs, steps)|
  {
    var rows, items, spans;
    ghost var parts;
    rows, items, spans, parts := BuildRows(dispatches, logs, steps);
    ghost var kept := Rows(dispatches);
    FlatItems(kept, logs, steps, rows, parts);
    var windows := MergeIntervals(spans);
    SameWindows(dispatches);
    WindowsStamped(dispatches, windows);
    var wall, overlap := AttributeWindows(items, windows);
    ItemsInWindows(kept, logs, steps, rows, parts, windows);
    HiddenTime(SpansOf(items), windows);
    FlatLengths(kept, logs, steps, rows, parts);
    FlatCovers(kept, logs, steps, rows, parts);
    var compute := SumCompute(wall);
    TotalsSum(items, windows, wall);
    GapShare(kept, logs, steps, rows, parts, windows);
    RowsTotals(kept, logs, steps, rows, parts);
    GapTotalsOrdered(rows);
    WallIsTime(kept, logs, steps, rows, parts, windows, wall);
    b := Report(rows, windows, wall, compute, At(wall, PpGap), At(wall, PipelineGap), SumLengths(windows), overlap);
  }

  /** The instants at which the request does something, inside its dispatches. */
  ghost function WorkTime(ds: seq<Dispatch>, logs: seq<PhaseLog>, steps: seq<Work>): set<int> {
    set d, t | d in ds && d.span.lo <= t < d.span.hi && Working(ds, logs, steps, t) != {} :: t
  }

  /** The component intervals of all rows: their total length, and the time that they cover. */
  lemma {:induction false} FlatLengths(ds: seq<Dispatch>, logs: seq<PhaseLog>, steps: seq<Work>, rows: seq<Row>,
                                       parts: seq<seq<Item>>)
    requires RowsRight(ds, logs, steps, rows, parts)
    ensures SumLengths(SpansOf(Flat(parts))) == SumRowCompute(rows) + SumRawGaps(rows)
  {
    if parts != [] {
      var n := |parts| - 1;
      FlatLengths(ds[..n], logs, steps, rows[..n], parts[..n]);
      RowLength(ds[n], logs, steps, rows[n], parts[n]);
      LengthsJoin(Flat(parts[..n]), parts[n]);
    }
  }

  lemma RowLength(d: Dispatch, logs: seq<PhaseLog>, steps: seq<Work>, row: Row, items: seq<Item>)
    requires RowRight(d, logs, steps, row, items)
    ensures SumLengths(SpansOf(items)) == SumValues(row.compute) + row.rawPpGapNs
  {
  }

  lemma LengthsJoin(a: seq<Item>, b: seq<Item>)
    ensures SumLengths(SpansOf(a + b)) == SumLengths(SpansOf(a)) + SumLengths(SpansOf(b))
  {
    assert SpansOf(a + b) == SpansOf(a) + SpansOf(b);
    SumLengthsSplit(SpansOf(a), SpansOf(b));
  }

  lemma {:induction false} FlatCovers(ds: seq<Dispatch>, logs: seq<PhaseLog>, steps: seq<Work>, rows: seq<Row>,
                                      parts: seq<seq<Item>>)
    requires RowsRight(ds, logs, steps, rows, parts)
    ensures Covered(SpansOf(Flat(parts))) == WorkTime(ds, logs, steps)
  {
    var xs := SpansOf(Flat(parts));
    FlatItems(ds, logs, steps, rows, parts);
    ItemsInWindows(ds, logs, steps, rows, parts, DispatchSpans(ds));
    forall t
      ensures t in Covered(xs) <==> t in WorkTime(ds, logs, steps)
    {
      ActiveIsCovered(Flat(parts), t);
      FlatIsWorking(ds, logs, steps, rows, parts, t);
      if t in Covered(xs) {
        var i :| 0 <= i < |ds| && Holds(DispatchSpans(ds)[i], t);
        assert ds[i] in ds;
      }
    }
  }

  lemma {:induction false} ItemsInWindows(ds: seq<Dispatch>, logs: seq<PhaseLog>, steps: seq<Work>, rows: seq<Row>,
                                          parts: seq<seq<Item>>, ws: seq<Span>)
    requires RowsRight(ds, logs, steps, rows, parts) && Covered(DispatchSpans(ds)) <= Covered(ws)
    ensures AllStamped(SpansOf(Flat(parts))) && Recordable(SpansOf(Flat(parts)))
    ensures Covered(SpansOf(Flat(parts))) <= Covered(ws)
  {
    var items := Flat(parts);
    var xs := SpansOf(items);
    forall x | x in xs
      ensures Stamped(x) && NS_FLOOR < x.lo < x.hi
      ensures Instants(x.lo, x.hi) <= Covered(ws)
    {
      var k :| 0 <= k < |xs| && xs[k] == x;
      var i := FlatSource(parts, items[k]);
      assert RowRight(ds[i], logs, steps, rows[i], parts[i]);
      ItemInRow(ds[i], logs, rows[i].gaps, parts[i], items[k]);
      assert DispatchSpans(ds)[i] in DispatchSpans(ds);
      assert forall t :: Holds(x, t) ==> Holds(ds[i].span, t);
    }
  }

  lemma FlatSource(parts: seq<seq<Item>>, x: Item) returns (i: nat)
    requires x in Flat(parts)
    ensures i < |parts| && x in parts[i]
  {
    i := |parts| - 1;
    if x !in parts[i] {
      i := FlatSource(parts[..i], x);
    }
  }

  lemma ItemInRow(d: Dispatch, logs: seq<PhaseLog>, gaps: seq<Gap>, items: seq<Item>, x: Item)
    requires RowItems(d, logs, gaps, items) && x in items
    ensures NS_FLOOR < x.span.lo && d.span.lo <= x.span.lo < x.span.hi <= d.span.hi
  {
  }

  lemma {:induction false} WallIsTime(ds: seq<Dispatch>, logs: seq<PhaseLog>, steps: seq<Work>, rows: seq<Row>,
                                      parts: seq<seq<Item>>, ws: seq<Span>, wall: map<Component, int>)
    requires RowsRight(ds, logs, steps, rows, parts)
    requires forall c :: At(wall, c) == |WindowShare(Flat(parts), ws, c)|
    ensures forall c :: At(wall, c) == |TimeOf(ds, logs, steps, ws, c)|
    ensures forall c :: At(wall, c) != 0 ==> ReportedComponent(c) || c == PipelineGap
  {
    FlatItems(ds, logs, steps, rows, parts);
    forall c
      ensures At(wall, c) == |TimeOf(ds, logs, steps, ws, c)|
      ensures At(wall, c) != 0 ==> ReportedComponent(c) || c == PipelineGap
    {
      ShareIsTime(ds, logs, steps, rows, parts, ws, c);
      if At(wall, c) != 0 {
        OnlyReported(Flat(parts), ws, wall, c);
      }
    }
  }

  /** A report on the dispatches `ds`: its rows, and its pipeline gap as the measure of theirs. */
  ghost predicate ReportFor(ds: seq<Dispatch>, logs: seq<PhaseLog>, steps: seq<Work>, b: Report) {
    RowsFor(Rows(ds), logs, steps, b.rows) && b.totalPpGapNs == |Covered(AllGaps(b.rows))|
  }

  /** The gaps of a report lie where its dispatches do. */
  lemma ReportGaps(ds: seq<Dispatch>, logs: seq<PhaseLog>, steps: seq<Work>, b: Report, lo: int, hi: int)
    requires ReportFor(ds, logs, steps, b)
    requires forall d :: d in ds ==> Stamped(d.span) && lo <= d.span.lo && d.span.hi <= hi
    ensures Covered(AllGaps(b.rows)) <= Instants(lo, hi)
    ensures forall s :: s in AllGaps(b.rows) ==> NS_FLOOR < s.lo < s.hi
  {
    SameElements(ds, DispatchKey);
    RowsGapsStamped(Rows(ds), logs, steps, b.rows);
    RowsGapsInside(Rows(ds), logs, steps, b.rows, lo, hi);
  }

  lemma {:induction false} RowsGapsInside(ds: seq<Dispatch>, logs: seq<PhaseLog>, steps: seq<Work>, rows: seq<Row>,
                                          lo: int, hi: int)
    requires RowsFor(ds, logs, steps, rows) && forall d :: d in ds ==> lo <= d.span.lo && d.span.hi <= hi
    ensures Covered(AllGaps(rows)) <= Instants(lo, hi)
  {
    var parts :| RowsRight(ds, logs, steps, rows, parts);
    forall i | 0 <= i < |rows|
      ensures GapsIn(rows[i], lo, hi)
    {
      assert ds[i] in ds;
      RowGapsInside(ds[i], logs, steps, rows[i], parts[i], lo, hi);
    }
    AllGapsInside(rows, lo, hi);
  }

  ghost predicate GapsIn(row: Row, lo: int, hi: int) {
    Covered(GapSpans(row.gaps)) <= Instants(lo, hi)
  }

  lemma RowGapsInside(d: Dispatch, logs: seq<PhaseLog>, steps: seq<Work>, row: Row, items: seq<Item>, lo: int,
                      hi: int)
    requires RowRight(d, logs, steps, row, items) && lo <= d.span.lo && d.span.hi <= hi
    ensures GapsIn(row, lo, hi)
  {
    GapsWithin(d, steps, row.stages, row.gaps);
    assert Instants(d.span.lo, d.span.hi) <= Instants(lo, hi);
  }

  lemma {:induction false} AllGapsInside(rows: seq<Row>, lo: int, hi: int)
    requires forall i :: 0 <= i < |rows| ==> GapsIn(rows[i], lo, hi)
    ensures Covered(AllGaps(rows)) <= Instants(lo, hi)
  {
    if rows != [] {
      var n := |rows| - 1;
      AllGapsInside(rows[..n], lo, hi);
      assert GapsIn(rows[n], lo, hi);
      CoveredSplit(AllGaps(rows[..n]), GapSpans(rows[n].gaps));
    }
  }

  lemma {:induction false} AllGapsSnoc(a: seq<Row>, row: Row)
    ensures AllGaps(a + [row]) == AllGaps(a) + GapSpans(row.gaps)
  {
    assert (a + [row])[..|a|] == a;
  }

  lemma JoinsAlike(x: seq<Span>, y: seq<Span>, z: seq<Span>)
    ensures x + y + z == x + (y + z)
  {
  }

  lemma {:induction false} AllGapsJoin(a: seq<Row>, b: seq<Row>)
    ensures AllGaps(a + b) == AllGaps(a) + AllGaps(b)
  {
    if b == [] {
      assert a + b == a;
    } else {
      var front, last := b[..|b| - 1], b[|b| - 1];
      AllGapsJoin(a, front);
      AllGapsSnoc(a + front, last);
      AllGapsSnoc(front, last);
      assert front + [last] == b && a + front + [last] == a + b;
      JoinsAlike(AllGaps(a), AllGaps(front), GapSpans(last.gaps));
    }
  }

  /** `_request_pp_gap_wall_ns` over the rows of one breakdown: clip, merge, sum. */
  method PpGapWallNs(rows: seq<Row>) returns (n: int)
    requires forall s :: s in AllGaps(rows) ==> NS_FLOOR < s.lo < s.hi
    ensures n == |Covered(AllGaps(rows))|
  {
    var spans := ClipEach(AllGaps(rows), None, None);
    var merged := MergeIntervals(spans);
    n := SumLengths(merged);
    AllRecorded(AllGaps(rows));
  }

  ghost predicate GapsStamped(row: Row) {
    forall s :: s in GapSpans(row.gaps) ==> NS_FLOOR < s.lo < s.hi
  }

  lemma {:induction false} AllGapsStamped(rows: seq<Row>)
    requires forall row :: row in rows ==> GapsStamped(row)
    ensures forall s :: s in AllGaps(rows) ==> NS_FLOOR < s.lo < s.hi
  {
    if rows != [] {
      AllGapsStamped(rows[..|rows| - 1]);
      assert GapsStamped(rows[|rows| - 1]);
    }
  }

  /** The rows of a breakdown meet `PpGapWallNs`'s precondition. */
  lemma {:induction false} RowsGapsStamped(ds: seq<Dispatch>, logs: seq<PhaseLog>, steps: seq<Work>, rows: seq<Row>)
    requires RowsFor(ds, logs, steps, rows) && forall d :: d in ds ==> NS_FLOOR < d.span.lo
    ensures forall s :: s in AllGaps(rows) ==> NS_FLOOR < s.lo < s.hi
  {
    var parts :| RowsRight(ds, logs, steps, rows, parts);
    forall i | 0 <= i < |rows|
      ensures GapsStamped(rows[i])
    {
      assert ds[i] in ds;
      assert RowRight(ds[i], logs, steps, rows[i], parts[i]);
      RowGapsStamped(ds[i], steps, rows[i].stages, rows[i].gaps);
    }
    AllGapsStamped(rows);
  }

  lemma RowGapsStamped(d: Dispatch, steps: seq<Work>, stages: map<Stage, Span>, gaps: seq<Gap>)
    requires NS_FLOOR < d.span.lo && StageWindows(d.key, d.span, steps, stages)
    requires forall g :: g in gaps ==> IsGap(stages, g)
    ensures forall s :: s in GapSpans(gaps) ==> NS_FLOOR < s.lo < s.hi
  {
    forall s | s in GapSpans(gaps)
      ensures NS_FLOOR < s.lo < s.hi
    {
      var i :| 0 <= i < |gaps| && gaps[i].span == s;
      assert gaps[i] in gaps;
      GapsInside(d.key, d.span, steps, stages, gaps[i]);
    }
  }

  lemma {:induction false} SameWindows(dispatches: seq<Dispatch>)
    ensures Covered(DispatchSpans(Kept(SortBy(dispatches, DispatchKey)))) == Covered(DispatchSpans(Kept(dispatches)))
  {
    SameElements(dispatches, DispatchKey);
    var a, b := Kept(SortBy(dispatches, DispatchKey)), Kept(dispatches);
    assert forall d :: d in a <==> d in b;
    SpansIncluded(a, b);
    SpansIncluded(b, a);
  }

  lemma SpansIncluded(a: seq<Dispatch>, b: seq<Dispatch>)
    requires forall d :: d in a ==> d in b
    ensures Covered(DispatchSpans(a)) <= Covered(DispatchSpans(b))
  {
    forall s | s in DispatchSpans(a)
      ensures s in DispatchSpans(b)
    {
      var i :| 0 <= i < |a| && a[i].span == s;
      assert a[i] in a;
      var j :| 0 <= j < |b| && b[j] == a[i];
      assert DispatchSpans(b)[j] == s;
    }
  }

  lemma {:induction false} WindowsStamped(dispatches: seq<Dispatch>, windows: seq<Span>)
    requires forall d :: d in dispatches ==> Stamped(d.span)
    requires Canonical(windows) && Covered(windows) == Covered(DispatchSpans(Kept(dispatches)))
    ensures forall w :: w in windows ==> NS_FLOOR < w.lo
  {
    var spans := DispatchSpans(Kept(dispatches));
    forall s | s in spans
      ensures NS_FLOOR < s.lo < s.hi
    {
      var i :| 0 <= i < |spans| && spans[i] == s;
      assert Kept(dispatches)[i] in Kept(dispatches);
    }
    CanonicalStamped(windows, spans);
  }
}
