/** The sweep that gives every instant of a window to one wall-time component. */
module Sweep {
  import opened Sets
  import opened Spans
  import opened Sorting
  import opened Intervals

  /** Component names. `Unlisted(n)` is any other name, `n` being its place in string order. */
  datatype Component =
    | PpGap | ModelForward | Sampling | Postprocess | BookkeepingSync | WorkerPreprocess
    | OtherCompute | OtherExec | OtherPrefillExec | PipelineGap | Unlisted(name: nat)

  /** `_component_priority`: the number of the table, then the name. */
  function Priority(c: Component): Key {
    match c
    case PpGap => Key(0, 0, 0)
    case ModelForward => Key(10, 0, 0)
    case Sampling => Key(20, 0, 0)
    case Postprocess => Key(30, 0, 0)
    case BookkeepingSync => Key(40, 0, 0)
    case WorkerPreprocess => Key(50, 0, 0)
    case OtherCompute => Key(60, 0, 0)
    case OtherExec => Key(70, 0, 0)
    case OtherPrefillExec => Key(70, 1, 0)
    case Unlisted(n) => Key(80, n, 0)
    case PipelineGap => Key(100, 0, 0)
  }

  predicate Before(x: Component, y: Component) {
    LE(Priority(x), Priority(y))
  }

  datatype Item = Item(span: Span, component: Component)

  datatype Segment = Segment(lo: int, hi: int, component: Component, active: set<Component>)

  predicate ItemsStamped(items: seq<Item>) {
    forall x :: x in items ==> Stamped(x.span)
  }

  // ------------------------------------------------ what the sweep should say

  /** The components of the recorded items that hold instant `t`. */
  ghost function Active(items: seq<Item>, t: int): set<Component> {
    set x | x in items && 0 < x.span.lo && Holds(x.span, t) :: x.component
  }

  ghost predicate Meets(items: seq<Item>, lo: int, hi: int) {
    exists t :: lo <= t < hi && Active(items, t) != {}
  }

  /** `c` is the highest-priority component at `t`, or the pipeline gap when nothing is active. */
  ghost predicate Top(items: seq<Item>, t: int, c: Component) {
    IsFirst(Active(items, t), c)
  }

  ghost predicate IsFirst(active: set<Component>, c: Component) {
    if active == {} then c == PipelineGap else c in active && forall d :: d in active ==> Before(c, d)
  }

  /** The component instant `t` of the window belongs to. */
  ghost predicate Chosen(items: seq<Item>, lo: int, hi: int, t: int, c: Component) {
    if Meets(items, lo, hi) then Top(items, t, c) else c == OtherCompute
  }

  /** The instants of `[lo, hi)` whose top component is `c`. */
  ghost function TopShare(items: seq<Item>, lo: int, hi: int, c: Component): set<int> {
    set t | lo <= t < hi && Top(items, t, c)
  }

  /** The instants of the window that belong to `c`. */
  ghost function Share(items: seq<Item>, lo: int, hi: int, c: Component): set<int> {
    set t | lo <= t < hi && Chosen(items, lo, hi, t, c)
  }

  /** The segments cover `[lo, hi)` one after the other. */
  ghost predicate Tiles(segs: seq<Segment>, lo: int, hi: int) {
    && (forall i :: 0 <= i < |segs| ==> segs[i].lo < segs[i].hi)
    && (forall i :: 0 <= i < |segs| - 1 ==> segs[i].hi == segs[i + 1].lo)
    && (if segs == [] then lo == hi else segs[0].lo == lo && segs[|segs| - 1].hi == hi)
  }

  function At(wall: map<Component, int>, c: Component): int {
    ValueAt(wall, c)
  }

  function SpansOf(items: seq<Item>): (r: seq<Span>)
    ensures |r| == |items| && forall i :: 0 <= i < |r| ==> r[i] == items[i].span
  {
    seq(|items|, i requires 0 <= i < |items| => items[i].span)
  }

  lemma TopUnique(items: seq<Item>, t: int, c: Component, d: Component)
    requires Top(items, t, c) && Top(items, t, d)
    ensures c == d
  {
    if Active(items, t) != {} {
      assert Before(c, d) && Before(d, c);
    }
  }

  /** Which of the components active at an instant gets it, component by component. */
  ghost predicate Gets(active: set<Component>, c: Component) {
    match c
    case PpGap => PpGap in active
    case ModelForward => c in active && active !! {PpGap}
    case Sampling => c in active && active !! {PpGap, ModelForward}
    case Postprocess => c in active && active !! {PpGap, ModelForward, Sampling}
    case BookkeepingSync => c in active && active !! {PpGap, ModelForward, Sampling, Postprocess}
    case WorkerPreprocess => c in active && active !! {PpGap, ModelForward, Sampling, Postprocess, BookkeepingSync}
    case OtherCompute => c in active && active !! Phases()
    case OtherExec => c in active && active !! Phases() + {OtherCompute}
    case OtherPrefillExec => c in active && active !! Phases() + {OtherCompute, OtherExec}
    case Unlisted(n) =>
      && c in active && active !! Phases() + {OtherCompute, OtherExec, OtherPrefillExec}
      && forall m :: Unlisted(m) in active ==> n <= m
    case PipelineGap => active <= {PipelineGap}
  }

  /** The gap between stages and the phases of a worker. */
  ghost function Phases(): set<Component> {
    {PpGap, ModelForward, Sampling, Postprocess, BookkeepingSync, WorkerPreprocess}
  }

  lemma FirstGets(active: set<Component>, c: Component)
    ensures IsFirst(active, c) <==> Gets(active, c)
  {
    if !IsFirst(active, c) && active != {} && c in active {
      var d :| d in active && !Before(c, d);
    }
  }

  /** The instants of the window that `c` gets, from the items that hold them. */
  ghost function Won(items: seq<Item>, lo: int, hi: int, c: Component): set<int> {
    set t | lo <= t < hi && Holds(Span(lo, hi), t) && Gets(Active(items, t), c)
  }

  lemma ShareIsWon(items: seq<Item>, lo: int, hi: int, c: Component)
    requires Meets(items, lo, hi)
    ensures Share(items, lo, hi, c) == Won(items, lo, hi, c)
  {
    forall t | lo <= t < hi
      ensures t in Share(items, lo, hi, c) <==> t in Won(items, lo, hi, c)
    {
      FirstGets(Active(items, t), c);
    }
  }

  /** When something meets the window, every component's total is the time that it wins. */
  lemma WallIsWon(items: seq<Item>, lo: int, hi: int, w: Wall)
    requires Attributed(items, lo, hi, w) && Meets(items, lo, hi)
    ensures forall c :: At(w.wall, c) == |Won(items, lo, hi, c)|
  {
    forall c
      ensures At(w.wall, c) == |Won(items, lo, hi, c)|
    {
      ShareIsWon(items, lo, hi, c);
      assert At(w.wall, c) == |Share(items, lo, hi, c)|;
    }
  }

  // --------------------------------------------------------- clipped items

  ghost function ClipItems(items: seq<Item>, lo: int, hi: int): seq<Item>
    requires ItemsStamped(items)
  {
    if items == [] then []
    else
      var n := |items| - 1;
      var r := ClipInterval(items[n].span, Some(lo), Some(hi));
      ClipItems(items[..n], lo, hi) + if r.Some? then [Item(r.value, items[n].component)] else []
  }

  ghost predicate Inside(cl: seq<Item>, lo: int, hi: int) {
    forall x :: x in cl ==> 0 < x.span.lo && lo <= x.span.lo < x.span.hi <= hi
  }

  lemma {:induction false} ClipItemsActive(items: seq<Item>, lo: int, hi: int, t: int)
    requires ItemsStamped(items) && lo <= t < hi
    ensures Active(ClipItems(items, lo, hi), t) == Active(items, t)
  {
    if items != [] {
      var n := |items| - 1;
      ClipItemsActive(items[..n], lo, hi, t);
      ClipMeaning(items[n].span, Some(lo), Some(hi));
      var r := ClipInterval(items[n].span, Some(lo), Some(hi));
      var last := if r.Some? then [Item(r.value, items[n].component)] else [];
      assert items == items[..n] + [items[n]];
      ActiveSplit(items[..n], [items[n]], t);
      ActiveSplit(ClipItems(items[..n], lo, hi), last, t);
      assert Active(last, t) == Active([items[n]], t) by {
        assert items[n] in [items[n]];
        assert r.Some? ==> last[0] in last;
      }
    }
  }

  lemma ActiveSplit(xs: seq<Item>, ys: seq<Item>, t: int)
    ensures Active(xs + ys, t) == Active(xs, t) + Active(ys, t)
  {
  }

  lemma {:induction false} ClipItemsInside(items: seq<Item>, lo: int, hi: int)
    requires ItemsStamped(items)
    ensures Inside(ClipItems(items, lo, hi), lo, hi)
    ensures SpansOf(ClipItems(items, lo, hi)) == ClipAll(SpansOf(items), Some(lo), Some(hi))
  {
    if items != [] {
      var n := |items| - 1;
      ClipItemsInside(items[..n], lo, hi);
      assert SpansOf(items)[..n] == SpansOf(items[..n]);
      var r := ClipInterval(items[n].span, Some(lo), Some(hi));
      if r.Some? {
        SpansOfSnoc(ClipItems(items[..n], lo, hi), Item(r.value, items[n].component));
      }
    }
  }

  lemma SpansOfSnoc(items: seq<Item>, x: Item)
    ensures SpansOf(items + [x]) == SpansOf(items) + [x.span]
  {
  }

  // ------------------------------------------------ sums inside a sub-window

  function Overlap(s: Span, lo: int, hi: int): nat {
    Length(Span(Max(lo, s.lo), Min(hi, s.hi)))
  }

  ghost function SumWithin(xs: seq<Span>, lo: int, hi: int): nat {
    if xs == [] then 0 else SumWithin(xs[..|xs| - 1], lo, hi) + Overlap(xs[|xs| - 1], lo, hi)
  }

  lemma {:induction false} WithinSplit(xs: seq<Span>, lo: int, mid: int, hi: int)
    requires lo <= mid <= hi
    ensures SumWithin(xs, lo, hi) == SumWithin(xs, lo, mid) + SumWithin(xs, mid, hi)
  {
    if xs != [] {
      WithinSplit(xs[..|xs| - 1], lo, mid, hi);
    }
  }

  lemma {:induction false} WithinAll(xs: seq<Span>, lo: int, hi: int)
    requires forall x :: x in xs ==> lo <= x.lo < x.hi <= hi
    ensures SumWithin(xs, lo, hi) == SumLengths(xs)
  {
    if xs != [] {
      WithinAll(xs[..|xs| - 1], lo, hi);
      assert xs[|xs| - 1] in xs;
    }
  }

  /** No interval starts or ends strictly inside `[a, b)`. */
  ghost predicate Elementary(xs: seq<Span>, a: int, b: int) {
    a < b && forall x :: x in xs ==> x.lo < x.hi && !(a < x.lo < b) && !(a < x.hi < b)
  }

  function ActiveCount(xs: seq<Span>, a: int, b: int): nat {
    if xs == [] then 0
    else ActiveCount(xs[..|xs| - 1], a, b) + if xs[|xs| - 1].lo < b && xs[|xs| - 1].hi > a then 1 else 0
  }

  lemma OneMore(k: int, d: int)
    ensures (k + 1) * d == k * d + d
  {
  }

  lemma {:induction false} WithinElementary(xs: seq<Span>, a: int, b: int)
    requires Elementary(xs, a, b)
    ensures SumWithin(xs, a, b) == ActiveCount(xs, a, b) * (b - a)
  {
    if xs != [] {
      var n := |xs| - 1;
      assert xs[n] in xs;
      WithinElementary(xs[..n], a, b);
      OneMore(ActiveCount(xs[..n], a, b), b - a);
    }
  }

  lemma {:induction false} CountPositive(xs: seq<Span>, a: int, b: int, t: int)
    requires Elementary(xs, a, b) && a <= t < b
    ensures ActiveCount(xs, a, b) > 0 <==> t in Covered(xs)
  {
    if xs == [] {
      assert Covered(xs) == {};
    } else {
      var n := |xs| - 1;
      assert xs[n] in xs;
      CountPositive(xs[..n], a, b, t);
      CoveredLast(xs);
    }
  }

  // --------------------------------------------------------- the sweep loop

  datatype Wall = Wall(wall: map<Component, int>, overlap: int, segments: seq<Segment>)

  ghost predicate SegmentRight(cl: seq<Item>, s: Segment) {
    forall t :: s.lo <= t < s.hi ==> Top(cl, t, s.component) && s.active == Active(cl, t)
  }

  /** The accumulators describe `[lo, at)`. */
  ghost predicate SweptTo(cl: seq<Item>, lo: int, at: int, w: Wall) {
    && Tiles(w.segments, lo, at)
    && (forall s :: s in w.segments ==> SegmentRight(cl, s))
    && (forall c :: At(w.wall, c) == |TopShare(cl, lo, at, c)|)
    && w.overlap == SumWithin(SpansOf(cl), lo, at) - |Covered(SpansOf(cl)) * Instants(lo, at)|
  }

  lemma UniformActive(cl: seq<Item>, a: int, b: int, t: int)
    requires Elementary(SpansOf(cl), a, b) && a <= t < b
    ensures Active(cl, t) == Active(cl, a)
  {
    forall x | x in cl
      ensures Holds(x.span, t) <==> Holds(x.span, a)
    {
      var i :| 0 <= i < |cl| && cl[i] == x;
      assert SpansOf(cl)[i] in SpansOf(cl);
    }
  }

  lemma UniformTop(cl: seq<Item>, a: int, b: int, c: Component)
    requires Elementary(SpansOf(cl), a, b) && Top(cl, a, c)
    ensures SegmentRight(cl, Segment(a, b, c, Active(cl, a)))
  {
    forall t | a <= t < b
      ensures Top(cl, t, c) && Active(cl, t) == Active(cl, a)
    {
      UniformActive(cl, a, b, t);
    }
  }

  /** A segment adds its length to the share of its own component and to no other. */
  lemma ShareStep(cl: seq<Item>, lo: int, a: int, b: int, s: Segment, c: Component)
    requires lo <= a < b && s.lo == a && s.hi == b && SegmentRight(cl, s)
    ensures |TopShare(cl, lo, b, c)| == |TopShare(cl, lo, a, c)| + if c == s.component then b - a else 0
  {
    var more := if c == s.component then Instants(a, b) else {};
    forall t | a <= t < b
      ensures t in TopShare(cl, lo, b, c) <==> t in more
    {
      assert Top(cl, t, s.component);
      if Top(cl, t, c) {
        TopUnique(cl, t, c, s.component);
      }
    }
    TopShareSplit(cl, lo, a, b, c, more);
    InstantsSize(a, b);
  }

  lemma TopShareSplit(cl: seq<Item>, lo: int, a: int, b: int, c: Component, more: set<int>)
    requires lo <= a < b && more <= Instants(a, b)
    requires forall t :: a <= t < b ==> (t in TopShare(cl, lo, b, c) <==> t in more)
    ensures |TopShare(cl, lo, b, c)| == |TopShare(cl, lo, a, c)| + |more|
  {
    assert TopShare(cl, lo, b, c) == TopShare(cl, lo, a, c) + more;
    UnionSize(TopShare(cl, lo, a, c), more);
  }

  /** What `n` simultaneous intervals lose over `d` instants when each instant is counted once. */
  function Hidden(n: nat, d: int): int {
    if n == 0 then 0 else (n as int - 1) * d
  }

  lemma HiddenIs(n: nat, d: int)
    ensures Hidden(n, d) == n * d - if n == 0 then 0 else d
  {
    if n > 0 {
      OneMore(n - 1, d);
    }
  }

  lemma {:induction false} CoveredStep(xs: seq<Span>, lo: int, a: int, b: int)
    requires lo <= a && Elementary(xs, a, b)
    ensures |Covered(xs) * Instants(lo, b)|
         == |Covered(xs) * Instants(lo, a)| + if ActiveCount(xs, a, b) == 0 then 0 else b - a
  {
    var more := if ActiveCount(xs, a, b) == 0 then {} else Instants(a, b);
    forall t | a <= t < b
      ensures t in Covered(xs) <==> t in more
    {
      CountPositive(xs, a, b, t);
    }
    assert Covered(xs) * Instants(lo, b) == Covered(xs) * Instants(lo, a) + more;
    UnionSize(Covered(xs) * Instants(lo, a), more);
    InstantsSize(a, b);
  }

  /** A segment with `n` active intervals hides `n - 1` times its length. */
  lemma {:induction false} OverlapStep(xs: seq<Span>, lo: int, a: int, b: int)
    requires lo <= a && Elementary(xs, a, b)
    ensures SumWithin(xs, lo, b) - |Covered(xs) * Instants(lo, b)|
         == SumWithin(xs, lo, a) - |Covered(xs) * Instants(lo, a)| + Hidden(ActiveCount(xs, a, b), b - a)
  {
    WithinSplit(xs, lo, a, b);
    WithinElementary(xs, a, b);
    CoveredStep(xs, lo, a, b);
    HiddenIs(ActiveCount(xs, a, b), b - a);
  }

  lemma SweepStep(cl: seq<Item>, lo: int, at: int, w: Wall, s: Segment, hidden: int)
    requires lo <= at == s.lo && SweptTo(cl, lo, at, w)
    requires Elementary(SpansOf(cl), s.lo, s.hi) && SegmentRight(cl, s)
    requires hidden == Hidden(ActiveCount(SpansOf(cl), s.lo, s.hi), s.hi - s.lo)
    ensures SweptTo(cl, lo, s.hi, AddSegment(w, s, hidden))
  {
    var r := AddSegment(w, s, hidden);
    OverlapStep(SpansOf(cl), lo, s.lo, s.hi);
    forall d
      ensures At(r.wall, d) == |TopShare(cl, lo, s.hi, d)|
    {
      ShareStep(cl, lo, s.lo, s.hi, s, d);
    }
  }

  function AddSegment(w: Wall, s: Segment, hidden: int): Wall {
    Wall(w.wall[s.component := At(w.wall, s.component) + (s.hi - s.lo)], w.overlap + hidden, w.segments + [s])
  }

  ghost function ActiveList(cl: seq<Item>, a: int, b: int): seq<Component> {
    if cl == [] then []
    else
      var x := cl[|cl| - 1];
      ActiveList(cl[..|cl| - 1], a, b) + if x.span.lo < b && x.span.hi > a then [x.component] else []
  }

  lemma {:induction false} ActiveListMeaning(cl: seq<Item>, a: int, b: int)
    requires Elementary(SpansOf(cl), a, b) && forall x :: x in cl ==> 0 < x.span.lo
    ensures |ActiveList(cl, a, b)| == ActiveCount(SpansOf(cl), a, b)
    ensures forall c :: c in ActiveList(cl, a, b) <==> c in Active(cl, a)
  {
    if cl != [] {
      var n := |cl| - 1;
      assert SpansOf(cl)[..n] == SpansOf(cl[..n]);
      assert SpansOf(cl)[n] in SpansOf(cl);
      ActiveListMeaning(cl[..n], a, b);
      assert cl == cl[..n] + [cl[n]];
      ActiveSplit(cl[..n], [cl[n]], a);
      assert cl[n] in [cl[n]];
    }
  }

  method ActiveIn(cl: seq<Item>, a: int, b: int) returns (active: seq<Component>)
    ensures active == ActiveList(cl, a, b)
  {
    active := [];
    for i := 0 to |cl|
      invariant active == ActiveList(cl[..i], a, b)
    {
      assert cl[..i + 1][..i] == cl[..i];
      if cl[i].span.lo < b && cl[i].span.hi > a {
        active := active + [cl[i].component];
      }
    }
    assert cl[..|cl|] == cl;
  }

  /** The first of the active components in priority order. */
  method TopOf(active: seq<Component>) returns (c: Component)
    requires active != []
    ensures c in active && forall d :: d in active ==> Before(c, d)
  {
    c := active[0];
    for i := 1 to |active|
      invariant c in active && forall j :: 0 <= j < i ==> Before(c, active[j])
    {
      if !Before(c, active[i]) {
        c := active[i];
      }
    }
  }

  /** The segment between two neighbouring boundaries, and the time its lower components lose. */
  method MakeSegment(cl: seq<Item>, start: int, end: int) returns (s: Segment, hidden: int)
    requires Elementary(SpansOf(cl), start, end)
    requires forall x :: x in cl ==> 0 < x.span.lo
    ensures s.lo == start && s.hi == end && SegmentRight(cl, s)
    ensures hidden == Hidden(ActiveCount(SpansOf(cl), s.lo, s.hi), s.hi - s.lo)
  {
    var active := ActiveIn(cl, start, end);
    ActiveListMeaning(cl, start, end);
    var chosen := PipelineGap;
    hidden := 0;
    if active != [] {
      chosen := TopOf(active);
      hidden := (|active| - 1) * (end - start);
    }
    s := Segment(start, end, chosen, set c | c in active);
    SegmentFromList(cl, s, active);
  }

  lemma SegmentFromList(cl: seq<Item>, s: Segment, active: seq<Component>)
    requires Elementary(SpansOf(cl), s.lo, s.hi) && s.active == set c | c in active
    requires forall d :: d in active <==> d in Active(cl, s.lo)
    requires if active == [] then s.component == PipelineGap
             else s.component in active && forall d :: d in active ==> Before(s.component, d)
    ensures SegmentRight(cl, s)
  {
    assert s.active == Active(cl, s.lo);
    if active != [] {
      assert active[0] in Active(cl, s.lo);
    }
    UniformTop(cl, s.lo, s.hi, s.component);
  }

  /** The loop over neighbouring boundaries. */
  method SweepBoundaries(cl: seq<Item>, bounds: seq<int>) returns (w: Wall)
    requires bounds != [] && Increasing(bounds) && Inside(cl, bounds[0], bounds[|bounds| - 1])
    requires forall x :: x in cl ==> x.span.lo in bounds && x.span.hi in bounds
    ensures SweptTo(cl, bounds[0], bounds[|bounds| - 1], w)
  {
    w := Wall(map[], 0, []);
    StartSweep(cl, bounds[0]);
    for k := 0 to |bounds| - 1
      invariant SweptTo(cl, bounds[0], bounds[k], w)
    {
      NoBoundBetween(cl, bounds, k);
      var s, hidden := MakeSegment(cl, bounds[k], bounds[k + 1]);
      SweepStep(cl, bounds[0], bounds[k], w, s, hidden);
      w := AddSegment(w, s, hidden);
    }
  }

  lemma StartSweep(cl: seq<Item>, lo: int)
    requires forall x :: x in cl ==> x.span.lo >= lo
    ensures SweptTo(cl, lo, lo, Wall(map[], 0, []))
  {
    assert Instants(lo, lo) == {};
    forall c
      ensures TopShare(cl, lo, lo, c) == {}
    {
    }
    WithinSplit(SpansOf(cl), lo, lo, lo);
  }

  lemma NoBoundBetween(cl: seq<Item>, bounds: seq<int>, k: nat)
    requires Increasing(bounds) && k + 1 < |bounds|
    requires Inside(cl, bounds[0], bounds[|bounds| - 1])
    requires forall x :: x in cl ==> x.span.lo in bounds && x.span.hi in bounds
    ensures Elementary(SpansOf(cl), bounds[k], bounds[k + 1])
  {
    forall v | v in bounds
      ensures !(bounds[k] < v < bounds[k + 1])
    {
    }
  }

  // ------------------------------------------------------- the whole window

  ghost predicate Rightly(items: seq<Item>, lo: int, hi: int, s: Segment) {
    forall t :: s.lo <= t < s.hi ==> Chosen(items, lo, hi, t, s.component) && s.active == Active(items, t)
  }

  /** What one call owes its window: tiles, the right component at every instant, exact totals. */
  ghost predicate Attributed(items: seq<Item>, lo: int, hi: int, w: Wall) {
    && ItemsStamped(items)
    && Tiles(w.segments, lo, hi)
    && (forall s :: s in w.segments ==> Rightly(items, lo, hi, s))
    && (forall c :: At(w.wall, c) == |Share(items, lo, hi, c)|)
    && w.overlap == SumLengths(ClipAll(SpansOf(items), Some(lo), Some(hi)))
                    - |Recorded(SpansOf(items), Some(lo), Some(hi))|
  }

  method ClipEachItem(items: seq<Item>, lo: int, hi: int) returns (cl: seq<Item>)
    requires ItemsStamped(items)
    ensures cl == ClipItems(items, lo, hi)
  {
    cl := [];
    for i := 0 to |items|
      invariant cl == ClipItems(items[..i], lo, hi)
    {
      assert items[..i + 1][..i] == items[..i];
      var r := ClipInterval(items[i].span, Some(lo), Some(hi));
      if r.Some? {
        cl := cl + [Item(r.value, items[i].component)];
      }
    }
    assert items[..|items|] == items;
  }

  /** `_attribute_wall_components`. */
  method AttributeWall(items: seq<Item>, windowStart: int, windowEnd: int) returns (w: Wall)
    requires ItemsStamped(items) && Stamp(windowStart) && Stamp(windowEnd)
    ensures !(0 < windowStart < windowEnd) ==> w == Wall(map[], 0, [])
    ensures 0 < windowStart < windowEnd ==> Attributed(items, windowStart, windowEnd, w)
    ensures 0 < windowStart < windowEnd ==>
      if Meets(items, windowStart, windowEnd) then forall c :: At(w.wall, c) == |Won(items, windowStart, windowEnd, c)|
      else w == Wall(map[OtherCompute := windowEnd - windowStart], 0,
                     [Segment(windowStart, windowEnd, OtherCompute, {})])
  {
    var start, end := ToNs(windowStart), ToNs(windowEnd);
    if start.None? || end.None? || end.value <= start.value {
      return Wall(map[], 0, []);
    }
    var lo, hi := start.value, end.value;
    var cl := ClipEachItem(items, lo, hi);
    ClipItemsInside(items, lo, hi);
    if cl == [] {
      w := Wall(map[OtherCompute := hi - lo], 0, [Segment(lo, hi, OtherCompute, {})]);
      NothingMeets(items, lo, hi, w);
      ClippedMeets(items, lo, hi);
      return;
    }
    var bounds := SortedSet({lo, hi} + (set x | x in cl :: x.span.lo) + (set x | x in cl :: x.span.hi));
    BoundsEnds(cl, bounds, lo, hi);
    w := SweepBoundaries(cl, bounds);
    SweptWhole(items, lo, hi, w);
    ClippedMeets(items, lo, hi);
    WallIsWon(items, lo, hi, w);
  }

  /** Something meets the window exactly when something is left of the items there. */
  lemma {:induction false} ClippedMeets(items: seq<Item>, lo: int, hi: int)
    requires ItemsStamped(items)
    ensures Meets(items, lo, hi) <==> ClipItems(items, lo, hi) != []
  {
    var cl := ClipItems(items, lo, hi);
    ClipItemsInside(items, lo, hi);
    if cl != [] {
      var first := cl[0].span.lo;
      assert cl[0].component in Active(cl, first);
      ClipItemsActive(items, lo, hi, first);
    } else if t :| lo <= t < hi && Active(items, t) != {} {
      ClipItemsActive(items, lo, hi, t);
    }
  }

  lemma BoundsEnds(cl: seq<Item>, bounds: seq<int>, lo: int, hi: int)
    requires lo < hi && Increasing(bounds) && Inside(cl, lo, hi)
    requires forall v :: v in bounds <==>
      v in {lo, hi} + (set x | x in cl :: x.span.lo) + (set x | x in cl :: x.span.hi)
    ensures bounds != [] && bounds[0] == lo && bounds[|bounds| - 1] == hi
    ensures forall x :: x in cl ==> x.span.lo in bounds && x.span.hi in bounds
  {
    assert lo in bounds && hi in bounds;
    assert forall v :: v in bounds ==> lo <= v <= hi;
    var i :| 0 <= i < |bounds| && bounds[i] == lo;
    var j :| 0 <= j < |bounds| && bounds[j] == hi;
    assert bounds[0] in bounds && bounds[|bounds| - 1] in bounds;
  }

  lemma {:induction false} NothingMeets(items: seq<Item>, lo: int, hi: int, w: Wall)
    requires ItemsStamped(items) && lo < hi && ClipItems(items, lo, hi) == []
    requires w == Wall(map[OtherCompute := hi - lo], 0, [Segment(lo, hi, OtherCompute, {})])
    ensures Attributed(items, lo, hi, w)
  {
    forall t | lo <= t < hi
      ensures Active(items, t) == {}
    {
      ClipItemsActive(items, lo, hi, t);
    }
    assert !Meets(items, lo, hi);
    SweptOverlap(items, lo, hi);
    assert SpansOf(ClipItems(items, lo, hi)) == [];
    assert Rightly(items, lo, hi, w.segments[0]);
    forall c
      ensures At(w.wall, c) == |Share(items, lo, hi, c)|
    {
      InstantsSize(lo, hi);
      assert Share(items, lo, hi, c) == if c == OtherCompute then Instants(lo, hi) else {};
    }
  }

  lemma {:induction false} SweptWhole(items: seq<Item>, lo: int, hi: int, w: Wall)
    requires ItemsStamped(items) && ClipItems(items, lo, hi) != []
    requires SweptTo(ClipItems(items, lo, hi), lo, hi, w)
    ensures Attributed(items, lo, hi, w)
  {
    var cl := ClipItems(items, lo, hi);
    forall c
      ensures Share(items, lo, hi, c) == TopShare(cl, lo, hi, c)
    {
      forall t | lo <= t < hi
        ensures t in Share(items, lo, hi, c) <==> t in TopShare(cl, lo, hi, c)
      {
        ChosenIsTop(items, lo, hi, t, c);
      }
    }
    forall c
      ensures At(w.wall, c) == |Share(items, lo, hi, c)|
    {
      assert |TopShare(cl, lo, hi, c)| == At(w.wall, c);
    }
    forall s | s in w.segments
      ensures Rightly(items, lo, hi, s)
    {
      TilesInside(w.segments, lo, hi, s);
      RightSegment(items, lo, hi, s);
    }
    SweptOverlap(items, lo, hi);
  }

  lemma {:induction false} RightSegment(items: seq<Item>, lo: int, hi: int, s: Segment)
    requires ItemsStamped(items) && ClipItems(items, lo, hi) != [] && lo <= s.lo && s.hi <= hi
    requires SegmentRight(ClipItems(items, lo, hi), s)
    ensures Rightly(items, lo, hi, s)
  {
    forall t | s.lo <= t < s.hi
      ensures Chosen(items, lo, hi, t, s.component) && s.active == Active(items, t)
    {
      ClipItemsActive(items, lo, hi, t);
      ChosenIsTop(items, lo, hi, t, s.component);
    }
  }

  lemma {:induction false} ChosenIsTop(items: seq<Item>, lo: int, hi: int, t: int, c: Component)
    requires ItemsStamped(items) && ClipItems(items, lo, hi) != [] && lo <= t < hi
    ensures Chosen(items, lo, hi, t, c) <==> Top(ClipItems(items, lo, hi), t, c)
  {
    ClippedMeets(items, lo, hi);
    ClipItemsActive(items, lo, hi, t);
  }

  lemma {:induction false} SweptOverlap(items: seq<Item>, lo: int, hi: int)
    requires ItemsStamped(items)
    ensures var cl := SpansOf(ClipItems(items, lo, hi));
      SumWithin(cl, lo, hi) - |Covered(cl) * Instants(lo, hi)|
      == SumLengths(ClipAll(SpansOf(items), Some(lo), Some(hi))) - |Recorded(SpansOf(items), Some(lo), Some(hi))|
  {
    var cl := SpansOf(ClipItems(items, lo, hi));
    ClipItemsInside(items, lo, hi);
    ClipAllMeaning(SpansOf(items), Some(lo), Some(hi));
    WithinAll(cl, lo, hi);
    assert Covered(cl) * Instants(lo, hi) == Covered(cl);
  }

  lemma TilesInside(segs: seq<Segment>, lo: int, hi: int, s: Segment)
    requires Tiles(segs, lo, hi) && s in segs
    ensures lo <= s.lo < s.hi <= hi
    decreases |segs|
  {
    var n := |segs| - 1;
    if s != segs[n] {
      assert s in segs[..n];
      TilesInside(segs[..n], lo, segs[n - 1].hi, s);
    } else if n > 0 {
      TilesInside(segs[..n], lo, segs[n - 1].hi, segs[0]);
    }
  }

  /** The components of a window add up to its length. */
  lemma WallSum(items: seq<Item>, lo: int, hi: int, w: Wall)
    requires lo <= hi && Attributed(items, lo, hi, w)
    ensures SumValues(w.wall) == hi - lo
  {
    var share := c => Share(items, lo, hi, c);
    forall t | t in Instants(lo, hi)
      ensures exists c :: c in w.wall && t in share(c)
    {
      var c := ChosenAt(items, lo, hi, t, w);
      assert t in share(c);
    }
    forall c, d | c != d
      ensures share(c) !! share(d)
    {
      SharesApart(items, lo, hi, c, d);
    }
    forall c | c in w.wall
      ensures w.wall[c] == |share(c)| && share(c) <= Instants(lo, hi)
    {
      assert At(w.wall, c) == |Share(items, lo, hi, c)|;
    }
    PartitionSum(w.wall, share, Instants(lo, hi));
    InstantsSize(lo, hi);
  }

  lemma SharesApart(items: seq<Item>, lo: int, hi: int, c: Component, d: Component)
    requires c != d
    ensures Share(items, lo, hi, c) !! Share(items, lo, hi, d)
  {
    forall t | t in Share(items, lo, hi, c)
      ensures t !in Share(items, lo, hi, d)
    {
      if t in Share(items, lo, hi, d) && Meets(items, lo, hi) {
        TopUnique(items, t, c, d);
      }
    }
  }

  /** Every instant of the window belongs to a component of the result. */
  lemma ChosenAt(items: seq<Item>, lo: int, hi: int, t: int, w: Wall) returns (c: Component)
    requires lo <= t < hi && Attributed(items, lo, hi, w)
    ensures c in w.wall && t in Share(items, lo, hi, c)
  {
    var s := TileAt(w.segments, lo, hi, t);
    c := s.component;
    SubsetSize({t}, Share(items, lo, hi, c));
    assert At(w.wall, c) == |Share(items, lo, hi, c)|;
  }

  lemma TileAt(segs: seq<Segment>, lo: int, hi: int, t: int) returns (s: Segment)
    requires Tiles(segs, lo, hi) && lo <= t < hi
    ensures s in segs && s.lo <= t < s.hi
  {
    var n := |segs| - 1;
    if segs[n].lo <= t {
      s := segs[n];
    } else {
      s := TileAt(segs[..n], lo, segs[n - 1].hi, t);
    }
  }

  /** When something meets the window, the pipeline gap is the uncovered time of the window. */
  lemma PipelineGapIsUncovered(items: seq<Item>, lo: int, hi: int, w: Wall)
    requires Attributed(items, lo, hi, w) && Meets(items, lo, hi)
    requires forall x :: x in items ==> x.component != PipelineGap
    ensures At(w.wall, PipelineGap) == |Instants(lo, hi) - Recorded(SpansOf(items), None, None)|
  {
    forall t | lo <= t < hi
      ensures t in Share(items, lo, hi, PipelineGap) <==> t !in Recorded(SpansOf(items), None, None)
    {
      ActiveOrNot(items, t);
    }
    assert Share(items, lo, hi, PipelineGap) == Instants(lo, hi) - Recorded(SpansOf(items), None, None);
  }

  lemma ActiveOrNot(items: seq<Item>, t: int)
    ensures Active(items, t) != {} <==> t in Recorded(SpansOf(items), None, None)
  {
    var xs := SpansOf(items);
    if t in Recorded(xs, None, None) {
      var i :| 0 <= i < |xs| && 0 < xs[i].lo && Holds(xs[i], t);
      assert items[i].component in Active(items, t);
    } else {
      forall i | 0 <= i < |items|
        ensures !(0 < items[i].span.lo && Holds(items[i].span, t))
      {
        assert xs[i] in xs;
      }
    }
  }
}
