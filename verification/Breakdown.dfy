/** Wall-time breakdown of a request's dispatches: phases, pipeline gaps and what is left over. */
module Breakdown {
  import opened Sets
  import opened Spans
  import opened Sorting
  import opened Intervals
  import opened Sweep
  import opened Stages

  /** The worker phases of the log and the components `phase_exec_name_map` gives them. */
  datatype Phase = Preprocess | Forward | PostprocessPhase | Sample | Bookkeep | OtherPhase(id: nat)

  function ComponentOf(p: Phase): Component {
    match p
    case Preprocess => WorkerPreprocess
    case Forward => ModelForward
    case PostprocessPhase => Postprocess
    case Sample => Sampling
    case Bookkeep => BookkeepingSync
    case OtherPhase(_) => OtherCompute
  }

  datatype PhaseLog = PhaseLog(phase: Phase, works: seq<Work>)

  datatype DispatchPhase = Prefill | Decode | UnknownPhase

  datatype Dispatch = Dispatch(key: BatchKey, span: Span, phase: DispatchPhase)

  datatype PhaseGroup = PhaseGroup(pp: Rank, component: Component)

  ghost predicate LogsStamped(logs: seq<PhaseLog>) {
    forall p, w :: p in logs && w in p.works ==> Stamped(w.span)
  }

  /** The phases that count for a component. */
  ghost predicate CountsFor(p: Phase, c: Component) {
    match c
    case WorkerPreprocess => p == Preprocess
    case ModelForward => p == Forward
    case Postprocess => p == PostprocessPhase
    case Sampling => p == Sample
    case BookkeepingSync => p == Bookkeep
    case OtherCompute => p !in {Preprocess, Forward, PostprocessPhase, Sample, Bookkeep}
    case _ => false
  }

  lemma PhaseCounts(p: Phase, c: Component)
    ensures ComponentOf(p) == c <==> CountsFor(p, c)
  {
  }

  // -------------------------------------------------- compute items of a dispatch

  /** The components that some worker computes for the dispatch at instant `t`. */
  ghost function Computing(key: BatchKey, logs: seq<PhaseLog>, t: int): set<Component> {
    set p, w | p in logs && w in p.works && KeyMatches(key, w.key) && 0 < w.span.lo && Holds(w.span, t)
      :: ComponentOf(p.phase)
  }

  function MatchedWorks(key: BatchKey, phase: Phase, works: seq<Work>): (r: seq<Tagged<PhaseGroup>>)
    ensures forall x :: x in r <==>
      (exists w :: w in works && KeyMatches(key, w.key) && x == Tagged(w.span, PhaseGroup(w.pp, ComponentOf(phase))))
  {
    if works == [] then []
    else
      var n := |works| - 1;
      var w := works[n];
      assert forall v :: v in works <==> v in works[..n] || v == w;
      MatchedWorks(key, phase, works[..n]) +
        if KeyMatches(key, w.key) then [Tagged(w.span, PhaseGroup(w.pp, ComponentOf(phase)))] else []
  }

  function MatchedPhases(key: BatchKey, logs: seq<PhaseLog>): (r: seq<Tagged<PhaseGroup>>)
    ensures forall x :: x in r <==> exists p :: p in logs && x in MatchedWorks(key, p.phase, p.works)
  {
    if logs == [] then []
    else
      var n := |logs| - 1;
      assert forall p :: p in logs <==> p in logs[..n] || p == logs[n];
      MatchedPhases(key, logs[..n]) + MatchedWorks(key, logs[n].phase, logs[n].works)
  }

  lemma {:induction false} MatchedMeaning(key: BatchKey, logs: seq<PhaseLog>, window: Span, t: int, c: Component)
    requires Holds(window, t)
    ensures c in Computing(key, logs, t) <==>
      exists pp :: t in GroupTime(MatchedPhases(key, logs), window, PhaseGroup(pp, c))
  {
    var xs := MatchedPhases(key, logs);
    if c in Computing(key, logs, t) {
      var p, w :| p in logs && w in p.works && KeyMatches(key, w.key) && 0 < w.span.lo && Holds(w.span, t) &&
        ComponentOf(p.phase) == c;
      var x := Tagged(w.span, PhaseGroup(w.pp, c));
      assert x in MatchedWorks(key, p.phase, p.works);
      assert x in xs;
      assert t in GroupTime(xs, window, PhaseGroup(w.pp, c));
    }
    if pp :| t in GroupTime(xs, window, PhaseGroup(pp, c)) {
      var x :| x in xs && x.group == PhaseGroup(pp, c) && 0 < x.span.lo && Holds(x.span, t);
      var p :| p in logs && x in MatchedWorks(key, p.phase, p.works);
      var w :| w in p.works && KeyMatches(key, w.key) && x == Tagged(w.span, PhaseGroup(w.pp, ComponentOf(p.phase)));
      assert c in Computing(key, logs, t);
    }
  }

  /** At `t` interval `w` of phase `p` is work of the pair `g` for a dispatch: its rank, a phase of its component, and
      the dispatch's key unless one of the two has none. */
  ghost predicate WorksFor(key: BatchKey, p: Phase, w: Work, g: PhaseGroup, t: int) {
    && CountsFor(p, g.component) && w.pp == g.pp && 0 < w.span.lo <= t < w.span.hi
    && (key == None || w.key == None || w.key == key)
  }

  lemma {:induction false} PairTimeIs(key: BatchKey, logs: seq<PhaseLog>, window: Span, g: PhaseGroup, t: int)
    ensures t in GroupTime(MatchedPhases(key, logs), window, g) <==>
      window.lo <= t < window.hi && exists p, w :: p in logs && w in p.works && WorksFor(key, p.phase, w, g, t)
  {
    if t in GroupTime(MatchedPhases(key, logs), window, g) {
      PairIsWork(key, logs, window, g, t);
    }
    if window.lo <= t < window.hi {
      if p, w :| p in logs && w in p.works && WorksFor(key, p.phase, w, g, t) {
        WorkIsPair(key, logs, window, g, t, p, w);
      }
    }
  }

  lemma {:induction false} PairIsWork(key: BatchKey, logs: seq<PhaseLog>, window: Span, g: PhaseGroup, t: int)
    requires t in GroupTime(MatchedPhases(key, logs), window, g)
    ensures window.lo <= t < window.hi
    ensures exists p, w :: p in logs && w in p.works && WorksFor(key, p.phase, w, g, t)
  {
    var xs := MatchedPhases(key, logs);
    var x :| x in xs && x.group == g && 0 < x.span.lo && Holds(x.span, t);
    var p :| p in logs && x in MatchedWorks(key, p.phase, p.works);
    var w :| w in p.works && KeyMatches(key, w.key) && x == Tagged(w.span, PhaseGroup(w.pp, ComponentOf(p.phase)));
    PhaseCounts(p.phase, g.component);
    assert WorksFor(key, p.phase, w, g, t);
  }

  lemma {:induction false} WorkIsPair(key: BatchKey, logs: seq<PhaseLog>, window: Span, g: PhaseGroup, t: int,
                                      p: PhaseLog, w: Work)
    requires window.lo <= t < window.hi && p in logs && w in p.works && WorksFor(key, p.phase, w, g, t)
    ensures t in GroupTime(MatchedPhases(key, logs), window, g)
  {
    PhaseCounts(p.phase, g.component);
    var x := Tagged(w.span, g);
    assert KeyMatches(key, w.key) && x in MatchedWorks(key, p.phase, p.works);
    assert x in MatchedPhases(key, logs) && Holds(x.span, t);
  }

  function ItemsOf(spans: seq<Span>, c: Component): (r: seq<Item>)
    ensures |r| == |spans| && forall i :: 0 <= i < |r| ==> r[i] == Item(spans[i], c)
  {
    seq(|spans|, i requires 0 <= i < |spans| => Item(spans[i], c))
  }

  lemma ItemsOfActive(spans: seq<Span>, c: Component, t: int)
    requires forall x :: x in spans ==> 0 < x.lo
    ensures Active(ItemsOf(spans, c), t) == if t in Covered(spans) then {c} else {}
  {
    var items := ItemsOf(spans, c);
    if t in Covered(spans) {
      var i :| 0 <= i < |spans| && Holds(spans[i], t);
      assert items[i] in items;
    }
  }

  /** Items inside a window, of components a worker phase can have. */
  ghost predicate WithinWindow(items: seq<Item>, window: Span) {
    forall x :: x in items ==> NS_FLOOR < x.span.lo && window.lo <= x.span.lo < x.span.hi <= window.hi
  }

  ghost predicate FromPhases(items: seq<Item>) {
    forall x :: x in items ==> exists p :: x.component == ComponentOf(p)
  }

  /** The components of the groups in `done` that hold `t`. */
  ghost function GroupsActive(m: map<PhaseGroup, seq<Span>>, done: set<PhaseGroup>, t: int): set<Component> {
    set g | g in done && t in Covered(SpansAt(m, g)) :: g.component
  }

  /** `compute_by_pp_phase_ns`: for each (pp rank, component) pair that is at work in the window, for how long. */
  ghost predicate ByGroup(key: BatchKey, logs: seq<PhaseLog>, window: Span, compute: map<PhaseGroup, int>) {
    forall g :: if g in compute then compute[g] == |GroupTime(MatchedPhases(key, logs), window, g)| && compute[g] != 0
                else GroupTime(MatchedPhases(key, logs), window, g) == {}
  }

  /** The merged compute intervals of every (pp rank, component) pair of a dispatch, each instant of a pair once. */
  method ComputeItems(key: BatchKey, window: Span, logs: seq<PhaseLog>)
    returns (items: seq<Item>, compute: map<PhaseGroup, int>)
    requires LogsStamped(logs)
    ensures WithinWindow(items, window) && FromPhases(items)
    ensures forall t :: Holds(window, t) ==> Active(items, t) == Computing(key, logs, t)
    ensures ByGroup(key, logs, window, compute) && SumLengths(SpansOf(items)) == SumValues(compute)
  {
    MatchedStamped(key, logs);
    var m := GroupSpans(MatchedPhases(key, logs), window);
    items, compute := [], map[];
    var todo := m.Keys;
    while |todo| > 0
      invariant todo <= m.Keys
      invariant WithinWindow(items, window) && FromPhases(items)
      invariant forall t :: Active(items, t) == GroupsActive(m, m.Keys - todo, t)
      invariant Tallied(m, todo, items, compute)
    {
      var g := Pick(todo);
      assert m[g] == SpansAt(m, g);
      var merged := MergeIntervals(m[g]);
      AddGroup(key, logs, window, m, todo, g, items, merged);
      AddTally(m, todo, g, items, compute, merged);
      todo := todo - {g};
      items := items + ItemsOf(merged, g.component);
      compute := compute[g := SumLengths(merged)];
    }
    AllComputing(key, logs, window, m, items);
    AllGroupsCounted(key, logs, window, m, items, compute);
  }

  /** The groups that are done, each with its time, and the sum of these times in the items. */
  ghost predicate Tallied(m: map<PhaseGroup, seq<Span>>, todo: set<PhaseGroup>, items: seq<Item>,
                          compute: map<PhaseGroup, int>) {
    && compute.Keys == m.Keys - todo
    && (forall g :: g in compute ==> compute[g] == |Covered(SpansAt(m, g))|)
    && SumLengths(SpansOf(items)) == SumValues(compute)
  }

  lemma {:induction false} AddTally(m: map<PhaseGroup, seq<Span>>, todo: set<PhaseGroup>, g: PhaseGroup,
                                    items: seq<Item>, compute: map<PhaseGroup, int>, merged: seq<Span>)
    requires Tallied(m, todo, items, compute) && g in todo && todo <= m.Keys
    requires SumLengths(merged) == |Covered(SpansAt(m, g))|
    ensures Tallied(m, todo - {g}, items + ItemsOf(merged, g.component), compute[g := SumLengths(merged)])
  {
    var more := compute[g := SumLengths(merged)];
    assert more.Keys == m.Keys - (todo - {g});
    AddLength(items, compute, g, merged);
  }

  lemma AddLength(items: seq<Item>, compute: map<PhaseGroup, int>, g: PhaseGroup, merged: seq<Span>)
    requires g !in compute && SumLengths(SpansOf(items)) == SumValues(compute)
    ensures SumLengths(SpansOf(items + ItemsOf(merged, g.component))) == SumValues(compute[g := SumLengths(merged)])
  {
    var more := compute[g := SumLengths(merged)];
    LengthsAdded(items, merged, g.component);
    SumValuesRemove(more, g);
    assert more - {g} == compute;
  }

  lemma {:induction false} LengthsAdded(items: seq<Item>, spans: seq<Span>, c: Component)
    ensures SumLengths(SpansOf(items + ItemsOf(spans, c))) == SumLengths(SpansOf(items)) + SumLengths(spans)
  {
    assert SpansOf(items + ItemsOf(spans, c)) == SpansOf(items) + spans;
    SumLengthsSplit(SpansOf(items), spans);
  }

  lemma {:induction false} AllComputing(key: BatchKey, logs: seq<PhaseLog>, window: Span,
                                        m: map<PhaseGroup, seq<Span>>, items: seq<Item>)
    requires Grouped(MatchedPhases(key, logs), window, m)
    requires forall t :: Active(items, t) == GroupsActive(m, m.Keys, t)
    ensures forall t :: Holds(window, t) ==> Active(items, t) == Computing(key, logs, t)
  {
    forall t | Holds(window, t)
      ensures Active(items, t) == Computing(key, logs, t)
    {
      GroupsAreComputing(key, logs, window, m, t);
    }
  }

  lemma {:induction false} AllGroupsCounted(key: BatchKey, logs: seq<PhaseLog>, window: Span,
                                            m: map<PhaseGroup, seq<Span>>, items: seq<Item>,
                                            compute: map<PhaseGroup, int>)
    requires Grouped(MatchedPhases(key, logs), window, m) && Tallied(m, {}, items, compute)
    ensures ByGroup(key, logs, window, compute)
  {
    var xs := MatchedPhases(key, logs);
    forall g
      ensures if g in compute then compute[g] == |GroupTime(xs, window, g)| && compute[g] != 0
              else GroupTime(xs, window, g) == {}
    {
      if g in m {
        var x := SpansAt(m, g)[0];
        assert x in SpansAt(m, g) && Holds(x, x.lo);
        assert x.lo in GroupTime(xs, window, g);
      } else {
        assert Covered(SpansAt(m, g)) == {};
      }
    }
  }

  lemma {:induction false} MatchedStamped(key: BatchKey, logs: seq<PhaseLog>)
    requires LogsStamped(logs)
    ensures TaggedStamped(MatchedPhases(key, logs))
  {
  }

  lemma {:induction false} AddGroup(key: BatchKey, logs: seq<PhaseLog>, window: Span, m: map<PhaseGroup, seq<Span>>,
                                    todo: set<PhaseGroup>, g: PhaseGroup, items: seq<Item>, merged: seq<Span>)
    requires Grouped(MatchedPhases(key, logs), window, m) && todo <= m.Keys && g in todo
    requires Canonical(merged) && Covered(merged) == Covered(SpansAt(m, g))
    requires WithinWindow(items, window) && FromPhases(items)
    requires forall t :: Active(items, t) == GroupsActive(m, m.Keys - todo, t)
    ensures var r := items + ItemsOf(merged, g.component);
      && WithinWindow(r, window) && FromPhases(r)
      && forall t :: Active(r, t) == GroupsActive(m, m.Keys - (todo - {g}), t)
  {
    var more := ItemsOf(merged, g.component);
    CanonicalInside(merged, SpansAt(m, g), window);
    GroupIsPhase(key, logs, window, m, g);
    assert WithinWindow(more, window) && FromPhases(more);
    forall t
      ensures Active(items + more, t) == GroupsActive(m, m.Keys - (todo - {g}), t)
    {
      ActiveSplit(items, more, t);
      ItemsOfActive(merged, g.component, t);
      assert m.Keys - (todo - {g}) == (m.Keys - todo) + {g};
    }
  }

  lemma CanonicalInside(merged: seq<Span>, spans: seq<Span>, window: Span)
    requires Canonical(merged) && Covered(merged) == Covered(spans)
    requires forall x :: x in spans ==> window.lo <= x.lo < x.hi <= window.hi && NS_FLOOR < x.lo
    ensures forall x :: x in merged ==> window.lo <= x.lo < x.hi <= window.hi && NS_FLOOR < x.lo
  {
    forall x | x in merged
      ensures window.lo <= x.lo < x.hi <= window.hi && NS_FLOOR < x.lo
    {
      assert Holds(x, x.lo) && Holds(x, x.hi - 1);
      assert x.lo in Covered(spans) && x.hi - 1 in Covered(spans);
    }
  }

  lemma {:induction false} GroupIsPhase(key: BatchKey, logs: seq<PhaseLog>, window: Span,
                                        m: map<PhaseGroup, seq<Span>>, g: PhaseGroup)
    requires Grouped(MatchedPhases(key, logs), window, m) && g in m
    ensures exists p :: g.component == ComponentOf(p)
  {
    var x := SpansAt(m, g)[0];
    assert x in SpansAt(m, g);
    assert Holds(x, x.lo);
    assert x.lo in GroupTime(MatchedPhases(key, logs), window, g);
    var y :| y in MatchedPhases(key, logs) && y.group == g;
    var p :| p in logs && y in MatchedWorks(key, p.phase, p.works);
    assert g.component == ComponentOf(p.phase);
  }

  lemma {:induction false} GroupsAreComputing(key: BatchKey, logs: seq<PhaseLog>, window: Span,
                                              m: map<PhaseGroup, seq<Span>>, t: int)
    requires Grouped(MatchedPhases(key, logs), window, m) && Holds(window, t)
    ensures GroupsActive(m, m.Keys, t) == Computing(key, logs, t)
  {
    forall c
      ensures c in GroupsActive(m, m.Keys, t) <==> c in Computing(key, logs, t)
    {
      MatchedMeaning(key, logs, window, t, c);
      if pp :| t in GroupTime(MatchedPhases(key, logs), window, PhaseGroup(pp, c)) {
        var g := PhaseGroup(pp, c);
        assert t in Covered(SpansAt(m, g));
        assert g in m;
      }
      if c in GroupsActive(m, m.Keys, t) {
        var g :| g in m.Keys && t in Covered(SpansAt(m, g)) && g.component == c;
        assert g == PhaseGroup(g.pp, c);
        assert t in GroupTime(MatchedPhases(key, logs), window, g);
      }
    }
  }

  // ------------------------------------------------------------ one dispatch

  datatype Row = Row(
    dispatch: Dispatch,
    compute: map<PhaseGroup, int>,
    stages: map<Stage, Span>,
    gaps: seq<Gap>,
    wall: Wall,
    ppGapNs: int,
    rawPpGapNs: int,
    unattributedNs: int)

  /** The component intervals of a dispatch: its computing time and its pipeline gaps. */
  ghost predicate RowItems(d: Dispatch, logs: seq<PhaseLog>, gaps: seq<Gap>, items: seq<Item>) {
    && WithinWindow(items, d.span)
    && (forall x :: x in items ==> x.component != PipelineGap)
    && (forall t :: Holds(d.span, t) ==>
          Active(items, t) == Computing(d.key, logs, t) + if t in Covered(GapSpans(gaps)) then {PpGap} else {})
  }

  ghost predicate RowRight(d: Dispatch, logs: seq<PhaseLog>, steps: seq<Work>, row: Row, items: seq<Item>) {
    && row.dispatch == d
    && ByGroup(d.key, logs, d.span, row.compute)
    && SumLengths(SpansOf(items)) == SumValues(row.compute) + row.rawPpGapNs
    && StageWindows(d.key, d.span, steps, row.stages)
    && (forall g :: g in row.gaps <==> IsGap(row.stages, g)) && NoRepeat(row.gaps)
    && RowItems(d, logs, row.gaps, items)
    && Attributed(items, d.span.lo, d.span.hi, row.wall)
    && row.ppGapNs == At(row.wall.wall, PpGap)
    && row.rawPpGapNs == SumLengths(GapSpans(row.gaps))
    && row.unattributedNs == At(row.wall.wall, PipelineGap)
  }

  lemma GapItems(d: Dispatch, logs: seq<PhaseLog>, steps: seq<Work>, stages: map<Stage, Span>, gaps: seq<Gap>,
                 items: seq<Item>)
    requires NS_FLOOR < d.span.lo && StageWindows(d.key, d.span, steps, stages)
    requires forall g :: g in gaps ==> IsGap(stages, g)
    requires WithinWindow(items, d.span) && FromPhases(items)
    requires forall t :: Holds(d.span, t) ==> Active(items, t) == Computing(d.key, logs, t)
    ensures RowItems(d, logs, gaps, items + ItemsOf(GapSpans(gaps), PpGap))
  {
    var spans := GapSpans(gaps);
    var more := ItemsOf(spans, PpGap);
    forall i | 0 <= i < |gaps|
      ensures d.span.lo < spans[i].lo < spans[i].hi < d.span.hi
    {
      assert gaps[i] in gaps;
      GapsInside(d.key, d.span, steps, stages, gaps[i]);
    }
    assert WithinWindow(more, d.span);
    forall t | Holds(d.span, t)
      ensures Active(items + more, t) == Computing(d.key, logs, t) + if t in Covered(spans) then {PpGap} else {}
    {
      ActiveSplit(items, more, t);
      ItemsOfActive(spans, PpGap, t);
    }
  }

  /** The body of the loop over dispatches. */
  method BuildRow(d: Dispatch, logs: seq<PhaseLog>, steps: seq<Work>) returns (row: Row, items: seq<Item>)
    requires Stamped(d.span) && 0 < d.span.lo < d.span.hi
    requires LogsStamped(logs) && WorksStamped(steps)
    ensures RowRight(d, logs, steps, row, items)
  {
    var compute;
    items, compute := ComputeItems(d.key, d.span, logs);
    var stages := WindowsOf(d.key, d.span, steps);
    var gaps := FindGaps(stages);
    GapItems(d, logs, steps, stages, gaps, items);
    LengthsAdded(items, GapSpans(gaps), PpGap);
    items := items + ItemsOf(GapSpans(gaps), PpGap);
    var wall := AttributeWall(items, d.span.lo, d.span.hi);
    row := Row(d, compute, stages, gaps, wall, At(wall.wall, PpGap), SumLengths(GapSpans(gaps)),
               At(wall.wall, PipelineGap));
  }

  lemma TopPpGap(items: seq<Item>, t: int)
    ensures Top(items, t, PpGap) <==> PpGap in Active(items, t)
  {
  }

  lemma PpGapShare(items: seq<Item>, lo: int, hi: int, t: int)
    requires lo <= t < hi
    ensures Chosen(items, lo, hi, t, PpGap) <==> PpGap in Active(items, t)
  {
    TopPpGap(items, t);
  }

  lemma NoPhasePpGap(key: BatchKey, logs: seq<PhaseLog>, t: int)
    ensures PpGap !in Computing(key, logs, t) && PipelineGap !in Computing(key, logs, t)
  {
  }

  lemma GapsWithin(d: Dispatch, steps: seq<Work>, stages: map<Stage, Span>, gaps: seq<Gap>)
    requires StageWindows(d.key, d.span, steps, stages)
    requires forall g :: g in gaps ==> IsGap(stages, g)
    ensures Covered(GapSpans(gaps)) <= Instants(d.span.lo, d.span.hi)
  {
    var spans := GapSpans(gaps);
    forall x | x in spans
      ensures d.span.lo < x.lo && x.hi < d.span.hi
    {
      var i :| 0 <= i < |spans| && spans[i] == x;
      assert gaps[i] in gaps;
      GapsInside(d.key, d.span, steps, stages, gaps[i]);
    }
  }

  /** The instants of a dispatch at which something computes or a pipeline gap is open. */
  ghost function RowBusy(d: Dispatch, logs: seq<PhaseLog>, gaps: seq<Gap>): set<int> {
    set t | d.span.lo <= t < d.span.hi && Holds(d.span, t) &&
            (Computing(d.key, logs, t) != {} || t in Covered(GapSpans(gaps)))
  }

  lemma ActiveIsCovered(items: seq<Item>, t: int)
    requires forall x :: x in items ==> 0 < x.span.lo
    ensures Active(items, t) != {} <==> t in Covered(SpansOf(items))
  {
    if t in Covered(SpansOf(items)) {
      var i :| 0 <= i < |items| && Holds(SpansOf(items)[i], t);
      assert items[i] in items && items[i].component in Active(items, t);
    }
    if Active(items, t) != {} {
      var c :| c in Active(items, t);
      var x :| x in items && Holds(x.span, t);
      var i :| 0 <= i < |items| && items[i] == x;
      assert SpansOf(items)[i] in SpansOf(items);
    }
  }

  /** A row's parallel overlap: the time of all its groups and gaps, added up, minus the time at which the dispatch
      is busy. */
  lemma RowOverlap(d: Dispatch, logs: seq<PhaseLog>, steps: seq<Work>, row: Row, items: seq<Item>)
    requires RowRight(d, logs, steps, row, items)
    ensures row.wall.overlap == SumValues(row.compute) + row.rawPpGapNs - |RowBusy(d, logs, row.gaps)|
  {
    var xs := SpansOf(items);
    var lo, hi := d.span.lo, d.span.hi;
    forall i | 0 <= i < |xs|
      ensures 0 < xs[i].lo < xs[i].hi && lo <= xs[i].lo && xs[i].hi <= hi
    {
      assert items[i] in items;
    }
    assert forall x :: x in xs ==> 0 < x.lo < x.hi && lo <= x.lo && x.hi <= hi;
    ClipUnchanged(xs, lo, hi);
    RecordedUnchanged(xs, lo, hi);
    BusyIsCovered(d, logs, row.gaps, items);
  }

  lemma BusyIsCovered(d: Dispatch, logs: seq<PhaseLog>, gaps: seq<Gap>, items: seq<Item>)
    requires RowItems(d, logs, gaps, items)
    ensures Covered(SpansOf(items)) == RowBusy(d, logs, gaps)
  {
    forall t
      ensures t in Covered(SpansOf(items)) <==> t in RowBusy(d, logs, gaps)
    {
      ActiveIsCovered(items, t);
      if t in Covered(SpansOf(items)) {
        var i :| 0 <= i < |items| && Holds(SpansOf(items)[i], t);
        assert items[i] in items;
      }
    }
  }

  /** A row's pipeline gap is the measure of the union of its gap intervals; its components fill its dispatch. */
  lemma RowExact(d: Dispatch, logs: seq<PhaseLog>, steps: seq<Work>, row: Row, items: seq<Item>)
    requires d.span.lo < d.span.hi && RowRight(d, logs, steps, row, items)
    ensures row.ppGapNs == |Covered(GapSpans(row.gaps))| <= row.rawPpGapNs
    ensures row.ppGapNs == row.rawPpGapNs <==> Disjoint(GapSpans(row.gaps))
    ensures InRankOrderStarts(row.stages) ==> row.ppGapNs == row.rawPpGapNs
    ensures SumValues(row.wall.wall) == Length(d.span)
  {
    var gapTime := Covered(GapSpans(row.gaps));
    GapsWithin(d, steps, row.stages, row.gaps);
    forall t | Holds(d.span, t)
      ensures t in Share(items, d.span.lo, d.span.hi, PpGap) <==> t in gapTime
    {
      PpGapShare(items, d.span.lo, d.span.hi, t);
      NoPhasePpGap(d.key, logs, t);
    }
    assert Share(items, d.span.lo, d.span.hi, PpGap) == gapTime;
    SumAndMeasure(GapSpans(row.gaps));
    WallSum(items, d.span.lo, d.span.hi, row.wall);
    if InRankOrderStarts(row.stages) {
      OrderedGapsDisjoint(row.stages, row.gaps);
    }
  }
}
