/** The time-to-first-token decomposition of one request. */
module Ttft {
  import opened Sets
  import opened Spans
  import opened Sorting
  import opened Intervals
  import opened Sweep
  import opened Stages
  import opened Breakdown
  import opened Totals
  import opened QueueGaps
  import opened Tpot

  datatype TtftEntry = TtftEntry(
    preprocessNs: int,
    engineQueueNs: int,
    queueBeforeNs: int,
    queueBetweenNs: int,
    prefillExecNs: int,
    postprocessNs: int,
    otherGapNs: int,
    initialPrefillEndNs: int,
    phases: map<Component, int>,
    report: Report)

  /** The components before `other_gap` fills up the window. */
  function FiveSum(e: TtftEntry): int {
    e.preprocessNs + e.engineQueueNs + (e.queueBeforeNs + e.queueBetweenNs) + e.prefillExecNs + e.postprocessNs
  }

  function SixSum(e: TtftEntry): int {
    FiveSum(e) + e.otherGapNs
  }

  function LastEnd(ss: seq<Span>): int
    requires ss != []
  {
    if |ss| == 1 then ss[0].hi else Max(LastEnd(ss[..|ss| - 1]), ss[|ss| - 1].hi)
  }

  lemma {:induction false} LastEndIsMax(ss: seq<Span>)
    requires ss != []
    ensures forall s :: s in ss ==> s.hi <= LastEnd(ss)
    ensures exists s :: s in ss && s.hi == LastEnd(ss)
  {
    var n := |ss| - 1;
    if n > 0 {
      LastEndIsMax(ss[..n]);
      assert forall s :: s in ss <==> s in ss[..n] || s == ss[n];
    } else {
      assert ss[0] in ss;
    }
  }

  // ------------------------------------- gaps and executions fill the stretch

  lemma {:induction false} FilledAt(ss: seq<Span>, t: int)
    requires InOrder(ss) && ss != [] && ss[0].lo <= t < LastEnd(ss) && t !in Covered(ss)
    ensures t in Covered(AdjacentGaps(ss))
  {
    LastEndIsMax(ss);
    if t < ss[|ss| - 1].lo {
      UncoveredIsGap(ss, t);
    } else {
      var i :| 0 <= i < |ss| && ss[i].hi == LastEnd(ss);
      assert i < |ss| - 1 ==> ss[i].lo <= ss[|ss| - 1].lo;
      assert Holds(ss[i], t);
    }
  }

  lemma {:induction false} FillsOnly(ss: seq<Span>)
    requires InOrder(ss) && ss != []
    ensures Covered(ss) <= Instants(ss[0].lo, LastEnd(ss))
    ensures Covered(AdjacentGaps(ss)) <= Instants(ss[0].lo, LastEnd(ss))
  {
    LastEndIsMax(ss);
    forall i | 0 <= i < |ss|
      ensures ss[0].lo <= ss[i].lo < ss[i].hi <= LastEnd(ss)
    {
      assert ss[i] in ss;
    }
    forall t | t in Covered(AdjacentGaps(ss))
      ensures ss[0].lo <= t < LastEnd(ss)
    {
      AdjacentGapsCover(ss, t);
      var i :| 0 <= i < |ss| - 1 && ss[i].hi <= t < ss[i + 1].lo;
    }
  }

  /** Between the first start and the last end, every instant is executed or inside a gap. */
  lemma {:induction false} StretchFilled(ss: seq<Span>)
    requires InOrder(ss) && ss != []
    ensures Covered(ss) + Covered(AdjacentGaps(ss)) == Instants(ss[0].lo, LastEnd(ss))
  {
    FillsOnly(ss);
    forall t | ss[0].lo <= t < LastEnd(ss) && t !in Covered(ss)
      ensures t in Covered(AdjacentGaps(ss))
    {
      FilledAt(ss, t);
    }
  }

  /** The instants that are both executed and inside a gap between neighbours. */
  ghost function DoubleTime(ss: seq<Span>): set<int> {
    Covered(ss) * Covered(AdjacentGaps(ss))
  }

  lemma {:induction false} StretchMeasure(ss: seq<Span>)
    requires InOrder(ss) && ss != []
    ensures |Covered(ss)| + SumLengths(AdjacentGaps(ss)) == LastEnd(ss) - ss[0].lo + |DoubleTime(ss)|
    ensures ss[0].lo < LastEnd(ss)
  {
    StretchFilled(ss);
    AdjacentGapsDisjoint(ss);
    UnionSize(Covered(ss), Covered(AdjacentGaps(ss)));
    LastEndIsMax(ss);
    assert ss[0] in ss;
    InstantsSize(ss[0].lo, LastEnd(ss));
  }

  // --------------------------------------------------- engine-core queue marks

  ghost function Marks(cl: seq<Span>): (Option<int>, Option<int>) {
    if cl == [] then (None, None) else (Some(cl[0].lo), Some(cl[|cl| - 1].hi))
  }

  /** First start and last end of the engine-core waits inside the window, in start order. */
  ghost function EngineMarks(engine: seq<Span>, start: int, end: int): (Option<int>, Option<int>)
    requires AllStamped(engine)
  {
    SortedStamped(engine);
    Marks(ClipAll(SortBy(engine, SpanKey), Some(start), Some(end)))
  }

  lemma {:induction false} SortedStamped(engine: seq<Span>)
    requires AllStamped(engine)
    ensures AllStamped(SortBy(engine, SpanKey))
  {
    SameElements(engine, SpanKey);
  }

  method FindMarks(engine: seq<Span>, start: int, end: int) returns (first: Option<int>, last: Option<int>)
    requires AllStamped(engine)
    ensures (first, last) == EngineMarks(engine, start, end)
  {
    var ordered := SortBy(engine, SpanKey);
    SortedStamped(engine);
    first, last := None, None;
    for i := 0 to |ordered|
      invariant AllStamped(ordered[..i])
      invariant (first, last) == Marks(ClipAll(ordered[..i], Some(start), Some(end)))
    {
      assert ordered[..i + 1][..i] == ordered[..i];
      assert ordered[i] in ordered;
      var span := ClipInterval(ordered[i], Some(start), Some(end));
      if span.None? {
        continue;
      }
      if first.None? {
        first := Some(span.value.lo);
      }
      last := Some(span.value.hi);
    }
    assert ordered[..|ordered|] == ordered;
  }

  /** The wait has a part in the window. */
  ghost predicate Reaches(x: Span, start: int, end: int) {
    0 < x.lo && Max(x.lo, start) < Min(x.hi, end)
  }

  /** The last wait in start order of those that reach into the window. */
  ghost predicate IsLastWait(engine: seq<Span>, start: int, end: int, x: Span) {
    && x in engine && Reaches(x, start, end)
    && forall y :: y in engine && Reaches(y, start, end) ==> y.lo < x.lo || (y.lo == x.lo && y.hi <= x.hi)
  }

  /** `first` is where the first part of a wait in the window starts. */
  ghost predicate IsFirstMark(engine: seq<Span>, start: int, end: int, first: int) {
    && (exists x :: x in engine && Reaches(x, start, end) && first == Max(x.lo, start))
    && forall y :: y in engine && Reaches(y, start, end) ==> first <= Max(y.lo, start)
  }

  /** `last` is where the part of the last wait in the window ends. */
  ghost predicate IsLastMark(engine: seq<Span>, start: int, end: int, last: int) {
    exists x :: IsLastWait(engine, start, end, x) && last == Min(x.hi, end)
  }

  ghost predicate NoneReach(engine: seq<Span>, start: int, end: int) {
    forall x :: x in engine ==> !Reaches(x, start, end)
  }

  /** Two marks, or none when no wait reaches into the window. */
  ghost predicate MarksRight(engine: seq<Span>, start: int, end: int, first: Option<int>, last: Option<int>) {
    if NoneReach(engine, start, end) then first == None && last == None
    else
      && first.Some? && IsFirstMark(engine, start, end, first.value)
      && last.Some? && IsLastMark(engine, start, end, last.value)
  }

  lemma MarksPlus(front: seq<Span>, x: Span, start: int, end: int, first: Option<int>, last: Option<int>)
    requires MarksRight(front, start, end, first, last)
    requires forall y :: y in front ==> y.lo < x.lo || (y.lo == x.lo && y.hi <= x.hi)
    ensures !Reaches(x, start, end) ==> MarksRight(front + [x], start, end, first, last)
    ensures Reaches(x, start, end) ==>
      MarksRight(front + [x], start, end, if first.None? then Some(Max(x.lo, start)) else first, Some(Min(x.hi, end)))
  {
    var xs := front + [x];
    assert forall y :: y in xs <==> y in front || y == x;
    if Reaches(x, start, end) {
      assert IsLastWait(xs, start, end, x);
      assert x in xs;
    } else {
      assert forall w :: IsLastWait(front, start, end, w) ==> IsLastWait(xs, start, end, w);
    }
  }

  lemma ReachesClip(x: Span, start: int, end: int)
    requires Stamped(x)
    ensures ClipInterval(x, Some(start), Some(end))
      == if Reaches(x, start, end) then Some(Span(Max(x.lo, start), Min(x.hi, end))) else None
  {
  }

  lemma LastIsLargest(xs: seq<Span>)
    requires xs != [] && SortedBy(xs, SpanKey)
    ensures var x := xs[|xs| - 1];
      forall y :: y in xs[..|xs| - 1] ==> y.lo < x.lo || (y.lo == x.lo && y.hi <= x.hi)
  {
    var n := |xs| - 1;
    forall y | y in xs[..n]
      ensures y.lo < xs[n].lo || (y.lo == xs[n].lo && y.hi <= xs[n].hi)
    {
      var i :| 0 <= i < n && xs[i] == y;
      assert LE(SpanKey(xs[i]), SpanKey(xs[n]));
    }
  }

  lemma {:induction false} MarksLast(xs: seq<Span>, start: int, end: int)
    requires AllStamped(xs) && xs != []
    ensures var x, was := xs[|xs| - 1], Marks(ClipAll(xs[..|xs| - 1], Some(start), Some(end)));
      Marks(ClipAll(xs, Some(start), Some(end))) ==
        if !Reaches(x, start, end) then was
        else (if was.0.None? then Some(Max(x.lo, start)) else was.0, Some(Min(x.hi, end)))
  {
    assert xs[|xs| - 1] in xs;
    ReachesClip(xs[|xs| - 1], start, end);
  }

  lemma {:induction false} MarksOfOrdered(xs: seq<Span>, start: int, end: int)
    requires AllStamped(xs) && SortedBy(xs, SpanKey)
    ensures var marks := Marks(ClipAll(xs, Some(start), Some(end)));
      MarksRight(xs, start, end, marks.0, marks.1)
  {
    if xs != [] {
      var n := |xs| - 1;
      var front, x := xs[..n], xs[n];
      MarksOfOrdered(front, start, end);
      LastIsLargest(xs);
      assert x in xs && xs == front + [x];
      MarksLast(xs, start, end);
      var was := Marks(ClipAll(front, Some(start), Some(end)));
      MarksPlus(front, x, start, end, was.0, was.1);
    }
  }

  /** The marks, from the waits in any order. */
  lemma MarksAre(engine: seq<Span>, start: int, end: int)
    requires AllStamped(engine)
    ensures var marks := EngineMarks(engine, start, end); MarksRight(engine, start, end, marks.0, marks.1)
  {
    var ordered := SortBy(engine, SpanKey);
    SortedStamped(engine);
    SameElements(engine, SpanKey);
    MarksOfOrdered(ordered, start, end);
    assert forall x :: IsLastWait(ordered, start, end, x) <==> IsLastWait(engine, start, end, x);
  }

  /** The instants of the window before the first engine-core wait there; without one, before the first prefill and,
      when there is an enqueue stamp, before it. */
  ghost function SetupTime(ss: seq<Span>, engine: seq<Span>, enqueue: int, start: int, end: int): set<int>
    requires ss != []
  {
    set t | start <= t < end && Holds(Span(start, end), t) &&
            if NoneReach(engine, start, end) then t < ss[0].lo && (enqueue > 0 ==> t < enqueue)
            else forall x :: x in engine && Reaches(x, start, end) ==> t < x.lo
  }

  /** `t` lies behind the part of the last wait that is in the window. */
  ghost predicate Behind(engine: seq<Span>, start: int, end: int, t: int) {
    forall x :: IsLastWait(engine, start, end, x) ==> Min(x.hi, end) <= t
  }

  /** The instants after that, up to the first prefill, and behind the last engine-core wait. */
  ghost function BeforeTime(ss: seq<Span>, engine: seq<Span>, enqueue: int, start: int, end: int): set<int>
    requires ss != []
  {
    set t | start <= t < ss[0].lo && Holds(Span(start, ss[0].lo), t) && t !in SetupTime(ss, engine, enqueue, start, end)
            && Behind(engine, start, end, t)
  }

  lemma SetupIs(ss: seq<Span>, engine: seq<Span>, enqueue: int, start: int, end: int)
    requires ss != [] && AllStamped(engine) && Stamp(enqueue) && start < end
    ensures var marks := EngineMarks(engine, start, end);
      var b := Boundary(marks.0, enqueue, ss[0].lo, start, end);
      SetupTime(ss, engine, enqueue, start, end) == Instants(start, b)
  {
    var marks := EngineMarks(engine, start, end);
    var b := Boundary(marks.0, enqueue, ss[0].lo, start, end);
    MarksAre(engine, start, end);
    if marks.0.Some? {
      var x :| x in engine && Reaches(x, start, end) && marks.0.value == Max(x.lo, start);
      assert start <= b <= Max(x.lo, start);
      forall t | start <= t < end
        ensures t in SetupTime(ss, engine, enqueue, start, end) <==> t < b
      {
        assert forall y :: y in engine && Reaches(y, start, end) ==> marks.0.value <= Max(y.lo, start);
        assert t < marks.0.value ==> forall y :: y in engine && Reaches(y, start, end) ==> t < y.lo;
      }
    }
  }

  lemma BeforeIs(ss: seq<Span>, engine: seq<Span>, enqueue: int, start: int, end: int)
    requires ss != [] && AllStamped(engine) && Stamp(enqueue) && start < end
    ensures var marks := EngineMarks(engine, start, end);
      var b := Boundary(marks.0, enqueue, ss[0].lo, start, end);
      BeforeTime(ss, engine, enqueue, start, end) == Instants(EngineEnd(marks.1, b, ss[0].lo), ss[0].lo)
  {
    var marks := EngineMarks(engine, start, end);
    var b := Boundary(marks.0, enqueue, ss[0].lo, start, end);
    MarksAre(engine, start, end);
    SetupIs(ss, engine, enqueue, start, end);
    forall t | start <= t < ss[0].lo && t >= b
      ensures t in BeforeTime(ss, engine, enqueue, start, end) <==> EngineEnd(marks.1, b, ss[0].lo) <= t
    {
      BehindLast(engine, start, end, marks.1, t);
    }
  }

  lemma BehindLast(engine: seq<Span>, start: int, end: int, last: Option<int>, t: int)
    requires if last.Some? then IsLastMark(engine, start, end, last.value) else NoneReach(engine, start, end)
    ensures Behind(engine, start, end, t) <==> (last.Some? ==> last.value <= t)
  {
    if last.Some? {
      var x :| IsLastWait(engine, start, end, x) && last.value == Min(x.hi, end);
      assert forall y :: IsLastWait(engine, start, end, y) ==> y == x;
    }
  }

  /** `preprocess_boundary_ns`. */
  function Boundary(first: Option<int>, enqueue: int, firstPrefill: int, start: int, end: int): int
    requires Stamp(enqueue)
  {
    var raw := if first.Some? then first.value
               else if enqueue > 0 then Min(enqueue, Min(firstPrefill, end)) else Min(firstPrefill, end);
    Max(start, Min(raw, end))
  }

  /** `enginecore_queue_end_ns` after clamping. */
  function EngineEnd(last: Option<int>, boundary: int, firstPrefill: int): int {
    Max(boundary, Min(if last.Some? then last.value else boundary, firstPrefill))
  }

  // ------------------------------------------------------------- the entry

  /** An entry built from its totals: the boundary `b`, the engine-queue end `q`, the first prefill
      start and last prefill end, and the three sums. */
  function Assemble(start: int, end: int, b: int, q: int, first: int, last: int, engineNs: int, between: int,
                    execNs: int, phases: map<Component, int>, report: Report): TtftEntry {
    var five := (b - start) + engineNs + (Max(0, first - q) + between) + execNs + Max(0, end - last);
    TtftEntry(b - start, engineNs, Max(0, first - q), between, execNs, Max(0, end - last),
              Max(0, end - start - five), last, phases, report)
  }

  /** The arithmetic that every entry obeys, on every input. */
  ghost predicate TtftRight(e: TtftEntry, ss: seq<Span>, engine: seq<Span>, enqueue: int, start: int, end: int)
    requires ss != [] && AllStamped(engine) && Stamp(enqueue)
  {
    var marks := EngineMarks(engine, start, end);
    var b := Boundary(marks.0, enqueue, ss[0].lo, start, end);
    var engineNs := SumLengths(ClipAll(engine, Some(start), Some(end)));
    && e == Assemble(start, end, b, EngineEnd(marks.1, b, ss[0].lo), ss[0].lo, LastEnd(ss), engineNs,
                     SumLengths(AdjacentGaps(ss)), |Covered(ss)|, e.phases, e.report)
    && SumValues(e.phases) == |Covered(ss)|
  }

  method ComputeTtft(prefills: seq<Dispatch>, engine: seq<Span>, enqueue: int, start: int, end: int,
                     logs: seq<PhaseLog>, steps: seq<Work>)
    returns (r: Option<TtftEntry>)
    requires prefills != [] && forall d :: d in prefills ==> Stamped(d.span) && Usable(d)
    requires AllStamped(engine) && Stamp(enqueue) && LogsStamped(logs) && WorksStamped(steps)
    ensures r.Some? <==> start < end
    ensures r.Some? ==> TtftRight(r.value, DispatchSpans(SortBy(prefills, DispatchKey)), engine, enqueue, start, end)
    ensures r.Some? ==> PhasesOf(r.value.phases, OtherPrefillExec, SortBy(prefills, DispatchKey), logs, steps)
    ensures r.Some? ==> ReportFor(SortBy(prefills, DispatchKey), logs, steps, r.value.report)
  {
    if end <= start {
      return None;
    }
    var ordered := SortBy(prefills, DispatchKey);
    SameElements(prefills, DispatchKey);
    DispatchesInOrder(prefills);
    var e := BuildTtft(ordered, engine, enqueue, start, end, logs, steps);
    r := Some(e);
  }

  method BuildTtft(ordered: seq<Dispatch>, engine: seq<Span>, enqueue: int, start: int, end: int,
                   logs: seq<PhaseLog>, steps: seq<Work>)
    returns (e: TtftEntry)
    requires ordered != [] && InOrder(DispatchSpans(ordered))
    requires forall d :: d in ordered ==> Stamped(d.span) && Usable(d)
    requires AllStamped(engine) && Stamp(enqueue) && LogsStamped(logs) && WorksStamped(steps) && start < end
    ensures TtftRight(e, DispatchSpans(ordered), engine, enqueue, start, end)
    ensures PhasesOf(e.phases, OtherPrefillExec, ordered, logs, steps) && ReportFor(ordered, logs, steps, e.report)
  {
    var ss := DispatchSpans(ordered);
    var engineNs, _ := SumClippedItems(engine, Some(start), Some(end), false);
    var first, last := FindMarks(engine, start, end);
    var boundary := Boundary(first, enqueue, ss[0].lo, start, end);
    var engineEnd := EngineEnd(last, boundary, ss[0].lo);
    var between := BetweenPrefills(ss);
    var lastEnd := LargestEnd(ss);
    var execNs := PrefillExec(ordered, lastEnd);
    var phases, report := PrefillPhases(ordered, logs, steps);
    e := Assemble(start, end, boundary, engineEnd, ss[0].lo, lastEnd, engineNs, between, execNs, phases, report);
  }

  method PrefillExec(ordered: seq<Dispatch>, lastEnd: int) returns (n: int)
    requires ordered != [] && InOrder(DispatchSpans(ordered))
    requires forall d :: d in ordered ==> Stamped(d.span) && Usable(d)
    requires lastEnd == LastEnd(DispatchSpans(ordered))
    ensures n == |Covered(DispatchSpans(ordered))|
  {
    ghost var ss := DispatchSpans(ordered);
    LastEndIsMax(ss);
    forall d | d in ordered
      ensures ss[0].lo <= d.span.lo && d.span.hi <= lastEnd
    {
      var i :| 0 <= i < |ordered| && ordered[i] == d;
      assert ss[i] in ss && ss[0].lo <= ss[i].lo;
    }
    var pairs;
    n, pairs := SumExec(ordered, ordered[0].span.lo, lastEnd);
  }

  method BetweenPrefills(ss: seq<Span>) returns (n: int)
    ensures n == SumLengths(AdjacentGaps(ss))
  {
    n := 0;
    var i := 0;
    assert ss != [] ==> AdjacentGaps(ss[..1]) == [];
    while i + 1 < |ss|
      invariant i <= |ss| && (ss != [] ==> i < |ss| && n == SumLengths(AdjacentGaps(ss[..i + 1])))
      invariant ss == [] ==> n == 0
    {
      assert ss[..i + 2][..i + 1] == ss[..i + 1];
      SumLengthsSplit(AdjacentGaps(ss[..i + 1]), GapSpan(ss[i], ss[i + 1]));
      GapSpanLength(ss[i], ss[i + 1]);
      n := n + Max(0, ss[i + 1].lo - ss[i].hi);
      i := i + 1;
    }
    assert ss[..|ss|] == ss;
  }

  /** `max` over the ends. */
  method LargestEnd(ss: seq<Span>) returns (n: int)
    requires ss != []
    ensures n == LastEnd(ss)
  {
    n := ss[0].hi;
    for i := 1 to |ss|
      invariant n == LastEnd(ss[..i])
    {
      assert ss[..i + 1][..i] == ss[..i];
      n := Max(n, ss[i].hi);
    }
    assert ss[..|ss|] == ss;
  }

  /** The prefill phases; other compute and the pipeline gap become other prefill exec. */
  method PrefillPhases(ds: seq<Dispatch>, logs: seq<PhaseLog>, steps: seq<Work>)
    returns (m: map<Component, int>, b: Report)
    requires forall d :: d in ds ==> Stamped(d.span) && Usable(d)
    requires LogsStamped(logs) && WorksStamped(steps)
    ensures SumValues(m) == |Covered(DispatchSpans(ds))|
    ensures PhasesOf(m, OtherPrefillExec, ds, logs, steps) && ReportFor(ds, logs, steps, b)
  {
    b := BuildBreakdown(ds, logs, steps);
    SameKept(ds);
    var first := MoveInto(b.wall, OtherCompute, OtherPrefillExec);
    m := MoveInto(first, PipelineGap, OtherPrefillExec);
    NotPrefillExec(b.wall);
    MovesSplit(b.wall, first, m, Rows(ds), logs, steps, b.windows);
  }

  lemma NotPrefillExec(wall: map<Component, int>)
    requires forall c :: At(wall, c) != 0 ==> ReportedComponent(c) || c == PipelineGap
    ensures At(wall, OtherPrefillExec) == 0
  {
  }

  lemma MovesSplit(wall: map<Component, int>, first: map<Component, int>, m: map<Component, int>,
                   rows: seq<Dispatch>, logs: seq<PhaseLog>, steps: seq<Work>, ws: seq<Span>)
    requires forall c :: At(wall, c) == |TimeOf(rows, logs, steps, ws, c)|
    requires At(wall, OtherPrefillExec) == 0
    requires Moved(wall, first, OtherCompute, OtherPrefillExec) && Moved(first, m, PipelineGap, OtherPrefillExec)
    ensures SplitsLike(m, OtherPrefillExec, rows, logs, steps, ws)
  {
  }

  // ------------------------------------------------------------ conservation

  /** What the inputs make the five components exceed the window by: engine-core waits, dispatch time that is
      counted twice, a boundary after the first prefill, and a prefill that ends after the window. */
  ghost function Excess(ss: seq<Span>, engine: seq<Span>, boundary: int, start: int, end: int): int
    requires ss != [] && AllStamped(engine)
  {
    SumLengths(ClipAll(engine, Some(start), Some(end))) + |DoubleTime(ss)| + Max(0, boundary - ss[0].lo)
      + Max(0, LastEnd(ss) - end)
  }

  /** The stretch between the marks of the engine queue. */
  ghost function Stretch(ss: seq<Span>, engine: seq<Span>, enqueue: int, start: int, end: int): int
    requires ss != [] && AllStamped(engine) && Stamp(enqueue)
  {
    var marks := EngineMarks(engine, start, end);
    var b := Boundary(marks.0, enqueue, ss[0].lo, start, end);
    EngineEnd(marks.1, b, ss[0].lo) - b
  }

  /** The excess fits into the stretch. */
  ghost predicate ExcessFits(ss: seq<Span>, engine: seq<Span>, enqueue: int, start: int, end: int)
    requires ss != [] && AllStamped(engine) && Stamp(enqueue)
  {
    var b := Boundary(EngineMarks(engine, start, end).0, enqueue, ss[0].lo, start, end);
    Excess(ss, engine, b, start, end) <= Stretch(ss, engine, enqueue, start, end)
  }

  /** On every input the five components exceed the window by `Excess` minus the stretch between the
      marks of the engine queue; so all six meet the window iff the excess fits into that stretch. */
  lemma TtftBalance(e: TtftEntry, ss: seq<Span>, engine: seq<Span>, enqueue: int, start: int, end: int)
    requires InOrder(ss) && ss != [] && AllStamped(engine) && Stamp(enqueue)
    requires TtftRight(e, ss, engine, enqueue, start, end)
    ensures var marks := EngineMarks(engine, start, end);
      var b := Boundary(marks.0, enqueue, ss[0].lo, start, end);
      var stretch := Stretch(ss, engine, enqueue, start, end);
      var excess := Excess(ss, engine, b, start, end);
      && FiveSum(e) + stretch == end - start + excess
      && SixSum(e) >= end - start
      && (SixSum(e) == end - start <==> ExcessFits(ss, engine, enqueue, start, end))
      && (SixSum(e) == end - start ==> e.otherGapNs == stretch - excess)
  {
    StretchMeasure(ss);
  }

  /** What an entry says about its inputs: every component but the engine-core sum is the size of a set of instants. */
  ghost predicate TtftMeasured(e: TtftEntry, ss: seq<Span>, engine: seq<Span>, enqueue: int, start: int, end: int)
    requires ss != [] && AllStamped(engine)
  {
    && e.preprocessNs == |SetupTime(ss, engine, enqueue, start, end)|
    && e.engineQueueNs == SumLengths(ClipAll(engine, Some(start), Some(end)))
    && e.queueBeforeNs == |BeforeTime(ss, engine, enqueue, start, end)|
    && e.queueBetweenNs == |Covered(AdjacentGaps(ss))|
    && e.prefillExecNs == |Covered(ss)| == SumValues(e.phases)
    && e.postprocessNs == |Instants(LastEnd(ss), end)|
    && e.otherGapNs == Max(0, end - start - FiveSum(e))
    && e.initialPrefillEndNs == LastEnd(ss)
  }

  /** The components as measures: each but the engine-core sum is the size of a set of instants. */
  lemma {:induction false} TtftParts(e: TtftEntry, ss: seq<Span>, engine: seq<Span>, enqueue: int, start: int,
                                     end: int)
    requires InOrder(ss) && ss != [] && AllStamped(engine) && Stamp(enqueue) && start < end
    requires TtftRight(e, ss, engine, enqueue, start, end)
    ensures var marks := EngineMarks(engine, start, end);
      var b := Boundary(marks.0, enqueue, ss[0].lo, start, end);
      var q := EngineEnd(marks.1, b, ss[0].lo);
      && start <= b <= end && b <= q
      && e.preprocessNs == |Instants(start, b)| && e.queueBeforeNs == |Instants(q, ss[0].lo)|
    ensures TtftMeasured(e, ss, engine, enqueue, start, end)
    ensures e.engineQueueNs >= |Recorded(engine, Some(start), Some(end))|
    ensures e.engineQueueNs == |Recorded(engine, Some(start), Some(end))| <==>
      Disjoint(ClipAll(engine, Some(start), Some(end)))
  {
    var marks := EngineMarks(engine, start, end);
    var b := Boundary(marks.0, enqueue, ss[0].lo, start, end);
    SetupIs(ss, engine, enqueue, start, end);
    BeforeIs(ss, engine, enqueue, start, end);
    InstantsSize(start, b);
    InstantsSize(EngineEnd(marks.1, b, ss[0].lo), ss[0].lo);
    InstantsSize(LastEnd(ss), end);
    AdjacentGapsDisjoint(ss);
    ClipAllMeaning(engine, Some(start), Some(end));
    SumAndMeasure(ClipAll(engine, Some(start), Some(end)));
  }

  /** The engine-core waits do not overlap and lie between the window start and the first prefill. */
  ghost predicate EngineInPlace(engine: seq<Span>, start: int, firstPrefill: int) {
    && Disjoint(engine)
    && forall x :: x in engine ==> NS_FLOOR < x.lo < x.hi && start <= x.lo && x.hi <= firstPrefill
  }

  /** Waits in place fit between their marks. */
  lemma {:induction false} EngineFits(engine: seq<Span>, start: int, end: int, firstPrefill: int)
    requires EngineInPlace(engine, start, firstPrefill) && start <= firstPrefill < end && AllStamped(engine)
    ensures var marks := EngineMarks(engine, start, end);
      var waits := SumLengths(ClipAll(engine, Some(start), Some(end)));
      && (marks.0.None? <==> engine == []) && (marks.0.None? <==> marks.1.None?)
      && (marks.0.None? ==> waits == 0)
      && (marks.0.Some? ==> start <= marks.0.value < marks.1.value <= firstPrefill
                            && waits <= marks.1.value - marks.0.value)
  {
    SortedStamped(engine);
    SameElements(engine, SpanKey);
    var ordered := SortBy(engine, SpanKey);
    ClipUnchanged(engine, start, end);
    ClipUnchanged(ordered, start, end);
    SumAndMeasure(engine);
    assert Covered(ordered) == Covered(engine);
    if engine != [] {
      assert engine[0] in engine;
      assert ordered != [];
      var n := |ordered| - 1;
      assert ordered[0] in ordered && ordered[n] in ordered;
      InstantsSize(ordered[0].lo, ordered[n].hi);
      WithinMarks(engine, ordered);
      SubsetSize(Covered(engine), Instants(ordered[0].lo, ordered[n].hi));
    }
  }

  lemma OnlyOneHolds(xs: seq<Span>, x: Span, y: Span, t: int)
    requires Disjoint(xs) && x in xs && y in xs && Holds(x, t) && Holds(y, t)
    ensures x == y
  {
    var i :| 0 <= i < |xs| && xs[i] == x;
    var j :| 0 <= j < |xs| && xs[j] == y;
    if i < j {
      assert !Holds(xs[j], t);
    }
  }

  lemma BetweenMarks(xs: seq<Span>, ordered: seq<Span>, i: nat)
    requires SortedBy(ordered, SpanKey) && i < |ordered| && forall x :: x in ordered ==> x in xs && x.lo < x.hi
    requires Disjoint(xs)
    ensures ordered[0].lo <= ordered[i].lo && ordered[i].hi <= ordered[|ordered| - 1].hi
  {
    var x, last := ordered[i], ordered[|ordered| - 1];
    assert x in ordered && last in ordered;
    assert i < |ordered| - 1 ==> LE(SpanKey(x), SpanKey(last));
    assert i > 0 ==> LE(SpanKey(ordered[0]), SpanKey(x));
    if last.hi < x.hi {
      OnlyOneHolds(xs, x, last, last.lo);
    }
  }

  /** In start order, the last of disjoint intervals ends last. */
  lemma {:induction false} WithinMarks(xs: seq<Span>, ordered: seq<Span>)
    requires ordered == SortBy(xs, SpanKey) && ordered != []
    requires Disjoint(xs) && forall x :: x in xs ==> x.lo < x.hi
    ensures Covered(xs) <= Instants(ordered[0].lo, ordered[|ordered| - 1].hi)
  {
    SameElements(xs, SpanKey);
    forall x | x in xs
      ensures ordered[0].lo <= x.lo && x.hi <= ordered[|ordered| - 1].hi
    {
      assert x in ordered;
      var i :| 0 <= i < |ordered| && ordered[i] == x;
      BetweenMarks(xs, ordered, i);
    }
  }

  lemma NothingDouble(ss: seq<Span>)
    requires InOrder(ss) && ss != [] && Disjoint(ss)
    ensures DoubleTime(ss) == {}
  {
    DisjointNeighbours(ss);
    forall t | t in Covered(AdjacentGaps(ss))
      ensures t !in Covered(ss)
    {
      CoveredSplit(EnqueueGap(0, ss), AdjacentGaps(ss));
      QueueSound(0, ss, t);
    }
  }

  /** Disjoint prefills that end in the window, after engine-core waits in place: the six components are
      exactly the window, and the final `max(0, ...)` never cuts anything off, if and only if the window starts
      no later than the first prefill. */
  lemma {:induction false} TtftConservation(e: TtftEntry, ss: seq<Span>, engine: seq<Span>, enqueue: int,
                                            start: int, end: int)
    requires InOrder(ss) && ss != [] && AllStamped(engine) && Stamp(enqueue) && start < end
    requires TtftRight(e, ss, engine, enqueue, start, end)
    requires Disjoint(ss) && LastEnd(ss) <= end && EngineInPlace(engine, start, ss[0].lo)
    ensures SixSum(e) == end - start <==> start <= ss[0].lo
    ensures start <= ss[0].lo ==> e.otherGapNs == end - start - FiveSum(e)
  {
    StretchMeasure(ss);
    NothingDouble(ss);
    TtftBalance(e, ss, engine, enqueue, start, end);
    if start <= ss[0].lo {
      EngineFits(engine, start, end, ss[0].lo);
    } else {
      NoEngineWaits(engine, start, ss[0].lo, end);
    }
  }

  /** No wait fits between a window start and an earlier first prefill. */
  lemma NoEngineWaits(engine: seq<Span>, start: int, firstPrefill: int, end: int)
    requires AllStamped(engine) && EngineInPlace(engine, start, firstPrefill) && firstPrefill < start
    ensures engine == [] && EngineMarks(engine, start, end) == (None, None)
  {
    assert forall x :: x in engine ==> start <= x.lo < x.hi <= firstPrefill;
    if engine != [] {
      SomeIn(engine);
    }
    assert SortBy(engine, SpanKey) == [];
  }

  lemma SomeIn<T(!new)>(xs: seq<T>)
    requires xs != []
    ensures exists x :: x in xs
  {
    assert xs[0] in xs;
  }

  /** A window that starts inside the first and only prefill is overfilled by the time it missed. */
  lemma LateStartOverfills(e: TtftEntry, b: int, late: int)
    requires NS_FLOOR < b && 0 < late < 100
    requires TtftRight(e, [Span(b, b + 100)], [], 0, b + late, b + 200)
    ensures SixSum(e) == (b + 200) - (b + late) + late
  {
    var ss := [Span(b, b + 100)];
    assert ss[..0] == [];
    TtftBalance(e, ss, [], 0, b + late, b + 200);
    NoEngineWaits([], b + late, b, b + 200);
    NothingDouble(ss);
  }
}
