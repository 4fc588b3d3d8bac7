/** Queue time of a request, derived from the gaps between its dispatches. */
module QueueGaps {
  import opened Sets
  import opened Spans
  import opened Sorting
  import opened Intervals
  import opened Breakdown
  import opened Totals

  datatype GapKind = NormalWait | PreemptWait

  datatype Queue = Queue(span: Span, fromEnqueue: bool, kind: GapKind, preempts: seq<int>)

  // -------------------------------------------------- gaps between neighbours

  function GapSpan(p: Span, q: Span): seq<Span> {
    if q.lo <= p.hi then [] else [Span(p.hi, q.lo)]
  }

  /** The idle spans between neighbours of a list. */
  function AdjacentGaps(ss: seq<Span>): seq<Span> {
    var n := |ss|;
    if n < 2 then [] else AdjacentGaps(ss[..n - 1]) + GapSpan(ss[n - 2], ss[n - 1])
  }

  /** By how much neighbours run into each other. */
  function AdjacentOverlap(ss: seq<Span>): nat {
    var n := |ss|;
    if n < 2 then 0 else AdjacentOverlap(ss[..n - 1]) + Max(0, ss[n - 2].hi - ss[n - 1].lo)
  }

  /** Non-empty intervals in order of their starts. */
  ghost predicate InOrder(ss: seq<Span>) {
    && (forall i :: 0 <= i < |ss| ==> ss[i].lo < ss[i].hi)
    && (forall i, j :: 0 <= i < j < |ss| ==> ss[i].lo <= ss[j].lo)
  }

  lemma GapSpanCovers(p: Span, q: Span, t: int)
    ensures t in Covered(GapSpan(p, q)) <==> p.hi <= t < q.lo
  {
    if q.lo > p.hi {
      CoveredOne(Span(p.hi, q.lo));
    }
  }

  lemma {:induction false} AdjacentGapsCover(ss: seq<Span>, t: int)
    ensures t in Covered(AdjacentGaps(ss)) <==> exists i :: 0 <= i < |ss| - 1 && ss[i].hi <= t < ss[i + 1].lo
  {
    var n := |ss|;
    if n >= 2 {
      var front := ss[..n - 1];
      AdjacentGapsCover(front, t);
      CoveredSplit(AdjacentGaps(front), GapSpan(ss[n - 2], ss[n - 1]));
      GapSpanCovers(ss[n - 2], ss[n - 1], t);
      if i :| 0 <= i < n - 1 && ss[i].hi <= t < ss[i + 1].lo {
        assert i < n - 2 ==> front[i].hi <= t < front[i + 1].lo;
      }
      if i :| 0 <= i < n - 2 && front[i].hi <= t < front[i + 1].lo {
        assert ss[i].hi <= t < ss[i + 1].lo;
      }
    }
  }

  lemma {:induction false} AdjacentGapsDisjoint(ss: seq<Span>)
    requires InOrder(ss)
    ensures Disjoint(AdjacentGaps(ss))
    ensures SumLengths(AdjacentGaps(ss)) == |Covered(AdjacentGaps(ss))|
  {
    var n := |ss|;
    if n >= 2 {
      var front, last := AdjacentGaps(ss[..n - 1]), GapSpan(ss[n - 2], ss[n - 1]);
      AdjacentGapsDisjoint(ss[..n - 1]);
      forall t | t in Covered(front)
        ensures t !in Covered(last)
      {
        AdjacentGapsCover(ss[..n - 1], t);
        GapSpanCovers(ss[n - 2], ss[n - 1], t);
      }
      DisjointJoin(front, last);
    }
    SumAndMeasure(AdjacentGaps(ss));
  }

  lemma GapSpanLength(p: Span, q: Span)
    ensures SumLengths(GapSpan(p, q)) == Max(0, q.lo - p.hi)
  {
    var last := GapSpan(p, q);
    assert last != [] ==> last[..0] == [];
  }

  /** Gap time and interval time telescope: what exceeds the whole stretch is the neighbours' overlap. */
  lemma {:induction false} Telescope(ss: seq<Span>)
    requires InOrder(ss) && ss != []
    ensures SumLengths(AdjacentGaps(ss)) + SumLengths(ss) == ss[|ss| - 1].hi - ss[0].lo + AdjacentOverlap(ss)
  {
    var n := |ss|;
    if n >= 2 {
      var front := ss[..n - 1];
      Telescope(front);
      SumLengthsSplit(AdjacentGaps(front), GapSpan(ss[n - 2], ss[n - 1]));
      GapSpanLength(ss[n - 2], ss[n - 1]);
      assert SumLengths(ss) == SumLengths(front) + ss[n - 1].hi - ss[n - 1].lo;
    } else {
      assert ss[..0] == [];
    }
  }

  lemma {:induction false} NoOverlapIff(ss: seq<Span>)
    ensures AdjacentOverlap(ss) == 0 <==> forall i :: 0 <= i < |ss| - 1 ==> ss[i].hi <= ss[i + 1].lo
  {
    var n := |ss|;
    if n >= 2 {
      var front := ss[..n - 1];
      NoOverlapIff(front);
      if forall i :: 0 <= i < n - 1 ==> ss[i].hi <= ss[i + 1].lo {
        assert forall i :: 0 <= i < |front| - 1 ==> front[i].hi <= front[i + 1].lo;
      }
      if AdjacentOverlap(ss) == 0 {
        forall i | 0 <= i < n - 1
          ensures ss[i].hi <= ss[i + 1].lo
        {
          assert i < n - 2 ==> front[i].hi <= front[i + 1].lo;
        }
      }
    }
  }

  /** Between two starts, an instant no interval holds is inside a gap. */
  lemma {:induction false} UncoveredIsGap(ss: seq<Span>, t: int)
    requires InOrder(ss) && ss != [] && ss[0].lo <= t < ss[|ss| - 1].lo && t !in Covered(ss)
    ensures t in Covered(AdjacentGaps(ss))
  {
    var n := |ss|;
    AdjacentGapsCover(ss, t);
    if ss[n - 2].lo <= t {
      assert !Holds(ss[n - 2], t) by {
        assert ss[n - 2] in ss;
      }
      assert ss[n - 2].hi <= t < ss[n - 2 + 1].lo;
    } else {
      var front := ss[..n - 1];
      assert t !in Covered(front);
      UncoveredIsGap(front, t);
      AdjacentGapsCover(front, t);
      var i :| 0 <= i < n - 2 && front[i].hi <= t < front[i + 1].lo;
      assert ss[i].hi <= t < ss[i + 1].lo;
    }
  }

  // ----------------------------------------------------------- queue intervals

  function QueueSpans(qs: seq<Queue>): (r: seq<Span>)
    ensures |r| == |qs| && forall i :: 0 <= i < |r| ==> r[i] == qs[i].span
  {
    seq(|qs|, i requires 0 <= i < |qs| => qs[i].span)
  }

  /** The wait before the first dispatch. A non-positive `enqueue` is a missing timestamp. */
  function EnqueueGap(enqueue: int, ss: seq<Span>): seq<Span> {
    if ss == [] || enqueue <= 0 || ss[0].lo <= enqueue then [] else [Span(enqueue, ss[0].lo)]
  }

  /** All the waits of a request whose dispatches, in order, are `ss`. */
  function QueueTime(enqueue: int, ss: seq<Span>): seq<Span> {
    EnqueueGap(enqueue, ss) + AdjacentGaps(ss)
  }

  function HitsIn(ts: seq<int>, lo: int, hi: int): (r: seq<int>)
    ensures forall t :: t in r <==> t in ts && lo <= t <= hi
  {
    if ts == [] then []
    else
      var n := |ts| - 1;
      assert forall t :: t in ts <==> t in ts[..n] || t == ts[n];
      HitsIn(ts[..n], lo, hi) + if lo <= ts[n] <= hi then [ts[n]] else []
  }

  /** A wait after a dispatch is a preemption wait iff the request was preempted during it. */
  ghost predicate Classified(q: Queue, preempts: seq<int>) {
    if q.fromEnqueue then q.kind == NormalWait && q.preempts == []
    else q.preempts == HitsIn(preempts, q.span.lo, q.span.hi)
         && (q.kind == PreemptWait <==> exists t :: t in preempts && q.span.lo <= t <= q.span.hi)
  }

  ghost predicate AllClassified(queue: seq<Queue>, preempts: seq<int>) {
    forall q :: q in queue ==> Classified(q, preempts)
  }

  function StepReadyWait(prevEnd: int, nextStart: int, preempts: seq<int>): (q: Queue)
    ensures q.span == Span(prevEnd, nextStart) && !q.fromEnqueue && Classified(q, preempts)
  {
    var hits := HitsIn(preempts, prevEnd, nextStart);
    assert hits != [] ==> hits[0] in hits;
    Queue(Span(prevEnd, nextStart), false, if hits != [] then PreemptWait else NormalWait, hits)
  }

  /** The waits between neighbours, as queue intervals. */
  ghost function WaitsOf(ordered: seq<Dispatch>, preempts: seq<int>): seq<Queue> {
    var n := |ordered|;
    if n < 2 then []
    else
      var prevEnd, nextStart := ordered[n - 2].span.hi, ordered[n - 1].span.lo;
      WaitsOf(ordered[..n - 1], preempts) +
        if nextStart <= prevEnd then [] else [StepReadyWait(prevEnd, nextStart, preempts)]
  }

  lemma QueueSpansSplit(a: seq<Queue>, b: seq<Queue>)
    ensures QueueSpans(a + b) == QueueSpans(a) + QueueSpans(b)
  {
  }

  lemma QueueSpansSnoc(queue: seq<Queue>, q: Queue)
    ensures QueueSpans(queue + [q]) == QueueSpans(queue) + [q.span]
  {
  }

  lemma {:induction false} WaitsMeaning(ordered: seq<Dispatch>, preempts: seq<int>)
    ensures QueueSpans(WaitsOf(ordered, preempts)) == AdjacentGaps(DispatchSpans(ordered))
    ensures AllClassified(WaitsOf(ordered, preempts), preempts)
    ensures forall q :: q in WaitsOf(ordered, preempts) ==> !q.fromEnqueue
  {
    var n := |ordered|;
    if n >= 2 {
      var front := ordered[..n - 1];
      WaitsMeaning(front, preempts);
      assert DispatchSpans(ordered)[..n - 1] == DispatchSpans(front);
      var prevEnd, nextStart := ordered[n - 2].span.hi, ordered[n - 1].span.lo;
      if prevEnd < nextStart {
        QueueSpansSnoc(WaitsOf(front, preempts), StepReadyWait(prevEnd, nextStart, preempts));
      }
    }
  }

  /** The wait before the first dispatch, as a queue interval. */
  ghost function EnqueueWait(ordered: seq<Dispatch>, enqueue: int): seq<Queue> {
    if ordered == [] || enqueue <= 0 || ordered[0].span.lo <= enqueue then []
    else [Queue(Span(enqueue, ordered[0].span.lo), true, NormalWait, [])]
  }

  lemma {:induction false} QueueMeaning(ordered: seq<Dispatch>, enqueue: int, preempts: seq<int>)
    ensures var queue := EnqueueWait(ordered, enqueue) + WaitsOf(ordered, preempts);
      var ss := DispatchSpans(ordered);
      && QueueSpans(queue) == QueueTime(enqueue, ss) && AllClassified(queue, preempts)
      && (forall i :: 0 <= i < |queue| ==> (queue[i].fromEnqueue <==> i < |EnqueueGap(enqueue, ss)|))
      && SumLengths(QueueTime(enqueue, ss)) == SumLengths(EnqueueGap(enqueue, ss)) + SumLengths(AdjacentGaps(ss))
  {
    var a, b := EnqueueWait(ordered, enqueue), WaitsOf(ordered, preempts);
    WaitsMeaning(ordered, preempts);
    QueueSpansSplit(a, b);
    assert QueueSpans(a) == EnqueueGap(enqueue, DispatchSpans(ordered));
    SumLengthsSplit(EnqueueGap(enqueue, DispatchSpans(ordered)), AdjacentGaps(DispatchSpans(ordered)));
  }

  /** The loop over neighbouring dispatches. */
  method StepReadyWaits(ordered: seq<Dispatch>, preempts: seq<int>) returns (total: int, waits: seq<Queue>)
    requires ordered != []
    ensures waits == WaitsOf(ordered, preempts)
    ensures total == SumLengths(AdjacentGaps(DispatchSpans(ordered)))
  {
    total, waits := 0, [];
    var i := 0;
    while i + 1 < |ordered|
      invariant 0 <= i < |ordered|
      invariant waits == WaitsOf(ordered[..i + 1], preempts)
      invariant total == SumLengths(AdjacentGaps(DispatchSpans(ordered[..i + 1])))
    {
      NextWait(ordered, i, preempts);
      var prevEnd, nextStart := ordered[i].span.hi, ordered[i + 1].span.lo;
      i := i + 1;
      if nextStart <= prevEnd {
        continue;
      }
      total := total + nextStart - prevEnd;
      waits := waits + [StepReadyWait(prevEnd, nextStart, preempts)];
    }
    assert ordered[..i + 1] == ordered;
  }

  /** Queue derivation for one request; the first three results are the totals by origin. */
  method DeriveQueue(ds: seq<Dispatch>, enqueue: int, preempts: seq<int>)
    returns (total: int, fromEnqueue: int, fromStepReady: int, queue: seq<Queue>)
    requires forall d :: d in ds ==> Usable(d) && Stamped(d.span)
    requires Stamp(enqueue)
    ensures var ss := DispatchSpans(SortBy(ds, DispatchKey));
      && QueueSpans(queue) == QueueTime(enqueue, ss)
      && total == fromEnqueue + fromStepReady == SumLengths(QueueTime(enqueue, ss))
      && fromEnqueue == SumLengths(EnqueueGap(enqueue, ss))
    ensures AllClassified(queue, preempts)
    ensures var first := EnqueueGap(enqueue, DispatchSpans(SortBy(ds, DispatchKey)));
      forall i :: 0 <= i < |queue| ==> (queue[i].fromEnqueue <==> i < |first|)
  {
    total, fromEnqueue, fromStepReady, queue := 0, 0, 0, [];
    var ordered := SortBy(ds, DispatchKey);
    QueueMeaning(ordered, enqueue, preempts);
    if ordered == [] {
      return;
    }
    var first := ordered[0].span.lo;
    if enqueue > 0 && first > enqueue {
      fromEnqueue := first - enqueue;
      queue := [Queue(Span(enqueue, first), true, NormalWait, [])];
    }
    EnqueueLength(enqueue, DispatchSpans(ordered));
    var waits;
    fromStepReady, waits := StepReadyWaits(ordered, preempts);
    total := fromEnqueue + fromStepReady;
    queue := queue + waits;
  }

  lemma EnqueueLength(enqueue: int, ss: seq<Span>)
    requires ss != []
    ensures SumLengths(EnqueueGap(enqueue, ss)) == if enqueue <= 0 then 0 else Max(0, ss[0].lo - enqueue)
  {
    var a := EnqueueGap(enqueue, ss);
    assert a != [] ==> a[..0] == [];
  }

  lemma NextWait(ordered: seq<Dispatch>, i: nat, preempts: seq<int>)
    requires i + 1 < |ordered|
    ensures var prevEnd, nextStart := ordered[i].span.hi, ordered[i + 1].span.lo;
      WaitsOf(ordered[..i + 2], preempts) == WaitsOf(ordered[..i + 1], preempts) +
        if nextStart <= prevEnd then [] else [StepReadyWait(prevEnd, nextStart, preempts)]
    ensures SumLengths(AdjacentGaps(DispatchSpans(ordered[..i + 2])))
         == SumLengths(AdjacentGaps(DispatchSpans(ordered[..i + 1])))
           + Max(0, ordered[i + 1].span.lo - ordered[i].span.hi)
  {
    assert ordered[..i + 2][..i + 1] == ordered[..i + 1];
    var ss := DispatchSpans(ordered[..i + 2]);
    assert ss[..i + 1] == DispatchSpans(ordered[..i + 1]);
    SumLengthsSplit(AdjacentGaps(ss[..i + 1]), GapSpan(ss[i], ss[i + 1]));
    GapSpanLength(ss[i], ss[i + 1]);
  }

  lemma {:induction false} DispatchesInOrder(ds: seq<Dispatch>)
    requires forall d :: d in ds ==> Usable(d)
    ensures InOrder(DispatchSpans(SortBy(ds, DispatchKey)))
  {
    var ordered := SortBy(ds, DispatchKey);
    SameElements(ds, DispatchKey);
    forall i | 0 <= i < |ordered|
      ensures Usable(ordered[i])
    {
      assert ordered[i] in ordered;
    }
    forall i, j | 0 <= i < j < |ordered|
      ensures ordered[i].span.lo <= ordered[j].span.lo
    {
      assert LE(DispatchKey(ordered[i]), DispatchKey(ordered[j]));
    }
  }

  // ---------------------------------------------------------------- soundness

  /** Waits never overlap, so their total is a measure. */
  lemma QueueDisjoint(enqueue: int, ss: seq<Span>)
    requires InOrder(ss)
    ensures Disjoint(QueueTime(enqueue, ss))
    ensures SumLengths(QueueTime(enqueue, ss)) == |Covered(QueueTime(enqueue, ss))|
  {
    var a, b := EnqueueGap(enqueue, ss), AdjacentGaps(ss);
    AdjacentGapsDisjoint(ss);
    forall t | t in Covered(a)
      ensures t !in Covered(b)
    {
      AdjacentGapsCover(ss, t);
    }
    DisjointJoin(a, b);
    SumAndMeasure(a + b);
  }

  /** Every instant from enqueue to the last dispatch start that no dispatch holds lies in a queue interval. */
  lemma QueueComplete(enqueue: int, ss: seq<Span>, t: int)
    requires InOrder(ss) && ss != [] && 0 < enqueue <= t < ss[|ss| - 1].lo && t !in Covered(ss)
    ensures t in Covered(QueueTime(enqueue, ss))
  {
    CoveredSplit(EnqueueGap(enqueue, ss), AdjacentGaps(ss));
    if t < ss[0].lo {
      CoveredOne(Span(enqueue, ss[0].lo));
    } else {
      UncoveredIsGap(ss, t);
    }
  }

  /** For dispatches whose neighbours do not overlap, no instant is both waited and dispatched. */
  lemma {:induction false} QueueSound(enqueue: int, ss: seq<Span>, t: int)
    requires InOrder(ss) && t in Covered(QueueTime(enqueue, ss)) && AdjacentOverlap(ss) == 0
    ensures t !in Covered(ss)
  {
    CoveredSplit(EnqueueGap(enqueue, ss), AdjacentGaps(ss));
    AdjacentGapsCover(ss, t);
    forall j | 0 <= j < |ss|
      ensures !Holds(ss[j], t)
    {
      if t in Covered(EnqueueGap(enqueue, ss)) {
        assert j > 0 ==> ss[0].lo <= ss[j].lo;
      } else {
        var i :| 0 <= i < |ss| - 1 && ss[i].hi <= t < ss[i + 1].lo;
        if j <= i {
          EndsInOrder(ss, j, i);
        } else if i + 1 < j {
          assert ss[i + 1].lo <= ss[j].lo;
        }
      }
    }
  }

  lemma {:induction false} EndsInOrder(ss: seq<Span>, j: nat, i: nat)
    requires InOrder(ss) && AdjacentOverlap(ss) == 0 && j <= i < |ss|
    ensures ss[j].hi <= ss[i].hi
    decreases i
  {
    if j < i {
      EndsInOrder(ss, j, i - 1);
      NoOverlapIff(ss);
      assert ss[i - 1].hi <= ss[i - 1 + 1].lo;
    }
  }

  /** Queue time plus dispatch time is the stretch from enqueue to the last end, and exactly so
      iff no dispatch starts before its predecessor ends. */
  lemma {:induction false} QueueConservation(enqueue: int, ss: seq<Span>)
    requires InOrder(ss) && ss != [] && 0 < enqueue <= ss[0].lo
    ensures SumLengths(QueueTime(enqueue, ss)) + SumLengths(ss) == ss[|ss| - 1].hi - enqueue + AdjacentOverlap(ss)
    ensures SumLengths(QueueTime(enqueue, ss)) + SumLengths(ss) == ss[|ss| - 1].hi - enqueue <==>
            forall i :: 0 <= i < |ss| - 1 ==> ss[i].hi <= ss[i + 1].lo
  {
    var a := EnqueueGap(enqueue, ss);
    SumLengthsSplit(a, AdjacentGaps(ss));
    assert a != [] ==> a[..0] == [];
    Telescope(ss);
    NoOverlapIff(ss);
  }
}
