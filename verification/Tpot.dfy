/** The time-per-output-token decomposition of one request. */
module Tpot {
  import opened Sets
  import opened Spans
  import opened Sorting
  import opened Intervals
  import opened Sweep
  import opened Stages
  import opened Breakdown
  import opened Totals
  import opened QueueGaps

  datatype TpotEntry = TpotEntry(
    startNs: int,
    endNs: int,
    lastDecodeEndNs: int,
    execTotalNs: int,
    normalWaitNs: int,
    preemptWaitNs: int,
    exec: map<Component, int>,
    tailTransportNs: int,
    otherGapNs: int,
    report: Report)

  /** The seven exec components of an entry. */
  function ExecSum(e: TpotEntry): int {
    SevenSum(e.exec)
  }

  function SevenSum(m: map<Component, int>): int {
    At(m, WorkerPreprocess) + At(m, ModelForward) + At(m, Postprocess) + At(m, Sampling)
    + At(m, BookkeepingSync) + At(m, PpGap) + At(m, OtherExec)
  }

  /** All ten components of an entry. */
  function ComponentSum(e: TpotEntry): int {
    e.normalWaitNs + e.preemptWaitNs + ExecSum(e) + e.tailTransportNs + e.otherGapNs
  }

  // -------------------------------------------------- renaming to other_exec

  ghost predicate Moved(m: map<Component, int>, r: map<Component, int>, from: Component, to: Component) {
    forall c :: At(r, c) == if c == from then 0 else if c == to then At(m, to) + At(m, from) else At(m, c)
  }

  method MoveInto(m: map<Component, int>, from: Component, to: Component) returns (r: map<Component, int>)
    requires from != to
    ensures Moved(m, r, from, to)
    ensures SumValues(r) == SumValues(m)
  {
    r := m;
    if from in r {
      var value := r[from];
      r := r - {from};
      r := r[to := At(r, to) + value];
    }
    SumValuesRemove(m, from);
    SumValuesRemove(m - {from}, to);
    SumValuesRemove(r, to);
    assert m - {from} - {to} == r - {to};
  }

  /** Only the seven exec components are left after the renaming, so they carry the whole sum. */
  lemma {:induction false} SevenCarryAll(m: map<Component, int>)
    requires forall c :: At(m, c) != 0 ==>
      c in {WorkerPreprocess, ModelForward, Postprocess, Sampling, BookkeepingSync, PpGap, OtherExec}
    ensures SumValues(m) == SevenSum(m)
  {
    var m1 := m - {WorkerPreprocess, ModelForward};
    var m2 := m1 - {Postprocess, Sampling};
    var m3 := m2 - {BookkeepingSync, PpGap};
    var m4 := m3 - {OtherExec};
    SumValuesRemoveTwo(m, WorkerPreprocess, ModelForward);
    SumValuesRemoveTwo(m1, Postprocess, Sampling);
    SumValuesRemoveTwo(m2, BookkeepingSync, PpGap);
    SumValuesRemove(m3, OtherExec);
    forall c | c in m4
      ensures m4[c] == 0
    {
      assert At(m, c) == m[c];
    }
    SumValuesZero(m4);
  }

  // ------------------------------------------------------- counted waits

  /** The phase of the first dispatch in start order that starts at `t`. */
  function PhaseAt(ordered: seq<Dispatch>, t: int): Option<DispatchPhase> {
    if ordered == [] then None
    else if ordered[0].span.lo == t then Some(ordered[0].phase)
    else PhaseAt(ordered[1..], t)
  }

  /** Dispatch `i` is the first one in start order that starts at `t`. */
  ghost predicate StartsFirst(ordered: seq<Dispatch>, i: nat, t: int) {
    i < |ordered| && ordered[i].span.lo == t && forall j :: 0 <= j < i ==> ordered[j].span.lo != t
  }

  /** The first dispatch that starts at `t` exists, and is a prefill or a decode. */
  ghost predicate EndsWait(ordered: seq<Dispatch>, t: int) {
    exists i :: 0 <= i && StartsFirst(ordered, i, t) && (ordered[i].phase == Prefill || ordered[i].phase == Decode)
  }

  lemma {:induction false} PhaseAtFirst(ordered: seq<Dispatch>, t: int)
    ensures PhaseAt(ordered, t).None? <==> forall i :: 0 <= i < |ordered| ==> ordered[i].span.lo != t
    ensures PhaseAt(ordered, t).Some? ==>
      exists i :: 0 <= i && StartsFirst(ordered, i, t) && PhaseAt(ordered, t) == Some(ordered[i].phase)
  {
    if ordered != [] {
      if ordered[0].span.lo == t {
        assert StartsFirst(ordered, 0, t);
      } else {
        var rest := ordered[1..];
        PhaseAtFirst(rest, t);
        if PhaseAt(rest, t).Some? {
          var i :| 0 <= i && StartsFirst(rest, i, t) && PhaseAt(rest, t) == Some(rest[i].phase);
          forall j | 0 <= j < i + 1
            ensures ordered[j].span.lo != t
          {
            assert j > 0 ==> ordered[j] == rest[j - 1];
          }
          assert StartsFirst(ordered, i + 1, t) && ordered[i + 1] == rest[i];
        } else {
          forall i | 0 <= i < |ordered|
            ensures ordered[i].span.lo != t
          {
            assert i > 0 ==> ordered[i] == rest[i - 1];
          }
        }
      }
    }
  }

  lemma {:induction false} PhaseEndsWait(ordered: seq<Dispatch>, t: int)
    ensures PhaseAt(ordered, t) == Some(Prefill) || PhaseAt(ordered, t) == Some(Decode) <==> EndsWait(ordered, t)
  {
    PhaseAtFirst(ordered, t);
    if i :| 0 <= i && StartsFirst(ordered, i, t) {
      assert ordered[i].span.lo == t;
      var k :| 0 <= k && StartsFirst(ordered, k, t) && PhaseAt(ordered, t) == Some(ordered[k].phase);
      assert k == i;
    }
  }

  /** A wait counts when the dispatch it ends at is a prefill or a decode. */
  predicate Counted(ordered: seq<Dispatch>, q: Queue): (r: bool)
    ensures r <==> EndsWait(ordered, q.span.hi)
  {
    var p := PhaseAt(ordered, q.span.hi);
    PhaseEndsWait(ordered, q.span.hi);
    p == Some(Prefill) || p == Some(Decode)
  }

  function CountedPairs(ordered: seq<Dispatch>, queue: seq<Queue>, lo: int, hi: int): seq<Span>
    requires AllStamped(QueueSpans(queue))
  {
    if queue == [] then []
    else
      var n := |queue| - 1;
      assert QueueSpans(queue)[..n] == QueueSpans(queue[..n]);
      assert QueueSpans(queue)[n] in QueueSpans(queue);
      var rest := CountedPairs(ordered, queue[..n], lo, hi);
      var r := ClipInterval(queue[n].span, Some(lo), Some(hi));
      if Counted(ordered, queue[n]) && r.Some? then rest + [r.value] else rest
  }

  /** The instants of `[lo, hi)` that a counted wait holds. */
  ghost function Waited(ordered: seq<Dispatch>, queue: seq<Queue>, lo: int, hi: int): set<int> {
    set t | lo <= t < hi && Holds(Span(lo, hi), t) &&
            exists q :: q in queue && EndsWait(ordered, q.span.hi) && 0 < q.span.lo && Holds(q.span, t)
  }

  /** A preemption falls into the part of a preemption wait that lies in the window. */
  ghost predicate HitIn(q: Queue, lo: int, hi: int) {
    q.kind == PreemptWait && exists u :: u in q.preempts && Max(q.span.lo, lo) <= u <= Min(q.span.hi, hi)
  }

  /** The instants of `[lo, hi)` that a counted wait holds which was hit by a preemption there. */
  ghost function PreemptWaited(ordered: seq<Dispatch>, queue: seq<Queue>, lo: int, hi: int): set<int> {
    set t | lo <= t < hi && Holds(Span(lo, hi), t) &&
            exists q :: q in queue && EndsWait(ordered, q.span.hi) && HitIn(q, lo, hi)
                        && 0 < q.span.lo && Holds(q.span, t)
  }

  lemma {:induction false} CountedPairsMeaning(ordered: seq<Dispatch>, queue: seq<Queue>, lo: int, hi: int)
    requires AllStamped(QueueSpans(queue)) && Disjoint(QueueSpans(queue))
    ensures var pairs := CountedPairs(ordered, queue, lo, hi);
      && Covered(pairs) == Waited(ordered, queue, lo, hi)
      && (forall x :: x in pairs ==> NS_FLOOR < x.lo < x.hi)
      && Disjoint(pairs)
  {
    var pairs := CountedPairs(ordered, queue, lo, hi);
    if queue == [] {
      assert Covered(pairs) == {};
    } else {
      var n := |queue| - 1;
      var q := queue[n];
      var front, r := queue[..n], ClipInterval(q.span, Some(lo), Some(hi));
      assert QueueSpans(queue)[..n] == QueueSpans(front);
      DisjointLast(QueueSpans(queue));
      CountedPairsMeaning(ordered, front, lo, hi);
      WaitedLast(ordered, queue, lo, hi);
      if Counted(ordered, q) && r.Some? {
        var rest := CountedPairs(ordered, front, lo, hi);
        ClipMeaning(q.span, Some(lo), Some(hi));
        assert Instants(r.value.lo, r.value.hi) <= Instants(q.span.lo, q.span.hi);
        WaitedInside(ordered, front, lo, hi);
        CoveredSplit(rest, [r.value]);
        CoveredOne(r.value);
        DisjointJoin(rest, [r.value]);
      }
    }
  }

  lemma WaitedInside(ordered: seq<Dispatch>, queue: seq<Queue>, lo: int, hi: int)
    ensures Waited(ordered, queue, lo, hi) <= Covered(QueueSpans(queue))
  {
    forall t | t in Waited(ordered, queue, lo, hi)
      ensures t in Covered(QueueSpans(queue))
    {
      var i :| 0 <= i < |queue| && Holds(queue[i].span, t);
      assert QueueSpans(queue)[i] in QueueSpans(queue);
    }
  }

  lemma WaitedLast(ordered: seq<Dispatch>, queue: seq<Queue>, lo: int, hi: int)
    requires queue != [] && AllStamped(QueueSpans(queue))
    ensures var q := queue[|queue| - 1];
      var r := ClipInterval(q.span, Some(lo), Some(hi));
      Waited(ordered, queue, lo, hi) == Waited(ordered, queue[..|queue| - 1], lo, hi) +
        if Counted(ordered, q) && r.Some? then Instants(r.value.lo, r.value.hi) else {}
  {
    var q := queue[|queue| - 1];
    assert QueueSpans(queue)[|queue| - 1] in QueueSpans(queue);
    ClipMeaning(q.span, Some(lo), Some(hi));
    assert forall x :: x in queue <==> x in queue[..|queue| - 1] || x == q;
  }

  /** The preemption waits with a preemption inside the window. */
  function Preempted(queue: seq<Queue>, lo: int, hi: int): (r: seq<Queue>)
    requires AllStamped(QueueSpans(queue))
    ensures forall q :: q in r <==> q in queue && ClipInterval(q.span, Some(lo), Some(hi)).Some? && HitIn(q, lo, hi)
    ensures AllStamped(QueueSpans(r))
  {
    if queue == [] then []
    else
      var n := |queue| - 1;
      assert forall q :: q in queue <==> q in queue[..n] || q == queue[n];
      assert QueueSpans(queue)[..n] == QueueSpans(queue[..n]);
      assert QueueSpans(queue)[n] in QueueSpans(queue);
      var rest := Preempted(queue[..n], lo, hi);
      var q, span := queue[n], ClipInterval(queue[n].span, Some(lo), Some(hi));
      assert QueueSpans(rest + [q]) == QueueSpans(rest) + [q.span];
      HitsAre(q, lo, hi);
      if q.kind == PreemptWait && span.Some? && HitsIn(q.preempts, span.value.lo, span.value.hi) != [] then rest + [q]
      else rest
  }

  lemma HitsAre(q: Queue, lo: int, hi: int)
    requires Stamped(q.span)
    ensures var r := ClipInterval(q.span, Some(lo), Some(hi));
      r.Some? && q.kind == PreemptWait ==> (HitsIn(q.preempts, r.value.lo, r.value.hi) != [] <==> HitIn(q, lo, hi))
  {
    var r := ClipInterval(q.span, Some(lo), Some(hi));
    if r.Some? {
      var hits := HitsIn(q.preempts, r.value.lo, r.value.hi);
      assert r.value == Span(Max(q.span.lo, lo), Min(q.span.hi, hi));
      assert hits != [] ==> hits[0] in hits;
    }
  }

  lemma {:induction false} PreemptedDisjoint(queue: seq<Queue>, lo: int, hi: int)
    requires AllStamped(QueueSpans(queue)) && Disjoint(QueueSpans(queue))
    ensures Disjoint(QueueSpans(Preempted(queue, lo, hi)))
    ensures Covered(QueueSpans(Preempted(queue, lo, hi))) <= Covered(QueueSpans(queue))
  {
    if queue != [] {
      var n := |queue| - 1;
      var q, rest := queue[n], Preempted(queue[..n], lo, hi);
      assert QueueSpans(queue)[..n] == QueueSpans(queue[..n]);
      assert QueueSpans(queue)[n] == q.span;
      DisjointLast(QueueSpans(queue));
      CoveredLast(QueueSpans(queue));
      PreemptedDisjoint(queue[..n], lo, hi);
      QueueSpansSnoc(rest, q);
      CoveredSplit(QueueSpans(rest), [q.span]);
      CoveredOne(q.span);
      DisjointJoin(QueueSpans(rest), [q.span]);
    }
  }

  lemma {:induction false} PreemptedTime(ordered: seq<Dispatch>, queue: seq<Queue>, lo: int, hi: int)
    requires AllStamped(QueueSpans(queue))
    ensures Waited(ordered, Preempted(queue, lo, hi), lo, hi) == PreemptWaited(ordered, queue, lo, hi)
  {
    forall t | t in PreemptWaited(ordered, queue, lo, hi)
      ensures t in Waited(ordered, Preempted(queue, lo, hi), lo, hi)
    {
      var q :| q in queue && EndsWait(ordered, q.span.hi) && HitIn(q, lo, hi) && 0 < q.span.lo && Holds(q.span, t);
      var i :| 0 <= i < |queue| && queue[i] == q;
      assert QueueSpans(queue)[i] in QueueSpans(queue);
      ClipMeaning(q.span, Some(lo), Some(hi));
      assert t in Recorded([q.span], Some(lo), Some(hi)) ==> q in Preempted(queue, lo, hi);
      assert q in Preempted(queue, lo, hi);
    }
  }

  lemma {:induction false} PreemptedPairs(ordered: seq<Dispatch>, queue: seq<Queue>, q: Queue, lo: int, hi: int)
    requires AllStamped(QueueSpans(queue)) && Stamped(q.span)
    requires Counted(ordered, q) && ClipInterval(q.span, Some(lo), Some(hi)).Some?
    ensures AllStamped(QueueSpans(queue + [q]))
    ensures SumLengths(CountedPairs(ordered, queue + [q], lo, hi))
         == SumLengths(CountedPairs(ordered, queue, lo, hi)) + Length(ClipInterval(q.span, Some(lo), Some(hi)).value)
  {
    assert QueueSpans(queue + [q]) == QueueSpans(queue) + [q.span];
    assert (queue + [q])[..|queue|] == queue;
  }

  lemma {:induction false} PreemptedSkips(ordered: seq<Dispatch>, queue: seq<Queue>, q: Queue, lo: int, hi: int)
    requires AllStamped(QueueSpans(queue)) && Stamped(q.span)
    requires !Counted(ordered, q) || ClipInterval(q.span, Some(lo), Some(hi)).None?
    ensures AllStamped(QueueSpans(queue + [q]))
    ensures CountedPairs(ordered, queue + [q], lo, hi) == CountedPairs(ordered, queue, lo, hi)
  {
    assert QueueSpans(queue + [q]) == QueueSpans(queue) + [q.span];
    assert (queue + [q])[..|queue|] == queue;
  }

  datatype Tally = Tally(normal: int, preempt: int, pairs: seq<Span>)

  /** The accumulators of the loop over the waits. */
  ghost function TallyOf(ordered: seq<Dispatch>, queue: seq<Queue>, lo: int, hi: int): Tally
    requires AllStamped(QueueSpans(queue))
  {
    if queue == [] then Tally(0, 0, [])
    else
      var n := |queue| - 1;
      assert QueueSpans(queue)[..n] == QueueSpans(queue[..n]);
      assert QueueSpans(queue)[n] in QueueSpans(queue);
      var q, was := queue[n], TallyOf(ordered, queue[..n], lo, hi);
      var r := ClipInterval(q.span, Some(lo), Some(hi));
      if !Counted(ordered, q) || r.None? then was
      else
        var pairs, wait := was.pairs + [r.value], Length(r.value);
        if q.kind == PreemptWait && HitsIn(q.preempts, r.value.lo, r.value.hi) != []
        then Tally(was.normal, was.preempt + wait, pairs)
        else Tally(was.normal + wait, was.preempt, pairs)
  }

  lemma {:induction false} TallyPairs(ordered: seq<Dispatch>, queue: seq<Queue>, lo: int, hi: int)
    requires AllStamped(QueueSpans(queue))
    ensures var t := TallyOf(ordered, queue, lo, hi);
      t.pairs == CountedPairs(ordered, queue, lo, hi) && t.normal + t.preempt == SumLengths(t.pairs)
  {
    if queue != [] {
      var n := |queue| - 1;
      var q, was := queue[n], TallyOf(ordered, queue[..n], lo, hi);
      assert QueueSpans(queue)[..n] == QueueSpans(queue[..n]);
      TallyPairs(ordered, queue[..n], lo, hi);
      var r := ClipInterval(q.span, Some(lo), Some(hi));
      if r.Some? {
        SumLengthsSnoc(was.pairs, r.value);
      }
    }
  }

  lemma {:induction false} TallyPreempt(ordered: seq<Dispatch>, queue: seq<Queue>, lo: int, hi: int)
    requires AllStamped(QueueSpans(queue))
    ensures TallyOf(ordered, queue, lo, hi).preempt
      == SumLengths(CountedPairs(ordered, Preempted(queue, lo, hi), lo, hi))
  {
    if queue != [] {
      var n := |queue| - 1;
      var q, before := queue[n], Preempted(queue[..n], lo, hi);
      assert QueueSpans(queue)[..n] == QueueSpans(queue[..n]);
      assert QueueSpans(queue)[n] in QueueSpans(queue);
      TallyPreempt(ordered, queue[..n], lo, hi);
      var r := ClipInterval(q.span, Some(lo), Some(hi));
      var hit := q.kind == PreemptWait && r.Some? && HitsIn(q.preempts, r.value.lo, r.value.hi) != [];
      assert Preempted(queue, lo, hi) == if hit then before + [q] else before;
      assert TallyOf(ordered, queue, lo, hi).preempt == TallyOf(ordered, queue[..n], lo, hi).preempt
        + if Counted(ordered, q) && hit then Length(r.value) else 0;
      if !Counted(ordered, q) || r.None? {
        PreemptedSkips(ordered, before, q, lo, hi);
      } else {
        PreemptedPairs(ordered, before, q, lo, hi);
      }
    }
  }

  /** The loop over the waits: the two totals and the clipped pairs. */
  method CountWaits(ordered: seq<Dispatch>, queue: seq<Queue>, lo: int, hi: int)
    returns (normal: int, preempt: int, pairs: seq<Span>)
    requires AllStamped(QueueSpans(queue)) && Disjoint(QueueSpans(queue))
    ensures normal + preempt == |Waited(ordered, queue, lo, hi)|
    ensures preempt == |PreemptWaited(ordered, queue, lo, hi)|
    ensures Covered(pairs) == Waited(ordered, queue, lo, hi)
    ensures forall x :: x in pairs ==> NS_FLOOR < x.lo < x.hi
  {
    normal, preempt, pairs := 0, 0, [];
    for i := 0 to |queue|
      invariant forall x :: x in QueueSpans(queue[..i]) ==> x in QueueSpans(queue)
      invariant Tally(normal, preempt, pairs) == TallyOf(ordered, queue[..i], lo, hi)
    {
      var q := queue[i];
      assert QueueSpans(queue)[i] in QueueSpans(queue);
      assert queue[..i + 1][..i] == queue[..i];
      var span := ClipInterval(q.span, Some(lo), Some(hi));
      if !Counted(ordered, q) || span.None? {
        continue;
      }
      pairs := pairs + [span.value];
      var hits := HitsIn(q.preempts, span.value.lo, span.value.hi);
      if q.kind == PreemptWait && hits != [] {
        preempt := preempt + Length(span.value);
      } else {
        normal := normal + Length(span.value);
      }
    }
    assert queue[..|queue|] == queue;
    TallyPairs(ordered, queue, lo, hi);
    TallyPreempt(ordered, queue, lo, hi);
    CountedPairsMeaning(ordered, queue, lo, hi);
    SumAndMeasure(pairs);
    PreemptMeasure(ordered, queue, lo, hi);
  }

  lemma {:induction false} PreemptMeasure(ordered: seq<Dispatch>, queue: seq<Queue>, lo: int, hi: int)
    requires AllStamped(QueueSpans(queue)) && Disjoint(QueueSpans(queue))
    ensures SumLengths(CountedPairs(ordered, Preempted(queue, lo, hi), lo, hi))
      == |PreemptWaited(ordered, queue, lo, hi)|
  {
    var part := Preempted(queue, lo, hi);
    PreemptedDisjoint(queue, lo, hi);
    CountedPairsMeaning(ordered, part, lo, hi);
    SumAndMeasure(CountedPairs(ordered, part, lo, hi));
    PreemptedTime(ordered, queue, lo, hi);
  }

  // ------------------------------------------------------ dispatches that count

  function LastDecodeEnd(ds: seq<Dispatch>, after: int): Option<int> {
    if ds == [] then None
    else
      var d, rest := ds[|ds| - 1], LastDecodeEnd(ds[..|ds| - 1], after);
      if !d.phase.Decode? || d.span.hi <= after then rest
      else if rest.Some? then Some(Max(rest.value, d.span.hi)) else Some(d.span.hi)
  }

  lemma {:induction false} LastDecodeEndIsMax(ds: seq<Dispatch>, after: int)
    ensures var r := LastDecodeEnd(ds, after);
      && (r.None? <==> forall d :: d in ds && d.phase.Decode? ==> d.span.hi <= after)
      && (r.Some? ==> r.value > after && (forall d :: d in ds && d.phase.Decode? ==> d.span.hi <= r.value)
                      && exists d :: d in ds && d.phase.Decode? && d.span.hi == r.value)
  {
    if ds != [] {
      LastDecodeEndIsMax(ds[..|ds| - 1], after);
      assert forall d :: d in ds <==> d in ds[..|ds| - 1] || d == ds[|ds| - 1];
    }
  }

  /** The dispatches that reach past the window start, clipped to the execution window. */
  function ExecDispatches(ds: seq<Dispatch>, lo: int, hi: int): seq<Dispatch>
    requires forall d :: d in ds ==> Stamped(d.span)
  {
    if ds == [] then []
    else
      var d, rest := ds[|ds| - 1], ExecDispatches(ds[..|ds| - 1], lo, hi);
      var r := ClipInterval(d.span, Some(lo), Some(hi));
      if d.span.hi > lo && r.Some? then rest + [d.(span := r.value)] else rest
  }

  lemma {:induction false} ExecMeaning(ds: seq<Dispatch>, lo: int, hi: int)
    requires forall d :: d in ds ==> Stamped(d.span) && Usable(d)
    ensures Covered(DispatchSpans(ExecDispatches(ds, lo, hi))) == Covered(DispatchSpans(ds)) * Instants(lo, hi)
    ensures forall d :: d in ExecDispatches(ds, lo, hi) ==>
      Stamped(d.span) && Usable(d) && NS_FLOOR < d.span.lo && lo <= d.span.lo && d.span.hi <= hi
  {
    if ds == [] {
      assert Covered(DispatchSpans(ds)) == {};
    } else {
      var n := |ds| - 1;
      var d, rest := ds[n], ExecDispatches(ds[..n], lo, hi);
      var r := ClipInterval(d.span, Some(lo), Some(hi));
      ExecMeaning(ds[..n], lo, hi);
      ClipMeaning(d.span, Some(lo), Some(hi));
      assert DispatchSpans(ds)[..n] == DispatchSpans(ds[..n]);
      CoveredLast(DispatchSpans(ds));
      if r.Some? {
        SpansSnoc(rest, d.(span := r.value));
        assert Instants(r.value.lo, r.value.hi) == Instants(d.span.lo, d.span.hi) * Instants(lo, hi);
      } else {
        assert Instants(d.span.lo, d.span.hi) * Instants(lo, hi) == {};
      }
    }
  }

  /** A dispatch that runs inside the execution window. */
  ghost predicate RunsIn(d: Dispatch, lo: int, hi: int) {
    Max(d.span.lo, lo) < Min(d.span.hi, hi)
  }

  /** `at` lists, in order, the places of the dispatches that run inside the window. */
  ghost predicate RunPlaces(ds: seq<Dispatch>, lo: int, hi: int, at: seq<nat>) {
    && Increasing(at) && (forall k :: 0 <= k < |at| ==> at[k] < |ds|)
    && forall i: nat :: i in at <==> i < |ds| && RunsIn(ds[i], lo, hi)
  }

  /** `r` is dispatch `i` with its span cut to the window. */
  ghost predicate CutTo(ds: seq<Dispatch>, i: nat, lo: int, hi: int, r: Dispatch) {
    i < |ds| && r == ds[i].(span := Span(Max(ds[i].span.lo, lo), Min(ds[i].span.hi, hi)))
  }

  /** The dispatches of the execution window are those that run inside it, in order, with their spans cut to it. */
  lemma {:induction false} ExecAre(ds: seq<Dispatch>, lo: int, hi: int) returns (at: seq<nat>)
    requires forall d :: d in ds ==> Stamped(d.span) && Usable(d)
    ensures RunPlaces(ds, lo, hi, at) && |ExecDispatches(ds, lo, hi)| == |at|
    ensures forall k :: 0 <= k < |at| ==> CutTo(ds, at[k], lo, hi, ExecDispatches(ds, lo, hi)[k])
  {
    at := [];
    if ds != [] {
      var n := |ds| - 1;
      var front := ds[..n];
      assert ds[n] in ds && ds == front + [ds[n]];
      at := ExecAre(front, lo, hi);
      var r, rest, was := ExecDispatches(ds, lo, hi), ExecDispatches(front, lo, hi), at;
      RunPlacesPlus(front, ds[n], lo, hi, at);
      at := if RunsIn(ds[n], lo, hi) then at + [n] else at;
      forall k | 0 <= k < |at|
        ensures CutTo(ds, at[k], lo, hi, r[k])
      {
        if k < |was| {
          assert at[k] == was[k] && r[k] == rest[k] && CutTo(front, was[k], lo, hi, rest[k]);
        }
      }
    }
  }

  lemma RunPlacesPlus(front: seq<Dispatch>, d: Dispatch, lo: int, hi: int, at: seq<nat>)
    requires RunPlaces(front, lo, hi, at)
    ensures RunPlaces(front + [d], lo, hi, if RunsIn(d, lo, hi) then at + [|front|] else at)
  {
    var ds := front + [d];
    assert ds[|front|] == d && forall i: nat :: i < |front| ==> ds[i] == front[i];
    assert forall k :: 0 <= k < |at| ==> at[k] < |front|;
  }

  lemma SpansSnoc(ds: seq<Dispatch>, d: Dispatch)
    ensures Covered(DispatchSpans(ds + [d])) == Covered(DispatchSpans(ds)) + Instants(d.span.lo, d.span.hi)
  {
    assert DispatchSpans(ds + [d]) == DispatchSpans(ds) + [d.span];
    CoveredSplit(DispatchSpans(ds), [d.span]);
    CoveredOne(d.span);
  }

  // ------------------------------------------------------------- the entry

  /** The instants of the execution window that some dispatch holds. */
  ghost function Executed(ordered: seq<Dispatch>, lo: int, hi: int): set<int> {
    Covered(DispatchSpans(ordered)) * Instants(lo, hi)
  }

  /** What an entry says: its exec components carry all executed time, and all ten exceed the
      window by exactly the time that is counted as waited and executed. */
  ghost predicate EntryRight(e: TpotEntry, ordered: seq<Dispatch>, queue: seq<Queue>) {
    var waited := Waited(ordered, queue, e.startNs, e.lastDecodeEndNs);
    var executed := Executed(ordered, e.startNs, e.lastDecodeEndNs);
    && ExecSum(e) == e.execTotalNs == |executed|
    && e.normalWaitNs + e.preemptWaitNs == |waited|
    && e.tailTransportNs == e.endNs - e.lastDecodeEndNs
    && e.otherGapNs == |Instants(e.startNs, e.endNs) - (waited + executed + Instants(e.lastDecodeEndNs, e.endNs))|
    && ComponentSum(e) == e.endNs - e.startNs + |waited * executed|
  }

  /** The measure argument behind `EntryRight`. */
  lemma WindowBalance(lo: int, mid: int, hi: int, waited: set<int>, executed: set<int>, other: int)
    requires lo <= mid <= hi && waited <= Instants(lo, mid) && executed <= Instants(lo, mid)
    requires other == |Instants(lo, hi) - (waited + executed + Instants(mid, hi))|
    ensures |waited| + |executed| + (hi - mid) + other == hi - lo + |waited * executed|
  {
    var tail, covered := Instants(mid, hi), waited + executed;
    InstantsSize(lo, hi);
    InstantsSize(mid, hi);
    UnionSize(waited, executed);
    assert covered * tail == {};
    UnionSize(covered, tail);
    assert covered + tail <= Instants(lo, hi);
    assert Instants(lo, hi) - (covered + tail) + (covered + tail) == Instants(lo, hi);
  }

  /** `other_compute` and `pipeline_gap` become `other_exec`; nothing is lost. */
  method ExecPhases(wall: map<Component, int>) returns (m: map<Component, int>)
    requires forall c :: At(wall, c) != 0 ==> ReportedComponent(c) || c == PipelineGap
    ensures At(m, OtherExec) == At(wall, OtherCompute) + At(wall, PipelineGap)
    ensures forall c :: c !in {OtherExec, OtherCompute, PipelineGap} ==> At(m, c) == At(wall, c)
    ensures SumValues(wall) == SevenSum(m)
  {
    m := MoveInto(wall, OtherCompute, OtherExec);
    m := MoveInto(m, PipelineGap, OtherExec);
    SevenCarryAll(m);
  }

  lemma EntryBalances(e: TpotEntry, ordered: seq<Dispatch>, queue: seq<Queue>)
    requires e.startNs <= e.lastDecodeEndNs <= e.endNs && e.tailTransportNs == e.endNs - e.lastDecodeEndNs
    requires ExecSum(e) == e.execTotalNs == |Executed(ordered, e.startNs, e.lastDecodeEndNs)|
    requires e.normalWaitNs + e.preemptWaitNs == |Waited(ordered, queue, e.startNs, e.lastDecodeEndNs)|
    requires e.otherGapNs == |Instants(e.startNs, e.endNs) - (Waited(ordered, queue, e.startNs, e.lastDecodeEndNs)
               + Executed(ordered, e.startNs, e.lastDecodeEndNs) + Instants(e.lastDecodeEndNs, e.endNs))|
    ensures EntryRight(e, ordered, queue)
  {
    var waited := Waited(ordered, queue, e.startNs, e.lastDecodeEndNs);
    var executed := Executed(ordered, e.startNs, e.lastDecodeEndNs);
    assert waited <= Instants(e.startNs, e.lastDecodeEndNs);
    WindowBalance(e.startNs, e.lastDecodeEndNs, e.endNs, waited, executed, e.otherGapNs);
  }

  method BuildEntry(ordered: seq<Dispatch>, queue: seq<Queue>, lo: int, mid: int, hi: int, logs: seq<PhaseLog>,
                    steps: seq<Work>)
    returns (e: TpotEntry)
    requires forall d :: d in ordered ==> Stamped(d.span) && Usable(d)
    requires AllStamped(QueueSpans(queue)) && Disjoint(QueueSpans(queue))
    requires NS_FLOOR < lo < mid <= hi && LogsStamped(logs) && WorksStamped(steps)
    ensures e.startNs == lo && e.lastDecodeEndNs == mid && e.endNs == hi
    ensures EntryRight(e, ordered, queue)
    ensures PhasesOf(e.exec, OtherExec, ExecDispatches(ordered, lo, mid), logs, steps)
    ensures ReportFor(ExecDispatches(ordered, lo, mid), logs, steps, e.report)
    ensures e.preemptWaitNs == |PreemptWaited(ordered, queue, lo, mid)|
  {
    var execTotal, execPairs, phases, report := ExecTotals(ordered, lo, mid, logs, steps);
    var normal, preempt, pairs := CountWaits(ordered, queue, lo, mid);
    var other := OtherGap(lo, mid, hi, pairs, execPairs);
    e := TpotEntry(lo, hi, mid, execTotal, normal, preempt, phases, Max(0, hi - mid), other, report);
    EntryBalances(e, ordered, queue);
  }

  /** The executed time of the window: its total, its merged intervals and its split into phases. */
  method ExecTotals(ordered: seq<Dispatch>, lo: int, mid: int, logs: seq<PhaseLog>, steps: seq<Work>)
    returns (total: int, pairs: seq<Span>, phases: map<Component, int>, report: Report)
    requires forall d :: d in ordered ==> Stamped(d.span) && Usable(d)
    requires LogsStamped(logs) && WorksStamped(steps)
    ensures Covered(pairs) == Executed(ordered, lo, mid) && total == SevenSum(phases) == |Covered(pairs)|
    ensures forall x :: x in pairs ==> NS_FLOOR < x.lo < x.hi
    ensures PhasesOf(phases, OtherExec, ExecDispatches(ordered, lo, mid), logs, steps)
    ensures ReportFor(ExecDispatches(ordered, lo, mid), logs, steps, report)
  {
    var exec := ExecDispatches(ordered, lo, mid);
    ExecMeaning(ordered, lo, mid);
    total, pairs := SumExec(exec, lo, mid);
    phases, report := ExecBreakdown(exec, logs, steps);
  }

  /** `m` splits the executed time as the breakdown of dispatches `ds` does, with `rest` for what no
      phase explains. */
  ghost predicate PhasesOf(m: map<Component, int>, rest: Component, ds: seq<Dispatch>, logs: seq<PhaseLog>,
                           steps: seq<Work>) {
    exists ws :: Canonical(ws) && Covered(ws) == Covered(DispatchSpans(ds)) &&
      SplitsLike(m, rest, Rows(ds), logs, steps, ws)
  }

  ghost predicate SplitsLike(m: map<Component, int>, rest: Component, rows: seq<Dispatch>, logs: seq<PhaseLog>,
                             steps: seq<Work>, ws: seq<Span>) {
    && (forall c :: c !in {rest, OtherCompute, PipelineGap} ==> At(m, c) == |TimeOf(rows, logs, steps, ws, c)|)
    && At(m, rest) == |TimeOf(rows, logs, steps, ws, OtherCompute)| + |TimeOf(rows, logs, steps, ws, PipelineGap)|
  }

  method ExecBreakdown(exec: seq<Dispatch>, logs: seq<PhaseLog>, steps: seq<Work>)
    returns (m: map<Component, int>, b: Report)
    requires forall d :: d in exec ==> Stamped(d.span) && Usable(d)
    requires LogsStamped(logs) && WorksStamped(steps)
    ensures SevenSum(m) == |Covered(DispatchSpans(exec))|
    ensures PhasesOf(m, OtherExec, exec, logs, steps) && ReportFor(exec, logs, steps, b)
  {
    b := BuildBreakdown(exec, logs, steps);
    SameKept(exec);
    m := ExecPhases(b.wall);
    assert SplitsLike(m, OtherExec, Rows(exec), logs, steps, b.windows);
  }

  method ComputeTpot(ordered: seq<Dispatch>, queue: seq<Queue>, prefillEnd: int, consumeEnd: Option<int>,
                     logs: seq<PhaseLog>, steps: seq<Work>)
    returns (r: Option<TpotEntry>)
    requires forall d :: d in ordered ==> Stamped(d.span) && Usable(d)
    requires AllStamped(QueueSpans(queue)) && Disjoint(QueueSpans(queue))
    requires NS_FLOOR < prefillEnd && LogsStamped(logs) && WorksStamped(steps)
    ensures r.Some? <==> LastDecodeEnd(ordered, prefillEnd).Some? && consumeEnd.Some? &&
                         LastDecodeEnd(ordered, prefillEnd).value <= consumeEnd.value
    ensures r.Some? ==> r.value.startNs == prefillEnd && r.value.endNs == consumeEnd.value
    ensures r.Some? ==> r.value.lastDecodeEndNs == LastDecodeEnd(ordered, prefillEnd).value
    ensures r.Some? ==> EntryRight(r.value, ordered, queue)
    ensures r.Some? ==>
      PhasesOf(r.value.exec, OtherExec, ExecDispatches(ordered, r.value.startNs, r.value.lastDecodeEndNs), logs, steps)
    ensures r.Some? ==>
      ReportFor(ExecDispatches(ordered, r.value.startNs, r.value.lastDecodeEndNs), logs, steps, r.value.report)
    ensures r.Some? ==>
      r.value.preemptWaitNs == |PreemptWaited(ordered, queue, r.value.startNs, r.value.lastDecodeEndNs)|
  {
    var last := LastDecodeEnd(ordered, prefillEnd);
    LastDecodeEndIsMax(ordered, prefillEnd);
    if last.None? || consumeEnd.None? || consumeEnd.value < last.value {
      return None;
    }
    var e := BuildEntry(ordered, queue, prefillEnd, last.value, consumeEnd.value, logs, steps);
    r := Some(e);
  }

  lemma {:induction false} SameKept(ds: seq<Dispatch>)
    requires forall d :: d in ds ==> Usable(d)
    ensures Covered(DispatchSpans(Kept(ds))) == Covered(DispatchSpans(ds))
  {
    SpansIncluded(Kept(ds), ds);
    SpansIncluded(ds, Kept(ds));
  }

  /** `tpot_exec_ns` and its merged intervals. */
  method SumExec(exec: seq<Dispatch>, lo: int, hi: int) returns (total: int, pairs: seq<Span>)
    requires forall d :: d in exec ==> Stamped(d.span) && Usable(d) && lo <= d.span.lo && d.span.hi <= hi
    ensures Covered(pairs) == Covered(DispatchSpans(exec)) && total == |Covered(pairs)|
    ensures forall x :: x in pairs ==> NS_FLOOR < x.lo < x.hi
  {
    var spans := DispatchSpans(exec);
    forall s | s in spans
      ensures Stamped(s) && 0 < s.lo && lo <= s.lo && s.hi <= hi
    {
      var i :| 0 <= i < |spans| && spans[i] == s;
      assert exec[i] in exec;
    }
    total, pairs := SumClippedItems(spans, Some(lo), Some(hi), true);
    assert Recorded(spans, Some(lo), Some(hi)) == Covered(spans);
  }

  /** `tpot_other_gap_ns`: what neither a wait, an execution nor the tail covers. */
  method OtherGap(lo: int, mid: int, hi: int, pairs: seq<Span>, execPairs: seq<Span>) returns (n: int)
    requires NS_FLOOR < lo < mid <= hi
    requires forall x :: x in pairs ==> NS_FLOOR < x.lo < x.hi
    requires forall x :: x in execPairs ==> NS_FLOOR < x.lo < x.hi
    ensures n == |Instants(lo, hi) - (Covered(pairs) + Covered(execPairs) + Instants(mid, hi))|
  {
    var tail := Span(mid, hi);
    var xs := pairs + execPairs + [tail];
    n := UncoveredIntervalNs(lo, hi, xs);
    CoveredSplit(pairs + execPairs, [tail]);
    CoveredSplit(pairs, execPairs);
    CoveredOne(tail);
    AllRecorded(xs);
  }

  // ------------------------------------------------------- conservation

  /** The ten components never fall short of the window, and meet it iff no counted wait runs
      into a dispatch. */
  lemma TpotConservation(e: TpotEntry, ordered: seq<Dispatch>, queue: seq<Queue>)
    requires EntryRight(e, ordered, queue)
    ensures ComponentSum(e) >= e.endNs - e.startNs
    ensures ComponentSum(e) == e.endNs - e.startNs <==>
            Waited(ordered, queue, e.startNs, e.lastDecodeEndNs) !! Executed(ordered, e.startNs, e.lastDecodeEndNs)
  {
    UnionSize(Waited(ordered, queue, e.startNs, e.lastDecodeEndNs), Executed(ordered, e.startNs, e.lastDecodeEndNs));
  }

  lemma {:induction false} DisjointNeighbours(ss: seq<Span>)
    requires InOrder(ss) && Disjoint(ss)
    ensures AdjacentOverlap(ss) == 0
  {
    forall i | 0 <= i < |ss| - 1
      ensures ss[i].hi <= ss[i + 1].lo
    {
      assert Holds(ss[i + 1], ss[i + 1].lo);
      assert !Holds(ss[i], ss[i + 1].lo);
    }
    NoOverlapIff(ss);
  }

  /** With pairwise disjoint dispatches the derived waits avoid them, so the sum is exact. */
  lemma DisjointDispatchesExact(e: TpotEntry, ordered: seq<Dispatch>, queue: seq<Queue>, enqueue: int)
    requires EntryRight(e, ordered, queue)
    requires InOrder(DispatchSpans(ordered)) && Disjoint(DispatchSpans(ordered))
    requires QueueSpans(queue) == QueueTime(enqueue, DispatchSpans(ordered))
    ensures ComponentSum(e) == e.endNs - e.startNs
  {
    var ss := DispatchSpans(ordered);
    DisjointNeighbours(ss);
    WaitedInside(ordered, queue, e.startNs, e.lastDecodeEndNs);
    forall t | t in Waited(ordered, queue, e.startNs, e.lastDecodeEndNs)
      ensures t !in Covered(ss)
    {
      QueueSound(enqueue, ss, t);
    }
    TpotConservation(e, ordered, queue);
  }

  // ------------------------------------------ exactness from the dispatches

  /** The wait between dispatches `i` and `i + 1` counts, and part of it in the window lies inside the earlier
      dispatch `j`, which runs on past the end of dispatch `i`. */
  ghost predicate MeetsEarlier(ordered: seq<Dispatch>, lo: int, hi: int, i: nat, j: nat)
    requires j < i < |ordered| - 1
  {
    var next := ordered[i + 1].span.lo;
    && EndsWait(ordered, next)
    && Max(ordered[i].span.hi, lo) < Min(Min(next, hi), ordered[j].span.hi)
  }

  /** Some counted wait of the window runs into an earlier dispatch. */
  ghost predicate WaitMeetsEarlier(ordered: seq<Dispatch>, lo: int, hi: int) {
    exists i: nat, j: nat :: j < i < |ordered| - 1 && MeetsEarlier(ordered, lo, hi, i, j)
  }

  lemma {:induction false} GapBetween(ss: seq<Span>, s: Span)
    ensures s in AdjacentGaps(ss) <==> exists i :: 0 <= i < |ss| - 1 && s == Span(ss[i].hi, ss[i + 1].lo) && s.lo < s.hi
  {
    var n := |ss|;
    if n >= 2 {
      var front := ss[..n - 1];
      GapBetween(front, s);
      if i :| 0 <= i < n - 1 && s == Span(ss[i].hi, ss[i + 1].lo) && s.lo < s.hi {
        assert i < n - 2 ==> s == Span(front[i].hi, front[i + 1].lo);
      }
      if i :| 0 <= i < n - 2 && s == Span(front[i].hi, front[i + 1].lo) && s.lo < s.hi {
        assert s == Span(ss[i].hi, ss[i + 1].lo);
      }
      if s in GapSpan(ss[n - 2], ss[n - 1]) {
        assert s == Span(ss[n - 2].hi, ss[n - 2 + 1].lo);
      }
    }
  }

  /** `t` lies in the wait before dispatch `i`, and that wait counts. */
  ghost predicate WaitsBefore(ordered: seq<Dispatch>, enqueue: int, i: nat, t: int)
    requires i < |ordered|
  {
    && EndsWait(ordered, ordered[i].span.lo)
    && if i == 0 then 0 < enqueue <= t < ordered[0].span.lo else ordered[i - 1].span.hi <= t < ordered[i].span.lo
  }

  /** The instants of `[lo, hi)` that wait for a prefill or a decode, from the dispatches. */
  ghost function WaitTime(ordered: seq<Dispatch>, enqueue: int, lo: int, hi: int): set<int> {
    set t | lo <= t < hi && Holds(Span(lo, hi), t) &&
            exists i :: 0 <= i < |ordered| && WaitsBefore(ordered, enqueue, i, t)
  }

  /** A preemption falls between dispatches `i - 1` and `i` and into the window. */
  ghost predicate PreemptBefore(ordered: seq<Dispatch>, preempts: seq<int>, i: nat, lo: int, hi: int)
    requires 0 < i < |ordered|
  {
    exists u :: u in preempts && Max(ordered[i - 1].span.hi, lo) <= u <= Min(ordered[i].span.lo, hi)
  }

  /** The instants of `[lo, hi)` that wait after a dispatch and across a preemption. */
  ghost function PreemptTime(ordered: seq<Dispatch>, enqueue: int, preempts: seq<int>, lo: int, hi: int): set<int> {
    set t | lo <= t < hi && Holds(Span(lo, hi), t) &&
            exists i :: 0 < i < |ordered| && WaitsBefore(ordered, enqueue, i, t)
                        && PreemptBefore(ordered, preempts, i, lo, hi)
  }

  /** The queue intervals of a request, one for each wait between its dispatches. */
  ghost predicate QueueOf(ordered: seq<Dispatch>, enqueue: int, preempts: seq<int>, queue: seq<Queue>) {
    var ss := DispatchSpans(ordered);
    && QueueSpans(queue) == QueueTime(enqueue, ss) && AllClassified(queue, preempts)
    && forall k :: 0 <= k < |queue| ==> (queue[k].fromEnqueue <==> k < |EnqueueGap(enqueue, ss)|)
  }

  /** The wait before dispatch `i` is in the queue. */
  lemma QueuedBefore(ordered: seq<Dispatch>, enqueue: int, preempts: seq<int>, queue: seq<Queue>, i: nat, t: int)
    returns (q: Queue)
    requires QueueOf(ordered, enqueue, preempts, queue) && i < |ordered| && WaitsBefore(ordered, enqueue, i, t)
    ensures q in queue && Holds(q.span, t) && q.span.hi == ordered[i].span.lo && q.fromEnqueue == (i == 0)
    ensures q.span.lo == if i == 0 then enqueue else ordered[i - 1].span.hi
  {
    var ss := DispatchSpans(ordered);
    var first := EnqueueGap(enqueue, ss);
    if i == 0 {
      assert QueueSpans(queue)[0] == first[0];
      q := queue[0];
    } else {
      var s := Span(ss[i - 1].hi, ss[i - 1 + 1].lo);
      GapBetween(ss, s);
      var j :| 0 <= j < |AdjacentGaps(ss)| && AdjacentGaps(ss)[j] == s;
      assert QueueSpans(queue)[|first| + j] == s;
      q := queue[|first| + j];
    }
  }

  /** Every queue interval is the wait before some dispatch. */
  lemma QueueIsBefore(ordered: seq<Dispatch>, enqueue: int, preempts: seq<int>, queue: seq<Queue>, q: Queue)
    returns (i: nat)
    requires QueueOf(ordered, enqueue, preempts, queue) && q in queue
    ensures i < |ordered| && q.span.hi == ordered[i].span.lo && q.fromEnqueue == (i == 0)
    ensures if i == 0 then 0 < enqueue == q.span.lo else q.span.lo == ordered[i - 1].span.hi
  {
    var ss := DispatchSpans(ordered);
    var first := EnqueueGap(enqueue, ss);
    var k :| 0 <= k < |queue| && queue[k] == q;
    assert QueueSpans(queue)[k] == q.span;
    if k < |first| {
      i := 0;
    } else {
      assert AdjacentGaps(ss)[k - |first|] == q.span;
      GapBetween(ss, q.span);
      var j :| 0 <= j < |ss| - 1 && q.span == Span(ss[j].hi, ss[j + 1].lo);
      i := j + 1;
    }
  }

  lemma WaitedIsTime(ordered: seq<Dispatch>, enqueue: int, preempts: seq<int>, queue: seq<Queue>, lo: int, hi: int)
    requires QueueOf(ordered, enqueue, preempts, queue) && forall d :: d in ordered ==> Usable(d)
    ensures Waited(ordered, queue, lo, hi) == WaitTime(ordered, enqueue, lo, hi)
  {
    forall t | t in WaitTime(ordered, enqueue, lo, hi)
      ensures t in Waited(ordered, queue, lo, hi)
    {
      var i :| 0 <= i < |ordered| && WaitsBefore(ordered, enqueue, i, t);
      var q := QueuedBefore(ordered, enqueue, preempts, queue, i, t);
      assert i > 0 ==> ordered[i - 1] in ordered;
    }
    forall t | t in Waited(ordered, queue, lo, hi)
      ensures t in WaitTime(ordered, enqueue, lo, hi)
    {
      var q :| q in queue && EndsWait(ordered, q.span.hi) && 0 < q.span.lo && Holds(q.span, t);
      var i := QueueIsBefore(ordered, enqueue, preempts, queue, q);
      assert WaitsBefore(ordered, enqueue, i, t);
    }
  }

  lemma HitIsPreempt(ordered: seq<Dispatch>, preempts: seq<int>, q: Queue, i: nat, lo: int, hi: int)
    requires Classified(q, preempts) && 0 < i < |ordered| && !q.fromEnqueue
    requires q.span == Span(ordered[i - 1].span.hi, ordered[i].span.lo)
    ensures HitIn(q, lo, hi) <==> PreemptBefore(ordered, preempts, i, lo, hi)
  {
    if u :| u in preempts && Max(ordered[i - 1].span.hi, lo) <= u <= Min(ordered[i].span.lo, hi) {
      assert u in q.preempts;
    }
  }

  lemma PreemptedIsTime(ordered: seq<Dispatch>, enqueue: int, preempts: seq<int>, queue: seq<Queue>, lo: int, hi: int)
    requires QueueOf(ordered, enqueue, preempts, queue) && forall d :: d in ordered ==> Usable(d)
    ensures PreemptWaited(ordered, queue, lo, hi) == PreemptTime(ordered, enqueue, preempts, lo, hi)
  {
    forall t | t in PreemptTime(ordered, enqueue, preempts, lo, hi)
      ensures t in PreemptWaited(ordered, queue, lo, hi)
    {
      var i :| 0 < i < |ordered| && WaitsBefore(ordered, enqueue, i, t) && PreemptBefore(ordered, preempts, i, lo, hi);
      var q := QueuedBefore(ordered, enqueue, preempts, queue, i, t);
      assert ordered[i - 1] in ordered;
      HitIsPreempt(ordered, preempts, q, i, lo, hi);
    }
    forall t | t in PreemptWaited(ordered, queue, lo, hi)
      ensures t in PreemptTime(ordered, enqueue, preempts, lo, hi)
    {
      var q :| q in queue && EndsWait(ordered, q.span.hi) && HitIn(q, lo, hi) && 0 < q.span.lo && Holds(q.span, t);
      var i := QueueIsBefore(ordered, enqueue, preempts, queue, q);
      assert Classified(q, preempts);
      assert i > 0;
      HitIsPreempt(ordered, preempts, q, i, lo, hi);
      assert WaitsBefore(ordered, enqueue, i, t);
    }
  }

  lemma HeldByEarlier(ss: seq<Span>, i: nat, j: nat, t: int)
    requires InOrder(ss) && i < |ss| - 1 && ss[i].hi <= t < ss[i + 1].lo && j < |ss| && Holds(ss[j], t)
    ensures j < i
  {
    var next := i + 1;
    if next <= j {
      StartsLater(ss, next, j);
    }
  }

  lemma StartsLater(ss: seq<Span>, i: nat, j: nat)
    requires InOrder(ss) && i <= j < |ss|
    ensures ss[i].lo <= ss[j].lo
  {
  }

  lemma DoubleCountNeedsPair(ordered: seq<Dispatch>, enqueue: int, lo: int, hi: int, t: int)
    requires InOrder(DispatchSpans(ordered))
    requires t in WaitTime(ordered, enqueue, lo, hi) && t in Executed(ordered, lo, hi)
    ensures WaitMeetsEarlier(ordered, lo, hi)
  {
    var ss := DispatchSpans(ordered);
    var j :| 0 <= j < |ss| && Holds(ss[j], t);
    var i :| 0 <= i < |ordered| && WaitsBefore(ordered, enqueue, i, t);
    assert 0 < j ==> ss[0].lo <= ss[j].lo;
    HeldByEarlier(ss, i - 1, j, t);
    assert MeetsEarlier(ordered, lo, hi, i - 1, j);
  }

  lemma PairDoubleCounts(ordered: seq<Dispatch>, enqueue: int, lo: int, hi: int, i: nat, j: nat)
    requires InOrder(DispatchSpans(ordered)) && j < i < |ordered| - 1 && MeetsEarlier(ordered, lo, hi, i, j)
    ensures Max(ordered[i].span.hi, lo) in WaitTime(ordered, enqueue, lo, hi) * Executed(ordered, lo, hi)
  {
    var ss := DispatchSpans(ordered);
    var t := Max(ss[i].hi, lo);
    assert ss[j].lo <= ss[i].lo < ss[i].hi;
    assert WaitsBefore(ordered, enqueue, i + 1, t);
    assert ss[j] in ss && Holds(ss[j], t);
  }

  lemma WaitsApart(ordered: seq<Dispatch>, enqueue: int, lo: int, hi: int)
    requires InOrder(DispatchSpans(ordered))
    ensures WaitTime(ordered, enqueue, lo, hi) !! Executed(ordered, lo, hi) <==> !WaitMeetsEarlier(ordered, lo, hi)
  {
    if WaitMeetsEarlier(ordered, lo, hi) {
      var i: nat, j: nat :| j < i < |ordered| - 1 && MeetsEarlier(ordered, lo, hi, i, j);
      PairDoubleCounts(ordered, enqueue, lo, hi, i, j);
    } else {
      forall t | t in WaitTime(ordered, enqueue, lo, hi)
        ensures t !in Executed(ordered, lo, hi)
      {
        if t in Executed(ordered, lo, hi) {
          DoubleCountNeedsPair(ordered, enqueue, lo, hi, t);
        }
      }
    }
  }

  /** With the waits that are derived from the dispatches, the ten components are exactly the window if and
      only if no counted wait of the window runs into an earlier dispatch. */
  lemma ExactIff(e: TpotEntry, ordered: seq<Dispatch>, enqueue: int, preempts: seq<int>, queue: seq<Queue>)
    requires EntryRight(e, ordered, queue) && InOrder(DispatchSpans(ordered))
    requires QueueOf(ordered, enqueue, preempts, queue) && forall d :: d in ordered ==> Usable(d)
    ensures ComponentSum(e) == e.endNs - e.startNs <==> !WaitMeetsEarlier(ordered, e.startNs, e.lastDecodeEndNs)
  {
    TpotConservation(e, ordered, queue);
    WaitedIsTime(ordered, enqueue, preempts, queue, e.startNs, e.lastDecodeEndNs);
    WaitsApart(ordered, enqueue, e.startNs, e.lastDecodeEndNs);
  }

  /** What an entry says about the dispatches: which instants are waits, and which of them for a preemption; which are
      executed; what follows the last decode; and what is none of these. */
  ghost predicate TpotRight(e: TpotEntry, ordered: seq<Dispatch>, enqueue: int, preempts: seq<int>) {
    var waited := WaitTime(ordered, enqueue, e.startNs, e.lastDecodeEndNs);
    var executed := Executed(ordered, e.startNs, e.lastDecodeEndNs);
    && e.normalWaitNs + e.preemptWaitNs == |waited|
    && e.preemptWaitNs == |PreemptTime(ordered, enqueue, preempts, e.startNs, e.lastDecodeEndNs)|
    && ExecSum(e) == e.execTotalNs == |executed|
    && e.tailTransportNs == |Instants(e.lastDecodeEndNs, e.endNs)|
    && e.otherGapNs == |Instants(e.startNs, e.endNs) - (waited + executed + Instants(e.lastDecodeEndNs, e.endNs))|
  }

  /** Queue derivation and decomposition of one request, from its dispatches. */
  method RequestTpot(ds: seq<Dispatch>, enqueue: int, preempts: seq<int>, prefillEnd: int, consumeEnd: Option<int>,
                     logs: seq<PhaseLog>, steps: seq<Work>)
    returns (r: Option<TpotEntry>)
    requires forall d :: d in ds ==> Stamped(d.span) && Usable(d)
    requires Stamp(enqueue) && NS_FLOOR < prefillEnd && LogsStamped(logs) && WorksStamped(steps)
    ensures r.Some? <==> LastDecodeEnd(SortBy(ds, DispatchKey), prefillEnd).Some? && consumeEnd.Some? &&
                         LastDecodeEnd(SortBy(ds, DispatchKey), prefillEnd).value <= consumeEnd.value
    ensures r.Some? ==> r.value.startNs == prefillEnd && r.value.endNs == consumeEnd.value
    ensures r.Some? ==> r.value.lastDecodeEndNs == LastDecodeEnd(SortBy(ds, DispatchKey), prefillEnd).value
    ensures r.Some? ==> ComponentSum(r.value) >= r.value.endNs - r.value.startNs
    ensures r.Some? ==> (ComponentSum(r.value) == r.value.endNs - r.value.startNs <==>
                         !WaitMeetsEarlier(SortBy(ds, DispatchKey), r.value.startNs, r.value.lastDecodeEndNs))
    ensures r.Some? && Disjoint(DispatchSpans(SortBy(ds, DispatchKey))) ==>
            ComponentSum(r.value) == r.value.endNs - r.value.startNs
    ensures var ordered := SortBy(ds, DispatchKey);
      && (forall d :: d in ordered ==> Stamped(d.span) && Usable(d))
      && (r.Some? ==>
            var exec := ExecDispatches(ordered, r.value.startNs, r.value.lastDecodeEndNs);
            && TpotRight(r.value, ordered, enqueue, preempts)
            && PhasesOf(r.value.exec, OtherExec, exec, logs, steps) && ReportFor(exec, logs, steps, r.value.report))
  {
    var ordered := SortBy(ds, DispatchKey);
    SameElements(ds, DispatchKey);
    DispatchesInOrder(ds);
    var _, _, _, queue := DeriveQueue(ds, enqueue, preempts);
    ghost var ss := DispatchSpans(ordered);
    QueueDisjoint(enqueue, ss);
    QueueStamped(enqueue, ordered);
    r := ComputeTpot(ordered, queue, prefillEnd, consumeEnd, logs, steps);
    if r.Some? {
      TpotConservation(r.value, ordered, queue);
      ExactIff(r.value, ordered, enqueue, preempts, queue);
      EntryFromDispatches(r.value, ordered, enqueue, preempts, queue);
      if Disjoint(ss) {
        DisjointDispatchesExact(r.value, ordered, queue, enqueue);
      }
    }
  }

  lemma EntryFromDispatches(e: TpotEntry, ordered: seq<Dispatch>, enqueue: int, preempts: seq<int>, queue: seq<Queue>)
    requires EntryRight(e, ordered, queue) && e.lastDecodeEndNs <= e.endNs
    requires e.preemptWaitNs == |PreemptWaited(ordered, queue, e.startNs, e.lastDecodeEndNs)|
    requires QueueOf(ordered, enqueue, preempts, queue) && forall d :: d in ordered ==> Usable(d)
    ensures TpotRight(e, ordered, enqueue, preempts)
  {
    WaitedIsTime(ordered, enqueue, preempts, queue, e.startNs, e.lastDecodeEndNs);
    PreemptedIsTime(ordered, enqueue, preempts, queue, e.startNs, e.lastDecodeEndNs);
    InstantsSize(e.lastDecodeEndNs, e.endNs);
  }

  lemma QueueStamped(enqueue: int, ordered: seq<Dispatch>)
    requires forall d :: d in ordered ==> Stamped(d.span) && Usable(d)
    requires Stamp(enqueue)
    ensures AllStamped(QueueTime(enqueue, DispatchSpans(ordered)))
  {
    var ss := DispatchSpans(ordered);
    forall i | 0 <= i < |ss|
      ensures NS_FLOOR < ss[i].lo < ss[i].hi
    {
      assert ordered[i] in ordered;
    }
    GapsStamped(ss);
  }

  lemma {:induction false} GapsStamped(ss: seq<Span>)
    requires forall i :: 0 <= i < |ss| ==> NS_FLOOR < ss[i].lo < ss[i].hi
    ensures AllStamped(AdjacentGaps(ss))
  {
    if |ss| >= 2 {
      GapsStamped(ss[..|ss| - 1]);
    }
  }
}
