/** From the probe's run to the operating-system delay of a request. */
module ProbeDelay {
  import opened Sets
  import opened Spans
  import opened Intervals
  import opened OsWaits
  import opened OsDelay
  import RunQueue

  /** An event of the probe as the attribution reads it; the reason is its type. */
  function WaitOf(e: RunQueue.Event): Wait {
    Wait(e.tid, Span(e.startNs, e.endNs), Some(if e.kind == RunQueue.Kind.Wakeup then 0 else 1))
  }

  function WaitsFrom(events: seq<RunQueue.Event>): (r: seq<Wait>)
    ensures |r| == |events| && forall i :: 0 <= i < |r| ==> r[i] == WaitOf(events[i])
  {
    seq(|events|, i requires 0 <= i < |events| => WaitOf(events[i]))
  }

  ghost predicate MarkedWait(trace: seq<RunQueue.Step>, i: nat, j: nat, w: Wait)
    requires i < j < |trace| && w.tid >= 0
  {
    && RunQueue.LatestMark(trace, i, j, w.tid) && RunQueue.GetsCpu(trace, j, w.tid)
    && w.span == Span(trace[i].now, trace[j].now) && w.reason == Some(if trace[i].Wake? then 0 else 1)
  }

  /** The waits read from the events of a run: each from a mark of its thread to where that gets a CPU, and its reason
      says whether the mark was a wakeup (0) or a preemption (1). */
  lemma {:induction false} WaitsAre(trace: seq<RunQueue.Step>, w: Wait)
    requires RunQueue.Clocked(trace) && w in WaitsFrom(RunQueue.Run(trace).events)
    ensures w.tid >= 0 && exists i, j :: 0 <= i < j < |trace| && MarkedWait(trace, i, j, w)
  {
    var events := RunQueue.Run(trace).events;
    var k :| 0 <= k < |events| && WaitsFrom(events)[k] == w;
    RunQueue.ProbeSafety(trace);
    assert RunQueue.Justified(trace, events[k]);
    var i, j :| 0 <= i < j < |trace| && RunQueue.Explains(trace, i, j, events[k]);
    assert MarkedWait(trace, i, j, w);
  }

  /** From step `i`, its latest mark, until it gets a CPU at step `j`, the thread waits for longer than the noise
      limit, and there is room to report it. */
  ghost predicate LongWait(trace: seq<RunQueue.Step>, tid: nat, i: nat, j: nat)
    requires i < j < |trace|
  {
    && RunQueue.LatestMark(trace, i, j, tid) && RunQueue.GetsCpu(trace, j, tid) && !RunQueue.Mark(trace, j, tid)
    && trace[i].now + RunQueue.NOISE_NS < trace[j].now && trace[j].reserved
  }

  /** At instant `t` the thread is inside a long wait of the run. */
  ghost predicate WaitsAt(trace: seq<RunQueue.Step>, tid: nat, t: int) {
    exists i: nat, j: nat :: i < j < |trace| && LongWait(trace, tid, i, j) && trace[i].now <= t < trace[j].now
  }

  ghost predicate ReportsAt(events: seq<RunQueue.Event>, tid: int, t: int) {
    exists e :: e in events && e.tid == tid && e.startNs <= t < e.endNs
  }

  /** Over every run, the instants inside the events of a thread are exactly those inside its long waits. */
  lemma {:induction false} EventsAreWaits(trace: seq<RunQueue.Step>, tid: nat, t: int)
    requires RunQueue.Clocked(trace)
    ensures ReportsAt(RunQueue.Run(trace).events, tid, t) <==> WaitsAt(trace, tid, t)
  {
    var events := RunQueue.Run(trace).events;
    RunQueue.ProbeSafety(trace);
    if e :| e in events && e.tid == tid && e.startNs <= t < e.endNs {
      var i, j :| 0 <= i < j < |trace| && RunQueue.Explains(trace, i, j, e);
      assert LongWait(trace, tid, i, j);
    }
    if i: nat, j: nat :| i < j < |trace| && LongWait(trace, tid, i, j) && trace[i].now <= t < trace[j].now {
      RunQueue.WaitReported(trace, i, j, tid);
    }
  }

  /** At `t` the request executes on a group of workers, and one of them is inside a long wait. */
  ghost predicate HeldUp(execs: seq<Exec>, trace: seq<RunQueue.Step>, rid: nat, t: int) {
    exists g, tid: nat :: Executing(execs, rid, g, t) && tid in Workers(execs, g) && tid != 0 && WaitsAt(trace, tid, t)
  }

  lemma {:induction false} DelayedIsHeldUp(execs: seq<Exec>, trace: seq<RunQueue.Step>, rid: nat, t: int)
    requires RunQueue.Clocked(trace) && Delayed(execs, WaitsFrom(RunQueue.Run(trace).events), rid, t)
    ensures HeldUp(execs, trace, rid, t)
  {
    var events := RunQueue.Run(trace).events;
    var waits := WaitsFrom(events);
    var g, w :| DelayedBy(execs, waits, rid, g, w, t);
    var k :| 0 <= k < |waits| && waits[k] == w;
    assert events[k] in events;
    EventsAreWaits(trace, events[k].tid, t);
  }

  lemma {:induction false} HeldUpIsDelayed(execs: seq<Exec>, trace: seq<RunQueue.Step>, rid: nat, t: int)
    requires RunQueue.Clocked(trace) && HeldUp(execs, trace, rid, t)
    ensures Delayed(execs, WaitsFrom(RunQueue.Run(trace).events), rid, t)
  {
    var events := RunQueue.Run(trace).events;
    var waits := WaitsFrom(events);
    var g, tid: nat :| Executing(execs, rid, g, t) && tid in Workers(execs, g) && tid != 0 && WaitsAt(trace, tid, t);
    EventsAreWaits(trace, tid, t);
    var e :| e in events && e.tid == tid && e.startNs <= t < e.endNs;
    var k :| 0 <= k < |events| && events[k] == e;
    EventsStartLate(trace, e);
    assert waits[k] in waits && DelayedBy(execs, waits, rid, g, waits[k], t);
  }

  lemma {:induction false} DelayIsHeldUp(execs: seq<Exec>, trace: seq<RunQueue.Step>, rid: nat, t: int)
    requires RunQueue.Clocked(trace)
    ensures t in DelayTime(execs, WaitsFrom(RunQueue.Run(trace).events), rid) <==> HeldUp(execs, trace, rid, t)
  {
    var waits := WaitsFrom(RunQueue.Run(trace).events);
    DelayTimeIs(execs, waits, rid, t);
    if Delayed(execs, waits, rid, t) {
      DelayedIsHeldUp(execs, trace, rid, t);
    }
    if HeldUp(execs, trace, rid, t) {
      HeldUpIsDelayed(execs, trace, rid, t);
    }
  }

  lemma {:induction false} EventsStartLate(trace: seq<RunQueue.Step>, e: RunQueue.Event)
    requires RunQueue.Clocked(trace) && e in RunQueue.Run(trace).events
    ensures 0 < e.startNs < e.endNs
  {
    RunQueue.RunInvariant(trace);
  }

  /** The delay of a request from the probe's output: exactly the instants at which one of its groups executes
      while a worker of that group is inside a long wait of the run. */
  method TracedDelay(probe: RunQueue.Probe, execs: seq<Exec>, rid: nat) returns (total: int, blocks: seq<Block>)
    requires probe.Valid()
    ensures total == |Covered(BlockSpans(blocks))|
    ensures forall t :: t in Covered(BlockSpans(blocks)) <==> HeldUp(Read(execs), probe.trace, rid, t)
  {
    total, blocks := RequestDelay(execs, WaitsFrom(probe.events), rid);
    forall t
      ensures t in Covered(BlockSpans(blocks)) <==> HeldUp(Read(execs), probe.trace, rid, t)
    {
      DelayIsHeldUp(Read(execs), probe.trace, rid, t);
    }
  }
}
