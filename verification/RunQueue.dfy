/** The run-queue probe: scheduler tracepoints over two maps, as atomic steps. */
module RunQueue {
  const CAPACITY: nat := 1024
  const NOISE_NS: nat := 5000
  const WORD: nat := 0x1_0000_0000_0000_0000

  datatype Kind = Wakeup | Preempt

  datatype Info = Info(ts: nat, kind: Kind)

  datatype Event = Event(startNs: nat, endNs: nat, tid: nat, kind: Kind)

  /** `Track` is the loader adding a thread; the others are tracepoints with the clock they read.
      `reserved` says whether the ring buffer has room. */
  datatype Step =
    | Track(tid: nat)
    | Wake(tid: nat, now: nat)
    | Switch(prev: nat, prevRunning: bool, next: nat, now: nat, reserved: bool)

  datatype State = State(tracked: set<nat>, runnable: map<nat, Info>, events: seq<Event>)

  /** Unsigned 64-bit subtraction. */
  function Sub64(a: nat, b: nat): nat {
    ((a as int - b as int) % WORD) as nat
  }

  /** `bpf_map_update_elem` on the bounded map: a new key needs room. */
  function Record(runnable: map<nat, Info>, tid: nat, ts: nat, kind: Kind): map<nat, Info> {
    if tid in runnable || |runnable| < CAPACITY then runnable[tid := Info(ts, kind)] else runnable
  }

  function Next(s: State, step: Step): State {
    match step
    case Track(tid) => if tid in s.tracked || |s.tracked| >= CAPACITY then s else s.(tracked := s.tracked + {tid})
    case Wake(tid, now) => if tid in s.tracked then s.(runnable := Record(s.runnable, tid, now, Wakeup)) else s
    case Switch(prev, prevRunning, next, now, reserved) =>
      SwitchIn(if prev in s.tracked && prevRunning then s.(runnable := Record(s.runnable, prev, now, Preempt)) else s,
               next, now, reserved)
  }

  /** The second half of a context switch. */
  function SwitchIn(s: State, next: nat, now: nat, reserved: bool): State {
    if next in s.tracked && next in s.runnable && s.runnable[next].ts > 0 then
      var info := s.runnable[next];
      State(s.tracked, s.runnable - {next},
            if Sub64(now, info.ts) > NOISE_NS && reserved
            then s.events + [Event(info.ts, now, next, info.kind)] else s.events)
    else s
  }

  ghost function Run(trace: seq<Step>): State {
    if trace == [] then State({}, map[], []) else Next(Run(trace[..|trace| - 1]), trace[|trace| - 1])
  }

  /** The last clock value read. */
  ghost function Clock(trace: seq<Step>): nat {
    if trace == [] then 0
    else if trace[|trace| - 1].Track? then Clock(trace[..|trace| - 1])
    else trace[|trace| - 1].now
  }

  /** The clock is positive, fits in 64 bits and never goes back. */
  ghost predicate Clocked(trace: seq<Step>) {
    trace != [] ==>
      var n := |trace| - 1;
      Clocked(trace[..n]) && (trace[n].Track? || (0 < trace[n].now < WORD && Clock(trace[..n]) <= trace[n].now))
  }

  // ------------------------------------------- what a trace says about a thread

  /** The tracked threads just before step `i`. */
  ghost function TrackedAt(trace: seq<Step>, i: nat): set<nat>
    requires i <= |trace|
  {
    Run(trace[..i]).tracked
  }

  /** At step `i` the tracked thread `tid` becomes runnable: woken up, or preempted while running. */
  ghost predicate Mark(trace: seq<Step>, i: nat, tid: nat)
    requires i < |trace|
  {
    tid in TrackedAt(trace, i) &&
    match trace[i]
    case Track(_) => false
    case Wake(t, _) => t == tid
    case Switch(prev, prevRunning, _, _, _) => prev == tid && prevRunning
  }

  function MarkInfo(step: Step): Info
    requires !step.Track?
  {
    Info(step.now, if step.Wake? then Wakeup else Preempt)
  }

  /** At step `i` the tracked thread `tid` gets a CPU. */
  ghost predicate GetsCpu(trace: seq<Step>, i: nat, tid: nat)
    requires i < |trace|
  {
    trace[i].Switch? && trace[i].next == tid && tid in TrackedAt(trace, i)
  }

  /** Step `i` is the latest mark of `tid` before `j`, and `tid` has had no CPU from `i` up to `j`. */
  ghost predicate LatestMark(trace: seq<Step>, i: nat, j: nat, tid: nat)
    requires i < j <= |trace|
  {
    && Mark(trace, i, tid)
    && (forall m :: i < m < j ==> !Mark(trace, m, tid))
    && (forall m :: i <= m < j ==> !GetsCpu(trace, m, tid))
  }

  /** The thread has been waiting for a CPU since its latest mark, which `info` describes. */
  ghost predicate Waiting(trace: seq<Step>, tid: nat, info: Info) {
    exists i :: 0 <= i < |trace| && LatestMark(trace, i, |trace|, tid) && MarkInfo(trace[i]) == info
  }

  /** Event `e` is written when its thread gets a CPU, and starts at the latest mark before that. */
  ghost predicate Justified(trace: seq<Step>, e: Event) {
    exists i, j :: 0 <= i < j < |trace| && Explains(trace, i, j, e)
  }

  ghost predicate Explains(trace: seq<Step>, i: nat, j: nat, e: Event)
    requires i < j < |trace|
  {
    && LatestMark(trace, i, j, e.tid) && MarkInfo(trace[i]) == Info(e.startNs, e.kind)
    && GetsCpu(trace, j, e.tid) && trace[j].now == e.endNs && !Mark(trace, j, e.tid) && trace[j].reserved
  }

  // ------------------------------------------------------------- extension

  lemma MarkLater(trace: seq<Step>, s: Step, i: nat, tid: nat)
    requires i < |trace|
    ensures Mark(trace + [s], i, tid) <==> Mark(trace, i, tid)
    ensures GetsCpu(trace + [s], i, tid) <==> GetsCpu(trace, i, tid)
  {
    assert (trace + [s])[..i] == trace[..i];
  }

  lemma LatestLater(trace: seq<Step>, s: Step, i: nat, j: nat, tid: nat)
    requires i < j <= |trace| && LatestMark(trace, i, j, tid)
    ensures LatestMark(trace + [s], i, j, tid)
  {
    forall m | i <= m < j
      ensures Mark(trace + [s], m, tid) <==> Mark(trace, m, tid)
      ensures GetsCpu(trace + [s], m, tid) <==> GetsCpu(trace, m, tid)
    {
      MarkLater(trace, s, m, tid);
    }
  }

  lemma JustifiedLater(trace: seq<Step>, s: Step, e: Event)
    requires Justified(trace, e)
    ensures Justified(trace + [s], e)
  {
    var i, j :| 0 <= i < j < |trace| && Explains(trace, i, j, e);
    LatestLater(trace, s, i, j, e.tid);
    MarkLater(trace, s, j, e.tid);
    assert Explains(trace + [s], i, j, e);
  }

  /** A thread that neither is marked nor gets a CPU keeps waiting. */
  lemma StillWaiting(trace: seq<Step>, s: Step, tid: nat, info: Info)
    requires Waiting(trace, tid, info)
    requires !Mark(trace + [s], |trace|, tid) && !GetsCpu(trace + [s], |trace|, tid)
    ensures Waiting(trace + [s], tid, info)
  {
    var i :| 0 <= i < |trace| && LatestMark(trace, i, |trace|, tid) && MarkInfo(trace[i]) == info;
    LatestLater(trace, s, i, |trace|, tid);
    assert LatestMark(trace + [s], i, |trace + [s]|, tid) && MarkInfo((trace + [s])[i]) == info;
  }

  /** A thread that is marked and does not get a CPU waits from now on. */
  lemma WaitsNow(trace: seq<Step>, s: Step, tid: nat)
    requires Mark(trace + [s], |trace|, tid) && !GetsCpu(trace + [s], |trace|, tid)
    ensures Waiting(trace + [s], tid, MarkInfo(s))
  {
    assert LatestMark(trace + [s], |trace|, |trace + [s]|, tid);
  }

  /** A waiting thread that gets a CPU justifies an event from its mark to now. */
  lemma EventNow(trace: seq<Step>, s: Step, tid: nat, info: Info)
    requires Waiting(trace, tid, info) && s.Switch? && s.reserved && GetsCpu(trace + [s], |trace|, tid)
    requires !Mark(trace + [s], |trace|, tid)
    ensures Justified(trace + [s], Event(info.ts, s.now, tid, info.kind))
  {
    var i :| 0 <= i < |trace| && LatestMark(trace, i, |trace|, tid) && MarkInfo(trace[i]) == info;
    LatestLater(trace, s, i, |trace|, tid);
    assert Explains(trace + [s], i, |trace|, Event(info.ts, s.now, tid, info.kind));
  }

  // ------------------------------------------------------------- invariants

  /** The map of runnable threads is bounded by the tracked ones, so it never runs out of room. */
  ghost predicate Bounded(s: State) {
    s.runnable.Keys <= s.tracked && |s.tracked| <= CAPACITY
  }

  /** Entries and events respect the clock and each other. */
  ghost predicate Timed(s: State, now: nat) {
    && (forall tid :: tid in s.runnable ==> 0 < s.runnable[tid].ts <= now)
    && (forall e :: e in s.events ==> 0 < e.startNs && e.startNs + NOISE_NS < e.endNs <= now)
    && (forall e :: e in s.events && e.tid in s.runnable ==> e.endNs <= s.runnable[e.tid].ts)
    && (forall i, j :: 0 <= i < j < |s.events| && s.events[i].tid == s.events[j].tid ==>
          s.events[i].endNs <= s.events[j].startNs)
  }

  /** Entries are exactly the waiting threads, and every event is justified. */
  ghost predicate Explained(trace: seq<Step>, s: State) {
    && (forall tid :: tid in s.runnable ==> Waiting(trace, tid, s.runnable[tid]))
    && (forall e :: e in s.events ==> Justified(trace, e))
  }

  lemma RoomLeft(s: State, tid: nat)
    requires Bounded(s) && tid in s.tracked
    ensures tid in s.runnable || |s.runnable| < CAPACITY
  {
    if tid !in s.runnable {
      var waiting, others := s.runnable.Keys, s.tracked - {tid};
      assert others == waiting + (others - waiting);
    }
  }

  lemma BoundedStep(s: State, step: Step)
    requires Bounded(s)
    ensures Bounded(Next(s, step))
  {
  }

  lemma TimedRecord(s: State, was: nat, tid: nat, now: nat, kind: Kind)
    requires Bounded(s) && Timed(s, was) && was <= now && 0 < now && tid in s.tracked
    ensures Record(s.runnable, tid, now, kind) == s.runnable[tid := Info(now, kind)]
    ensures var r := s.(runnable := Record(s.runnable, tid, now, kind)); Bounded(r) && Timed(r, now)
  {
    RoomLeft(s, tid);
  }

  lemma TimedSwitchIn(s: State, next: nat, now: nat, reserved: bool)
    requires Timed(s, now) && 0 < now < WORD
    ensures Timed(SwitchIn(s, next, now, reserved), now)
  {
    if next in s.tracked && next in s.runnable && s.runnable[next].ts > 0 {
      assert Sub64(now, s.runnable[next].ts) == now - s.runnable[next].ts;
    }
  }

  lemma TimedStep(s: State, was: nat, step: Step)
    requires Bounded(s) && Timed(s, was) && !step.Track? && was <= step.now && 0 < step.now < WORD
    ensures Timed(Next(s, step), step.now)
  {
    match step
    case Wake(tid, now) =>
      if tid in s.tracked {
        TimedRecord(s, was, tid, now, Wakeup);
      }
    case Switch(prev, prevRunning, next, now, reserved) =>
      var mid := if prev in s.tracked && prevRunning then s.(runnable := Record(s.runnable, prev, now, Preempt)) else s;
      if prev in s.tracked && prevRunning {
        TimedRecord(s, was, prev, now, Preempt);
      }
      TimedSwitchIn(mid, next, now, reserved);
  }

  lemma {:induction false} RunInvariant(trace: seq<Step>)
    requires Clocked(trace)
    ensures Bounded(Run(trace)) && Timed(Run(trace), Clock(trace))
  {
    if trace != [] {
      var n := |trace| - 1;
      RunInvariant(trace[..n]);
      BoundedStep(Run(trace[..n]), trace[n]);
      if !trace[n].Track? {
        TimedStep(Run(trace[..n]), Clock(trace[..n]), trace[n]);
      }
    }
  }

  // ------------------------------------------ entries and events are explained

  /** An entry of the map after a step is a fresh mark, or an old entry the step leaves alone. */
  lemma {:induction false} EntryExplained(trace: seq<Step>, step: Step, tid: nat)
    requires Clocked(trace + [step]) && Bounded(Run(trace)) && Timed(Run(trace), Clock(trace))
    requires Explained(trace, Run(trace)) && tid in Next(Run(trace), step).runnable
    ensures Waiting(trace + [step], tid, Next(Run(trace), step).runnable[tid])
  {
    var s, all := Run(trace), trace + [step];
    assert all[..|trace|] == trace;
    if Mark(all, |trace|, tid) {
      RoomLeft(s, tid);
      WaitsNow(trace, step, tid);
    } else {
      StillWaiting(trace, step, tid, s.runnable[tid]);
    }
  }

  lemma SubSelf(a: nat)
    ensures Sub64(a, a) == 0
  {
  }

  /** A new event ends a wait that was recorded before this step: a thread preempted and resumed in one
      switch has waited for no time. */
  lemma NewEvent(s: State, step: Step, e: Event)
    requires Bounded(s) && e in Next(s, step).events && e !in s.events
    ensures step.Switch? && step.reserved && step.next == e.tid && e.tid in s.tracked &&
      !(step.prev == e.tid && step.prevRunning)
    ensures e.tid in s.runnable && e == Event(s.runnable[e.tid].ts, step.now, e.tid, s.runnable[e.tid].kind)
  {
    SubSelf(step.now);
    RoomLeft(s, step.next);
  }

  lemma {:induction false} EventExplained(trace: seq<Step>, step: Step, e: Event)
    requires Bounded(Run(trace)) && Explained(trace, Run(trace)) && e in Next(Run(trace), step).events
    ensures Justified(trace + [step], e)
  {
    var s, all := Run(trace), trace + [step];
    assert all[..|trace|] == trace;
    if e in s.events {
      JustifiedLater(trace, step, e);
    } else {
      NewEvent(s, step, e);
      EventNow(trace, step, e.tid, s.runnable[e.tid]);
    }
  }

  lemma {:induction false} RunExplained(trace: seq<Step>)
    requires Clocked(trace)
    ensures Explained(trace, Run(trace))
  {
    if trace != [] {
      var n := |trace| - 1;
      var front, step := trace[..n], trace[n];
      assert trace == front + [step];
      RunExplained(front);
      RunInvariant(front);
      forall tid | tid in Run(trace).runnable
        ensures Waiting(trace, tid, Run(trace).runnable[tid])
      {
        EntryExplained(front, step, tid);
      }
      forall e | e in Run(trace).events
        ensures Justified(trace, e)
      {
        EventExplained(front, step, e);
      }
    }
  }

  /** Over every run with a positive clock that never goes back: entries are bounded by the tracked
      threads, which fit in the map; each event is longer than the noise limit, without wrapping; events
      of one thread are disjoint and in order; and each starts at the latest mark before its end. */
  lemma {:induction false} ProbeSafety(trace: seq<Step>)
    requires Clocked(trace)
    ensures Bounded(Run(trace))
    ensures forall e :: e in Run(trace).events ==> e.startNs + 5000 < e.endNs < WORD && Justified(trace, e)
    ensures forall i, j :: 0 <= i < j < |Run(trace).events| && Run(trace).events[i].tid == Run(trace).events[j].tid ==>
      Run(trace).events[i].endNs <= Run(trace).events[j].startNs
  {
    RunInvariant(trace);
    RunExplained(trace);
    ClockFits(trace);
  }

  lemma {:induction false} ClockFits(trace: seq<Step>)
    requires Clocked(trace)
    ensures Clock(trace) < WORD
  {
    if trace != [] {
      ClockFits(trace[..|trace| - 1]);
    }
  }

  // -------------------------------------------------- every wait is reported

  /** A mark is latest in every prefix that holds it. */
  lemma PrefixLatest(trace: seq<Step>, i: nat, j: nat, n: nat, tid: nat)
    requires i < j <= n <= |trace| && LatestMark(trace, i, j, tid)
    ensures LatestMark(trace[..n], i, j, tid)
  {
    var front := trace[..n];
    forall m | i <= m < j
      ensures Mark(front, m, tid) <==> Mark(trace, m, tid)
      ensures GetsCpu(front, m, tid) <==> GetsCpu(trace, m, tid)
    {
      assert front[..m] == trace[..m];
    }
  }

  /** A thread that waits since step `i` has its mark in the map. */
  lemma {:induction false} WaitRecorded(trace: seq<Step>, i: nat, tid: nat)
    requires Clocked(trace) && i < |trace| && LatestMark(trace, i, |trace|, tid)
    ensures tid in Run(trace).runnable && Run(trace).runnable[tid] == MarkInfo(trace[i])
  {
    var n := |trace| - 1;
    var front := trace[..n];
    assert trace == front + [trace[n]];
    RunInvariant(front);
    if i == n {
      assert Mark(trace, n, tid) && !GetsCpu(trace, n, tid);
      RoomLeft(Run(front), tid);
    } else {
      PrefixLatest(trace, i, n, n, tid);
      WaitRecorded(front, i, tid);
      assert !Mark(trace, n, tid) && !GetsCpu(trace, n, tid);
    }
  }

  /** A switch to a waiting thread writes its event. */
  lemma SwitchReports(s: State, step: Step, info: Info)
    requires step.Switch? && step.reserved && step.next in s.tracked && step.next in s.runnable
    requires s.runnable[step.next] == info && !(step.prev == step.next && step.prevRunning)
    requires 0 < info.ts && info.ts + NOISE_NS < step.now < WORD
    ensures Event(info.ts, step.now, step.next, info.kind) in Next(s, step).events
  {
    assert Sub64(step.now, info.ts) == step.now - info.ts;
  }

  lemma EventsKept(s: State, step: Step, e: Event)
    requires e in s.events
    ensures e in Next(s, step).events
  {
  }

  /** The converse of `ProbeSafety`: a wait that ends at step `j` after more than the noise limit is in the
      output of every later state, provided the ring buffer had room. */
  lemma {:induction false} WaitReported(trace: seq<Step>, i: nat, j: nat, tid: nat)
    requires Clocked(trace) && i < j < |trace| && LatestMark(trace, i, j, tid)
    requires GetsCpu(trace, j, tid) && !Mark(trace, j, tid)
    requires trace[j].now > trace[i].now + 5000 && trace[j].reserved
    ensures Event(trace[i].now, trace[j].now, tid, MarkInfo(trace[i]).kind) in Run(trace).events
  {
    var n := |trace| - 1;
    var front := trace[..n];
    if j < n {
      PrefixLatest(trace, i, j, n, tid);
      assert front[..j] == trace[..j];
      WaitReported(front, i, j, tid);
      EventsKept(Run(front), trace[n], Event(trace[i].now, trace[j].now, tid, MarkInfo(trace[i]).kind));
    } else {
      WaitEnds(trace, i, tid);
    }
  }

  lemma {:induction false} WaitEnds(trace: seq<Step>, i: nat, tid: nat)
    requires Clocked(trace) && i < |trace| - 1 && LatestMark(trace, i, |trace| - 1, tid)
    requires var j := |trace| - 1; GetsCpu(trace, j, tid) && !Mark(trace, j, tid)
    requires var j := |trace| - 1; trace[j].now > trace[i].now + NOISE_NS && trace[j].reserved
    ensures Event(trace[i].now, trace[|trace| - 1].now, tid, MarkInfo(trace[i]).kind) in Run(trace).events
  {
    var n := |trace| - 1;
    var front := trace[..n];
    assert front[i] == trace[i] && Clocked(front);
    PrefixLatest(trace, i, n, n, tid);
    WaitRecorded(front, i, tid);
    RunInvariant(front);
    SwitchReports(Run(front), trace[n], MarkInfo(trace[i]));
  }

  // ------------------------------------------------------------------ the maps

  /** The two maps and the ring buffer, updated in place by the handlers. */
  class Probe {
    var tracked: set<nat>
    var runnable: map<nat, Info>
    var events: seq<Event>
    ghost var trace: seq<Step>

    ghost predicate Valid()
      reads this
    {
      Clocked(trace) && State(tracked, runnable, events) == Run(trace)
    }

    constructor ()
      ensures Valid() && trace == []
    {
      tracked, runnable, events, trace := {}, map[], [], [];
    }

    /** `add_tid_to_bpf_map`: 0 when tracked already, 1 when added, -1 when the map is full. */
    method AddTid(tid: nat) returns (r: int)
      requires Valid()
      modifies this
      ensures Valid() && trace == old(trace) + [Track(tid)]
      ensures r == if tid in old(tracked) then 0 else if |old(tracked)| < 1024 then 1 else -1
      ensures tracked == if r == 1 then old(tracked) + {tid} else old(tracked)
    {
      trace := trace + [Track(tid)];
      assert trace[..|trace| - 1] == old(trace);
      if tid in tracked {
        return 0;
      }
      if |tracked| >= CAPACITY {
        return -1;
      }
      tracked := tracked + {tid};
      return 1;
    }

    /** `record_runnable`: the update always finds room. */
    method RecordRunnable(tid: nat, ts: nat, kind: Kind)
      requires Bounded(State(tracked, runnable, events)) && tid in tracked
      modifies `runnable
      ensures runnable == old(runnable)[tid := Info(ts, kind)]
    {
      RoomLeft(State(tracked, runnable, events), tid);
      if tid in runnable || |runnable| < CAPACITY {
        runnable := runnable[tid := Info(ts, kind)];
      }
    }

    /** `trace_wakeup_common`. */
    method Wakeup(tid: nat, now: nat)
      requires Valid() && 0 < now < WORD && Clock(trace) <= now
      modifies this
      ensures Valid() && trace == old(trace) + [Wake(tid, now)]
    {
      RunInvariant(trace);
      trace := trace + [Wake(tid, now)];
      assert trace[..|trace| - 1] == old(trace);
      if tid in tracked {
        RoomLeft(State(tracked, runnable, events), tid);
        RecordRunnable(tid, now, Kind.Wakeup);
      }
    }

    /** `handle_sched_switch`. */
    method SchedSwitch(prev: nat, prevState: int, next: nat, now: nat, reserved: bool)
      requires Valid() && 0 < now < WORD && Clock(trace) <= now
      modifies this
      ensures Valid() && trace == old(trace) + [Switch(prev, prevState == 0, next, now, reserved)]
    {
      RunInvariant(trace);
      trace := trace + [Switch(prev, prevState == 0, next, now, reserved)];
      assert trace[..|trace| - 1] == old(trace);
      if prev in tracked && prevState == 0 {
        RoomLeft(State(tracked, runnable, events), prev);
        RecordRunnable(prev, now, Preempt);
      }
      SwitchNext(next, now, reserved);
    }

    /** The second half of `handle_sched_switch`: the thread that gets the CPU. */
    method SwitchNext(next: nat, now: nat, reserved: bool)
      modifies `runnable, `events
      ensures State(tracked, runnable, events) == SwitchIn(old(State(tracked, runnable, events)), next, now, reserved)
    {
      if next in tracked && next in runnable && runnable[next].ts > 0 {
        var info := runnable[next];
        var dur := Sub64(now, info.ts);
        if dur > NOISE_NS {
          SendEvent(next, info, now, reserved);
        }
        runnable := runnable - {next};
      }
    }

    /** `send_event`: nothing is written when the ring buffer is full. */
    method SendEvent(tid: nat, info: Info, end: nat, reserved: bool)
      modifies `events
      ensures events == if reserved then old(events) + [Event(info.ts, end, tid, info.kind)] else old(events)
    {
      if !reserved {
        return;
      }
      events := events + [Event(info.ts, end, tid, info.kind)];
    }
  }
}
