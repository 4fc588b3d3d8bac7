/** Moving starts off the ends of their predecessors, in exact arithmetic. */
module Nudge {
  import opened Intervals

  /** A trace event: `complete` says that `ph` is "X". */
  datatype Event = Event(complete: bool, pid: int, tid: int, cat: string, ts: Option<real>, dur: Option<real>)

  datatype Filter = Filter(targetPid: Option<int>, prefixes: seq<string>)

  /** An event that the pass looks at: its track, its times and its place in the list. */
  datatype Slot = Slot(pid: int, tid: int, start: real, end: real, idx: nat)

  predicate Selected(e: Event, f: Filter) {
    && e.complete
    && (f.targetPid.Some? ==> e.pid == f.targetPid.value)
    && (f.prefixes != [] ==> exists k :: 0 <= k < |f.prefixes| && f.prefixes[k] <= e.cat)
  }

  predicate Eligible(e: Event, f: Filter) {
    Selected(e, f) && e.ts.Some? && e.dur.Some? && e.dur.value > 0.0
  }

  function End(e: Event): real
    requires e.ts.Some? && e.dur.Some?
  {
    e.ts.value + e.dur.value
  }

  function SlotOf(e: Event, f: Filter, idx: nat): Slot
    requires Eligible(e, f)
  {
    Slot(e.pid, e.tid, e.ts.value, End(e), idx)
  }

  /** The order of the sort: track, start, end, place. */
  predicate Less(s: Slot, t: Slot) {
    if s.pid != t.pid then s.pid < t.pid
    else if s.tid != t.tid then s.tid < t.tid
    else if s.start != t.start then s.start < t.start
    else if s.end != t.end then s.end < t.end
    else s.idx < t.idx
  }

  predicate SameTrack(s: Slot, t: Slot) {
    s.pid == t.pid && s.tid == t.tid
  }

  // ------------------------------------------------- what the pass should do

  ghost predicate In(es: seq<Event>, f: Filter, i: nat) {
    i < |es| && Eligible(es[i], f)
  }

  ghost predicate Before(es: seq<Event>, f: Filter, i: nat, j: nat) {
    In(es, f, i) && In(es, f, j) && SameTrack(SlotOf(es[i], f, i), SlotOf(es[j], f, j)) &&
    Less(SlotOf(es[i], f, i), SlotOf(es[j], f, j))
  }

  /** Event `i` comes right before event `j` on its track. */
  ghost predicate Precedes(es: seq<Event>, f: Filter, i: nat, j: nat) {
    Before(es, f, i, j) && forall k :: !(Before(es, f, i, k) && Before(es, f, k, j))
  }

  predicate NeedsNudge(start: real, prevEnd: real, snap: real) {
    start == prevEnd || (snap > 0.0 && -snap <= start - prevEnd <= snap)
  }

  /** The event moved to `eps` behind the end of its predecessor, if that is close and leaves some duration. */
  function Moved(e: Event, prevEnd: real, eps: real, snap: real): Event
    requires e.ts.Some? && e.dur.Some?
  {
    var delta := prevEnd + eps - e.ts.value;
    if NeedsNudge(e.ts.value, prevEnd, snap) && delta > 0.0 && e.dur.value > delta then
      e.(ts := Some(e.ts.value + delta), dur := Some(e.dur.value - delta))
    else e
  }

  ghost function Predecessor(es: seq<Event>, f: Filter, j: nat): Option<nat> {
    if i :| Precedes(es, f, i, j) then Some(i) else None
  }

  lemma OnePredecessor(es: seq<Event>, f: Filter, i: nat, j: nat)
    requires Precedes(es, f, i, j)
    ensures Predecessor(es, f, j) == Some(i)
  {
    var k := Predecessor(es, f, j).value;
    assert !(Before(es, f, i, k) && Before(es, f, k, j));
    assert !(Before(es, f, k, i) && Before(es, f, i, j));
  }

  ghost function Nudged(es: seq<Event>, f: Filter, eps: real, snap: real, j: nat): Event
    requires j < |es|
  {
    match Predecessor(es, f, j)
    case None => es[j]
    case Some(i) => Moved(es[j], End(es[i]), eps, snap)
  }

  ghost function Pass(es: seq<Event>, f: Filter, eps: real, snap: real): seq<Event> {
    seq(|es|, j requires 0 <= j < |es| => Nudged(es, f, eps, snap, j))
  }

  // ------------------------------------------------------- what the pass keeps

  /** Every event keeps its end, its track and a positive duration; one that changes starts exactly `eps`
      behind the end of its predecessor; those that the filter leaves out are untouched. */
  lemma PassKeeps(es: seq<Event>, f: Filter, eps: real, snap: real, j: nat)
    requires j < |es|
    ensures var e, r := es[j], Pass(es, f, eps, snap)[j];
      && Eligible(r, f) == Eligible(e, f) && r == e.(ts := r.ts, dur := r.dur)
      && (!Eligible(e, f) ==> r == e)
      && (Eligible(e, f) ==> End(r) == End(e) && 0.0 < r.dur.value <= e.dur.value)
      && (r != e ==> exists i: nat :: Precedes(es, f, i, j) && r.ts == Some(End(es[i]) + eps))
  {
  }

  /** The events that the pass looks at: complete, of the process and with a category prefix that the filter asks for,
      with a start and a positive duration. */
  lemma EligibleMeans(e: Event, f: Filter)
    ensures Eligible(e, f) <==>
      && e.complete && e.ts.Some? && e.dur.Some? && e.dur.value > 0.0
      && (f.targetPid == None || f.targetPid == Some(e.pid))
      && (f.prefixes == [] || exists p :: p in f.prefixes && |p| <= |e.cat| && e.cat[..|p|] == p)
  {
    if Selected(e, f) && f.prefixes != [] {
      var k :| 0 <= k < |f.prefixes| && f.prefixes[k] <= e.cat;
      assert f.prefixes[k] in f.prefixes;
    }
    if f.prefixes != [] {
      if p :| p in f.prefixes && |p| <= |e.cat| && e.cat[..|p|] == p {
        var k :| 0 <= k < |f.prefixes| && f.prefixes[k] == p;
        assert f.prefixes[k] <= e.cat;
      }
    }
  }

  /** Events are taken by start, then end, then place, on each track of its own. */
  lemma BeforeMeans(es: seq<Event>, f: Filter, i: nat, j: nat)
    requires In(es, f, i) && In(es, f, j)
    ensures var a, b := es[i], es[j];
      Before(es, f, i, j) <==>
        && a.pid == b.pid && a.tid == b.tid
        && (a.ts.value < b.ts.value || (a.ts == b.ts && (End(a) < End(b) || (End(a) == End(b) && i < j))))
  {
  }

  /** Which events are moved: those with a predecessor on their track whose end the start equals, or is within the
      tolerance of, when it lies less than `eps` behind that end and the event is longer than the move. */
  lemma MovedWhen(es: seq<Event>, f: Filter, eps: real, snap: real, j: nat)
    requires j < |es|
    ensures Pass(es, f, eps, snap)[j] != es[j] <==>
      exists i: nat :: Precedes(es, f, i, j) && MoveNeeded(End(es[i]), es[j].ts.value, es[j].dur.value, eps, snap)
  {
    if i: nat :| Precedes(es, f, i, j) {
      OnePredecessor(es, f, i, j);
      assert forall k: nat :: Precedes(es, f, k, j) ==> Predecessor(es, f, j) == Some(k) by {
        forall k: nat | Precedes(es, f, k, j)
          ensures Predecessor(es, f, j) == Some(k)
        {
          OnePredecessor(es, f, k, j);
        }
      }
    }
  }

  ghost predicate MoveNeeded(prevEnd: real, start: real, dur: real, eps: real, snap: real) {
    && (start == prevEnd || (prevEnd - snap <= start <= prevEnd + snap && snap > 0.0))
    && start < prevEnd + eps && prevEnd + eps - start < dur
  }

  /** A start still touches the end of its predecessor only where the event is too short to be moved. */
  lemma StillTouching(es: seq<Event>, f: Filter, eps: real, snap: real, i: nat, j: nat)
    requires eps > 0.0 && Precedes(es, f, i, j)
    ensures var rs := Pass(es, f, eps, snap);
      In(rs, f, i) && In(rs, f, j) &&
      (rs[j].ts.value == End(rs[i]) <==> es[j].ts.value == End(es[i]) && es[j].dur.value <= eps)
  {
    OnePredecessor(es, f, i, j);
    PassKeeps(es, f, eps, snap, i);
    PassKeeps(es, f, eps, snap, j);
  }

  ghost predicate OnTrack(es: seq<Event>, f: Filter, pid: int, tid: int, i: nat) {
    In(es, f, i) && es[i].pid == pid && es[i].tid == tid
  }

  /** No two slots of the track overlap. */
  ghost predicate Serial(es: seq<Event>, f: Filter, pid: int, tid: int) {
    forall i: nat, j: nat :: OnTrack(es, f, pid, tid, i) && OnTrack(es, f, pid, tid, j) && Before(es, f, i, j) ==>
      End(es[i]) <= es[j].ts.value
  }

  /** On a serial track a moved start stays between its old place and its end, so the order is kept. */
  lemma SerialOrder(es: seq<Event>, f: Filter, eps: real, snap: real, pid: int, tid: int, i: nat, j: nat)
    requires Serial(es, f, pid, tid) && OnTrack(es, f, pid, tid, i) && OnTrack(es, f, pid, tid, j)
    ensures Before(Pass(es, f, eps, snap), f, i, j) <==> Before(es, f, i, j)
    ensures Before(es, f, i, j) ==> End(Pass(es, f, eps, snap)[i]) <= Pass(es, f, eps, snap)[j].ts.value
  {
    PassKeeps(es, f, eps, snap, i);
    PassKeeps(es, f, eps, snap, j);
    assert i == j || Before(es, f, i, j) || Before(es, f, j, i);
  }

  /** The pass keeps the order of a serial track, and the track stays serial. */
  lemma PassKeepsSerial(es: seq<Event>, f: Filter, eps: real, snap: real, pid: int, tid: int)
    requires Serial(es, f, pid, tid)
    ensures Serial(Pass(es, f, eps, snap), f, pid, tid)
    ensures forall i: nat, j: nat :: OnTrack(es, f, pid, tid, i) && OnTrack(es, f, pid, tid, j) ==>
      (Before(Pass(es, f, eps, snap), f, i, j) <==> Before(es, f, i, j))
  {
    var rs := Pass(es, f, eps, snap);
    forall i: nat, j: nat | OnTrack(es, f, pid, tid, i) && OnTrack(es, f, pid, tid, j)
      ensures Before(rs, f, i, j) <==> Before(es, f, i, j)
      ensures Before(es, f, i, j) ==> End(rs[i]) <= rs[j].ts.value
    {
      SerialOrder(es, f, eps, snap, pid, tid, i, j);
    }
    forall i: nat | OnTrack(rs, f, pid, tid, i)
      ensures OnTrack(es, f, pid, tid, i)
    {
      PassKeeps(es, f, eps, snap, i);
    }
  }

  lemma SamePredecessor(es: seq<Event>, f: Filter, eps: real, snap: real, i: nat, j: nat)
    requires In(es, f, j) && Serial(es, f, es[j].pid, es[j].tid)
    ensures Precedes(Pass(es, f, eps, snap), f, i, j) <==> Precedes(es, f, i, j)
  {
    var rs := Pass(es, f, eps, snap);
    forall k, l
      ensures k == j || Before(es, f, k, j) || Before(rs, f, k, j) ==>
        (l == j || Before(es, f, l, j) || Before(rs, f, l, j)) ==> (Before(rs, f, k, l) <==> Before(es, f, k, l))
    {
      if (k == j || Before(es, f, k, j) || Before(rs, f, k, j)) &&
        (l == j || Before(es, f, l, j) || Before(rs, f, l, j)) {
        SameIn(es, f, eps, snap, k);
        SameIn(es, f, eps, snap, l);
        SameIn(es, f, eps, snap, j);
        SerialOrder(es, f, eps, snap, es[j].pid, es[j].tid, k, l);
      }
    }
  }

  lemma SameIn(es: seq<Event>, f: Filter, eps: real, snap: real, i: nat)
    ensures In(Pass(es, f, eps, snap), f, i) <==> In(es, f, i)
    ensures i < |es| ==> Pass(es, f, eps, snap)[i].pid == es[i].pid && Pass(es, f, eps, snap)[i].tid == es[i].tid
  {
    if i < |es| {
      PassKeeps(es, f, eps, snap, i);
    }
  }

  /** A second pass changes nothing on a serial track. */
  lemma SecondPassIdle(es: seq<Event>, f: Filter, eps: real, snap: real, j: nat)
    requires In(es, f, j) && Serial(es, f, es[j].pid, es[j].tid)
    ensures var rs := Pass(es, f, eps, snap); Pass(rs, f, eps, snap)[j] == rs[j]
  {
    var rs := Pass(es, f, eps, snap);
    match Predecessor(rs, f, j)
    case None =>
    case Some(i) =>
      SamePredecessor(es, f, eps, snap, i, j);
      OnePredecessor(es, f, i, j);
      PassKeeps(es, f, eps, snap, i);
  }

  // ---------------------------------------------------------------- the pass

  ghost predicate Ordered(ss: seq<Slot>) {
    forall i, j :: 0 <= i < j < |ss| ==> Less(ss[i], ss[j])
  }

  function Insert(s: Slot, ss: seq<Slot>): (r: seq<Slot>)
    ensures multiset(r) == multiset(ss) + multiset{s}
  {
    if ss == [] then [s]
    else if Less(ss[0], s) then
      assert ss == [ss[0]] + ss[1..];
      [ss[0]] + Insert(s, ss[1..])
    else [s] + ss
  }

  lemma {:induction false} InsertOrdered(s: Slot, ss: seq<Slot>)
    requires Ordered(ss) && forall k :: 0 <= k < |ss| ==> ss[k].idx != s.idx
    ensures Ordered(Insert(s, ss))
  {
    if ss != [] && Less(ss[0], s) {
      var rest := Insert(s, ss[1..]);
      InsertOrdered(s, ss[1..]);
      forall j | 0 <= j < |rest|
        ensures Less(ss[0], rest[j])
      {
        assert rest[j] in multiset(rest);
        assert rest[j] == s || rest[j] in ss[1..];
      }
    }
  }

  /** The slots of the first `n` events, sorted. */
  ghost predicate SlotsOf(es: seq<Event>, f: Filter, n: nat, ss: seq<Slot>)
    requires n <= |es|
  {
    && Ordered(ss)
    && (forall s :: s in ss ==> s.idx < n && Eligible(es[s.idx], f) && s == SlotOf(es[s.idx], f, s.idx))
    && (forall i :: 0 <= i < n && Eligible(es[i], f) ==> SlotOf(es[i], f, i) in ss)
  }

  lemma {:induction false} InsertMembers(s: Slot, ss: seq<Slot>)
    ensures forall t :: t in Insert(s, ss) <==> t in ss || t == s
  {
    forall t
      ensures t in Insert(s, ss) <==> t in ss || t == s
    {
      assert t in Insert(s, ss) <==> t in multiset(Insert(s, ss));
    }
  }

  lemma {:induction false} SlotsMore(es: seq<Event>, f: Filter, n: nat, ss: seq<Slot>)
    requires n < |es| && SlotsOf(es, f, n, ss)
    ensures SlotsOf(es, f, n + 1, if Eligible(es[n], f) then Insert(SlotOf(es[n], f, n), ss) else ss)
  {
    if Eligible(es[n], f) {
      var s := SlotOf(es[n], f, n);
      assert forall k :: 0 <= k < |ss| ==> ss[k] in ss;
      InsertOrdered(s, ss);
      InsertMembers(s, ss);
      SlotsPlus(es, f, n, ss, Insert(s, ss));
    }
  }

  lemma SlotsPlus(es: seq<Event>, f: Filter, n: nat, ss: seq<Slot>, rs: seq<Slot>)
    requires n < |es| && SlotsOf(es, f, n, ss) && Eligible(es[n], f) && Ordered(rs)
    requires forall t :: t in rs <==> t in ss || t == SlotOf(es[n], f, n)
    ensures SlotsOf(es, f, n + 1, rs)
  {
  }

  /** The end of the last slot on the track. */
  function LastEnd(ss: seq<Slot>, track: (int, int)): Option<real> {
    if ss == [] then None
    else if (ss[|ss| - 1].pid, ss[|ss| - 1].tid) == track then Some(ss[|ss| - 1].end)
    else LastEnd(ss[..|ss| - 1], track)
  }

  lemma LastOnTrack(ss: seq<Slot>, n: nat, track: (int, int)) returns (m: nat)
    requires n <= |ss| && LastEnd(ss[..n], track).Some?
    ensures m < n && (ss[m].pid, ss[m].tid) == track && LastEnd(ss[..n], track) == Some(ss[m].end)
    ensures forall k :: m < k < n ==> (ss[k].pid, ss[k].tid) != track
  {
    m := n - 1;
    assert ss[..n][..m] == ss[..m];
    if (ss[m].pid, ss[m].tid) != track {
      m := LastOnTrack(ss, m, track);
    }
  }

  lemma {:induction false} NoneOnTrack(ss: seq<Slot>, n: nat, track: (int, int))
    requires n <= |ss| && LastEnd(ss[..n], track).None?
    ensures forall k :: 0 <= k < n ==> (ss[k].pid, ss[k].tid) != track
  {
    if n > 0 {
      assert ss[..n][..n - 1] == ss[..n - 1];
      NoneOnTrack(ss, n - 1, track);
    }
  }

  /** The slot of an eligible event, and the position it has. */
  lemma SlotAt(es: seq<Event>, f: Filter, ss: seq<Slot>, i: nat) returns (k: nat)
    requires SlotsOf(es, f, |es|, ss) && In(es, f, i)
    ensures k < |ss| && ss[k] == SlotOf(es[i], f, i)
  {
    k :| 0 <= k < |ss| && ss[k] == SlotOf(es[i], f, i);
  }

  lemma BeforeIsEarlier(es: seq<Event>, f: Filter, ss: seq<Slot>, i: nat, k: nat) returns (m: nat)
    requires SlotsOf(es, f, |es|, ss) && k < |ss| && Before(es, f, i, ss[k].idx)
    ensures m < k && ss[m] == SlotOf(es[i], f, i) && SameTrack(ss[m], ss[k])
  {
    assert ss[k] in ss;
    m := SlotAt(es, f, ss, i);
  }

  lemma EarlierIsBefore(es: seq<Event>, f: Filter, ss: seq<Slot>, m: nat, k: nat)
    requires SlotsOf(es, f, |es|, ss) && m < k < |ss| && SameTrack(ss[m], ss[k])
    ensures Before(es, f, ss[m].idx, ss[k].idx)
  {
    assert ss[m] in ss && ss[k] in ss;
  }

  /** The last end seen on the track of slot `k` is the end of the predecessor. */
  lemma PrevEnd(es: seq<Event>, f: Filter, ss: seq<Slot>, k: nat)
    requires SlotsOf(es, f, |es|, ss) && k < |ss|
    ensures var p := Predecessor(es, f, ss[k].idx);
      LastEnd(ss[..k], (ss[k].pid, ss[k].tid)) == if p.Some? then Some(End(es[p.value])) else None
  {
    var track, j := (ss[k].pid, ss[k].tid), ss[k].idx;
    if LastEnd(ss[..k], track).Some? {
      var m := LastOnTrack(ss, k, track);
      EarlierIsBefore(es, f, ss, m, k);
      forall l
        ensures !(Before(es, f, ss[m].idx, l) && Before(es, f, l, j))
      {
        if Before(es, f, ss[m].idx, l) && Before(es, f, l, j) {
          NothingBetween(es, f, ss, m, k, l);
        }
      }
      OnePredecessor(es, f, ss[m].idx, j);
      assert ss[m] in ss;
    } else {
      NoneOnTrack(ss, k, track);
      forall i
        ensures !Precedes(es, f, i, j)
      {
        if Before(es, f, i, j) {
          var m := BeforeIsEarlier(es, f, ss, i, k);
        }
      }
    }
  }

  lemma NothingBetween(es: seq<Event>, f: Filter, ss: seq<Slot>, m: nat, k: nat, l: nat)
    requires SlotsOf(es, f, |es|, ss) && m < k < |ss| && SameTrack(ss[m], ss[k])
    requires forall n :: m < n < k ==> !SameTrack(ss[n], ss[k])
    requires Before(es, f, l, ss[k].idx)
    ensures !Before(es, f, ss[m].idx, l)
  {
    var n := BeforeIsEarlier(es, f, ss, l, k);
    assert ss[m] in ss && ss[n] in ss;
    assert n < m ==> Less(ss[n], ss[m]);
  }

  /** The events after the first `k` slots have been handled. */
  ghost predicate Handled(es: seq<Event>, f: Filter, eps: real, snap: real, ss: seq<Slot>, k: nat, now: seq<Event>)
    requires k <= |ss|
  {
    && |now| == |es|
    && (forall i :: 0 <= i < |es| ==> now[i] == es[i] || now[i] == Nudged(es, f, eps, snap, i))
    && (forall m :: 0 <= m < k && ss[m].idx < |es| ==> now[ss[m].idx] == Nudged(es, f, eps, snap, ss[m].idx))
    && (forall m :: k <= m < |ss| && ss[m].idx < |es| ==> now[ss[m].idx] == es[ss[m].idx])
  }

  lemma HandledMore(es: seq<Event>, f: Filter, eps: real, snap: real, ss: seq<Slot>, k: nat, now: seq<Event>)
    requires k < |ss| && SlotsOf(es, f, |es|, ss) && Handled(es, f, eps, snap, ss, k, now) && ss[k].idx < |es|
    ensures Handled(es, f, eps, snap, ss, k + 1, now[ss[k].idx := Nudged(es, f, eps, snap, ss[k].idx)])
  {
    forall m | 0 <= m < |ss| && m != k
      ensures ss[m].idx != ss[k].idx
    {
      assert ss[m] in ss && ss[k] in ss;
      assert if m < k then Less(ss[m], ss[k]) else Less(ss[k], ss[m]);
    }
  }

  lemma AllHandled(es: seq<Event>, f: Filter, eps: real, snap: real, ss: seq<Slot>, now: seq<Event>)
    requires SlotsOf(es, f, |es|, ss) && Handled(es, f, eps, snap, ss, |ss|, now)
    ensures now == Pass(es, f, eps, snap)
  {
    forall i | 0 <= i < |es|
      ensures now[i] == Nudged(es, f, eps, snap, i)
    {
      if In(es, f, i) {
        var k := SlotAt(es, f, ss, i);
      } else {
        PassKeeps(es, f, eps, snap, i);
      }
    }
  }

  ghost function Changes(es: seq<Event>, rs: seq<Event>): set<nat>
    requires |es| == |rs|
  {
    set i | 0 <= i < |es| && es[i] != rs[i]
  }

  method CollectSlots(events: array<Event>, f: Filter) returns (slots: seq<Slot>)
    ensures SlotsOf(events[..], f, events.Length, slots)
  {
    slots := [];
    for idx := 0 to events.Length
      invariant SlotsOf(events[..], f, idx, slots)
    {
      SlotsMore(events[..], f, idx, slots);
      if Eligible(events[idx], f) {
        slots := Insert(SlotOf(events[idx], f, idx), slots);
      }
    }
  }

  /** The next slot moves behind the last end seen on its track, if there is one. */
  lemma HandledNext(es: seq<Event>, f: Filter, eps: real, snap: real, ss: seq<Slot>, k: nat, now: seq<Event>)
    requires k < |ss| && SlotsOf(es, f, |es|, ss) && Handled(es, f, eps, snap, ss, k, now)
    ensures var i, prev := ss[k].idx, LastEnd(ss[..k], (ss[k].pid, ss[k].tid));
      && i < |es| && now[i] == es[i] && es[i].ts == Some(ss[k].start) && es[i].dur == Some(ss[k].end - ss[k].start)
      && (prev.None? ==> Handled(es, f, eps, snap, ss, k + 1, now))
      && (prev.Some? ==>
            var e := Moved(es[i], prev.value, eps, snap);
            && Handled(es, f, eps, snap, ss, k + 1, now[i := e])
            && |Changes(es, now[i := e])| == |Changes(es, now)| + if e == es[i] then 0 else 1)
  {
    var i := ss[k].idx;
    assert ss[k] in ss;
    PrevEnd(es, f, ss, k);
    HandledMore(es, f, eps, snap, ss, k, now);
    OneMoreChange(es, now, i, Nudged(es, f, eps, snap, i));
    assert now[i := now[i]] == now;
  }

  /** One slot with a predecessor on its track: its event after the pass, in place. */
  method NudgeSlot(events: array<Event>, s: Slot, prevEnd: real, eps: real, snap: real)
    returns (end: real, changed: bool)
    requires s.idx < events.Length && events[s.idx].ts == Some(s.start) && events[s.idx].dur == Some(s.end - s.start)
    modifies events
    ensures events[..] == old(events[..])[s.idx := Moved(old(events[s.idx]), prevEnd, eps, snap)]
    ensures changed <==> events[s.idx] != old(events[s.idx])
    ensures end == s.end
  {
    end, changed := s.end, false;
    if NeedsNudge(s.start, prevEnd, snap) {
      var e := events[s.idx];
      var delta := prevEnd + eps - s.start;
      if delta > 0.0 && e.dur.value > delta {
        events[s.idx] := e.(ts := Some(s.start + delta), dur := Some(e.dur.value - delta));
        changed := true;
        end := events[s.idx].ts.value + events[s.idx].dur.value;
      }
    }
  }

  /** `nudge_equal_boundaries`. */
  method NudgeEqualBoundaries(events: array<Event>, f: Filter, eps: real, snap: real) returns (nudged: nat)
    modifies events
    ensures events[..] == Pass(old(events[..]), f, eps, snap)
    ensures nudged == |Changes(old(events[..]), events[..])|
  {
    ghost var es := events[..];
    var slots := CollectSlots(events, f);
    var lastEnd: map<(int, int), real> := map[];
    nudged := 0;
    for k := 0 to |slots|
      invariant Handled(es, f, eps, snap, slots, k, events[..])
      invariant forall track :: Seen(lastEnd, track) == LastEnd(slots[..k], track)
      invariant nudged == |Changes(es, events[..])|
    {
      var s := slots[k];
      var track := (s.pid, s.tid);
      HandledNext(es, f, eps, snap, slots, k, events[..]);
      assert events[s.idx] == events[..][s.idx] == es[s.idx];
      assert Seen(lastEnd, track) == LastEnd(slots[..k], track);
      var end := s.end;
      if track in lastEnd {
        var changed;
        end, changed := NudgeSlot(events, s, lastEnd[track], eps, snap);
        nudged := nudged + if changed then 1 else 0;
      }
      LastEndMore(slots, k, lastEnd, lastEnd[track := end]);
      lastEnd := lastEnd[track := end];
    }
    assert slots[..|slots|] == slots;
    AllHandled(es, f, eps, snap, slots, events[..]);
  }

  function Seen(lastEnd: map<(int, int), real>, track: (int, int)): Option<real> {
    if track in lastEnd then Some(lastEnd[track]) else None
  }

  lemma LastEndMore(ss: seq<Slot>, k: nat, lastEnd: map<(int, int), real>, after: map<(int, int), real>)
    requires k < |ss| && after == lastEnd[(ss[k].pid, ss[k].tid) := ss[k].end]
    requires forall track :: Seen(lastEnd, track) == LastEnd(ss[..k], track)
    ensures forall track :: Seen(after, track) == LastEnd(ss[..k + 1], track)
  {
    assert ss[..k + 1][..k] == ss[..k];
  }

  lemma OneMoreChange(es: seq<Event>, was: seq<Event>, i: nat, e: Event)
    requires |was| == |es| && i < |es| && was[i] == es[i]
    ensures |Changes(es, was[i := e])| == |Changes(es, was)| + if e == es[i] then 0 else 1
  {
    assert Changes(es, was[i := e]) == Changes(es, was) + if e == es[i] then {} else {i};
  }
}
