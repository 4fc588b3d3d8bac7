/** Operating-system delay of a request: run-queue waits of its workers inside its execution windows. */
module OsDelay {
  import opened Sets
  import opened Spans
  import opened Sorting
  import opened Intervals
  import opened OsWaits

  /** An execute-model span of one worker, on the clock of the run-queue waits. A negative dp rank reads as
      missing. */
  datatype Exec = Exec(tid: int, span: Span, dp: int, reqs: seq<nat>)

  datatype Group = DpGroup(dp: int) | WorkerGroup(tid: int)

  function GroupOf(e: Exec): Group {
    if e.dp >= 0 then DpGroup(e.dp) else WorkerGroup(e.tid)
  }

  predicate KeptExec(e: Exec) {
    0 < e.span.lo < e.span.hi && e.reqs != []
  }

  /** The dp rank a group carries, if it is a dp group. */
  function DpOf(g: Group): Option<int> {
    if g.DpGroup? then Some(g.dp) else None
  }

  /** The instants at which the request executes in group `g`. */
  ghost predicate Executing(execs: seq<Exec>, rid: nat, g: Group, t: int) {
    exists e :: e in execs && KeptExec(e) && rid in e.reqs && GroupOf(e) == g && Holds(e.span, t)
  }

  function Workers(execs: seq<Exec>, g: Group): set<int> {
    set e | e in execs && KeptExec(e) && GroupOf(e) == g :: e.tid
  }

  /** At `t` the request executes in group `g` and the group's worker `w.tid` waits for a CPU. */
  ghost predicate DelayedBy(execs: seq<Exec>, waits: seq<Wait>, rid: nat, g: Group, w: Wait, t: int) {
    Executing(execs, rid, g, t) && w in waits && KeptWait(w) && w.tid in Workers(execs, g) && Holds(w.span, t)
  }

  ghost predicate Delayed(execs: seq<Exec>, waits: seq<Wait>, rid: nat, t: int) {
    exists g, w :: DelayedBy(execs, waits, rid, g, w, t)
  }

  /** The delayed instants. */
  ghost function DelayTime(execs: seq<Exec>, waits: seq<Wait>, rid: nat): set<int> {
    set w, t | w in waits && w.span.lo <= t < w.span.hi && Delayed(execs, waits, rid, t) :: t
  }

  /** At `t` the span serves the request. */
  ghost predicate Serves(e: Exec, rid: nat, t: int) {
    0 < e.span.lo <= t < e.span.hi && rid in e.reqs
  }

  /** Span `f` belongs to the group of span `e`: the same dp rank, or without ranks the same thread. */
  ghost predicate Together(e: Exec, f: Exec) {
    && 0 < f.span.lo < f.span.hi && f.reqs != []
    && if e.dp < 0 then f.dp < 0 && f.tid == e.tid else f.dp == e.dp
  }

  /** At `t` the thread waits for a CPU, by a wait with no field missing. */
  ghost predicate WaitsFor(w: Wait, tid: int, t: int) {
    w.tid == tid != 0 && w.span.lo != 0 && w.span.hi != 0 && w.span.lo <= t < w.span.hi
  }

  ghost predicate HeldUpBy(e: Exec, f: Exec, w: Wait, rid: nat, t: int) {
    Serves(e, rid, t) && Together(e, f) && WaitsFor(w, f.tid, t)
  }

  /** A request is delayed when one of its spans runs and a thread of that span's group waits. */
  lemma DelayMeans(execs: seq<Exec>, waits: seq<Wait>, rid: nat, t: int)
    ensures t in DelayTime(execs, waits, rid) <==>
      exists e, f, w :: e in execs && f in execs && w in waits && HeldUpBy(e, f, w, rid, t)
  {
    DelayTimeIs(execs, waits, rid, t);
    if g, w :| DelayedBy(execs, waits, rid, g, w, t) {
      var e :| e in execs && KeptExec(e) && rid in e.reqs && GroupOf(e) == g && Holds(e.span, t);
      var f :| f in execs && KeptExec(f) && GroupOf(f) == g && f.tid == w.tid;
      assert HeldUpBy(e, f, w, rid, t);
    }
    if e, f, w :| e in execs && f in execs && w in waits && HeldUpBy(e, f, w, rid, t) {
      assert Executing(execs, rid, GroupOf(e), t);
      assert DelayedBy(execs, waits, rid, GroupOf(e), w, t);
    }
  }

  /** A block lists a dp rank exactly for the groups of that rank. */
  lemma DpMeans(e: Exec, dp: int)
    ensures DpOf(GroupOf(e)) == Some(dp) <==> e.dp == dp && dp >= 0
  {
  }

  // -------------------------------------------------------- reading the spans

  /** `to_ns` of a stamp, with 0 for a missing one. */
  function ReadStamp(v: int): int {
    if ToNs(v).Some? then ToNs(v).value else 0
  }

  function ReadExec(e: Exec): Exec {
    e.(span := Span(ReadStamp(e.span.lo), ReadStamp(e.span.hi)))
  }

  /** The spans as the attribution reads them. */
  function Read(execs: seq<Exec>): (r: seq<Exec>)
    ensures |r| == |execs| && forall i :: 0 <= i < |r| ==> r[i] == ReadExec(execs[i])
  {
    seq(|execs|, i requires 0 <= i < |execs| => ReadExec(execs[i]))
  }

  // ------------------------------------------------------------ one request

  /** The stamps are those that `to_ns` reads, 0 for a missing one, and nothing else changes. */
  lemma ReadMeans(execs: seq<Exec>, i: nat)
    requires i < |execs|
    ensures var e, r := execs[i], Read(execs)[i];
      && r == e.(span := r.span)
      && r.span.lo == (if e.span.lo <= 0 then 0 else ToNs(e.span.lo).value)
      && r.span.hi == (if e.span.hi <= 0 then 0 else ToNs(e.span.hi).value)
  {
  }

  function WindowsIn(execs: seq<Exec>, rid: nat, g: Group): seq<Span> {
    if execs == [] then []
    else
      var e, rest := execs[|execs| - 1], WindowsIn(execs[..|execs| - 1], rid, g);
      if KeptExec(e) && rid in e.reqs && GroupOf(e) == g then rest + [e.span] else rest
  }

  lemma {:induction false} WindowsMeaning(execs: seq<Exec>, rid: nat, g: Group, t: int)
    ensures t in Covered(WindowsIn(execs, rid, g)) <==> Executing(execs, rid, g, t)
  {
    if execs == [] {
      assert Covered(WindowsIn(execs, rid, g)) == {};
    } else {
      var n := |execs| - 1;
      WindowsMeaning(execs[..n], rid, g, t);
      assert forall e :: e in execs <==> e in execs[..n] || e == execs[n];
      CoveredSplit(WindowsIn(execs[..n], rid, g), [execs[n].span]);
      CoveredOne(execs[n].span);
    }
  }

  /** The waits of one thread, in start order. */
  function WaitsOf(waits: seq<Wait>, tid: int): (r: seq<Wait>)
    ensures forall w :: w in r <==> w in waits && KeptWait(w) && w.tid == tid
  {
    if waits == [] then []
    else
      var n := |waits| - 1;
      assert forall w :: w in waits <==> w in waits[..n] || w == waits[n];
      WaitsOf(waits[..n], tid) + if KeptWait(waits[n]) && waits[n].tid == tid then [waits[n]] else []
  }

  /** The raw interval `r` comes from wait `w`. */
  ghost predicate From(r: Raw, w: Wait, dp: Option<int>) {
    r.tid == w.tid && r.reason == w.reason && r.dp == dp
  }

  /** Some kept wait of a thread in `tids` gives `r` its labels and holds `t`. */
  ghost predicate Sourced(r: Raw, t: int, tids: set<int>, waits: seq<Wait>, dp: Option<int>) {
    exists w :: w in waits && KeptWait(w) && w.tid in tids && Holds(w.span, t) && From(r, w, dp)
  }

  /** Some raw interval with the labels of `w` holds `t`. */
  ghost predicate Shown(raws: seq<Raw>, w: Wait, t: int, dp: Option<int>) {
    exists r :: r in raws && Holds(r.span, t) && From(r, w, dp)
  }

  /** `raws` are the overlaps of the instants `when` with the waits of the threads `tids`. */
  ghost predicate RawsAre(raws: seq<Raw>, when: set<int>, tids: set<int>, waits: seq<Wait>, dp: Option<int>) {
    && (forall r, t :: r in raws && Holds(r.span, t) ==> t in when && Sourced(r, t, tids, waits, dp))
    && (forall w, t :: t in when && w in waits && KeptWait(w) && w.tid in tids && Holds(w.span, t) ==>
          Shown(raws, w, t, dp))
  }

  lemma {:induction false} ThreadRaws(window: Span, waits: seq<Wait>, mine: seq<Wait>, tid: int, dp: Option<int>)
    requires forall w :: w in mine <==> w in waits && KeptWait(w) && w.tid == tid
    ensures RawsAre(Overlaps(window, mine, dp), Instants(window.lo, window.hi), {tid}, waits, dp)
  {
    var raws := Overlaps(window, mine, dp);
    forall r, t | r in raws && Holds(r.span, t)
      ensures t in Instants(window.lo, window.hi) && Sourced(r, t, {tid}, waits, dp)
    {
      OverlapsMeaning(window, mine, dp, r);
      var w :| w in mine && r in Overlap(window, w, dp);
      assert From(r, w, dp);
    }
    forall w, t | t in Instants(window.lo, window.hi) && w in waits && KeptWait(w) && w.tid in {tid} && Holds(w.span, t)
      ensures Shown(raws, w, t, dp)
    {
      var r := Overlap(window, w, dp)[0];
      OverlapsMeaning(window, mine, dp, r);
      assert r in raws && Holds(r.span, t) && From(r, w, dp);
    }
  }

  lemma ShownMore(a: seq<Raw>, b: seq<Raw>, w: Wait, t: int, dp: Option<int>)
    requires Shown(a, w, t, dp) || Shown(b, w, t, dp)
    ensures Shown(a + b, w, t, dp)
  {
    if Shown(a, w, t, dp) {
      var r :| r in a && Holds(r.span, t) && From(r, w, dp);
      assert r in a + b;
    } else {
      var r :| r in b && Holds(r.span, t) && From(r, w, dp);
      assert r in a + b;
    }
  }

  lemma SourcedMore(r: Raw, t: int, small: set<int>, tids: set<int>, waits: seq<Wait>, dp: Option<int>)
    requires Sourced(r, t, small, waits, dp) && small <= tids
    ensures Sourced(r, t, tids, waits, dp)
  {
  }

  lemma MoreThreads(a: seq<Raw>, b: seq<Raw>, when: set<int>, s: set<int>, tid: int, waits: seq<Wait>,
                    dp: Option<int>)
    requires RawsAre(a, when, s, waits, dp) && RawsAre(b, when, {tid}, waits, dp)
    ensures RawsAre(a + b, when, s + {tid}, waits, dp)
  {
    var all := s + {tid};
    forall r, t | r in a + b && Holds(r.span, t)
      ensures t in when && Sourced(r, t, all, waits, dp)
    {
      if r in a {
        SourcedMore(r, t, s, all, waits, dp);
      } else {
        SourcedMore(r, t, {tid}, all, waits, dp);
      }
    }
    forall w, t | t in when && w in waits && KeptWait(w) && w.tid in all && Holds(w.span, t)
      ensures Shown(a + b, w, t, dp)
    {
      assert w.tid in s || w.tid in {tid};
      ShownMore(a, b, w, t, dp);
    }
  }

  lemma MoreInstants(a: seq<Raw>, b: seq<Raw>, w1: set<int>, w2: set<int>, tids: set<int>, waits: seq<Wait>,
                     dp: Option<int>)
    requires RawsAre(a, w1, tids, waits, dp) && RawsAre(b, w2, tids, waits, dp)
    ensures RawsAre(a + b, w1 + w2, tids, waits, dp)
  {
    forall w, t | t in w1 + w2 && w in waits && KeptWait(w) && w.tid in tids && Holds(w.span, t)
      ensures Shown(a + b, w, t, dp)
    {
      assert t in w1 || t in w2;
      ShownMore(a, b, w, t, dp);
    }
    forall r, t | r in a + b && Holds(r.span, t)
      ensures t in w1 + w2 && Sourced(r, t, tids, waits, dp)
    {
      assert r in a || r in b;
    }
  }

  method OneThread(window: Span, tid: int, waits: seq<Wait>, dp: Option<int>) returns (raws: seq<Raw>)
    ensures RawsAre(raws, Instants(window.lo, window.hi), {tid}, waits, dp)
  {
    var mine := SortBy(WaitsOf(waits, tid), WaitKey);
    SameElements(WaitsOf(waits, tid), WaitKey);
    raws := ScanThread(window, mine, dp);
    ThreadRaws(window, waits, mine, tid, dp);
  }

  method ScanThreads(window: Span, tids: set<int>, waits: seq<Wait>, dp: Option<int>) returns (raws: seq<Raw>)
    ensures RawsAre(raws, Instants(window.lo, window.hi), tids, waits, dp)
  {
    raws := [];
    ghost var done: set<int> := {};
    var order := SortedSet(tids);
    for i := 0 to |order|
      invariant RawsAre(raws, Instants(window.lo, window.hi), done, waits, dp)
      invariant forall x :: x in done <==> x in order[..i]
    {
      var more := OneThread(window, order[i], waits, dp);
      MoreThreads(raws, more, Instants(window.lo, window.hi), done, order[i], waits, dp);
      raws := raws + more;
      done := done + {order[i]};
      assert order[..i + 1] == order[..i] + [order[i]];
    }
    assert order[..|order|] == order;
    forall x
      ensures x in done <==> x in tids
    {
      assert x in done <==> x in order;
    }
    SameSet(done, tids);
  }

  method ScanWindows(windows: seq<Span>, tids: set<int>, waits: seq<Wait>, dp: Option<int>) returns (raws: seq<Raw>)
    ensures RawsAre(raws, Covered(windows), tids, waits, dp)
  {
    raws := [];
    assert Covered([]) == {};
    for i := 0 to |windows|
      invariant RawsAre(raws, Covered(windows[..i]), tids, waits, dp)
    {
      var more := ScanThreads(windows[i], tids, waits, dp);
      MoreInstants(raws, more, Covered(windows[..i]), Instants(windows[i].lo, windows[i].hi), tids, waits, dp);
      CoveredLast(windows[..i + 1]);
      assert windows[..i + 1][..i] == windows[..i];
      raws := raws + more;
    }
    assert windows[..|windows|] == windows;
  }

  /** A delay in one of the groups `done` gives `r` its labels and holds `t`. */
  ghost predicate DelaySourced(r: Raw, t: int, execs: seq<Exec>, waits: seq<Wait>, rid: nat, done: set<Group>) {
    exists g, w :: g in done && DelayedBy(execs, waits, rid, g, w, t) && From(r, w, DpOf(g))
  }

  /** The raw intervals of a request, over the groups `done`. */
  ghost predicate GroupRaws(raws: seq<Raw>, execs: seq<Exec>, waits: seq<Wait>, rid: nat, done: set<Group>) {
    && (forall r, t :: r in raws && Holds(r.span, t) ==> DelaySourced(r, t, execs, waits, rid, done))
    && (forall g, w, t :: g in done && DelayedBy(execs, waits, rid, g, w, t) ==> Shown(raws, w, t, DpOf(g)))
  }

  lemma {:induction false} GroupDelays(more: seq<Raw>, execs: seq<Exec>, waits: seq<Wait>, rid: nat, g: Group)
    requires RawsAre(more, Covered(WindowsIn(execs, rid, g)), Workers(execs, g), waits, DpOf(g))
    ensures GroupRaws(more, execs, waits, rid, {g})
  {
    forall r, t | r in more && Holds(r.span, t)
      ensures DelaySourced(r, t, execs, waits, rid, {g})
    {
      WindowsMeaning(execs, rid, g, t);
      assert Sourced(r, t, Workers(execs, g), waits, DpOf(g));
      var w :| w in waits && KeptWait(w) && w.tid in Workers(execs, g) && Holds(w.span, t) && From(r, w, DpOf(g));
      assert g in {g} && DelayedBy(execs, waits, rid, g, w, t);
    }
    forall h, w, t | h in {g} && DelayedBy(execs, waits, rid, h, w, t)
      ensures Shown(more, w, t, DpOf(h))
    {
      WindowsMeaning(execs, rid, g, t);
    }
  }

  lemma JoinGroups(raws: seq<Raw>, more: seq<Raw>, execs: seq<Exec>, waits: seq<Wait>, rid: nat, done: set<Group>,
                   g: Group)
    requires GroupRaws(raws, execs, waits, rid, done) && GroupRaws(more, execs, waits, rid, {g})
    ensures GroupRaws(raws + more, execs, waits, rid, done + {g})
  {
    forall r, t | r in raws + more && Holds(r.span, t)
      ensures DelaySourced(r, t, execs, waits, rid, done + {g})
    {
      if r in raws {
        assert DelaySourced(r, t, execs, waits, rid, done);
      } else {
        assert DelaySourced(r, t, execs, waits, rid, {g});
      }
    }
    forall h, w, t | h in done + {g} && DelayedBy(execs, waits, rid, h, w, t)
      ensures Shown(raws + more, w, t, DpOf(h))
    {
      assert h in done || h in {g};
      ShownMore(raws, more, w, t, DpOf(h));
    }
  }

  /** The groups whose executions serve the request. */
  function GroupsOf(execs: seq<Exec>, rid: nat): set<Group> {
    set e | e in execs && KeptExec(e) && rid in e.reqs :: GroupOf(e)
  }

  /** The operating-system delay of one request, over spans that are read already: exactly the measure of its
      delayed instants, in blocks whose labels are those of the waits that delay it there. */
  method DelayOver(execs: seq<Exec>, waits: seq<Wait>, rid: nat) returns (total: int, blocks: seq<Block>)
    ensures Canonical(BlockSpans(blocks)) && Covered(BlockSpans(blocks)) == DelayTime(execs, waits, rid)
    ensures total == |DelayTime(execs, waits, rid)|
    ensures forall b :: b in blocks ==> LabelsRight(b, execs, waits, rid)
  {
    var raws := [];
    var groups := GroupsOf(execs, rid);
    var todo := groups;
    while |todo| > 0
      invariant todo <= groups
      invariant GroupRaws(raws, execs, waits, rid, groups - todo)
    {
      var g := Pick(todo);
      var windows := MergeIntervals(WindowsIn(execs, rid, g));
      var more := ScanWindows(windows, Workers(execs, g), waits, DpOf(g));
      GroupDelays(more, execs, waits, rid, g);
      JoinGroups(raws, more, execs, waits, rid, groups - todo, g);
      assert groups - (todo - {g}) == (groups - todo) + {g};
      todo := todo - {g};
      raws := raws + more;
    }
    total, blocks := MergeRaws(raws);
    AllGroups(raws, execs, waits, rid, groups);
    DelayIsCovered(raws, execs, waits, rid);
    forall b | b in blocks
      ensures LabelsRight(b, execs, waits, rid)
    {
      SpanListed(blocks, b);
      BlockSound(raws, execs, waits, rid, b);
      BlockComplete(raws, execs, waits, rid, BlockSpans(blocks), b);
    }
  }

  /** The same from the recorded spans. On the host's clock the result is the delay itself. */
  method RequestDelay(execs: seq<Exec>, waits: seq<Wait>, rid: nat) returns (total: int, blocks: seq<Block>)
    ensures Canonical(BlockSpans(blocks)) && Covered(BlockSpans(blocks)) == DelayTime(Read(execs), waits, rid)
    ensures total == |DelayTime(Read(execs), waits, rid)|
    ensures forall b :: b in blocks ==> LabelsRight(b, Read(execs), waits, rid)
    ensures Sane(execs) && InNanoseconds(execs) ==> total == |DelayTime(execs, waits, rid)|
  {
    total, blocks := DelayOver(Read(execs), waits, rid);
    if Sane(execs) && InNanoseconds(execs) {
      ReadRight(execs, waits, rid);
    }
  }

  /** Some delay gives `r` its labels and holds `t`. */
  ghost predicate DelayOf(r: Raw, t: int, execs: seq<Exec>, waits: seq<Wait>, rid: nat) {
    exists g, w :: DelayedBy(execs, waits, rid, g, w, t) && From(r, w, DpOf(g))
  }

  /** Every raw interval comes from a delay, and every delay is in a raw interval. */
  ghost predicate RequestRaws(raws: seq<Raw>, execs: seq<Exec>, waits: seq<Wait>, rid: nat) {
    && (forall r, t :: r in raws && Holds(r.span, t) ==> DelayOf(r, t, execs, waits, rid))
    && (forall g, w, t :: DelayedBy(execs, waits, rid, g, w, t) ==> Shown(raws, w, t, DpOf(g)))
  }

  lemma AllGroups(raws: seq<Raw>, execs: seq<Exec>, waits: seq<Wait>, rid: nat, groups: set<Group>)
    requires groups == GroupsOf(execs, rid)
    requires GroupRaws(raws, execs, waits, rid, groups)
    ensures RequestRaws(raws, execs, waits, rid)
  {
    forall r, t | r in raws && Holds(r.span, t)
      ensures DelayOf(r, t, execs, waits, rid)
    {
      assert DelaySourced(r, t, execs, waits, rid, groups);
    }
    forall g, w, t | DelayedBy(execs, waits, rid, g, w, t)
      ensures Shown(raws, w, t, DpOf(g))
    {
      assert Executing(execs, rid, g, t);
      assert g in groups;
    }
  }

  lemma DelayIsCovered(raws: seq<Raw>, execs: seq<Exec>, waits: seq<Wait>, rid: nat)
    requires RequestRaws(raws, execs, waits, rid)
    ensures Covered(RawSpans(raws)) == DelayTime(execs, waits, rid)
  {
    forall t
      ensures t in Covered(RawSpans(raws)) <==> t in DelayTime(execs, waits, rid)
    {
      DelayTimeIs(execs, waits, rid, t);
      CoveredByRaw(raws, t);
      if r :| r in raws && Holds(r.span, t) {
        assert DelayOf(r, t, execs, waits, rid);
      }
      if g, w :| DelayedBy(execs, waits, rid, g, w, t) {
        assert Shown(raws, w, t, DpOf(g));
      }
    }
    SameSet(Covered(RawSpans(raws)), DelayTime(execs, waits, rid));
  }

  lemma DelayTimeIs(execs: seq<Exec>, waits: seq<Wait>, rid: nat, t: int)
    ensures t in DelayTime(execs, waits, rid) <==> Delayed(execs, waits, rid, t)
  {
    if g, w :| DelayedBy(execs, waits, rid, g, w, t) {
      assert w in waits && Holds(w.span, t);
    }
  }

  lemma CoveredByRaw(raws: seq<Raw>, t: int)
    ensures t in Covered(RawSpans(raws)) <==> exists r :: r in raws && Holds(r.span, t)
  {
    if t in Covered(RawSpans(raws)) {
      var i :| 0 <= i < |raws| && Holds(RawSpans(raws)[i], t);
      assert raws[i] in raws;
    }
    if r :| r in raws && Holds(r.span, t) {
      var i :| 0 <= i < |raws| && raws[i] == r;
      assert RawSpans(raws)[i] in RawSpans(raws);
    }
  }

  /** A delay inside block `b` by wait `w` of group `g`. */
  ghost predicate DelayIn(b: Block, execs: seq<Exec>, waits: seq<Wait>, rid: nat, g: Group, w: Wait) {
    exists t :: Holds(b.span, t) && DelayedBy(execs, waits, rid, g, w, t)
  }

  /** Canonical intervals that share a boundary instant are the same. */
  lemma NoTouching(spans: seq<Span>, s: Span)
    requires Canonical(spans) && s in spans
    ensures s.lo - 1 !in Covered(spans)
  {
    var j :| 0 <= j < |spans| && spans[j] == s;
    forall i | 0 <= i < |spans|
      ensures !Holds(spans[i], s.lo - 1)
    {
      if i < j {
        assert spans[i].hi < spans[j].lo;
      } else if i > j {
        assert spans[j].hi < spans[i].lo;
      }
    }
  }

  /** A raw interval that meets a merged block starts inside it. */
  lemma RawInBlock(raws: seq<Raw>, spans: seq<Span>, s: Span, r: Raw, t: int)
    requires Canonical(spans) && Covered(spans) == Covered(RawSpans(raws))
    requires s in spans && r in raws && Holds(r.span, t) && Holds(s, t)
    ensures r in Inside(raws, s)
  {
    NoTouching(spans, s);
    CoveredByRaw(raws, s.lo - 1);
    assert !Holds(r.span, s.lo - 1);
  }

  /** Every label of the block comes from a delay inside it. */
  ghost predicate LabelsSound(b: Block, execs: seq<Exec>, waits: seq<Wait>, rid: nat) {
    && (forall tid :: tid in b.tids ==> exists g, w :: DelayIn(b, execs, waits, rid, g, w) && w.tid == tid)
    && (forall dp :: dp in b.dps ==> exists g, w :: DelayIn(b, execs, waits, rid, g, w) && DpOf(g) == Some(dp))
    && (forall reason :: reason in b.reasons ==>
          exists g, w :: DelayIn(b, execs, waits, rid, g, w) && w.reason == Some(reason))
  }

  /** Every delay inside the block has its labels there. */
  ghost predicate LabelsComplete(b: Block, execs: seq<Exec>, waits: seq<Wait>, rid: nat) {
    forall g, w :: DelayIn(b, execs, waits, rid, g, w) ==>
      && w.tid in b.tids
      && (DpOf(g).Some? ==> DpOf(g).value in b.dps)
      && (w.reason.Some? ==> w.reason.value in b.reasons)
  }

  /** The labels of a block are exactly those of the waits that delay the request inside it. */
  ghost predicate LabelsRight(b: Block, execs: seq<Exec>, waits: seq<Wait>, rid: nat) {
    LabelsSound(b, execs, waits, rid) && LabelsComplete(b, execs, waits, rid)
  }

  lemma BlockSound(raws: seq<Raw>, execs: seq<Exec>, waits: seq<Wait>, rid: nat, b: Block)
    requires forall r, t :: r in raws && Holds(r.span, t) ==> DelayOf(r, t, execs, waits, rid)
    requires b == BlockFor(raws, b.span)
    ensures LabelsSound(b, execs, waits, rid)
  {
    forall r | r in Inside(raws, b.span)
      ensures exists g, w :: DelayIn(b, execs, waits, rid, g, w) && From(r, w, DpOf(g))
    {
      assert Holds(r.span, r.span.lo);
      assert DelayOf(r, r.span.lo, execs, waits, rid);
      var g, w :| DelayedBy(execs, waits, rid, g, w, r.span.lo) && From(r, w, DpOf(g));
      assert DelayIn(b, execs, waits, rid, g, w);
    }
  }

  lemma BlockComplete(raws: seq<Raw>, execs: seq<Exec>, waits: seq<Wait>, rid: nat, spans: seq<Span>, b: Block)
    requires forall g, w, t :: DelayedBy(execs, waits, rid, g, w, t) ==> Shown(raws, w, t, DpOf(g))
    requires Canonical(spans) && Covered(spans) == Covered(RawSpans(raws))
    requires b.span in spans && b == BlockFor(raws, b.span)
    ensures LabelsComplete(b, execs, waits, rid)
  {
    forall g, w | DelayIn(b, execs, waits, rid, g, w)
      ensures w.tid in b.tids
      ensures DpOf(g).Some? ==> DpOf(g).value in b.dps
      ensures w.reason.Some? ==> w.reason.value in b.reasons
    {
      var t :| Holds(b.span, t) && DelayedBy(execs, waits, rid, g, w, t);
      assert Shown(raws, w, t, DpOf(g));
      var r :| r in raws && Holds(r.span, t) && From(r, w, DpOf(g));
      RawInBlock(raws, spans, b.span, r, t);
    }
  }

  lemma SpanListed(blocks: seq<Block>, b: Block)
    requires b in blocks
    ensures b.span in BlockSpans(blocks)
  {
    var k :| 0 <= k < |blocks| && blocks[k] == b;
    assert BlockSpans(blocks)[k] in BlockSpans(blocks);
  }

  // ------------------------------------------------- when the delay is right

  /** Thread ids are not 0, and spans do not run backwards. */
  ghost predicate Sane(execs: seq<Exec>) {
    forall e :: e in execs ==> e.tid != 0 && (0 < e.span.lo && 0 < e.span.hi ==> e.span.lo <= e.span.hi)
  }

  /** Every span that serves a request starts high enough on the clock to be read as nanoseconds. */
  ghost predicate InNanoseconds(execs: seq<Exec>) {
    forall e :: e in execs && KeptExec(e) ==> NS_FLOOR < e.span.lo
  }

  lemma ReadKept(e: Exec)
    requires e.tid != 0 && (0 < e.span.lo && 0 < e.span.hi ==> e.span.lo <= e.span.hi)
    requires KeptExec(e) ==> NS_FLOOR < e.span.lo
    ensures KeptExec(ReadExec(e)) <==> KeptExec(e)
    ensures KeptExec(e) ==> ReadExec(e) == e
  {
    StampKept(e.span.lo);
    StampKept(e.span.hi);
    if e.span.lo == e.span.hi {
      assert ReadStamp(e.span.lo) == ReadStamp(e.span.hi);
    }
  }

  lemma StampKept(v: int)
    ensures Stamp(v) ==> ReadStamp(v) == if 0 < v then v else 0
    ensures 0 < ReadStamp(v) ==> 0 < v
  {
  }

  /** Reading changes no span that counts, and makes no other count. */
  ghost predicate KeepsSpans(execs: seq<Exec>, read: seq<Exec>) {
    forall e :: KeptExec(e) ==> (e in execs <==> e in read)
  }

  lemma ReadKeeps(execs: seq<Exec>)
    requires Sane(execs) && InNanoseconds(execs)
    ensures KeepsSpans(execs, Read(execs))
  {
    var read := Read(execs);
    forall e | KeptExec(e)
      ensures e in execs <==> e in read
    {
      if e in execs {
        var i :| 0 <= i < |execs| && execs[i] == e;
        ReadKept(execs[i]);
        assert read[i] in read;
      }
      if e in read {
        var i :| 0 <= i < |read| && read[i] == e;
        assert execs[i] in execs;
        ReadKept(execs[i]);
      }
    }
  }

  lemma SameDelay(execs: seq<Exec>, read: seq<Exec>, waits: seq<Wait>, rid: nat, t: int)
    requires KeepsSpans(execs, read) && Delayed(execs, waits, rid, t)
    ensures Delayed(read, waits, rid, t)
  {
    var g, w :| DelayedBy(execs, waits, rid, g, w, t);
    var e :| e in execs && KeptExec(e) && rid in e.reqs && GroupOf(e) == g && Holds(e.span, t);
    assert e in read;
    assert Executing(read, rid, g, t);
    var f :| f in execs && KeptExec(f) && GroupOf(f) == g && f.tid == w.tid;
    assert f in read;
    assert DelayedBy(read, waits, rid, g, w, t);
  }

  /** Spans read as nanoseconds give the delay itself. */
  lemma ReadRight(execs: seq<Exec>, waits: seq<Wait>, rid: nat)
    requires Sane(execs) && InNanoseconds(execs)
    ensures DelayTime(Read(execs), waits, rid) == DelayTime(execs, waits, rid)
  {
    ReadKeeps(execs);
    forall t
      ensures t in DelayTime(Read(execs), waits, rid) <==> t in DelayTime(execs, waits, rid)
    {
      DelayTimeIs(execs, waits, rid, t);
      DelayTimeIs(Read(execs), waits, rid, t);
      if Delayed(execs, waits, rid, t) {
        SameDelay(execs, Read(execs), waits, rid, t);
      }
      if Delayed(Read(execs), waits, rid, t) {
        SameDelay(Read(execs), execs, waits, rid, t);
      }
    }
    SameSet(DelayTime(Read(execs), waits, rid), DelayTime(execs, waits, rid));
  }

  /** The computed delay is the measure of the delayed instants, whatever the waits and the request. */
  ghost predicate DelayRight(execs: seq<Exec>) {
    forall waits, rid :: |DelayTime(Read(execs), waits, rid)| == |DelayTime(execs, waits, rid)|
  }

  /** The earliest start of the spans that serve a request. */
  lemma EarliestServing(execs: seq<Exec>, rid: nat) returns (e: Exec)
    requires exists d :: d in execs && KeptExec(d) && rid in d.reqs
    ensures e in execs && KeptExec(e) && rid in e.reqs
    ensures forall d :: d in execs && KeptExec(d) && rid in d.reqs ==> e.span.lo <= d.span.lo
  {
    var n := |execs| - 1;
    var last := execs[n];
    assert forall d :: d in execs <==> d in execs[..n] || d == last;
    if exists d :: d in execs[..n] && KeptExec(d) && rid in d.reqs {
      e := EarliestServing(execs[..n], rid);
      if KeptExec(last) && rid in last.reqs && last.span.lo < e.span.lo {
        e := last;
      }
    } else {
      e := last;
    }
  }

  /** A span that starts too low is read far away from where it was, so a wait at the earliest start of its
      request is missed. */
  lemma LowSpanMissed(execs: seq<Exec>, rid: nat, e: Exec)
    requires Sane(execs) && e in execs && KeptExec(e) && rid in e.reqs && e.span.lo <= NS_FLOOR
    requires forall d :: d in execs && KeptExec(d) && rid in d.reqs ==> e.span.lo <= d.span.lo
    ensures var waits := [Wait(e.tid, Span(e.span.lo, e.span.lo + 1), None)];
      DelayTime(Read(execs), waits, rid) == {} && DelayTime(execs, waits, rid) == {e.span.lo}
  {
    var t := e.span.lo;
    var w := Wait(e.tid, Span(t, t + 1), None);
    var waits := [w];
    assert Executing(execs, rid, GroupOf(e), t);
    assert w in waits && DelayedBy(execs, waits, rid, GroupOf(e), w, t);
    forall s
      ensures s in DelayTime(execs, waits, rid) <==> s in {t}
      ensures s !in DelayTime(Read(execs), waits, rid)
    {
      DelayTimeIs(execs, waits, rid, s);
      NotReadAt(execs, rid, e);
    }
    SameSet(DelayTime(execs, waits, rid), {t});
    SameSet(DelayTime(Read(execs), waits, rid), {});
  }

  lemma NotReadAt(execs: seq<Exec>, rid: nat, e: Exec)
    requires Sane(execs) && e in execs && KeptExec(e) && rid in e.reqs && e.span.lo <= NS_FLOOR
    requires forall d :: d in execs && KeptExec(d) && rid in d.reqs ==> e.span.lo <= d.span.lo
    ensures forall g :: !Executing(Read(execs), rid, g, e.span.lo)
  {
    var read := Read(execs);
    forall i | 0 <= i < |read| && KeptExec(read[i]) && rid in read[i].reqs
      ensures e.span.lo < read[i].span.lo
    {
      ReadsLater(execs[i], e.span.lo);
      assert execs[i] in execs;
    }
  }

  lemma ReadsLater(d: Exec, t: int)
    requires 0 < t <= NS_FLOOR && (0 < d.span.lo && 0 < d.span.hi ==> d.span.lo <= d.span.hi)
    requires KeptExec(d) ==> t <= d.span.lo
    ensures KeptExec(ReadExec(d)) ==> t < ReadExec(d).span.lo
  {
    if 0 < d.span.lo <= NS_FLOOR {
      SecondsAreFar(d.span.lo);
    }
  }

  /** The computed delay is right for every request and every set of waits exactly when every span that serves
      a request starts above the limit for nanoseconds: the limit is 10^14, a clock of about 27.8 hours. */
  lemma DelayRightIff(execs: seq<Exec>)
    requires Sane(execs)
    ensures DelayRight(execs) <==> InNanoseconds(execs)
  {
    if InNanoseconds(execs) {
      forall waits, rid
        ensures |DelayTime(Read(execs), waits, rid)| == |DelayTime(execs, waits, rid)|
      {
        ReadRight(execs, waits, rid);
      }
    } else {
      var d :| d in execs && KeptExec(d) && d.span.lo <= NS_FLOOR;
      var rid := d.reqs[0];
      assert rid in d.reqs;
      var e := EarliestServing(execs, rid);
      LowSpanMissed(execs, rid, e);
      var waits := [Wait(e.tid, Span(e.span.lo, e.span.lo + 1), None)];
      assert |DelayTime(Read(execs), waits, rid)| != |DelayTime(execs, waits, rid)|;
    }
  }

  /** A host that has been up for 10^13 ns: a worker that waits through the whole span of its request is
      reported with no delay. */
  lemma FreshHostMissesDelay(tid: int, rid: nat)
    requires tid != 0
    ensures var span := Span(10_000_000_000_000, 10_000_000_000_100);
      var execs, waits := [Exec(tid, span, 0, [rid])], [Wait(tid, span, None)];
      DelayTime(Read(execs), waits, rid) == {} && DelayTime(execs, waits, rid) == Instants(span.lo, span.hi)
  {
    var span := Span(10_000_000_000_000, 10_000_000_000_100);
    var e, w := Exec(tid, span, 0, [rid]), Wait(tid, span, None);
    var execs, waits := [e], [w];
    SecondsAreFar(span.lo);
    SecondsAreFar(span.hi);
    assert e in execs && w in waits && rid in e.reqs;
    forall t
      ensures t in DelayTime(execs, waits, rid) <==> t in Instants(span.lo, span.hi)
      ensures t !in DelayTime(Read(execs), waits, rid)
    {
      DelayTimeIs(execs, waits, rid, t);
      DelayTimeIs(Read(execs), waits, rid, t);
      if Holds(span, t) {
        assert Executing(execs, rid, DpGroup(0), t);
        assert DelayedBy(execs, waits, rid, DpGroup(0), w, t);
      }
    }
    SameSet(DelayTime(execs, waits, rid), Instants(span.lo, span.hi));
    SameSet(DelayTime(Read(execs), waits, rid), {});
  }
}
