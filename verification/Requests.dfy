/** One request from its dispatches, and from the event stream, to its two decompositions. */
module Requests {
  import opened Sets
  import opened Spans
  import opened Sorting
  import opened Intervals
  import opened Sweep
  import opened Stages
  import opened Breakdown
  import opened Totals
  import opened QueueGaps
  import opened Tpot
  import opened Ttft
  import Pairing

  // -------------------------------------------------------- initial prefills

  /** The prefills before the first decode. */
  function InitialPrefills(ordered: seq<Dispatch>): (r: seq<Dispatch>)
    ensures forall d :: d in r ==> d in ordered && d.phase.Prefill?
  {
    if ordered == [] then []
    else
      match ordered[0].phase
      case Decode => []
      case Prefill => [ordered[0]] + InitialPrefills(ordered[1..])
      case UnknownPhase => InitialPrefills(ordered[1..])
  }

  /** A prefill with no decode before it. */
  ghost predicate InitialAt(ordered: seq<Dispatch>, i: nat) {
    i < |ordered| && ordered[i].phase.Prefill? && forall j :: 0 <= j < i ==> !ordered[j].phase.Decode?
  }

  /** `r` lists, in order, the prefills with no decode before them, each position once. */
  ghost predicate ListsInitial(ordered: seq<Dispatch>, r: seq<Dispatch>) {
    exists at: seq<nat> :: InitialPlaces(ordered, at) && r == ElementsAt(ordered, at)
  }

  ghost predicate InitialPlaces(ordered: seq<Dispatch>, at: seq<nat>) {
    && Increasing(at) && (forall k :: 0 <= k < |at| ==> at[k] < |ordered|)
    && forall i: nat :: i in at <==> InitialAt(ordered, i)
  }

  lemma {:induction false} InitialAre(ordered: seq<Dispatch>)
    ensures ListsInitial(ordered, InitialPrefills(ordered))
  {
    var at := PlacesOfInitial(ordered);
    assert InitialPlaces(ordered, at);
  }

  lemma {:induction false} PlacesOfInitial(ordered: seq<Dispatch>) returns (at: seq<nat>)
    ensures InitialPlaces(ordered, at) && InitialPrefills(ordered) == ElementsAt(ordered, at)
  {
    at := [];
    if ordered != [] && !ordered[0].phase.Decode? {
      var rest := PlacesOfInitial(ordered[1..]);
      var later: seq<nat> := seq(|rest|, k requires 0 <= k < |rest| => rest[k] + 1);
      LaterPlaces(ordered, rest, later);
      ShiftedElements(ordered, rest, later);
      at := if ordered[0].phase.Prefill? then [0] + later else later;
      WithFirstPlace(ordered, later, at);
      FirstElement(ordered, later);
    }
  }

  lemma WithFirstPlace(ordered: seq<Dispatch>, later: seq<nat>, at: seq<nat>)
    requires ordered != [] && !ordered[0].phase.Decode? && Increasing(later)
    requires forall i: nat :: i in later <==> i > 0 && InitialAt(ordered, i)
    requires at == if ordered[0].phase.Prefill? then [0] + later else later
    ensures InitialPlaces(ordered, at)
  {
    assert InitialAt(ordered, 0) <==> ordered[0].phase.Prefill?;
    assert forall k :: 0 <= k < |later| ==> later[k] in later;
    assert forall i: nat :: i in at <==> i in later || (i == 0 && ordered[0].phase.Prefill?);
    assert forall k :: 0 <= k < |at| ==> at[k] in at;
  }

  lemma FirstElement(ordered: seq<Dispatch>, later: seq<nat>)
    requires ordered != [] && forall k :: 0 <= k < |later| ==> later[k] < |ordered|
    ensures ElementsAt(ordered, [0] + later) == [ordered[0]] + ElementsAt(ordered, later)
  {
  }

  lemma ShiftedElements(ordered: seq<Dispatch>, rest: seq<nat>, later: seq<nat>)
    requires ordered != [] && |later| == |rest| && forall k :: 0 <= k < |rest| ==> later[k] == rest[k] + 1 < |ordered|
    ensures ElementsAt(ordered, later) == ElementsAt(ordered[1..], rest)
  {
  }

  lemma {:induction false} LaterPlaces(ordered: seq<Dispatch>, rest: seq<nat>, later: seq<nat>)
    requires ordered != [] && !ordered[0].phase.Decode? && InitialPlaces(ordered[1..], rest)
    requires |later| == |rest| && forall k :: 0 <= k < |rest| ==> later[k] == rest[k] + 1
    ensures Increasing(later) && forall i: nat :: i in later <==> i > 0 && InitialAt(ordered, i)
  {
    forall i: nat
      ensures i in later <==> i > 0 && InitialAt(ordered, i)
    {
      if i > 0 {
        assert InitialAt(ordered, i) <==> InitialAt(ordered[1..], i - 1);
        if i - 1 in rest {
          var k :| 0 <= k < |rest| && rest[k] == i - 1;
          assert later[k] == i;
        }
      }
      if i in later {
        var k :| 0 <= k < |later| && later[k] == i;
        assert rest[k] in rest;
      }
    }
  }

  lemma {:induction false} InitialSorted(ordered: seq<Dispatch>)
    requires SortedBy(ordered, DispatchKey)
    ensures SortedBy(InitialPrefills(ordered), DispatchKey)
  {
    if ordered != [] && !ordered[0].phase.Decode? {
      var rest := InitialPrefills(ordered[1..]);
      InitialSorted(ordered[1..]);
      forall j | 0 <= j < |rest|
        ensures LE(DispatchKey(ordered[0]), DispatchKey(rest[j]))
      {
        assert rest[j] in ordered[1..];
        var k :| 0 <= k < |ordered[1..]| && ordered[1..][k] == rest[j];
        assert ordered[k + 1] == rest[j];
      }
    }
  }

  // ------------------------------------------------------------- one request

  /** What the decomposition of a request needs besides its dispatches. */
  datatype Context = Context(
    enqueue: int,
    preempts: seq<int>,
    engine: seq<Span>,
    start: Option<int>,
    consumes: seq<Span>,
    logs: seq<PhaseLog>,
    steps: seq<Work>)

  ghost predicate InDomain(c: Context) {
    && Stamp(c.enqueue) && AllStamped(c.engine) && (c.start.Some? ==> NS_FLOOR < c.start.value)
    && (forall s :: s in c.consumes ==> NS_FLOOR < s.lo < s.hi)
    && LogsStamped(c.logs) && WorksStamped(c.steps)
  }

  /** The end of the first `generate_consume` interval in start order. */
  function FirstConsumed(consumes: seq<Span>): int
    requires consumes != []
  {
    SortBy(consumes, SpanKey)[0].hi
  }

  /** When a request gets a TTFT entry, and when it also gets a TPOT entry. */
  predicate HasTtft(ordered: seq<Dispatch>, c: Context) {
    c.start.Some? && InitialPrefills(ordered) != [] && c.consumes != [] && c.start.value < FirstConsumed(c.consumes)
  }

  predicate HasTpot(ordered: seq<Dispatch>, c: Context) {
    HasTtft(ordered, c) &&
    var last := LastDecodeEnd(ordered, LastEnd(DispatchSpans(InitialPrefills(ordered))));
    last.Some? && last.value <= LastEnd(c.consumes)
  }

  /** The window ends with the first `generate_consume` interval, by start and then by end. */
  lemma FirstConsumedIs(consumes: seq<Span>)
    requires consumes != []
    ensures exists x ::
      && x in consumes && x.hi == FirstConsumed(consumes)
      && forall y :: y in consumes ==> x.lo < y.lo || (x.lo == y.lo && x.hi <= y.hi)
  {
    var ordered := SortBy(consumes, SpanKey);
    SameElements(consumes, SpanKey);
    var x := ordered[0];
    assert x in ordered;
    forall y | y in consumes
      ensures x.lo < y.lo || (x.lo == y.lo && x.hi <= y.hi)
    {
      assert y in ordered;
      var i :| 0 <= i < |ordered| && ordered[i] == y;
      assert i > 0 ==> LE(SpanKey(ordered[0]), SpanKey(ordered[i]));
    }
  }

  /** Which entries exist: for TTFT a start, a prefill with no decode before it, and a consumption that ends after the
      start; for TPOT also a decode that ends after these prefills, and no decode that ends after every consumption. */
  lemma {:induction false} EntriesExist(ordered: seq<Dispatch>, c: Context)
    ensures HasTtft(ordered, c) <==>
      && c.start.Some? && (exists i: nat :: InitialAt(ordered, i))
      && c.consumes != [] && c.start.value < FirstConsumed(c.consumes)
    ensures HasTtft(ordered, c) ==> (HasTpot(ordered, c) <==>
      && (exists d :: d in ordered && d.phase.Decode? && LastEnd(DispatchSpans(InitialPrefills(ordered))) < d.span.hi)
      && forall d :: d in ordered && d.phase.Decode? ==> exists x :: x in c.consumes && d.span.hi <= x.hi)
  {
    InitialAre(ordered);
    var at :| InitialPlaces(ordered, at) && InitialPrefills(ordered) == ElementsAt(ordered, at);
    if InitialPrefills(ordered) != [] {
      assert at[0] in at;
    }
    if HasTtft(ordered, c) {
      var mid := LastEnd(DispatchSpans(InitialPrefills(ordered)));
      LastDecodeEndIsMax(ordered, mid);
      LastEndIsMax(c.consumes);
    }
  }

  /** The TTFT entry of a request: its dispatches are the initial prefills. */
  ghost predicate TtftOf(initial: seq<Dispatch>, c: Context, e: TtftEntry)
    requires InDomain(c) && initial != [] && c.start.Some? && c.consumes != []
  {
    var spans := DispatchSpans(initial);
    var start, end := c.start.value, FirstConsumed(c.consumes);
    && TtftRight(e, spans, c.engine, c.enqueue, start, end) && TtftMeasured(e, spans, c.engine, c.enqueue, start, end)
    && SixSum(e) >= end - start && (SixSum(e) == end - start <==> ExcessFits(spans, c.engine, c.enqueue, start, end))
    && PhasesOf(e.phases, OtherPrefillExec, initial, c.logs, c.steps) && ReportFor(initial, c.logs, c.steps, e.report)
  }

  /** The TPOT entry of a request whose initial prefills end at `start`. */
  ghost predicate TpotOf(ordered: seq<Dispatch>, c: Context, start: int, e: TpotEntry)
    requires c.consumes != [] && forall d :: d in ordered ==> Stamped(d.span) && Usable(d)
  {
    var exec := ExecDispatches(ordered, start, e.lastDecodeEndNs);
    && e.startNs == start && e.endNs == LastEnd(c.consumes) && Some(e.lastDecodeEndNs) == LastDecodeEnd(ordered, start)
    && TpotRight(e, ordered, c.enqueue, c.preempts)
    && ComponentSum(e) >= e.endNs - start
    && (ComponentSum(e) == e.endNs - start <==> !WaitMeetsEarlier(ordered, start, e.lastDecodeEndNs))
    && PhasesOf(e.exec, OtherExec, exec, c.logs, c.steps) && ReportFor(exec, c.logs, c.steps, e.report)
  }

  /** The decompositions of a request with dispatches `ordered`: which ones exist, what they measure, and that they
      are exact just when the dispatches say so. */
  ghost predicate Decomposed(ordered: seq<Dispatch>, c: Context, ttft: Option<TtftEntry>, tpot: Option<TpotEntry>)
    requires InDomain(c)
  {
    && (forall d :: d in ordered ==> Stamped(d.span) && Usable(d)) && ListsInitial(ordered, InitialPrefills(ordered))
    && (ttft.Some? <==> HasTtft(ordered, c)) && (tpot.Some? <==> HasTpot(ordered, c))
    && (ttft.Some? ==> TtftOf(InitialPrefills(ordered), c, ttft.value))
    && (tpot.Some? ==> TpotOf(ordered, c, ttft.value.initialPrefillEndNs, tpot.value))
  }

  /** The body of the loop over requests: TTFT first, and TPOT from where the initial prefills end. */
  method Decompose(ds: seq<Dispatch>, c: Context) returns (ttft: Option<TtftEntry>, tpot: Option<TpotEntry>)
    requires InDomain(c) && forall d :: d in ds ==> Stamped(d.span) && Usable(d)
    ensures Decomposed(SortBy(ds, DispatchKey), c, ttft, tpot)
  {
    ttft, tpot := None, None;
    var ordered := SortBy(ds, DispatchKey);
    SameElements(ds, DispatchKey);
    var initial := InitialPrefills(ordered);
    InitialAre(ordered);
    if c.start.None? || initial == [] || c.consumes == [] {
      return;
    }
    InitialSorted(ordered);
    SortOfSorted(initial, DispatchKey);
    ttft := ComputeTtft(initial, c.engine, c.enqueue, c.start.value, FirstConsumed(c.consumes), c.logs, c.steps);
    if ttft.None? {
      return;
    }
    TtftExact(initial, c, ttft.value);
    InitialEnd(initial);
    var last := LargestEnd(c.consumes);
    tpot := RequestTpot(ds, c.enqueue, c.preempts, ttft.value.initialPrefillEndNs, Some(last), c.logs, c.steps);
  }

  lemma TtftExact(initial: seq<Dispatch>, c: Context, e: TtftEntry)
    requires InDomain(c) && c.start.Some? && c.consumes != [] && initial != [] && SortedBy(initial, DispatchKey)
    requires forall d :: d in initial ==> Stamped(d.span) && Usable(d)
    requires TtftRight(e, DispatchSpans(initial), c.engine, c.enqueue, c.start.value, FirstConsumed(c.consumes))
    requires c.start.value < FirstConsumed(c.consumes)
    ensures TtftMeasured(e, DispatchSpans(initial), c.engine, c.enqueue, c.start.value, FirstConsumed(c.consumes))
    ensures var window := FirstConsumed(c.consumes) - c.start.value;
      && SixSum(e) >= window
      && (SixSum(e) == window <==>
            ExcessFits(DispatchSpans(initial), c.engine, c.enqueue, c.start.value, FirstConsumed(c.consumes)))
  {
    SortOfSorted(initial, DispatchKey);
    DispatchesInOrder(initial);
    TtftParts(e, DispatchSpans(initial), c.engine, c.enqueue, c.start.value, FirstConsumed(c.consumes));
    TtftBalance(e, DispatchSpans(initial), c.engine, c.enqueue, c.start.value, FirstConsumed(c.consumes));
  }

  // --------------------------------------------------- the reported pipeline gap

  /** The gaps of the two reports lie on both sides of the end of the initial prefills. */
  lemma GapsApart(ordered: seq<Dispatch>, c: Context, ttft: TtftEntry, tpot: TpotEntry)
    requires InDomain(c) && Decomposed(ordered, c, Some(ttft), Some(tpot))
    ensures Covered(AllGaps(ttft.report.rows)) !! Covered(AllGaps(tpot.report.rows))
    ensures forall s :: s in AllGaps(ttft.report.rows) + AllGaps(tpot.report.rows) ==> NS_FLOOR < s.lo < s.hi
  {
    var initial, mid, last := InitialPrefills(ordered), tpot.startNs, tpot.lastDecodeEndNs;
    InitialGaps(ordered, c, ttft);
    ExecMeaning(ordered, mid, last);
    ReportGaps(ExecDispatches(ordered, mid, last), c.logs, c.steps, tpot.report, mid, last);
  }

  lemma {:induction false} InitialGaps(ordered: seq<Dispatch>, c: Context, e: TtftEntry)
    requires InDomain(c) && ordered != [] && forall d :: d in ordered ==> Stamped(d.span) && Usable(d)
    requires InitialPrefills(ordered) != [] && e.initialPrefillEndNs == LastEnd(DispatchSpans(InitialPrefills(ordered)))
    requires ReportFor(InitialPrefills(ordered), c.logs, c.steps, e.report)
    ensures forall t :: t in Covered(AllGaps(e.report.rows)) ==> t < e.initialPrefillEndNs
    ensures forall s :: s in AllGaps(e.report.rows) ==> NS_FLOOR < s.lo < s.hi
  {
    var initial := InitialPrefills(ordered);
    var spans := DispatchSpans(initial);
    LastEndIsMax(spans);
    forall d | d in initial
      ensures 0 <= d.span.lo && d.span.hi <= e.initialPrefillEndNs
    {
      var i :| 0 <= i < |initial| && initial[i] == d;
      assert spans[i] in spans;
    }
    ReportGaps(initial, c.logs, c.steps, e.report, 0, e.initialPrefillEndNs);
  }

  /** The rows of both reports. */
  function RowsOf(ttft: Option<TtftEntry>, tpot: Option<TpotEntry>): seq<Row> {
    (if ttft.Some? then ttft.value.report.rows else []) + (if tpot.Some? then tpot.value.report.rows else [])
  }

  /** `_request_pp_gap_wall_ns`, over the rows of both reports: merging across the reports loses nothing. */
  method RequestGapWallNs(ghost ordered: seq<Dispatch>, ghost c: Context, ttft: Option<TtftEntry>,
                          tpot: Option<TpotEntry>)
    returns (n: int)
    requires InDomain(c) && Decomposed(ordered, c, ttft, tpot)
    ensures n == |Covered(AllGaps(RowsOf(ttft, tpot)))|
    ensures n == (if ttft.Some? then ttft.value.report.totalPpGapNs else 0)
               + (if tpot.Some? then tpot.value.report.totalPpGapNs else 0)
  {
    RequestGaps(ordered, c, ttft, tpot);
    n := PpGapWallNs(RowsOf(ttft, tpot));
  }

  lemma RequestGaps(ordered: seq<Dispatch>, c: Context, ttft: Option<TtftEntry>, tpot: Option<TpotEntry>)
    requires InDomain(c) && Decomposed(ordered, c, ttft, tpot)
    ensures forall s :: s in AllGaps(RowsOf(ttft, tpot)) ==> NS_FLOOR < s.lo < s.hi
    ensures |Covered(AllGaps(RowsOf(ttft, tpot)))| == (if ttft.Some? then ttft.value.report.totalPpGapNs else 0)
                                                    + (if tpot.Some? then tpot.value.report.totalPpGapNs else 0)
  {
    if ttft.Some? && tpot.Some? {
      var a, b := ttft.value.report.rows, tpot.value.report.rows;
      GapsApart(ordered, c, ttft.value, tpot.value);
      JoinedGaps(a, b);
    } else if ttft.Some? {
      InitialGaps(ordered, c, ttft.value);
      assert RowsOf(ttft, tpot) == ttft.value.report.rows;
    } else {
      assert RowsOf(ttft, tpot) == [] && Covered(AllGaps([])) == {};
    }
  }

  lemma {:induction false} JoinedGaps(a: seq<Row>, b: seq<Row>)
    requires Covered(AllGaps(a)) !! Covered(AllGaps(b))
    ensures AllGaps(a + b) == AllGaps(a) + AllGaps(b)
    ensures |Covered(AllGaps(a + b))| == |Covered(AllGaps(a))| + |Covered(AllGaps(b))|
  {
    AllGapsJoin(a, b);
    CoveredSplit(AllGaps(a), AllGaps(b));
    UnionSize(Covered(AllGaps(a)), Covered(AllGaps(b)));
  }

  lemma InitialEnd(ds: seq<Dispatch>)
    requires ds != [] && forall d :: d in ds ==> Stamped(d.span) && Usable(d)
    ensures NS_FLOOR < LastEnd(DispatchSpans(ds))
  {
    var ss := DispatchSpans(ds);
    LastEndIsMax(ss);
    assert ds[0] in ds && ss[0] in ss;
  }

  /** Prefills that end at `b`, and a counted wait up to `last` that runs into an earlier dispatch. */
  ghost predicate Meeting(ds: seq<Dispatch>, b: int, last: int) {
    && InitialPrefills(ds) != [] && LastEnd(DispatchSpans(InitialPrefills(ds))) == b
    && LastDecodeEnd(ds, b) == Some(last) && WaitMeetsEarlier(ds, b, last)
  }

  /** A request with such a wait: both entries exist, and the TPOT components exceed their window. */
  method DecomposeMeeting(ds: seq<Dispatch>, c: Context, ghost b: int, ghost last: int)
    returns (ttft: Option<TtftEntry>, tpot: Option<TpotEntry>)
    requires InDomain(c) && SortedBy(ds, DispatchKey) && forall d :: d in ds ==> Stamped(d.span) && Usable(d)
    requires HasTpot(ds, c) && Meeting(ds, b, last)
    ensures Decomposed(ds, c, ttft, tpot) && ttft.Some? && tpot.Some?
    ensures tpot.value.startNs == b && tpot.value.endNs == LastEnd(c.consumes)
    ensures ComponentSum(tpot.value) > tpot.value.endNs - tpot.value.startNs
  {
    SortOfSorted(ds, DispatchKey);
    ttft, tpot := Decompose(ds, c);
    MeetingOverfills(ds, c, b, last, ttft.value, tpot.value);
  }

  lemma {:induction false} MeetingOverfills(ds: seq<Dispatch>, c: Context, b: int, last: int, ttft: TtftEntry,
                                            tpot: TpotEntry)
    requires InDomain(c) && HasTpot(ds, c) && Meeting(ds, b, last)
    requires forall d :: d in ds ==> Stamped(d.span) && Usable(d)
    requires TtftOf(InitialPrefills(ds), c, ttft) && TpotOf(ds, c, ttft.initialPrefillEndNs, tpot)
    ensures tpot.startNs == b && tpot.endNs == LastEnd(c.consumes) && ComponentSum(tpot) > tpot.endNs - tpot.startNs
  {
  }

  /** A request whose decodes overlap: the third one starts after a gap that lies inside the first one. */
  method OverlappedDecodes(b: int) returns (ttft: Option<TtftEntry>, tpot: Option<TpotEntry>)
    requires NS_FLOOR + 100 < b
    ensures Decomposed(FourDispatches(b), FourContext(b), ttft, tpot) && ttft.Some? && tpot.Some?
    ensures tpot.value.startNs == b && tpot.value.endNs == b + 120
    ensures ComponentSum(tpot.value) > tpot.value.endNs - tpot.value.startNs
  {
    FourInOrder(b);
    FourHaveBoth(b);
    ttft, tpot := DecomposeMeeting(FourDispatches(b), FourContext(b), b, b + 100);
  }

  function FourContext(b: int): (c: Context)
    requires NS_FLOOR + 100 < b
    ensures InDomain(c)
  {
    Context(0, [], [], Some(b - 60), [Span(b + 10, b + 50), Span(b + 60, b + 120)], [], [])
  }

  lemma FourHaveBoth(b: int)
    requires NS_FLOOR + 100 < b
    ensures var ds, c := FourDispatches(b), FourContext(b);
      HasTpot(ds, c) && LastEnd(c.consumes) == b + 120 && Meeting(ds, b, b + 100)
  {
    var c := FourContext(b);
    FourEntries(b);
    SortOfSorted(c.consumes, SpanKey);
    TwoEnds(c.consumes[0], c.consumes[1]);
    FourMeet(b);
  }

  lemma FourMeet(b: int)
    ensures WaitMeetsEarlier(FourDispatches(b), b, b + 100)
  {
    FourEntries(b);
    assert MeetsEarlier(FourDispatches(b), b, b + 100, 2, 1);
  }

  lemma TwoEnds(x: Span, y: Span)
    ensures LastEnd([x, y]) == Max(x.hi, y.hi) && LastEnd([x]) == x.hi
  {
    assert [x, y][..1] == [x];
  }

  function FourDispatches(b: int): seq<Dispatch> {
    [Dispatch(None, Span(b - 50, b), Prefill), Dispatch(None, Span(b, b + 100), Decode),
     Dispatch(None, Span(b + 10, b + 20), Decode), Dispatch(None, Span(b + 30, b + 40), Decode)]
  }

  lemma FourInOrder(b: int)
    requires NS_FLOOR + 100 < b
    ensures SortedBy(FourDispatches(b), DispatchKey)
    ensures forall d :: d in FourDispatches(b) ==> Stamped(d.span) && Usable(d)
  {
  }

  lemma {:induction false} FourEntries(b: int)
    ensures var ds := FourDispatches(b);
      && InitialPrefills(ds) == [ds[0]] && LastEnd(DispatchSpans([ds[0]])) == b
      && LastDecodeEnd(ds, b) == Some(b + 100) && PhaseAt(ds, b + 30) == Some(Decode)
  {
    var ds := FourDispatches(b);
    assert InitialPrefills(ds[1..]) == [];
    assert DispatchSpans([ds[0]]) == [Span(b - 50, b)];
    assert ds[..3][..2] == ds[..2] && ds[..2][..1] == ds[..1] && ds[..1][..0] == [];
    assert LastDecodeEnd(ds[..1], b) == None;
    assert LastDecodeEnd(ds[..2], b) == Some(b + 100);
    assert LastDecodeEnd(ds[..3], b) == Some(b + 100);
    assert ds[1..][1..] == ds[2..] && ds[2..][1..] == ds[3..];
    assert PhaseAt(ds[3..], b + 30) == Some(Decode);
    assert PhaseAt(ds[2..], b + 30) == Some(Decode);
    assert PhaseAt(ds[1..], b + 30) == Some(Decode);
  }

  // -------------------------------------------------------- from the events

  function PhaseOf(phase: string): DispatchPhase {
    if phase == "prefill" then Prefill else if phase == "decode" then Decode else UnknownPhase
  }

  function DispatchOf(slot: Pairing.Slot): Dispatch {
    Dispatch(if slot.key == "" then None else Some(slot.key), Span(slot.startNs, slot.endNs), PhaseOf(slot.phase))
  }

  function DispatchesOf(slots: seq<Pairing.Slot>): (r: seq<Dispatch>)
    ensures |r| == |slots| && forall i :: 0 <= i < |r| ==> r[i] == DispatchOf(slots[i])
  {
    seq(|slots|, i requires 0 <= i < |slots| => DispatchOf(slots[i]))
  }

  /** A dispatch runs from its start to its ready event; its key is that of the ready event, or else of the start, and
      its phase is the interval's when that is one of the two. */
  lemma {:induction false} PairedIs(own: seq<Pairing.Step>, hints: seq<string>, k: nat)
    requires k < |DispatchesOf(Pairing.Result(own, hints).slots)|
    ensures Pairing.WellMatched(own, Pairing.Matches(own)) && k < |Pairing.Emitted(own, Pairing.Matches(own))|
    ensures var m := Pairing.Emitted(own, Pairing.Matches(own))[k];
      && Pairing.Sound(own, m)
      && var d, start, take := DispatchesOf(Pairing.Result(own, hints).slots)[k], own[m.start].start, own[m.take];
         && d.span == Span(start.startNs, take.ts)
         && d.key == (if take.key != "" then Some(take.key) else if start.key != "" then Some(start.key) else None)
    ensures var slots := Pairing.Result(own, hints).slots;
      var d, phase := DispatchesOf(slots)[k], slots[k].phase;
      (d.phase == Prefill <==> phase == "prefill") && (d.phase == Decode <==> phase == "decode")
  {
    Pairing.SlotsRecord(own, hints);
    var slots, es := Pairing.Result(own, hints).slots, Pairing.Emitted(own, Pairing.Matches(own));
    assert es[k] in es && Pairing.Records(own, es[k], slots[k]);
  }

  ghost predicate EntriesStamped(trace: seq<Pairing.Entry>) {
    forall i :: 0 <= i < |trace| ==> NS_FLOOR < Pairing.At(trace[i].step)
  }

  ghost predicate StepsStamped(steps: seq<Pairing.Step>) {
    forall i :: 0 <= i < |steps| ==> NS_FLOOR < Pairing.At(steps[i])
  }

  lemma {:induction false} StreamStamped(events: seq<Pairing.Event>)
    requires forall e :: e in events ==> Stamp(e.ts)
    ensures EntriesStamped(Pairing.StreamSteps(events))
  {
    if events != [] {
      var e := events[|events| - 1];
      assert e in events;
      StreamStamped(events[..|events| - 1]);
      Pairing.EventAt(e);
    }
  }

  lemma {:induction false} OfStamped(trace: seq<Pairing.Entry>, rid: string)
    requires EntriesStamped(trace)
    ensures StepsStamped(Pairing.Of(trace, rid))
  {
    if trace != [] {
      OfStamped(trace[..|trace| - 1], rid);
    }
  }

  /** The intervals that pairing emits are dispatches that the decompositions can use. */
  lemma {:induction false} SlotsUsable(steps: seq<Pairing.Step>, hints: seq<string>)
    requires StepsStamped(steps)
    ensures forall d :: d in DispatchesOf(Pairing.Result(steps, hints).slots) ==> Stamped(d.span) && Usable(d)
  {
    Pairing.SlotsRecord(steps, hints);
    var slots, es := Pairing.Result(steps, hints).slots, Pairing.Emitted(steps, Pairing.Matches(steps));
    forall k | 0 <= k < |slots|
      ensures NS_FLOOR < slots[k].startNs < slots[k].endNs
    {
      assert es[k] in es && Pairing.Records(steps, es[k], slots[k]);
    }
  }

  /** The dispatches of a request, as the events of the whole log pair up. */
  ghost function PairedDispatches(events: seq<Pairing.Event>, hints: map<string, seq<string>>,
                                  rid: string): seq<Dispatch> {
    var own := Pairing.Of(Pairing.StreamSteps(SortBy(events, Pairing.EventKey)), rid);
    DispatchesOf(Pairing.Result(own, Pairing.Queue(hints, rid)).slots)
  }

  /** From the event stream to the decompositions of one request. */
  method AttributeStream(events: seq<Pairing.Event>, hints: map<string, seq<string>>, rid: string, c: Context)
    returns (ttft: Option<TtftEntry>, tpot: Option<TpotEntry>)
    requires InDomain(c) && forall e :: e in events ==> Stamp(e.ts)
    ensures Decomposed(SortBy(PairedDispatches(events, hints, rid), DispatchKey), c, ttft, tpot)
  {
    var pairing := new Pairing.Dispatches(hints);
    pairing.ProcessStream(events);
    ghost var ordered := SortBy(events, Pairing.EventKey);
    ghost var own := Pairing.Of(pairing.trace, rid);
    SameElements(events, Pairing.EventKey);
    StreamStamped(ordered);
    OfStamped(pairing.trace, rid);
    SlotsUsable(own, Pairing.Queue(hints, rid));
    assert Pairing.Fits(own, Pairing.Queue(pairing.given, rid), pairing.LaneOf(rid));
    ttft, tpot := Decompose(DispatchesOf(Pairing.Queue(pairing.intervals, rid)), c);
  }
}
