/** Pipeline-stage windows of one dispatch and the gaps between neighbouring stages. */
module Stages {
  import opened Sets
  import opened Spans
  import opened Sorting
  import opened Intervals

  /** A rank read from a log line; "unknown" sorts behind every number. */
  datatype Rank = Known(n: int) | Unknown

  function RankKey(r: Rank): Key {
    match r
    case Known(n) => Key(0, n, 0)
    case Unknown => Key(1, 0, 0)
  }

  /** Numbers in their order, then "unknown". */
  ghost predicate RankBefore(a: Rank, b: Rank) {
    a.Known? && (b.Known? ==> a.n < b.n)
  }

  lemma RankKeyOrder(a: Rank, b: Rank)
    ensures LE(RankKey(a), RankKey(b)) <==> a == b || RankBefore(a, b)
  {
  }

  /** A dispatch key as the log gives it; an empty one is `None`. */
  type BatchKey = Option<string>

  datatype Work = Work(span: Span, key: BatchKey, dp: Rank, pp: Rank, tp: Rank)

  datatype Stage = Stage(dp: Rank, pp: Rank)

  datatype Gap = Gap(span: Span, dp: Rank, src: Rank, dst: Rank)

  datatype StageWindow = StageWindow(stage: Stage, span: Span)

  predicate WorksStamped(ws: seq<Work>) {
    forall w :: w in ws ==> Stamped(w.span)
  }

  /** `_dispatch_key_matches`: an empty key on either side matches. */
  predicate KeyMatches(key: BatchKey, other: BatchKey) {
    key.None? || other.None? || key == other
  }

  // ------------------------------------------------------- grouped intervals

  datatype Tagged<G> = Tagged(span: Span, group: G)

  ghost predicate TaggedStamped<G(!new)>(xs: seq<Tagged<G>>) {
    forall x :: x in xs ==> Stamped(x.span)
  }

  /** The instants of the window at which some interval of group `g` is recorded. */
  ghost function GroupTime<G>(xs: seq<Tagged<G>>, window: Span, g: G): set<int> {
    set t | window.lo <= t < window.hi && Holds(window, t) &&
            exists x :: x in xs && x.group == g && 0 < x.span.lo && Holds(x.span, t)
  }

  function SpansAt<G>(m: map<G, seq<Span>>, g: G): seq<Span> {
    if g in m then m[g] else []
  }

  /** `m` lists, group by group, the clipped intervals of `xs`. */
  ghost predicate Grouped<G(!new)>(xs: seq<Tagged<G>>, window: Span, m: map<G, seq<Span>>) {
    && (forall g :: g in m <==> SpansAt(m, g) != [])
    && (forall g :: Covered(SpansAt(m, g)) == GroupTime(xs, window, g))
    && (forall g, x :: x in SpansAt(m, g) ==> window.lo <= x.lo < x.hi <= window.hi && NS_FLOOR < x.lo)
  }

  lemma GroupTimeLast<G(!new)>(xs: seq<Tagged<G>>, window: Span, g: G)
    requires xs != [] && TaggedStamped(xs)
    ensures var x := xs[|xs| - 1];
      var r := ClipInterval(x.span, Some(window.lo), Some(window.hi));
      GroupTime(xs, window, g) == GroupTime(xs[..|xs| - 1], window, g) +
        if x.group == g && r.Some? then Instants(r.value.lo, r.value.hi) else {}
  {
    var x := xs[|xs| - 1];
    ClipMeaning(x.span, Some(window.lo), Some(window.hi));
    assert forall y :: y in xs <==> y in xs[..|xs| - 1] || y == x;
  }

  lemma GroupStep<G(!new)>(xs: seq<Tagged<G>>, window: Span, m: map<G, seq<Span>>, r: map<G, seq<Span>>)
    requires xs != [] && TaggedStamped(xs)
    requires Grouped(xs[..|xs| - 1], window, m)
    requires var x := xs[|xs| - 1];
      var c := ClipInterval(x.span, Some(window.lo), Some(window.hi));
      r == if c.Some? then m[x.group := SpansAt(m, x.group) + [c.value]] else m
    ensures Grouped(xs, window, r)
  {
    var x := xs[|xs| - 1];
    var c := ClipInterval(x.span, Some(window.lo), Some(window.hi));
    ClipMeaning(x.span, Some(window.lo), Some(window.hi));
    forall g
      ensures Covered(SpansAt(r, g)) == GroupTime(xs, window, g)
    {
      GroupTimeLast(xs, window, g);
      if c.Some? && g == x.group {
        CoveredSplit(SpansAt(m, g), [c.value]);
        CoveredOne(c.value);
      }
    }
  }

  method GroupSpans<G(==, !new)>(xs: seq<Tagged<G>>, window: Span) returns (m: map<G, seq<Span>>)
    requires TaggedStamped(xs)
    ensures Grouped(xs, window, m)
  {
    m := map[];
    assert Covered([]) == {};
    for i := 0 to |xs|
      invariant Grouped(xs[..i], window, m)
    {
      assert xs[..i + 1][..i] == xs[..i];
      ghost var was := m;
      var span := ClipInterval(xs[i].span, Some(window.lo), Some(window.hi));
      if span.Some? {
        m := m[xs[i].group := SpansAt(m, xs[i].group) + [span.value]];
      }
      GroupStep(xs[..i + 1], window, was, m);
    }
    assert xs[..|xs|] == xs;
  }

  /** The step executions of a dispatch, by stage. */
  function MatchedSteps(key: BatchKey, steps: seq<Work>): (r: seq<Tagged<Stage>>)
    ensures forall x :: x in r <==>
      exists w :: w in steps && KeyMatches(key, w.key) && x == Tagged(w.span, Stage(w.dp, w.pp))
  {
    if steps == [] then []
    else
      var w := steps[|steps| - 1];
      assert forall v :: v in steps <==> v in steps[..|steps| - 1] || v == w;
      MatchedSteps(key, steps[..|steps| - 1])
        + if KeyMatches(key, w.key) then [Tagged(w.span, Stage(w.dp, w.pp))] else []
  }

  /** When a stage executes for a dispatch: in step executions of its key, or where one of the two has no key. */
  lemma {:induction false} StageTimeIs(key: BatchKey, window: Span, steps: seq<Work>, st: Stage, t: int)
    ensures t in GroupTime(MatchedSteps(key, steps), window, st) <==>
      && window.lo <= t < window.hi
      && exists w :: w in steps && w.dp == st.dp && w.pp == st.pp && 0 < w.span.lo <= t < w.span.hi
                     && (key == None || w.key == None || w.key == key)
  {
    var xs := MatchedSteps(key, steps);
    if w :| w in steps && w.dp == st.dp && w.pp == st.pp && 0 < w.span.lo <= t < w.span.hi
            && (key == None || w.key == None || w.key == key) {
      assert Tagged(w.span, st) in xs && Holds(w.span, t);
    }
  }

  // ------------------------------------------------------------ stage windows

  /** `w` runs from the first to the last instant of `s`. */
  ghost predicate IsHull(w: Span, s: set<int>) {
    w.lo in s && w.hi - 1 in s && forall t :: t in s ==> Holds(w, t)
  }

  /** Every stage that executes has its window, from its first to its last executing instant. */
  ghost predicate StageWindows(key: BatchKey, window: Span, steps: seq<Work>, ws: map<Stage, Span>) {
    forall st :: if st in ws then IsHull(ws[st], GroupTime(MatchedSteps(key, steps), window, st))
                 else GroupTime(MatchedSteps(key, steps), window, st) == {}
  }

  lemma CanonicalHull(m: seq<Span>)
    requires Canonical(m) && m != []
    ensures IsHull(Span(m[0].lo, m[|m| - 1].hi), Covered(m))
  {
    assert Holds(m[0], m[0].lo) && Holds(m[|m| - 1], m[|m| - 1].hi - 1);
  }

  lemma SomethingCovered(spans: seq<Span>, merged: seq<Span>)
    requires spans != [] && spans[0].lo < spans[0].hi && Covered(merged) == Covered(spans)
    ensures merged != []
  {
    assert Holds(spans[0], spans[0].lo);
    assert spans[0].lo in Covered(merged);
  }

  method Hull(spans: seq<Span>) returns (w: Span)
    requires spans != [] && spans[0].lo < spans[0].hi
    ensures IsHull(w, Covered(spans))
  {
    var merged := MergeIntervals(spans);
    SomethingCovered(spans, merged);
    CanonicalHull(merged);
    var lo, hi := merged[0].lo, merged[0].hi;
    for i := 1 to |merged|
      invariant lo == merged[0].lo && hi == merged[i - 1].hi
    {
      lo := Min(lo, merged[i].lo);
      hi := Max(hi, merged[i].hi);
    }
    w := Span(lo, hi);
  }

  method WindowsOf(key: BatchKey, window: Span, steps: seq<Work>) returns (ws: map<Stage, Span>)
    requires WorksStamped(steps)
    ensures StageWindows(key, window, steps, ws)
  {
    var xs := MatchedSteps(key, steps);
    var spans := GroupSpans(xs, window);
    ws := map[];
    var todo := spans.Keys;
    while |todo| > 0
      invariant todo <= spans.Keys
      invariant ws.Keys == spans.Keys - todo
      invariant forall st :: st in ws ==> IsHull(ws[st], GroupTime(xs, window, st))
    {
      var st := Pick(todo);
      todo := todo - {st};
      assert spans[st] == SpansAt(spans, st);
      assert spans[st][0] in spans[st];
      var w := Hull(spans[st]);
      ws := ws[st := w];
    }
    forall st | st !in ws
      ensures GroupTime(xs, window, st) == {}
    {
      assert SpansAt(spans, st) == [];
    }
  }

  // ------------------------------------------------- gaps between the stages

  /** `g` lies between two windows of one dp rank with no rank of that dp in between. */
  ghost predicate IsGap(ws: map<Stage, Span>, g: Gap) {
    var src, dst := Stage(g.dp, g.src), Stage(g.dp, g.dst);
    && src in ws && dst in ws && RankBefore(g.src, g.dst)
    && (forall st :: st in ws && st.dp == g.dp ==> !(RankBefore(g.src, st.pp) && RankBefore(st.pp, g.dst)))
    && g.span == Span(ws[src].hi, ws[dst].lo) && g.span.lo < g.span.hi
  }

  ghost predicate ListsDp(ws: map<Stage, Span>, dp: Rank, list: seq<StageWindow>) {
    && NoRepeat(list)
    && forall x :: x in list <==> x.stage in ws && x.stage.dp == dp && x.span == ws[x.stage]
  }

  function ListAt(m: map<Rank, seq<StageWindow>>, dp: Rank): seq<StageWindow> {
    if dp in m then m[dp] else []
  }

  method ByDp(ws: map<Stage, Span>) returns (m: map<Rank, seq<StageWindow>>)
    ensures forall dp :: ListsDp(ws, dp, ListAt(m, dp))
  {
    m := map[];
    var todo := ws.Keys;
    while |todo| > 0
      invariant todo <= ws.Keys
      invariant forall dp :: ListsDp(ws - todo, dp, ListAt(m, dp))
    {
      var st := Pick(todo);
      var x := StageWindow(st, ws[st]);
      assert ListsDp(ws - todo, st.dp, ListAt(m, st.dp));
      NoRepeatAppend(ListAt(m, st.dp), x);
      ghost var before, was := ws - todo, m;
      todo := todo - {st};
      m := m[st.dp := ListAt(m, st.dp) + [x]];
      forall dp
        ensures ListsDp(ws - todo, dp, ListAt(m, dp))
      {
        assert ListsDp(before, dp, ListAt(was, dp));
        assert (ws - todo).Keys == before.Keys + {st};
      }
    }
    assert ws - todo == ws;
  }

  function StageWindowKey(w: StageWindow): Key {
    RankKey(w.stage.pp)
  }

  /** The gap between two neighbours of a sorted list, if there is one. */
  function GapBetween(p: StageWindow, q: StageWindow): seq<Gap> {
    if q.span.lo <= p.span.hi then []
    else [Gap(Span(p.span.hi, q.span.lo), p.stage.dp, p.stage.pp, q.stage.pp)]
  }

  ghost function GapsOf(list: seq<StageWindow>): seq<Gap> {
    var n := |list|;
    if n < 2 then [] else GapsOf(list[..n - 1]) + GapBetween(list[n - 2], list[n - 1])
  }

  lemma {:induction false} GapsOfMeaning(list: seq<StageWindow>, g: Gap)
    ensures g in GapsOf(list) <==> exists i :: 0 <= i < |list| - 1 && g in GapBetween(list[i], list[i + 1])
  {
    var n := |list|;
    if n >= 2 {
      var front := list[..n - 1];
      GapsOfMeaning(front, g);
      if i :| 0 <= i < n - 1 && g in GapBetween(list[i], list[i + 1]) {
        assert i < n - 2 ==> front[i] == list[i] && front[i + 1] == list[i + 1];
      }
      if i :| 0 <= i < |front| - 1 && g in GapBetween(front[i], front[i + 1]) {
        assert front[i] == list[i] && front[i + 1] == list[i + 1];
      }
    }
  }

  lemma {:induction false} GapsOfApart(list: seq<StageWindow>, dp: Rank)
    requires NoRepeat(list) && SortedBy(list, StageWindowKey)
    requires forall x, y :: x in list && y in list && x.stage == y.stage ==> x == y
    requires forall x :: x in list ==> x.stage.dp == dp
    ensures NoRepeat(GapsOf(list))
    ensures forall g :: g in GapsOf(list) ==> exists i :: 0 <= i < |list| && list[i].stage == Stage(dp, g.dst)
  {
    var n := |list|;
    if n >= 2 {
      var front := list[..n - 1];
      NoRepeatFront(list);
      GapsOfApart(front, dp);
      var more := GapBetween(list[n - 2], list[n - 1]);
      forall g | g in more
        ensures g !in GapsOf(front)
      {
        if g in GapsOf(front) {
          var i :| 0 <= i < n - 1 && front[i].stage == Stage(dp, g.dst);
          assert list[i] in list && list[n - 1] in list;
          NoRepeatApart(list, i, n - 1);
        }
      }
      if more != [] {
        NoRepeatAppend(GapsOf(front), more[0]);
      }
      forall g | g in GapsOf(list)
        ensures exists i :: 0 <= i < n && list[i].stage == Stage(dp, g.dst)
      {
        if g in GapsOf(front) {
          var i :| 0 <= i < n - 1 && front[i].stage == Stage(dp, g.dst);
          assert list[i].stage == Stage(dp, g.dst);
        } else {
          assert list[n - 1].stage == Stage(dp, g.dst);
        }
      }
    }
  }

  /** Neighbours in the sorted list of a dp rank are neighbours in rank order, and conversely. */
  lemma {:induction false} DpGaps(ws: map<Stage, Span>, dp: Rank, list: seq<StageWindow>)
    requires ListsDp(ws, dp, list) && SortedBy(list, StageWindowKey)
    ensures NoRepeat(GapsOf(list))
    ensures forall g :: g in GapsOf(list) <==> IsGap(ws, g) && g.dp == dp
  {
    GapsOfApart(list, dp);
    forall g
      ensures g in GapsOf(list) <==> IsGap(ws, g) && g.dp == dp
    {
      GapsOfMeaning(list, g);
      if IsGap(ws, g) && g.dp == dp {
        var i := Neighbours(ws, dp, list, g);
        assert g in GapBetween(list[i], list[i + 1]);
      } else if i :| 0 <= i < |list| - 1 && g in GapBetween(list[i], list[i + 1]) {
        NeighboursAreGap(ws, dp, list, i, g);
      }
    }
  }

  lemma StrictRanks(ws: map<Stage, Span>, dp: Rank, list: seq<StageWindow>, i: nat, j: nat)
    requires ListsDp(ws, dp, list) && SortedBy(list, StageWindowKey) && i < j < |list|
    ensures RankBefore(list[i].stage.pp, list[j].stage.pp)
  {
    NoRepeatApart(list, i, j);
    assert list[i] in list && list[j] in list;
    assert LE(StageWindowKey(list[i]), StageWindowKey(list[j]));
    RankKeyOrder(list[i].stage.pp, list[j].stage.pp);
  }

  lemma NeighboursAreGap(ws: map<Stage, Span>, dp: Rank, list: seq<StageWindow>, i: nat, g: Gap)
    requires ListsDp(ws, dp, list) && SortedBy(list, StageWindowKey)
    requires i + 1 < |list| && g in GapBetween(list[i], list[i + 1])
    ensures IsGap(ws, g) && g.dp == dp
  {
    assert list[i] in list && list[i + 1] in list;
    StrictRanks(ws, dp, list, i, i + 1);
    forall st | st in ws && st.dp == dp
      ensures !(RankBefore(g.src, st.pp) && RankBefore(st.pp, g.dst))
    {
      assert StageWindow(st, ws[st]) in list;
      var k :| 0 <= k < |list| && list[k] == StageWindow(st, ws[st]);
      if k < i {
        StrictRanks(ws, dp, list, k, i);
      } else if k > i + 1 {
        StrictRanks(ws, dp, list, i + 1, k);
      }
    }
  }

  lemma Neighbours(ws: map<Stage, Span>, dp: Rank, list: seq<StageWindow>, g: Gap) returns (i: nat)
    requires ListsDp(ws, dp, list) && SortedBy(list, StageWindowKey)
    requires IsGap(ws, g) && g.dp == dp
    ensures i + 1 < |list| && g in GapBetween(list[i], list[i + 1])
  {
    var src, dst := Stage(dp, g.src), Stage(dp, g.dst);
    assert StageWindow(src, ws[src]) in list && StageWindow(dst, ws[dst]) in list;
    i :| 0 <= i < |list| && list[i] == StageWindow(src, ws[src]);
    var j :| 0 <= j < |list| && list[j] == StageWindow(dst, ws[dst]);
    InRankOrder(ws, dp, list, i, j);
    if i + 1 < j {
      assert list[i + 1] in list;
      StrictRanks(ws, dp, list, i, i + 1);
      StrictRanks(ws, dp, list, i + 1, j);
    }
  }

  lemma InRankOrder(ws: map<Stage, Span>, dp: Rank, list: seq<StageWindow>, i: nat, j: nat)
    requires ListsDp(ws, dp, list) && SortedBy(list, StageWindowKey) && i < |list| && j < |list|
    requires RankBefore(list[i].stage.pp, list[j].stage.pp)
    ensures i < j
  {
    if j < i {
      StrictRanks(ws, dp, list, j, i);
    }
  }

  method NeighbourGaps(list: seq<StageWindow>) returns (gaps: seq<Gap>)
    ensures gaps == GapsOf(list)
  {
    gaps := [];
    var i := 0;
    while i + 1 < |list|
      invariant i <= |list| && (list != [] ==> i < |list| && gaps == GapsOf(list[..i + 1]))
      invariant list == [] ==> gaps == []
    {
      assert list[..i + 2][..i + 1] == list[..i + 1];
      gaps := gaps + GapBetween(list[i], list[i + 1]);
      i := i + 1;
    }
    assert list[..|list|] == list;
  }

  /** The gap intervals of one dispatch: exactly the gaps between neighbouring stages, each once. */
  method FindGaps(ws: map<Stage, Span>) returns (gaps: seq<Gap>)
    ensures forall g :: g in gaps <==> IsGap(ws, g)
    ensures NoRepeat(gaps)
  {
    gaps := [];
    var byDp := ByDp(ws);
    var todo := byDp.Keys;
    while |todo| > 0
      invariant todo <= byDp.Keys
      invariant NoRepeat(gaps)
      invariant forall g :: g in gaps <==> IsGap(ws, g) && g.dp in byDp.Keys - todo
    {
      var dp := Pick(todo);
      todo := todo - {dp};
      assert byDp[dp] == ListAt(byDp, dp);
      var list := SortBy(byDp[dp], StageWindowKey);
      SameElements(byDp[dp], StageWindowKey);
      DpGaps(ws, dp, list);
      var more := NeighbourGaps(list);
      NoRepeatJoin(gaps, more);
      gaps := gaps + more;
    }
    forall g | IsGap(ws, g)
      ensures g.dp in byDp
    {
      assert ListsDp(ws, g.dp, ListAt(byDp, g.dp));
      assert StageWindow(Stage(g.dp, g.src), ws[Stage(g.dp, g.src)]) in ListAt(byDp, g.dp);
    }
  }

  // ------------------------------------------------------- what gaps are like

  /** `gaps` has one from rank `src` to rank `dst` of the dp rank. */
  ghost predicate HasEdge(gaps: seq<Gap>, dp: Rank, src: Rank, dst: Rank) {
    exists g :: g in gaps && g.dp == dp && g.src == src && g.dst == dst
  }

  /** Both stages execute, and the first has ended when the second starts. */
  ghost predicate EndsBefore(ws: map<Stage, Span>, src: Stage, dst: Stage) {
    src in ws && dst in ws && ws[src].hi < ws[dst].lo
  }

  /** Between known ranks `m` and `n` there is a gap exactly when `m` is the smaller number, no rank of the dp rank
      lies strictly between, and the window of `n` starts after that of `m` has ended. */
  lemma KnownEdge(ws: map<Stage, Span>, gaps: seq<Gap>, dp: Rank, m: int, n: int)
    requires forall g :: g in gaps <==> IsGap(ws, g)
    ensures HasEdge(gaps, dp, Known(m), Known(n)) <==>
      var src, dst := Stage(dp, Known(m)), Stage(dp, Known(n));
      m < n && (forall k :: m < k < n ==> Stage(dp, Known(k)) !in ws) && EndsBefore(ws, src, dst)
  {
    var src, dst := Stage(dp, Known(m)), Stage(dp, Known(n));
    if m < n && (forall k :: m < k < n ==> Stage(dp, Known(k)) !in ws) && EndsBefore(ws, src, dst) {
      var g := Gap(Span(ws[src].hi, ws[dst].lo), dp, Known(m), Known(n));
      forall st | st in ws && st.dp == dp
        ensures !(RankBefore(g.src, st.pp) && RankBefore(st.pp, g.dst))
      {
        assert st == Stage(dp, st.pp);
      }
      assert IsGap(ws, g);
    } else if HasEdge(gaps, dp, Known(m), Known(n)) {
      var g :| g in gaps && g.dp == dp && g.src == Known(m) && g.dst == Known(n);
      var k :| m < k < n && Stage(dp, Known(k)) in ws;
      assert RankBefore(Known(m), Known(k)) && RankBefore(Known(k), Known(n));
    }
  }

  /** The unknown rank comes last: the gap to it starts at the largest known one, and none starts at it. */
  lemma UnknownEdge(ws: map<Stage, Span>, gaps: seq<Gap>, dp: Rank, m: int, r: Rank)
    requires forall g :: g in gaps <==> IsGap(ws, g)
    ensures HasEdge(gaps, dp, Known(m), Unknown) <==>
      var src, dst := Stage(dp, Known(m)), Stage(dp, Unknown);
      (forall k :: m < k ==> Stage(dp, Known(k)) !in ws) && EndsBefore(ws, src, dst)
    ensures !HasEdge(gaps, dp, Unknown, r)
  {
    var src, dst := Stage(dp, Known(m)), Stage(dp, Unknown);
    if (forall k :: m < k ==> Stage(dp, Known(k)) !in ws) && EndsBefore(ws, src, dst) {
      var g := Gap(Span(ws[src].hi, ws[dst].lo), dp, Known(m), Unknown);
      forall st | st in ws && st.dp == dp
        ensures !(RankBefore(g.src, st.pp) && RankBefore(st.pp, g.dst))
      {
        assert st == Stage(dp, st.pp);
      }
      assert IsGap(ws, g);
    } else if HasEdge(gaps, dp, Known(m), Unknown) {
      var g :| g in gaps && g.dp == dp && g.src == Known(m) && g.dst == Unknown;
      var k :| m < k && Stage(dp, Known(k)) in ws;
      assert RankBefore(Known(m), Known(k)) && RankBefore(Known(k), Unknown);
    }
  }

  function GapSpans(gaps: seq<Gap>): (r: seq<Span>)
    ensures |r| == |gaps| && forall i :: 0 <= i < |r| ==> r[i] == gaps[i].span
  {
    seq(|gaps|, i requires 0 <= i < |gaps| => gaps[i].span)
  }

  lemma GapSpansCover(gaps: seq<Gap>, t: int)
    ensures t in Covered(GapSpans(gaps)) <==> exists g :: g in gaps && Holds(g.span, t)
  {
    var spans := GapSpans(gaps);
    if g :| g in gaps && Holds(g.span, t) {
      var i :| 0 <= i < |gaps| && gaps[i] == g;
      assert spans[i] in spans;
    }
    if t in Covered(spans) {
      var i :| 0 <= i < |spans| && Holds(spans[i], t);
      assert gaps[i] in gaps;
    }
  }

  lemma GapsInside(key: BatchKey, window: Span, steps: seq<Work>, ws: map<Stage, Span>, g: Gap)
    requires StageWindows(key, window, steps, ws) && IsGap(ws, g)
    ensures window.lo < g.span.lo < g.span.hi < window.hi
  {
    var xs := MatchedSteps(key, steps);
    assert IsHull(ws[Stage(g.dp, g.src)], GroupTime(xs, window, Stage(g.dp, g.src)));
    assert IsHull(ws[Stage(g.dp, g.dst)], GroupTime(xs, window, Stage(g.dp, g.dst)));
  }

  /** One dp rank, non-empty windows, and starts that follow the rank order. */
  ghost predicate InRankOrderStarts(ws: map<Stage, Span>) {
    && (forall a, b :: a in ws && b in ws ==> a.dp == b.dp)
    && (forall a :: a in ws ==> ws[a].lo < ws[a].hi)
    && (forall a, b :: a in ws && b in ws && RankBefore(a.pp, b.pp) ==> ws[a].lo <= ws[b].lo)
  }

  lemma GapsApart(ws: map<Stage, Span>, g: Gap, h: Gap, t: int)
    requires InRankOrderStarts(ws) && IsGap(ws, g) && IsGap(ws, h) && g != h
    requires RankBefore(g.dst, h.dst) || g.dst == h.dst
    requires Holds(g.span, t)
    ensures !Holds(h.span, t)
  {
    var gd, hs := Stage(g.dp, g.dst), Stage(h.dp, h.src);
    assert g.dp == h.dp;
    assert !(RankBefore(g.src, h.src) && RankBefore(h.src, g.dst));
    assert !(RankBefore(h.src, g.dst) && RankBefore(g.dst, h.dst));
    assert !(RankBefore(h.src, g.src) && RankBefore(g.src, h.dst));
    assert g.dst == h.src || RankBefore(g.dst, h.src);
    assert ws[gd].lo <= ws[hs].lo;
  }

  /** For one dp rank whose windows start in rank order, no instant lies in two gaps. */
  lemma OrderedGapsDisjoint(ws: map<Stage, Span>, gaps: seq<Gap>)
    requires InRankOrderStarts(ws) && NoRepeat(gaps) && forall g :: g in gaps ==> IsGap(ws, g)
    ensures Disjoint(GapSpans(gaps)) && SumLengths(GapSpans(gaps)) == |Covered(GapSpans(gaps))|
  {
    var xs := GapSpans(gaps);
    forall i, j, t | 0 <= i < j < |xs| && Holds(xs[i], t)
      ensures !Holds(xs[j], t)
    {
      NoRepeatApart(gaps, i, j);
      var g, h := gaps[i], gaps[j];
      if RankBefore(g.dst, h.dst) || g.dst == h.dst {
        GapsApart(ws, g, h, t);
      } else if Holds(h.span, t) {
        GapsApart(ws, h, g, t);
      }
    }
    SumAndMeasure(xs);
  }
}
