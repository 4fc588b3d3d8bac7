/** Run-queue waits clipped to a window, thread by thread, and their annotated merge. */
module OsWaits {
  import opened Sets
  import opened Spans
  import opened Sorting
  import opened Intervals

  /** A run-queue wait of one thread. A zero field reads as missing. */
  datatype Wait = Wait(tid: int, span: Span, reason: Option<nat>)

  predicate KeptWait(w: Wait) {
    w.tid != 0 && w.span.lo != 0 && w.span.hi != 0
  }

  // ------------------------------------------------------- per-thread scan

  datatype Raw = Raw(span: Span, tid: int, dp: Option<int>, reason: Option<nat>)

  function RawSpans(raws: seq<Raw>): (r: seq<Span>)
    ensures |r| == |raws| && forall i :: 0 <= i < |r| ==> r[i] == raws[i].span
  {
    seq(|raws|, i requires 0 <= i < |raws| => raws[i].span)
  }

  function WaitKey(w: Wait): Key {
    Key(w.span.lo, 0, 0)
  }

  /** The overlap of a wait with a window, if they meet. */
  function Overlap(window: Span, w: Wait, dp: Option<int>): seq<Raw> {
    var lo, hi := Max(window.lo, w.span.lo), Min(window.hi, w.span.hi);
    if hi > lo then [Raw(Span(lo, hi), w.tid, dp, w.reason)] else []
  }

  ghost function Overlaps(window: Span, waits: seq<Wait>, dp: Option<int>): seq<Raw> {
    if waits == [] then [] else Overlaps(window, waits[..|waits| - 1], dp) + Overlap(window, waits[|waits| - 1], dp)
  }

  lemma {:induction false} NoMoreOverlaps(window: Span, waits: seq<Wait>, dp: Option<int>, i: nat)
    requires i <= |waits| && forall j :: i <= j < |waits| ==> window.hi <= waits[j].span.lo
    ensures Overlaps(window, waits, dp) == Overlaps(window, waits[..i], dp)
  {
    if i == |waits| {
      assert waits[..i] == waits;
    } else {
      var n := |waits| - 1;
      NoMoreOverlaps(window, waits[..n], dp, i);
      assert waits[..n][..i] == waits[..i];
    }
  }

  /** The scan of one thread's waits: stopping at the first wait past the window loses nothing. */
  method ScanThread(window: Span, waits: seq<Wait>, dp: Option<int>) returns (raws: seq<Raw>)
    requires SortedBy(waits, WaitKey)
    ensures raws == Overlaps(window, waits, dp)
  {
    raws := [];
    for i := 0 to |waits|
      invariant raws == Overlaps(window, waits[..i], dp)
    {
      assert waits[..i + 1][..i] == waits[..i];
      var w := waits[i];
      if w.span.lo >= window.hi {
        forall j | i <= j < |waits|
          ensures window.hi <= waits[j].span.lo
        {
          assert i < j ==> LE(WaitKey(w), WaitKey(waits[j]));
        }
        NoMoreOverlaps(window, waits, dp, i);
        return;
      }
      if w.span.hi <= window.lo {
        continue;
      }
      var lo, hi := Max(window.lo, w.span.lo), Min(window.hi, w.span.hi);
      if hi > lo {
        raws := raws + [Raw(Span(lo, hi), w.tid, dp, w.reason)];
      }
    }
    assert waits[..|waits|] == waits;
  }

  lemma {:induction false} OverlapsMeaning(window: Span, waits: seq<Wait>, dp: Option<int>, r: Raw)
    ensures r in Overlaps(window, waits, dp) <==> exists w :: w in waits && r in Overlap(window, w, dp)
  {
    if waits != [] {
      OverlapsMeaning(window, waits[..|waits| - 1], dp, r);
      assert forall w :: w in waits <==> w in waits[..|waits| - 1] || w == waits[|waits| - 1];
    }
  }

  // ------------------------------------------------------------ annotated merge

  /** A merged block of delay with the workers, dp ranks and reasons it comes from. */
  datatype Block = Block(span: Span, tids: set<int>, dps: set<int>, reasons: set<nat>)

  /** The non-empty raw intervals that start inside `s`. */
  ghost function Inside(raws: seq<Raw>, s: Span): set<Raw> {
    set r | r in raws && r.span.lo < r.span.hi && Holds(s, r.span.lo)
  }

  ghost function BlockFor(raws: seq<Raw>, s: Span): Block {
    var rs := Inside(raws, s);
    Block(s, set r | r in rs :: r.tid, set r | r in rs && r.dp.Some? :: r.dp.value,
          set r | r in rs && r.reason.Some? :: r.reason.value)
  }

  /** Adds one raw interval's labels to a block. */
  function Label(b: Block, r: Raw): Block {
    Block(b.span, b.tids + {r.tid}, if r.dp.Some? then b.dps + {r.dp.value} else b.dps,
          if r.reason.Some? then b.reasons + {r.reason.value} else b.reasons)
  }

  ghost predicate BlocksFor(raws: seq<Raw>, spans: seq<Span>, blocks: seq<Block>) {
    |blocks| == |spans| && forall k :: 0 <= k < |blocks| ==> blocks[k] == BlockFor(raws, spans[k])
  }

  function RawKey(r: Raw): Key {
    SpanKey(r.span)
  }

  lemma BlockAdd(raws: seq<Raw>, r: Raw, s: Span)
    requires r.span.lo < r.span.hi
    ensures BlockFor(raws + [r], s) == if Holds(s, r.span.lo) then Label(BlockFor(raws, s), r) else BlockFor(raws, s)
  {
    assert Inside(raws + [r], s) == Inside(raws, s) + if Holds(s, r.span.lo) then {r} else {};
    var old', new' := BlockFor(raws, s), BlockFor(raws + [r], s);
    if Holds(s, r.span.lo) {
      assert new'.tids == old'.tids + {r.tid};
    }
  }

  lemma BlockSkip(raws: seq<Raw>, r: Raw, s: Span)
    requires r.span.hi <= r.span.lo
    ensures BlockFor(raws + [r], s) == BlockFor(raws, s)
  {
    assert Inside(raws + [r], s) == Inside(raws, s);
  }

  lemma BlockWiden(raws: seq<Raw>, s: Span, w: Span)
    requires forall r :: r in raws && r.span.lo < r.span.hi ==> (Holds(s, r.span.lo) <==> Holds(w, r.span.lo))
    ensures BlockFor(raws, w) == BlockFor(raws, s).(span := w)
  {
    assert Inside(raws, w) == Inside(raws, s);
  }

  /** The merge's state after the sorted raw intervals `raws`. */
  ghost predicate MergedRaws(raws: seq<Raw>, blocks: seq<Block>) {
    BlocksFor(raws, Merging(RawSpans(raws)), blocks)
  }

  lemma StartsCovered(raws: seq<Raw>, spans: seq<Span>, r: Raw)
    requires r in raws && r.span.lo < r.span.hi && Covered(spans) == Covered(RawSpans(raws))
    ensures r.span.lo in Covered(spans)
  {
    var i :| 0 <= i < |raws| && raws[i] == r;
    assert RawSpans(raws)[i] in RawSpans(raws);
    assert Holds(r.span, r.span.lo);
  }

  /** The blocks after one more raw interval. */
  function AddRaw(blocks: seq<Block>, r: Raw): seq<Block> {
    var n := |blocks|;
    if r.span.hi <= r.span.lo then blocks
    else if n == 0 || r.span.lo > blocks[n - 1].span.hi then blocks + [Label(Block(r.span, {}, {}, {}), r)]
    else
      var b := blocks[n - 1];
      blocks[..n - 1] + [Label(b.(span := Span(b.span.lo, Max(b.span.hi, r.span.hi))), r)]
  }

  lemma SkipRaw(raws: seq<Raw>, m: seq<Span>, blocks: seq<Block>, r: Raw)
    requires BlocksFor(raws, m, blocks) && r.span.hi <= r.span.lo
    ensures BlocksFor(raws + [r], m, blocks)
  {
    forall k | 0 <= k < |m|
      ensures blocks[k] == BlockFor(raws + [r], m[k])
    {
      BlockSkip(raws, r, m[k]);
    }
  }

  lemma PlaceRaw(raws: seq<Raw>, m: seq<Span>, blocks: seq<Block>, r: Raw)
    requires MergedTo(m, RawSpans(raws)) && BlocksFor(raws, m, blocks) && r.span.lo < r.span.hi
    requires m != [] ==> m[|m| - 1].lo <= r.span.lo
    ensures BlocksFor(raws + [r], Absorb(m, r.span), AddRaw(blocks, r))
  {
    var m', next := Absorb(m, r.span), AddRaw(blocks, r);
    LastBlock(raws, m, blocks, r);
    forall k | 0 <= k < |m'| - 1
      ensures next[k] == BlockFor(raws + [r], m'[k])
    {
      BlockAdd(raws, r, m[k]);
      BeforeLast(m, r, k);
    }
  }

  lemma MergeRaw(raws: seq<Raw>, blocks: seq<Block>, r: Raw)
    requires SortedBy(RawSpans(raws), SpanKey) && MergedRaws(raws, blocks)
    requires raws != [] ==> raws[|raws| - 1].span.lo <= r.span.lo
    ensures MergedRaws(raws + [r], AddRaw(blocks, r))
  {
    var m := Merging(RawSpans(raws));
    assert RawSpans(raws + [r])[..|raws|] == RawSpans(raws);
    assert Merging(RawSpans(raws + [r])) == Absorb(m, r.span);
    MergingMeaning(RawSpans(raws));
    if r.span.hi <= r.span.lo {
      SkipRaw(raws, m, blocks, r);
    } else {
      PlaceRaw(raws, m, blocks, r);
    }
  }

  lemma BeforeLast(m: seq<Span>, r: Raw, k: nat)
    requires Canonical(m) && k < |m| && (m[|m| - 1].lo <= r.span.lo)
    requires !(k == |m| - 1 && r.span.lo <= m[|m| - 1].hi)
    ensures !Holds(m[k], r.span.lo)
  {
  }

  lemma LastBlock(raws: seq<Raw>, m: seq<Span>, blocks: seq<Block>, r: Raw)
    requires MergedTo(m, RawSpans(raws)) && BlocksFor(raws, m, blocks) && r.span.lo < r.span.hi
    requires m != [] ==> m[|m| - 1].lo <= r.span.lo
    ensures var m', next := Absorb(m, r.span), AddRaw(blocks, r);
      |next| == |m'| && next[|next| - 1] == BlockFor(raws + [r], m'[|m'| - 1])
  {
    var n := |m|;
    if n == 0 || r.span.lo > m[n - 1].hi {
      BlockAdd(raws, r, r.span);
      forall q | q in raws && q.span.lo < q.span.hi
        ensures !Holds(r.span, q.span.lo)
      {
        StartsCovered(raws, m, q);
        var i :| 0 <= i < n && Holds(m[i], q.span.lo);
        assert i < n - 1 ==> m[i].hi < m[n - 1].lo;
      }
      assert Inside(raws, r.span) == {};
    } else {
      var w := Span(m[n - 1].lo, Max(m[n - 1].hi, r.span.hi));
      forall q | q in raws && q.span.lo < q.span.hi
        ensures Holds(m[n - 1], q.span.lo) <==> Holds(w, q.span.lo)
      {
        StartsCovered(raws, m, q);
        var i :| 0 <= i < n && Holds(m[i], q.span.lo);
        assert i < n - 1 ==> m[i].hi < m[n - 1].lo;
      }
      BlockWiden(raws, m[n - 1], w);
      BlockAdd(raws, r, w);
    }
  }

  function BlockSpans(blocks: seq<Block>): (r: seq<Span>)
    ensures |r| == |blocks| && forall i :: 0 <= i < |r| ==> r[i] == blocks[i].span
  {
    seq(|blocks|, i requires 0 <= i < |blocks| => blocks[i].span)
  }

  lemma SortedSpans(raws: seq<Raw>, i: nat)
    requires SortedBy(raws, RawKey) && i <= |raws|
    ensures SortedBy(RawSpans(raws[..i]), SpanKey)
    ensures 0 < i < |raws| ==> raws[i - 1].span.lo <= raws[i].span.lo
  {
    forall a, b | 0 <= a < b < i
      ensures LE(SpanKey(RawSpans(raws[..i])[a]), SpanKey(RawSpans(raws[..i])[b]))
    {
      assert LE(RawKey(raws[a]), RawKey(raws[b]));
    }
    assert 0 < i < |raws| ==> LE(RawKey(raws[i - 1]), RawKey(raws[i]));
  }

  /** The per-request merge and its total. */
  method MergeRaws(raws: seq<Raw>) returns (total: int, blocks: seq<Block>)
    ensures Canonical(BlockSpans(blocks)) && Covered(BlockSpans(blocks)) == Covered(RawSpans(raws))
    ensures total == |Covered(RawSpans(raws))|
    ensures forall b :: b in blocks ==> b == BlockFor(raws, b.span)
  {
    var ordered := SortBy(raws, RawKey);
    blocks := [];
    for i := 0 to |ordered|
      invariant MergedRaws(ordered[..i], blocks)
    {
      SortedSpans(ordered, i);
      MergeRaw(ordered[..i], blocks, ordered[i]);
      assert ordered[..i + 1] == ordered[..i] + [ordered[i]];
      blocks := AddRaw(blocks, ordered[i]);
    }
    assert ordered[..|ordered|] == ordered;
    SortedSpans(ordered, |ordered|);
    SameElements(raws, RawKey);
    MergedMeaning(raws, ordered, blocks);
    total := SumBlocks(blocks);
  }

  method SumBlocks(blocks: seq<Block>) returns (total: int)
    requires forall b :: b in blocks ==> b.span.lo < b.span.hi
    ensures total == SumLengths(BlockSpans(blocks))
  {
    total := 0;
    for i := 0 to |blocks|
      invariant total == SumLengths(BlockSpans(blocks)[..i])
    {
      assert BlockSpans(blocks)[..i + 1][..i] == BlockSpans(blocks)[..i];
      assert blocks[i] in blocks;
      total := total + blocks[i].span.hi - blocks[i].span.lo;
    }
    assert BlockSpans(blocks)[..|blocks|] == BlockSpans(blocks);
  }

  lemma MergedMeaning(raws: seq<Raw>, ordered: seq<Raw>, blocks: seq<Block>)
    requires (forall r :: r in ordered <==> r in raws) && SortedBy(RawSpans(ordered), SpanKey) &&
      MergedRaws(ordered, blocks)
    ensures Canonical(BlockSpans(blocks)) && Covered(BlockSpans(blocks)) == Covered(RawSpans(raws))
    ensures SumLengths(BlockSpans(blocks)) == |Covered(RawSpans(raws))|
    ensures forall b :: b in blocks ==> b == BlockFor(raws, b.span) && b.span.lo < b.span.hi
  {
    MergingMeaning(RawSpans(ordered));
    assert BlockSpans(blocks) == Merging(RawSpans(ordered));
    RawsCovered(ordered, raws);
    RawsCovered(raws, ordered);
    CanonicalDisjoint(BlockSpans(blocks));
    forall i | 0 <= i < |blocks|
      ensures blocks[i] == BlockFor(raws, blocks[i].span) && blocks[i].span.lo < blocks[i].span.hi
    {
      var b := blocks[i];
      assert BlockSpans(blocks)[i] == b.span;
      assert Inside(raws, b.span) == Inside(ordered, b.span);
    }
  }

  lemma RawsCovered(a: seq<Raw>, b: seq<Raw>)
    requires forall r :: r in a ==> r in b
    ensures Covered(RawSpans(a)) <= Covered(RawSpans(b))
  {
    forall s | s in RawSpans(a)
      ensures s in RawSpans(b)
    {
      var i :| 0 <= i < |a| && a[i].span == s;
      assert a[i] in a;
      var j :| 0 <= j < |b| && b[j] == a[i];
      assert RawSpans(b)[j] == s;
    }
  }
}
