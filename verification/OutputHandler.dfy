/** Attribution of scheduler waits to the requests an output-handler round has not processed yet. */
module OutputHandler {
  import opened Spans
  import opened Intervals

  type Rid = string

  /** An engine output; one without a request id is `None`. */
  type Output = Option<Rid>

  // ------------------------------------------------------- first occurrences

  /** The ids of `xs` in order of their first occurrence. */
  ghost function Firsts(xs: seq<Output>): seq<Rid> {
    if xs == [] then []
    else
      var r, x := Firsts(xs[..|xs| - 1]), xs[|xs| - 1];
      if x.Some? && x.value !in r then r + [x.value] else r
  }

  function Somes(ids: seq<Rid>): (r: seq<Output>)
    ensures |r| == |ids| && forall i :: 0 <= i < |r| ==> r[i] == Some(ids[i])
  {
    seq(|ids|, i requires 0 <= i < |ids| => Some(ids[i]))
  }

  /** `ids` without the elements of `seen`. */
  ghost function Without(ids: seq<Rid>, seen: seq<Rid>): seq<Rid> {
    if ids == [] then []
    else
      var r, x := Without(ids[..|ids| - 1], seen), ids[|ids| - 1];
      if x in seen then r else r + [x]
  }

  ghost predicate Distinct(ids: seq<Rid>) {
    forall i, j :: 0 <= i < j < |ids| ==> ids[i] != ids[j]
  }

  lemma {:induction false} FirstsAre(xs: seq<Output>)
    ensures forall id :: id in Firsts(xs) <==> Some(id) in xs
    ensures Distinct(Firsts(xs))
  {
    if xs != [] {
      FirstsAre(xs[..|xs| - 1]);
      assert forall x :: x in xs <==> x in xs[..|xs| - 1] || x == xs[|xs| - 1];
    }
  }

  lemma {:induction false} WithoutAre(ids: seq<Rid>, seen: seq<Rid>)
    ensures forall id :: id in Without(ids, seen) <==> id in ids && id !in seen
  {
    if ids != [] {
      WithoutAre(ids[..|ids| - 1], seen);
      assert forall x :: x in ids <==> x in ids[..|ids| - 1] || x == ids[|ids| - 1];
    }
  }

  /** First occurrences of a concatenation: those of the front, then the new ones of the back. */
  lemma {:induction false} FirstsConcat(xs: seq<Output>, ys: seq<Output>)
    ensures Firsts(xs + ys) == Firsts(xs) + Without(Firsts(ys), Firsts(xs))
  {
    if ys == [] {
      assert xs + ys == xs;
    } else {
      var n := |ys| - 1;
      assert (xs + ys)[..|xs| + n] == xs + ys[..n];
      FirstsConcat(xs, ys[..n]);
      ConcatLast(Firsts(xs), Firsts(ys[..n]), ys[n]);
    }
  }

  /** One more id after the concatenation. */
  lemma ConcatLast(a: seq<Rid>, b: seq<Rid>, y: Output)
    ensures var whole, back := a + Without(b, a), if y.Some? && y.value !in b then b + [y.value] else b;
      (if y.Some? && y.value !in whole then whole + [y.value] else whole) == a + Without(back, a)
  {
    WithoutAre(b, a);
    if y.Some? && y.value !in b {
      assert (b + [y.value])[..|b|] == b;
    }
  }

  lemma DistinctFirsts(ids: seq<Rid>)
    requires Distinct(ids)
    ensures Firsts(Somes(ids)) == ids
  {
    if ids != [] {
      var n := |ids| - 1;
      assert Somes(ids)[..n] == Somes(ids[..n]);
      DistinctFirsts(ids[..n]);
    }
  }

  /** `_dedupe_req_ids` and the extraction of ids from outputs: one pass with a set of seen ids. */
  method DedupeReqIds(xs: seq<Output>) returns (ids: seq<Rid>)
    ensures ids == Firsts(xs)
  {
    ids := [];
    var seen: set<Rid> := {};
    for i := 0 to |xs|
      invariant ids == Firsts(xs[..i]) && forall id :: id in seen <==> id in ids
    {
      assert xs[..i + 1][..i] == xs[..i];
      if xs[i].None? || xs[i].value in seen {
        continue;
      }
      seen := seen + {xs[i].value};
      ids := ids + [xs[i].value];
    }
    assert xs[..|xs|] == xs;
  }

  // ---------------------------------------------------------------- slices

  ghost function Flatten(slices: seq<seq<Output>>): seq<Output> {
    if slices == [] then [] else slices[0] + Flatten(slices[1..])
  }

  lemma {:induction false} FlattenSnoc(slices: seq<seq<Output>>, s: seq<Output>)
    ensures Flatten(slices + [s]) == Flatten(slices) + s
  {
    if slices == [] {
      assert [s][1..] == [];
      assert Flatten([s]) == s + Flatten([]);
    } else {
      FlattenSnoc(slices[1..], s);
      assert (slices + [s])[1..] == slices[1..] + [s];
    }
  }

  /** Slices of `chunk` outputs; only the last one may be shorter. */
  ghost predicate Even(slices: seq<seq<Output>>, chunk: int) {
    forall k :: 0 <= k < |slices| ==> 0 < |slices[k]| <= chunk && (k < |slices| - 1 ==> |slices[k]| == chunk)
  }

  /** `_chunk_output_handler_slices`; a batch without outputs is `None`. */
  method ChunkSlices(batch: Option<seq<Output>>, chunk: int) returns (slices: seq<seq<Output>>)
    ensures batch.None? ==> slices == []
    ensures batch.Some? ==> (Flatten(slices) == batch.value <==> chunk >= 0 || batch.value == [])
    ensures batch.Some? && 0 < chunk < |batch.value| ==> Even(slices, chunk)
    ensures batch.Some? && chunk < 0 && batch.value != [] ==> slices == []
    ensures batch.Some? && (chunk == 0 || |batch.value| <= chunk) ==> slices == [batch.value]
  {
    if batch.None? {
      return [];
    }
    var outputs := batch.value;
    FlattenSnoc([], outputs);
    assert [] + [outputs] == [outputs];
    if |outputs| == 0 || chunk == 0 || |outputs| <= chunk {
      return [outputs];
    }
    slices := [];
    if chunk < 0 {
      return;
    }
    var start := 0;
    while start < |outputs|
      invariant 0 <= start
      invariant Flatten(slices) == outputs[..Min(start, |outputs|)]
      invariant forall s :: s in slices ==> 0 < |s| <= chunk
      invariant start < |outputs| ==> forall s :: s in slices ==> |s| == chunk
      invariant Even(slices, chunk)
    {
      var end := Min(start + chunk, |outputs|);
      FlattenSnoc(slices, outputs[start..end]);
      slices := slices + [outputs[start..end]];
      start := start + chunk;
    }
  }

  /** A request in slice `k` or later. */
  ghost predicate Remains(slices: seq<seq<Output>>, k: nat, id: Rid) {
    exists j :: k <= j < |slices| && Some(id) in slices[j]
  }

  lemma {:induction false} RemainsMeaning(slices: seq<seq<Output>>, k: nat, id: Rid)
    requires k <= |slices|
    ensures id in SuffixIds(slices, k) <==> Remains(slices, k, id)
    decreases |slices| - k
  {
    if k == |slices| {
      assert Flatten(slices[k..]) == [];
    } else {
      SuffixStep(slices, k);
      RemainsMeaning(slices, k + 1, id);
      FirstsAre(slices[k]);
      WithoutAre(SuffixIds(slices, k + 1), Firsts(slices[k]));
    }
  }

  /** The ids of the slices from `k` on, each once, in order: the requests not yet processed. */
  ghost function SuffixIds(slices: seq<seq<Output>>, k: nat): seq<Rid>
    requires k <= |slices|
  {
    Firsts(Flatten(slices[k..]))
  }

  lemma SuffixStep(slices: seq<seq<Output>>, k: nat)
    requires k < |slices|
    ensures SuffixIds(slices, k) == Firsts(slices[k]) + Without(SuffixIds(slices, k + 1), Firsts(slices[k]))
    ensures Distinct(SuffixIds(slices, k))
  {
    assert slices[k..][1..] == slices[k + 1..];
    FirstsConcat(slices[k], Flatten(slices[k + 1..]));
    FirstsAre(Flatten(slices[k..]));
  }

  /** Suffixes are nested. */
  lemma SuffixesNested(slices: seq<seq<Output>>, k: nat)
    requires k < |slices|
    ensures forall id :: id in SuffixIds(slices, k + 1) ==> id in SuffixIds(slices, k)
  {
    SuffixStep(slices, k);
    WithoutAre(SuffixIds(slices, k + 1), Firsts(slices[k]));
  }

  /** Suffix 0 does not depend on how the outputs were cut. */
  lemma {:induction false} SuffixZero(a: seq<seq<Output>>, b: seq<seq<Output>>)
    requires Flatten(a) == Flatten(b)
    ensures SuffixIds(a, 0) == SuffixIds(b, 0)
  {
    assert a[0..] == a && b[0..] == b;
  }

  method MergeCarry(base: seq<Rid>, carry: seq<Rid>) returns (merged: seq<Rid>)
    requires Distinct(carry)
    ensures merged == base + Without(carry, base)
  {
    merged := base;
    var seen := set id | id in base;
    for i := 0 to |carry|
      invariant merged == base + Without(carry[..i], base)
      invariant forall id :: id in seen <==> id in base || id in carry[..i]
    {
      assert carry[..i + 1][..i] == carry[..i];
      if carry[i] in seen {
        continue;
      }
      seen := seen + {carry[i]};
      merged := merged + [carry[i]];
    }
    assert carry[..|carry|] == carry;
  }

  /** `_build_output_handler_suffix_req_ids`: the backward pass with a carried list. */
  method BuildSuffixes(slices: seq<seq<Output>>) returns (ids: seq<seq<Rid>>, suffixes: seq<seq<Rid>>)
    ensures |ids| == |suffixes| == |slices|
    ensures forall k :: 0 <= k < |slices| ==> ids[k] == Firsts(slices[k]) && suffixes[k] == SuffixIds(slices, k)
  {
    ids := [];
    for i := 0 to |slices|
      invariant |ids| == i && forall k :: 0 <= k < i ==> ids[k] == Firsts(slices[k])
    {
      var extracted := DedupeReqIds(slices[i]);
      FirstsAre(slices[i]);
      DistinctFirsts(extracted);
      var deduped := DedupeReqIds(Somes(extracted));
      ids := ids + [deduped];
    }
    suffixes := seq(|slices|, _ => []);
    var carry: seq<Rid> := [];
    assert Firsts(Flatten(slices[|slices|..])) == [];
    for idx := |slices| downto 0
      invariant |suffixes| == |slices|
      invariant carry == SuffixIds(slices, idx)
      invariant forall k :: idx <= k < |slices| ==> suffixes[k] == SuffixIds(slices, k)
    {
      FirstsAre(Flatten(slices[idx + 1..]));
      var merged := MergeCarry(ids[idx], carry);
      SuffixStep(slices, idx);
      suffixes := suffixes[idx := merged];
      carry := merged;
    }
  }
}
