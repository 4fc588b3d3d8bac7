/** The per-task record of an output handler: round state, pending waits and what became of them. */
module HandlerRounds {
  import opened Sorting
  import opened Intervals
  import opened OutputHandler

  /** One scheduler wait of the handler task. */
  datatype WaitEvent = WaitEvent(readyTs: int, runTs: int, queueNs: int)

  /** A wait is emitted once, with the requests it is charged to, or dropped. */
  datatype Fate =
    | Emitted(wait: WaitEvent, ids: seq<Rid>, round: nat)
    | Dropped(wait: WaitEvent)

  /** What one flush does to the pending waits. */
  function FatesFor(pending: seq<WaitEvent>, ids: seq<Rid>, round: nat): (r: seq<Fate>)
    ensures |r| == |pending|
    ensures forall i :: 0 <= i < |r| ==>
      r[i] == if ids == [] then Dropped(pending[i]) else Emitted(pending[i], ids, round)
  {
    seq(|pending|, i requires 0 <= i < |pending| =>
      if ids == [] then Dropped(pending[i]) else Emitted(pending[i], ids, round))
  }

  function WaitsOf(fates: seq<Fate>): (r: seq<WaitEvent>)
    ensures |r| == |fates| && forall i :: 0 <= i < |r| ==> r[i] == fates[i].wait
  {
    seq(|fates|, i requires 0 <= i < |fates| => fates[i].wait)
  }

  /** The events written to the log. */
  function EmissionsOf(fates: seq<Fate>): seq<Fate> {
    if fates == [] then []
    else EmissionsOf(fates[..|fates| - 1]) + if fates[|fates| - 1].Emitted? then [fates[|fates| - 1]] else []
  }

  /** `at` lists, in order, the places of the emitted fates. */
  ghost predicate EmittedPlaces(fates: seq<Fate>, at: seq<nat>) {
    && Increasing(at) && (forall k :: 0 <= k < |at| ==> at[k] < |fates|)
    && forall i: nat :: i in at <==> i < |fates| && fates[i].Emitted?
  }

  lemma EmittedPlus(front: seq<Fate>, f: Fate, at: seq<nat>)
    requires EmittedPlaces(front, at)
    ensures EmittedPlaces(front + [f], if f.Emitted? then at + [|front|] else at)
  {
    assert forall k :: 0 <= k < |at| ==> at[k] < |front|;
  }

  /** The log holds exactly the emitted fates, in order. */
  lemma {:induction false} EmissionsAre(fates: seq<Fate>) returns (at: seq<nat>)
    ensures EmittedPlaces(fates, at) && EmissionsOf(fates) == ElementsAt(fates, at)
  {
    at := [];
    if fates != [] {
      var front, f := fates[..|fates| - 1], fates[|fates| - 1];
      assert fates == front + [f];
      at := EmissionsAre(front);
      EmittedPlus(front, f, at);
      assert ElementsAt(fates, at) == ElementsAt(front, at);
      at := if f.Emitted? then at + [|front|] else at;
    }
  }

  lemma {:induction false} EmissionsSplit(a: seq<Fate>, b: seq<Fate>)
    ensures EmissionsOf(a + b) == EmissionsOf(a) + EmissionsOf(b)
  {
    if b == [] {
      assert a + b == a;
    } else {
      assert (a + b)[..|a| + |b| - 1] == a + b[..|b| - 1];
      EmissionsSplit(a, b[..|b| - 1]);
    }
  }

  /** The requests a wait is charged to when outputs with ids `actual` are processed at slice `k`. */
  ghost function Charged(slices: seq<seq<Output>>, k: nat, actual: seq<Rid>): seq<Rid> {
    if k < |slices| then
      var suffix, ids := SuffixIds(slices, k), Processed(slices, k, actual);
      if suffix != [] && forall id :: id in ids ==> id in suffix then suffix else ids
    else actual
  }

  /** The requests that the handler reports as processed at slice `k`. */
  ghost function Processed(slices: seq<seq<Output>>, k: nat, actual: seq<Rid>): seq<Rid> {
    if k < |slices| && Firsts(slices[k]) != [] && actual == [] then Firsts(slices[k]) else actual
  }

  /** Processed in order, slice `k` charges exactly the requests of slices `k` and later. */
  lemma ChargedInOrder(slices: seq<seq<Output>>, k: nat)
    requires k < |slices|
    ensures Charged(slices, k, Firsts(slices[k])) == SuffixIds(slices, k)
    ensures Processed(slices, k, Firsts(slices[k])) == Firsts(slices[k])
  {
    SuffixStep(slices, k);
    WithoutAre(SuffixIds(slices, k + 1), Firsts(slices[k]));
    if SuffixIds(slices, k) == [] {
      assert Firsts(slices[k]) == [];
    }
  }

  /** Nobody is charged only when neither the processed outputs nor any remaining slice has an id. */
  lemma NobodyCharged(slices: seq<seq<Output>>, k: nat, actual: seq<Rid>)
    ensures Charged(slices, k, actual) == [] <==> actual == [] && (k < |slices| ==> SuffixIds(slices, k) == [])
  {
    if k < |slices| {
      SuffixStep(slices, k);
    }
  }

  /** Whom a flush charges: past the slices, the processed requests; at a slice, all requests that remain when the
      processed ones are among them, and else the processed ones. */
  lemma ChargedAre(slices: seq<seq<Output>>, k: nat, actual: seq<Rid>)
    ensures k >= |slices| ==> Charged(slices, k, actual) == actual
    ensures k < |slices| && (exists id :: id in actual && !Remains(slices, k, id)) ==>
      Charged(slices, k, actual) == actual
    ensures k < |slices| && (forall id :: id in actual ==> Remains(slices, k, id)) ==>
      Distinct(Charged(slices, k, actual)) && forall id :: id in Charged(slices, k, actual) <==> Remains(slices, k, id)
  {
    if k < |slices| {
      SuffixStep(slices, k);
      forall id
        ensures id in SuffixIds(slices, k) <==> Remains(slices, k, id)
      {
        RemainsMeaning(slices, k, id);
      }
      var suffix, ids := SuffixIds(slices, k), Processed(slices, k, actual);
      assert actual != [] ==> actual[0] in actual && ids == actual;
      assert forall id :: id in Firsts(slices[k]) ==> id in suffix;
      if suffix == [] {
        assert ids == actual;
      }
    }
  }

  /** What is reported as processed: the ids of the outputs; without any, those of the slice. */
  lemma ProcessedAre(slices: seq<seq<Output>>, k: nat, actual: seq<Rid>)
    ensures actual != [] || k >= |slices| ==> Processed(slices, k, actual) == actual
    ensures actual == [] && k < |slices| ==> Processed(slices, k, actual) == Firsts(slices[k])
  {
  }

  /** `any(slice_ids)`. */
  predicate Nonempty(ids: seq<seq<Rid>>) {
    exists k :: 0 <= k < |ids| && ids[k] != []
  }

  /** Some slice of the round has a request. */
  ghost predicate HasIds(slices: seq<seq<Output>>) {
    exists k :: 0 <= k < |slices| && Firsts(slices[k]) != []
  }

  lemma HasIdsIff(ids: seq<seq<Rid>>, slices: seq<seq<Output>>)
    requires |ids| == |slices| && forall k :: 0 <= k < |ids| ==> ids[k] == Firsts(slices[k])
    ensures Nonempty(ids) <==> HasIds(slices)
  {
    if k :| 0 <= k < |ids| && ids[k] != [] {
      assert Firsts(slices[k]) != [];
    }
    if k :| 0 <= k < |slices| && Firsts(slices[k]) != [] {
      assert ids[k] != [];
    }
  }

  class HandlerTask {
    var sliceIds: seq<seq<Rid>>
    var suffixIds: seq<seq<Rid>>
    var nextSlice: nat
    var activeRound: Option<nat>
    var processSeq: nat
    var currentIds: seq<Rid>
    var pending: seq<WaitEvent>
    var emitted: seq<Fate>
    // history, for the proof: the slices of the round, all waits ever appended, and their fates
    ghost var slices: seq<seq<Output>>
    ghost var appended: seq<WaitEvent>
    ghost var fates: seq<Fate>

    /** The stored lists describe the round's slices, and every wait ever appended has met its fate, in
        order, or is still pending. */
    ghost predicate Valid()
      reads this
    {
      && |sliceIds| == |suffixIds| == |slices|
      && (forall k :: 0 <= k < |slices| ==> sliceIds[k] == Firsts(slices[k]) && suffixIds[k] == SuffixIds(slices, k))
      && appended == WaitsOf(fates) + pending
      && emitted == EmissionsOf(fates)
      && (activeRound.Some? ==> 0 < activeRound.value == processSeq)
    }

    constructor ()
      ensures Valid() && appended == [] && fates == [] && processSeq == 0 && slices == []
    {
      sliceIds, suffixIds, nextSlice, activeRound, processSeq := [], [], 0, None, 0;
      currentIds, pending, emitted, slices, appended, fates := [], [], [], [], [], [];
    }

    /** The scheduled callback: a wait joins the pending list. */
    method Append(w: WaitEvent)
      requires Valid()
      modifies `pending, `appended
      ensures Valid() && appended == old(appended) + [w] && pending == old(pending) + [w]
    {
      pending := pending + [w];
      appended := appended + [w];
    }

    /** `_set_output_handler_round_slices`. */
    method SetRound(outputSlices: seq<seq<Output>>) returns (round: Option<nat>)
      requires Valid()
      modifies `sliceIds, `suffixIds, `nextSlice, `activeRound, `processSeq, `currentIds, `slices
      ensures Valid() && slices == outputSlices && nextSlice == 0 && currentIds == []
      ensures round == activeRound
      ensures var some := HasIds(slices);
        && processSeq == old(processSeq) + (if some then 1 else 0)
        && activeRound == if some then Some(processSeq) else None
    {
      var ids, suffixes := BuildSuffixes(outputSlices);
      var some := Nonempty(ids);
      HasIdsIff(ids, outputSlices);
      sliceIds, suffixIds, nextSlice, currentIds := ids, suffixes, 0, [];
      slices := outputSlices;
      round := None;
      if some {
        processSeq := processSeq + 1;
        round := Some(processSeq);
      }
      activeRound := round;
    }

    /** `_clear_output_handler_round_state`. */
    method ClearRound()
      requires Valid()
      modifies `sliceIds, `suffixIds, `nextSlice, `activeRound, `currentIds, `slices
      ensures Valid() && slices == [] && activeRound == None && nextSlice == 0 && currentIds == []
    {
      sliceIds, suffixIds, nextSlice, activeRound, currentIds := [], [], 0, None, [];
      slices := [];
    }

    /** The round number a flush writes: always the current sequence number. */
    function RoundNumber(): (r: nat)
      reads this
      ensures Valid() ==> r == processSeq
    {
      if activeRound.Some? && activeRound.value != 0 then activeRound.value else processSeq
    }

    /** Writes one event per wait. */
    method Emit(waits: seq<WaitEvent>, ids: seq<Rid>, round: nat)
      requires ids != []
      modifies `emitted
      ensures emitted == old(emitted) + EmissionsOf(FatesFor(waits, ids, round))
    {
      ghost var more := FatesFor(waits, ids, round);
      for i := 0 to |waits|
        invariant emitted == old(emitted) + EmissionsOf(more[..i])
      {
        assert more[..i + 1][..i] == more[..i];
        emitted := emitted + [Emitted(waits[i], ids, round)];
      }
      assert more[..|waits|] == more;
    }

    /** `_flush_pending_output_handler_sched_events`. */
    method Flush(ids: seq<Rid>)
      requires Valid()
      modifies `pending, `emitted, `fates
      ensures Valid() && pending == []
      ensures fates == old(fates) + FatesFor(old(pending), ids, RoundNumber())
    {
      ghost var more := FatesFor(pending, ids, RoundNumber());
      EmissionsSplit(fates, more);
      assert WaitsOf(fates + more) == WaitsOf(fates) + pending;
      fates := fates + more;
      var waits := pending;
      pending := [];
      if ids == [] {
        AllDropped(more);
      } else {
        Emit(waits, ids, RoundNumber());
      }
    }

    /** `_begin_output_handler_process_outputs`. */
    method Begin(outputs: seq<Output>) returns (ids: seq<Rid>, round: Option<nat>)
      requires Valid()
      modifies `nextSlice, `activeRound, `processSeq, `currentIds, `pending, `emitted, `fates
      ensures Valid() && pending == [] && currentIds == ids
      ensures ids == Processed(slices, old(nextSlice), Firsts(outputs))
      ensures fates == old(fates)
        + FatesFor(old(pending), Charged(slices, old(nextSlice), Firsts(outputs)), RoundNumber())
      ensures round == activeRound
      ensures old(nextSlice) < |slices| ==>
        nextSlice == old(nextSlice) + 1 && activeRound == old(activeRound) && processSeq == old(processSeq)
      ensures old(nextSlice) >= |slices| ==> nextSlice == old(nextSlice)
      ensures old(nextSlice) >= |slices| && Firsts(outputs) == [] ==>
        activeRound == old(activeRound) && processSeq == old(processSeq)
      ensures old(nextSlice) >= |slices| && Firsts(outputs) != [] ==>
        processSeq == old(processSeq) + 1 && activeRound == Some(processSeq)
    {
      var actual := DedupeReqIds(outputs);
      ids := actual;
      var charged := actual;
      if nextSlice < |sliceIds| {
        var expected := sliceIds[nextSlice];
        if expected != [] && actual != [] && expected != actual {
          ids := actual;
        } else {
          ids := if expected != [] then expected else actual;
        }
        var suffix := suffixIds[nextSlice];
        if suffix != [] && (ids == [] || forall id :: id in ids ==> id in suffix) {
          charged := suffix;
        } else {
          charged := ids;
        }
        nextSlice := nextSlice + 1;
      } else if ids != [] {
        processSeq := processSeq + 1;
        activeRound := Some(processSeq);
      }
      round := activeRound;
      currentIds := ids;
      Flush(charged);
    }
  }

  lemma {:induction false} AllDropped(fates: seq<Fate>)
    requires forall i :: 0 <= i < |fates| ==> fates[i].Dropped?
    ensures EmissionsOf(fates) == []
  {
    if fates != [] {
      AllDropped(fates[..|fates| - 1]);
    }
  }

  // ------------------------------------------------------------ a whole round

  /** The waits that arrive before slice `k`. */
  function ArrivalsAt(arrivals: seq<seq<WaitEvent>>, k: nat): seq<WaitEvent> {
    if k < |arrivals| then arrivals[k] else []
  }

  /** The fates of a round from slice `k` on: each wait is charged to what was left when it was flushed. */
  ghost function RoundFates(slices: seq<seq<Output>>, k: nat, waiting: seq<WaitEvent>,
                            arrivals: seq<seq<WaitEvent>>, round: nat): seq<Fate>
    requires k <= |slices|
    decreases |slices| - k
  {
    if k == |slices| then []
    else FatesFor(waiting + ArrivalsAt(arrivals, k), SuffixIds(slices, k), round)
         + RoundFates(slices, k + 1, [], arrivals, round)
  }

  /** The output handler's loop over one batch: slices are registered, then processed in order, with
      `arrivals[k]` new waits before slice `k`. All waits flushed in the round carry one round number,
      and each is charged to exactly the requests of its own and the later slices. */
  method RunRound(task: HandlerTask, batch: Option<seq<Output>>, chunk: int, arrivals: seq<seq<WaitEvent>>)
    returns (ghost slices: seq<seq<Output>>)
    requires task.Valid()
    modifies task
    ensures task.Valid() && task.slices == []
    ensures batch.Some? && chunk >= 0 ==> Flatten(slices) == batch.value
    ensures task.fates == old(task.fates) + RoundFates(slices, 0, old(task.pending), arrivals, task.processSeq)
    ensures task.processSeq == old(task.processSeq) + if HasIds(slices) then 1 else 0
  {
    var parts := ChunkSlices(batch, chunk);
    slices := parts;
    var _ := task.SetRound(parts);
    ghost var waiting, seqNo := task.pending, task.processSeq;
    ghost var start := task.fates;
    for k := 0 to |parts|
      invariant task.Valid() && task.slices == parts && task.nextSlice == k
      invariant task.processSeq == seqNo
      invariant task.pending == if k == 0 then waiting else []
      invariant task.fates + RoundFates(parts, k, task.pending, arrivals, seqNo)
             == start + RoundFates(parts, 0, waiting, arrivals, seqNo)
    {
      NextFates(task.fates, parts, k, task.pending, arrivals, seqNo);
      ProcessSlice(task, parts[k], ArrivalsAt(arrivals, k));
    }
    task.ClearRound();
  }

  /** Waits arrive, then the next slice of the round is processed. */
  method ProcessSlice(task: HandlerTask, outputs: seq<Output>, arrivals: seq<WaitEvent>)
    requires task.Valid() && task.nextSlice < |task.slices| && outputs == task.slices[task.nextSlice]
    modifies task
    ensures task.Valid() && task.slices == old(task.slices) && task.nextSlice == old(task.nextSlice) + 1
    ensures task.activeRound == old(task.activeRound) && task.processSeq == old(task.processSeq)
    ensures task.pending == []
    ensures task.fates == old(task.fates) + FatesFor(old(task.pending) + arrivals,
                            SuffixIds(old(task.slices), old(task.nextSlice)), old(task.RoundNumber()))
  {
    AppendAll(task, arrivals);
    ChargedInOrder(task.slices, task.nextSlice);
    var _, _ := task.Begin(outputs);
  }

  lemma NextFates(was: seq<Fate>, slices: seq<seq<Output>>, k: nat, before: seq<WaitEvent>,
                  arrivals: seq<seq<WaitEvent>>, round: nat)
    requires k < |slices|
    ensures was + FatesFor(before + ArrivalsAt(arrivals, k), SuffixIds(slices, k), round)
      + RoundFates(slices, k + 1, [], arrivals, round)
         == was + RoundFates(slices, k, before, arrivals, round)
  {
  }

  method AppendAll(task: HandlerTask, ws: seq<WaitEvent>)
    requires task.Valid()
    modifies task`pending, task`appended
    ensures task.Valid() && task.pending == old(task.pending) + ws && task.appended == old(task.appended) + ws
  {
    for i := 0 to |ws|
      invariant task.Valid() && task.pending == old(task.pending) + ws[..i] &&
        task.appended == old(task.appended) + ws[..i]
    {
      assert ws[..i + 1] == ws[..i] + [ws[i]];
      task.Append(ws[i]);
    }
    assert ws[..|ws|] == ws;
  }

  // ------------------------------------------------------------ conservation

  function CountEmitted(fates: seq<Fate>): nat {
    |EmissionsOf(fates)|
  }

  function CountDropped(fates: seq<Fate>): nat {
    if fates == [] then 0 else CountDropped(fates[..|fates| - 1]) + if fates[|fates| - 1].Dropped? then 1 else 0
  }

  /** A flushed wait is either emitted or dropped, never both. */
  lemma {:induction false} EmittedOrDropped(fates: seq<Fate>)
    ensures CountEmitted(fates) + CountDropped(fates) == |WaitsOf(fates)|
  {
    if fates != [] {
      EmittedOrDropped(fates[..|fates| - 1]);
    }
  }

  /** In every reachable state: appended = emitted + dropped + pending. */
  lemma Conservation(task: HandlerTask)
    requires task.Valid()
    ensures |task.appended| == |task.emitted| + CountDropped(task.fates) + |task.pending|
  {
    EmittedOrDropped(task.fates);
  }
}
