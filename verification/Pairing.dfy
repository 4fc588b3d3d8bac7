/** Pairing dispatch starts with step-ready events, request by request. */
module Pairing {
  import opened Sets
  import opened Sorting
  import opened Intervals

  /** An absent dispatch key, request id or phase is the empty string. */
  datatype Start = Start(startNs: int, key: string, batch: seq<string>)

  datatype Slot = Slot(startNs: int, endNs: int, phase: string, durationNs: int, key: string, batch: seq<string>)

  /** What the stream does to one request: a start is queued, or a ready event takes one. */
  datatype Step = Push(start: Start) | Take(ts: int, key: string, phase: string)

  /** Step `take` took the start that step `start` queued. */
  datatype Match = Match(start: nat, take: nat)

  // --------------------------------------------------- which start is taken

  predicate HasKey(starts: seq<Start>, key: string) {
    exists k :: 0 <= k < |starts| && starts[k].key == key
  }

  /** `k` is the oldest start with the key, or the oldest start when no start has it. */
  predicate Chosen(starts: seq<Start>, key: string, k: nat)
    requires k < |starts|
  {
    if key != "" && HasKey(starts, key) then
      starts[k].key == key && forall j :: 0 <= j < k ==> starts[j].key != key
    else k == 0
  }

  function Choice(starts: seq<Start>, key: string): (k: nat)
    requires starts != []
    ensures k < |starts| && Chosen(starts, key, k)
  {
    if key != "" && HasKey(starts, key) then FirstWith(starts, key) else 0
  }

  function FirstWith(starts: seq<Start>, key: string): (k: nat)
    requires HasKey(starts, key)
    ensures k < |starts| && starts[k].key == key && forall j :: 0 <= j < k ==> starts[j].key != key
  {
    if starts[0].key == key then 0 else FirstWith(starts[1..], key) + 1
  }

  lemma ChosenUnique(starts: seq<Start>, key: string, j: nat, k: nat)
    requires j < |starts| && k < |starts| && Chosen(starts, key, j) && Chosen(starts, key, k)
    ensures j == k
  {
  }

  function Without<T>(s: seq<T>, k: nat): seq<T>
    requires k < |s|
  {
    s[..k] + s[k + 1..]
  }

  // ------------------------------------------------ one request's history

  ghost predicate Pushes(steps: seq<Step>, q: seq<nat>) {
    forall k :: 0 <= k < |q| ==> q[k] < |steps| && steps[q[k]].Push?
  }

  ghost function Starts(steps: seq<Step>, q: seq<nat>): (starts: seq<Start>)
    requires Pushes(steps, q)
    ensures |starts| == |q|
  {
    seq(|q|, k requires 0 <= k < |q| => steps[q[k]].start)
  }

  /** The queued steps that no ready event has taken, oldest first. */
  ghost function Pending(steps: seq<Step>): (q: seq<nat>)
    ensures Pushes(steps, q)
    ensures forall a, b :: 0 <= a < b < |q| ==> q[a] < q[b]
  {
    if steps == [] then []
    else
      var n := |steps| - 1;
      var q := Pending(steps[..n]);
      if steps[n].Push? then q + [n]
      else if q == [] then []
      else Without(q, Choice(Starts(steps[..n], q), steps[n].key))
  }

  ghost function Matches(steps: seq<Step>): seq<Match> {
    if steps == [] then []
    else
      var n := |steps| - 1;
      var q := Pending(steps[..n]);
      if steps[n].Push? || q == [] then Matches(steps[..n])
      else Matches(steps[..n]) + [Match(q[Choice(Starts(steps[..n], q), steps[n].key)], n)]
  }

  ghost predicate Sound(steps: seq<Step>, m: Match) {
    m.start < m.take < |steps| && steps[m.start].Push? && steps[m.take].Take?
  }

  /** A start and a later ready event; each ready event takes at most one start. */
  ghost predicate WellMatched(steps: seq<Step>, ms: seq<Match>) {
    && (forall k :: 0 <= k < |ms| ==> Sound(steps, ms[k]))
    && (forall j, k :: 0 <= j < k < |ms| ==> ms[j].take < ms[k].take)
  }

  lemma {:induction false} MatchesFit(steps: seq<Step>)
    ensures WellMatched(steps, Matches(steps))
  {
    if steps != [] {
      MatchesFit(steps[..|steps| - 1]);
    }
  }

  ghost predicate Taken(ms: seq<Match>, i: nat) {
    exists k :: 0 <= k < |ms| && ms[k].start == i
  }

  lemma TakenOnePlus(ms: seq<Match>, m: Match, i: nat)
    ensures Taken(ms + [m], i) <==> Taken(ms, i) || m.start == i
  {
    if Taken(ms, i) {
      var k :| 0 <= k < |ms| && ms[k].start == i;
      assert (ms + [m])[k].start == i;
    }
    assert (ms + [m])[|ms|] == m;
  }

  ghost predicate UsedOnce(ms: seq<Match>) {
    forall j, k :: 0 <= j < k < |ms| ==> ms[j].start != ms[k].start
  }

  function PushCount(steps: seq<Step>): nat {
    if steps == [] then 0 else PushCount(steps[..|steps| - 1]) + if steps[|steps| - 1].Push? then 1 else 0
  }

  lemma WithoutHas(q: seq<nat>, k: nat, i: nat)
    requires k < |q| && forall a, b :: 0 <= a < b < |q| ==> q[a] < q[b]
    ensures i in Without(q, k) <==> i in q && i != q[k]
  {
    if i in q && i != q[k] {
      var a :| 0 <= a < |q| && q[a] == i;
      if a < k {
        assert Without(q, k)[a] == i;
      } else {
        assert Without(q, k)[a - 1] == i;
      }
    }
  }

  /** Every start is taken once or still pending, never both. */
  lemma {:induction false} Conservation(steps: seq<Step>)
    ensures forall i :: 0 <= i < |steps| && steps[i].Push? ==> (i in Pending(steps) <==> !Taken(Matches(steps), i))
    ensures UsedOnce(Matches(steps))
    ensures PushCount(steps) == |Matches(steps)| + |Pending(steps)|
  {
    if steps != [] {
      var n := |steps| - 1;
      Conservation(steps[..n]);
      MatchesFit(steps[..n]);
      forall i | 0 <= i < |steps| && steps[i].Push?
        ensures i in Pending(steps) <==> !Taken(Matches(steps), i)
      {
        FateStep(steps, i);
      }
      UsedOnceStep(steps);
    }
  }

  lemma {:induction false} FateStep(steps: seq<Step>, i: nat)
    requires steps != [] && i < |steps| && steps[i].Push?
    requires i < |steps| - 1 ==> (i in Pending(steps[..|steps| - 1]) <==> !Taken(Matches(steps[..|steps| - 1]), i))
    requires WellMatched(steps[..|steps| - 1], Matches(steps[..|steps| - 1]))
    ensures i in Pending(steps) <==> !Taken(Matches(steps), i)
  {
    var n := |steps| - 1;
    var q := Pending(steps[..n]);
    if steps[n].Take? && q != [] {
      var k := Choice(Starts(steps[..n], q), steps[n].key);
      WithoutHas(q, k, i);
      TakenOnePlus(Matches(steps[..n]), Match(q[k], n), i);
    }
  }

  lemma {:induction false} UsedOnceStep(steps: seq<Step>)
    requires steps != []
    requires UsedOnce(Matches(steps[..|steps| - 1]))
    requires forall i :: 0 <= i < |steps| - 1 && steps[i].Push? ==>
      (i in Pending(steps[..|steps| - 1]) <==> !Taken(Matches(steps[..|steps| - 1]), i))
    ensures UsedOnce(Matches(steps))
  {
    var n := |steps| - 1;
    var q, ms := Pending(steps[..n]), Matches(steps[..n]);
    if steps[n].Take? && q != [] {
      var i := q[Choice(Starts(steps[..n], q), steps[n].key)];
      assert i in q && steps[..n][i].Push?;
      UsedOncePlus(ms, Match(i, n));
    }
  }

  lemma UsedOncePlus(ms: seq<Match>, m: Match)
    requires UsedOnce(ms) && !Taken(ms, m.start)
    ensures UsedOnce(ms + [m])
  {
  }

  /** Pending start `w` carries the key. */
  ghost predicate Carries(steps: seq<Step>, q: seq<nat>, key: string, w: nat)
    requires Pushes(steps, q)
  {
    w in q && steps[w].start.key == key
  }

  /** `i` is the oldest pending start that carries the key, or the oldest of all when none does. */
  ghost predicate Oldest(steps: seq<Step>, q: seq<nat>, key: string, i: nat)
    requires Pushes(steps, q)
  {
    if key != "" && exists w :: Carries(steps, q, key, w) then
      Carries(steps, q, key, i) && forall w :: Carries(steps, q, key, w) ==> i <= w
    else i in q && forall w :: w in q ==> i <= w
  }

  lemma ChoiceOldest(steps: seq<Step>, q: seq<nat>, key: string)
    requires Pushes(steps, q) && q != [] && forall a, b :: 0 <= a < b < |q| ==> q[a] < q[b]
    ensures Oldest(steps, q, key, q[Choice(Starts(steps, q), key)])
  {
    var starts := Starts(steps, q);
    if key != "" && HasKey(starts, key) {
      var k := Choice(starts, key);
      assert Carries(steps, q, key, q[k]);
      forall w | Carries(steps, q, key, w)
        ensures q[k] <= w
      {
        var a :| 0 <= a < |q| && q[a] == w;
        assert starts[a].key == key;
      }
    } else if key != "" {
      forall w | w in q
        ensures !Carries(steps, q, key, w)
      {
        var a :| 0 <= a < |q| && q[a] == w;
        assert starts[a].key != key;
      }
    }
  }

  /** The rule that decides every pairing, from the starts still pending when the ready event comes. */
  ghost predicate Follows(steps: seq<Step>, m: Match)
    requires Sound(steps, m)
  {
    Oldest(steps[..m.take], Pending(steps[..m.take]), steps[m.take].key, m.start)
  }

  lemma {:induction false} PairingRule(steps: seq<Step>)
    ensures forall m :: m in Matches(steps) ==> Sound(steps, m) && Follows(steps, m)
  {
    if steps != [] {
      var n := |steps| - 1;
      PairingRule(steps[..n]);
      forall m | m in Matches(steps)
        ensures Sound(steps, m) && Follows(steps, m)
      {
        var q := Pending(steps[..n]);
        if m in Matches(steps[..n]) {
          assert steps[..n][..m.take] == steps[..m.take];
        } else {
          ChoiceOldest(steps[..n], q, steps[n].key);
          assert m == Match(q[Choice(Starts(steps[..n], q), steps[n].key)], n);
        }
      }
    }
  }

  ghost predicate TakesAt(ms: seq<Match>, j: nat) {
    exists k :: 0 <= k < |ms| && ms[k].take == j
  }

  lemma TakesAtPlus(ms: seq<Match>, m: Match, j: nat)
    ensures TakesAt(ms + [m], j) <==> TakesAt(ms, j) || m.take == j
  {
    if k :| 0 <= k < |ms| && ms[k].take == j {
      assert (ms + [m])[k].take == j;
    }
    assert (ms + [m])[|ms|] == m;
  }

  lemma {:induction false} TakesAtStep(steps: seq<Step>, j: nat)
    requires steps != []
    ensures var n := |steps| - 1;
      TakesAt(Matches(steps), j) <==>
      TakesAt(Matches(steps[..n]), j) || (j == n && steps[n].Take? && Pending(steps[..n]) != [])
  {
    var n := |steps| - 1;
    var q := Pending(steps[..n]);
    if steps[n].Take? && q != [] {
      TakesAtPlus(Matches(steps[..n]), Match(q[Choice(Starts(steps[..n], q), steps[n].key)], n), j);
    }
  }

  /** A ready event goes without a start only when none is pending. */
  lemma {:induction false} NoneIdle(steps: seq<Step>, j: nat)
    requires j < |steps| && steps[j].Take?
    ensures TakesAt(Matches(steps), j) <==> Pending(steps[..j]) != []
  {
    var n := |steps| - 1;
    TakesAtStep(steps, j);
    if j < n {
      NoneIdle(steps[..n], j);
      assert steps[..n][..j] == steps[..j];
    } else {
      MatchesFit(steps[..n]);
    }
  }

  /** A ready event whose key is pending takes a start with that key. */
  lemma {:induction false} KeyedMatch(steps: seq<Step>, m: Match, w: nat)
    requires m in Matches(steps) && Sound(steps, m) && steps[m.take].key != ""
    requires w in Pending(steps[..m.take]) && steps[w].start.key == steps[m.take].key
    ensures steps[m.start].start.key == steps[m.take].key && m.start <= w
  {
    PairingRule(steps);
    assert Carries(steps[..m.take], Pending(steps[..m.take]), steps[m.take].key, w);
  }

  // ------------------------------------------------------- without keys: FIFO

  ghost function PushSteps(steps: seq<Step>): seq<nat> {
    if steps == [] then []
    else PushSteps(steps[..|steps| - 1]) + if steps[|steps| - 1].Push? then [|steps| - 1] else []
  }

  ghost function TakenStarts(ms: seq<Match>): seq<nat> {
    if ms == [] then [] else TakenStarts(ms[..|ms| - 1]) + [ms[|ms| - 1].start]
  }

  lemma {:induction false} KeylessTake(steps: seq<Step>)
    requires steps != [] && steps[|steps| - 1].Take? && steps[|steps| - 1].key == ""
    requires Pending(steps[..|steps| - 1]) != []
    ensures var n, q := |steps| - 1, Pending(steps[..|steps| - 1]);
      Matches(steps) == Matches(steps[..n]) + [Match(q[0], n)] && Pending(steps) == Without(q, 0)
  {
  }

  /** When no ready event carries a key, starts are taken in the order they were queued. */
  lemma {:induction false} KeylessFifo(steps: seq<Step>)
    requires forall i :: 0 <= i < |steps| && steps[i].Take? ==> steps[i].key == ""
    ensures TakenStarts(Matches(steps)) + Pending(steps) == PushSteps(steps)
  {
    if steps != [] {
      var n := |steps| - 1;
      KeylessFifo(steps[..n]);
      var q, ms := Pending(steps[..n]), Matches(steps[..n]);
      if steps[n].Push? {
        assert TakenStarts(ms) + (q + [n]) == TakenStarts(ms) + q + [n];
      } else if q != [] {
        KeylessTake(steps);
        TakeFirst(ms, q, n);
      }
    }
  }

  lemma {:induction false} TakeFirst(ms: seq<Match>, q: seq<nat>, n: nat)
    requires q != []
    ensures TakenStarts(ms + [Match(q[0], n)]) + Without(q, 0) == TakenStarts(ms) + q
  {
    assert (ms + [Match(q[0], n)])[..|ms|] == ms;
    assert q == [q[0]] + Without(q, 0);
  }

  // --------------------------------------------------------- discarded starts

  ghost function At(s: Step): int {
    if s.Push? then s.start.startNs else s.ts
  }

  ghost predicate Sorted(steps: seq<Step>) {
    forall i, j :: 0 <= i < j < |steps| ==> At(steps[i]) <= At(steps[j])
  }

  /** The match gives an interval; otherwise the start is discarded. */
  ghost predicate Emits(steps: seq<Step>, m: Match)
    requires Sound(steps, m)
  {
    steps[m.start].start.startNs < steps[m.take].ts
  }

  /** On a stream sorted by time a start is discarded exactly when its ready event has the same timestamp. */
  lemma {:induction false} DiscardedOnTie(steps: seq<Step>, m: Match)
    requires Sorted(steps) && m in Matches(steps)
    ensures m.start < m.take < |steps| && steps[m.start].Push? && steps[m.take].Take?
    ensures !Emits(steps, m) <==> steps[m.start].start.startNs == steps[m.take].ts
  {
    MatchesFit(steps);
    assert At(steps[m.start]) <= At(steps[m.take]);
  }

  // ---------------------------------------------------------------- intervals

  datatype Outcome = Outcome(slots: seq<Slot>, hints: seq<string>)

  predicate Given(phase: string) {
    phase == "prefill" || phase == "decode"
  }

  /** The phase of an interval, and the hints left after it. */
  function PhaseFor(given: string, hints: seq<string>): (string, seq<string>) {
    if Given(given) then (given, if hints != [] && hints[0] == given then hints[1..] else hints)
    else if hints != [] then (hints[0], hints[1..])
    else ("unknown", hints)
  }

  function Deliver(o: Outcome, start: Start, ts: int, key: string, given: string): Outcome {
    if ts <= start.startNs then o
    else
      var (phase, rest) := PhaseFor(given, o.hints);
      var startKey := if key != "" then key else start.key;
      Outcome(o.slots + [Slot(start.startNs, ts, phase, ts - start.startNs, startKey, start.batch)], rest)
  }

  ghost function Result(steps: seq<Step>, hints: seq<string>): Outcome {
    if steps == [] then Outcome([], hints)
    else
      var n := |steps| - 1;
      var q, o := Pending(steps[..n]), Result(steps[..n], hints);
      if steps[n].Push? || q == [] then o
      else
        var starts := Starts(steps[..n], q);
        Deliver(o, starts[Choice(starts, steps[n].key)], steps[n].ts, steps[n].key, steps[n].phase)
  }

  /** The matches that give an interval. */
  ghost function Emitted(steps: seq<Step>, ms: seq<Match>): (es: seq<Match>)
    requires WellMatched(steps, ms)
    ensures |es| <= |ms| && forall m :: m in es ==> m in ms && Sound(steps, m) && Emits(steps, m)
  {
    if ms == [] then []
    else
      var m := ms[|ms| - 1];
      Emitted(steps, ms[..|ms| - 1]) + if Emits(steps, m) then [m] else []
  }

  lemma {:induction false} EmittedLater(front: seq<Step>, step: Step, ms: seq<Match>)
    requires WellMatched(front, ms)
    ensures WellMatched(front + [step], ms) && Emitted(front + [step], ms) == Emitted(front, ms)
  {
    if ms != [] {
      EmittedLater(front, step, ms[..|ms| - 1]);
    }
  }

  /** The interval of a match: the times and batch of its start, the end of its ready event, and the key of
      whichever of the two has one, the ready event first. */
  ghost predicate Records(steps: seq<Step>, m: Match, slot: Slot)
    requires Sound(steps, m)
  {
    var s, r := steps[m.start].start, steps[m.take];
    && slot.startNs == s.startNs && slot.endNs == r.ts && slot.batch == s.batch
    && slot.startNs < slot.endNs && slot.durationNs == slot.endNs - slot.startNs
    && (r.key != "" ==> slot.key == r.key) && (r.key == "" ==> slot.key == s.key)
    && (Given(r.phase) ==> slot.phase == r.phase)
  }

  /** The intervals are those of the emitted matches, one each and in order; hints are used up from the front. */
  ghost predicate Tells(steps: seq<Step>, ms: seq<Match>, o: Outcome, hints: seq<string>)
    requires WellMatched(steps, ms)
  {
    var es := Emitted(steps, ms);
    && |o.slots| == |es| && (forall k :: 0 <= k < |es| ==> Records(steps, es[k], o.slots[k]))
    && |o.hints| <= |hints| && o.hints == hints[|hints| - |o.hints|..]
  }

  lemma {:induction false} SlotsRecord(steps: seq<Step>, hints: seq<string>)
    ensures WellMatched(steps, Matches(steps)) && Tells(steps, Matches(steps), Result(steps, hints), hints)
  {
    MatchesFit(steps);
    if steps != [] {
      var n := |steps| - 1;
      SlotsRecord(steps[..n], hints);
      TellsLater(steps[..n], steps[n], Matches(steps[..n]), Result(steps[..n], hints), hints);
      assert steps == steps[..n] + [steps[n]];
      if steps[n].Take? && Pending(steps[..n]) != [] {
        TellsStep(steps, hints);
      }
    }
  }

  lemma {:induction false} TellsStep(steps: seq<Step>, hints: seq<string>)
    requires steps != [] && steps[|steps| - 1].Take? && Pending(steps[..|steps| - 1]) != []
    requires WellMatched(steps, Matches(steps)) && WellMatched(steps, Matches(steps[..|steps| - 1]))
    requires Tells(steps, Matches(steps[..|steps| - 1]), Result(steps[..|steps| - 1], hints), hints)
    ensures Tells(steps, Matches(steps), Result(steps, hints), hints)
  {
    var n := |steps| - 1;
    var q := Pending(steps[..n]);
    var starts := Starts(steps[..n], q);
    var k := Choice(starts, steps[n].key);
    assert starts[k] == steps[q[k]].start;
    TellsPlus(steps, Matches(steps[..n]), Match(q[k], n), Result(steps[..n], hints), hints);
  }

  lemma TellsLater(front: seq<Step>, step: Step, ms: seq<Match>, o: Outcome, hints: seq<string>)
    requires WellMatched(front, ms) && Tells(front, ms, o, hints)
    ensures WellMatched(front + [step], ms) && Tells(front + [step], ms, o, hints)
  {
    EmittedLater(front, step, ms);
    var es := Emitted(front, ms);
    forall k | 0 <= k < |es|
      ensures Records(front + [step], es[k], o.slots[k])
    {
      assert Sound(front, es[k]) && Records(front, es[k], o.slots[k]);
    }
  }

  lemma TellsPlus(steps: seq<Step>, ms: seq<Match>, m: Match, o: Outcome, hints: seq<string>)
    requires WellMatched(steps, ms) && WellMatched(steps, ms + [m]) && Tells(steps, ms, o, hints) && Sound(steps, m)
    ensures var take := steps[m.take];
      Tells(steps, ms + [m], Deliver(o, steps[m.start].start, take.ts, take.key, take.phase), hints)
  {
    assert (ms + [m])[..|ms|] == ms;
  }

  /** The taken starts that give no interval. */
  ghost function Discards(steps: seq<Step>, ms: seq<Match>): nat
    requires WellMatched(steps, ms)
  {
    if ms == [] then 0
    else Discards(steps, ms[..|ms| - 1]) + if Emits(steps, ms[|ms| - 1]) then 0 else 1
  }

  lemma {:induction false} EmittedOrDiscarded(steps: seq<Step>, ms: seq<Match>)
    requires WellMatched(steps, ms)
    ensures |ms| == |Emitted(steps, ms)| + Discards(steps, ms)
  {
    if ms != [] {
      EmittedOrDiscarded(steps, ms[..|ms| - 1]);
    }
  }

  /** Starts queued are intervals given, starts discarded and starts pending. */
  lemma {:induction false} StartsBalance(steps: seq<Step>, hints: seq<string>)
    ensures WellMatched(steps, Matches(steps))
    ensures PushCount(steps) == |Result(steps, hints).slots| + Discards(steps, Matches(steps)) + |Pending(steps)|
  {
    Conservation(steps);
    SlotsRecord(steps, hints);
    EmittedOrDiscarded(steps, Matches(steps));
  }

  /** The phase of an interval, with `h` hints used before it and `next` after it: the phase of the ready event when
      that is one of the two, and then a hint is used if it is the same; else the next hint; else "unknown". */
  ghost predicate UsesHint(steps: seq<Step>, m: Match, phase: string, hints: seq<string>, h: nat, next: nat)
    requires Sound(steps, m)
  {
    var given := steps[m.take].phase;
    if given == "prefill" || given == "decode" then
      phase == given && next == if h < |hints| && hints[h] == given then h + 1 else h
    else if h < |hints| then phase == hints[h] && next == h + 1
    else phase == "unknown" && next == h
  }

  /** `used[k]` is the number of hints used before interval `k`. */
  ghost predicate HintTrail(steps: seq<Step>, ms: seq<Match>, o: Outcome, hints: seq<string>, used: seq<nat>)
    requires WellMatched(steps, ms)
  {
    var es := Emitted(steps, ms);
    && |o.slots| == |es| && |used| == |es| + 1 && used[0] == 0
    && (forall k :: 0 <= k < |es| ==> UsesHint(steps, es[k], o.slots[k].phase, hints, used[k], used[k + 1]))
    && used[|es|] <= |hints| && o.hints == hints[used[|es|]..]
  }

  /** Which phase every interval gets, and which hints are left. */
  lemma {:induction false} PhasesAndHints(steps: seq<Step>, hints: seq<string>) returns (used: seq<nat>)
    ensures WellMatched(steps, Matches(steps)) && HintTrail(steps, Matches(steps), Result(steps, hints), hints, used)
  {
    MatchesFit(steps);
    if steps == [] {
      used := [0];
      assert hints[0..] == hints;
    } else {
      var n := |steps| - 1;
      var front := steps[..n];
      used := PhasesAndHints(front, hints);
      TrailLater(front, steps[n], Matches(front), Result(front, hints), hints, used);
      assert steps == front + [steps[n]];
      if steps[n].Take? && Pending(front) != [] {
        used := TrailStep(steps, hints, used);
      } else {
        assert Matches(steps) == Matches(front) && Result(steps, hints) == Result(front, hints);
      }
    }
  }

  lemma TrailLater(front: seq<Step>, step: Step, ms: seq<Match>, o: Outcome, hints: seq<string>, used: seq<nat>)
    requires WellMatched(front, ms) && HintTrail(front, ms, o, hints, used)
    ensures WellMatched(front + [step], ms) && HintTrail(front + [step], ms, o, hints, used)
  {
    EmittedLater(front, step, ms);
    var es := Emitted(front, ms);
    forall k | 0 <= k < |es|
      ensures UsesHint(front + [step], es[k], o.slots[k].phase, hints, used[k], used[k + 1])
    {
      assert Sound(front, es[k]) && UsesHint(front, es[k], o.slots[k].phase, hints, used[k], used[k + 1]);
    }
  }

  lemma {:induction false} TrailStep(steps: seq<Step>, hints: seq<string>, used: seq<nat>) returns (more: seq<nat>)
    requires steps != [] && steps[|steps| - 1].Take? && Pending(steps[..|steps| - 1]) != []
    requires WellMatched(steps, Matches(steps)) && WellMatched(steps, Matches(steps[..|steps| - 1]))
    requires HintTrail(steps, Matches(steps[..|steps| - 1]), Result(steps[..|steps| - 1], hints), hints, used)
    ensures HintTrail(steps, Matches(steps), Result(steps, hints), hints, more)
  {
    var n := |steps| - 1;
    var q := Pending(steps[..n]);
    var starts := Starts(steps[..n], q);
    var k := Choice(starts, steps[n].key);
    assert starts[k] == steps[q[k]].start;
    more := TrailPlus(steps, Matches(steps[..n]), Match(q[k], n), Result(steps[..n], hints), hints, used);
  }

  lemma HintTaken(given: string, hints: seq<string>, h: nat)
    requires h <= |hints|
    ensures var uses := h < |hints| && (!Given(given) || hints[h] == given);
      PhaseFor(given, hints[h..]) ==
        (if Given(given) then given else if h < |hints| then hints[h] else "unknown",
         hints[if uses then h + 1 else h..])
  {
  }

  lemma TrailPlus(steps: seq<Step>, ms: seq<Match>, m: Match, o: Outcome, hints: seq<string>, used: seq<nat>)
    returns (more: seq<nat>)
    requires WellMatched(steps, ms) && WellMatched(steps, ms + [m]) && Sound(steps, m)
    requires HintTrail(steps, ms, o, hints, used)
    ensures var take := steps[m.take];
      HintTrail(steps, ms + [m], Deliver(o, steps[m.start].start, take.ts, take.key, take.phase), hints, more)
  {
    assert (ms + [m])[..|ms|] == ms;
    var es := Emitted(steps, ms);
    more := used;
    if Emits(steps, m) {
      var h, take := used[|es|], steps[m.take];
      var uses := h < |hints| && (!Given(take.phase) || hints[h] == take.phase);
      more := used + [if uses then h + 1 else h];
      HintTaken(take.phase, hints, h);
      var es2, o2 := Emitted(steps, ms + [m]), Deliver(o, steps[m.start].start, take.ts, take.key, take.phase);
      assert es2 == es + [m] && |o2.slots| == |es2| && o2.slots[..|es|] == o.slots;
      forall k | 0 <= k < |es2|
        ensures UsesHint(steps, es2[k], o2.slots[k].phase, hints, more[k], more[k + 1])
      {
        if k < |es| {
          assert es2[k] == es[k] && o2.slots[k] == o.slots[k];
          assert UsesHint(steps, es[k], o.slots[k].phase, hints, used[k], used[k + 1]);
        }
      }
    }
  }

  ghost predicate HintsUsed(o: Outcome, hints: seq<string>) {
    && (forall k :: 0 <= k < |o.slots| ==> o.slots[k].phase == if k < |hints| then hints[k] else "unknown")
    && o.hints == if |o.slots| <= |hints| then hints[|o.slots|..] else []
  }

  /** When no ready event names a phase, the intervals get the hinted phases in order, then "unknown". */
  lemma {:induction false} HintsInOrder(steps: seq<Step>, hints: seq<string>)
    requires forall i :: 0 <= i < |steps| && steps[i].Take? ==> !Given(steps[i].phase)
    ensures HintsUsed(Result(steps, hints), hints)
  {
    if steps != [] {
      HintsInOrder(steps[..|steps| - 1], hints);
    }
  }

  // ------------------------------------------------------------------- totals

  ghost function NsIn(slots: seq<Slot>, phase: string): int {
    if slots == [] then 0
    else
      var n := |slots| - 1;
      NsIn(slots[..n], phase) + if slots[n].phase == phase then slots[n].durationNs else 0
  }

  ghost function CountIn(slots: seq<Slot>, phase: string): int {
    if slots == [] then 0
    else
      var n := |slots| - 1;
      CountIn(slots[..n], phase) + if slots[n].phase == phase then 1 else 0
  }

  ghost function TotalNs(slots: seq<Slot>): int {
    if slots == [] then 0 else TotalNs(slots[..|slots| - 1]) + slots[|slots| - 1].durationNs
  }

  lemma SumValuesAdd(m: map<string, int>, k: string, d: int)
    ensures SumValues(m[k := ValueAt(m, k) + d]) == SumValues(m) + d
  {
    var r := m[k := ValueAt(m, k) + d];
    SumValuesRemove(m, k);
    SumValuesRemove(r, k);
    assert r - {k} == m - {k};
  }

  /** The totals per phase add up to the time of all intervals, and the counts to their number. */
  lemma {:induction false} PhasesAddUp(slots: seq<Slot>, ns: map<string, int>, count: map<string, int>)
    requires forall p :: ValueAt(ns, p) == NsIn(slots, p) && ValueAt(count, p) == CountIn(slots, p)
    ensures SumValues(ns) == TotalNs(slots) && SumValues(count) == |slots|
  {
    if slots == [] {
      assert forall p :: p in ns ==> ns[p] == ValueAt(ns, p) == 0;
      assert forall p :: p in count ==> count[p] == ValueAt(count, p) == 0;
      SumValuesZero(ns);
      SumValuesZero(count);
    } else {
      var s := slots[|slots| - 1];
      var ns' := ns[s.phase := ValueAt(ns, s.phase) - s.durationNs];
      var count' := count[s.phase := ValueAt(count, s.phase) - 1];
      var front := slots[..|slots| - 1];
      forall p
        ensures ValueAt(ns', p) == NsIn(front, p) && ValueAt(count', p) == CountIn(front, p)
      {
        assert ValueAt(ns, p) == NsIn(slots, p) && ValueAt(count, p) == CountIn(slots, p);
      }
      PhasesAddUp(front, ns', count');
      SumValuesAdd(ns, s.phase, -s.durationNs);
      SumValuesAdd(count, s.phase, -1);
    }
  }

  // ------------------------------------------------------------------- stream

  datatype Entry = Entry(rid: string, step: Step)

  /** The history of one request. */
  ghost function Of(trace: seq<Entry>, rid: string): seq<Step> {
    if trace == [] then []
    else
      var n := |trace| - 1;
      Of(trace[..n], rid) + if trace[n].rid == rid then [trace[n].step] else []
  }

  lemma {:induction false} OfPlus(trace: seq<Entry>, e: Entry, rid: string)
    ensures Of(trace + [e], rid) == Of(trace, rid) + if e.rid == rid then [e.step] else []
  {
    assert (trace + [e])[..|trace|] == trace;
  }

  /** The steps of one event: one for each named request, in order. */
  function OutSteps(rids: seq<string>, start: Start): seq<Entry> {
    if rids == [] then []
    else
      var n := |rids| - 1;
      OutSteps(rids[..n], start) + if rids[n] != "" then [Entry(rids[n], Push(start))] else []
  }

  function ReadySteps(rids: seq<string>, ts: int, key: string, phases: map<string, string>): seq<Entry> {
    if rids == [] then []
    else
      var n := |rids| - 1;
      var phase := if rids[n] in phases then phases[rids[n]] else "";
      ReadySteps(rids[..n], ts, key, phases) + if rids[n] != "" then [Entry(rids[n], Take(ts, key, phase))] else []
  }

  /** `at` lists, in order, the places of the requests that have a name. */
  ghost predicate NamedPlaces(rids: seq<string>, at: seq<nat>) {
    && Increasing(at) && (forall k :: 0 <= k < |at| ==> at[k] < |rids|)
    && forall i: nat :: i in at <==> i < |rids| && rids[i] != ""
  }

  lemma NamedPlus(rids: seq<string>, at: seq<nat>)
    requires rids != [] && NamedPlaces(rids[..|rids| - 1], at)
    ensures NamedPlaces(rids, if rids[|rids| - 1] != "" then at + [|rids| - 1] else at)
  {
    var n := |rids| - 1;
    assert forall k :: 0 <= k < |at| ==> at[k] < n;
  }

  /** An event that hands out a step queues its start once for every named request, in order. */
  lemma {:induction false} OutStepsAre(rids: seq<string>, start: Start) returns (at: seq<nat>)
    ensures NamedPlaces(rids, at)
    ensures var es := OutSteps(rids, start);
      |es| == |at| && forall k :: 0 <= k < |at| ==> es[k] == Entry(rids[at[k]], Push(start))
  {
    at := [];
    if rids != [] {
      var n := |rids| - 1;
      at := OutStepsAre(rids[..n], start);
      NamedPlus(rids, at);
      at := if rids[n] != "" then at + [n] else at;
    }
  }

  /** A ready event takes a start once for every named request, in order, with that request's phase if it has one. */
  lemma {:induction false} ReadyStepsAre(rids: seq<string>, ts: int, key: string, phases: map<string, string>)
    returns (at: seq<nat>)
    ensures NamedPlaces(rids, at)
    ensures var es := ReadySteps(rids, ts, key, phases);
      |es| == |at| && forall k :: 0 <= k < |at| ==>
        var rid := rids[at[k]];
        es[k] == Entry(rid, Take(ts, key, if rid in phases then phases[rid] else ""))
  {
    at := [];
    if rids != [] {
      var n := |rids| - 1;
      at := ReadyStepsAre(rids[..n], ts, key, phases);
      NamedPlus(rids, at);
      at := if rids[n] != "" then at + [n] else at;
    }
  }

  /** One scheduler event: a step handed out, a step that is ready, or anything else. */
  datatype Event =
    | Out(ts: int, key: string, rids: seq<string>)
    | Ready(ts: int, key: string, rids: seq<string>, phases: map<string, string>)
    | Other(ts: int)

  /** `to_ns(...) or 0`. */
  function SortStamp(ts: int): int {
    if ToNs(ts).Some? then ToNs(ts).value else 0
  }

  function EventKey(e: Event): Key {
    Key(SortStamp(e.ts), 0, 0)
  }

  /** What an event does; one without a timestamp does nothing. */
  function EventSteps(e: Event): seq<Entry> {
    match ToNs(e.ts)
    case None => []
    case Some(ts) =>
      match e
      case Out(_, key, rids) => OutSteps(rids, Start(ts, key, rids))
      case Ready(_, key, rids, phases) => ReadySteps(rids, ts, key, phases)
      case Other(_) => []
  }

  /** An event without a positive timestamp does nothing. The others act at the time that `to_ns` reads: a step handed
      out queues a start with the event's key and requests, a ready one takes starts. */
  lemma EventActs(e: Event)
    ensures e.ts <= 0 || e.Other? ==> EventSteps(e) == []
    ensures e.ts > 0 && e.Out? ==> EventSteps(e) == OutSteps(e.rids, Start(ToNs(e.ts).value, e.key, e.rids))
    ensures e.ts > 0 && e.Ready? ==> EventSteps(e) == ReadySteps(e.rids, ToNs(e.ts).value, e.key, e.phases)
  {
  }

  /** Events are ordered by the time that is read, and those without one come first. */
  lemma EventOrder(a: Event, b: Event)
    ensures LE(EventKey(a), EventKey(b)) <==> a.ts <= 0 || (b.ts > 0 && ToNs(a.ts).value <= ToNs(b.ts).value)
  {
  }

  function StreamSteps(events: seq<Event>): seq<Entry> {
    if events == [] then [] else StreamSteps(events[..|events| - 1]) + EventSteps(events[|events| - 1])
  }

  // ------------------------------------------------- the stream is in order

  ghost predicate AllAt(trace: seq<Entry>, t: int) {
    forall i :: 0 <= i < |trace| ==> At(trace[i].step) == t
  }

  ghost predicate AtMost(trace: seq<Entry>, t: int) {
    forall i :: 0 <= i < |trace| ==> At(trace[i].step) <= t
  }

  ghost predicate TimeOrdered(trace: seq<Entry>) {
    forall i, j :: 0 <= i < j < |trace| ==> At(trace[i].step) <= At(trace[j].step)
  }

  lemma {:induction false} OutAt(rids: seq<string>, start: Start)
    ensures AllAt(OutSteps(rids, start), start.startNs)
  {
    if rids != [] {
      OutAt(rids[..|rids| - 1], start);
    }
  }

  lemma {:induction false} ReadyAt(rids: seq<string>, ts: int, key: string, phases: map<string, string>)
    ensures AllAt(ReadySteps(rids, ts, key, phases), ts)
  {
    if rids != [] {
      ReadyAt(rids[..|rids| - 1], ts, key, phases);
    }
  }

  lemma EventAt(e: Event)
    ensures AllAt(EventSteps(e), SortStamp(e.ts))
  {
    if ToNs(e.ts).Some? {
      var ts := ToNs(e.ts).value;
      match e
      case Out(_, key, rids) => OutAt(rids, Start(ts, key, rids));
      case Ready(_, key, rids, phases) => ReadyAt(rids, ts, key, phases);
      case Other(_) =>
    }
  }

  lemma OrderedJoin(a: seq<Entry>, b: seq<Entry>, t: int)
    requires TimeOrdered(a) && AtMost(a, t) && AllAt(b, t)
    ensures TimeOrdered(a + b) && AtMost(a + b, t)
  {
  }

  /** Events in the order of their timestamps act in the order of time. */
  lemma {:induction false} StreamOrdered(events: seq<Event>)
    requires SortedBy(events, EventKey)
    ensures TimeOrdered(StreamSteps(events))
    ensures events != [] ==> AtMost(StreamSteps(events), SortStamp(events[|events| - 1].ts))
  {
    if events != [] {
      var n := |events| - 1;
      StreamOrdered(events[..n]);
      assert n > 0 ==> LE(EventKey(events[n - 1]), EventKey(events[n]));
      EventAt(events[n]);
      OrderedJoin(StreamSteps(events[..n]), EventSteps(events[n]), SortStamp(events[n].ts));
    }
  }

  ghost predicate StepsAtMost(steps: seq<Step>, t: int) {
    forall i :: 0 <= i < |steps| ==> At(steps[i]) <= t
  }

  lemma {:induction false} OfOrdered(trace: seq<Entry>, rid: string)
    requires TimeOrdered(trace)
    ensures Sorted(Of(trace, rid))
    ensures trace != [] ==> StepsAtMost(Of(trace, rid), At(trace[|trace| - 1].step))
  {
    if trace != [] {
      var n := |trace| - 1;
      OfOrdered(trace[..n], rid);
      assert n > 0 ==> At(trace[n - 1].step) <= At(trace[n].step);
    }
  }

  /** On every stream of events, for every request: a start is discarded exactly when its ready event has the
      same timestamp. */
  lemma {:induction false} StreamDiscards(events: seq<Event>, rid: string, m: Match)
    requires m in Matches(Of(StreamSteps(SortBy(events, EventKey)), rid))
    ensures var steps := Of(StreamSteps(SortBy(events, EventKey)), rid);
      Sound(steps, m) && (!Emits(steps, m) <==> steps[m.start].start.startNs == steps[m.take].ts)
  {
    var trace := StreamSteps(SortBy(events, EventKey));
    StreamOrdered(SortBy(events, EventKey));
    OfOrdered(trace, rid);
    DiscardedOnTie(Of(trace, rid), m);
  }

  /** Lookup in a `defaultdict` of queues. */
  function Queue<T>(m: map<string, seq<T>>, rid: string): seq<T> {
    if rid in m then m[rid] else []
  }

  function Counter(m: map<string, map<string, int>>, rid: string): map<string, int> {
    if rid in m then m[rid] else map[]
  }

  /** What the tables hold about one request. */
  datatype Lane = Lane(pending: seq<Start>, hints: seq<string>, intervals: seq<Slot>,
                       ns: map<string, int>, count: map<string, int>)

  /** The tables hold what the request's own history says, whatever happens to other requests. */
  ghost predicate Fits(own: seq<Step>, given: seq<string>, l: Lane) {
    && l.pending == Starts(own, Pending(own))
    && Result(own, given) == Outcome(l.intervals, l.hints)
    && Totalled(l)
  }

  ghost predicate Totalled(l: Lane) {
    forall p :: ValueAt(l.ns, p) == NsIn(l.intervals, p) && ValueAt(l.count, p) == CountIn(l.intervals, p)
  }

  lemma FitsPush(own: seq<Step>, given: seq<string>, l: Lane, start: Start)
    requires Fits(own, given, l)
    ensures Fits(own + [Push(start)], given, l.(pending := l.pending + [start]))
  {
    assert (own + [Push(start)])[..|own|] == own;
  }

  /** The interval of a taken start, with its phase and the totals of that phase. */
  function Delivered(l: Lane, start: Start, ts: int, key: string, given: string): Lane {
    var o := Deliver(Outcome(l.intervals, l.hints), start, ts, key, given);
    var phase := PhaseFor(given, l.hints).0;
    if ts <= start.startNs then l
    else
      Lane(l.pending, o.hints, o.slots, l.ns[phase := ValueAt(l.ns, phase) + (ts - start.startNs)],
           l.count[phase := ValueAt(l.count, phase) + 1])
  }

  /** A ready event on a request with pending starts. */
  function AfterTake(l: Lane, ts: int, key: string, given: string): Lane {
    if l.pending == [] then l
    else
      var k := Choice(l.pending, key);
      Delivered(l.(pending := Without(l.pending, k)), l.pending[k], ts, key, given)
  }

  lemma FitsTake(own: seq<Step>, given: seq<string>, l: Lane, ts: int, key: string, phase: string)
    requires Fits(own, given, l)
    ensures Fits(own + [Take(ts, key, phase)], given, AfterTake(l, ts, key, phase))
  {
    var all := own + [Take(ts, key, phase)];
    assert all[..|own|] == own;
    if l.pending != [] {
      var k := Choice(l.pending, key);
      StartsWithout(own, Take(ts, key, phase), Pending(own), k);
      TotalledDelivered(l.(pending := Without(l.pending, k)), l.pending[k], ts, key, phase);
    }
  }

  lemma StartsWithout(own: seq<Step>, step: Step, q: seq<nat>, k: nat)
    requires Pushes(own, q) && k < |q|
    ensures Pushes(own + [step], Without(q, k)) && Starts(own + [step], Without(q, k)) == Without(Starts(own, q), k)
  {
  }

  lemma TotalledDelivered(l: Lane, start: Start, ts: int, key: string, given: string)
    requires Totalled(l)
    ensures Totalled(Delivered(l, start, ts, key, given))
  {
    if ts > start.startNs {
      var r := Delivered(l, start, ts, key, given);
      TotalledPlus(l, r, r.intervals[|l.intervals|]);
    }
  }

  lemma TotalledPlus(l: Lane, r: Lane, slot: Slot)
    requires Totalled(l) && r.intervals == l.intervals + [slot]
    requires r.ns == l.ns[slot.phase := ValueAt(l.ns, slot.phase) + slot.durationNs]
    requires r.count == l.count[slot.phase := ValueAt(l.count, slot.phase) + 1]
    ensures Totalled(r)
  {
    assert r.intervals[..|l.intervals|] == l.intervals;
    forall p
      ensures ValueAt(r.ns, p) == NsIn(r.intervals, p) && ValueAt(r.count, p) == CountIn(r.intervals, p)
    {
      assert ValueAt(l.ns, p) == NsIn(l.intervals, p) && ValueAt(l.count, p) == CountIn(l.intervals, p);
    }
  }

  class Dispatches {
    var pending: map<string, seq<Start>>
    var hints: map<string, seq<string>>
    var intervals: map<string, seq<Slot>>
    var phaseNs: map<string, map<string, int>>
    var phaseCount: map<string, map<string, int>>
    ghost const given: map<string, seq<string>>
    ghost var trace: seq<Entry>

    ghost function LaneOf(rid: string): Lane
      reads this
    {
      Lane(Queue(pending, rid), Queue(hints, rid), Queue(intervals, rid), Counter(phaseNs, rid),
        Counter(phaseCount, rid))
    }

    ghost predicate Valid()
      reads this
    {
      forall rid :: Fits(Of(trace, rid), Queue(given, rid), LaneOf(rid))
    }

    constructor (phaseHints: map<string, seq<string>>)
      ensures Valid() && trace == [] && given == phaseHints
    {
      pending, hints, intervals, phaseNs, phaseCount := map[], phaseHints, map[], map[], map[];
      given, trace := phaseHints, [];
    }

    /** The loop over the events, sorted by timestamp. */
    method ProcessStream(events: seq<Event>)
      requires Valid() && trace == []
      modifies this
      ensures Valid() && trace == StreamSteps(SortBy(events, EventKey))
      ensures forall rid :: Sorted(Of(trace, rid))
    {
      var ordered := SortBy(events, EventKey);
      for i := 0 to |ordered|
        invariant Valid() && trace == StreamSteps(ordered[..i])
      {
        assert ordered[..i + 1][..i] == ordered[..i];
        match ordered[i]
        case Out(ts, key, rids) => ScheduledOut(ts, key, rids);
        case Ready(ts, key, rids, phases) => StepReady(ts, key, rids, phases);
        case Other(_) =>
      }
      assert ordered[..|ordered|] == ordered;
      StreamOrdered(ordered);
      forall rid
        ensures Sorted(Of(trace, rid))
      {
        OfOrdered(trace, rid);
      }
    }

    /** `req_scheduler_out_rpc`: the step has been handed to the workers. */
    method ScheduledOut(ts: int, key: string, rids: seq<string>)
      requires Valid()
      modifies this
      ensures Valid() && trace == old(trace) + EventSteps(Out(ts, key, rids))
    {
      if ToNs(ts).None? {
        return;
      }
      var start := Start(ToNs(ts).value, key, rids);
      var i := 0;
      while i < |rids|
        invariant 0 <= i <= |rids| && Valid()
        invariant trace == old(trace) + OutSteps(rids[..i], start)
      {
        assert rids[..i + 1][..i] == rids[..i];
        if rids[i] != "" {
          PushStart(rids[i], start);
        }
        i := i + 1;
      }
      assert rids[..i] == rids;
    }

    method PushStart(rid: string, start: Start)
      requires Valid()
      modifies this
      ensures Valid() && trace == old(trace) + [Entry(rid, Push(start))]
    {
      FitsPush(Of(trace, rid), Queue(given, rid), LaneOf(rid), start);
      pending := pending[rid := Queue(pending, rid) + [start]];
      trace := trace + [Entry(rid, Push(start))];
      forall other
        ensures Fits(Of(trace, other), Queue(given, other), LaneOf(other))
      {
        OfPlus(old(trace), Entry(rid, Push(start)), other);
        if other != rid {
          assert LaneOf(other) == old(LaneOf(other)) && Of(trace, other) == Of(old(trace), other);
        }
      }
    }

    /** `req_step_ready`: the workers are done with the step. */
    method StepReady(ts: int, key: string, rids: seq<string>, phases: map<string, string>)
      requires Valid()
      modifies this
      ensures Valid() && trace == old(trace) + EventSteps(Ready(ts, key, rids, phases))
    {
      if ToNs(ts).None? {
        return;
      }
      var end := ToNs(ts).value;
      var i := 0;
      while i < |rids|
        invariant 0 <= i <= |rids| && Valid()
        invariant trace == old(trace) + ReadySteps(rids[..i], end, key, phases)
      {
        assert rids[..i + 1][..i] == rids[..i];
        if rids[i] != "" {
          TakeStart(rids[i], end, key, if rids[i] in phases then phases[rids[i]] else "");
        }
        i := i + 1;
      }
      assert rids[..i] == rids;
    }

    method TakeStart(rid: string, ts: int, key: string, phase: string)
      requires Valid()
      modifies this
      ensures Valid() && trace == old(trace) + [Entry(rid, Take(ts, key, phase))]
    {
      FitsTake(Of(trace, rid), Queue(given, rid), LaneOf(rid), ts, key, phase);
      var got := PopStart(rid, key);
      forall other | other != rid
        ensures LaneOf(other) == old(LaneOf(other))
      {
        assert Queue(pending, other) == old(Queue(pending, other));
      }
      if got.Some? && ts > got.value.startNs {
        Record(rid, got.value, ts, key, phase);
      }
      assert LaneOf(rid) == AfterTake(old(LaneOf(rid)), ts, key, phase);
      trace := trace + [Entry(rid, Take(ts, key, phase))];
      forall other
        ensures Fits(Of(trace, other), Queue(given, other), LaneOf(other))
      {
        OfPlus(old(trace), Entry(rid, Take(ts, key, phase)), other);
        if other != rid {
          assert LaneOf(other) == old(LaneOf(other)) && Of(trace, other) == Of(old(trace), other);
        }
      }
    }

    /** `_pop_dispatch_start_for_ready`. */
    method PopStart(rid: string, key: string) returns (r: Option<Start>)
      modifies `pending
      ensures forall other :: other != rid ==> Queue(pending, other) == old(Queue(pending, other))
      ensures var q := old(Queue(pending, rid));
        if q == [] then r == None && Queue(pending, rid) == []
        else r == Some(q[Choice(q, key)]) && Queue(pending, rid) == Without(q, Choice(q, key))
    {
      var queue := Queue(pending, rid);
      if queue == [] {
        return None;
      }
      if key != "" {
        for idx := 0 to |queue|
          invariant forall j :: 0 <= j < idx ==> queue[j].key != key
          invariant pending == old(pending)
        {
          if queue[idx].key == key {
            ChosenUnique(queue, key, idx, Choice(queue, key));
            pending := pending[rid := Without(queue, idx)];
            return Some(queue[idx]);
          }
        }
      }
      pending := pending[rid := queue[1..]];
      r := Some(queue[0]);
    }

    /** The interval from `start` to the ready event, its phase and the totals of that phase. */
    method Record(rid: string, start: Start, ts: int, key: string, given: string)
      requires ts > start.startNs
      modifies `hints, `intervals, `phaseNs, `phaseCount
      ensures forall other :: other != rid ==> LaneOf(other) == old(LaneOf(other))
      ensures LaneOf(rid) == Delivered(old(LaneOf(rid)), start, ts, key, given)
    {
      var phase := ChoosePhase(rid, given);
      var startKey := if key != "" then key else start.key;
      var slot := Slot(start.startNs, ts, phase, ts - start.startNs, startKey, start.batch);
      AddSlot(rid, slot);
      ghost var l := old(LaneOf(rid));
      assert Queue(hints, rid) == PhaseFor(given, l.hints).1 && Queue(intervals, rid) == l.intervals + [slot];
      assert Counter(phaseNs, rid) == l.ns[phase := ValueAt(l.ns, phase) + slot.durationNs];
      assert Counter(phaseCount, rid) == l.count[phase := ValueAt(l.count, phase) + 1];
    }

    method ChoosePhase(rid: string, given: string) returns (phase: string)
      modifies `hints
      ensures (phase, Queue(hints, rid)) == PhaseFor(given, old(Queue(hints, rid)))
      ensures forall other :: other != rid ==> Queue(hints, other) == old(Queue(hints, other))
    {
      phase := given;
      var queue := Queue(hints, rid);
      if phase != "prefill" && phase != "decode" {
        if queue != [] {
          phase := queue[0];
          hints := hints[rid := queue[1..]];
        } else {
          phase := "unknown";
        }
      } else if queue != [] && queue[0] == phase {
        hints := hints[rid := queue[1..]];
      }
    }

    method AddSlot(rid: string, slot: Slot)
      modifies `intervals, `phaseNs, `phaseCount
      ensures intervals == old(intervals)[rid := old(Queue(intervals, rid)) + [slot]]
      ensures var ns := old(Counter(phaseNs, rid));
        phaseNs == old(phaseNs)[rid := ns[slot.phase := ValueAt(ns, slot.phase) + slot.durationNs]]
      ensures var count := old(Counter(phaseCount, rid));
        phaseCount == old(phaseCount)[rid := count[slot.phase := ValueAt(count, slot.phase) + 1]]
    {
      intervals := intervals[rid := Queue(intervals, rid) + [slot]];
      var ns, count := Counter(phaseNs, rid), Counter(phaseCount, rid);
      phaseNs := phaseNs[rid := ns[slot.phase := ValueAt(ns, slot.phase) + slot.durationNs]];
      phaseCount := phaseCount[rid := count[slot.phase := ValueAt(count, slot.phase) + 1]];
    }
  }
}
