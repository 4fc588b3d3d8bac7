# Latency attribution, verified

The tracer records what a serving engine does with each request and splits the request's wall time into
named components. This project models the parts that do the accounting and proves that the independent
computations agree:

- the attribution engine of `perfetto/log_to_trace.py`: interval algebra, priority sweep, pipeline gaps,
  lane allocation, dispatch pairing, queue gaps, operating-system delay, TTFT and TPOT decompositions, and the
  nudging of touching events;
- the output-handler rounds of `vllm_trace/trace_patch.py`: who is charged for a scheduler wait;
- the run-queue probe of `src/FINAL/sched_latency.bpf.c`, as atomic steps over its two maps;
- process discovery: the two descendant searches, the target file with its writer and two readers, the scan
  that fills the probe's map, and the controller's state file.

## How it is modelled

Timestamps are integer nanoseconds. An interval is half-open, and the measure of a list of intervals is the
size of the set of instants that it covers (`Spans`). Every duration that the code computes is tied to the
size of such a set, so two computations agree when they measure the same set. An interval list is *canonical*
when it is sorted, its intervals are non-empty, and neighbours leave a gap (`Intervals`); there is exactly one
canonical list for a set of instants.

Where methods compute with a function, a lemma or a contract also says what that function means in terms of the
inputs, with quantifiers, sets of instants or positions in a list (`...Are`, `...Is`, `...Means`).

Code that changes things step by step is written as methods over sequences, maps, arrays and classes
(`HandlerTask`, `Dispatches`, `Probe`, `Collector`); each method is proved against a specification function or
predicate, and the lemmas are about those. Classes keep a ghost history, and `Valid()` ties the real fields to
it, so a lemma about every history is a statement about every reachable state.

| module | subject |
|---|---|
| `Sets`, `Sorting`, `Spans` | finite sets, stable sorting, instants and measure |
| `Doubles`, `Intervals`, `Sweep` | reading stamps, clip, merge, uncovered time; one component for every instant |
| `Stages`, `Breakdown`, `Totals` | pipeline stages and gaps, one dispatch, one request |
| `Pairing`, `QueueGaps`, `Tpot`, `Ttft`, `Requests` | dispatches from events, queue time, the two decompositions, a request end to end |
| `Lanes`, `OsWaits`, `OsDelay`, `Nudge` | lane allocation, operating-system delay, boundary nudging |
| `OutputHandler`, `HandlerRounds` | output slices and suffix sets, the round protocol |
| `RunQueue`, `ProbeDelay` | the probe, and delay from its runs |
| `Descendants`, `ParentWalk`, `Decimals`, `TargetFile`, `WorkerScan`, `Control`, `StateFile` | process discovery and its files |

## Where the code is not exact

- TPOT: the ten components are exactly the window if and only if no counted wait runs into an earlier dispatch
  (`Tpot.ExactIff`). Pairwise disjoint dispatches are enough; `Requests.OverlappedDecodes` is a request, with both
  entries, where they are not exact.
- TTFT: with disjoint prefills and engine-core waits in place the components are exact if and only if the window
  starts no later than the first prefill (`Ttft.TtftConservation`, `Ttft.LateStartOverfills`). Without any assumption
  they obey the identity of `Ttft.TtftBalance`, whose condition is computed from the inputs.
- Operating-system delay: execute spans carry stamps of the monotonic clock, and `to_ns` takes those up to 10^14 for
  seconds. The delay is right for all waits if and only if every span that serves a request starts above that limit,
  about 27.8 hours after boot (`OsDelay.DelayRightIff`, `OsDelay.FreshHostMissesDelay`).
- Queue gaps: queue time plus dispatch time is the whole stretch if and only if no dispatch starts before its
  predecessor ends (`QueueGaps.QueueConservation`).
- Output slices: with a negative chunk size, and outputs to cut, the slices lose outputs
  (`OutputHandler.ChunkSlices`).
- Descendants: the upward walk agrees with the downward search for a root above 1 if and only if no process at or
  below 1 is a descendant (`ParentWalk.SearchesAgree`, with `ParentWalk.InitBelowRoot` as an input where one is). For
  a root of 1 it finds nothing. It returns if and only if it stops within one step more than there are processes
  (`ParentWalk.HaltsIff`); on a cycle that misses the root it does not (`ParentWalk.CycleNeverStops`), so
  `IsDescendantOrSelf` requires a walk that stops.
- Target file: the loader gives both sets back if and only if every id fits in 32 bits
  (`TargetFile.LoaderRoundTrip`); ids above `INT32_MAX` are read but, as pids, never tracked
  (`WorkerScan.ScanFindsTargets`). A pid that is too long for the loader's buffer is read in pieces
  (`TargetFile.LongPidMisread`).
- Loader and controller read the same file and choose differently: the loader keeps the pids that the walk finds and
  the threads, the controller adds the pids to the whole family of the root. `Control.SameTargets` says when the
  choices are equal, `Control.AskedAreNamed` when the loader's is included; `Control.StrangerNamedOnly` is an input
  where they differ.
- State file: a saved table is loaded back if and only if keys and values have no surrounding white space and no
  line ends, and keys have no `=` (`StateFile.StateRoundTrip`).
- Nudging: a start still touches its predecessor's end if and only if it did before and the event is not longer
  than `epsilon` (`Nudge.StillTouching`).

## Model

| member | source | states |
|---|---|---|
| Intervals.ClipMeaning | perfetto/log_to_trace.py:487-498 | the clipped interval holds exactly the instants of a recorded interval that lie in the optional window; `None` means there are none |
| Intervals.ClipAllAre | perfetto/log_to_trace.py:528-539 | clipping a list keeps, in order and with repetitions, exactly the intervals of which something is left |
| Intervals.CanonicalUnique | perfetto/log_to_trace.py:501-512 | two canonical lists of the same instants are equal, so merging depends only on the instants, not on the input's order or cuts |
| Intervals.MergeIntervals | perfetto/log_to_trace.py:501-515 | the result is canonical, covers exactly the input's instants, its lengths add up to the measure of the union, and a canonical input comes back unchanged |
| Spans.SumAndMeasure | perfetto/log_to_trace.py:514-515 | lengths add up to at least the measure of the union, and to exactly that iff the intervals are disjoint |
| Intervals.UncoveredIntervalNs | perfetto/log_to_trace.py:518-525 | the number of window instants no interval covers; covered plus uncovered is the window, so the clamp at zero never cuts a non-empty window |
| Intervals.SumClippedItems | perfetto/log_to_trace.py:528-539 | the clipped list covers the recorded instants of the window; with merging the total is their measure, without it the plain sum, never less |
| Lanes.AssignLanes | perfetto/log_to_trace.py:563-595 | the assignment, indexed by original position, never puts overlapping intervals in one lane; the lane count is the largest number alive at one instant, and no proper assignment has fewer; every interval is in the lowest lane whose earlier intervals have ended, taking them by start, end and place |
| Lanes.AliveNeedLanes | perfetto/log_to_trace.py:563-595 | any proper assignment has at least as many lanes as intervals alive at any instant |
| Sweep.TopUnique | perfetto/log_to_trace.py:603-617 | the component of highest priority at an instant is unique |
| Sweep.AttributeWall | perfetto/log_to_trace.py:626-713 | segments tile the window; each component's total is the number of instants that it wins: those at which an item of it runs and no item of a component that goes before it, listed component by component, and for the pipeline gap those at which nothing runs; without any item the window is other compute; the overlap total is clipped lengths minus the measure of their union |
| Sweep.FirstGets | perfetto/log_to_trace.py:603-617 | the component with the lowest priority number and name at an instant is the one that the list of winners, component by component, gives it to |
| Sweep.OverlapStep | perfetto/log_to_trace.py:678-693 | adding what one segment hides keeps the overlap equal to the sum of lengths minus the measure of the union so far |
| Sweep.WallSum | perfetto/log_to_trace.py:626-713 | the components of a window add up to its length |
| Sweep.PipelineGapIsUncovered | perfetto/log_to_trace.py:626-713 | when something meets the window, the pipeline gap is the uncovered time that the other computation gives |
| Stages.WindowsOf | perfetto/log_to_trace.py:782-828 | each stage's window spans exactly from its first to its last matching, clipped step instant, over all tensor-parallel ranks |
| Stages.FindGaps | perfetto/log_to_trace.py:830-863 | the gaps are exactly those between windows of one dp rank with no pipeline rank between them, each once |
| Stages.KnownEdge | perfetto/log_to_trace.py:619-623 | between known ranks m and n of a dp rank there is a gap iff m < n as integers, no rank k with m < k < n executes there, and the window of m ends before that of n starts |
| Stages.UnknownEdge | perfetto/log_to_trace.py:619-623 | the unknown rank comes last: the gap to it starts at the largest known rank, and no gap starts at it |
| Stages.StageTimeIs | perfetto/log_to_trace.py:597-600 | a stage executes for a dispatch in the step executions of its two ranks that carry the dispatch's key, or where one of the two has none |
| Stages.OrderedGapsDisjoint | perfetto/log_to_trace.py:830-863 | for a single dp rank whose windows start in rank order no instant lies in two gaps, so raw and measured gap time agree |
| Breakdown.ComputeItems | perfetto/log_to_trace.py:747-780 | the compute time of every (pp rank, component) pair is the size of the set of instants at which its matching phase intervals run in the dispatch, and pairs with none are not listed; the intervals add up to those times, and the components active at an instant are exactly those of the matching phase intervals |
| Breakdown.PairTimeIs | perfetto/log_to_trace.py:747-764 | a (pp rank, component) pair runs in the intervals of that rank and of the phases that count for the component, under the dispatch's key, or where one of the two has none |
| Breakdown.PhaseCounts | perfetto/log_to_trace.py:3146-3152 | every phase name counts for the component of the table, and any other name for other compute |
| Breakdown.BuildRow | perfetto/log_to_trace.py:738-901 | a row's compute times, stages, gaps, attribution and totals are those of its own dispatch, and its intervals add up to the compute times and the raw gaps |
| Breakdown.RowOverlap | perfetto/log_to_trace.py:747-899 | a row's parallel overlap is the time of all its pairs and gaps, added up, minus the size of the set of instants at which its dispatch computes or waits in a gap |
| Breakdown.RowExact | perfetto/log_to_trace.py:865-899 | the row's pipeline gap is the measure of the union of its gap intervals, at most the raw per-edge sum, equal iff the gaps are disjoint; the row's components add up to its duration |
| Totals.AttributeWindows | perfetto/log_to_trace.py:903-911 | the totals over the merged windows measure, per component, the instants where that component is chosen |
| Totals.BuildBreakdown | perfetto/log_to_trace.py:717-963 | every component's total is the measure of the instants it owns, said per instant from the inputs; compute, pipeline gap and unattributed time add up to the measure of the union of the dispatches, however they overlap; the request's gap is the measure of the union of all rows' gaps, at most the row sum, at most the raw sum; the parallel overlap is the compute time of all pairs of all rows plus all raw gaps, minus the size of the set of instants at which some kept dispatch computes or is in a gap |
| Totals.RowsAre | perfetto/log_to_trace.py:730-742 | the rows are the dispatches with a positive start before their end, by start and then by end, and in the given order where both are equal |
| Sorting.Stable | perfetto/log_to_trace.py:736-736 | sorting keeps elements with equal keys in the order in which they came |
| Totals.HiddenTime | perfetto/log_to_trace.py:903-912 | summed over the merged windows, the overlap is total interval length minus the measure of the union |
| Totals.TotalsSum | perfetto/log_to_trace.py:903-919 | component totals fill the merged windows exactly |
| Totals.GapShare | perfetto/log_to_trace.py:903-919 | over all windows, the instants given to the pipeline gap are exactly those in some row's gap |
| Totals.ShareIsTime | perfetto/log_to_trace.py:903-919 | the instants given to a component are those that the dispatches, phases and steps give it directly |
| Totals.GapTotalsOrdered | perfetto/log_to_trace.py:865-919 | union of gaps, sum over rows, raw sum over edges: in that order |
| Totals.SumCompute | perfetto/log_to_trace.py:914-917 | what is summed as compute is the whole minus the two gap components |
| Totals.PpGapWallNs | perfetto/log_to_trace.py:3734-3740 | clip, merge and sum over any rows is the measure of the union of their gaps |
| Totals.RowsGapsStamped | perfetto/log_to_trace.py:3734-3740 | the gaps of any breakdown are fit input for the reporting computation |
| Pairing.Conservation | perfetto/log_to_trace.py:2414-2464 | in every history, each queued start is either taken or pending, never both, and taken at most once; queued = taken + pending |
| Pairing.StartsBalance | perfetto/log_to_trace.py:2414-2487 | queued starts = intervals emitted + starts discarded + starts pending |
| Pairing.PairingRule | perfetto/log_to_trace.py:2416-2425 | every match takes the oldest pending start with the ready event's key, or the oldest of all when there is no key or none has it |
| Pairing.NoneIdle | perfetto/log_to_trace.py:2416-2464 | a ready event gets a start exactly when one is pending |
| Pairing.KeyedMatch | perfetto/log_to_trace.py:2416-2425 | a ready event whose key is pending takes a start with that key, no younger than any other with it |
| Pairing.KeylessFifo | perfetto/log_to_trace.py:2416-2425 | without keys, taken starts followed by pending ones are the queued ones in order |
| Pairing.DiscardedOnTie | perfetto/log_to_trace.py:2458-2464 | in a history in time order a start is discarded exactly when its ready event has the same timestamp |
| Pairing.StreamOrdered | perfetto/log_to_trace.py:2406-2409 | events sorted by timestamp act in the order of time |
| Pairing.StreamDiscards | perfetto/log_to_trace.py:2406-2464 | on every stream of events, for every request, a start is discarded exactly when its ready event has the same timestamp |
| Pairing.Dispatches.ProcessStream | perfetto/log_to_trace.py:2406-2487 | the sorted loop over all events gives every request its own history in time order, and the tables that history says |
| Pairing.SlotsRecord | perfetto/log_to_trace.py:2466-2485 | the intervals are those of the emitted matches, one each and in order, with the start's time and batch, the ready event's end, the key of whichever has one, and a given phase kept; hints are used from the front only |
| Pairing.HintsInOrder | perfetto/log_to_trace.py:2466-2475 | when no ready event names a phase, intervals get the hinted phases in order and then "unknown" |
| Pairing.PhasesAndHints | perfetto/log_to_trace.py:2462-2476 | every interval has the phase of its ready event when that is prefill or decode, else the next hint, else "unknown"; a hint is used in the second case, and in the first iff it is the same |
| Pairing.OutStepsAre | perfetto/log_to_trace.py:2430-2440 | a step handed out queues its start once for every named request, in order |
| Pairing.ReadyStepsAre | perfetto/log_to_trace.py:2446-2456 | a ready event takes a start once for every named request, in order, with that request's phase |
| Pairing.EventActs | perfetto/log_to_trace.py:2424-2445 | events without a positive timestamp do nothing; the others act at the time that is read, with their own key and requests |
| Pairing.EventOrder | perfetto/log_to_trace.py:2402-2405 | events are ordered by the time that is read alone, those without one first |
| Pairing.PhasesAddUp | perfetto/log_to_trace.py:2486-2487 | phase totals add up to the time of all intervals, phase counts to their number |
| Pairing.Dispatches.PopStart | perfetto/log_to_trace.py:2416-2425 | takes out the chosen start and leaves every other queue alone |
| Pairing.Dispatches.ScheduledOut | perfetto/log_to_trace.py:2434-2445 | queues one start for each named request; the tables keep agreeing with each request's own history |
| Pairing.Dispatches.StepReady | perfetto/log_to_trace.py:2447-2487 | takes at most one start for each named request; tables, phase totals and counts keep agreeing with each request's own history |
| QueueGaps.DeriveQueue | perfetto/log_to_trace.py:2497-2548 | the queue intervals are the enqueue gap and the gaps between neighbours in start order, classified by preemption, and only the enqueue gap is marked as such; the total splits into the enqueue part and the step-ready part |
| QueueGaps.QueueComplete | perfetto/log_to_trace.py:2497-2548 | every uncovered instant from enqueue to the last dispatch start is in a queue interval |
| QueueGaps.QueueSound | perfetto/log_to_trace.py:2497-2548 | when neighbours do not overlap, no instant is both waited and dispatched |
| QueueGaps.QueueDisjoint | perfetto/log_to_trace.py:2497-2548 | queue intervals never overlap, so their total is a measure |
| QueueGaps.QueueConservation | perfetto/log_to_trace.py:2497-2548 | queue time plus dispatch time exceeds the stretch from enqueue to last end by the neighbours' overlap, so it is exact iff no neighbours overlap |
| QueueGaps.Telescope | perfetto/log_to_trace.py:2521-2545 | gaps and intervals of neighbours telescope to the whole stretch plus their overlap |
| OsWaits.ScanThread | perfetto/log_to_trace.py:3030-3046 | on waits sorted by start, stopping at the first wait past the window loses no overlap |
| OsWaits.MergeRaws | perfetto/log_to_trace.py:3047-3083 | the merged blocks are canonical and cover the raw overlaps; each block's label is exactly that of the raw intervals it absorbed; the total is the measure |
| Intervals.SecondsAreFar | perfetto/log_to_trace.py:312-318 | a positive integer up to 10^14 is read as seconds and lands at least twice as far out |
| Intervals.ToNsIs | perfetto/log_to_trace.py:312-318 | what is not positive is missing, what is above 10^14 stays, and the rest becomes the double nearest to 10^9 times it |
| Doubles.RoundedNear | perfetto/log_to_trace.py:318-318 | the floating-point product is exact below 2^53 and never off by more than one part in 2^53 |
| Doubles.RoundedNearest | perfetto/log_to_trace.py:318-318 | the product is rounded to a double, no double is nearer, and of two as near the even one is taken |
| OsDelay.DelayOver | perfetto/log_to_trace.py:3011-3083 | over spans that are read already, the delay is the measure of the instants at which one of the request's windows meets a wait of a worker of that window's group, and each block names exactly the workers that delay it there |
| OsDelay.RequestDelay | perfetto/log_to_trace.py:2983-3083 | the same over spans as `to_ns` reads them; for spans above the nanosecond limit that is the delay of the recorded spans themselves |
| OsDelay.DelayMeans | perfetto/log_to_trace.py:3011-3046 | an instant is delayed iff a span that serves the request runs, and a thread with a span of the same dp rank, or without ranks the same thread, is inside a wait with no field missing |
| OsDelay.DpMeans | perfetto/log_to_trace.py:3003-3010 | a block lists a dp rank exactly for spans that have it, and it is not negative |
| OsDelay.ReadMeans | perfetto/log_to_trace.py:2983-3003 | only the two stamps of a span are changed, to what `to_ns` reads, or 0 |
| OsDelay.DelayRightIff | perfetto/log_to_trace.py:3003-3083 | the computed delay is the measure of the delayed instants for every request and every set of waits if and only if every span that serves a request starts above 10^14 |
| OsDelay.FreshHostMissesDelay | perfetto/log_to_trace.py:3003-3046 | on a clock of 10^13 ns a worker that waits through its whole span gives no delay |
| ProbeDelay.EventsAreWaits | src/FINAL/sched_latency.bpf.c:105-202 | over every run, the instants inside a thread's events are exactly those inside its long waits that the ring buffer had room for |
| ProbeDelay.WaitsAre | src/FINAL/sched_latency.c:367-386 | the waits that are read run from the latest mark of their thread to where it gets a CPU, and their reason is the kind of that mark |
| ProbeDelay.TracedDelay | perfetto/log_to_trace.py:2913-3083 | from the probe's state, a request is delayed at exactly the instants at which one of its groups executes while a worker of the group is inside a long wait of the run |
| Ttft.ComputeTtft | perfetto/log_to_trace.py:3224-3309 | an entry exists iff the window is non-empty; boundary, engine-core marks, neighbours' gaps and the union of the prefills give its parts (`TtftParts`), and its phases split that union |
| Ttft.TtftParts | perfetto/log_to_trace.py:3252-3290 | preprocess is the instants of the window before the first engine-core wait in it, or without one before the first prefill and the enqueue stamp; the queue before the prefill is those after that, before the first prefill and behind the last engine-core wait; the other parts are measures too, and the engine-core sum is one iff the clipped waits are disjoint |
| Ttft.MarksAre | perfetto/log_to_trace.py:3236-3244 | the first mark is where the earliest part of a wait in the window starts, the last one where the part of the wait that comes last by start and end stops; there are none iff no wait reaches into the window |
| Ttft.TtftBalance | perfetto/log_to_trace.py:3224-3309 | on every input: five components plus the stretch between the engine-core marks are the window plus an excess computed from the inputs; the six are never below the window and equal it iff the excess fits into the stretch (`ExcessFits`) |
| Ttft.TtftConservation | perfetto/log_to_trace.py:3224-3309 | disjoint prefills that end in the window, after engine-core waits in place: the six components are exactly the window, and the final clamp never acts, if and only if the window starts no later than the first prefill |
| Ttft.LateStartOverfills | perfetto/log_to_trace.py:3252-3290 | a window that starts inside its only prefill is overfilled by the time it missed |
| Ttft.EngineFits | perfetto/log_to_trace.py:3224-3262 | engine-core waits that are disjoint and in place fit between their first and last mark |
| Ttft.StretchMeasure | perfetto/log_to_trace.py:3265-3281 | executed prefill time plus gaps between neighbours is the stretch plus the time executed twice |
| Tpot.ExecPhases | perfetto/log_to_trace.py:3424-3437 | renaming other compute and pipeline gap to other exec loses nothing: the seven components carry the whole sum |
| Tpot.SevenCarryAll | perfetto/log_to_trace.py:3424-3437 | a table with only the seven exec components sums to those seven |
| Tpot.CountWaits | perfetto/log_to_trace.py:3400-3422 | normal plus preempted wait is the measure of the counted wait instants, the preempted one of those in waits that a preemption hits inside the window, and the pairs cover exactly the counted instants |
| Tpot.PhaseEndsWait | perfetto/log_to_trace.py:3189-3196 | a wait counts iff the first dispatch in order that starts where it ends exists and is a prefill or a decode |
| Tpot.WaitedIsTime | perfetto/log_to_trace.py:3400-3422 | the counted instants, from the dispatches: those between a dispatch, or the enqueue stamp, and the next start, where the first dispatch with that start is a prefill or a decode |
| Tpot.PreemptedIsTime | perfetto/log_to_trace.py:3400-3422 | those of them after a dispatch and with a preemption between the two dispatches and inside the window |
| Tpot.ExecAre | perfetto/log_to_trace.py:3370-3388 | the execution dispatches are those that run inside the window, in order, with only their spans cut to it |
| Tpot.ComputeTpot | perfetto/log_to_trace.py:3351-3465 | an entry exists iff a decode ends after the prefill and no later than the consumption; waits, preempted waits, execution, tail and the rest are the measures of their instants |
| Tpot.WindowBalance | perfetto/log_to_trace.py:3438-3445 | waited, executed, tail and other time add up to the window plus what is both waited and executed |
| Tpot.TpotConservation | perfetto/log_to_trace.py:3372-3465 | the ten components are never below the window, and equal it iff no counted wait runs into a dispatch |
| Tpot.DisjointDispatchesExact | perfetto/log_to_trace.py:3372-3465 | pairwise disjoint dispatches make the sum exact |
| Tpot.ExactIff | perfetto/log_to_trace.py:2497-2548 | with the waits derived from the dispatches, the ten components are exactly the window if and only if no counted gap between neighbours runs, inside the window, into an earlier dispatch |
| Tpot.RequestTpot | perfetto/log_to_trace.py:3351-3465 | from dispatches to decomposition: when an entry exists, which instants are waits, preempted waits, execution, tail and none of these, all said from the dispatches (`TpotRight`), how the phases split the execution; never below the window, exact by the condition on the sorted dispatches |
| Requests.Decompose | perfetto/log_to_trace.py:3172-3465 | one request from its dispatches: which entries exist, TTFT from exactly the prefills with no decode before them, TPOT from where they end, every component a measure of instants given by the inputs; for both, components never below the window, and equal to it iff a condition on the inputs; each carries the breakdown of its own dispatches |
| Requests.InitialAre | perfetto/log_to_trace.py:3174-3184 | the initial prefills are, in order and each once, exactly the prefills at indices with no decode before them |
| Requests.EntriesExist | perfetto/log_to_trace.py:3213-3365 | TTFT exists iff there is a start, an initial prefill and a consumption that ends after the start; TPOT iff also some decode ends after the initial prefills and none after every consumption |
| Requests.FirstConsumedIs | perfetto/log_to_trace.py:3210-3222 | the TTFT window ends with the consumption that comes first by start and end |
| Requests.DecomposeMeeting | perfetto/log_to_trace.py:3172-3465 | whenever a counted wait runs into an earlier dispatch, both entries exist and the TPOT components exceed the window |
| Requests.RequestGapWallNs | perfetto/log_to_trace.py:3717-3740 | what is reported over the rows of both breakdowns is the measure of the union of all their gaps, and the sum of the two breakdowns' totals: the prefill gaps end where the decode gaps may begin |
| Requests.OverlappedDecodes | perfetto/log_to_trace.py:3172-3465 | a prefill and three decodes, the third after a gap inside the first: both entries exist and the TPOT components exceed the window |
| Requests.SlotsUsable | perfetto/log_to_trace.py:2458-2485 | the intervals that pairing emits are non-empty and stamped, so queue derivation and both decompositions accept them |
| Requests.PairedIs | perfetto/log_to_trace.py:2458-2485 | a dispatch runs from its start to its ready event, has the ready event's key or else the start's, and is a prefill or a decode iff its interval says so |
| Requests.AttributeStream | perfetto/log_to_trace.py:2406-2548 | the same guarantees for one request from the event stream of the whole log |
| Nudge.NudgeEqualBoundaries | perfetto/log_to_trace.py:188-267 | in place, every event becomes what its predecessor on its track, in start order, decides; the count is the number of changed events |
| Nudge.PassKeeps | perfetto/log_to_trace.py:188-267 | ends, tracks and positive durations are kept; a changed event starts exactly epsilon behind its predecessor's end; filtered-out events are untouched |
| Nudge.MovedWhen | perfetto/log_to_trace.py:233-261 | an event changes iff its predecessor's end equals its start, or is within the tolerance of it, the start is less than epsilon behind that end, and the event is longer than the move |
| Nudge.BeforeMeans | perfetto/log_to_trace.py:226-226 | events of one track are taken by start, end and place |
| Nudge.EligibleMeans | perfetto/log_to_trace.py:202-224 | the pass looks at complete events of the asked process and category prefixes with a start and a positive duration |
| Nudge.StillTouching | perfetto/log_to_trace.py:233-261 | after the pass a start touches its predecessor's end iff it did before and the event is too short to move |
| Nudge.PassKeepsSerial | perfetto/log_to_trace.py:227-265 | a serial track keeps its order and stays serial |
| Nudge.SecondPassIdle | perfetto/log_to_trace.py:188-267 | a second pass changes nothing on a serial track |
| OutputHandler.DedupeReqIds | vllm_trace/trace_patch.py:464-479 | one pass with a seen set gives the first occurrences in order |
| OutputHandler.FirstsConcat | vllm_trace/trace_patch.py:464-479 | first occurrences of a concatenation are those of the front, then the new ones of the back |
| OutputHandler.ChunkSlices | vllm_trace/trace_patch.py:549-564 | the slices concatenate back to the outputs iff the chunk size is not negative or there is nothing to cut; all but the last have exactly the chunk size |
| OutputHandler.BuildSuffixes | vllm_trace/trace_patch.py:488-506 | the backward pass with its carried list gives, at every index, the first occurrences of all remaining outputs |
| OutputHandler.SuffixesNested | vllm_trace/trace_patch.py:488-506 | suffixes are nested |
| OutputHandler.SuffixZero | vllm_trace/trace_patch.py:488-506 | the first suffix does not depend on how the outputs were cut |
| HandlerRounds.HandlerTask.Append | vllm_trace/trace_patch.py:757-766 | a wait joins the pending list and nothing else changes |
| HandlerRounds.HandlerTask.SetRound | vllm_trace/trace_patch.py:509-529 | a round stores its slices and suffixes; the sequence number grows by one iff some slice has a request |
| HandlerRounds.HandlerTask.ClearRound | vllm_trace/trace_patch.py:532-546 | the round is gone, pending waits stay |
| HandlerRounds.HandlerTask.Flush | vllm_trace/trace_patch.py:593-623 | every pending wait meets one fate: emitted with the given requests, or dropped when there are none; the round number is always the current sequence number |
| HandlerRounds.HandlerTask.Begin | vllm_trace/trace_patch.py:662-712 | pending waits are charged to the suffix of the slice when it contains the processed ids; the slice index and the sequence number move as the protocol says |
| HandlerRounds.ChargedInOrder | vllm_trace/trace_patch.py:662-712 | processed in order, slice k charges exactly the requests of slices k and later |
| HandlerRounds.ChargedAre | vllm_trace/trace_patch.py:662-712 | in any order: past the slices the processed requests are charged; at a slice all requests that remain if the processed ones are among them, and else the processed ones |
| HandlerRounds.ProcessedAre | vllm_trace/trace_patch.py:662-712 | the processed requests are those of the outputs, or of the slice when the outputs have none |
| HandlerRounds.NobodyCharged | vllm_trace/trace_patch.py:593-712 | a wait is dropped only when neither the processed outputs nor any remaining slice has an id |
| HandlerRounds.RunRound | vllm_trace/trace_patch.py:1000-1022 | a whole round, with waits arriving at every slice: each wait meets the fate of the slice that flushes it, all under one sequence number |
| HandlerRounds.Conservation | vllm_trace/trace_patch.py:593-766 | in every reachable state, appended = emitted + dropped + pending |
| HandlerRounds.EmittedOrDropped | vllm_trace/trace_patch.py:593-623 | a flushed wait is emitted or dropped, never both |
| HandlerRounds.EmissionsAre | vllm_trace/trace_patch.py:593-623 | the log holds exactly the emitted waits, with the requests and the round of their fate, in order |
| RunQueue.RunInvariant | src/FINAL/sched_latency.bpf.c:105-202 | over every run with a positive clock that never goes back, entries stay within the tracked threads and in order with the clock and the events |
| RunQueue.ProbeSafety | src/FINAL/sched_latency.bpf.c:105-202 | entries never exceed the map; each event is longer than 5000 ns without wrap and starts at the latest mark before its end, with the matching type; events of a thread are disjoint and in order |
| RunQueue.WaitReported | src/FINAL/sched_latency.bpf.c:186-202 | conversely, every wait longer than 5000 ns that ends in a switch is in the output, provided the ring buffer had room |
| RunQueue.Probe.AddTid | src/FINAL/sched_latency.c:212-230 | adds an untracked thread iff the map has room, and says which |
| RunQueue.Probe.RecordRunnable | src/FINAL/sched_latency.bpf.c:110-114 | the bounded update always finds room |
| RunQueue.Probe.Wakeup | src/FINAL/sched_latency.bpf.c:130-137 | a wakeup is one step of the specification |
| RunQueue.Probe.SchedSwitch | src/FINAL/sched_latency.bpf.c:165-202 | a switch, both halves, is one step of the specification |
| RunQueue.NewEvent | src/FINAL/sched_latency.bpf.c:186-202 | an event appears only in a switch with room in the ring buffer, for the tracked thread that gets the CPU, from its recorded mark to now, and never for a thread that is preempted and resumed in one switch |
| Descendants.DescendantPids | vllm_trace/trace_ctl.py:91-112 | ends on every parent map, cycles included, with the increasing list of exactly the processes that have a non-empty chain of parents to the root |
| ParentWalk.IsDescendantOrSelf | src/FINAL/sched_latency.c:159-169 | the upward walk is true iff the root is not positive or the chain meets it with only processes above 1 on the way |
| ParentWalk.HaltsIff | src/FINAL/sched_latency.c:159-169 | the walk stops if and only if it does so within one step more than there are processes |
| ParentWalk.CycleNeverStops | src/FINAL/sched_latency.c:159-169 | on two processes that are each other's parents, with a root elsewhere, it never stops |
| ParentWalk.WalkHalts | src/FINAL/sched_latency.c:159-169 | on a map without cycles it stops |
| ParentWalk.SearchesAgree | src/FINAL/sched_latency.c:159-169 | for a root above 1, walk and downward search agree on every process iff no process at or below 1 is a descendant |
| ParentWalk.InitBelowRoot | src/FINAL/sched_latency.c:159-169 | process 1 with parent 5 is below root 5, and the walk does not find it |
| ParentWalk.PositivesAgree | src/FINAL/sched_latency.c:159-169 | when all processes are positive and the root is above 1, walk and search agree on every positive process iff process 1 is not below the root |
| ParentWalk.LowParents | src/FINAL/sched_latency.c:159-169 | that condition holds when no process at or below 1 has a parent above 1 |
| ParentWalk.InitFindsNothing | src/FINAL/sched_latency.c:159-169 | for a root of 1 the walk finds nothing |
| TargetFile.Collector.PersistTargetFile | src/FINAL/collector.py:129-133 | the file becomes the pids in order, then the tids in order, one line each |
| TargetFile.FileLines | src/FINAL/collector.py:129-133 | line by line: the decimal numbers of the pids, then `tid:` and those of the tids |
| TargetFile.Collector.PersistWorkerPid | src/FINAL/collector.py:136-142 | a positive pid is added once and the file follows; anything else changes nothing |
| TargetFile.Collector.PersistExactTid | src/FINAL/collector.py:161-167 | the same for exact tids |
| TargetFile.ParseDecimal | src/FINAL/sched_latency.c:71-81 | a positive decimal number is accepted iff it fits in 32 bits, and then with its value |
| TargetFile.ParseU32Means | src/FINAL/sched_latency.c:71-81 | a number is accepted iff it is white space, perhaps a sign, and digits with a value of 1 to 2^32 - 1; behind a minus sign that value is what is left to 2^64 |
| TargetFile.ParseTargetNamed | src/FINAL/sched_latency.c:95-115 | in any mixture of cases, `tid:` and `thread:` name a thread, `pid:` and `process:` a process |
| TargetFile.ParseTargetPlain | src/FINAL/sched_latency.c:95-115 | a line without such a name holds a process |
| TargetFile.FgetsMeans | src/FINAL/sched_latency.c:260-264 | a read takes a line with its newline, or as much of one as the buffer holds |
| TargetFile.LoaderReadsBack | src/FINAL/sched_latency.c:95-115 | line by line, the loader reads the pids and then the tids in order, without those above 32 bits |
| TargetFile.LongPidMisread | src/FINAL/sched_latency.c:260-279 | of a pid of 128 digits, and there are such, the loader accepts the last digit as a pid |
| TargetFile.WordsRecovered | src/FINAL/sched_latency.c:260-279 | for any sets of ids in 1..2^32-1 both come back exactly, with the right flag |
| TargetFile.LoaderRoundTrip | src/FINAL/sched_latency.c:260-279 | for any sets of positive ids both come back with the right flag iff every id fits in 32 bits |
| TargetFile.ReadWorkerPids | vllm_trace/trace_ctl.py:115-133 | the increasing list of the positive numbers on lines that are not tid lines |
| TargetFile.PidsInMeans | vllm_trace/trace_ctl.py:115-133 | a pid is read iff some line, without white space around it, does not start with `tid:` and is that integer, above 0 |
| Decimals.PyIntMeans | vllm_trace/trace_ctl.py:125-128 | an integer is perhaps a sign, then digits with single underscores between them; its value is that of the digits |
| Decimals.OneDecimal | src/FINAL/collector.py:129-133 | the printed number is the only text of that value without leading zeros |
| TargetFile.ControllerRoundTrip | vllm_trace/trace_ctl.py:115-133 | on the collector's file that list is exactly the set of pids |
| WorkerScan.ScanTargetFile | src/FINAL/sched_latency.c:238-284 | only wanted threads are added, all of them when they fit; the two counts are the additions and the matching lines |
| WorkerScan.MatchCountIs | src/FINAL/sched_latency.c:260-279 | the second count is the number of lines that are for a thread, or for a pid that the walk finds under the root |
| WorkerScan.TrackMainTid | src/FINAL/sched_latency.c:232-236 | adds the main thread of a positive pid iff it is new and there is room |
| WorkerScan.ScanFindsTargets | src/FINAL/sched_latency.c:260-279 | on the collector's file, the threads asked for are the exact tids and the pids that the upward walk finds under the root |
| Control.UniquePids | vllm_trace/trace_ctl.py:136-144 | the positive pids of all groups, each once, in the order of their first occurrence |
| Control.OneUniques | vllm_trace/trace_ctl.py:136-144 | only one list is like that |
| Control.ControlTargets | vllm_trace/trace_ctl.py:256-263 | the root, then its descendants in order, then the pids of the file, each once; the targets are exactly the positive ones among them |
| Control.AskedAreNamed | vllm_trace/trace_ctl.py:256-263 | every main thread that the loader asks for is a target of the controller; all that it asks for is, iff every thread named by the file is the root, a descendant or a pid of the file |
| Control.SameTargets | vllm_trace/trace_ctl.py:256-263 | with no threads in the file, both choose the same iff the pids fit in 31 bits and, when there is a root, it is above 1, process 1 is not below it, and the pids are just the root and its descendants |
| Control.StrangerNamedOnly | vllm_trace/trace_ctl.py:256-263 | root 5, no other process, pid 77 in the file: the controller addresses 5 and 77, the loader asks for nothing |
| StateFile.SaveState | vllm_trace/trace_ctl.py:53-58 | writes every key once, as `key=value` lines in string order, and what is written loads back iff the table is clean |
| StateFile.BeforeMeans | vllm_trace/trace_ctl.py:53-58 | strings are ordered by their first difference, and a prefix comes first |
| StateFile.LoadState | vllm_trace/trace_ctl.py:38-50 | the keys are exactly those that some line names, and each has the value of the last line that names it |
| StateFile.StripPart | vllm_trace/trace_ctl.py:38-50 | stripping cuts exactly the white space off both ends |
| StateFile.LoadedClean | vllm_trace/trace_ctl.py:38-50 | what is loaded never has surrounding white space or line ends, nor `=` in a key |
| StateFile.StateRoundTrip | vllm_trace/trace_ctl.py:38-58 | loading a saved table gives it back iff it is clean in that sense, whatever the order of the keys |

## Left out

- Timestamp conversion: `to_ns` is modelled on integers, with its floating-point product; floats, decimals and strings are input cleaning. Wall-clock stamps are above 10^14 or missing, which the modules from `Intervals` to `Ttft` ask for; stamps of scheduler events and execute spans may be any integer.
- Milliseconds, averages, percentages and tables: rounding for presentation.
- Event construction, track names, colours, flow arrows, SVG, HTML and printing: presentation.
- Totals.BuildBreakdown: leaves out raw per-rank tallies, per-pair totals of the request, step-execution totals, detail keys and the list of all wall segments, plain accumulations beside the ones proved.
- The order in which Python visits groups of intervals: the results proved do not depend on it.
- The count of overlapping dispatch pairs and of unmatched starts that is only printed.
- Names of requests, dispatch keys and groups: values with equality; an absent key is the empty string where keys are text.
- Nudge.NudgeEqualBoundaries: uses exact real numbers, so float rounding of starts and durations is not modelled; process and track ids are integers.
- Monkey patching, import hooks, asyncio and the engine's own objects: libraries that are not part of this model.
- The lock around the handler's record: methods are atomic, as they are under the lock.
- Sockets, signals, processes and files: `/proc` is a fixed parent map and a file is its text; missing files and failed writes are not modelled.
- The way of probe events to the log: every event is delivered, with its type as the reason.
- The kernel's scheduler: any sequence of steps is allowed; clocks only have to be positive and not go back. Thread ids are unbounded natural numbers.
- TargetFile.ReadWorkerPids: knows ASCII digits only; other decimal digits and Python's limit on the length of numbers are not modelled.
- TargetFile.LoaderReadsBack: asks for ids whose lines fit the loader's 128-byte buffer (up to 122 digits); longer ones are read in pieces, which may be taken for other ids (`LongPidMisread`). `LoaderRoundTrip` holds for all lengths.
- WorkerScan.ScanFindsTargets: asks for the same ids.
- Control.AskedAreNamed: asks for the same ids.
- Control.SameTargets: asks for the same ids, and for processes with positive numbers, as `/proc` has them.
- ParentWalk.IsDescendantOrSelf: asks for a walk that stops, because on a cycle that misses the root the original never returns; `WalkHalts` shows that a map without cycles is enough.
- WorkerScan.ScanTargetFile: asks that the walks it starts stop, for the same reason; the scan of all of `/proc` by name pattern is not modelled.
- GPU kernel correlation, id counters, demos, vendored headers and command-line handling: they would add only easy members.
