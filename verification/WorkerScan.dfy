/** From the target file to the map of tracked threads. */
module WorkerScan {
  import opened Sets
  import opened Intervals
  import opened TargetFile
  import opened Descendants
  import opened ParentWalk
  import RunQueue

  const INT32_MAX: nat := 0x7FFF_FFFF

  /** The loader keeps pids as signed 32-bit numbers. */
  function AsPid(id: nat): (r: int)
    ensures id <= U32_MAX ==> -0x8000_0000 <= r < 0x8000_0000 && (r == id || r == id - 0x1_0000_0000)
  {
    if id <= INT32_MAX then id else id - 0x1_0000_0000
  }

  ghost predicate Matches(t: Target, root: int, parent: map<int, int>) {
    t.exactTid || root <= 0 || WalkFinds(parent, AsPid(t.id), root)
  }

  /** A line for a pid starts a walk, which has to stop for the scan to go on. */
  ghost predicate WalkStops(t: Target, root: int, parent: map<int, int>) {
    t.exactTid || Halts(parent, AsPid(t.id), root)
  }

  /** The thread that a matching line asks to track. */
  ghost predicate Tracks(t: Target, root: int, parent: map<int, int>) {
    Matches(t, root, parent) && (t.exactTid || 0 < AsPid(t.id))
  }

  ghost function Wanted(ts: seq<Target>, root: int, parent: map<int, int>): set<nat> {
    set t | t in ts && Tracks(t, root, parent) :: t.id
  }

  ghost function MatchCount(ts: seq<Target>, root: int, parent: map<int, int>): nat {
    if ts == [] then 0
    else MatchCount(ts[..|ts| - 1], root, parent) + if Matches(ts[|ts| - 1], root, parent) then 1 else 0
  }

  /** The lines that match: those for exact threads, and those for pids that the walk finds, or all without a root. */
  ghost function MatchPlaces(ts: seq<Target>, root: int, parent: map<int, int>): set<int> {
    set i | 0 <= i < |ts| && (ts[i].exactTid || root <= 0 || WalkFinds(parent, AsPid(ts[i].id), root))
  }

  lemma {:induction false} MatchCountIs(ts: seq<Target>, root: int, parent: map<int, int>)
    ensures MatchCount(ts, root, parent) == |MatchPlaces(ts, root, parent)|
  {
    if ts != [] {
      var n := |ts| - 1;
      MatchCountIs(ts[..n], root, parent);
      assert MatchPlaces(ts, root, parent)
        == MatchPlaces(ts[..n], root, parent) + if Matches(ts[n], root, parent) then {n} else {};
    }
  }

  /** The map after one accepted line, and after several. */
  ghost function AfterTarget(now: set<nat>, t: Target, root: int, parent: map<int, int>): set<nat> {
    if Tracks(t, root, parent) && |now| < RunQueue.CAPACITY then now + {t.id} else now
  }

  ghost function AfterTargets(was: set<nat>, ts: seq<Target>, root: int, parent: map<int, int>): set<nat> {
    if ts == [] then was
    else AfterTarget(AfterTargets(was, ts[..|ts| - 1], root, parent), ts[|ts| - 1], root, parent)
  }

  /** What the scan does to the map: only wanted threads are added, and all of them when they fit. */
  ghost predicate Scanned(was: set<nat>, now: set<nat>, wanted: set<nat>) {
    was <= now <= was + wanted && (|was + wanted| <= RunQueue.CAPACITY ==> now == was + wanted)
  }

  lemma ScannedMore(was: set<nat>, now: set<nat>, wanted: set<nat>, tid: nat)
    requires Scanned(was, now, wanted)
    ensures Scanned(was, if |now| < RunQueue.CAPACITY then now + {tid} else now, wanted + {tid})
  {
    var all := was + (wanted + {tid});
    SubsetSize(was + wanted, all);
    SubsetSize(now, all);
    assert all == was + wanted + {tid};
  }

  lemma {:induction false} ScanMeaning(was: set<nat>, ts: seq<Target>, root: int, parent: map<int, int>)
    ensures Scanned(was, AfterTargets(was, ts, root, parent), Wanted(ts, root, parent))
  {
    if ts == [] {
      assert Wanted(ts, root, parent) == {};
    } else {
      var front, t := ts[..|ts| - 1], ts[|ts| - 1];
      ScanMeaning(was, front, root, parent);
      WantedPlus(front, t, root, parent);
      assert ts == front + [t];
      ScannedMore(was, AfterTargets(was, front, root, parent), Wanted(front, root, parent), t.id);
    }
  }

  lemma {:induction false} WantedPlus(ts: seq<Target>, t: Target, root: int, parent: map<int, int>)
    ensures Wanted(ts + [t], root, parent) == Wanted(ts, root, parent) + if Tracks(t, root, parent) then {t.id} else {}
    ensures MatchCount(ts + [t], root, parent)
      == MatchCount(ts, root, parent) + if Matches(t, root, parent) then 1 else 0
  {
    assert (ts + [t])[..|ts|] == ts;
    SameSet(Wanted(ts + [t], root, parent), Wanted(ts, root, parent) + if Tracks(t, root, parent) then {t.id} else {});
  }

  /** `track_main_tid_of_pid`. */
  method TrackMainTid(pid: int, probe: RunQueue.Probe) returns (added: nat)
    requires probe.Valid() && pid <= INT32_MAX
    modifies probe
    ensures probe.Valid()
    ensures probe.tracked == if added == 1 then old(probe.tracked) + {pid} else old(probe.tracked)
    ensures added == if 0 < pid && pid !in old(probe.tracked) && |old(probe.tracked)| < RunQueue.CAPACITY then 1 else 0
  {
    if pid <= 0 {
      return 0;
    }
    var r := probe.AddTid(pid);
    added := if r > 0 then 1 else 0;
  }

  /** One accepted line of `auto_scan_worker_pid_file`. */
  method ScanTarget(t: Target, root: int, parent: map<int, int>, probe: RunQueue.Probe)
    returns (added: nat, matched: bool)
    requires probe.Valid() && t.id <= U32_MAX && WalkStops(t, root, parent)
    modifies probe
    ensures probe.Valid() && matched == Matches(t, root, parent)
    ensures added == |probe.tracked| - |old(probe.tracked)|
    ensures probe.tracked == AfterTarget(old(probe.tracked), t, root, parent)
  {
    if t.exactTid {
      var r := probe.AddTid(t.id);
      AddedOnce(old(probe.tracked), t.id);
      return if r > 0 then 1 else 0, true;
    }
    var pid := AsPid(t.id);
    if root > 0 {
      var found := IsDescendantOrSelf(pid, root, parent);
      if !found {
        return 0, false;
      }
    }
    added := TrackMainTid(pid, probe);
    AddedOnce(old(probe.tracked), t.id);
    matched := true;
  }

  lemma AddedOnce(s: set<nat>, x: nat)
    ensures x in s ==> s + {x} == s
    ensures x !in s ==> |s + {x}| == |s| + 1
  {
  }

  /** Reads one line of the file. */
  method ReadTarget(content: string) returns (spec: Option<Target>, rest: string)
    requires content != ""
    ensures Accepted(content) == ToSeq(spec) + Accepted(rest) && |rest| < |content|
    ensures spec.Some? ==> spec.value.id <= U32_MAX
  {
    var n := Fgets(content, LINE - 1);
    spec, rest := ParseTarget(CString(content[..n])), content[n..];
  }

  /** `auto_scan_worker_pid_file` on a file that exists. */
  method ScanTargetFile(content: string, root: int, parent: map<int, int>, probe: RunQueue.Probe)
    returns (added: nat, workers: nat)
    requires probe.Valid() && forall t :: t in Accepted(content) ==> WalkStops(t, root, parent)
    modifies probe
    ensures probe.Valid()
    ensures Scanned(old(probe.tracked), probe.tracked, Wanted(Accepted(content), root, parent))
    ensures added == |probe.tracked| - |old(probe.tracked)|
    ensures workers == MatchCount(Accepted(content), root, parent)
  {
    added, workers := 0, 0;
    var rest := content;
    ghost var done: seq<Target> := [];
    while rest != ""
      invariant probe.Valid() && done + Accepted(rest) == Accepted(content)
      invariant probe.tracked == AfterTargets(old(probe.tracked), done, root, parent)
      invariant added == |probe.tracked| - |old(probe.tracked)|
      invariant workers == MatchCount(done, root, parent)
      decreases |rest|
    {
      var spec;
      ghost var was := Accepted(rest);
      spec, rest := ReadTarget(rest);
      DonePlus(done, spec, was, Accepted(rest));
      assert spec.Some? ==> spec.value in Accepted(content);
      if spec.None? {
        continue;
      }
      var a, matched := ScanTarget(spec.value, root, parent, probe);
      added := added + a;
      if matched {
        workers := workers + 1;
      }
      done := done + [spec.value];
    }
    assert done == Accepted(content);
    ScanMeaning(old(probe.tracked), done, root, parent);
  }

  lemma DonePlus(done: seq<Target>, spec: Option<Target>, was: seq<Target>, rest: seq<Target>)
    requires was == ToSeq(spec) + rest
    ensures spec.None? ==> done + rest == done + was
    ensures spec.Some? ==> done + [spec.value] + rest == done + was && (done + [spec.value])[..|done|] == done
  {
  }

  // ------------------------------------------------------------- end to end

  /** Scanning the collector's file asks for every exact thread, and for the main thread of every pid that
      the upward walk finds under the root. */
  lemma ScanFindsTargets(pids: set<int>, tids: set<int>, root: int, parent: map<int, int>, id: nat)
    requires Short(pids) && Short(tids)
    ensures id in Wanted(Accepted(Content(pids, tids)), root, parent) <==>
      || (id in tids && id < 0x1_0000_0000)
      || (id in pids && id < 0x8000_0000 && (root <= 0 || WalkFinds(parent, id, root)))
  {
    var all := Accepted(Content(pids, tids));
    LoaderRecovers(pids, tids, Target(id, true));
    LoaderRecovers(pids, tids, Target(id, false));
    if id in Wanted(all, root, parent) {
      var t :| t in all && Tracks(t, root, parent) && t.id == id;
      assert t == Target(id, true) || t == Target(id, false);
    }
    if id in tids && id <= U32_MAX {
      assert Tracks(Target(id, true), root, parent);
    }
    if id in pids && id <= INT32_MAX && (root <= 0 || WalkFinds(parent, id, root)) {
      assert Tracks(Target(id, false), root, parent);
    }
  }
}
