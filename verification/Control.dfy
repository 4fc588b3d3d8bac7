/** The processes that the controller addresses, against the threads that the loader asks to track. */
module Control {
  import opened Sets
  import opened Sorting
  import opened Intervals
  import opened TargetFile
  import opened Descendants
  import opened ParentWalk
  import opened WorkerScan

  // --------------------------------------------------------- first occurrences

  /** The position of the first `x` in `xs`, or the length. */
  ghost function FirstAt(xs: seq<int>, x: int): nat {
    if xs == [] || xs[0] == x then 0 else 1 + FirstAt(xs[1..], x)
  }

  lemma {:induction false} FirstAtAppend(xs: seq<int>, y: int, x: int)
    ensures FirstAt(xs, x) <= |xs| && (x in xs <==> FirstAt(xs, x) < |xs|)
    ensures x in xs ==> FirstAt(xs + [y], x) == FirstAt(xs, x)
    ensures x !in xs && x == y ==> FirstAt(xs + [y], x) == |xs|
  {
    if xs == [] {
      assert [y][1..] == [];
    } else {
      FirstAtAppend(xs[1..], y, x);
      assert (xs + [y])[1..] == xs[1..] + [y];
    }
  }

  /** The positive elements of `xs`, each once, in the order in which they first occur. */
  ghost predicate Uniques(xs: seq<int>, r: seq<int>) {
    && (forall p :: p in r <==> p in xs && 0 < p)
    && (forall i, j :: 0 <= i < j < |r| ==> FirstAt(xs, r[i]) < FirstAt(xs, r[j]))
  }

  ghost function Joined(groups: seq<seq<int>>): seq<int> {
    if groups == [] then [] else Joined(groups[..|groups| - 1]) + groups[|groups| - 1]
  }

  lemma UniquesNext(xs: seq<int>, r: seq<int>, pid: int)
    requires Uniques(xs, r)
    ensures Uniques(xs + [pid], if pid > 0 && pid !in r then r + [pid] else r)
  {
    var q := if pid > 0 && pid !in r then r + [pid] else r;
    forall i, j | 0 <= i < j < |q|
      ensures FirstAt(xs + [pid], q[i]) < FirstAt(xs + [pid], q[j])
    {
      assert q[i] in r;
      FirstAtAppend(xs, pid, q[i]);
      FirstAtAppend(xs, pid, q[j]);
      if j < |r| {
        assert q[j] in r;
      }
    }
  }

  /** `unique_pids`. */
  method UniquePids(groups: seq<seq<int>>) returns (ordered: seq<int>)
    ensures Uniques(Joined(groups), ordered)
  {
    var seen: set<int> := {};
    ordered := [];
    for i := 0 to |groups|
      invariant Uniques(Joined(groups[..i]), ordered) && forall p :: p in seen <==> p in ordered
    {
      var group := groups[i];
      ghost var done := Joined(groups[..i]);
      assert groups[..i + 1][..i] == groups[..i] && done + group[..0] == done;
      for j := 0 to |group|
        invariant Uniques(done + group[..j], ordered) && forall p :: p in seen <==> p in ordered
      {
        var pid := group[j];
        UniquesNext(done + group[..j], ordered, pid);
        assert done + group[..j + 1] == done + group[..j] + [pid];
        if pid > 0 && pid !in seen {
          seen := seen + {pid};
          ordered := ordered + [pid];
        }
      }
      assert group[..|group|] == group;
    }
    assert groups[..|groups|] == groups;
  }

  /** The order determines the list. */
  lemma OneUniques(xs: seq<int>, r: seq<int>, q: seq<int>)
    requires Uniques(xs, r) && Uniques(xs, q)
    ensures r == q
  {
    SameOrder(xs, r, q);
  }

  lemma SameOrder(xs: seq<int>, r: seq<int>, q: seq<int>)
    requires forall i, j :: 0 <= i < j < |r| ==> FirstAt(xs, r[i]) < FirstAt(xs, r[j])
    requires forall i, j :: 0 <= i < j < |q| ==> FirstAt(xs, q[i]) < FirstAt(xs, q[j])
    requires forall p :: p in r <==> p in q
    ensures r == q
  {
    assert (r != [] ==> r[0] in r) && (q != [] ==> q[0] in q);
    if r != [] {
      var k :| 0 <= k < |q| && q[k] == r[0];
      var l :| 0 <= l < |r| && r[l] == q[0];
      assert r[0] == q[0];
      forall p
        ensures p in r[1..] <==> p in q[1..]
      {
        assert p in r <==> p == r[0] || p in r[1..];
        assert p in q <==> p == q[0] || p in q[1..];
        assert p in r[1..] ==> p != r[0];
        assert p in q[1..] ==> p != q[0];
      }
      SameOrder(xs, r[1..], q[1..]);
      assert r == [r[0]] + r[1..] && q == [q[0]] + q[1..];
    }
  }

  // ------------------------------------------------------------------ targets

  ghost function Offspring(parent: map<int, int>, root: int): set<int> {
    set p | p in parent && 0 < root && Below(parent, p, root)
  }

  /** The pids that a file lists; an unset path or a missing file lists none. */
  ghost function FilePids(file: Option<string>): set<int> {
    if file.Some? then PidsIn(file.value) else {}
  }

  /** `monkeypatch_targets` and `cupti_targets`: the root, its descendants in order, then the pids of the file. */
  method ControlTargets(root: int, entries: seq<int>, parent: map<int, int>, file: Option<string>)
    returns (targets: seq<int>)
    requires forall pid :: pid in parent ==> pid in entries
    ensures Uniques([root] + Listing(Offspring(parent, root)) + Listing(FilePids(file)), targets)
    ensures forall p :: p in targets <==> p in Addressed(root, parent, FilePids(file))
  {
    var family := DescendantPids(root, entries, parent);
    var listed: seq<int> := [];
    if file.Some? {
      listed := ReadWorkerPids(file.value);
    } else {
      OneListing([], {});
    }
    FamilyListed(root, parent, family);
    targets := UniquePids([[root], family, listed]);
    JoinedThree([root], family, listed);
  }

  lemma FamilyListed(root: int, parent: map<int, int>, family: seq<int>)
    requires Increasing(family) && forall pid :: pid in family <==> 0 < root && Below(parent, pid, root)
    ensures family == Listing(Offspring(parent, root))
  {
    forall pid | Below(parent, pid, root)
      ensures pid in parent
    {
      var n :| 0 < n && Ancestor(parent, pid, n) == Some(root);
    }
    OneListing(family, Offspring(parent, root));
  }

  lemma JoinedThree(a: seq<int>, b: seq<int>, c: seq<int>)
    ensures Joined([a, b, c]) == a + b + c
  {
    assert [a, b, c][..2] == [a, b] && [a, b][..1] == [a] && [a][..0] == [];
    assert Joined([a]) == a && Joined([a, b]) == a + b;
  }

  ghost function Addressed(root: int, parent: map<int, int>, listed: set<int>): set<int> {
    set p | p in {root} + Offspring(parent, root) + listed && 0 < p
  }

  // -------------------------------------------------- loader and controller

  /** The threads that the loader asks to track, from the collector's file. */
  ghost function Asked(pids: set<int>, tids: set<int>, root: int, parent: map<int, int>): set<nat>
    requires Short(pids) && Short(tids)
  {
    Wanted(Accepted(Content(pids, tids)), root, parent)
  }

  /** The controller's targets, from the same file and the same processes. */
  ghost function Named(pids: set<int>, tids: set<int>, root: int, parent: map<int, int>): set<int>
    requires Short(pids) && Short(tids)
  {
    Addressed(root, parent, FilePids(Some(Content(pids, tids))))
  }

  lemma NamedAre(pids: set<int>, tids: set<int>, root: int, parent: map<int, int>)
    requires Short(pids) && Short(tids)
    ensures Named(pids, tids, root, parent) == Addressed(root, parent, pids)
  {
    ControllerRoundTrip(pids, tids);
  }

  ghost predicate Found(pids: set<int>, root: int, parent: map<int, int>, p: int) {
    p in pids && p <= INT32_MAX && (root <= 0 || WalkFinds(parent, p, root))
  }

  lemma AskedAre(pids: set<int>, tids: set<int>, root: int, parent: map<int, int>)
    requires Short(pids) && Short(tids)
    ensures forall p :: p in Asked(pids, tids, root, parent) <==>
      (p in tids && p <= U32_MAX) || Found(pids, root, parent, p)
  {
    forall p
      ensures p in Asked(pids, tids, root, parent) <==> (p in tids && p <= U32_MAX) || Found(pids, root, parent, p)
    {
      if p >= 0 {
        ScanFindsTargets(pids, tids, root, parent, p);
      }
    }
  }

  /** Every main thread that the loader asks for is the controller's target. All that it asks for is, exactly when
      every thread that the file names is a target as a process. */
  lemma AskedAreNamed(pids: set<int>, tids: set<int>, root: int, parent: map<int, int>)
    requires Short(pids) && Short(tids)
    ensures Asked(pids, {}, root, parent) <= Named(pids, tids, root, parent)
    ensures Asked(pids, tids, root, parent) <= Named(pids, tids, root, parent)
      <==> forall t :: t in tids && t <= U32_MAX ==> t in pids || t == root || t in Offspring(parent, root)
  {
    NamedAre(pids, tids, root, parent);
    NamedAre(pids, {}, root, parent);
    AskedAre(pids, {}, root, parent);
    AskedAre(pids, tids, root, parent);
    Inside(pids, tids, root, parent, Asked(pids, tids, root, parent));
  }

  lemma Inside(pids: set<int>, tids: set<int>, root: int, parent: map<int, int>, asked: set<int>)
    requires forall p :: p in pids || p in tids ==> 0 < p
    requires forall p :: p in asked <==> (p in tids && p <= U32_MAX) || Found(pids, root, parent, p)
    ensures asked <= Addressed(root, parent, pids)
      <==> forall t :: t in tids && t <= U32_MAX ==> t in pids || t == root || t in Offspring(parent, root)
  {
    var named := Addressed(root, parent, pids);
    forall p
      ensures p in named <==> 0 < p && (p in pids || p == root || p in Offspring(parent, root))
    {
    }
    assert forall t :: t in tids && t <= U32_MAX ==> t in asked;
    assert forall p :: p in asked && p !in tids ==> p in named;
  }

  /** From a file without exact threads, loader and controller choose the same processes exactly when there is no
      root, or when the root is above process 1, process 1 is not below it, and the file lists just the root and its
      descendants; and every id of the file fits in 31 bits. */
  lemma SameTargets(pids: set<int>, root: int, parent: map<int, int>)
    requires Short(pids) && forall p :: p in parent ==> 0 < p
    ensures Asked(pids, {}, root, parent) == Named(pids, {}, root, parent) <==>
      && (forall p :: p in pids ==> p <= INT32_MAX)
      && (root > 0 ==> root > 1 && !Below(parent, 1, root) && pids == {root} + Offspring(parent, root))
  {
    NamedAre(pids, {}, root, parent);
    AskedAre(pids, {}, root, parent);
    var asked, named := Asked(pids, {}, root, parent), Named(pids, {}, root, parent);
    AllFound(pids, root, parent, asked);
    assert asked == named <==> forall p :: p in Addressed(root, parent, pids) ==> Found(pids, root, parent, p);
    AllFoundIff(pids, root, parent);
  }

  lemma AllFoundIff(pids: set<int>, root: int, parent: map<int, int>)
    requires (forall p :: p in parent ==> 0 < p) && forall p :: p in pids ==> 0 < p
    ensures (forall p :: p in Addressed(root, parent, pids) ==> Found(pids, root, parent, p)) <==>
      && (forall p :: p in pids ==> p <= INT32_MAX)
      && (root > 0 ==> root > 1 && !Below(parent, 1, root) && pids == {root} + Offspring(parent, root))
  {
    var all := Addressed(root, parent, pids);
    assert forall p :: p in pids ==> p in all;
    if root <= 0 {
      assert all == pids;
      assert forall p :: p in all ==> (Found(pids, root, parent, p) <==> p <= INT32_MAX);
    } else if root == 1 {
      InitFindsNothing(parent, root);
      assert root in all && !Found(pids, root, parent, root);
    } else {
      FamilyFound(pids, root, parent);
      assert forall p :: Found(pids, root, parent, p) <==> p in pids && p <= INT32_MAX && WalkFinds(parent, p, root);
      assert forall p :: p in all && p in pids ==> (p in pids && p <= INT32_MAX <==> p <= INT32_MAX);
    }
  }

  lemma AllFound(pids: set<int>, root: int, parent: map<int, int>, asked: set<int>)
    requires forall p :: p in pids ==> 0 < p
    requires forall p :: p in asked <==> Found(pids, root, parent, p)
    ensures asked == Addressed(root, parent, pids)
      <==> forall p :: p in Addressed(root, parent, pids) ==> Found(pids, root, parent, p)
  {
    if forall p :: p in Addressed(root, parent, pids) ==> Found(pids, root, parent, p) {
      forall p
        ensures p in asked <==> p in Addressed(root, parent, pids)
      {
        assert Found(pids, root, parent, p) ==> p in Addressed(root, parent, pids);
      }
      SameSet(asked, Addressed(root, parent, pids));
    }
  }

  lemma FamilyFound(pids: set<int>, root: int, parent: map<int, int>)
    requires root > 1 && (forall p :: p in parent ==> 0 < p) && forall p :: p in pids ==> 0 < p
    ensures (forall p :: p in Addressed(root, parent, pids) ==> p in pids && WalkFinds(parent, p, root))
      <==> !Below(parent, 1, root) && pids == {root} + Offspring(parent, root)
  {
    PositivesAgree(parent, root);
    forall p | Below(parent, p, root)
      ensures p in Offspring(parent, root)
    {
      var n :| 0 < n && Ancestor(parent, p, n) == Some(root);
    }
    if Below(parent, 1, root) {
      LowNotFound(parent, 1, root);
      assert 1 in Addressed(root, parent, pids);
    } else if forall p :: p in Addressed(root, parent, pids) ==> p in pids && WalkFinds(parent, p, root) {
      forall p
        ensures p in pids <==> p in {root} + Offspring(parent, root)
      {
        assert p in Addressed(root, parent, pids) <==> p in pids || p == root || p in Offspring(parent, root);
      }
      SameSet(pids, {root} + Offspring(parent, root));
    }
  }

  /** A pid in the file that is no descendant of the root: the controller addresses it, the loader leaves it out. */
  lemma StrangerNamedOnly()
    ensures Short({77}) && Short({})
    ensures Asked({77}, {}, 5, map[]) == {} && Named({77}, {}, 5, map[]) == {5, 77}
  {
    WordsAreShort();
    var none: map<int, int> := map[];
    NamedAre({77}, {}, 5, none);
    assert Offspring(none, 5) == {};
    assert Addressed(5, none, {77}) == {5, 77};
    AskedAre({77}, {}, 5, none);
    AloneNotFound(77);
  }

  lemma AloneNotFound(id: int)
    requires id != 5
    ensures !WalkFinds(map[], id, 5)
  {
    forall n: nat
      ensures Ancestor(map[], id, n) != Some(5)
    {
    }
  }
}
