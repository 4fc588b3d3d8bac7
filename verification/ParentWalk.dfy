/** The upward walk over parents, and its agreement with the downward search. */
module ParentWalk {
  import opened Sets
  import opened Spans
  import opened Intervals
  import opened Descendants

  // ------------------------------------------------------------------ upwards

  /** The upward walk meets `root` after `n` steps, and only processes above 1 before it. */
  ghost predicate Meets(parent: map<int, int>, pid: int, root: int, n: nat) {
    Ancestor(parent, pid, n) == Some(root) && forall k :: 0 <= k <= n ==> Goes(parent, pid, k)
  }

  ghost predicate Goes(parent: map<int, int>, pid: int, k: nat) {
    Ancestor(parent, pid, k).Some? && Ancestor(parent, pid, k).value > 1
  }

  ghost predicate WalkFinds(parent: map<int, int>, pid: int, root: int) {
    exists n :: 0 <= n && Meets(parent, pid, root, n)
  }

  /** After `n` steps the walk is at the root, or has nowhere to go. */
  ghost predicate Stops(parent: map<int, int>, pid: int, root: int, n: nat) {
    Ancestor(parent, pid, n) == Some(root) || !Goes(parent, pid, n)
  }

  ghost predicate Halts(parent: map<int, int>, pid: int, root: int) {
    root <= 0 || exists n :: 0 <= n && Stops(parent, pid, root, n)
  }

  /** `is_descendant_or_self`. A walk that does not stop never returns. */
  method IsDescendantOrSelf(pid: int, root: int, parent: map<int, int>) returns (r: bool)
    requires Halts(parent, pid, root)
    ensures r <==> root <= 0 || WalkFinds(parent, pid, root)
  {
    if root <= 0 {
      return true;
    }
    ghost var end: nat :| Stops(parent, pid, root, end);
    var cur := pid;
    ghost var k := 0;
    while cur > 1
      invariant k <= end && Ancestor(parent, pid, k) == Some(cur)
      invariant forall j :: 0 <= j < k ==> Goes(parent, pid, j) && Ancestor(parent, pid, j) != Some(root)
      decreases end - k
    {
      if cur == root {
        assert Meets(parent, pid, root, k);
        return true;
      }
      assert !Stops(parent, pid, root, k);
      Climb(parent, pid, k, 1);
      if cur !in parent {
        NotFound(parent, pid, root, k + 1);
        return false;
      }
      assert Ancestor(parent, parent[cur], 0) == Some(parent[cur]);
      cur := parent[cur];
      k := k + 1;
    }
    NotFound(parent, pid, root, k);
    return false;
  }

  lemma {:induction false} NotFound(parent: map<int, int>, pid: int, root: int, k: nat)
    requires !Goes(parent, pid, k)
    requires forall j :: 0 <= j < k ==> Ancestor(parent, pid, j) != Some(root)
    ensures !WalkFinds(parent, pid, root)
  {
    forall n: nat
      ensures !Meets(parent, pid, root, n)
    {
      assert n < k ==> Ancestor(parent, pid, n) != Some(root);
    }
  }

  // ---------------------------------------------------------- when it stops

  /** Before the walk stops for the first time it meets no process twice. */
  lemma {:induction false} NoRevisit(parent: map<int, int>, pid: int, root: int, m: nat, i: nat, j: nat)
    requires Stops(parent, pid, root, m) && forall k :: 0 <= k < m ==> !Stops(parent, pid, root, k)
    requires i < j < m
    ensures Ancestor(parent, pid, i) != Ancestor(parent, pid, j)
  {
    assert !Stops(parent, pid, root, i) && !Stops(parent, pid, root, j);
    if Ancestor(parent, pid, i) == Ancestor(parent, pid, j) {
      SameAhead(parent, pid, root, i, j, m - j);
    }
  }

  lemma {:induction false} SameAhead(parent: map<int, int>, pid: int, root: int, i: nat, j: nat, n: nat)
    requires Ancestor(parent, pid, i).Some? && Ancestor(parent, pid, i) == Ancestor(parent, pid, j)
    ensures Stops(parent, pid, root, i + n) <==> Stops(parent, pid, root, j + n)
  {
    Climb(parent, pid, i, n);
    Climb(parent, pid, j, n);
  }

  ghost function FirstStop(parent: map<int, int>, pid: int, root: int, n: nat): (m: nat)
    requires Stops(parent, pid, root, n)
    ensures m <= n && Stops(parent, pid, root, m) && forall k :: 0 <= k < m ==> !Stops(parent, pid, root, k)
  {
    if k: nat :| k < n && Stops(parent, pid, root, k) then FirstStop(parent, pid, root, k) else n
  }

  ghost function At(parent: map<int, int>, pid: int, k: int): int {
    if 0 <= k && Ancestor(parent, pid, k).Some? then Ancestor(parent, pid, k).value else 0
  }

  /** The walk leaves every process of its way but the last one through an entry of its own. */
  lemma StopsSoon(parent: map<int, int>, pid: int, root: int, m: nat)
    requires Stops(parent, pid, root, m) && forall k :: 0 <= k < m ==> !Stops(parent, pid, root, k)
    ensures m <= |parent.Keys| + 1
  {
    if m > 1 {
      var steps := Instants(0, m - 1);
      forall k | k in steps
        ensures At(parent, pid, k) in parent.Keys
      {
        assert !Stops(parent, pid, root, k) && !Stops(parent, pid, root, k + 1);
        Climb(parent, pid, k, 1);
      }
      forall i, j | i in steps && j in steps && At(parent, pid, i) == At(parent, pid, j)
        ensures i == j
      {
        assert !Stops(parent, pid, root, i) && !Stops(parent, pid, root, j);
        if i < j {
          NoRevisit(parent, pid, root, m, i, j);
        } else if j < i {
          NoRevisit(parent, pid, root, m, j, i);
        }
      }
      InstantsSize(0, m - 1);
      Pigeonhole(steps, k => At(parent, pid, k), parent.Keys);
    }
  }

  /** The walk stops exactly when it does so within one step more than there are processes. */
  lemma HaltsIff(parent: map<int, int>, pid: int, root: int)
    ensures Halts(parent, pid, root) <==>
      root <= 0 || exists n :: 0 <= n <= |parent.Keys| + 1 && Stops(parent, pid, root, n)
  {
    if n: nat :| Stops(parent, pid, root, n) {
      var m := FirstStop(parent, pid, root, n);
      StopsSoon(parent, pid, root, m);
    }
  }

  /** Two processes that are each other's parents, and a root elsewhere: the walk goes round for ever. */
  lemma {:induction false} RoundForEver(n: nat)
    ensures var parent := map[2 := 3, 3 := 2];
      Ancestor(parent, 2, n) == Some(if n % 2 == 0 then 2 else 3) &&
        Ancestor(parent, 3, n) == Some(if n % 2 == 0 then 3 else 2)
  {
    if n > 0 {
      RoundForEver(n - 1);
    }
  }

  lemma CycleNeverStops()
    ensures !Halts(map[2 := 3, 3 := 2], 2, 5)
  {
    var parent := map[2 := 3, 3 := 2];
    forall n: nat
      ensures !Stops(parent, 2, 5, n)
    {
      RoundForEver(n);
    }
  }

  // ------------------------------------------------------------ the two agree

  ghost predicate Acyclic(parent: map<int, int>) {
    forall pid :: !Below(parent, pid, pid)
  }

  /** On a map without cycles the upward walk always stops. */
  lemma WalkHalts(parent: map<int, int>, pid: int, root: int)
    requires Acyclic(parent)
    ensures Halts(parent, pid, root)
  {
    var n := |parent.Keys|;
    if !Stops(parent, pid, root, n + 1) {
      LongChain(parent, pid, n + 1);
    }
  }

  ghost function Visited(parent: map<int, int>, pid: int, n: nat): set<int>
    requires Ancestor(parent, pid, n).Some?
    decreases n
  {
    if n == 0 then {} else {pid} + Visited(parent, parent[pid], n - 1)
  }

  lemma {:induction false} LongChain(parent: map<int, int>, pid: int, n: nat)
    requires Acyclic(parent) && Ancestor(parent, pid, n).Some?
    ensures n <= |parent.Keys|
  {
    VisitedSize(parent, pid, n);
    SubsetSize(Visited(parent, pid, n), parent.Keys);
  }

  lemma {:induction false} VisitedSize(parent: map<int, int>, pid: int, n: nat)
    requires Acyclic(parent) && Ancestor(parent, pid, n).Some?
    ensures |Visited(parent, pid, n)| == n && Visited(parent, pid, n) <= parent.Keys
    decreases n
  {
    if n > 0 {
      VisitedSize(parent, parent[pid], n - 1);
      if pid in Visited(parent, parent[pid], n - 1) {
        VisitedBelow(parent, pid, n - 1, pid);
      }
    }
  }

  lemma {:induction false} VisitedBelow(parent: map<int, int>, pid: int, n: nat, x: int)
    requires pid in parent && Ancestor(parent, parent[pid], n).Some? && x in Visited(parent, parent[pid], n)
    ensures Below(parent, pid, x)
  {
    var k := VisitedAt(parent, parent[pid], n, x);
    assert Ancestor(parent, pid, k + 1) == Some(x);
  }

  lemma VisitedAt(parent: map<int, int>, pid: int, n: nat, x: int) returns (k: nat)
    requires Ancestor(parent, pid, n).Some? && x in Visited(parent, pid, n)
    ensures Ancestor(parent, pid, k) == Some(x)
    decreases n
  {
    if x == pid {
      k := 0;
    } else {
      k := VisitedAt(parent, parent[pid], n - 1, x);
      k := k + 1;
    }
  }

  /** No process at or below 1 is a descendant of the root. */
  ghost predicate LowAbove(parent: map<int, int>, root: int) {
    forall p :: p <= 1 ==> !Below(parent, p, root)
  }

  /** The two searches find the same processes, exactly when no process at or below 1 is a descendant. */
  lemma SearchesAgree(parent: map<int, int>, root: int)
    requires root > 1
    ensures (forall pid :: WalkFinds(parent, pid, root) <==> pid == root || Below(parent, pid, root)) <==>
      LowAbove(parent, root)
  {
    if LowAbove(parent, root) {
      forall pid
        ensures WalkFinds(parent, pid, root) <==> pid == root || Below(parent, pid, root)
      {
        WalkAgrees(parent, pid, root);
      }
    } else {
      var p :| p <= 1 && Below(parent, p, root);
      LowNotFound(parent, p, root);
    }
  }

  /** A root whose child is process 1: that process is below the root, and the upward walk does not find it. */
  lemma InitBelowRoot()
    ensures Below(map[1 := 5], 1, 5) && !WalkFinds(map[1 := 5], 1, 5) && !LowAbove(map[1 := 5], 5)
  {
    BelowStep(map[1 := 5], 1, 5);
    LowNotFound(map[1 := 5], 1, 5);
  }

  /** Among positive processes, as `/proc` lists them, the two searches agree exactly when process 1 is not below
      the root. */
  lemma PositivesAgree(parent: map<int, int>, root: int)
    requires root > 1 && forall p :: p in parent ==> 0 < p
    ensures (forall pid :: 0 < pid ==> (WalkFinds(parent, pid, root) <==> pid == root || Below(parent, pid, root)))
      <==> !Below(parent, 1, root)
  {
    if Below(parent, 1, root) {
      LowNotFound(parent, 1, root);
    } else {
      forall p | p <= 1
        ensures !Below(parent, p, root)
      {
        if n :| 0 < n && Ancestor(parent, p, n) == Some(root) {
          assert p in parent;
        }
      }
      SearchesAgree(parent, root);
    }
  }

  lemma LowNotFound(parent: map<int, int>, pid: int, root: int)
    requires pid <= 1
    ensures !WalkFinds(parent, pid, root)
  {
    assert Ancestor(parent, pid, 0) == Some(pid);
    assert !Goes(parent, pid, 0);
  }

  lemma WalkAgrees(parent: map<int, int>, pid: int, root: int)
    requires root > 1 && LowAbove(parent, root)
    ensures WalkFinds(parent, pid, root) <==> pid == root || Below(parent, pid, root)
  {
    if WalkFinds(parent, pid, root) {
      var n :| 0 <= n && Meets(parent, pid, root, n);
      assert n == 0 ==> Ancestor(parent, pid, 0) == Some(pid);
    }
    if pid == root {
      assert Ancestor(parent, pid, 0) == Some(pid);
      assert Meets(parent, pid, root, 0);
    } else if Below(parent, pid, root) {
      var n :| 0 < n && Ancestor(parent, pid, n) == Some(root);
      forall k | 0 <= k <= n
        ensures Goes(parent, pid, k)
      {
        ChainGoes(parent, pid, root, n, k);
      }
      assert Meets(parent, pid, root, n);
    }
  }

  lemma {:induction false} ChainGoes(parent: map<int, int>, pid: int, root: int, n: nat, k: nat)
    requires root > 1 && LowAbove(parent, root) && Ancestor(parent, pid, n) == Some(root) && k <= n
    ensures Goes(parent, pid, k)
  {
    ChainSome(parent, pid, n, k);
    var x := Ancestor(parent, pid, k).value;
    Climb(parent, pid, k, n - k);
    if k < n {
      assert Below(parent, x, root);
    }
  }

  lemma {:induction false} ChainSome(parent: map<int, int>, pid: int, n: nat, k: nat)
    requires Ancestor(parent, pid, n).Some? && k <= n
    ensures Ancestor(parent, pid, k).Some?
    decreases n
  {
    if k > 0 {
      ChainSome(parent, parent[pid], n - 1, k - 1);
    }
  }

  /** It is enough that no process at or below 1 has a parent above 1. */
  lemma LowParents(parent: map<int, int>, root: int)
    requires root > 1 && forall p :: p in parent && p <= 1 ==> parent[p] <= 1
    ensures LowAbove(parent, root)
  {
    forall p | p <= 1
      ensures !Below(parent, p, root)
    {
      if n :| 0 < n && Ancestor(parent, p, n) == Some(root) {
        LowChain(parent, p, n);
      }
    }
  }

  lemma {:induction false} LowChain(parent: map<int, int>, p: int, n: nat)
    requires p <= 1 && (forall q :: q in parent && q <= 1 ==> parent[q] <= 1) && Ancestor(parent, p, n).Some?
    ensures Ancestor(parent, p, n).value <= 1
    decreases n
  {
    if n > 0 {
      LowChain(parent, parent[p], n - 1);
    }
  }

  /** For a root of 1 the upward walk finds nothing, not even the root. */
  lemma InitFindsNothing(parent: map<int, int>, pid: int)
    ensures !WalkFinds(parent, pid, 1)
  {
    forall n: nat
      ensures !Meets(parent, pid, 1, n)
    {
      assert Ancestor(parent, pid, n) == Some(1) ==> !Goes(parent, pid, n);
    }
  }
}
