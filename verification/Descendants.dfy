/** Finding the descendants of a process, downwards over a table of children. */
module Descendants {
  import opened Sets
  import opened Sorting
  import opened Intervals

  /** The process `n` parents above `pid`. `parent` is what `/proc` says; unreadable processes are missing. */
  ghost function Ancestor(parent: map<int, int>, pid: int, n: nat): Option<int>
    decreases n
  {
    if n == 0 then Some(pid)
    else if pid in parent then Ancestor(parent, parent[pid], n - 1)
    else None
  }

  /** A non-empty chain of parents leads from `pid` to `root`. */
  ghost predicate Below(parent: map<int, int>, pid: int, root: int) {
    exists n :: 0 < n && Ancestor(parent, pid, n) == Some(root)
  }

  lemma {:induction false} Climb(parent: map<int, int>, pid: int, m: nat, n: nat)
    requires Ancestor(parent, pid, m).Some?
    ensures Ancestor(parent, pid, m + n) == Ancestor(parent, Ancestor(parent, pid, m).value, n)
    decreases m
  {
    if m > 0 {
      Climb(parent, parent[pid], m - 1, n);
    }
  }

  lemma BelowStep(parent: map<int, int>, pid: int, root: int)
    requires pid in parent
    ensures Below(parent, pid, root) <==> parent[pid] == root || Below(parent, parent[pid], root)
  {
    if parent[pid] == root {
      assert Ancestor(parent, root, 0) == Some(root);
      assert Ancestor(parent, pid, 1) == Some(root);
    }
    if Below(parent, parent[pid], root) {
      var n :| 0 < n && Ancestor(parent, parent[pid], n) == Some(root);
      assert Ancestor(parent, pid, n + 1) == Some(root);
    }
    if Below(parent, pid, root) && parent[pid] != root {
      var n :| 0 < n && Ancestor(parent, pid, n) == Some(root);
      assert Ancestor(parent, parent[pid], 0) == Some(parent[pid]);
      assert Ancestor(parent, parent[pid], n - 1) == Some(root);
    }
  }

  // ------------------------------------------------------------------- search

  function Kids(children: map<int, seq<int>>, pid: int): seq<int> {
    if pid in children then children[pid] else []
  }

  /** The children of each process, from the entries of `/proc`. */
  ghost predicate Children(entries: seq<int>, parent: map<int, int>, children: map<int, seq<int>>) {
    forall p, c :: c in Kids(children, p) <==> c in entries && c in parent && parent[c] == p
  }

  lemma ChildAdded(entries: seq<int>, parent: map<int, int>, children: map<int, seq<int>>, pid: int)
    requires Children(entries, parent, children)
    ensures Children(entries + [pid], parent,
      if pid in parent then children[parent[pid] := Kids(children, parent[pid]) + [pid]] else children)
  {
    var after := if pid in parent then children[parent[pid] := Kids(children, parent[pid]) + [pid]] else children;
    forall p, c
      ensures c in Kids(after, p) <==> c in entries + [pid] && c in parent && parent[c] == p
    {
      assert c in Kids(children, p) <==> c in entries && c in parent && parent[c] == p;
    }
  }

  method ReadChildren(entries: seq<int>, parent: map<int, int>) returns (children: map<int, seq<int>>)
    ensures Children(entries, parent, children)
  {
    children := map[];
    var i := 0;
    while i < |entries|
      invariant 0 <= i <= |entries|
      invariant Children(entries[..i], parent, children)
    {
      var pid := entries[i];
      ChildAdded(entries[..i], parent, children, pid);
      assert entries[..i + 1] == entries[..i] + [pid];
      if pid in parent {
        children := children[parent[pid] := Kids(children, parent[pid]) + [pid]];
      }
      i := i + 1;
    }
    assert entries[..i] == entries;
  }

  /** What the search knows: the processes on its lists are descendants, and it has seen the children of the
      root and of every process on the result list. */
  ghost predicate Searching(parent: map<int, int>, root: int, results: seq<int>, stack: seq<int>) {
    && (forall x :: x in results || x in stack ==> x in parent && Below(parent, x, root))
    && (forall c :: c in parent && (parent[c] == root || parent[c] in results) ==> c in results || c in stack)
  }

  lemma {:induction false} SearchedAll(parent: map<int, int>, root: int, results: seq<int>, pid: int, n: nat)
    requires Searching(parent, root, results, []) && 0 < n && Ancestor(parent, pid, n) == Some(root)
    ensures pid in results
    decreases n
  {
    if n > 1 {
      SearchedAll(parent, root, results, parent[pid], n - 1);
    } else {
      assert Ancestor(parent, parent[pid], 0) == Some(parent[pid]);
    }
  }

  lemma SearchStep(parent: map<int, int>, root: int, results: seq<int>, stack: seq<int>, pid: int, kids: seq<int>)
    requires Searching(parent, root, results, stack + [pid])
    requires forall c :: c in kids <==> c in parent && parent[c] == pid
    requires NoRepeat(results) && pid !in results
    ensures Searching(parent, root, results + [pid], stack + kids) && NoRepeat(results + [pid])
    ensures |parent.Keys - Elements(results + [pid])| < |parent.Keys - Elements(results)|
  {
    assert pid in stack + [pid];
    Shrinks(parent.Keys, results, pid);
    NoRepeatAppend(results, pid);
    forall c | c in kids
      ensures Below(parent, c, root)
    {
      BelowStep(parent, c, root);
    }
    forall c | c in parent && (parent[c] == root || parent[c] in results + [pid])
      ensures c in results + [pid] || c in stack + kids
    {
      if parent[c] != pid {
        assert c in results || c in stack + [pid];
      }
    }
  }

  lemma SearchSkip(parent: map<int, int>, root: int, results: seq<int>, stack: seq<int>, pid: int)
    requires Searching(parent, root, results, stack + [pid]) && pid in results
    ensures Searching(parent, root, results, stack)
  {
    forall x | x in results || x in stack
      ensures x in parent && Below(parent, x, root)
    {
      assert x in stack ==> x in stack + [pid];
    }
    forall c | c in parent && (parent[c] == root || parent[c] in results)
      ensures c in results || c in stack
    {
      assert c in results || c in stack + [pid];
    }
  }

  /** `descendant_pids`: every process with a chain of parents to the root, once and in order. It ends on
      every parent map, with cycles too. */
  method DescendantPids(root: int, entries: seq<int>, parent: map<int, int>) returns (r: seq<int>)
    requires forall pid :: pid in parent ==> pid in entries
    ensures Increasing(r)
    ensures forall pid :: pid in r <==> 0 < root && Below(parent, pid, root)
  {
    if root <= 0 {
      return [];
    }
    var children := ReadChildren(entries, parent);
    var results := Search(root, children, parent);
    AllBelow(parent, root, results);
    r := SortBy(results, PidKey);
    SameElements(results, PidKey);
    assert forall i, j :: 0 <= i < j < |r| ==> LE(PidKey(r[i]), PidKey(r[j]));
    SortedResults(results, r);
  }

  method Search(root: int, children: map<int, seq<int>>, parent: map<int, int>) returns (results: seq<int>)
    requires forall p, c :: c in Kids(children, p) <==> c in parent && parent[c] == p
    ensures Searching(parent, root, results, []) && NoRepeat(results)
  {
    results := [];
    var stack := Kids(children, root);
    StartSearch(parent, root, stack);
    while stack != []
      invariant Searching(parent, root, results, stack) && NoRepeat(results)
      decreases |parent.Keys - Elements(results)|, |stack|
    {
      var pid := stack[|stack| - 1];
      assert stack == stack[..|stack| - 1] + [pid];
      stack := stack[..|stack| - 1];
      if pid in results {
        SearchSkip(parent, root, results, stack, pid);
        continue;
      }
      SearchStep(parent, root, results, stack, pid, Kids(children, pid));
      results := results + [pid];
      stack := stack + Kids(children, pid);
    }
  }

  function PidKey(pid: int): Key {
    Key(pid, 0, 0)
  }

  ghost function Elements(xs: seq<int>): set<int> {
    set x | x in xs
  }

  lemma Shrinks(all: set<int>, results: seq<int>, pid: int)
    requires pid in all && pid !in results
    ensures |all - Elements(results + [pid])| < |all - Elements(results)|
  {
    assert all - Elements(results) == (all - Elements(results + [pid])) + {pid};
  }

  lemma StartSearch(parent: map<int, int>, root: int, stack: seq<int>)
    requires forall c :: c in stack <==> c in parent && parent[c] == root
    ensures Searching(parent, root, [], stack)
  {
    forall c | c in stack
      ensures Below(parent, c, root)
    {
      BelowStep(parent, c, root);
    }
  }

  lemma AllBelow(parent: map<int, int>, root: int, results: seq<int>)
    requires Searching(parent, root, results, [])
    ensures forall pid :: pid in results <==> Below(parent, pid, root)
  {
    forall pid | Below(parent, pid, root)
      ensures pid in results
    {
      var n :| 0 < n && Ancestor(parent, pid, n) == Some(root);
      SearchedAll(parent, root, results, pid, n);
    }
  }

  lemma SortedResults(results: seq<int>, r: seq<int>)
    requires NoRepeat(results) && multiset(r) == multiset(results) && forall i, j :: 0 <= i < j < |r| ==> r[i] <= r[j]
    ensures Increasing(r)
  {
    forall i, j | 0 <= i < j < |r|
      ensures r[i] < r[j]
    {
      NoRepeatApart(r, i, j);
    }
  }
}
