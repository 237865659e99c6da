/** `is_rotated` of rad_util.py and the stack-based cycle enumerator `find_cycles` of topsort.py. */
module FindCycles {
  import opened Wrappers
  import opened Digraphs

  /** `None` stands for the IndexError of reading the head of an empty second sequence. */
  method IsRotated<V(==)>(seq1: seq<V>, seq2: seq<V>) returns (r: Option<bool>)
    ensures r.None? <==> seq1 == [] && seq2 == []
    ensures r.Some? ==> r.value == IsRotation(seq1, seq2)
  {
    if |seq1| != |seq2| {
      return Some(false);
    }
    if |seq2| == 0 {
      return None;
    }
    var head := seq2[0];
    var startIndexes: seq<nat> := [];
    for i := 0 to |seq1|
      invariant forall k :: 0 <= k < |startIndexes| ==> startIndexes[k] < |seq1|
      invariant forall k: nat :: k < i && seq1[k] == head ==> k in startIndexes
    {
      if seq1[i] == head {
        startIndexes := startIndexes + [i];
      }
    }
    var double := seq1 + seq1;
    for j := 0 to |startIndexes|
      invariant forall k :: 0 <= k < j ==> Rotate(seq1, startIndexes[k]) != seq2
    {
      var k := startIndexes[j];
      assert double[k..k + |seq1|] == Rotate(seq1, k);
      if double[k..k + |seq1|] == seq2 {
        return Some(true);
      }
    }
    forall k: nat | k <= |seq1|
      ensures seq2 != Rotate(seq1, k)
    {
      var k' := if k == |seq1| then 0 else k;
      assert Rotate(seq1, k') == Rotate(seq1, k) && Rotate(seq1, k')[0] == seq1[k'];
    }
    return Some(false);
  }

  /** The dictionary parent -> children as a set of edges. */
  ghost function EdgesOf<V>(g: map<V, seq<V>>): Edges<V> {
    set u, v | u in g && v in g[u] :: (u, v)
  }

  ghost predicate Has<V>(cycles: seq<seq<V>>, c: seq<V>) {
    exists i :: 0 <= i < |cycles| && IsRotation(cycles[i], c)
  }

  /** What may be collected: cycles of the graph, no two of them rotations of each other. */
  ghost predicate Genuine<V>(g: map<V, seq<V>>, cycles: seq<seq<V>>) {
    && (forall i :: 0 <= i < |cycles| ==> IsCycle(EdgesOf(g), cycles[i]))
    && (forall i, j :: 0 <= i < j < |cycles| ==> !IsRotation(cycles[i], cycles[j]))
  }

  /** Every cycle that can be reached from v has been collected, up to rotation. */
  ghost predicate Covered<V(!new)>(g: map<V, seq<V>>, cycles: seq<seq<V>>, v: V) {
    forall w, c :: IsWalk(EdgesOf(g), w) && w[0] == v && IsCycle(EdgesOf(g), c) && w[|w| - 1] in c
      ==> Has(cycles, c)
  }

  ghost predicate Reachable<V(!new)>(e: Edges<V>, u: V, v: V) {
    exists w :: IsWalk(e, w) && w[0] == u && w[|w| - 1] == v
  }

  /** The children of the end of a path; a node that is no key of the dictionary has none. */
  function Kids<V(==)>(g: map<V, seq<V>>, q: seq<V>): seq<V>
    requires q != []
  {
    if q[|q| - 1] in g then g[q[|q| - 1]] else []
  }

  // ----- Termination: the number of iterations still owed to each path on the stack -----

  /** u is closed under the edges of g. */
  ghost predicate Closed<V>(g: map<V, seq<V>>, u: set<V>) {
    forall x, y :: x in g && y in g[x] ==> y in u
  }

  ghost predicate Within<V>(p: seq<V>, u: set<V>) {
    && |p| > 0
    && Distinct(p)
    && forall x :: x in p ==> x in u
  }

  ghost function Steps<V>(g: map<V, seq<V>>, u: set<V>, p: seq<V>): nat
    requires Closed(g, u) && Within(p, u)
    decreases |u| - |p|, 1, 0
  {
    DistinctBound(p, u);
    1 + ChildSteps(g, u, p, 0)
  }

  ghost function ChildSteps<V>(g: map<V, seq<V>>, u: set<V>, p: seq<V>, i: nat): nat
    requires Closed(g, u) && Within(p, u) && i <= |Kids(g, p)|
    decreases |u| - |p|, 0, |Kids(g, p)| - i
  {
    var kids := Kids(g, p);
    if i == |kids| then 0
    else
      DistinctBound(p, u);
      ChildSteps(g, u, p, i + 1) +
      if kids[i] in p then 0
      else
        assert kids[i] in u;
        DistinctBound(p + [kids[i]], u);
        Steps(g, u, p + [kids[i]])
  }

  ghost predicate StackWithin<V>(paths: seq<seq<V>>, u: set<V>) {
    forall i :: 0 <= i < |paths| ==> Within(paths[i], u)
  }

  ghost function StackSteps<V>(g: map<V, seq<V>>, u: set<V>, paths: seq<seq<V>>): nat
    requires Closed(g, u) && StackWithin(paths, u)
  {
    if paths == [] then 0
    else
      var top := |paths| - 1;
      assert StackWithin(paths[..top], u);
      StackSteps(g, u, paths[..top]) + Steps(g, u, paths[top])
  }

  // ----- Completeness -----

  /** The first n children of the end of q have been examined: those that close a cycle are collected. */
  ghost predicate Examined<V>(g: map<V, seq<V>>, cycles: seq<seq<V>>, q: seq<V>, n: nat) {
    && |q| > 0
    && forall k :: 0 <= k < n && k < |Kids(g, q)| && Kids(g, q)[k] in q ==>
      Has(cycles, q[IndexOf(q, Kids(g, q)[k])..])
  }

  ghost predicate Done<V>(g: map<V, seq<V>>, cycles: seq<seq<V>>, q: seq<V>) {
    |q| > 0 && Examined(g, cycles, q, |Kids(g, q)|)
  }

  ghost predicate Pending<V>(paths: seq<seq<V>>, q: seq<V>) {
    exists i :: 0 <= i < |paths| && paths[i] <= q
  }

  /** The search loop's invariant: a path from `start` is finished, or a prefix of it waits on the stack. */
  ghost predicate Progress<V(!new)>(g: map<V, seq<V>>, cycles: seq<seq<V>>, paths: seq<seq<V>>, start: V) {
    forall q :: IsPath(EdgesOf(g), q) && q[0] == start ==> Pending(paths, q) || Done(g, cycles, q)
  }

  /** Once the stack is empty, every cycle reachable from `start` has been found. */
  lemma SearchComplete<V(!new)>(g: map<V, seq<V>>, cycles: seq<seq<V>>, start: V)
    requires Progress(g, cycles, [], start)
    ensures Covered(g, cycles, start)
  {
    var e := EdgesOf(g);
    forall w, c | IsWalk(e, w) && w[0] == start && IsCycle(e, c) && w[|w| - 1] in c
      ensures Has(cycles, c)
    {
      CycleFound(g, cycles, start, w, c);
    }
  }

  lemma CycleFound<V(!new)>(g: map<V, seq<V>>, cycles: seq<seq<V>>, start: V, w: seq<V>, c: seq<V>)
    requires Progress(g, cycles, [], start)
    requires IsWalk(EdgesOf(g), w) && w[0] == start && IsCycle(EdgesOf(g), c) && w[|w| - 1] in c
    ensures Has(cycles, c)
  {
    var e := EdgesOf(g);
    var p := FirstEntry(e, w, Elements(c));
    var k: nat :| k < |c| && c[k] == p[|p| - 1];
    var r := Rotate(c, k);
    RotateCycle(e, c, k);
    assert forall x :: x in r ==> x in Elements(c);
    RunAround(e, p, r);
    HeadFound(g, cycles, start, p, r);
    var i :| 0 <= i < |cycles| && IsRotation(cycles[i], r);
    RotationSymmetric(c, r);
    RotationTransitive(cycles[i], r, c);
  }

  /** A path that meets a cycle only at its end continues around the cycle without repeating a node. */
  lemma RunAround<V>(e: Edges<V>, p: seq<V>, r: seq<V>)
    requires IsPath(e, p) && IsCycle(e, r) && p[|p| - 1] == r[0]
    requires forall i :: 0 <= i < |p| - 1 ==> p[i] !in r
    ensures IsPath(e, p + r[1..])
  {
    JoinWalks(e, p, r);
    var q := p + r[1..];
    forall i, j | 0 <= i < j < |q|
      ensures q[i] != q[j]
    {
      if j >= |p| {
        assert q[j] == r[j - |p| + 1];
        if i >= |p| - 1 {
          assert q[i] == r[i - |p| + 1];
        }
      }
    }
  }

  lemma HeadFound<V(!new)>(g: map<V, seq<V>>, cycles: seq<seq<V>>, start: V, p: seq<V>, r: seq<V>)
    requires Progress(g, cycles, [], start)
    requires p != [] && p[0] == start && IsCycle(EdgesOf(g), r) && p[|p| - 1] == r[0]
    requires IsPath(EdgesOf(g), p + r[1..])
    ensures Has(cycles, r)
  {
    var q := p + r[1..];
    var n := |p| - 1;
    assert q[n..] == r;
    assert q[|q| - 1] == r[|r| - 1];
    assert (r[|r| - 1], r[0]) in EdgesOf(g);
    var k :| 0 <= k < |Kids(g, q)| && Kids(g, q)[k] == r[0];
    assert q[n] == r[0];
    assert IndexOf(q, r[0]) == n;
    assert Done(g, cycles, q);
  }

  /** What is covered from `start` is covered from every node reachable from it. */
  lemma CoveredDownstream<V(!new)>(g: map<V, seq<V>>, cycles: seq<seq<V>>, start: V, v: V)
    requires Covered(g, cycles, start) && Reachable(EdgesOf(g), start, v)
    ensures Covered(g, cycles, v)
  {
    var e := EdgesOf(g);
    var a :| IsWalk(e, a) && a[0] == start && a[|a| - 1] == v;
    forall w, c | IsWalk(e, w) && w[0] == v && IsCycle(e, c) && w[|w| - 1] in c
      ensures Has(cycles, c)
    {
      JoinWalks(e, a, w);
      var j := a + w[1..];
      assert j[|j| - 1] == w[|w| - 1];
    }
  }

  lemma HasMonotone<V>(a: seq<seq<V>>, b: seq<seq<V>>, c: seq<V>)
    requires a <= b && Has(a, c)
    ensures Has(b, c)
  {
    var i :| 0 <= i < |a| && IsRotation(a[i], c);
    assert IsRotation(b[i], c);
  }

  lemma CoveredMonotone<V(!new)>(g: map<V, seq<V>>, a: seq<seq<V>>, b: seq<seq<V>>, v: V)
    requires a <= b && Covered(g, a, v)
    ensures Covered(g, b, v)
  {
    forall w, c | IsWalk(EdgesOf(g), w) && w[0] == v && IsCycle(EdgesOf(g), c) && w[|w| - 1] in c
      ensures Has(b, c)
    {
      HasMonotone(a, b, c);
    }
  }

  lemma ExaminedMonotone<V>(g: map<V, seq<V>>, a: seq<seq<V>>, b: seq<seq<V>>, q: seq<V>, n: nat)
    requires a <= b && Examined(g, a, q, n)
    ensures Examined(g, b, q, n)
  {
    forall k | 0 <= k < n && k < |Kids(g, q)| && Kids(g, q)[k] in q
      ensures Has(b, q[IndexOf(q, Kids(g, q)[k])..])
    {
      HasMonotone(a, b, q[IndexOf(q, Kids(g, q)[k])..]);
    }
  }

  /** The part of a path from the first occurrence of a child of its end is a cycle. */
  lemma ClosingCycle<V>(g: map<V, seq<V>>, path: seq<V>, child: V)
    requires IsPath(EdgesOf(g), path) && child in Kids(g, path) && child in path
    ensures IsCycle(EdgesOf(g), path[IndexOf(path, child)..])
  {
    SubWalk(EdgesOf(g), path, IndexOf(path, child), |path|);
  }

  /** A path that continues a finished one waits on the stack under one of the new entries. */
  lemma ProgressStep<V(!new)>(g: map<V, seq<V>>, cycles: seq<seq<V>>, rest: seq<seq<V>>, path: seq<V>,
                              cycles': seq<seq<V>>, paths': seq<seq<V>>, start: V)
    requires Progress(g, cycles, rest + [path], start)
    requires IsPath(EdgesOf(g), path) && cycles <= cycles' && rest <= paths'
    requires Done(g, cycles', path)
    requires Pushed(paths', path, Kids(g, path), |Kids(g, path)|)
    ensures Progress(g, cycles', paths', start)
  {
    forall q | IsPath(EdgesOf(g), q) && q[0] == start
      ensures Pending(paths', q) || Done(g, cycles', q)
    {
      if Pending(rest + [path], q) {
        var i :| 0 <= i < |rest + [path]| && (rest + [path])[i] <= q;
        if i < |rest| {
          assert paths'[i] == rest[i];
        } else if q != path {
          var n := |path|;
          assert path <= q && q[n - 1] == path[n - 1];
          assert (q[n - 1], q[n]) in EdgesOf(g);
          var k :| 0 <= k < |Kids(g, path)| && Kids(g, path)[k] == q[n];
          assert path + [q[n]] <= q;
          var j :| 0 <= j < |paths'| && paths'[j] == path + [q[n]];
        }
      } else {
        ExaminedMonotone(g, cycles, cycles', q, |Kids(g, q)|);
      }
    }
  }

  // ----- The program -----

  /** Add a cycle unless a rotation of it has been collected. */
  method Collect<V(==)>(cycles: seq<seq<V>>, cycle: seq<V>) returns (r: seq<seq<V>>)
    requires cycle != []
    ensures r == if Has(cycles, cycle) then cycles else cycles + [cycle]
  {
    for i := 0 to |cycles|
      invariant forall j :: 0 <= j < i ==> !IsRotation(cycles[j], cycle)
    {
      var isDup := IsRotated(cycles[i], cycle);
      if isDup == Some(true) {
        return cycles;
      }
    }
    return cycles + [cycle];
  }

  lemma GenuineHas<V>(g: map<V, seq<V>>, before: seq<seq<V>>, after: seq<seq<V>>, cycle: seq<V>)
    requires Genuine(g, before) && IsCycle(EdgesOf(g), cycle)
    requires after == if Has(before, cycle) then before else before + [cycle]
    ensures Genuine(g, after) && Has(after, cycle)
  {
    if !Has(before, cycle) {
      assert Rotate(cycle, 0) == cycle;
      assert after[|before|] == cycle;
    }
  }

  /** What every path on the stack is: a simple path from the starting node. */
  ghost predicate Stacked<V>(g: map<V, seq<V>>, u: set<V>, start: V, paths: seq<seq<V>>) {
    forall i :: 0 <= i < |paths| ==> IsPath(EdgesOf(g), paths[i]) && paths[i][0] == start && Within(paths[i], u)
  }

  /** Examining the next child accounts for its share of the steps owed to the path. */
  lemma NextShare<V>(g: map<V, seq<V>>, u: set<V>, path: seq<V>, i: nat)
    requires Closed(g, u) && Within(path, u) && i < |Kids(g, path)|
    ensures Kids(g, path)[i] !in path ==> Within(path + [Kids(g, path)[i]], u)
    ensures ChildSteps(g, u, path, i) == ChildSteps(g, u, path, i + 1) +
              if Kids(g, path)[i] in path then 0 else Steps(g, u, path + [Kids(g, path)[i]])
  {
    assert Kids(g, path)[i] in u;
  }

  lemma PushSteps<V>(g: map<V, seq<V>>, u: set<V>, paths: seq<seq<V>>, path: seq<V>)
    requires Closed(g, u) && StackWithin(paths, u) && Within(path, u)
    ensures StackWithin(paths + [path], u)
    ensures StackSteps(g, u, paths + [path]) == StackSteps(g, u, paths) + Steps(g, u, path)
  {
    hide Steps, Closed, Within;
    assert (paths + [path])[..|paths|] == paths;
  }

  lemma PushPath<V(!new)>(g: map<V, seq<V>>, u: set<V>, start: V, paths: seq<seq<V>>, path: seq<V>, child: V)
    requires Stacked(g, u, start, paths)
    requires IsPath(EdgesOf(g), path) && path[0] == start && Within(path + [child], u)
    requires child in Kids(g, path) && child !in path
    ensures Stacked(g, u, start, paths + [path + [child]])
    ensures Reachable(EdgesOf(g), start, child)
  {
    hide Within;
    var longer := path + [child];
    assert (path[|path| - 1], child) in EdgesOf(g);
    ConcatWalks(EdgesOf(g), path, [child]);
    assert IsWalk(EdgesOf(g), longer) && longer[0] == start && longer[|longer| - 1] == child;
  }

  lemma ExamineNext<V>(g: map<V, seq<V>>, cycles: seq<seq<V>>, q: seq<V>, i: nat)
    requires Examined(g, cycles, q, i) && i < |Kids(g, q)|
    requires Kids(g, q)[i] in q ==> Has(cycles, q[IndexOf(q, Kids(g, q)[i])..])
    ensures Examined(g, cycles, q, i + 1)
  {
    hide IndexOf, Has;
  }

  /** The paths to the first i children that are not on the path already wait on the stack. */
  ghost predicate Pushed<V>(paths: seq<seq<V>>, path: seq<V>, children: seq<V>, i: nat) {
    forall k :: 0 <= k < i && k < |children| && children[k] !in path ==> path + [children[k]] in paths
  }

  lemma PushNext<V>(paths: seq<seq<V>>, path: seq<V>, children: seq<V>, i: nat)
    requires Pushed(paths, path, children, i) && i < |children|
    ensures children[i] in path ==> Pushed(paths, path, children, i + 1)
    ensures Pushed(paths + [path + [children[i]]], path, children, i + 1)
  {
    var longer := paths + [path + [children[i]]];
    assert longer[|paths|] == path + [children[i]];
    forall k | 0 <= k < i && children[k] !in path
      ensures path + [children[k]] in longer
    {
      var j :| 0 <= j < |paths| && paths[j] == path + [children[k]];
      assert longer[j] == paths[j];
    }
  }

  /** Everything visited that was not so before can be reached from `start`. */
  ghost predicate Visited<V(!new)>(g: map<V, seq<V>>, start: V, before: set<V>, after: set<V>) {
    forall v :: v in after ==> v in before || Reachable(EdgesOf(g), start, v)
  }

  lemma VisitNext<V(!new)>(g: map<V, seq<V>>, start: V, before: set<V>, after: set<V>, child: V)
    requires Visited(g, start, before, after) && Reachable(EdgesOf(g), start, child)
    ensures Visited(g, start, before, after + {child})
  {
    hide Reachable, EdgesOf;
  }

  lemma VisitTrans<V(!new)>(g: map<V, seq<V>>, start: V, a: set<V>, b: set<V>, c: set<V>)
    requires Visited(g, start, a, b) && Visited(g, start, b, c)
    ensures Visited(g, start, a, c)
  {
    hide Reachable, EdgesOf;
  }

  /** The body of the search: examine the children of the end of `path`, which has just been popped. */
  method VisitChildren<V(==,!new)>(g: map<V, seq<V>>, path: seq<V>, paths: seq<seq<V>>, cycles: seq<seq<V>>,
                                   visited: set<V>, ghost u: set<V>, ghost start: V)
    returns (paths': seq<seq<V>>, cycles': seq<seq<V>>, visited': set<V>)
    requires Closed(g, u) && Stacked(g, u, start, paths) && StackWithin(paths, u)
    requires IsPath(EdgesOf(g), path) && path[0] == start && Within(path, u)
    requires Genuine(g, cycles)
    ensures paths <= paths' && cycles <= cycles' && Genuine(g, cycles')
    ensures Stacked(g, u, start, paths') && StackWithin(paths', u)
    ensures StackSteps(g, u, paths') == StackSteps(g, u, paths) + Steps(g, u, path) - 1
    ensures Done(g, cycles', path)
    ensures Pushed(paths', path, Kids(g, path), |Kids(g, path)|)
    ensures Visited(g, start, visited, visited')
  {
    var children := Kids(g, path);
    paths', cycles', visited' := paths, cycles, visited;
    StartVisit(g, u, start, path, paths, cycles, visited);
    hide *;
    for i := 0 to |children|
      invariant paths <= paths' && cycles <= cycles' && Genuine(g, cycles')
      invariant Stacked(g, u, start, paths') && StackWithin(paths', u)
      invariant StackSteps(g, u, paths') + ChildSteps(g, u, path, i) + 1 == StackSteps(g, u, paths) + Steps(g, u, path)
      invariant Examined(g, cycles', path, i)
      invariant Pushed(paths', path, children, i)
      invariant Visited(g, start, visited, visited')
    {
      var child := children[i];
      NextShare(g, u, path, i);
      PushNext(paths', path, children, i);
      if child in path {
        var cycle := path[IndexOf(path, child)..];
        ClosingCycle(g, path, child);
        ghost var before := cycles';
        cycles' := Collect(cycles', cycle);
        ExaminedMonotone(g, before, cycles', path, i);
        GenuineHas(g, before, cycles', cycle);
      } else {
        PushPath(g, u, start, paths', path, child);
        PushSteps(g, u, paths', path + [child]);
        VisitNext(g, start, visited, visited', child);
        paths' := paths' + [path + [child]];
        visited' := visited' + {child};
      }
      ExamineNext(g, cycles', path, i);
    }
    EndVisit(g, u, path, cycles');
  }

  lemma StartVisit<V(!new)>(g: map<V, seq<V>>, u: set<V>, start: V, path: seq<V>, paths: seq<seq<V>>,
                            cycles: seq<seq<V>>, visited: set<V>)
    requires Closed(g, u) && Within(path, u)
    ensures Steps(g, u, path) == 1 + ChildSteps(g, u, path, 0)
    ensures Examined(g, cycles, path, 0) && Pushed(paths, path, Kids(g, path), 0) && Visited(g, start, visited, visited)
  {
  }

  lemma EndVisit<V>(g: map<V, seq<V>>, u: set<V>, path: seq<V>, cycles: seq<seq<V>>)
    requires Closed(g, u) && Within(path, u) && Examined(g, cycles, path, |Kids(g, path)|)
    ensures Done(g, cycles, path) && ChildSteps(g, u, path, |Kids(g, path)|) == 0
  {
  }

  /** The `while paths` loop for one starting node. */
  method SearchFrom<V(==,!new)>(g: map<V, seq<V>>, start: V, cycles: seq<seq<V>>, visited: set<V>, ghost u: set<V>)
    returns (cycles': seq<seq<V>>, visited': set<V>)
    requires Closed(g, u) && start in u && Genuine(g, cycles)
    ensures cycles <= cycles' && Genuine(g, cycles')
    ensures Covered(g, cycles', start)
    ensures Visited(g, start, visited, visited')
  {
    assert Visited(g, start, visited, visited);
    hide *;
    var paths := [[start]];
    cycles', visited' := cycles, visited;
    StartSearch(g, u, start, cycles);
    while paths != []
      invariant cycles <= cycles' && Genuine(g, cycles')
      invariant Stacked(g, u, start, paths) && StackWithin(paths, u)
      invariant Progress(g, cycles', paths, start)
      invariant Visited(g, start, visited, visited')
      decreases StackSteps(g, u, paths)
    {
      var path := paths[|paths| - 1];
      ghost var before, cyclesBefore, visitedBefore := paths, cycles', visited';
      PopPath(g, u, start, paths);
      paths := paths[..|paths| - 1];
      ghost var rest := paths;
      assert before == rest + [path];
      paths, cycles', visited' := VisitChildren(g, path, paths, cycles', visited', u, start);
      ProgressStep(g, cyclesBefore, rest, path, cycles', paths, start);
      VisitTrans(g, start, visited, visitedBefore, visited');
    }
    SearchComplete(g, cycles', start);
  }

  lemma StartSearch<V(!new)>(g: map<V, seq<V>>, u: set<V>, start: V, cycles: seq<seq<V>>)
    requires start in u
    ensures Stacked(g, u, start, [[start]]) && StackWithin([[start]], u) && Progress(g, cycles, [[start]], start)
  {
    forall q | IsPath(EdgesOf(g), q) && q[0] == start
      ensures Pending([[start]], q)
    {
      assert [[start]][0] <= q;
    }
  }

  lemma PopPath<V>(g: map<V, seq<V>>, u: set<V>, start: V, paths: seq<seq<V>>)
    requires Closed(g, u) && Stacked(g, u, start, paths) && StackWithin(paths, u) && paths != []
    ensures var path, rest := paths[|paths| - 1], paths[..|paths| - 1];
            && IsPath(EdgesOf(g), path) && path[0] == start && Within(path, u)
            && Stacked(g, u, start, rest) && StackWithin(rest, u)
            && StackSteps(g, u, paths) == StackSteps(g, u, rest) + Steps(g, u, path)
            && Steps(g, u, path) > 0
  {
    hide Closed, IsPath, EdgesOf, Within, ChildSteps;
    assert forall i :: 0 <= i < |paths| - 1 ==> paths[..|paths| - 1][i] == paths[i];
  }

  /** `keys` is the order in which the dictionary is iterated. The result is the list of yielded cycles. */
  method FindCycles<V(==,!new)>(g: map<V, seq<V>>, keys: seq<V>) returns (cycles: seq<seq<V>>)
    requires Distinct(keys) && forall v :: v in keys <==> v in g
    ensures forall i :: 0 <= i < |cycles| ==> IsCycle(EdgesOf(g), cycles[i])
    ensures forall i, j :: 0 <= i < j < |cycles| ==> !IsRotation(cycles[i], cycles[j])
    ensures forall c :: IsCycle(EdgesOf(g), c) ==> exists i :: 0 <= i < |cycles| && IsRotation(cycles[i], c)
  {
    cycles := [];
    var visited: set<V> := {};
    ghost var u := g.Keys + set x, y | x in g && y in g[x] :: y;
    assert Closed(g, u);
    for n := 0 to |keys|
      invariant Genuine(g, cycles)
      invariant forall k :: 0 <= k < n ==> Covered(g, cycles, keys[k])
      invariant forall v :: v in visited ==> Covered(g, cycles, v)
    {
      hide Genuine, Covered, Reachable, Distinct, EdgesOf, Closed;
      var parent := keys[n];
      if parent in visited {
        continue;
      }
      ghost var before, visitedBefore := cycles, visited;
      cycles, visited := SearchFrom(g, parent, cycles, visited, u);
      forall v | Covered(g, before, v)
        ensures Covered(g, cycles, v)
      {
        CoveredMonotone(g, before, cycles, v);
      }
      forall v | v in visited
        ensures Covered(g, cycles, v)
      {
        if v !in visitedBefore {
          CoveredDownstream(g, cycles, parent, v);
        }
      }
    }
    forall c | IsCycle(EdgesOf(g), c)
      ensures Has(cycles, c)
    {
      assert (c[|c| - 1], c[0]) in EdgesOf(g);
      var v := c[|c| - 1];
      var k :| 0 <= k < |keys| && keys[k] == v;
      assert IsWalk(EdgesOf(g), [v]);
    }
  }
}
