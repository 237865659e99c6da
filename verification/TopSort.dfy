/** `topsort`, `topsort_levels` and `topsort_levels_core` of topsort.py. */
module TopSort {
  import opened Digraphs

  /** How a sort ends: normally, or with the two tables that CycleError carries. */
  datatype Outcome<V> = Sorted | CycleError(numParents: map<V, nat>, children: map<V, seq<V>>)

  // ----- What the two tables mean -----

  ghost function EdgeSet<V>(pairs: seq<(V, V)>): Edges<V> {
    set p | p in pairs
  }

  ghost function Nodes<V>(pairs: seq<(V, V)>): set<V> {
    (set p | p in pairs :: p.0) + (set p | p in pairs :: p.1)
  }

  /** The pairs into x, counted with repetitions, whose parent is not in done. */
  ghost function CountInto<V>(pairs: seq<(V, V)>, x: V, done: set<V>): nat {
    if pairs == [] then 0
    else
      var last := pairs[|pairs| - 1];
      CountInto(pairs[..|pairs| - 1], x, done) + if last.1 == x && last.0 !in done then 1 else 0
  }

  ghost function ChildrenOf<V>(pairs: seq<(V, V)>, p: V): seq<V> {
    if pairs == [] then []
    else
      var last := pairs[|pairs| - 1];
      ChildrenOf(pairs[..|pairs| - 1], p) + if last.0 == p then [last.1] else []
  }

  function Listed<V(==)>(children: map<V, seq<V>>, p: V): seq<V> {
    if p in children then children[p] else []
  }

  /** The tables once the nodes in done have been taken out: num_parents counts the unprocessed pairs. */
  ghost predicate Residual<V(!new)>(pairs: seq<(V, V)>, nodes: set<V>, done: set<V>,
                              numParents: map<V, nat>, children: map<V, seq<V>>)
  {
    && Nodes(pairs) <= nodes && done <= nodes
    && numParents.Keys == nodes - done
    && children.Keys !! done
    && (forall x :: x in numParents ==> numParents[x] == CountInto(pairs, x, done))
    && (forall p :: p !in done ==> Listed(children, p) == ChildrenOf(pairs, p))
    && (forall x :: x in done ==> CountInto(pairs, x, done) == 0)
  }

  /** Every node once, and every parent before its children. */
  ghost predicate TopologicalOrder<V>(pairs: seq<(V, V)>, nodes: set<V>, order: seq<V>) {
    && Distinct(order)
    && Elements(order) == nodes
    && ParentsFirst(pairs, order)
  }

  ghost predicate ParentsFirst<V>(pairs: seq<(V, V)>, order: seq<V>) {
    forall j :: 0 <= j < |order| ==> ParentsIn(pairs, order[j], Elements(order[..j]))
  }

  ghost predicate ParentsIn<V>(pairs: seq<(V, V)>, x: V, done: set<V>) {
    forall p :: p in pairs && p.1 == x ==> p.0 in done
  }

  // ----- Counting -----

  lemma {:induction false} CountZero<V>(pairs: seq<(V, V)>, x: V, done: set<V>)
    ensures CountInto(pairs, x, done) == 0 <==> ParentsIn(pairs, x, done)
  {
    if pairs != [] {
      var init, last := pairs[..|pairs| - 1], pairs[|pairs| - 1];
      assert pairs == init + [last];
      CountZero(init, x, done);
    }
  }

  /** Taking out one more parent removes exactly its entries in the list of its children. */
  lemma {:induction false} CountSplit<V>(pairs: seq<(V, V)>, x: V, done: set<V>, p: V)
    requires p !in done
    ensures CountInto(pairs, x, done) == CountInto(pairs, x, done + {p}) + multiset(ChildrenOf(pairs, p))[x]
  {
    if pairs != [] {
      CountSplit(pairs[..|pairs| - 1], x, done, p);
    }
  }

  lemma {:induction false} ChildIsPair<V>(pairs: seq<(V, V)>, p: V, c: V)
    ensures c in ChildrenOf(pairs, p) <==> (p, c) in pairs
  {
    if pairs != [] {
      var init, last := pairs[..|pairs| - 1], pairs[|pairs| - 1];
      assert pairs == init + [last];
      ChildIsPair(init, p, c);
    }
  }

  // ----- Cycles -----

  ghost predicate HasParentIn<V>(e: Edges<V>, s: set<V>, x: V) {
    exists p :: p in s && (p, x) in e
  }

  /** A finite non-empty set in which every node has a parent holds a cycle. */
  lemma {:induction false} EndlessParents<V(!new)>(e: Edges<V>, s: set<V>, path: seq<V>)
    requires forall x {:trigger HasParentIn(e, s, x)} :: x in s ==> HasParentIn(e, s, x)
    requires IsPath(e, path) && forall x :: x in path ==> x in s
    ensures Cyclic(e)
    decreases |s| - |path|
  {
    DistinctBound(path, s);
    assert path[0] in path && HasParentIn(e, s, path[0]);
    var p :| p in s && (p, path[0]) in e;
    if i :| 0 <= i < |path| && path[i] == p {
      SubWalk(e, path, 0, i + 1);
      assert IsCycle(e, path[..i + 1]);
    } else {
      ConcatWalks(e, [p], path);
      assert forall x :: x in [p] + path ==> x in s;
      DistinctBound([p] + path, s);
      EndlessParents(e, s, [p] + path);
    }
  }

  lemma {:induction false} Climb<V>(pairs: seq<(V, V)>, order: seq<V>, c: seq<V>, i: nat)
    requires ParentsFirst(pairs, order) && IsWalk(EdgeSet(pairs), c) && i < |c|
    requires forall x :: x in c ==> x in order
    ensures IndexOf(order, c[0]) + i <= IndexOf(order, c[i])
  {
    if i > 0 {
      Climb(pairs, order, c, i - 1);
      ParentEarlier(pairs, order, c[i - 1], c[i]);
    }
  }

  lemma ParentEarlier<V>(pairs: seq<(V, V)>, order: seq<V>, a: V, b: V)
    requires ParentsFirst(pairs, order) && (a, b) in pairs && a in order && b in order
    ensures IndexOf(order, a) < IndexOf(order, b)
  {
    var j := IndexOf(order, b);
    assert ParentsIn(pairs, order[j], Elements(order[..j]));
    assert (a, b).0 in Elements(order[..j]);
  }

  /** A topological order leaves no room for a cycle. */
  lemma OrderedIsAcyclic<V(!new)>(pairs: seq<(V, V)>, nodes: set<V>, order: seq<V>)
    requires Nodes(pairs) <= nodes && TopologicalOrder(pairs, nodes, order)
    ensures !Cyclic(EdgeSet(pairs))
  {
    forall c | IsCycle(EdgeSet(pairs), c)
      ensures false
    {
      var n, first, last := |c| - 1, c[0], c[|c| - 1];
      assert (last, first) in pairs;
      forall x | x in c
        ensures x in order
      {
        var i :| 0 <= i < |c| && c[i] == x;
        if i > 0 {
          assert (c[i - 1], c[i]) in pairs;
        }
        assert x in Nodes(pairs);
        assert x in Elements(order);
      }
      ParentEarlier(pairs, order, last, first);
      Climb(pairs, order, c, n);
    }
  }

  lemma ParentLeft<V>(pairs: seq<(V, V)>, x: V, done: set<V>) returns (p: V)
    requires CountInto(pairs, x, done) > 0
    ensures p !in done && (p, x) in pairs && (p, x) in EdgeSet(pairs) && p in Nodes(pairs)
  {
    CountZero(pairs, x, done);
    var q :| q in pairs && q.1 == x && q.0 !in done;
    p := q.0;
    assert q == (p, x);
  }

  lemma RemainingParent<V(!new)>(pairs: seq<(V, V)>, nodes: set<V>, done: set<V>,
                                 numParents: map<V, nat>, children: map<V, seq<V>>, x: V)
    requires Residual(pairs, nodes, done, numParents, children)
    requires x in numParents && numParents[x] > 0
    ensures HasParentIn(EdgeSet(pairs), numParents.Keys, x)
  {
    assert CountInto(pairs, x, done) > 0;
    hide CountInto, EdgeSet, Listed, ChildrenOf;
    var p := ParentLeft(pairs, x, done);
    assert p in nodes - done;
  }

  /** When no remaining node has a zero count, the remaining nodes hold a cycle. */
  lemma StuckIsCyclic<V(!new)>(pairs: seq<(V, V)>, nodes: set<V>, done: set<V>,
                               numParents: map<V, nat>, children: map<V, seq<V>>)
    requires Residual(pairs, nodes, done, numParents, children)
    requires numParents.Keys != {} && forall x :: x in numParents ==> numParents[x] > 0
    ensures Cyclic(EdgeSet(pairs))
  {
    var s := numParents.Keys;
    var x :| x in s;
    assert IsPath(EdgeSet(pairs), [x]);
    hide *;
    forall x | x in s
      ensures HasParentIn(EdgeSet(pairs), s, x)
    {
      RemainingParent(pairs, nodes, done, numParents, children, x);
    }
    EndlessParents(EdgeSet(pairs), s, [x]);
  }

  // ----- The loops that both sorts share -----

  /** The elements with a zero count, in any order. */
  method ZeroKeys<V(==)>(numParents: map<V, nat>) returns (zeros: seq<V>)
    ensures Distinct(zeros)
    ensures forall x :: x in zeros <==> x in numParents && numParents[x] == 0
  {
    zeros := [];
    var keys := numParents.Keys;
    while keys != {}
      invariant keys <= numParents.Keys && Distinct(zeros)
      invariant forall x :: x in zeros <==> x in numParents && x !in keys && numParents[x] == 0
    {
      var x :| x in keys;
      keys := keys - {x};
      if numParents[x] == 0 {
        zeros := zeros + [x];
      }
    }
  }

  /** Build the two tables from the pair list. */
  method BuildTables<V(==,!new)>(pairs: seq<(V, V)>) returns (numParents: map<V, nat>, children: map<V, seq<V>>)
    ensures Residual(pairs, Nodes(pairs), {}, numParents, children)
  {
    hide CountInto, ChildrenOf, Nodes;
    numParents, children := map[], map[];
    NoPairs<V>();
    assert pairs[..0] == [];
    for i := 0 to |pairs|
      invariant Residual(pairs[..i], Nodes(pairs[..i]), {}, numParents, children)
    {
      var (parent, child) := pairs[i];
      ghost var numParents0, children0 := numParents, children;
      if parent !in numParents {
        numParents := numParents[parent := 0];
      }
      if child !in numParents {
        numParents := numParents[child := 0];
      }
      numParents := numParents[child := numParents[child] + 1];
      children := children[parent := Listed(children, parent) + [child]];
      assert pairs[..i + 1] == pairs[..i] + [(parent, child)];
      AddPair(pairs[..i], parent, child, numParents0, children0, numParents, children);
    }
    assert pairs[..|pairs|] == pairs;
  }

  lemma NoPairs<V(!new)>()
    ensures Residual<V>([], Nodes([]), {}, map[], map[])
  {
  }

  lemma AddPair<V(!new)>(before: seq<(V, V)>, parent: V, child: V, numParents: map<V, nat>, children: map<V, seq<V>>,
                         numParents': map<V, nat>, children': map<V, seq<V>>)
    requires Residual(before, Nodes(before), {}, numParents, children)
    requires numParents'.Keys == numParents.Keys + {parent, child}
    requires forall x :: x in numParents' ==>
               numParents'[x] == (if x in numParents then numParents[x] else 0) + if x == child then 1 else 0
    requires children' == children[parent := Listed(children, parent) + [child]]
    ensures Residual(before + [(parent, child)], Nodes(before + [(parent, child)]), {}, numParents', children')
  {
    hide CountInto, ChildrenOf, Nodes;
    var after := before + [(parent, child)];
    NodesAppend(before, parent, child);
    forall x | x in numParents'
      ensures numParents'[x] == CountInto(after, x, {})
    {
      CountAppend(before, parent, child, x);
      if x !in numParents {
        Unmentioned(before, x);
      }
    }
    forall p | true
      ensures Listed(children', p) == ChildrenOf(after, p)
    {
      CountAppend(before, parent, child, p);
      assert Listed(children, p) == ChildrenOf(before, p);
    }
  }

  lemma CountAppend<V>(before: seq<(V, V)>, parent: V, child: V, x: V)
    ensures CountInto(before + [(parent, child)], x, {}) == CountInto(before, x, {}) + if x == child then 1 else 0
    ensures ChildrenOf(before + [(parent, child)], x) == ChildrenOf(before, x) + if x == parent then [child] else []
  {
    var after := before + [(parent, child)];
    assert after[..|after| - 1] == before;
  }

  lemma NodesAppend<V>(before: seq<(V, V)>, parent: V, child: V)
    ensures Nodes(before + [(parent, child)]) == Nodes(before) + {parent, child}
  {
    var after := before + [(parent, child)];
    assert forall p :: p in after <==> p in before || p == (parent, child);
    assert (parent, child) in after;
    assert (parent, child).0 in Nodes(after) && (parent, child).1 in Nodes(after);
    forall x | x in Nodes(before)
      ensures x in Nodes(after)
    {
      var p :| p in before && (p.0 == x || p.1 == x);
      assert p in after;
    }
  }

  lemma Unmentioned<V>(pairs: seq<(V, V)>, x: V)
    requires x !in Nodes(pairs)
    ensures CountInto(pairs, x, {}) == 0
  {
    CountZero(pairs, x, {});
    forall p | p in pairs
      ensures p.1 != x
    {
      assert p.1 in Nodes(pairs);
    }
  }

  /** The tables while the children of `parent` are being visited: the entries from i on are still to come. */
  ghost predicate Visiting<V(!new)>(pairs: seq<(V, V)>, nodes: set<V>, done: set<V>, parent: V,
                              numParents: map<V, nat>, i: nat)
  {
    && i <= |ChildrenOf(pairs, parent)|
    && numParents.Keys == nodes - done - {parent}
    && forall x :: x in numParents ==>
      numParents[x] == CountInto(pairs, x, done + {parent}) + multiset(ChildrenOf(pairs, parent)[i..])[x]
  }

  /** A node without a remaining parent can be taken out. */
  ghost predicate Ready<V(!new)>(pairs: seq<(V, V)>, nodes: set<V>, done: set<V>, parent: V,
                           numParents: map<V, nat>, children: map<V, seq<V>>)
  {
    Residual(pairs, nodes, done, numParents, children) && parent in numParents && numParents[parent] == 0
  }

  lemma MakeReady<V(!new)>(pairs: seq<(V, V)>, nodes: set<V>, done: set<V>, parent: V,
                           numParents: map<V, nat>, children: map<V, seq<V>>)
    requires Residual(pairs, nodes, done, numParents, children) && parent in numParents && numParents[parent] == 0
    ensures Ready(pairs, nodes, done, parent, numParents, children)
  {
  }

  lemma StartVisit<V(!new)>(pairs: seq<(V, V)>, nodes: set<V>, done: set<V>, parent: V,
                            numParents: map<V, nat>, children: map<V, seq<V>>)
    requires Ready(pairs, nodes, done, parent, numParents, children)
    ensures Visiting(pairs, nodes, done, parent, numParents - {parent}, 0)
    ensures Listed(children, parent) == ChildrenOf(pairs, parent)
  {
    hide CountInto, ChildrenOf, Nodes;
    var kids := ChildrenOf(pairs, parent);
    assert kids[0..] == kids;
    forall x | x in numParents && x != parent
      ensures numParents[x] == CountInto(pairs, x, done + {parent}) + multiset(kids[0..])[x]
    {
      CountSplit(pairs, x, done, parent);
    }
  }

  /** The next child is still in the table, with a positive count: no KeyError, no negative count. */
  lemma NextChild<V(!new)>(pairs: seq<(V, V)>, nodes: set<V>, done: set<V>, parent: V, numParents0: map<V, nat>,
                           children: map<V, seq<V>>, numParents: map<V, nat>, i: nat)
    requires Ready(pairs, nodes, done, parent, numParents0, children)
    requires Visiting(pairs, nodes, done, parent, numParents, i) && i < |ChildrenOf(pairs, parent)|
    ensures var child := ChildrenOf(pairs, parent)[i];
            && child in numParents && numParents[child] > 0
            && Visiting(pairs, nodes, done, parent, numParents[child := numParents[child] - 1], i + 1)
            && (numParents[child] == 1 ==> CountInto(pairs, child, done + {parent}) == 0)
  {
    hide CountInto, ChildrenOf;
    var kids := ChildrenOf(pairs, parent);
    var child := kids[i];
    ChildIsPair(pairs, parent, child);
    assert (parent, child).1 in Nodes(pairs);
    CountZero(pairs, child, done);
    assert kids[i..] == [child] + kids[i + 1..];
  }

  lemma EndVisit<V(!new)>(pairs: seq<(V, V)>, nodes: set<V>, done: set<V>, parent: V, numParents: map<V, nat>,
                          children: map<V, seq<V>>, numParents': map<V, nat>)
    requires Ready(pairs, nodes, done, parent, numParents, children)
    requires Visiting(pairs, nodes, done, parent, numParents', |ChildrenOf(pairs, parent)|)
    ensures Residual(pairs, nodes, done + {parent}, numParents', children - {parent})
  {
    hide CountInto, ChildrenOf, Nodes;
    var done' := done + {parent};
    assert ChildrenOf(pairs, parent)[|ChildrenOf(pairs, parent)|..] == [];
    forall x | x in done'
      ensures CountInto(pairs, x, done') == 0
    {
      CountZero(pairs, x, done);
      CountZero(pairs, x, done');
    }
    forall p | p !in done'
      ensures Listed(children - {parent}, p) == ChildrenOf(pairs, p)
    {
      assert Listed(children, p) == ChildrenOf(pairs, p);
    }
  }

  /** Once the list is processed, parents come first in it. */
  lemma ExtendOrder<V>(pairs: seq<(V, V)>, order: seq<V>, x: V, done: set<V>)
    requires ParentsFirst(pairs, order) && CountInto(pairs, x, done) == 0
    requires forall y :: y in done ==> y in order
    ensures ParentsFirst(pairs, order + [x])
  {
    CountZero(pairs, x, done);
    var order' := order + [x];
    forall j | 0 <= j < |order'|
      ensures ParentsIn(pairs, order'[j], Elements(order'[..j]))
    {
      if j < |order| {
        assert order'[..j] == order[..j];
        assert ParentsIn(pairs, order[j], Elements(order[..j]));
      } else {
        assert order'[..j] == order;
      }
    }
  }

  // ----- topsort -----

  /** The first k entries of the growing answer are done; the others are exactly the nodes without a
      remaining parent. */
  ghost predicate Queued<V(!new)>(pairs: seq<(V, V)>, done: set<V>, numParents: map<V, nat>, answer: seq<V>, k: nat) {
    && k <= |answer| && Distinct(answer) && done !! numParents.Keys
    && (forall j :: 0 <= j < k ==> answer[j] in done)
    && (forall j :: k <= j < |answer| ==> answer[j] in numParents && numParents[answer[j]] == 0)
    && (forall x :: x in done ==> x in answer)
    && (forall x :: x in numParents && numParents[x] == 0 ==> x in answer)
    && ParentsFirst(pairs, answer)
  }

  lemma FirstQueued<V(!new)>(pairs: seq<(V, V)>, nodes: set<V>, numParents: map<V, nat>, children: map<V, seq<V>>,
                             answer: seq<V>)
    requires Residual(pairs, nodes, {}, numParents, children)
    requires Distinct(answer) && forall x :: x in answer <==> x in numParents && numParents[x] == 0
    ensures Queued(pairs, {}, numParents, answer, 0)
  {
    forall j | 0 <= j < |answer|
      ensures ParentsIn(pairs, answer[j], Elements(answer[..j]))
    {
      CountZero(pairs, answer[j], {});
      assert answer[j] in answer;
    }
  }

  /** Decrementing the count of the next child keeps the queue exact, if it joins when its count becomes zero. */
  lemma Requeue<V(!new)>(pairs: seq<(V, V)>, done: set<V>, numParents: map<V, nat>, answer: seq<V>, k: nat, child: V)
    requires Queued(pairs, done, numParents, answer, k)
    requires child in numParents && numParents[child] > 0
    requires numParents[child] == 1 ==> CountInto(pairs, child, done) == 0
    ensures Queued(pairs, done, numParents[child := numParents[child] - 1],
                   if numParents[child] == 1 then answer + [child] else answer, k)
  {
    if numParents[child] == 1 {
      ExtendOrder(pairs, answer, child, done);
    }
  }

  lemma Dequeue<V(!new)>(pairs: seq<(V, V)>, done: set<V>, numParents: map<V, nat>, answer: seq<V>, k: nat)
    requires Queued(pairs, done, numParents, answer, k) && k < |answer|
    ensures Queued(pairs, done + {answer[k]}, numParents - {answer[k]}, answer, k + 1)
  {
    hide ParentsFirst;
  }

  /** Take the head of the queue out of the tables; children that lose their last parent join the queue. */
  method Release<V(==,!new)>(ghost pairs: seq<(V, V)>, ghost nodes: set<V>, ghost done: set<V>, k: nat,
                             numParents: map<V, nat>, children: map<V, seq<V>>, answer: seq<V>)
    returns (numParents': map<V, nat>, children': map<V, seq<V>>, answer': seq<V>)
    requires Residual(pairs, nodes, done, numParents, children)
    requires Queued(pairs, done, numParents, answer, k) && k < |answer|
    ensures Residual(pairs, nodes, done + {answer[k]}, numParents', children')
    ensures Queued(pairs, done + {answer[k]}, numParents', answer', k + 1)
  {
    var parent := answer[k];
    assert Ready(pairs, nodes, done, parent, numParents, children);
    Dequeue(pairs, done, numParents, answer, k);
    hide *;
    StartVisit(pairs, nodes, done, parent, numParents, children);
    numParents', answer' := numParents - {parent}, answer;
    var kids := Listed(children, parent);
    for i := 0 to |kids|
      invariant Visiting(pairs, nodes, done, parent, numParents', i)
      invariant Queued(pairs, done + {parent}, numParents', answer', k + 1)
    {
      var child := kids[i];
      NextChild(pairs, nodes, done, parent, numParents, children, numParents', i);
      Requeue(pairs, done + {parent}, numParents', answer', k + 1, child);
      numParents' := numParents'[child := numParents'[child] - 1];
      if numParents'[child] == 0 {
        answer' := answer' + [child];
      }
    }
    children' := children - {parent};
    EndVisit(pairs, nodes, done, parent, numParents, children, numParents');
  }

  /** On success the answer is a topological order; it fails exactly when there is a cycle, with the tables
      of what remains. */
  method Topsort<V(==,!new)>(pairs: seq<(V, V)>) returns (answer: seq<V>, outcome: Outcome<V>)
    ensures outcome.Sorted? <==> !Cyclic(EdgeSet(pairs))
    ensures outcome.Sorted? ==> TopologicalOrder(pairs, Nodes(pairs), answer)
    ensures outcome.CycleError? ==>
              && Distinct(answer) && ParentsFirst(pairs, answer) && outcome.numParents != map[]
              && Residual(pairs, Nodes(pairs), Elements(answer), outcome.numParents, outcome.children)
              && forall x :: x in outcome.numParents ==> outcome.numParents[x] > 0
  {
    var numParents, children := BuildTables(pairs);
    ghost var nodes, done := Nodes(pairs), {};
    answer := ZeroKeys(numParents);
    FirstQueued(pairs, nodes, numParents, children, answer);
    var k := 0;
    while k < |answer|
      invariant Queued(pairs, done, numParents, answer, k)
      invariant Residual(pairs, nodes, done, numParents, children)
      decreases nodes - done
    {
      ghost var parent := answer[k];
      assert parent in numParents;
      numParents, children, answer := Release(pairs, nodes, done, k, numParents, children, answer);
      done := done + {parent};
      k := k + 1;
    }
    assert Elements(answer) == done;
    if numParents != map[] {
      StuckIsCyclic(pairs, nodes, done, numParents, children);
      outcome := CycleError(numParents, children);
    } else {
      assert numParents.Keys == {};
      OrderedIsAcyclic(pairs, nodes, answer);
      outcome := Sorted;
    }
  }

  // ----- topsort_levels -----

  /** A chain of k predecessors leads to x. */
  ghost predicate HasChain<V(!new)>(e: Edges<V>, x: V, k: nat) {
    k == 0 || exists p :: (p, x) in e && HasChain(e, p, k - 1)
  }

  lemma {:induction false} ShorterChain<V(!new)>(e: Edges<V>, x: V, k: nat)
    requires HasChain(e, x, k + 1)
    ensures HasChain(e, x, k)
  {
    if k > 0 {
      var p :| (p, x) in e && HasChain(e, p, k);
      ShorterChain(e, p, k - 1);
    }
  }

  /** The nodes whose longest chain of predecessors has length k. */
  ghost function Level<V(!new)>(e: Edges<V>, nodes: set<V>, k: nat): set<V> {
    set x | x in nodes && HasChain(e, x, k) && !HasChain(e, x, k + 1)
  }

  ghost function Concat<V>(levels: seq<seq<V>>): seq<V> {
    if levels == [] then [] else Concat(levels[..|levels| - 1]) + levels[|levels| - 1]
  }

  /** The nodes taken out before round k are those without a chain of length k. */
  ghost predicate Shallow<V(!new)>(e: Edges<V>, nodes: set<V>, done: set<V>, k: nat) {
    forall x :: x in nodes ==> (x in done <==> !HasChain(e, x, k))
  }

  /** In round k the nodes with a zero count are exactly those of level k. */
  lemma ZeroIsLevel<V(!new)>(pairs: seq<(V, V)>, nodes: set<V>, done: set<V>, k: nat, x: V)
    requires Nodes(pairs) <= nodes && Shallow(EdgeSet(pairs), nodes, done, k) && x in nodes - done
    ensures CountInto(pairs, x, done) == 0 <==> !HasChain(EdgeSet(pairs), x, k + 1)
  {
    var e := EdgeSet(pairs);
    if CountInto(pairs, x, done) == 0 {
      CountZero(pairs, x, done);
      forall p | (p, x) in e
        ensures !HasChain(e, p, k)
      {
        assert (p, x) in pairs && (p, x).0 in Nodes(pairs);
      }
    } else {
      var p := ParentLeft(pairs, x, done);
      assert HasChain(e, p, k);
    }
  }

  /** Take a whole level out of the tables. */
  method ReleaseLevel<V(==,!new)>(ghost pairs: seq<(V, V)>, ghost nodes: set<V>, ghost done: set<V>, level: seq<V>,
                                  numParents: map<V, nat>, children: map<V, seq<V>>)
    returns (numParents': map<V, nat>, children': map<V, seq<V>>)
    requires Residual(pairs, nodes, done, numParents, children) && Distinct(level)
    requires forall x :: x in level ==> x in numParents && numParents[x] == 0
    ensures Residual(pairs, nodes, done + Elements(level), numParents', children')
  {
    hide CountInto, ChildrenOf, Residual;
    numParents', children' := numParents, children;
    ghost var gone := {};
    assert done + gone == done;
    for n := 0 to |level|
      invariant forall x :: x in gone <==> exists j :: 0 <= j < n && level[j] == x
      invariant Residual(pairs, nodes, done + gone, numParents', children')
      invariant ZeroFrom(numParents', level, n)
    {
      var parent := level[n];
      numParents', children' := ReleaseOne(pairs, nodes, done + gone, level, n, numParents', children');
      assert done + (gone + {parent}) == done + gone + {parent};
      gone := gone + {parent};
    }
    assert gone == Elements(level);
  }

  /** The nodes of the level from position n on still have zero counts. */
  ghost predicate ZeroFrom<V>(numParents: map<V, nat>, level: seq<V>, n: nat) {
    forall j :: n <= j < |level| ==> level[j] in numParents && numParents[level[j]] == 0
  }

  lemma ZeroAfter<V>(numParents: map<V, nat>, level: seq<V>, n: nat)
    requires ZeroFrom(numParents, level, n) && n < |level| && Distinct(level)
    ensures level[n] in numParents && numParents[level[n]] == 0
    ensures ZeroFrom(numParents - {level[n]}, level, n + 1)
  {
    forall j | n < j < |level|
      ensures level[j] != level[n]
    {
    }
  }

  lemma ZeroKept<V>(numParents: map<V, nat>, level: seq<V>, n: nat, child: V)
    requires ZeroFrom(numParents, level, n) && child in numParents && numParents[child] > 0
    ensures ZeroFrom(numParents[child := numParents[child] - 1], level, n)
  {
  }

  /** Take the n-th node of a level out of the tables; the rest of the level keeps its zero counts. */
  method ReleaseOne<V(==,!new)>(ghost pairs: seq<(V, V)>, ghost nodes: set<V>, ghost done: set<V>, level: seq<V>,
                                n: nat, numParents: map<V, nat>, children: map<V, seq<V>>)
    returns (numParents': map<V, nat>, children': map<V, seq<V>>)
    requires Residual(pairs, nodes, done, numParents, children) && Distinct(level) && n < |level|
    requires ZeroFrom(numParents, level, n)
    ensures Residual(pairs, nodes, done + {level[n]}, numParents', children')
    ensures ZeroFrom(numParents', level, n + 1)
  {
    hide *;
    var parent := level[n];
    ZeroAfter(numParents, level, n);
    MakeReady(pairs, nodes, done, parent, numParents, children);
    StartVisit(pairs, nodes, done, parent, numParents, children);
    numParents' := numParents - {parent};
    var kids := Listed(children, parent);
    for i := 0 to |kids|
      invariant Visiting(pairs, nodes, done, parent, numParents', i) && ZeroFrom(numParents', level, n + 1)
    {
      var child := kids[i];
      NextChild(pairs, nodes, done, parent, numParents, children, numParents', i);
      ZeroKept(numParents', level, n + 1, child);
      numParents' := numParents'[child := numParents'[child] - 1];
    }
    children' := children - {parent};
    EndVisit(pairs, nodes, done, parent, numParents, children, numParents');
  }

  lemma AppendLevel<V>(pairs: seq<(V, V)>, order: seq<V>, level: seq<V>, done: set<V>)
    requires Distinct(order) && ParentsFirst(pairs, order) && Elements(order) == done
    requires Distinct(level) && forall x :: x in level ==> x !in done && CountInto(pairs, x, done) == 0
    ensures Distinct(order + level) && ParentsFirst(pairs, order + level)
    ensures Elements(order + level) == done + Elements(level)
  {
    if level == [] {
      assert order + level == order;
    } else {
      var init, last := level[..|level| - 1], level[|level| - 1];
      AppendLevel(pairs, order, init, done);
      assert order + level == order + init + [last];
      ExtendOrder(pairs, order + init, last, done);
    }
  }

  /** The rounds so far have generated the levels below |levels|, in topological order. */
  ghost predicate LevelsDone<V(!new)>(pairs: seq<(V, V)>, nodes: set<V>, done: set<V>, levels: seq<seq<V>>) {
    && Shallow(EdgeSet(pairs), nodes, done, |levels|)
    && (forall k :: 0 <= k < |levels| ==>
      levels[k] != [] && Distinct(levels[k]) && Elements(levels[k]) == Level(EdgeSet(pairs), nodes, k))
    && Distinct(Concat(levels)) && ParentsFirst(pairs, Concat(levels)) && Elements(Concat(levels)) == done
  }

  lemma AddLevel<V(!new)>(pairs: seq<(V, V)>, nodes: set<V>, done: set<V>, numParents: map<V, nat>,
                          children: map<V, seq<V>>, levels: seq<seq<V>>, level: seq<V>)
    requires Residual(pairs, nodes, done, numParents, children) && LevelsDone(pairs, nodes, done, levels)
    requires level != [] && Distinct(level)
    requires forall x :: x in level <==> x in numParents && numParents[x] == 0
    ensures LevelsDone(pairs, nodes, done + Elements(level), levels + [level])
  {
    var e, k := EdgeSet(pairs), |levels|;
    forall x | x in nodes
      ensures x in level <==> x in Level(e, nodes, k)
      ensures HasChain(e, x, k + 1) ==> HasChain(e, x, k)
    {
      if x !in done {
        ZeroIsLevel(pairs, nodes, done, k, x);
      }
      if HasChain(e, x, k + 1) {
        ShorterChain(e, x, k);
      }
    }
    assert Elements(level) == Level(e, nodes, k);
    AppendLevel(pairs, Concat(levels), level, done);
    var levels' := levels + [level];
    assert levels'[..k] == levels && Concat(levels') == Concat(levels) + level;
  }

  /** When no node has a zero count, what is left decides whether there is a cycle. */
  lemma LevelsEnd<V(!new)>(pairs: seq<(V, V)>, nodes: set<V>, done: set<V>, numParents: map<V, nat>,
                           children: map<V, seq<V>>, levels: seq<seq<V>>)
    requires Residual(pairs, nodes, done, numParents, children) && LevelsDone(pairs, nodes, done, levels)
    requires forall x :: x in numParents ==> numParents[x] > 0
    ensures numParents != map[] <==> Cyclic(EdgeSet(pairs))
    ensures numParents == map[] ==> TopologicalOrder(pairs, nodes, Concat(levels))
    ensures numParents.Keys == set x | x in nodes && HasChain(EdgeSet(pairs), x, |levels|)
  {
    if numParents != map[] {
      assert numParents.Keys != {};
      StuckIsCyclic(pairs, nodes, done, numParents, children);
    } else {
      assert numParents.Keys == {};
      OrderedIsAcyclic(pairs, nodes, Concat(levels));
    }
  }

  /** The generator's run over tables for `pairs` (any order, possibly with isolated nodes). */
  method TopsortLevelsCore<V(==,!new)>(ghost pairs: seq<(V, V)>, numParents0: map<V, nat>, children0: map<V, seq<V>>)
    returns (levels: seq<seq<V>>, outcome: Outcome<V>)
    requires Residual(pairs, numParents0.Keys, {}, numParents0, children0)
    ensures forall k :: 0 <= k < |levels| ==> levels[k] != [] && Distinct(levels[k])
    ensures forall k :: 0 <= k < |levels| ==> Elements(levels[k]) == Level(EdgeSet(pairs), numParents0.Keys, k)
    ensures outcome.Sorted? <==> !Cyclic(EdgeSet(pairs))
    ensures outcome.Sorted? ==> TopologicalOrder(pairs, numParents0.Keys, Concat(levels))
    ensures outcome.CycleError? ==>
              && outcome.numParents.Keys == (set x | x in numParents0.Keys && HasChain(EdgeSet(pairs), x, |levels|))
              && outcome.numParents != map[] && (forall x :: x in outcome.numParents ==> outcome.numParents[x] > 0)
              && Residual(pairs, numParents0.Keys, Elements(Concat(levels)), outcome.numParents, outcome.children)
  {
    var numParents, children := numParents0, children0;
    ghost var nodes, done := numParents0.Keys, {};
    ghost var e := EdgeSet(pairs);
    levels := [];
    while true
      invariant Residual(pairs, nodes, done, numParents, children)
      invariant LevelsDone(pairs, nodes, done, levels)
      decreases nodes - done
    {
      var level := ZeroKeys(numParents);
      if level == [] {
        break;
      }
      assert level[0] in level;
      AddLevel(pairs, nodes, done, numParents, children, levels, level);
      levels := levels + [level];
      numParents, children := ReleaseLevel(pairs, nodes, done, level, numParents, children);
      done := done + Elements(level);
    }
    LevelsEnd(pairs, nodes, done, numParents, children, levels);
    outcome := if numParents != map[] then CycleError(numParents, children) else Sorted;
  }

  /** `topsort_levels`: the same, from the pair list. */
  method TopsortLevels<V(==,!new)>(pairs: seq<(V, V)>) returns (levels: seq<seq<V>>, outcome: Outcome<V>)
    ensures forall k :: 0 <= k < |levels| ==> levels[k] != [] && Distinct(levels[k])
    ensures forall k :: 0 <= k < |levels| ==> Elements(levels[k]) == Level(EdgeSet(pairs), Nodes(pairs), k)
    ensures outcome.Sorted? <==> !Cyclic(EdgeSet(pairs))
    ensures outcome.Sorted? ==> TopologicalOrder(pairs, Nodes(pairs), Concat(levels))
    ensures outcome.CycleError? ==>
              && outcome.numParents.Keys == (set x | x in Nodes(pairs) && HasChain(EdgeSet(pairs), x, |levels|))
              && outcome.numParents != map[] && (forall x :: x in outcome.numParents ==> outcome.numParents[x] > 0)
              && Residual(pairs, Nodes(pairs), Elements(Concat(levels)), outcome.numParents, outcome.children)
  {
    var numParents, children := BuildTables(pairs);
    assert numParents.Keys == Nodes(pairs);
    levels, outcome := TopsortLevelsCore(pairs, numParents, children);
  }
}
