/** Walks, simple paths and cycles of a finite directed graph given as its set of edges. */
module Digraphs {

  type Edges<V(==)> = set<(V, V)>

  ghost predicate Distinct<V>(s: seq<V>) {
    forall i, j :: 0 <= i < j < |s| ==> s[i] != s[j]
  }

  ghost function Elements<V>(s: seq<V>): set<V> {
    set x | x in s
  }

  /** Where x first occurs in a sequence that contains it. */
  function IndexOf<V(==)>(p: seq<V>, x: V): (i: nat)
    requires x in p
    ensures i < |p| && p[i] == x && x !in p[..i]
  {
    if p[0] == x then 0
    else
      assert p == [p[0]] + p[1..];
      1 + IndexOf(p[1..], x)
  }

  ghost predicate IsWalk<V>(e: Edges<V>, w: seq<V>) {
    && |w| > 0
    && forall i :: 1 <= i < |w| ==> (w[i - 1], w[i]) in e
  }

  /** A path visits no node twice. */
  ghost predicate IsPath<V>(e: Edges<V>, p: seq<V>) {
    IsWalk(e, p) && Distinct(p)
  }

  /** The last node of a cycle is a parent of its first; a self-loop is a cycle of one node. */
  ghost predicate IsCycle<V>(e: Edges<V>, c: seq<V>) {
    IsPath(e, c) && (c[|c| - 1], c[0]) in e
  }

  ghost predicate Cyclic<V(!new)>(e: Edges<V>) {
    exists c :: IsCycle(e, c)
  }

  function Rotate<V>(a: seq<V>, k: nat): seq<V>
    requires k <= |a|
  {
    a[k..] + a[..k]
  }

  ghost predicate IsRotation<V>(a: seq<V>, b: seq<V>) {
    exists k: nat :: k <= |a| && b == Rotate(a, k)
  }

  lemma DistinctBound<V>(p: seq<V>, u: set<V>)
    requires Distinct(p) && forall x :: x in p ==> x in u
    ensures |p| <= |u|
  {
    if p != [] {
      DistinctBound(p[1..], u - {p[0]});
    }
  }

  lemma RotationTransitive<V>(a: seq<V>, b: seq<V>, c: seq<V>)
    requires IsRotation(a, b) && IsRotation(b, c)
    ensures IsRotation(a, c)
  {
    var k: nat :| k <= |a| && b == Rotate(a, k);
    var l: nat :| l <= |b| && c == Rotate(b, l);
    RotateTwice(a, k, l);
  }

  lemma RotateTwice<V>(a: seq<V>, k: nat, l: nat)
    requires k <= |a| && l <= |a|
    ensures var m := if k + l <= |a| then k + l else k + l - |a|;
            Rotate(Rotate(a, k), l) == Rotate(a, m)
  {
    var b := Rotate(a, k);
    if k + l <= |a| {
      assert b[l..] == a[k + l..] + a[..k] && b[..l] == a[k..k + l];
      assert a[..k + l] == a[..k] + a[k..k + l];
    } else {
      var m := k + l - |a|;
      assert b[l..] == a[m..k] && b[..l] == a[k..] + a[..m];
      assert a[m..] == a[m..k] + a[k..];
    }
  }

  lemma RotationSymmetric<V>(a: seq<V>, b: seq<V>)
    requires IsRotation(a, b)
    ensures IsRotation(b, a)
  {
    var k: nat :| k <= |a| && b == Rotate(a, k);
    assert a == Rotate(b, |a| - k);
  }

  /** Any rotation of a cycle is a cycle. */
  lemma RotateCycle<V>(e: Edges<V>, c: seq<V>, k: nat)
    requires IsCycle(e, c) && k < |c|
    ensures IsCycle(e, Rotate(c, k))
  {
    var r := Rotate(c, k);
    forall i | 1 <= i < |r|
      ensures (r[i - 1], r[i]) in e
    {
      if i + k < |c| {
        assert r[i - 1] == c[k + i - 1] && r[i] == c[k + i];
      } else if i + k == |c| {
        assert r[i - 1] == c[|c| - 1] && r[i] == c[0];
      } else {
        assert r[i - 1] == c[i + k - |c| - 1] && r[i] == c[i + k - |c|];
      }
    }
    if k > 0 {
      assert r[|r| - 1] == c[k - 1];
    }
  }

  lemma SubWalk<V>(e: Edges<V>, w: seq<V>, lo: nat, hi: nat)
    requires IsWalk(e, w) && lo < hi <= |w|
    ensures IsWalk(e, w[lo..hi])
  {
    var s := w[lo..hi];
    forall i | 1 <= i < |s|
      ensures (s[i - 1], s[i]) in e
    {
      assert s[i] == w[lo + i];
    }
  }

  /** Two walks whose ends are joined by an edge concatenate. */
  lemma ConcatWalks<V>(e: Edges<V>, a: seq<V>, b: seq<V>)
    requires IsWalk(e, a) && IsWalk(e, b) && (a[|a| - 1], b[0]) in e
    ensures IsWalk(e, a + b)
  {
    var w := a + b;
    forall i | 1 <= i < |w|
      ensures (w[i - 1], w[i]) in e
    {
      if i < |a| {
        assert w[i] == a[i];
      } else {
        assert w[i] == b[i - |a|];
      }
    }
  }

  /** Two walks that share an endpoint join into one. */
  lemma JoinWalks<V>(e: Edges<V>, a: seq<V>, b: seq<V>)
    requires IsWalk(e, a) && IsWalk(e, b) && a[|a| - 1] == b[0]
    ensures IsWalk(e, a + b[1..])
  {
    if |b| == 1 {
      assert a + b[1..] == a;
    } else {
      SubWalk(e, b, 1, |b|);
      assert (b[0], b[1]) in e;
      ConcatWalks(e, a, b[1..]);
    }
  }

  /** A walk that reaches a set can be cut down to a path whose only node in the set is its last. */
  lemma {:induction false} FirstEntry<V>(e: Edges<V>, w: seq<V>, target: set<V>) returns (p: seq<V>)
    requires IsWalk(e, w) && w[|w| - 1] in target
    ensures IsPath(e, p) && p[0] == w[0] && p[|p| - 1] in target
    ensures forall i :: 0 <= i < |p| - 1 ==> p[i] !in target
    decreases |w|
  {
    if i :| 0 <= i < |w| - 1 && w[i] in target {
      SubWalk(e, w, 0, i + 1);
      p := FirstEntry(e, w[..i + 1], target);
    } else if i, j :| 0 <= i < j < |w| && w[i] == w[j] {
      SubWalk(e, w, 0, i + 1);
      SubWalk(e, w, j, |w|);
      JoinWalks(e, w[..i + 1], w[j..]);
      var v := w[..i + 1] + w[j..][1..];
      assert v[|v| - 1] == w[|w| - 1];
      p := FirstEntry(e, v, target);
    } else {
      p := w;
    }
  }
}
