/** `permutations` of rad_util.py. */
module Permutations {
  import opened Digraphs

  function InsertAt<T>(s: seq<T>, i: nat, x: T): seq<T>
    requires i <= |s|
  {
    s[..i] + [x] + s[i..]
  }

  /** x inserted into s at the positions 0, ..., n - 1. */
  function Insertions<T>(s: seq<T>, x: T, n: nat): (r: seq<seq<T>>)
    requires n <= |s| + 1
    ensures |r| == n && forall i :: 0 <= i < n ==> r[i] == InsertAt(s, i, x)
  {
    if n == 0 then [] else Insertions(s, x, n - 1) + [InsertAt(s, n - 1, x)]
  }

  lemma NoInsertions<T>(s: seq<T>, x: T)
    ensures Insertions(s, x, 0) == []
  {
  }

  lemma NextInsertion<T>(s: seq<T>, x: T, i: nat)
    requires i <= |s|
    ensures Insertions(s, x, i + 1) == Insertions(s, x, i) + [InsertAt(s, i, x)]
  {
  }

  lemma ExpandStep<T>(subs: seq<seq<T>>, x: T, a: nat)
    requires a < |subs|
    ensures Expand(subs[..a + 1], x) == Expand(subs[..a], x) + Insertions(subs[a], x, |subs[a]| + 1)
  {
    assert subs[..a + 1][..a] == subs[..a];
  }

  /** x inserted into every list at every position. */
  function Expand<T>(subs: seq<seq<T>>, x: T): seq<seq<T>> {
    if subs == [] then []
    else
      var last := subs[|subs| - 1];
      Expand(subs[..|subs| - 1], x) + Insertions(last, x, |last| + 1)
  }

  function Perms<T>(s: seq<T>): seq<seq<T>> {
    if |s| <= 1 then [s] else Expand(Perms(s[1..]), s[0])
  }

  /** The inner loop: the item inserted at the first n positions. */
  method InsertEverywhere<T>(sub: seq<T>, item: T, n: nat) returns (lists: seq<seq<T>>)
    requires n <= |sub| + 1
    ensures lists == Insertions(sub, item, n)
  {
    hide Insertions, InsertAt;
    lists := [];
    NoInsertions(sub, item);
    for i := 0 to n
      invariant lists == Insertions(sub, item, i)
    {
      NextInsertion(sub, item, i);
      lists := lists + [InsertAt(sub, i, item)];
    }
  }

  method AllPermutations<T>(input: seq<T>) returns (out: seq<seq<T>>)
    ensures out == Perms(input)
    decreases |input|
  {
    hide Insertions, InsertAt;
    if |input| > 1 {
      out := [];
      var item := input[0];
      var subs := AllPermutations(input[1..]);
      PermLengths(input[1..]);
      for a := 0 to |subs|
        invariant out == Expand(subs[..a], item)
      {
        ExpandStep(subs, item, a);
        assert subs[a] in subs;
        var lists := InsertEverywhere(subs[a], item, |input|);
        out := out + lists;
      }
      assert subs[..|subs|] == subs;
    } else {
      out := [input];
    }
  }

  // ----- Every result is a permutation, and every permutation occurs -----

  lemma {:induction false} InExpand<T>(subs: seq<seq<T>>, x: T, p: seq<T>)
    ensures p in Expand(subs, x) <==> exists s, i :: s in subs && 0 <= i <= |s| && p == InsertAt(s, i, x)
  {
    if subs != [] {
      var init, last := subs[..|subs| - 1], subs[|subs| - 1];
      assert subs == init + [last];
      InExpand(init, x, p);
      if p in Insertions(last, x, |last| + 1) {
        assert last in subs;
      }
    }
  }

  lemma InsertContents<T>(s: seq<T>, i: nat, x: T)
    requires i <= |s|
    ensures multiset(InsertAt(s, i, x)) == multiset(s) + multiset{x}
  {
    assert s == s[..i] + s[i..];
  }

  lemma {:induction false} PermLengths<T>(s: seq<T>)
    ensures forall p :: p in Perms(s) ==> |p| == |s|
  {
    if |s| > 1 {
      PermLengths(s[1..]);
      forall p | p in Perms(s)
        ensures |p| == |s|
      {
        InExpand(Perms(s[1..]), s[0], p);
      }
    }
  }

  /** Take the first item of s out of a rearrangement of s. */
  lemma TakeOut<T>(s: seq<T>, p: seq<T>) returns (i: nat, q: seq<T>)
    requires s != [] && multiset(p) == multiset(s)
    ensures i <= |q| && p == InsertAt(q, i, s[0]) && multiset(q) == multiset(s[1..])
  {
    var x := s[0];
    assert s == [x] + s[1..];
    assert x in multiset(p);
    i :| i < |p| && p[i] == x;
    q := p[..i] + p[i + 1..];
    assert p == InsertAt(q, i, x);
    InsertContents(q, i, x);
    assert multiset(s) == multiset{x} + multiset(s[1..]);
    assert multiset(q) == multiset(p) - multiset{x};
  }

  /** The results are exactly the rearrangements of the input. */
  lemma {:induction false} PermsAreRearrangements<T>(s: seq<T>, p: seq<T>)
    ensures p in Perms(s) <==> multiset(p) == multiset(s)
  {
    hide InsertAt, Expand;
    if |s| <= 1 {
      SmallRearrangement(s, p);
    } else {
      var rest, x := s[1..], s[0];
      InExpand(Perms(rest), x, p);
      if p in Perms(s) {
        var q, i :| q in Perms(rest) && 0 <= i <= |q| && p == InsertAt(q, i, x);
        PermsAreRearrangements(rest, q);
        InsertContents(q, i, x);
        assert s == [x] + rest;
      }
      if multiset(p) == multiset(s) {
        var i, q := TakeOut(s, p);
        PermsAreRearrangements(rest, q);
        assert q in Perms(rest) && p == InsertAt(q, i, x);
      }
    }
  }

  lemma SmallRearrangement<T>(s: seq<T>, p: seq<T>)
    requires |s| <= 1
    ensures p == s <==> multiset(p) == multiset(s)
  {
    if multiset(p) == multiset(s) {
      assert |p| == |multiset(p)| == |multiset(s)| == |s|;
      if |s| == 1 {
        assert p[0] in multiset(p);
        assert s == [s[0]] && p == [p[0]];
      }
    }
  }

  // ----- How many, and all different -----

  function Factorial(n: nat): nat {
    if n == 0 then 1 else n * Factorial(n - 1)
  }

  lemma OneMore(m: nat, k: nat)
    ensures m * (k + 1) == m * k + m
  {
  }

  lemma {:induction false} ExpandCount<T>(subs: seq<seq<T>>, x: T, n: nat)
    requires forall s :: s in subs ==> |s| == n
    ensures |Expand(subs, x)| == (n + 1) * |subs|
  {
    if subs != [] {
      var k := |subs| - 1;
      assert subs[k] in subs;
      ExpandCount(subs[..k], x, n);
      OneMore(n + 1, k);
    }
  }

  /** A list of n items has n! permutations. */
  lemma {:induction false} PermCount<T>(s: seq<T>)
    ensures |Perms(s)| == Factorial(|s|)
  {
    if |s| > 1 {
      PermCount(s[1..]);
      PermLengths(s[1..]);
      ExpandCount(Perms(s[1..]), s[0], |s| - 1);
    } else if |s| == 1 {
      assert Factorial(1) == 1 * Factorial(0);
    }
  }

  /** From a list with x inserted, both the list and the place can be told. */
  lemma InsertInjective<T>(s: seq<T>, i: nat, t: seq<T>, j: nat, x: T)
    requires i <= |s| && j <= |t| && x !in s && x !in t && InsertAt(s, i, x) == InsertAt(t, j, x)
    ensures s == t && i == j
  {
    var p := InsertAt(s, i, x);
    assert p[i] == x && p[j] == x;
    assert forall k :: 0 <= k < |p| && k != i ==> p[k] == if k < i then s[k] else s[k - 1];
    assert i == j;
    assert s == p[..i] + p[i + 1..] && t == p[..i] + p[i + 1..];
  }

  lemma {:induction false} ExpandDistinct<T>(subs: seq<seq<T>>, x: T)
    requires Distinct(subs) && forall s :: s in subs ==> x !in s
    ensures Distinct(Expand(subs, x))
  {
    if subs != [] {
      var init, last := subs[..|subs| - 1], subs[|subs| - 1];
      assert subs == init + [last];
      ExpandDistinct(init, x);
      var a, b := Expand(init, x), Insertions(last, x, |last| + 1);
      forall i, j | 0 <= i < j < |b|
        ensures b[i] != b[j]
      {
        if b[i] == b[j] {
          InsertInjective(last, i, last, j, x);
        }
      }
      forall i, j | 0 <= i < |a| && 0 <= j < |b|
        ensures a[i] != b[j]
      {
        if a[i] == b[j] {
          InExpand(init, x, a[i]);
          var s, k :| s in init && 0 <= k <= |s| && a[i] == InsertAt(s, k, x);
          InsertInjective(s, k, last, j, x);
        }
      }
    }
  }

  /** Permutations of distinct items are pairwise different. */
  lemma {:induction false} PermsDistinct<T>(s: seq<T>)
    requires Distinct(s)
    ensures Distinct(Perms(s))
  {
    if |s| > 1 {
      var rest, x := s[1..], s[0];
      assert forall i, j :: 0 <= i < j < |rest| ==> rest[i] == s[i + 1] && rest[j] == s[j + 1];
      PermsDistinct(rest);
      forall q | q in Perms(rest)
        ensures x !in q
      {
        PermsAreRearrangements(rest, q);
        assert x !in rest;
        assert x in q <==> x in multiset(q);
      }
      ExpandDistinct(Perms(rest), x);
    }
  }
}
