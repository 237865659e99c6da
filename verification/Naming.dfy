/** Flat node names: what a node declared inside nested instances is called, and what a link's reference path
    from an enclosing scope is turned into (transformer.py and ns3codegen.py). */
module Naming {
  import opened Wrappers
  import opened Text
  import opened Scopes
  import opened Elaboration

  /** The instance names around a declaration, outermost first, as they are resolved. */
  function Path(env: Env): Result<seq<string>>
    requires env != []
  {
    var outer :- if |env| > 1 then Path(env[1..]) else Ok([]);
    var own :- Resolve(env, env[0].prefix);
    Ok(if own == "" then outer else outer + [own])
  }

  ghost predicate NoneEmpty(segments: seq<string>) {
    forall i :: 0 <= i < |segments| ==> segments[i] != ""
  }

  lemma {:induction false} JoinAppend(a: seq<string>, x: string)
    requires a != []
    ensures Join(a + [x]) == Join(a) + "_" + x
  {
    if |a| > 1 {
      JoinAppend(a[1..], x);
      assert (a + [x])[1..] == a[1..] + [x];
      assert a[0] + "_" + (Join(a[1..]) + "_" + x) == a[0] + "_" + Join(a[1..]) + "_" + x;
    }
  }

  /** The prefix is the path, joined. */
  lemma {:induction false} PrefixIsPath(env: Env)
    requires env != []
    ensures Prefix(env).Ok? == Path(env).Ok?
    ensures Path(env).Ok? ==> NoneEmpty(Path(env).value) && Prefix(env).value == Join(Path(env).value)
    ensures Path(env).Ok? ==> (Prefix(env).value == "" <==> Path(env).value == [])
  {
    if |env| > 1 {
      PrefixIsPath(env[1..]);
    }
    if Path(env).Ok? {
      var outer := if |env| > 1 then Path(env[1..]).value else [];
      var own := Resolve(env, env[0].prefix).value;
      if own != "" && outer != [] {
        JoinAppend(outer, own);
      } else if own == "" {
        assert Join(outer) + "" == Join(outer);
      }
      if Path(env).value != [] {
        assert Path(env).value[0] != "";
      }
    }
  }

  /** A node's flat name is its path and its own name, joined with underscores. */
  lemma NodeNameIsPath(env: Env, name: string)
    requires env != []
    ensures NodeName(env, name).Ok? <==> Path(env).Ok? && Resolve(env, name).Ok?
    ensures NodeName(env, name).Ok? ==>
              NodeName(env, name).value == Join(Path(env).value + [Resolve(env, name).value])
  {
    PrefixIsPath(env);
    if NodeName(env, name).Ok? && Path(env).value != [] {
      JoinAppend(Path(env).value, Resolve(env, name).value);
    }
  }

  /** Nodes at different paths have different flat names, if no segment is empty or holds an underscore. */
  lemma FlatNamesDistinct(env1: Env, name1: string, env2: Env, name2: string)
    requires env1 != [] && env2 != [] && NodeName(env1, name1).Ok? && NodeName(env2, name2).Ok?
    requires Path(env1).Ok? && Resolve(env1, name1).Ok? && AllPlain(Path(env1).value + [Resolve(env1, name1).value])
    requires Path(env2).Ok? && Resolve(env2, name2).Ok? && AllPlain(Path(env2).value + [Resolve(env2, name2).value])
    requires NodeName(env1, name1) == NodeName(env2, name2)
    ensures Path(env1) == Path(env2) && Resolve(env1, name1) == Resolve(env2, name2)
  {
    var a, b := Path(env1).value, Path(env2).value;
    var x, y := Resolve(env1, name1).value, Resolve(env2, name2).value;
    NodeNameIsPath(env1, name1);
    NodeNameIsPath(env2, name2);
    JoinInjective(a + [x], b + [y]);
    assert a == (a + [x])[..|a + [x]| - 1] && b == (b + [y])[..|b + [y]| - 1];
    assert x == (a + [x])[|a|] && y == (b + [y])[|b|];
  }

  // ----- References -----

  function ResolveSeq(env: Env, ref: seq<string>): (r: Result<seq<string>>)
    requires env != []
    ensures r.Ok? ==> |r.value| == |ref|
  {
    if ref == [] then Ok([])
    else
      var first :- Resolve(env, ref[0]);
      var rest :- ResolveSeq(env, ref[1..]);
      Ok([first] + rest)
  }

  lemma {:induction false} RestIsJoin(env: Env, head: string, ref: seq<string>)
    requires env != []
    ensures ResolveRest(env, ref).Ok? == ResolveSeq(env, ref).Ok?
    ensures ResolveSeq(env, ref).Ok? ==>
              Join([head] + ResolveSeq(env, ref).value) == head + ResolveRest(env, ref).value
    decreases ref
  {
    hide Resolve, Join;
    if ref == [] {
      JoinOne(head);
    } else if Resolve(env, ref[0]).Ok? {
      var first := Resolve(env, ref[0]).value;
      RestIsJoin(env, first, ref[1..]);
      if ResolveSeq(env, ref).Ok? {
        JoinTwo(head, first, ResolveSeq(env, ref[1..]).value, ResolveRest(env, ref[1..]).value);
      }
    }
  }

  lemma JoinOne(head: string)
    ensures Join([head] + []) == head + ""
  {
    assert [head] + [] == [head];
  }

  lemma JoinTwo(head: string, first: string, others: seq<string>, rest: string)
    requires Join([first] + others) == first + rest
    ensures Join([head] + ([first] + others)) == head + ("_" + first + rest)
  {
    assert ([head] + ([first] + others))[1..] == [first] + others;
    assert head + "_" + (first + rest) == head + ("_" + first + rest);
  }

  lemma {:induction false} JoinConcat(a: seq<string>, b: seq<string>)
    requires b != []
    ensures Join(a + b) == if a == [] then Join(b) else Join(a) + "_" + Join(b)
  {
    if a == [] {
      assert a + b == b;
    } else {
      assert (a + b)[1..] == a[1..] + b;
      JoinConcat(a[1..], b);
      if |a| > 1 {
        assert a[0] + "_" + (Join(a[1..]) + "_" + Join(b)) == a[0] + "_" + Join(a[1..]) + "_" + Join(b);
      }
    }
  }

  /** The end of a link with reference path `ref`, joined from the path of the enclosing scope and the reference. */
  lemma EndIsPath(env: Env, src: seq<string>, dst: seq<string>)
    requires env != [] && LinkEnds(env, src, dst).Ok?
    ensures Path(env).Ok? && ResolveSeq(env, src).Ok? && ResolveSeq(env, dst).Ok?
    ensures LinkEnds(env, src, dst).value
         == (Join(Path(env).value + ResolveSeq(env, src).value), Join(Path(env).value + ResolveSeq(env, dst).value))
  {
    PrefixIsPath(env);
    var path := Path(env).value;
    RestIsJoin(env, Resolve(env, src[0]).value, src[1..]);
    RestIsJoin(env, Resolve(env, dst[0]).value, dst[1..]);
    var s, d := ResolveSeq(env, src).value, ResolveSeq(env, dst).value;
    JoinConcat(path, s);
    JoinConcat(path, d);
    assert "" + Join(s) == Join(s) && "" + Join(d) == Join(d);
  }

  // ----- A declaration inside, a reference outside -----

  /** The reference path to a declaration inside the frames `inner`: the names of the instances on the way. */
  function Segments(inner: Env): seq<string> {
    if inner == [] then []
    else Segments(inner[1..]) + if inner[0].prefix == "" then [] else [inner[0].prefix]
  }

  /** The variable of a templated name has the same value inside and outside. */
  ghost predicate SameVariable(inside: Env, outside: Env, name: string)
    requires inside != [] && outside != []
  {
    Match(name).Some? ==> Lookup(inside, Match(name).value.variable) == Lookup(outside, Match(name).value.variable)
  }

  ghost predicate SameVariables(inner: Env, outer: Env)
    requires outer != []
  {
    forall k :: 0 <= k < |inner| ==> SameVariable(inner[k..] + outer, outer, inner[k].prefix)
  }

  lemma ResolveNonEmpty(env: Env, name: string)
    requires env != []
    ensures Resolve(env, name).Ok? ==> (Resolve(env, name).value == "" <==> name == "")
  {
    if Match(name).Some? && Resolve(env, name).Ok? {
      var v := Lookup(env, Match(name).value.variable).value;
      assert Str(v) != "";
    }
  }

  lemma {:induction false} ResolveSeqAppend(env: Env, a: seq<string>, b: seq<string>)
    requires env != []
    ensures ResolveSeq(env, a).Ok? && ResolveSeq(env, b).Ok? ==>
              ResolveSeq(env, a + b) == Ok(ResolveSeq(env, a).value + ResolveSeq(env, b).value)
  {
    if a == [] {
      assert a + b == b;
      assert ResolveSeq(env, b).Ok? ==> [] + ResolveSeq(env, b).value == ResolveSeq(env, b).value;
    } else {
      assert (a + b)[1..] == a[1..] + b;
      ResolveSeqAppend(env, a[1..], b);
      if ResolveSeq(env, a).Ok? && ResolveSeq(env, b).Ok? {
        var first, rest := [Resolve(env, a[0]).value], ResolveSeq(env, a[1..]).value;
        assert first + (rest + ResolveSeq(env, b).value) == first + rest + ResolveSeq(env, b).value;
      }
    }
  }

  lemma {:induction false} PathThrough(inner: Env, outer: Env)
    requires outer != [] && SameVariables(inner, outer) && Path(inner + outer).Ok?
    ensures Path(outer).Ok? && ResolveSeq(outer, Segments(inner)).Ok?
    ensures Path(inner + outer).value == Path(outer).value + ResolveSeq(outer, Segments(inner)).value
  {
    if inner == [] {
      assert inner + outer == outer;
      assert Path(outer).value + [] == Path(outer).value;
    } else {
      hide *;
      SameVariablesInside(inner, outer);
      PathOnce(inner + outer);
      assert (inner + outer)[1..] == inner[1..] + outer;
      PathThrough(inner[1..], outer);
      PathStep(inner, outer);
    }
  }

  lemma SameVariablesInside(inner: Env, outer: Env)
    requires outer != [] && inner != [] && SameVariables(inner, outer)
    ensures SameVariables(inner[1..], outer)
    ensures Resolve(inner + outer, inner[0].prefix) == Resolve(outer, inner[0].prefix)
  {
    forall k | 0 <= k < |inner[1..]|
      ensures SameVariable(inner[1..][k..] + outer, outer, inner[1..][k].prefix)
    {
      assert inner[1..][k..] == inner[k + 1..];
      assert SameVariable(inner[k + 1..] + outer, outer, inner[k + 1].prefix);
    }
    assert inner[0..] == inner;
    assert SameVariable(inner[0..] + outer, outer, inner[0].prefix);
  }

  /** One more frame adds its instance name to the path and to the reference alike. */
  lemma PathStep(inner: Env, outer: Env)
    requires outer != [] && inner != [] && Path(inner + outer).Ok? && Path(inner[1..] + outer).Ok?
    requires Resolve(inner + outer, inner[0].prefix) == Resolve(outer, inner[0].prefix)
    requires Path(outer).Ok? && ResolveSeq(outer, Segments(inner[1..])).Ok?
    requires Path(inner[1..] + outer).value == Path(outer).value + ResolveSeq(outer, Segments(inner[1..])).value
    ensures ResolveSeq(outer, Segments(inner)).Ok?
    ensures Path(inner + outer).value == Path(outer).value + ResolveSeq(outer, Segments(inner)).value
  {
    var env, own, refs := inner + outer, inner[0].prefix, Segments(inner[1..]);
    assert env[1..] == inner[1..] + outer && env[0].prefix == own;
    PathOnce(env);
    ResolveNonEmpty(env, own);
    assert Segments(inner) == if own == "" then refs else refs + [own];
    AddSegment(outer, Path(env[1..]).value, refs, own);
  }

  lemma AddSegment(outer: Env, path: seq<string>, refs: seq<string>, own: string)
    requires outer != [] && Path(outer).Ok? && ResolveSeq(outer, refs).Ok? && Resolve(outer, own).Ok?
    requires path == Path(outer).value + ResolveSeq(outer, refs).value
    ensures own != "" ==> ResolveSeq(outer, refs + [own]).Ok?
    ensures own != "" ==>
              path + [Resolve(outer, own).value] == Path(outer).value + ResolveSeq(outer, refs + [own]).value
  {
    if own != "" {
      SeqOfOne(outer, own);
      ResolveSeqAppend(outer, refs, [own]);
    }
  }

  lemma PathOnce(env: Env)
    requires |env| > 1 && Path(env).Ok?
    ensures Path(env[1..]).Ok? && Resolve(env, env[0].prefix).Ok?
    ensures var x := Resolve(env, env[0].prefix).value;
            Path(env).value == if x == "" then Path(env[1..]).value else Path(env[1..]).value + [x]
  {
  }

  lemma SeqOfOne(env: Env, name: string)
    requires env != [] && Resolve(env, name).Ok?
    ensures ResolveSeq(env, [name]) == Ok([Resolve(env, name).value])
  {
    assert [name][1..] == [];
    assert [Resolve(env, name).value] + [] == [Resolve(env, name).value];
  }

  /** At any nesting depth: a node declared as `name` inside the instances `inner` has the flat name that a link in
      the enclosing scope computes, at either end, for the path of instance names and `name`, provided the template
      variables on the way have the same values in both scopes. */
  lemma DeclarationMeetsReference(inner: Env, outer: Env, name: string, other: seq<string>)
    requires outer != [] && SameVariables(inner, outer) && SameVariable(inner + outer, outer, name)
    requires NodeName(inner + outer, name).Ok?
    ensures var ref, flat := Segments(inner) + [name], NodeName(inner + outer, name).value;
            && (LinkEnds(outer, ref, other).Ok? ==> LinkEnds(outer, ref, other).value.0 == flat)
            && (LinkEnds(outer, other, ref).Ok? ==> LinkEnds(outer, other, ref).value.1 == flat)
  {
    hide *;
    var ref := Segments(inner) + [name];
    NodeNameIsPath(inner + outer, name);
    PathThrough(inner, outer);
    ResolveSame(inner + outer, outer, name);
    SeqOfOne(outer, name);
    ResolveSeqAppend(outer, Segments(inner), [name]);
    var a, b, c := Path(outer).value, ResolveSeq(outer, Segments(inner)).value, [Resolve(outer, name).value];
    assert a + (b + c) == a + b + c;
    if LinkEnds(outer, ref, other).Ok? {
      EndIsPath(outer, ref, other);
    }
    if LinkEnds(outer, other, ref).Ok? {
      EndIsPath(outer, other, ref);
    }
  }

  lemma ResolveSame(inside: Env, outside: Env, name: string)
    requires inside != [] && outside != [] && SameVariable(inside, outside, name)
    ensures Resolve(inside, name) == Resolve(outside, name)
  {
  }

  // ----- The converse -----

  /** A template resolves to the same text in two scopes only if its variable has the same value in both. */
  lemma SameText(inside: Env, outside: Env, name: string)
    requires inside != [] && outside != []
    requires Resolve(inside, name).Ok? && Resolve(inside, name) == Resolve(outside, name)
    ensures SameVariable(inside, outside, name)
  {
    if Match(name).Some? {
      var t := Match(name).value;
      var a, b := Str(Lookup(inside, t.variable).value), Str(Lookup(outside, t.variable).value);
      hide Match, Resolve, Lookup, Str;
      Between(t.pre, a, b, t.post);
      StrInjective(Lookup(inside, t.variable).value, Lookup(outside, t.variable).value);
    }
  }

  lemma Between(pre: string, a: string, b: string, post: string)
    requires pre + a + post == pre + b + post
    ensures a == b
  {
    assert |a| == |b|;
    assert a == (pre + a + post)[|pre|..|pre| + |a|] && b == (pre + b + post)[|pre|..|pre| + |b|];
  }

  /** If the path to an inner scope reads as the reference to it, the template variables on the way agree. */
  lemma {:induction false} PathAgrees(inner: Env, outer: Env)
    requires outer != [] && Path(inner + outer).Ok? && Path(outer).Ok? && ResolveSeq(outer, Segments(inner)).Ok?
    requires Path(inner + outer).value == Path(outer).value + ResolveSeq(outer, Segments(inner)).value
    ensures SameVariables(inner, outer)
  {
    if inner != [] {
      var env, own, refs := inner + outer, inner[0].prefix, Segments(inner[1..]);
      assert env[1..] == inner[1..] + outer && env[0].prefix == own;
      PathOnce(env);
      ResolveNonEmpty(env, own);
      assert Segments(inner) == if own == "" then refs else refs + [own];
      LastSegment(env, outer, own, refs);
      PathAgrees(inner[1..], outer);
      SameVariablesOutside(inner, outer);
    }
  }

  /** One step inward: the last segments agree, and so do the rest of the path and the rest of the reference. */
  lemma LastSegment(env: Env, outer: Env, own: string, refs: seq<string>)
    requires outer != [] && |env| > 1 && env[0].prefix == own && Path(env).Ok? && Path(env[1..]).Ok? && Path(outer).Ok?
    requires Resolve(env, own).Ok? && (Resolve(env, own).value == "" <==> own == "")
    requires Path(env).value ==
             if own == "" then Path(env[1..]).value else Path(env[1..]).value + [Resolve(env, own).value]
    requires var all := if own == "" then refs else refs + [own];
             ResolveSeq(outer, all).Ok? && Path(env).value == Path(outer).value + ResolveSeq(outer, all).value
    ensures SameVariable(env, outer, own)
    ensures ResolveSeq(outer, refs).Ok? && Path(env[1..]).value == Path(outer).value + ResolveSeq(outer, refs).value
  {
    if own == "" {
      assert Match("") == None;
    } else {
      ResolveSeqSplit(outer, refs, own);
      var path, rest, x := Path(outer).value, ResolveSeq(outer, refs).value, Resolve(outer, own).value;
      var inside, y := Path(env[1..]).value, Resolve(env, own).value;
      assert path + (rest + [x]) == (path + rest) + [x];
      SameEnds(inside, y, path + rest, x);
      SameText(env, outer, own);
    }
  }

  lemma SameEnds(a: seq<string>, x: string, b: seq<string>, y: string)
    requires a + [x] == b + [y]
    ensures a == b && x == y
  {
    assert a == (a + [x])[..|a + [x]| - 1] && b == (b + [y])[..|b + [y]| - 1];
    assert x == (a + [x])[|a|] && y == (b + [y])[|b|];
  }

  lemma {:induction false} ResolveSeqSplit(env: Env, refs: seq<string>, name: string)
    requires env != [] && ResolveSeq(env, refs + [name]).Ok?
    ensures ResolveSeq(env, refs).Ok? && Resolve(env, name).Ok?
    ensures ResolveSeq(env, refs + [name]).value == ResolveSeq(env, refs).value + [Resolve(env, name).value]
  {
    hide Resolve;
    if refs == [] {
      assert [] + [name] == [name] && [name][1..] == [];
    } else {
      assert (refs + [name])[1..] == refs[1..] + [name];
      ResolveSeqSplit(env, refs[1..], name);
    }
  }

  lemma SameVariablesOutside(inner: Env, outer: Env)
    requires outer != [] && inner != [] && SameVariables(inner[1..], outer)
    requires SameVariable(inner + outer, outer, inner[0].prefix)
    ensures SameVariables(inner, outer)
  {
    hide SameVariable;
    forall k | 0 <= k < |inner|
      ensures SameVariable(inner[k..] + outer, outer, inner[k].prefix)
    {
      if k == 0 {
        assert inner[0..] == inner;
      } else {
        assert inner[1..][k - 1..] == inner[k..];
        assert SameVariable(inner[1..][k - 1..] + outer, outer, inner[1..][k - 1].prefix);
      }
    }
  }

  /** For segments that are not empty and hold no underscore, the proviso is exact: a link end in the enclosing scope
      meets the node if and only if every template variable on the way has the same value in both scopes. */
  lemma ReferenceMeetsExactly(inner: Env, outer: Env, name: string, other: seq<string>)
    requires outer != [] && NodeName(inner + outer, name).Ok?
    requires Path(outer).Ok? && ResolveSeq(outer, Segments(inner) + [name]).Ok?
    requires Path(inner + outer).Ok? && Resolve(inner + outer, name).Ok?
    requires AllPlain(Path(inner + outer).value + [Resolve(inner + outer, name).value])
    requires AllPlain(Path(outer).value + ResolveSeq(outer, Segments(inner) + [name]).value)
    ensures var ref, flat := Segments(inner) + [name], NodeName(inner + outer, name).value;
            var agree := SameVariables(inner, outer) && SameVariable(inner + outer, outer, name);
            && (LinkEnds(outer, ref, other).Ok? ==> (LinkEnds(outer, ref, other).value.0 == flat <==> agree))
            && (LinkEnds(outer, other, ref).Ok? ==> (LinkEnds(outer, other, ref).value.1 == flat <==> agree))
  {
    hide *;
    var ref, flat := Segments(inner) + [name], NodeName(inner + outer, name).value;
    NodeNameIsPath(inner + outer, name);
    if LinkEnds(outer, ref, other).Ok? {
      EndIsPath(outer, ref, other);
      if LinkEnds(outer, ref, other).value.0 == flat {
        SameNameAgrees(inner, outer, name);
      }
    }
    if LinkEnds(outer, other, ref).Ok? {
      EndIsPath(outer, other, ref);
      if LinkEnds(outer, other, ref).value.1 == flat {
        SameNameAgrees(inner, outer, name);
      }
    }
    if SameVariables(inner, outer) && SameVariable(inner + outer, outer, name) {
      DeclarationMeetsReference(inner, outer, name, other);
    }
  }

  lemma SameNameAgrees(inner: Env, outer: Env, name: string)
    requires outer != [] && Path(outer).Ok? && ResolveSeq(outer, Segments(inner) + [name]).Ok?
    requires Path(inner + outer).Ok? && Resolve(inner + outer, name).Ok?
    requires AllPlain(Path(inner + outer).value + [Resolve(inner + outer, name).value])
    requires AllPlain(Path(outer).value + ResolveSeq(outer, Segments(inner) + [name]).value)
    requires Join(Path(inner + outer).value + [Resolve(inner + outer, name).value])
          == Join(Path(outer).value + ResolveSeq(outer, Segments(inner) + [name]).value)
    ensures SameVariables(inner, outer) && SameVariable(inner + outer, outer, name)
  {
    hide *;
    ResolveSeqSplit(outer, Segments(inner), name);
    var path, rest, x := Path(outer).value, ResolveSeq(outer, Segments(inner)).value, Resolve(outer, name).value;
    JoinInjective(Path(inner + outer).value + [Resolve(inner + outer, name).value], path + (rest + [x]));
    assert path + (rest + [x]) == (path + rest) + [x];
    SameEnds(Path(inner + outer).value, Resolve(inner + outer, name).value, path + rest, x);
    PathAgrees(inner, outer);
    SameText(inner + outer, outer, name);
  }
}
