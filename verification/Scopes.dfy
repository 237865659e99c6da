/** `Scope` and `Expr` of transformer.py: dynamic scoping through a chain of mutable scopes. */
module Scopes {
  import opened Wrappers
  import opened Text

  /** The exceptions generation can end with. */
  datatype Error =
    | UnresolvedName(name: string)
    | CannotResolve
    | DivisionByZero
    | ArityMismatch
    | NoSuchModule(name: string)
    | UnitComparison
    | UnknownNodeType(kind: string)
    | EmptyReference
    | MissingKey(key: string)
    | Reentered(name: string)  // not raised by the source: a module is used inside its own instantiation

  datatype Result<+T> = Ok(value: T) | Err(error: Error) {
    predicate IsFailure() { Err? }

    function PropagateFailure<U>(): Result<U>
      requires Err?
    {
      Err(error)
    }

    function Extract(): T
      requires Ok?
    {
      value
    }
  }

  // ----- Values and expressions -----

  datatype Operator = Add | Sub | Mul | Div

  /** What a parsed value can be: an int, a NAME or {NAME}, a number with a unit, or an expression. */
  datatype Value =
    | Num(n: int)
    | Name(s: string)
    | Quantity(amount: int, unit: string)
    | Expr(op: Operator, left: Value, right: Value)

  /** Python's `//`: the quotient rounded toward minus infinity. */
  function FloorDiv(a: int, b: int): int
    requires b != 0
  {
    if b > 0 then a / b else (-a) / (-b)
  }

  /** The defining property of floor division, for either sign of the divisor. */
  lemma FloorDivFloors(a: int, b: int)
    requires b != 0
    ensures var q := FloorDiv(a, b);
            if b > 0 then q * b <= a < (q + 1) * b else (q + 1) * b < a <= q * b
  {
    var q := FloorDiv(a, b);
    if b > 0 {
      assert a == b * (a / b) + a % b;
    } else {
      assert -a == -b * (-a / -b) + (-a) % (-b);
      assert (-b) * q == -(q * b);
    }
  }

  // ----- Templates: text with a {variable} in it -----

  function Find(s: string, c: char, from: nat): (r: Option<nat>)
    requires from <= |s|
    ensures r.Some? ==> from <= r.value < |s| && s[r.value] == c
    ensures forall k :: from <= k < (if r.Some? then r.value else |s|) ==> s[k] != c
    decreases |s| - from
  {
    if from == |s| then None
    else if s[from] == c then Some(from)
    else Find(s, c, from + 1)
  }

  datatype Template = Template(pre: string, variable: string, post: string)

  /** The match of `(.*?)\{(.*?)\}(.*)`: the first `{` and the first `}` after it. */
  function Match(s: string): (r: Option<Template>)
    ensures r.Some? ==> '}' !in r.value.variable && '{' !in r.value.pre
    ensures r.Some? ==> s == r.value.pre + "{" + r.value.variable + "}" + r.value.post
  {
    match Find(s, '{', 0)
    case None => None
    case Some(i) =>
      match Find(s, '}', i + 1)
      case None => None
      case Some(j) => Some(Template(s[..i], s[i + 1..j], s[j + 1..]))
  }

  /** A name has a template exactly if some `}` comes after some `{`; it is cut at the first of each. */
  lemma MatchExactly(s: string)
    ensures Match(s).None? <==> forall i, j :: 0 <= i < j < |s| ==> !(s[i] == '{' && s[j] == '}')
    ensures Match(s).Some? ==>
              var t := Match(s).value;
              && s == t.pre + "{" + t.variable + "}" + t.post && '{' !in t.pre && '}' !in t.variable
  {
    var i := Find(s, '{', 0);
    if i.Some? && Find(s, '}', i.value + 1).Some? {
      assert s[i.value] == '{' && s[Find(s, '}', i.value + 1).value] == '}';
    }
  }

  lemma NoBraceNoMatch(s: string)
    requires '}' !in s
    ensures Match(s) == None
  {
  }

  // ----- Environments: what a chain of scopes means -----

  datatype Frame = Frame(vals: map<string, int>, prefix: string)

  /** Innermost frame first. */
  type Env = seq<Frame>

  function Rank(s: string): nat {
    if Match(s).Some? then 1 else 0
  }

  function Lookup(env: Env, name: string): Result<int>
    requires env != []
    decreases |env|, Rank(name), 1
  {
    var resolved :- Resolve(env, name);
    if resolved in env[0].vals then Ok(env[0].vals[resolved])
    else if |env| > 1 then Lookup(env[1..], resolved)
    else Err(UnresolvedName(resolved))
  }

  /** Substitute the first template of a name. */
  function Resolve(env: Env, name: string): Result<string>
    requires env != []
    decreases |env|, Rank(name), 0
  {
    match Match(name)
    case None => Ok(name)
    case Some(t) =>
      NoBraceNoMatch(t.variable);
      var v :- Lookup(env, t.variable);
      Ok(t.pre + Str(v) + t.post)
  }

  function JoinPrefix(prefix: string, own: string): string {
    if prefix != "" && own != "" then prefix + "_" + own else prefix + own
  }

  function Prefix(env: Env): Result<string>
    requires env != []
  {
    var outer :- if |env| > 1 then Prefix(env[1..]) else Ok("");
    var own :- Resolve(env, env[0].prefix);
    Ok(JoinPrefix(outer, own))
  }

  function Evaluate(env: Env, v: Value): Result<int>
    requires env != []
  {
    match v
    case Num(n) => Ok(n)
    case Name(s) => Lookup(env, StripBraces(s))
    case Quantity(_, _) => Err(CannotResolve)
    case Expr(op, l, r) =>
      var a :- Evaluate(env, l);
      var b :- Evaluate(env, r);
      Arithmetic(op, a, b)
  }

  function StripBraces(s: string): string {
    if |s| >= 2 && s[0] == '{' && s[|s| - 1] == '}' then s[1..|s| - 1] else s
  }

  function Arithmetic(op: Operator, a: int, b: int): Result<int> {
    match op
    case Add => Ok(a + b)
    case Sub => Ok(a - b)
    case Mul => Ok(a * b)
    case Div => if b == 0 then Err(DivisionByZero) else Ok(FloorDiv(a, b))
  }

  /** Looking up a brace-free name finds the innermost frame that binds it. */
  lemma {:induction false} InnermostBinding(env: Env, name: string, k: nat)
    requires k < |env| && '}' !in name
    requires name in env[k].vals && forall i :: 0 <= i < k ==> name !in env[i].vals
    ensures Lookup(env, name) == Ok(env[k].vals[name])
  {
    NoBraceNoMatch(name);
    if k > 0 {
      InnermostBinding(env[1..], name, k - 1);
    }
  }

  lemma {:induction false} UnboundName(env: Env, name: string)
    requires env != [] && '}' !in name
    requires forall i :: 0 <= i < |env| ==> name !in env[i].vals
    ensures Lookup(env, name) == Err(UnresolvedName(name))
  {
    NoBraceNoMatch(name);
    if |env| > 1 {
      UnboundName(env[1..], name);
    }
  }

  // ----- The mutable scopes -----

  /** Each scope's parent is the next one; the last has none. */
  ghost predicate IsChain(chain: seq<Scope>): (b: bool)
    reads chain
    ensures b ==> chain != []
  {
    && chain != []
    && chain[|chain| - 1].parent == null
    && forall i :: 1 <= i < |chain| ==> chain[i - 1].parent == chain[i]
  }

  ghost function EnvOf(chain: seq<Scope>): (env: Env)
    reads chain
    ensures |env| == |chain|
  {
    if chain == [] then [] else [Frame(chain[0].nameToVal, chain[0].prefix)] + EnvOf(chain[1..])
  }

  /** A chain never meets a scope twice. */
  lemma {:induction false} ChainDistinct(chain: seq<Scope>, i: nat, j: nat)
    requires IsChain(chain) && i < j < |chain|
    ensures chain[i] != chain[j]
    decreases |chain| - j
  {
    assert chain[i].parent == chain[i + 1];
    if j + 1 < |chain| {
      ChainDistinct(chain, i + 1, j + 1);
      assert chain[j].parent == chain[j + 1];
    }
  }

  /** Each scope's parent is the next one, and the last one's is the first. */
  ghost predicate IsRing(ring: seq<Scope>)
    reads ring
  {
    && ring != []
    && ring[|ring| - 1].parent == ring[0]
    && forall i :: 1 <= i < |ring| ==> ring[i - 1].parent == ring[i]
  }

  /** From a scope on a ring no walk along the parents ever ends. */
  lemma {:induction false} RingHasNoEnd(ring: seq<Scope>, i: nat, chain: seq<Scope>)
    requires IsRing(ring) && i < |ring| && chain != [] && chain[0] == ring[i]
    ensures !IsChain(chain)
    decreases |chain|
  {
    if IsChain(chain) && |chain| > 1 {
      assert chain[1] == chain[0].parent;
      ParentChain(chain);
      RingHasNoEnd(ring, if i + 1 < |ring| then i + 1 else 0, chain[1..]);
    }
    if |chain| == 1 && i + 1 < |ring| {
      assert ring[i].parent == ring[i + 1];
    }
  }

  class Scope {
    var parent: Scope?
    var nameToVal: map<string, int>
    var prefix: string

    constructor ()
      ensures parent == null && nameToVal == map[] && prefix == ""
    {
      parent, nameToVal, prefix := null, map[], "";
    }

    /** Linking this scope to the head of a chain lengthens the chain exactly when the scope is not already on
        it; otherwise the parents run in a ring, and by RingHasNoEnd no walk from this scope along them ends. */
    method SetParent(p: Scope, ghost chain: seq<Scope>)
      requires IsChain(chain) && chain[0] == p
      modifies this`parent
      ensures parent == p
      ensures IsChain([this] + chain) <==> this !in chain
      ensures forall k :: 0 <= k < |chain| && chain[k] == this ==> IsRing([this] + chain[..k])
    {
      ghost var j := if this in chain then (var j: nat :| j < |chain| && chain[j] == this; j) else 0;
      if this in chain && j + 1 < |chain| {
        ChainDistinct(chain, 0, j + 1);
      }
      ghost var apart := forall i, k :: 0 <= i < k < |chain| ==> chain[i] != chain[k];
      assert apart by {
        forall i, k | 0 <= i < k < |chain|
          ensures chain[i] != chain[k]
        {
          ChainDistinct(chain, i, k);
        }
      }
      parent := p;
      forall k | 0 <= k < |chain| && chain[k] == this
        ensures IsRing([this] + chain[..k])
      {
        ghost var ring := [this] + chain[..k];
        assert forall i :: 1 <= i < |ring| ==> ring[i] == chain[i - 1];
      }
      ghost var longer := [this] + chain;
      if this in chain {
        assert longer[j + 1] == this;
        if j + 1 < |chain| {
          assert longer[j + 2] == chain[j + 1] != p;
        }
      } else {
        assert forall i :: 1 <= i < |longer| ==> longer[i] == chain[i - 1];
      }
    }

    method SetNameToVal(name: string, value: int)
      modifies this`nameToVal
      ensures nameToVal == old(nameToVal)[name := value]
    {
      nameToVal := nameToVal[name := value];
    }

    method SetNodeNamePrefix(p: string)
      modifies this`prefix
      ensures prefix == p
    {
      prefix := p;
    }

    method LookupName(name: string, ghost chain: seq<Scope>) returns (r: Result<int>)
      requires IsChain(chain) && chain[0] == this
      ensures r == Lookup(EnvOf(chain), name)
      decreases |chain|, Rank(name), 1
    {
      var resolved := ResolveNameWithVar(name, chain);
      if resolved.Err? {
        return Err(resolved.error);
      }
      if resolved.value in nameToVal {
        return Ok(nameToVal[resolved.value]);
      }
      if parent != null {
        ParentChain(chain);
        r := parent.LookupName(resolved.value, chain[1..]);
        return;
      }
      return Err(UnresolvedName(resolved.value));
    }

    method ResolveNameWithVar(name: string, ghost chain: seq<Scope>) returns (r: Result<string>)
      requires IsChain(chain) && chain[0] == this
      ensures r == Resolve(EnvOf(chain), name)
      decreases |chain|, Rank(name), 0
    {
      match Match(name)
      case None => return Ok(name);
      case Some(t) =>
        NoBraceNoMatch(t.variable);
        var v := LookupName(t.variable, chain);
        if v.Err? {
          return Err(v.error);
        }
        return Ok(t.pre + Str(v.value) + t.post);
    }

    method GetNodeNamePrefix(ghost chain: seq<Scope>) returns (r: Result<string>)
      requires IsChain(chain) && chain[0] == this
      ensures r == Prefix(EnvOf(chain))
      decreases |chain|
    {
      var outer: Result<string> := Ok("");
      if parent != null {
        ParentChain(chain);
        outer := parent.GetNodeNamePrefix(chain[1..]);
        if outer.Err? {
          return outer;
        }
      }
      var own := ResolveNameWithVar(prefix, chain);
      if own.Err? {
        return own;
      }
      return Ok(JoinPrefix(outer.value, own.value));
    }

    /** `Expr.resolve` against this scope. */
    method EvaluateHere(v: Value, ghost chain: seq<Scope>) returns (r: Result<int>)
      requires IsChain(chain) && chain[0] == this
      ensures r == Evaluate(EnvOf(chain), v)
      decreases v
    {
      match v
      case Num(n) => return Ok(n);
      case Name(s) => r := LookupName(StripBraces(s), chain);
      case Quantity(_, _) => return Err(CannotResolve);
      case Expr(op, left, right) =>
        var a := EvaluateHere(left, chain);
        if a.Err? {
          return a;
        }
        var b := EvaluateHere(right, chain);
        if b.Err? {
          return b;
        }
        return Arithmetic(op, a.value, b.value);
    }
  }

  lemma ParentChain(chain: seq<Scope>)
    requires IsChain(chain) && |chain| > 1
    ensures IsChain(chain[1..]) && chain[0].parent == chain[1]
    ensures EnvOf(chain)[1..] == EnvOf(chain[1..])
  {
  }
}
