/** What single statements and expressions of a program mean, said without the functions that elaborate them, and a
    program with a loop and a condition, generated from the parse tree on. */
module ElaborationLaws {
  import opened Wrappers
  import opened Text
  import opened Scopes
  import opened Elaboration
  import opened Generation
  import opened CodeGenerator
  import opened Transformer

  // ----- Expressions -----

  /** The four operators on the values of their operands. */
  lemma ArithmeticLaw(env: Env, l: Value, r: Value, a: int, b: int)
    requires env != [] && Evaluate(env, l) == Ok(a) && Evaluate(env, r) == Ok(b)
    ensures Evaluate(env, Expr(Add, l, r)) == Ok(a + b)
    ensures Evaluate(env, Expr(Sub, l, r)) == Ok(a - b)
    ensures Evaluate(env, Expr(Mul, l, r)) == Ok(a * b)
    ensures b == 0 ==> Evaluate(env, Expr(Div, l, r)) == Err(DivisionByZero)
    ensures b != 0 ==>
              && Evaluate(env, Expr(Div, l, r)).Ok?
              && var q := Evaluate(env, Expr(Div, l, r)).value;
                 if b > 0 then q * b <= a < (q + 1) * b else (q + 1) * b < a <= q * b
  {
    if b != 0 {
      FloorDivFloors(a, b);
    }
    hide FloorDiv;
  }

  /** A name means its innermost binding, with braces around it or without. */
  lemma NameLaw(env: Env, name: string, k: nat)
    requires k < |env| && '}' !in name
    requires name in env[k].vals && forall i :: 0 <= i < k ==> name !in env[i].vals
    ensures Evaluate(env, Name(name)) == Ok(env[k].vals[name])
    ensures Evaluate(env, Name("{" + name + "}")) == Ok(env[k].vals[name])
  {
    hide Lookup;
    InnermostBinding(env, name, k);
    var braced := "{" + name + "}";
    assert braced[0] == '{' && braced[|braced| - 1] == '}' && braced[1..|braced| - 1] == name;
    assert StripBraces(braced) == name;
    assert name != "" ==> name[|name| - 1] in name;
    assert StripBraces(name) == name;
  }

  /** Arguments are evaluated in their order; the first that fails decides. */
  lemma {:induction false} ArgumentsLaw(env: Env, args: seq<Value>, i: nat)
    requires env != [] && i < |args|
    ensures EvaluateAll(env, args).Ok? ==> Evaluate(env, args[i]) == Ok(EvaluateAll(env, args).value[i])
    ensures (forall j :: 0 <= j < i ==> Evaluate(env, args[j]).Ok?) && Evaluate(env, args[i]).Err? ==>
              EvaluateAll(env, args) == Err(Evaluate(env, args[i]).error)
  {
    hide Evaluate;
    if i > 0 {
      assert forall j :: 0 <= j < i - 1 ==> args[1..][j] == args[j + 1];
      ArgumentsLaw(env, args[1..], i - 1);
    }
  }

  // ----- Statements -----

  /** An `if` is its block when the relation between the two numbers holds, and nothing otherwise. */
  lemma IfLaw<S>(program: Program<S>, active: set<string>, env: Env, l: Value, r: Value, block: Block<S>,
                 a: int, b: int)
    requires env != [] && !l.Quantity? && !r.Quantity? && Evaluate(env, l) == Ok(a) && Evaluate(env, r) == Ok(b)
    ensures var carriedOut, nothing := FlattenBlock(program, active, env, "", block, []), Trace([], None);
            && FlattenInsn(program, active, env, If(l, Eq, r, block)) == (if a == b then carriedOut else nothing)
            && FlattenInsn(program, active, env, If(l, Ne, r, block)) == (if a != b then carriedOut else nothing)
            && FlattenInsn(program, active, env, If(l, Lt, r, block)) == (if a < b then carriedOut else nothing)
            && FlattenInsn(program, active, env, If(l, Le, r, block)) == (if a <= b then carriedOut else nothing)
            && FlattenInsn(program, active, env, If(l, Gt, r, block)) == (if a > b then carriedOut else nothing)
            && FlattenInsn(program, active, env, If(l, Ge, r, block)) == (if a >= b then carriedOut else nothing)
  {
    hide FlattenBlock, Evaluate;
  }

  /** A node statement declares a node of the kind it says. */
  lemma NodeLaw<S>(program: Program<S>, active: set<string>, env: Env, name: string, flat: string, kind: string)
    requires env != [] && NodeName(env, name) == Ok(flat)
    ensures FlattenInsn(program, active, env, NewNode(name, "gpu")) == Trace([Node(flat, Gpu)], None)
    ensures FlattenInsn(program, active, env, NewNode(name, "switch")) == Trace([Node(flat, Switch)], None)
    ensures FlattenInsn(program, active, env, NewNode(name, "nvswitch")) == Trace([Node(flat, NVSwitch)], None)
    ensures kind !in ["gpu", "switch", "nvswitch"] ==>
              FlattenInsn(program, active, env, NewNode(name, kind)) == Trace([], Some(UnknownNodeType(kind)))
  {
    hide NodeName;
    var kinds := ["gpu", "switch", "nvswitch"];
    assert kinds[0] == "gpu" && kinds[1] == "switch" && kinds[2] == "nvswitch";
  }

  /** A link statement joins its ends in order, with the attributes it gives; only the MTU may be missing. */
  lemma LinkLaw<S>(program: Program<S>, active: set<string>, env: Env, src: seq<string>, dst: seq<string>,
                   attrs: map<string, Value>, s: string, d: string)
    requires env != [] && LinkEnds(env, src, dst) == Ok((s, d))
    ensures var t := FlattenInsn(program, active, env, NewLink(src, dst, attrs));
            if "latency" !in attrs then t == Trace([], Some(MissingKey("latency")))
            else if "bandwidth" !in attrs then t == Trace([], Some(MissingKey("bandwidth")))
            else
              && t.err == None && |t.ops| == 1 && t.ops[0].Link? && t.ops[0].src == s && t.ops[0].dst == d
              && t.ops[0].latency == attrs["latency"] && t.ops[0].bandwidth == attrs["bandwidth"]
              && ("mtu" in attrs ==> t.ops[0].mtu == Some(attrs["mtu"])) && ("mtu" !in attrs ==> t.ops[0].mtu == None)
  {
    hide LinkEnds;
  }

  /** An rdma statement sets its settings in order. */
  lemma {:induction false} SettingsLaw(env: Env, settings: seq<(string, Value)>)
    requires env != [] && forall i :: 0 <= i < |settings| ==> Evaluate(env, settings[i].1).Ok?
    ensures var t := FlattenRdma(env, settings);
            && t.err == None && |t.ops| == |settings|
            && forall i :: 0 <= i < |settings| ==> t.ops[i] == Rdma(settings[i].0, Evaluate(env, settings[i].1).value)
  {
    hide Evaluate;
    if settings != [] {
      assert forall i :: 0 <= i < |settings[1..]| ==> settings[1..][i] == settings[i + 1];
      SettingsLaw(env, settings[1..]);
    }
  }

  // ----- A loop with a condition -----

  const X_NODE: Block<()> := Block([], [NewNode("x{i}", "gpu")], ())

  function Guard(k: int): Insn<()> {
    If(Name("i"), Lt, Num(k), X_NODE)
  }

  function LoopBody(k: int): Block<()> {
    Block(["i"], [Guard(k)], ())
  }

  /** module main() { for i in (1, n) { if i < k { node x{i} type=gpu } } } */
  function Guarded(n: int, k: int): Program<()> {
    map["main" := Block([], [Loop("i", Num(1), Num(n), LoopBody(k))], ())]
  }

  const OUTSIDE: Env := [Frame(map[], "")]

  function Iteration(v: int): Env {
    [Frame(map["i" := v], "")] + OUTSIDE
  }

  function InGuard(v: int): Env {
    [Frame(map[], "")] + Iteration(v)
  }

  function XName(v: int): string {
    "x" + Str(v)
  }

  /** x1, ..., xm */
  function XNodes(m: nat): (ops: seq<Op>)
    ensures |ops| == m && forall i :: 0 <= i < m ==> ops[i] == Node(XName(i + 1), Gpu)
  {
    if m == 0 then [] else XNodes(m - 1) + [Node(XName(m), Gpu)]
  }

  function Last(n: int, k: int): nat {
    if n < 1 || k < 2 then 0 else if n < k then n else k - 1
  }

  lemma Templates()
    ensures Match("x{i}") == Some(Template("x", "i", "")) && Match("i") == None && Match("") == None
  {
    var s := "x{i}";
    assert Find(s, '{', 0) == Find(s, '{', 1) == Some(1);
    assert Find(s, '}', 2) == Find(s, '}', 3) == Some(3);
    assert s[..1] == "x" && s[2..3] == "i" && s[4..] == "";
    MatchExactly("i");
    MatchExactly("");
  }

  lemma ResolveX(v: int)
    ensures Resolve(InGuard(v), "x{i}") == Ok(XName(v))
  {
    Templates();
    var env := InGuard(v);
    assert env[1] == Frame(map["i" := v], "") && env[0] == Frame(map[], "");
    InnermostBinding(env, "i", 1);
    hide Match, Lookup;
    assert "x" + Str(v) + "" == XName(v);
  }

  lemma {:induction false} NoPrefixHere(env: Env)
    requires env != [] && forall i :: 0 <= i < |env| ==> env[i].prefix == ""
    ensures Prefix(env) == Ok("")
  {
    EmptyName(env);
    hide Resolve;
    if |env| > 1 {
      assert forall i :: 0 <= i < |env| - 1 ==> env[1..][i] == env[i + 1];
      NoPrefixHere(env[1..]);
    }
    assert "" + "" == "";
  }

  lemma EmptyName(env: Env)
    requires env != []
    ensures Resolve(env, "") == Ok("")
  {
    Templates();
    hide Match;
  }

  lemma XFlattens(n: int, k: int, v: int)
    ensures FlattenBlock(Guarded(n, k), {"main"}, Iteration(v), "", X_NODE, []) == Trace([Node(XName(v), Gpu)], None)
  {
    var env := InGuard(v);
    ResolveX(v);
    NoPrefixHere(env);
    assert NodeName(env, "x{i}") == Ok(XName(v)) by {
      hide Prefix, Resolve;
    }
    NodeLaw(Guarded(n, k), {"main"}, env, "x{i}", XName(v), "");
    OnlyInsn(Guarded(n, k), {"main"}, env, NewNode("x{i}", "gpu"));
    assert Bind([], []) == map[];
    hide FlattenInsns, FlattenInsn, NodeName, Bind;
  }

  lemma OnlyInsn(program: Program<()>, active: set<string>, env: Env, insn: Insn<()>)
    requires env != []
    ensures FlattenInsns(program, active, env, [insn]) == FlattenInsn(program, active, env, insn)
  {
    hide FlattenInsn;
    var t := FlattenInsn(program, active, env, insn);
    assert [insn][1..] == [] && t.ops + [] == t.ops;
  }

  /** One iteration declares x{v} exactly if v is below k. */
  lemma IterationFlattens(n: int, k: int, v: int)
    ensures FlattenBlock(Guarded(n, k), {"main"}, OUTSIDE, "", LoopBody(k), [v])
         == Trace(if v < k then [Node(XName(v), Gpu)] else [], None)
  {
    var env := Iteration(v);
    XFlattens(n, k, v);
    Templates();
    assert env[0] == Frame(map["i" := v], "");
    NameLaw(env, "i", 0);
    IfLaw(Guarded(n, k), {"main"}, env, Name("i"), Num(k), X_NODE, v, k);
    OnlyInsn(Guarded(n, k), {"main"}, env, Guard(k));
    assert Bind(["i"], [v]) == map["i" := v];
    hide FlattenInsns, FlattenInsn, Bind, Guarded;
  }

  lemma NextX(v: nat, rest: seq<Op>)
    requires v >= 1
    ensures XNodes(v - 1) + ([Node(XName(v), Gpu)] + rest) == XNodes(v) + rest
  {
    hide XName;
    assert XNodes(v) == XNodes(v - 1) + [Node(XName(v), Gpu)];
  }

  lemma LoopOnce(n: int, k: int, v: int)
    requires v <= n
    ensures FlattenLoop(Guarded(n, k), {"main"}, OUTSIDE, LoopBody(k), v, n)
         == Then(Trace(if v < k then [Node(XName(v), Gpu)] else [], None),
                 FlattenLoop(Guarded(n, k), {"main"}, OUTSIDE, LoopBody(k), v + 1, n))
  {
    hide FlattenBlock, Guarded, LoopBody, XName;
    IterationFlattens(n, k, v);
  }

  lemma {:induction false} LoopFlattens(n: int, k: int, v: int)
    requires v >= 1
    ensures var t := FlattenLoop(Guarded(n, k), {"main"}, OUTSIDE, LoopBody(k), v, n);
            && t.err == None
            && (v > Last(n, k) ==> t.ops == [])
            && (v <= Last(n, k) ==> XNodes(v - 1) + t.ops == XNodes(Last(n, k)))
    decreases n - v
  {
    hide FlattenBlock, Guarded, LoopBody, XNodes, XName;
    if v <= n {
      LoopOnce(n, k, v);
      LoopFlattens(n, k, v + 1);
      var rest := FlattenLoop(Guarded(n, k), {"main"}, OUTSIDE, LoopBody(k), v + 1, n).ops;
      hide FlattenLoop;
      NextX(v, rest);
      assert XNodes(v) + [] == XNodes(v) && [] + rest == rest;
    }
  }

  /** For all n and k the program declares x1, x2, ... up to n and below k, in this order, each once, as GPUs. */
  lemma GuardedFlattens(n: int, k: int)
    ensures FlattenProgram(Guarded(n, k)) == Trace(XNodes(Last(n, k)), None)
  {
    var loop: Insn<()> := Loop("i", Num(1), Num(n), LoopBody(k));
    LoopFlattens(n, k, 1);
    assert XNodes(0) == [];
    var t := FlattenLoop(Guarded(n, k), {"main"}, OUTSIDE, LoopBody(k), 1, n);
    assert [] + t.ops == t.ops;
    assert FlattenInsn(Guarded(n, k), {"main"}, OUTSIDE, loop) == t by {
      hide FlattenLoop;
    }
    OnlyInsn(Guarded(n, k), {"main"}, OUTSIDE, loop);
    assert Bind([], []) == map[] && [Frame(map[], "")] + [] == OUTSIDE;
    hide FlattenInsns, FlattenInsn, Bind, FlattenLoop;
  }

  /** The GPUs x1, ..., xm, numbered from 0, and no other. */
  ghost predicate ExactlyX(gpus: map<string, nat>, m: nat) {
    && (forall i :: 1 <= i <= m ==> XName(i) in gpus && gpus[XName(i)] == i - 1)
    && (forall name :: name in gpus ==> exists i :: 1 <= i <= m && name == XName(i))
  }

  lemma XNameInjective(i: int, j: int)
    requires XName(i) == XName(j)
    ensures i == j
  {
    assert XName(i)[1..] == Str(i) && XName(j)[1..] == Str(j);
    StrInjective(i, j);
  }

  lemma OneMoreX(gpus: map<string, nat>, m: nat)
    requires m >= 1 && ExactlyX(gpus, m - 1)
    ensures ExactlyX(gpus[XName(m) := m - 1], m)
  {
    forall i | 1 <= i < m
      ensures XName(i) != XName(m)
    {
      if XName(i) == XName(m) {
        XNameInjective(i, m);
      }
    }
    hide XName;
  }

  lemma {:induction false} XNodesDeclared(m: nat)
    ensures var s := Exec(INITIAL, XNodes(m));
            && ExactlyX(s.nodes.gpus, m) && s.nodes.gpuCounter == m && s.links == INITIAL.links
            && s.nodes.switches == map[] && s.nodes.nvswitches == map[]
            && s.nodes.switchCounter == 0 && s.nodes.nvswitchCounter == 0
  {
    hide XName;
    if m > 0 {
      var ops := XNodes(m);
      assert ops[..|ops| - 1] == XNodes(m - 1);
      XNodesDeclared(m - 1);
      OneMoreX(Exec(INITIAL, XNodes(m - 1)).nodes.gpus, m);
      hide ExactlyX;
    } else {
      assert ExactlyX(map[], 0);
    }
  }

  /** The law, on the generator itself. */
  method GenerateGuarded(n: int, k: int) returns (codegen: NS3CodeGenerator, err: Option<Error>)
    ensures err == None && fresh(codegen)
    ensures ExactlyX(codegen.gpus, Last(n, k)) && codegen.gpuCounter == Last(n, k)
    ensures codegen.switches == map[] && codegen.nvswitches == map[]
    ensures codegen.insns == [MakeGPUs(Last(n, k)), MakeRegSwitches(0), MakeNVSwitches(0)]
  {
    GuardedFlattens(n, k);
    XNodesDeclared(Last(n, k));
    GuardedFinish(Last(n, k));
    hide FlattenProgram, Guarded, ExactlyX, Exec, XNodes, Finish;
    var program, owners := Transform(Guarded(n, k));
    EraseFlatten(program);
    codegen := new NS3CodeGenerator(program, owners);
    err := codegen.Generate();
  }

  lemma GuardedFinish(m: nat)
    ensures Finish(Exec(INITIAL, XNodes(m))) == [MakeGPUs(m), MakeRegSwitches(0), MakeNVSwitches(0)]
  {
    XNodesDeclared(m);
    hide Exec, ExactlyX, XNodes;
    assert HelperInsns([], map[]) == [];
    hide HelperInsns;
    var makes := [MakeGPUs(m), MakeRegSwitches(0), MakeNVSwitches(0)];
    assert makes + [] + [] + [] == makes;
  }
}
