/** Two programs on which the compiler does not do what a reader would expect, evaluated from the parse tree on. */
module Counterexamples {
  import opened Wrappers
  import opened Text
  import opened Scopes
  import opened Elaboration
  import opened Generation
  import opened Writer

  const LINE: map<string, Value> := map["latency" := Quantity(1, "us"), "bandwidth" := Quantity(100, "Gbps")]

  function Line(src: string, dst: string): Op {
    Link(src, dst, Quantity(1, "us"), Quantity(100, "Gbps"), None)
  }

  lemma LineFlattens(env: Env, src: seq<string>, dst: seq<string>)
    requires env != [] && LinkEnds(env, src, dst).Ok?
    ensures var ends := LinkEnds(env, src, dst).value;
            FlattenLink(env, src, dst, LINE) == Trace([Line(ends.0, ends.1)], None)
  {
    hide LinkEnds;
    assert "latency" in LINE && "bandwidth" in LINE && "mtu" !in LINE;
  }

  lemma OneInsn<S>(program: Program<S>, active: set<string>, env: Env, insn: Insn<S>)
    requires env != []
    ensures FlattenInsns(program, active, env, [insn]) == FlattenInsn(program, active, env, insn)
  {
    hide FlattenInsn;
    var t := FlattenInsn(program, active, env, insn);
    assert [insn][1..] == [] && t.ops + [] == t.ops;
  }

  lemma MoreInsns<S>(program: Program<S>, active: set<string>, env: Env, first: Insn<S>, rest: seq<Insn<S>>)
    requires env != []
    ensures FlattenInsns(program, active, env, [first] + rest)
         == Then(FlattenInsn(program, active, env, first), FlattenInsns(program, active, env, rest))
  {
    hide FlattenInsn;
    assert ([first] + rest)[1..] == rest;
  }

  // ----- A captured variable -----

  /** module M(j) { node x type=gpu } */
  const INNER: Block<()> := Block(["j"], [NewNode("x", "gpu")], ())

  const USE: Insn<()> := Submodule("e{j}", "M", [Num(5)])

  const LOOPBACK: Insn<()> := NewLink(["e{j}", "x"], ["e{j}", "x"], LINE)

  /** use M(5) as e{j}; link e{j}.x e{j}.x */
  const BODY: Block<()> := Block(["j"], [USE, LOOPBACK], ())

  const REPEAT: Insn<()> := Loop("j", Num(1), Num(1), BODY)

  /** module main() { for j in (1, 1) { ... } } */
  const CAPTURING: Program<()> := map["main" := Block([], [REPEAT], ()), "M" := INNER]

  const MAIN_SCOPE: Env := [Frame(map[], "")]

  const LOOP_SCOPE: Env := [Frame(map["j" := 1], "")] + MAIN_SCOPE

  const INSTANCE: Env := [Frame(map["j" := 5], "e{j}")]

  lemma TemplateOfJ()
    ensures Match("e{j}") == Some(Template("e", "j", "")) && Match("j") == None
    ensures Match("a") == None && Match("b") == None && Match("x") == None && Match("") == None
  {
    var s := "e{j}";
    assert Find(s, '{', 0) == Find(s, '{', 1) == Some(1);
    assert Find(s, '}', 2) == Find(s, '}', 3) == Some(3);
    assert s[..1] == "e" && s[2..3] == "j" && s[4..] == "";
    MatchExactly("j");
    MatchExactly("a");
    MatchExactly("b");
    MatchExactly("x");
    MatchExactly("");
  }

  lemma ResolveJ(env: Env, n: int)
    requires env != [] && "j" in env[0].vals && env[0].vals["j"] == n && 0 <= n < 10
    ensures Resolve(env, "e{j}") == Ok("e" + [Digit(n)]) && Resolve(env, "x") == Ok("x") && Resolve(env, "") == Ok("")
  {
    TemplateOfJ();
    hide Match;
    assert Lookup(env, "j") == Ok(n);
    assert Str(n) == [Digit(n)];
    assert "e" + [Digit(n)] + "" == "e" + [Digit(n)];
  }

  lemma NoPrefix(env: Env)
    requires env != [] && env[0].prefix == "" && Resolve(env, "") == Ok("")
    requires |env| > 1 ==> Prefix(env[1..]) == Ok("")
    ensures Prefix(env) == Ok("")
  {
    hide Resolve;
    assert "" + "" == "";
  }

  lemma LoopPrefix()
    ensures Prefix(MAIN_SCOPE) == Ok("") && Prefix(LOOP_SCOPE) == Ok("")
  {
    TemplateOfJ();
    ResolveJ(LOOP_SCOPE, 1);
    assert LOOP_SCOPE[1..] == MAIN_SCOPE;
    hide Match, Prefix;
    NoPrefix(MAIN_SCOPE);
    NoPrefix(LOOP_SCOPE);
  }

  /** Inside the instance its name is e5: the module's own parameter is found first. */
  lemma CapturedInside()
    ensures NodeName(INSTANCE + LOOP_SCOPE, "x") == Ok("e5_x")
  {
    var env := INSTANCE + LOOP_SCOPE;
    assert env[1..] == LOOP_SCOPE;
    ResolveJ(env, 5);
    LoopPrefix();
    hide Resolve, Lookup, Match;
    assert "" + "e5" == "e5" && "e" + [Digit(5)] == "e5";
    assert Prefix(env) == Ok("e5");
    assert "e5" + "_" + "x" == "e5_x";
  }

  lemma LoopRest()
    ensures ResolveRest(LOOP_SCOPE, ["x"]) == Ok("_x")
  {
    ResolveJ(LOOP_SCOPE, 1);
    hide Resolve;
    assert ["x"][1..] == [] && ["x"][0] == "x";
    assert ResolveRest(LOOP_SCOPE, []) == Ok("");
    assert "_" + "x" + "" == "_x";
  }

  /** Outside it is e1: the loop variable is found. */
  lemma CapturedOutside()
    ensures LinkEnds(LOOP_SCOPE, ["e{j}", "x"], ["e{j}", "x"]) == Ok(("e1_x", "e1_x"))
  {
    var ref := ["e{j}", "x"];
    ResolveJ(LOOP_SCOPE, 1);
    LoopRest();
    LoopPrefix();
    hide Resolve, ResolveRest, Prefix;
    assert ref[1..] == ["x"] && ref[0] == "e{j}";
    assert "e" + [Digit(1)] == "e1";
    assert ResolveHead(LOOP_SCOPE, ref) == Ok("e1");
    hide ResolveHead;
    assert "" + ("e1" + "_x") == "e1_x";
  }

  lemma UseFlattens()
    ensures FlattenInsn(CAPTURING, {"main"}, LOOP_SCOPE, USE) == Trace([Node("e5_x", Gpu)], None)
  {
    CapturedInside();
    var inside := {"main"} + {"M"};
    var env := INSTANCE + LOOP_SCOPE;
    assert Bind(["j"], [5]) == map["j" := 5];
    assert FlattenInsn(CAPTURING, inside, env, NewNode("x", "gpu")) == Trace([Node("e5_x", Gpu)], None);
    OneInsn(CAPTURING, inside, env, NewNode("x", "gpu"));
    assert FlattenBlock(CAPTURING, inside, LOOP_SCOPE, "e{j}", INNER, [5]) == Trace([Node("e5_x", Gpu)], None);
    hide FlattenBlock, FlattenInsns, Bind;
    assert EvaluateAll(LOOP_SCOPE, [Num(5)]) == Ok([5]) by {
      assert [Num(5)][1..] == [] && EvaluateAll(LOOP_SCOPE, []) == Ok([]);
      assert Evaluate(LOOP_SCOPE, [Num(5)][0]) == Ok(5) && [5] + [] == [5];
    }
  }

  const CAPTURED_OPS := [Node("e5_x", Gpu), Line("e1_x", "e1_x")]

  lemma BodyFlattens()
    ensures FlattenBlock(CAPTURING, {"main"}, MAIN_SCOPE, "", BODY, [1]) == Trace(CAPTURED_OPS, None)
  {
    UseFlattens();
    CapturedOutside();
    LineFlattens(LOOP_SCOPE, ["e{j}", "x"], ["e{j}", "x"]);
    assert FlattenInsn(CAPTURING, {"main"}, LOOP_SCOPE, LOOPBACK) == Trace([Line("e1_x", "e1_x")], None);
    OneInsn(CAPTURING, {"main"}, LOOP_SCOPE, LOOPBACK);
    MoreInsns(CAPTURING, {"main"}, LOOP_SCOPE, USE, [LOOPBACK]);
    assert [USE] + [LOOPBACK] == BODY.insns;
    assert Bind(["j"], [1]) == map["j" := 1];
    hide FlattenInsns, FlattenInsn, Bind;
    assert [Node("e5_x", Gpu)] + [Line("e1_x", "e1_x")] == CAPTURED_OPS;
  }

  lemma RepeatFlattens()
    ensures FlattenInsn(CAPTURING, {"main"}, MAIN_SCOPE, REPEAT) == Trace(CAPTURED_OPS, None)
  {
    BodyFlattens();
    hide FlattenBlock;
    assert FlattenLoop(CAPTURING, {"main"}, MAIN_SCOPE, BODY, 2, 1) == Trace([], None);
    assert CAPTURED_OPS + [] == CAPTURED_OPS;
    assert FlattenLoop(CAPTURING, {"main"}, MAIN_SCOPE, BODY, 1, 1) == Trace(CAPTURED_OPS, None);
    hide FlattenLoop;
  }

  /** A loop uses M(5) as e{j}, and j is M's own parameter: the node is declared as e5_x, the link beside it goes to
      e1_x, and the writer finds no such node. */
  lemma CapturedVariable()
    ensures FlattenProgram(CAPTURING) == Trace(CAPTURED_OPS, None)
    ensures !Writable(CAPTURED_OPS)
  {
    RepeatFlattens();
    OneInsn(CAPTURING, {"main"}, MAIN_SCOPE, REPEAT);
    assert Bind([], []) == map[];
    assert [Frame(map[], "")] + [] == MAIN_SCOPE;
    hide FlattenInsns, FlattenInsn, Bind;
    assert CAPTURED_OPS[1] == Line("e1_x", "e1_x");
    assert "e1_x"[1] != "e5_x"[1];
    assert !DeclaredSomehow(CAPTURED_OPS, "e1_x");
  }

  // ----- GPUs declared after the link -----

  /** module main() { link a b; node a type=gpu; node b type=gpu } */
  const LATE: Program<()> :=
    map["main" := Block([], [NewLink(["a"], ["b"], LINE)] + [NewNode("a", "gpu"), NewNode("b", "gpu")], ())]

  const LATE_OPS := [Line("a", "b"), Node("a", Gpu), Node("b", Gpu)]

  lemma PlainName(env: Env, name: string)
    requires env != [] && Match(name) == None && Prefix(env) == Ok("")
    ensures NodeName(env, name) == Ok(name) && ResolveHead(env, [name]) == Ok(name)
  {
  }

  lemma LateFlattens()
    ensures FlattenProgram(LATE) == Trace(LATE_OPS, None)
  {
    var env := MAIN_SCOPE;
    TemplateOfJ();
    LoopPrefix();
    PlainName(env, "a");
    PlainName(env, "b");
    assert LinkEnds(env, ["a"], ["b"]) == Ok(("a", "b")) by {
      hide ResolveHead, Prefix, NodeName;
      assert ["a"][1..] == [] && ["b"][1..] == [] && ResolveRest(env, []) == Ok("");
      assert "" + ("a" + "") == "a" && "" + ("b" + "") == "b";
    }
    LineFlattens(env, ["a"], ["b"]);
    hide LinkEnds, NodeName, FlattenLink;
    assert FlattenInsn(LATE, {"main"}, env, NewNode("a", "gpu")) == Trace([Node("a", Gpu)], None);
    assert FlattenInsn(LATE, {"main"}, env, NewNode("b", "gpu")) == Trace([Node("b", Gpu)], None);
    assert FlattenInsn(LATE, {"main"}, env, NewLink(["a"], ["b"], LINE)) == Trace([Line("a", "b")], None);
    LateBlock(env);
  }

  lemma LateBlock(env: Env)
    requires env == MAIN_SCOPE
    requires FlattenInsn(LATE, {"main"}, env, NewNode("a", "gpu")) == Trace([Node("a", Gpu)], None)
    requires FlattenInsn(LATE, {"main"}, env, NewNode("b", "gpu")) == Trace([Node("b", Gpu)], None)
    requires FlattenInsn(LATE, {"main"}, env, NewLink(["a"], ["b"], LINE)) == Trace([Line("a", "b")], None)
    ensures FlattenProgram(LATE) == Trace(LATE_OPS, None)
  {
    var link, a, b: Insn<()> := NewLink(["a"], ["b"], LINE), NewNode("a", "gpu"), NewNode("b", "gpu");
    OneInsn(LATE, {"main"}, env, b);
    MoreInsns(LATE, {"main"}, env, a, [b]);
    MoreInsns(LATE, {"main"}, env, link, [a, b]);
    assert [a] + [b] == [a, b];
    assert Bind([], []) == map[] && [Frame(map[], "")] + [] == MAIN_SCOPE;
    hide FlattenInsns, FlattenInsn, Bind;
    assert [Node("a", Gpu)] + [Node("b", Gpu)] == [Node("a", Gpu), Node("b", Gpu)];
    assert [Line("a", "b")] + [Node("a", Gpu), Node("b", Gpu)] == LATE_OPS;
  }

  /** A link stands before its two GPUs: the program is written without an error, the generator types the link "qbb",
      and the writer wires its ends as peers all the same. */
  lemma LateGpus()
    ensures FlattenProgram(LATE) == Trace(LATE_OPS, None) && Writable(LATE_OPS)
    ensures !GpusDeclaredInTime(LATE_OPS, 0) && AttrOf(Before(LATE_OPS, 0), LATE_OPS[0]).kind == Qbb
    ensures Wires(Emit(Exec(INITIAL, LATE_OPS).nodes, LinkInsn(LATE_OPS, 0)))
  {
    LateFlattens();
    LateDeclared();
    assert LATE_OPS[0] == Line("a", "b") && LATE_OPS[..0] == [];
    hide FlattenProgram, Exec, Emit, Declared, Wires, Writable;
    LinkAttributes(LATE_OPS, 0);
    PassesAgree(LATE_OPS, 0);
  }

  lemma LateDeclared()
    ensures Declared(LATE_OPS, "a", Gpu) && Declared(LATE_OPS, "b", Gpu) && !Declared([], "a", Gpu)
    ensures Writable(LATE_OPS)
  {
    var ops := LATE_OPS;
    assert ops[0] == Line("a", "b") && ops[1] == Node("a", Gpu) && ops[2] == Node("b", Gpu);
    assert Declared(ops, "a", Gpu) && Declared(ops, "b", Gpu);
    hide Declared, PairText;
    assert PairText(ops[0].latency).Some? && PairText(ops[0].bandwidth).Some? by {
      QuantityPair(1, "us");
      QuantityPair(100, "Gbps");
    }
    assert forall j :: 0 <= j < 3 && ops[j].Link? ==> j == 0;
  }

  lemma QuantityPair(n: int, unit: string)
    ensures PairText(Quantity(n, unit)).Some?
  {
  }
}
