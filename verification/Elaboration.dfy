/** The program tree of transformer.py, and what it means: elaboration with a fresh environment for every
    instantiation, into the straight-line list of node, link and rdma statements it stands for. */
module Elaboration {
  import opened Wrappers
  import opened Scopes

  // ----- The program tree -----

  datatype Comparison = Eq | Ne | Lt | Le | Gt | Ge {
    predicate Holds(a: int, b: int) {
      match this
      case Eq => a == b
      case Ne => a != b
      case Lt => a < b
      case Le => a <= b
      case Gt => a > b
      case Ge => a >= b
    }
  }

  /** The settings of an rdma statement are the entries of a dictionary in their order, so that each name occurs once;
      what is proved holds for any list of entries. */
  datatype Insn<S> =
    | NewNode(name: string, kind: string)
    | NewLink(src: seq<string>, dst: seq<string>, attrs: map<string, Value>)
    | Submodule(name: string, moduleName: string, args: seq<Value>)
    | If(left: Value, cmp: Comparison, right: Value, trueBlock: Block<S>)
    | Loop(iteratorName: string, start: Value, end: Value, body: Block<S>)
    | RdmaConfig(settings: seq<(string, Value)>)

  /** A block's parameters and statements are fixed; its scope is the one mutable object it owns. What a program
      means does not depend on the scopes, so their type is left open. */
  datatype Block<S> = Block(params: seq<string>, insns: seq<Insn<S>>, scope: S)

  type Program<S> = map<string, Block<S>>

  // ----- The straight-line program -----

  datatype Kind = Gpu | Switch | NVSwitch

  datatype Op =
    | Node(name: string, kind: Kind)
    | Link(src: string, dst: string, latency: Value, bandwidth: Value, mtu: Option<Value>)
    | Rdma(name: string, value: int)

  /** The statements carried out, and the exception that ended them if there was one. */
  datatype Trace = Trace(ops: seq<Op>, err: Option<Error>)

  function Fail(e: Error): Trace {
    Trace([], Some(e))
  }

  /** b follows unless a has failed. */
  function Then(a: Trace, b: Trace): Trace {
    if a.err.Some? then a else Trace(a.ops + b.ops, b.err)
  }

  /** Carrying out one more piece of a sequence of pieces. */
  lemma ThenStep(done: seq<Op>, t: Trace, rest: Trace)
    ensures t.err == None ==> Then(Trace(done, None), Then(t, rest)) == Then(Trace(done + t.ops, None), rest)
    ensures t.err != None ==> Then(Trace(done, None), Then(t, rest)) == Trace(done + t.ops, t.err)
    ensures NeverReentered(Then(Trace(done, None), Then(t, rest))) ==> NeverReentered(t)
  {
    assert done + (t.ops + rest.ops) == done + t.ops + rest.ops;
  }

  // ----- Elaboration -----

  /** The binding of parameters to arguments; a repeated parameter keeps its last value. */
  function Bind(params: seq<string>, args: seq<int>): (m: map<string, int>)
    requires |params| == |args|
    ensures forall x :: x in m <==> x in params
  {
    if params == [] then map[]
    else
      var n := |params| - 1;
      assert params == params[..n] + [params[n]];
      Bind(params[..n], args[..n])[params[n] := args[n]]
  }

  /** Each parameter has its argument, a repeated one the last of its arguments; nothing else is bound. */
  lemma {:induction false} BindLast(params: seq<string>, args: seq<int>, i: nat)
    requires |params| == |args| && i < |params| && forall j :: i < j < |params| ==> params[j] != params[i]
    ensures Bind(params, args).Keys == set x | x in params
    ensures Bind(params, args)[params[i]] == args[i]
  {
    var n := |params| - 1;
    if i < n {
      BindLast(params[..n], args[..n], i);
      assert params == params[..n] + [params[n]];
    }
  }

  function ParseKind(kind: string): Option<Kind> {
    if kind == "gpu" then Some(Gpu)
    else if kind == "switch" then Some(Switch)
    else if kind == "nvswitch" then Some(NVSwitch)
    else None
  }

  /** The flat name of a node declared in this environment. */
  function NodeName(env: Env, name: string): Result<string>
    requires env != []
  {
    var prefix :- Prefix(env);
    var own :- Resolve(env, name);
    Ok(if prefix != "" then prefix + "_" + own else own)
  }

  function ResolveHead(env: Env, ref: seq<string>): Result<string>
    requires env != []
  {
    if ref == [] then Err(EmptyReference) else Resolve(env, ref[0])
  }

  /** What follows the first segment of a reference, each segment after an underscore. */
  function ResolveRest(env: Env, ref: seq<string>): Result<string>
    requires env != []
  {
    if ref == [] then Ok("")
    else
      var first :- Resolve(env, ref[0]);
      var rest :- ResolveRest(env, ref[1..]);
      Ok("_" + first + rest)
  }

  function FlattenNode(env: Env, name: string, kind: string): Trace
    requires env != []
  {
    match NodeName(env, name)
    case Err(e) => Fail(e)
    case Ok(flat) =>
      match ParseKind(kind)
      case None => Fail(UnknownNodeType(kind))
      case Some(k) => Trace([Node(flat, k)], None)
  }

  /** The flat names of both ends of a link, with the failures in the order in which the ends are resolved. */
  function LinkEnds(env: Env, src: seq<string>, dst: seq<string>): Result<(string, string)>
    requires env != []
  {
    var src0 :- ResolveHead(env, src);
    var dst0 :- ResolveHead(env, dst);
    var srcRest :- ResolveRest(env, src[1..]);
    var dstRest :- ResolveRest(env, dst[1..]);
    var prefix :- Prefix(env);
    var pre := if prefix != "" then prefix + "_" else "";
    Ok((pre + (src0 + srcRest), pre + (dst0 + dstRest)))
  }

  function FlattenLink(env: Env, src: seq<string>, dst: seq<string>, attrs: map<string, Value>): Trace
    requires env != []
  {
    match LinkEnds(env, src, dst)
    case Err(e) => Fail(e)
    case Ok((s, d)) =>
      if "latency" !in attrs then Fail(MissingKey("latency"))
      else if "bandwidth" !in attrs then Fail(MissingKey("bandwidth"))
      else
        var mtu := if "mtu" in attrs then Some(attrs["mtu"]) else None;
        Trace([Link(s, d, attrs["latency"], attrs["bandwidth"], mtu)], None)
  }

  function FlattenRdma(env: Env, settings: seq<(string, Value)>): Trace
    requires env != []
  {
    if settings == [] then Trace([], None)
    else
      match Evaluate(env, settings[0].1)
      case Err(e) => Fail(e)
      case Ok(v) => Then(Trace([Rdma(settings[0].0, v)], None), FlattenRdma(env, settings[1..]))
  }

  function EvaluateAll(env: Env, values: seq<Value>): (r: Result<seq<int>>)
    requires env != []
    ensures r.Ok? ==> |r.value| == |values|
  {
    if values == [] then Ok([])
    else
      var first :- Evaluate(env, values[0]);
      var rest :- EvaluateAll(env, values[1..]);
      Ok([first] + rest)
  }

  /** One instantiation of a block: a fresh frame on top of the environment of its user. `active` are the
      modules being instantiated. */
  function FlattenBlock<S>(program: Program<S>, active: set<string>, env: Env, prefix: string, b: Block<S>,
                           args: seq<int>): Trace
    decreases |program.Keys - active|, b, 0, 0
  {
    if |args| != |b.params| then Fail(ArityMismatch)
    else FlattenInsns(program, active, [Frame(Bind(b.params, args), prefix)] + env, b.insns)
  }

  function FlattenInsns<S>(program: Program<S>, active: set<string>, env: Env, insns: seq<Insn<S>>): Trace
    requires env != []
    decreases |program.Keys - active|, insns, 0, 0
  {
    if |insns| == 0 then Trace([], None)
    else Then(FlattenInsn(program, active, env, insns[0]), FlattenInsns(program, active, env, insns[1..]))
  }

  function FlattenInsn<S>(program: Program<S>, active: set<string>, env: Env, insn: Insn<S>): Trace
    requires env != []
    decreases |program.Keys - active|, insn, 0, 0
  {
    match insn
    case NewNode(name, kind) => FlattenNode(env, name, kind)
    case NewLink(src, dst, attrs) => FlattenLink(env, src, dst, attrs)
    case RdmaConfig(settings) => FlattenRdma(env, settings)
    case Submodule(name, moduleName, args) => FlattenUse(program, active, env, name, moduleName, args)
    case If(left, cmp, right, trueBlock) => FlattenIf(program, active, env, left, cmp, right, trueBlock)
    case Loop(_, start, end, body) => FlattenRange(program, active, env, start, end, body)
  }

  function FlattenUse<S>(program: Program<S>, active: set<string>, env: Env, name: string, moduleName: string,
                         args: seq<Value>): Trace
    requires env != []
    decreases |program.Keys - active|, args, 0, 0
  {
    if moduleName !in program then Fail(NoSuchModule(moduleName))
    else if moduleName in active then Fail(Reentered(moduleName))
    else
      match EvaluateAll(env, args)
      case Err(e) => Fail(e)
      case Ok(values) =>
        Shrinks(program.Keys, active, moduleName);
        FlattenBlock(program, active + {moduleName}, env, name, program[moduleName], values)
  }

  function FlattenIf<S>(program: Program<S>, active: set<string>, env: Env, left: Value, cmp: Comparison, right: Value,
                        trueBlock: Block<S>): Trace
    requires env != []
    decreases |program.Keys - active|, trueBlock, 1, 0
  {
    if left.Quantity? || right.Quantity? then Fail(UnitComparison)
    else
      match Evaluate(env, left)
      case Err(e) => Fail(e)
      case Ok(a) =>
        match Evaluate(env, right)
        case Err(e) => Fail(e)
        case Ok(b) => if cmp.Holds(a, b) then FlattenBlock(program, active, env, "", trueBlock, []) else Trace([], None)
  }

  function FlattenRange<S>(program: Program<S>, active: set<string>, env: Env, start: Value, end: Value,
                           body: Block<S>): Trace
    requires env != []
    decreases |program.Keys - active|, body, 2, 0
  {
    match Evaluate(env, start)
    case Err(e) => Fail(e)
    case Ok(i) =>
      match Evaluate(env, end)
      case Err(e) => Fail(e)
      case Ok(j) => FlattenLoop(program, active, env, body, i, j)
  }

  /** The iterations i, i + 1, ..., j. */
  function FlattenLoop<S>(program: Program<S>, active: set<string>, env: Env, body: Block<S>, i: int, j: int): Trace
    requires env != []
    decreases |program.Keys - active|, body, 1, j - i + 1
  {
    if i > j then Trace([], None)
    else Then(FlattenBlock(program, active, env, "", body, [i]), FlattenLoop(program, active, env, body, i + 1, j))
  }

  /** The whole program: the module "main", instantiated with nothing around it. */
  function FlattenProgram<S>(program: Program<S>): Trace {
    if "main" !in program then Fail(MissingKey("main"))
    else FlattenBlock(program, {"main"}, [], "", program["main"], [])
  }

  lemma Shrinks(keys: set<string>, active: set<string>, m: string)
    requires m in keys && m !in active
    ensures |keys - (active + {m})| < |keys - active|
  {
    assert keys - active == (keys - (active + {m})) + {m};
  }

  /** No module is used inside its own instantiation, in this run. */
  predicate NeverReentered(t: Trace) {
    !(t.err.Some? && t.err.value.Reentered?)
  }

  // ----- When no module is reentered -----

  /** Every use of a defined module below a block of rank r leads to a lower rank. */
  ghost predicate UsesBelow<S>(program: Program<S>, rank: map<string, nat>, r: nat, b: Block<S>)
    decreases b
  {
    forall i :: 0 <= i < |b.insns| ==> InsnUsesBelow(program, rank, r, b.insns[i])
  }

  ghost predicate InsnUsesBelow<S>(program: Program<S>, rank: map<string, nat>, r: nat, insn: Insn<S>)
    decreases insn
  {
    match insn
    case Submodule(_, n, _) => n in program ==> n in rank && rank[n] < r
    case If(_, _, _, trueBlock) => UsesBelow(program, rank, r, trueBlock)
    case Loop(_, _, _, body) => UsesBelow(program, rank, r, body)
    case _ => true
  }

  /** The module-use graph has no cycle: the modules can be ranked so that uses go down. */
  ghost predicate AcyclicUses<S>(program: Program<S>) {
    exists rank: map<string, nat> :: Ranked(program, rank)
  }

  ghost predicate Ranked<S>(program: Program<S>, rank: map<string, nat>) {
    forall n :: n in program ==> n in rank && UsesBelow(program, rank, rank[n], program[n])
  }

  ghost predicate ActiveAbove(rank: map<string, nat>, r: nat, active: set<string>) {
    forall a :: a in active && a in rank ==> rank[a] >= r
  }

  lemma {:induction false} BlockNotReentered<S>(program: Program<S>, rank: map<string, nat>, r: nat,
                                                active: set<string>, env: Env, prefix: string, b: Block<S>,
                                                args: seq<int>)
    requires Ranked(program, rank) && UsesBelow(program, rank, r, b) && ActiveAbove(rank, r, active)
    ensures NeverReentered(FlattenBlock(program, active, env, prefix, b, args))
    decreases |program.Keys - active|, b, 0, 0
  {
    if |args| == |b.params| {
      InsnsNotReentered(program, rank, r, active, [Frame(Bind(b.params, args), prefix)] + env, b.insns);
    }
  }

  lemma {:induction false} InsnsNotReentered<S>(program: Program<S>, rank: map<string, nat>, r: nat,
                                                active: set<string>, env: Env, insns: seq<Insn<S>>)
    requires env != [] && Ranked(program, rank) && ActiveAbove(rank, r, active)
    requires forall i :: 0 <= i < |insns| ==> InsnUsesBelow(program, rank, r, insns[i])
    ensures NeverReentered(FlattenInsns(program, active, env, insns))
    decreases |program.Keys - active|, insns, 0, 0
  {
    if |insns| > 0 {
      InsnNotReentered(program, rank, r, active, env, insns[0]);
      InsnsNotReentered(program, rank, r, active, env, insns[1..]);
    }
  }

  lemma {:induction false} InsnNotReentered<S>(program: Program<S>, rank: map<string, nat>, r: nat, active: set<string>,
                                            env: Env, insn: Insn<S>)
    requires env != [] && Ranked(program, rank) && ActiveAbove(rank, r, active)
    requires InsnUsesBelow(program, rank, r, insn)
    ensures NeverReentered(FlattenInsn(program, active, env, insn))
    decreases |program.Keys - active|, insn, 0, 0, 1
  {
    match insn
    case NewNode(name, kind) => StatementsNeverReenter(env, name, kind, [], [], map[], []);
    case NewLink(src, dst, attrs) => StatementsNeverReenter(env, "", "", src, dst, attrs, []);
    case RdmaConfig(settings) => StatementsNeverReenter(env, "", "", [], [], map[], settings);
    case Submodule(_, _, _) => UseNotReentered(program, rank, r, active, env, insn);
    case If(left, cmp, right, trueBlock) =>
      EvaluateNeverReenters(env, left);
      EvaluateNeverReenters(env, right);
      BlockNotReentered(program, rank, r, active, env, "", trueBlock, []);
    case Loop(_, start, end, body) =>
      EvaluateNeverReenters(env, start);
      EvaluateNeverReenters(env, end);
      if Evaluate(env, start).Ok? && Evaluate(env, end).Ok? {
        LoopNotReentered(program, rank, r, active, env, body, Evaluate(env, start).value, Evaluate(env, end).value);
      }
  }

  lemma {:induction false} UseNotReentered<S>(program: Program<S>, rank: map<string, nat>, r: nat, active: set<string>,
                                           env: Env, insn: Insn<S>)
    requires insn.Submodule?
    requires env != [] && Ranked(program, rank) && ActiveAbove(rank, r, active)
    requires InsnUsesBelow(program, rank, r, insn)
    ensures NeverReentered(FlattenInsn(program, active, env, insn))
    decreases |program.Keys - active|, insn, 0, 0, 0
  {
    var n := insn.moduleName;
    EvaluateAllNeverReenters(env, insn.args);
    if n in program && EvaluateAll(env, insn.args).Ok? {
      assert n !in active;
      Shrinks(program.Keys, active, n);
      var values := EvaluateAll(env, insn.args).value;
      BlockNotReentered(program, rank, rank[n], active + {n}, env, insn.name, program[n], values);
    }
  }

  lemma {:induction false} LoopNotReentered<S>(program: Program<S>, rank: map<string, nat>, r: nat, active: set<string>,
                                            env: Env, body: Block<S>, i: int, j: int)
    requires env != [] && Ranked(program, rank) && ActiveAbove(rank, r, active) && UsesBelow(program, rank, r, body)
    ensures NeverReentered(FlattenLoop(program, active, env, body, i, j))
    decreases |program.Keys - active|, body, 1, j - i + 1
  {
    if i <= j {
      BlockNotReentered(program, rank, r, active, env, "", body, [i]);
      LoopNotReentered(program, rank, r, active, env, body, i + 1, j);
    }
  }

  ghost predicate NotReentry<T>(r: Result<T>) {
    !(r.Err? && r.error.Reentered?)
  }

  lemma {:induction false} LookupNeverReenters(env: Env, name: string)
    requires env != []
    ensures NotReentry(Lookup(env, name)) && NotReentry(Resolve(env, name))
    decreases |env|, Rank(name)
  {
    if t: Template :| Match(name) == Some(t) {
      NoBraceNoMatch(t.variable);
      LookupNeverReenters(env, t.variable);
    }
    if |env| > 1 && Resolve(env, name).Ok? {
      LookupNeverReenters(env[1..], Resolve(env, name).value);
    }
  }

  lemma {:induction false} PrefixNeverReenters(env: Env)
    requires env != []
    ensures NotReentry(Prefix(env))
  {
    LookupNeverReenters(env, env[0].prefix);
    if |env| > 1 {
      PrefixNeverReenters(env[1..]);
    }
  }

  lemma {:induction false} EvaluateNeverReenters(env: Env, v: Value)
    requires env != []
    ensures NotReentry(Evaluate(env, v))
  {
    match v
    case Name(s) => LookupNeverReenters(env, StripBraces(s));
    case Expr(_, l, r) =>
      EvaluateNeverReenters(env, l);
      EvaluateNeverReenters(env, r);
    case _ =>
  }

  lemma {:induction false} EvaluateAllNeverReenters(env: Env, values: seq<Value>)
    requires env != []
    ensures NotReentry(EvaluateAll(env, values))
  {
    if values != [] {
      EvaluateNeverReenters(env, values[0]);
      EvaluateAllNeverReenters(env, values[1..]);
    }
  }

  lemma {:induction false} RestNeverReenters(env: Env, ref: seq<string>)
    requires env != []
    ensures NotReentry(ResolveRest(env, ref))
  {
    if ref != [] {
      LookupNeverReenters(env, ref[0]);
      RestNeverReenters(env, ref[1..]);
    }
  }

  lemma {:induction false} StatementsNeverReenter(env: Env, name: string, kind: string, src: seq<string>,
      dst: seq<string>, attrs: map<string, Value>, settings: seq<(string, Value)>)
    requires env != []
    ensures NeverReentered(FlattenNode(env, name, kind))
    ensures NeverReentered(FlattenLink(env, src, dst, attrs))
    ensures NeverReentered(FlattenRdma(env, settings))
  {
    PrefixNeverReenters(env);
    LookupNeverReenters(env, name);
    if src != [] {
      LookupNeverReenters(env, src[0]);
      RestNeverReenters(env, src[1..]);
    }
    if dst != [] {
      LookupNeverReenters(env, dst[0]);
      RestNeverReenters(env, dst[1..]);
    }
    if settings != [] {
      EvaluateNeverReenters(env, settings[0].1);
      StatementsNeverReenter(env, name, kind, src, dst, attrs, settings[1..]);
    }
  }

  /** A program whose module-use graph is acyclic never reenters a module. */
  lemma AcyclicNeverReenters<S>(program: Program<S>)
    requires AcyclicUses(program)
    ensures NeverReentered(FlattenProgram(program))
  {
    if "main" in program {
      var rank: map<string, nat> :| Ranked(program, rank);
      BlockNotReentered(program, rank, rank["main"], {"main"}, [], "", program["main"], []);
    }
  }
}
