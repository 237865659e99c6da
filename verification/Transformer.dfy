/** `TopoTransformer` of transformer.py, which gives every block a scope of its own, and the pipeline of main.py. */
module Transformer {
  import opened Wrappers
  import opened Scopes
  import opened Elaboration
  import opened Generation
  import opened CodeGenerator
  import opened Writer

  // ----- Arithmetic: `_fold_binop` -----

  /** A chain of operands is read from the left. */
  function Fold(first: Value, rest: seq<(Operator, Value)>): Value {
    if rest == [] then first
    else
      var n := |rest| - 1;
      Expr(rest[n].0, Fold(first, rest[..n]), rest[n].1)
  }

  /** The value of a chain: start with the first operand, then apply one operator after the other. */
  function LeftToRight(env: Env, acc: Result<int>, rest: seq<(Operator, Value)>): Result<int>
    requires env != []
    decreases rest
  {
    if rest == [] then acc
    else
      var a :- acc;
      var b :- Evaluate(env, rest[0].1);
      LeftToRight(env, Arithmetic(rest[0].0, a, b), rest[1..])
  }

  lemma {:induction false} OneMoreOperand(env: Env, acc: Result<int>, rest: seq<(Operator, Value)>, op: Operator,
                                          v: Value)
    requires env != []
    ensures var before := LeftToRight(env, acc, rest);
            LeftToRight(env, acc, rest + [(op, v)]) ==
              if before.Err? then before
              else if Evaluate(env, v).Err? then Err(Evaluate(env, v).error)
              else Arithmetic(op, before.value, Evaluate(env, v).value)
    decreases rest
  {
    if rest == [] {
      assert ([] + [(op, v)])[1..] == [];
    } else {
      assert (rest + [(op, v)])[1..] == rest[1..] + [(op, v)];
      if acc.Ok? && Evaluate(env, rest[0].1).Ok? {
        OneMoreOperand(env, Arithmetic(rest[0].0, acc.value, Evaluate(env, rest[0].1).value), rest[1..], op, v);
      }
    }
  }

  /** Operators of one precedence level associate to the left. */
  lemma {:induction false} FoldEvaluates(env: Env, first: Value, rest: seq<(Operator, Value)>)
    requires env != []
    ensures Evaluate(env, Fold(first, rest)) == LeftToRight(env, Evaluate(env, first), rest)
  {
    if rest != [] {
      var n := |rest| - 1;
      FoldEvaluates(env, first, rest[..n]);
      OneMoreOperand(env, Evaluate(env, first), rest[..n], rest[n].0, rest[n].1);
      assert rest == rest[..n] + [(rest[n].0, rest[n].1)];
    }
  }

  method FoldBinop(first: Value, rest: seq<(Operator, Value)>) returns (result: Value)
    ensures result == Fold(first, rest)
  {
    result := first;
    for i := 0 to |rest|
      invariant result == Fold(first, rest[..i])
    {
      assert rest[..i + 1][..i] == rest[..i];
      result := Expr(rest[i].0, result, rest[i].1);
    }
    assert rest[..|rest|] == rest;
  }

  // ----- Blocks: the parse tree and the same tree with scopes -----

  /** A block as parsed, before it has a scope. */
  type Parsed = Block<()>

  function EraseInsn<S>(insn: Insn<S>): Insn<()>
    decreases insn
  {
    match insn
    case NewNode(name, kind) => NewNode(name, kind)
    case NewLink(src, dst, attrs) => NewLink(src, dst, attrs)
    case Submodule(name, moduleName, args) => Submodule(name, moduleName, args)
    case If(left, cmp, right, trueBlock) => If(left, cmp, right, Erase(trueBlock))
    case Loop(iteratorName, start, end, body) => Loop(iteratorName, start, end, Erase(body))
    case RdmaConfig(settings) => RdmaConfig(settings)
  }

  function EraseAll<S>(insns: seq<Insn<S>>): (r: seq<Insn<()>>)
    ensures |r| == |insns| && forall i :: 0 <= i < |insns| ==> r[i] == EraseInsn(insns[i])
    decreases insns
  {
    if |insns| == 0 then [] else [EraseInsn(insns[0])] + EraseAll(insns[1..])
  }

  /** Forget the scopes. */
  function Erase<S>(b: Block<S>): Parsed
    decreases b
  {
    Block(b.params, EraseAll(b.insns), ())
  }

  function EraseProgram<S>(program: Program<S>): Program<()> {
    map n | n in program :: Erase(program[n])
  }

  /** What a program stands for does not depend on its scopes. */
  lemma {:induction false} EraseFlattenBlock<S>(program: Program<S>, active: set<string>, env: Env, prefix: string,
                                                b: Block<S>, args: seq<int>)
    ensures FlattenBlock(program, active, env, prefix, b, args)
         == FlattenBlock(EraseProgram(program), active, env, prefix, Erase(b), args)
    decreases |program.Keys - active|, b, 0, 0
  {
    if |args| == |b.params| {
      EraseFlattenInsns(program, active, [Frame(Bind(b.params, args), prefix)] + env, b.insns);
    }
  }

  lemma {:induction false} EraseFlattenInsns<S>(program: Program<S>, active: set<string>, env: Env, insns: seq<Insn<S>>)
    requires env != []
    ensures FlattenInsns(program, active, env, insns)
         == FlattenInsns(EraseProgram(program), active, env, EraseAll(insns))
    decreases |program.Keys - active|, insns, 0, 0
  {
    hide FlattenInsn;
    if |insns| > 0 {
      EraseFlattenInsn(program, active, env, insns[0]);
      EraseFlattenInsns(program, active, env, insns[1..]);
      assert EraseAll(insns)[1..] == EraseAll(insns[1..]);
    }
  }

  lemma {:induction false} EraseFlattenInsn<S>(program: Program<S>, active: set<string>, env: Env, insn: Insn<S>)
    requires env != []
    ensures FlattenInsn(program, active, env, insn) == FlattenInsn(EraseProgram(program), active, env, EraseInsn(insn))
    decreases |program.Keys - active|, insn, 0, 1
  {
    hide FlattenBlock, FlattenLoop, FlattenNode, FlattenLink, FlattenRdma, Evaluate, EvaluateAll;
    match insn
    case Submodule(_, _, _) => EraseSubmodule(program, active, env, insn);
    case If(_, _, _, _) => EraseIf(program, active, env, insn);
    case Loop(_, _, _, _) => EraseLoop(program, active, env, insn);
    case NewNode(_, _) =>
    case NewLink(_, _, _) =>
    case RdmaConfig(_) =>
  }

  lemma {:induction false} EraseSubmodule<S>(program: Program<S>, active: set<string>, env: Env, insn: Insn<S>)
    requires env != [] && insn.Submodule?
    ensures FlattenInsn(program, active, env, insn) == FlattenInsn(EraseProgram(program), active, env, EraseInsn(insn))
    decreases |program.Keys - active|, insn, 0, 0
  {
    hide FlattenBlock, FlattenLoop, FlattenNode, FlattenLink, FlattenRdma, Evaluate, EvaluateAll;
    var n := insn.moduleName;
    assert n in program <==> n in EraseProgram(program);
    if n in program && n !in active && EvaluateAll(env, insn.args).Ok? {
      Shrinks(program.Keys, active, n);
      EraseFlattenBlock(program, active + {n}, env, insn.name, program[n], EvaluateAll(env, insn.args).value);
    }
  }

  lemma {:induction false} EraseIf<S>(program: Program<S>, active: set<string>, env: Env, insn: Insn<S>)
    requires env != [] && insn.If?
    ensures FlattenInsn(program, active, env, insn) == FlattenInsn(EraseProgram(program), active, env, EraseInsn(insn))
    decreases |program.Keys - active|, insn, 0, 0
  {
    hide FlattenBlock, FlattenLoop, FlattenNode, FlattenLink, FlattenRdma, Evaluate, EvaluateAll, EraseProgram;
    EraseFlattenBlock(program, active, env, "", insn.trueBlock, []);
  }

  lemma {:induction false} EraseLoop<S>(program: Program<S>, active: set<string>, env: Env, insn: Insn<S>)
    requires env != [] && insn.Loop?
    ensures FlattenInsn(program, active, env, insn) == FlattenInsn(EraseProgram(program), active, env, EraseInsn(insn))
    decreases |program.Keys - active|, insn, 0, 0
  {
    hide FlattenBlock, FlattenLoop, FlattenNode, FlattenLink, FlattenRdma, Evaluate, EvaluateAll, EraseProgram;
    if Evaluate(env, insn.start).Ok? && Evaluate(env, insn.end).Ok? {
      EraseFlattenLoop(program, active, env, insn.body, Evaluate(env, insn.start).value, Evaluate(env, insn.end).value);
    }
  }

  lemma {:induction false} EraseFlattenLoop<S>(program: Program<S>, active: set<string>, env: Env, body: Block<S>,
                                               i: int, j: int)
    requires env != []
    ensures FlattenLoop(program, active, env, body, i, j)
         == FlattenLoop(EraseProgram(program), active, env, Erase(body), i, j)
    decreases |program.Keys - active|, body, 1, j - i + 1
  {
    hide FlattenBlock;
    if i <= j {
      EraseFlattenBlock(program, active, env, "", body, [i]);
      EraseFlattenLoop(program, active, env, body, i + 1, j);
    }
  }

  lemma EraseFlatten<S>(program: Program<S>)
    ensures FlattenProgram(program) == FlattenProgram(EraseProgram(program))
  {
    if "main" in program {
      EraseFlattenBlock(program, {"main"}, [], "", program["main"], []);
    }
  }

  // ----- Building blocks -----

  ghost predicate Pristine(owners: Owners)
    reads owners.Keys
  {
    forall s :: s in owners ==> s.parent == null && s.nameToVal == map[] && s.prefix == ""
  }

  ghost predicate Includes(small: Owners, large: Owners) {
    forall s :: s in small ==> s in large && large[s] == small[s]
  }

  lemma {:induction false} OwnedMonotone(small: Owners, large: Owners, b: Block<Scope>, m: string, path: seq<nat>)
    requires Includes(small, large) && Owned(small, b, m, path)
    ensures Owned(large, b, m, path)
    decreases b
  {
    forall i | 0 <= i < |b.insns|
      ensures OwnedInsn(large, b.insns[i], m, path + [i])
    {
      OwnedInsnMonotone(small, large, b.insns[i], m, path + [i]);
    }
  }

  lemma {:induction false} OwnedInsnMonotone(small: Owners, large: Owners, insn: Insn<Scope>, m: string, path: seq<nat>)
    requires Includes(small, large) && OwnedInsn(small, insn, m, path)
    ensures OwnedInsn(large, insn, m, path)
    decreases insn
  {
    match insn
    case If(_, _, _, trueBlock) => OwnedMonotone(small, large, trueBlock, m, path);
    case Loop(_, _, _, body) => OwnedMonotone(small, large, body, m, path);
    case _ =>
  }

  /** `Block(params, insns)`, with a new scope, after the blocks inside it. */
  method BuildBlock(t: Parsed, ghost m: string, ghost path: seq<nat>) returns (b: Block<Scope>, ghost owners: Owners)
    ensures Erase(b) == t
    ensures Owned(owners, b, m, path) && Pristine(owners) && fresh(owners.Keys)
    decreases t, 0
  {
    hide OwnedInsn, EraseInsn;
    var insns: seq<Insn<Scope>> := [];
    owners := map[];
    for i := 0 to |t.insns|
      invariant |insns| == i && forall k :: 0 <= k < i ==> EraseInsn(insns[k]) == t.insns[k]
      invariant forall k :: 0 <= k < i ==> OwnedInsn(owners, insns[k], m, path + [k])
      invariant Pristine(owners) && fresh(owners.Keys)
    {
      ghost var before := owners;
      var insn, o := BuildInsn(t.insns[i], m, path + [i]);
      owners := owners + o;
      assert Includes(before, owners) && Includes(o, owners);
      forall k | 0 <= k < i
        ensures OwnedInsn(owners, insns[k], m, path + [k])
      {
        OwnedInsnMonotone(before, owners, insns[k], m, path + [k]);
      }
      OwnedInsnMonotone(o, owners, insn, m, path + [i]);
      insns := insns + [insn];
    }
    ghost var before := owners;
    var scope := new Scope();
    b := Block(t.params, insns, scope);
    owners := owners[scope := Owner(m, path, ParamSet(b))];
    forall k | 0 <= k < |insns|
      ensures OwnedInsn(owners, insns[k], m, path + [k])
    {
      OwnedInsnMonotone(before, owners, insns[k], m, path + [k]);
    }
    assert EraseAll(insns) == t.insns && t.scope == ();
  }

  method BuildInsn(t: Insn<()>, ghost m: string, ghost path: seq<nat>) returns (insn: Insn<Scope>, ghost owners: Owners)
    ensures EraseInsn(insn) == t
    ensures OwnedInsn(owners, insn, m, path) && Pristine(owners) && fresh(owners.Keys)
    decreases t, 0
  {
    owners := map[];
    match t
    case NewNode(name, kind) => insn := NewNode(name, kind);
    case NewLink(src, dst, attrs) => insn := NewLink(src, dst, attrs);
    case Submodule(name, moduleName, args) => insn := Submodule(name, moduleName, args);
    case RdmaConfig(settings) => insn := RdmaConfig(settings);
    case If(left, cmp, right, trueBlock) =>
      var b, o := BuildBlock(trueBlock, m, path);
      insn, owners := If(left, cmp, right, b), o;
    case Loop(iteratorName, start, end, body) =>
      var b, o := BuildBlock(body, m, path);
      insn, owners := Loop(iteratorName, start, end, b), o;
  }

  /** `transform`: the dictionary from module names to blocks. */
  method Transform(tree: Program<()>) returns (program: Program<Scope>, ghost owners: Owners)
    ensures EraseProgram(program) == tree
    ensures OwnScopes(owners, program) && Pristine(owners) && fresh(owners.Keys)
  {
    hide Owned, Erase;
    program, owners := map[], map[];
    var names := tree.Keys;
    while names != {}
      invariant names <= tree.Keys && program.Keys == tree.Keys - names
      invariant forall n :: n in program ==> Erase(program[n]) == tree[n]
      invariant OwnScopes(owners, program) && Pristine(owners) && fresh(owners.Keys)
    {
      var n :| n in names;
      names := names - {n};
      ghost var before := owners;
      var b, o := BuildBlock(tree[n], n, []);
      owners := owners + o;
      assert Includes(before, owners) && Includes(o, owners);
      forall k | k in program
        ensures Owned(owners, program[k], k, [])
      {
        OwnedMonotone(before, owners, program[k], k, []);
      }
      OwnedMonotone(o, owners, b, n, []);
      program := program[n := b];
    }
  }

  // ----- The pipeline -----

  datatype Failure = GenerationError(e: Error) | WritingError(e': WriteError)

  datatype Compiled = Done(lines: seq<Stmt>) | Aborted(failure: Failure)

  /** main.py from the parse tree on. For every program that never reenters a module, the output is what the writer
      makes of the straight-line program that the parse tree stands for, or the failure of one of the two. */
  method Compile(tree: Program<()>) returns (r: Compiled)
    requires NeverReentered(FlattenProgram(tree))
    ensures var t := FlattenProgram(tree);
            var s := Exec(INITIAL, t.ops);
            match t.err
            case Some(e) => r == Aborted(GenerationError(e))
            case None =>
              match EmitAll(s.nodes, Finish(s))
              case Failed(e) => r == Aborted(WritingError(e))
              case Emitted(stmts) => r == Done(stmts)
    ensures r.Done? <==> FlattenProgram(tree).err == None && Writable(FlattenProgram(tree).ops)
  {
    var program, owners := Transform(tree);
    EraseFlatten(program);
    var codegen := new NS3CodeGenerator(program, owners);
    var err := codegen.Generate();
    ghost var t := FlattenProgram(tree);
    WriteSucceeds(t.ops);
    if err != None {
      return Aborted(GenerationError(err.value));
    }
    var writer := new NS3Writer(NodeTables(codegen.gpus, codegen.switches, codegen.nvswitches, codegen.gpuCounter,
                                           codegen.switchCounter, codegen.nvswitchCounter), codegen.insns);
    var failed := writer.Write();
    if failed != None {
      return Aborted(WritingError(failed.value));
    }
    return Done(writer.lines);
  }
}
