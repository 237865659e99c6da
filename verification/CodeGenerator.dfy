/** `NS3CodeGenerator` of ns3codegen.py: generation with the one mutable scope that each block owns, proved to
    have the effect of elaborating with fresh environments. */
module CodeGenerator {
  import opened Wrappers
  import opened Scopes
  import opened Elaboration
  import opened Generation

  /** Where the block that owns a scope stands: its module, the positions of the statements that lead to it, and
      its parameters. */
  datatype Owner = Owner(moduleName: string, path: seq<nat>, params: set<string>)

  type Owners = map<Scope, Owner>

  ghost function ParamSet(b: Block<Scope>): set<string> {
    set x | x in b.params
  }

  /** The block at this place and all blocks inside it own the scopes that `owners` says. */
  ghost predicate Owned(owners: Owners, b: Block<Scope>, m: string, path: seq<nat>)
    decreases b
  {
    && b.scope in owners && owners[b.scope] == Owner(m, path, ParamSet(b))
    && forall i :: 0 <= i < |b.insns| ==> OwnedInsn(owners, b.insns[i], m, path + [i])
  }

  ghost predicate OwnedInsn(owners: Owners, insn: Insn<Scope>, m: string, path: seq<nat>)
    decreases insn
  {
    match insn
    case If(_, _, _, trueBlock) => Owned(owners, trueBlock, m, path)
    case Loop(_, _, _, body) => Owned(owners, body, m, path)
    case _ => true
  }

  /** Each block has a scope of its own. */
  ghost predicate OwnScopes(owners: Owners, program: Program<Scope>) {
    forall m :: m in program ==> Owned(owners, program[m], m, [])
  }

  /** What a scope may hold between instantiations: leftovers for its block's own parameters only, and a node
      name prefix only if it belongs to a module. */
  ghost predicate Tidy(owners: Owners)
    reads owners.Keys
  {
    forall s :: s in owners ==>
      s.nameToVal.Keys <= owners[s].params && (owners[s].path != [] ==> s.prefix == "")
  }

  /** The scopes on the call stack belong to active modules, in this module to enclosing blocks. */
  ghost predicate OnStack(owners: Owners, active: set<string>, m: string, path: seq<nat>, chain: seq<Scope>) {
    && m in active
    && forall s :: s in chain ==>
      s in owners && owners[s].moduleName in active && (owners[s].moduleName == m ==> owners[s].path <= path)
  }

  twostate predicate Untouched(chain: seq<Scope>)
    reads chain
  {
    forall s :: s in chain ==> s.parent == old(s.parent) && s.nameToVal == old(s.nameToVal) && s.prefix == old(s.prefix)
  }

  twostate lemma UntouchedChain(chain: seq<Scope>)
    requires Untouched(chain)
    ensures EnvOf(chain) == old(EnvOf(chain))
    ensures IsChain(chain) == old(IsChain(chain))
  {
    if chain != [] {
      assert chain[0] in chain;
      UntouchedChain(chain[1..]);
    }
    assert forall i :: 0 <= i < |chain| ==> chain[i] in chain;
  }

  class NS3CodeGenerator {
    var gpus: map<string, nat>
    var switches: map<string, nat>
    var nvswitches: map<string, nat>
    var insns: seq<NS3Insn>
    var gpuCounter: nat
    var switchCounter: nat
    var nvswitchCounter: nat
    var linkHelpers: map<LinkAttr, nat>
    var helperOrder: seq<LinkAttr>
    var linkHelperCounter: nat
    var linkIdCounter: nat
    var hasQbbFabric: bool
    var rdmaAttrs: map<string, int>
    const modules: Program<Scope>
    ghost const owners: Owners

    ghost function State(): GenState
      reads this
    {
      GenState(NodeTables(gpus, switches, nvswitches, gpuCounter, switchCounter, nvswitchCounter), Links(), rdmaAttrs)
    }

    ghost function Links(): LinkTables
      reads this
    {
      LinkTables(linkHelpers, helperOrder, linkHelperCounter, insns, linkIdCounter, hasQbbFabric)
    }

    constructor (modules: Program<Scope>, ghost owners: Owners)
      ensures this.modules == modules && this.owners == owners && State() == INITIAL
    {
      gpus, switches, nvswitches, insns := map[], map[], map[], [];
      gpuCounter, switchCounter, nvswitchCounter := 0, 0, 0;
      linkHelpers, helperOrder, linkHelperCounter, linkIdCounter := map[], [], 0, 0;
      hasQbbFabric, rdmaAttrs := false, map[];
      this.modules, this.owners := modules, owners;
    }

    /** The first half of `GenNewNode`: the flat name. */
    method NameNode(scope: Scope, name: string, ghost chain: seq<Scope>) returns (r: Result<string>)
      requires IsChain(chain) && chain[0] == scope
      ensures r == NodeName(EnvOf(chain), name)
    {
      var prefix := scope.GetNodeNamePrefix(chain);
      if prefix.Err? {
        return prefix;
      }
      r := scope.ResolveNameWithVar(name, chain);
      if r.Ok? && prefix.value != "" {
        r := Ok(prefix.value + "_" + r.value);
      }
    }

    /** The second half of `GenNewNode`: the entry in the dictionary of its kind. */
    method DeclareNode(flat: string, kind: string) returns (err: Option<Error>)
      modifies this
      ensures ParseKind(kind).None? ==> err == Some(UnknownNodeType(kind)) && State() == old(State())
      ensures ParseKind(kind).Some? ==> err == None && State() == Apply(old(State()), Node(flat, ParseKind(kind).value))
    {
      if kind == "gpu" {
        gpus := gpus[flat := gpuCounter];
        gpuCounter := gpuCounter + 1;
      } else if kind == "switch" {
        switches := switches[flat := switchCounter];
        switchCounter := switchCounter + 1;
      } else if kind == "nvswitch" {
        nvswitches := nvswitches[flat := nvswitchCounter];
        nvswitchCounter := nvswitchCounter + 1;
      } else {
        return Some(UnknownNodeType(kind));
      }
      return None;
    }

    method GenNewNode(scope: Scope, name: string, kind: string, ghost chain: seq<Scope>) returns (err: Option<Error>)
      requires IsChain(chain) && chain[0] == scope
      modifies this
      ensures var t := FlattenNode(EnvOf(chain), name, kind);
              State() == Exec(old(State()), t.ops) && err == t.err
    {
      var flat := NameNode(scope, name, chain);
      if flat.Err? {
        return Some(flat.error);
      }
      ghost var before := State();
      err := DeclareNode(flat.value, kind);
      if err == None {
        ExecOne(before, Node(flat.value, ParseKind(kind).value));
      }
    }

    /** The loop that appends the segments of a reference after the first. */
    method ResolveSegments(scope: Scope, ref: seq<string>, head: string, ghost chain: seq<Scope>)
      returns (r: Result<string>)
      requires IsChain(chain) && chain[0] == scope && ref != []
      ensures var rest := ResolveRest(EnvOf(chain), ref[1..]);
              r == if rest.Ok? then Ok(head + rest.value) else rest
    {
      var text := head;
      ghost var env := EnvOf(chain);
      for i := 1 to |ref|
        invariant var all, rest := ResolveRest(env, ref[1..]), ResolveRest(env, ref[i..]);
                  if rest.Err? then all == rest else all.Ok? && head + all.value == text + rest.value
      {
        var segment := scope.ResolveNameWithVar(ref[i], chain);
        if segment.Err? {
          return segment;
        }
        ghost var rest := ResolveRest(env, ref[i + 1..]);
        assert ref[i..][1..] == ref[i + 1..];
        if rest.Ok? {
          assert text + ("_" + segment.value + rest.value) == text + ("_" + segment.value) + rest.value;
        }
        text := text + ("_" + segment.value);
      }
      assert ref[|ref|..] == [];
      assert text + "" == text;
      return Ok(text);
    }

    /** The first half of `GenNewLink`: the flat names of both ends. */
    method NameEnds(scope: Scope, src: seq<string>, dst: seq<string>, ghost chain: seq<Scope>)
      returns (r: Result<(string, string)>)
      requires IsChain(chain) && chain[0] == scope
      ensures r == LinkEnds(EnvOf(chain), src, dst)
    {
      if src == [] {
        return Err(EmptyReference);
      }
      var src0 := scope.ResolveNameWithVar(src[0], chain);
      if src0.Err? {
        return Err(src0.error);
      }
      if dst == [] {
        return Err(EmptyReference);
      }
      var dst0 := scope.ResolveNameWithVar(dst[0], chain);
      if dst0.Err? {
        return Err(dst0.error);
      }
      var s := ResolveSegments(scope, src, src0.value, chain);
      if s.Err? {
        return Err(s.error);
      }
      var d := ResolveSegments(scope, dst, dst0.value, chain);
      if d.Err? {
        return Err(d.error);
      }
      var pre := scope.GetNodeNamePrefix(chain);
      if pre.Err? {
        return Err(pre.error);
      }
      if pre.value != "" {
        return Ok((pre.value + "_" + s.value, pre.value + "_" + d.value));
      }
      assert "" + s.value == s.value && "" + d.value == d.value;
      return Ok((s.value, d.value));
    }

    /** The second half of `GenNewLink`: choose the type and the MTU, intern the helper, install the link. */
    method InstallBetween(src: string, dst: string, attrs: map<string, Value>) returns (err: Option<Error>)
      modifies this
      ensures "latency" !in attrs ==> err == Some(MissingKey("latency")) && State() == old(State())
      ensures "latency" in attrs && "bandwidth" !in attrs ==>
                err == Some(MissingKey("bandwidth")) && State() == old(State())
      ensures "latency" in attrs && "bandwidth" in attrs ==>
                var mtu := if "mtu" in attrs then Some(attrs["mtu"]) else None;
                err == None && State() == Apply(old(State()), Link(src, dst, attrs["latency"], attrs["bandwidth"], mtu))
    {
      var kind := if src in gpus && dst in gpus then P2P else Qbb;
      var mtu;
      if "mtu" in attrs {
        mtu := attrs["mtu"];
      } else if kind == Qbb {
        mtu := Num(if "Mtu" in rdmaAttrs then rdmaAttrs["Mtu"] else DEFAULT_MTU);
      } else {
        mtu := Num(DEFAULT_MTU);
      }
      if "latency" !in attrs {
        return Some(MissingKey("latency"));
      }
      if "bandwidth" !in attrs {
        return Some(MissingKey("bandwidth"));
      }
      var attr := LinkAttr(attrs["latency"], attrs["bandwidth"], mtu, kind);
      assert attr == AttrOf(State(), Link(src, dst, attrs["latency"], attrs["bandwidth"],
                                          if "mtu" in attrs then Some(attrs["mtu"]) else None));
      AppendLink(src, dst, attr);
      return None;
    }

    method AppendLink(src: string, dst: string, attr: LinkAttr)
      modifies this`linkHelpers, this`helperOrder, this`linkHelperCounter
      modifies this`linkIdCounter, this`insns, this`hasQbbFabric
      ensures Links() == AddLink(old(Links()), src, dst, attr)
    {
      if attr !in linkHelpers {
        linkHelpers := linkHelpers[attr := linkHelperCounter];
        helperOrder := helperOrder + [attr];
        linkHelperCounter := linkHelperCounter + 1;
      }
      assert Links() == Intern(old(Links()), attr);
      var linkId := linkIdCounter;
      linkIdCounter := linkIdCounter + 1;
      var helperId := linkHelpers[attr];
      insns := insns + [InstallLink(src, dst, helperId, linkId)];
      if attr.kind == Qbb {
        hasQbbFabric := true;
      }
    }

    method GenNewLink(scope: Scope, src: seq<string>, dst: seq<string>, attrs: map<string, Value>,
                      ghost chain: seq<Scope>)
      returns (err: Option<Error>)
      requires IsChain(chain) && chain[0] == scope
      modifies this
      ensures var t := FlattenLink(EnvOf(chain), src, dst, attrs);
              State() == Exec(old(State()), t.ops) && err == t.err
    {
      var ends := NameEnds(scope, src, dst, chain);
      if ends.Err? {
        return Some(ends.error);
      }
      ghost var before := State();
      err := InstallBetween(ends.value.0, ends.value.1, attrs);
      if err == None {
        ghost var mtu := if "mtu" in attrs then Some(attrs["mtu"]) else None;
        ExecOne(before, Link(ends.value.0, ends.value.1, attrs["latency"], attrs["bandwidth"], mtu));
      }
    }

    method GenRdmaConfig(scope: Scope, settings: seq<(string, Value)>, ghost chain: seq<Scope>)
      returns (err: Option<Error>)
      requires IsChain(chain) && chain[0] == scope
      modifies this
      ensures var t := FlattenRdma(EnvOf(chain), settings);
              State() == Exec(old(State()), t.ops) && err == t.err
    {
      ghost var done: seq<Op>, env := [], EnvOf(chain);
      for i := 0 to |settings|
        invariant State() == Exec(old(State()), done)
        invariant FlattenRdma(env, settings) == Then(Trace(done, None), FlattenRdma(env, settings[i..]))
      {
        var (name, value) := settings[i];
        assert settings[i..][1..] == settings[i + 1..];
        var v := scope.EvaluateHere(value, chain);
        if v.Err? {
          assert done + [] == done;
          return Some(v.error);
        }
        ghost var before := State();
        rdmaAttrs := rdmaAttrs[name := v.value];
        ExecOne(before, Rdma(name, v.value));
        ExecAppend(old(State()), done, [Rdma(name, v.value)]);
        done := done + [Rdma(name, v.value)];
      }
      assert done + [] == done;
      return None;
    }

    /** The arguments of a use, resolved one after the other up to the first failure. */
    method ResolveArgs(scope: Scope, args: seq<Value>, ghost chain: seq<Scope>) returns (r: Result<seq<int>>)
      requires IsChain(chain) && chain[0] == scope
      ensures r == EvaluateAll(EnvOf(chain), args)
    {
      var values: seq<int> := [];
      ghost var env := EnvOf(chain);
      for i := 0 to |args|
        invariant var all, rest := EvaluateAll(env, args), EvaluateAll(env, args[i..]);
                  if rest.Err? then all == rest else all.Ok? && all.value == values + rest.value
      {
        var v := scope.EvaluateHere(args[i], chain);
        if v.Err? {
          return Err(v.error);
        }
        assert args[i..][1..] == args[i + 1..];
        values := values + [v.value];
      }
      assert values + [] == values;
      return Ok(values);
    }

    /** Bind the parameters in the block's scope. Leftovers of an earlier instantiation are all overwritten. */
    method BindParams(scope: Scope, params: seq<string>, args: seq<int>)
      requires |args| == |params|
      requires forall x :: x in scope.nameToVal ==> x in params
      modifies scope`nameToVal
      ensures scope.nameToVal == Bind(params, args)
    {
      ghost var leftovers := scope.nameToVal;
      for i := 0 to |args|
        invariant scope.nameToVal == leftovers + Bind(params[..i], args[..i])
      {
        BindStep(leftovers, params, args, i);
        scope.SetNameToVal(params[i], args[i]);
      }
      assert params[..|args|] == params && args[..|args|] == args;
    }

    /** One instantiation. `chain` are the scopes around the block, already linked to its scope. */
    method GenerateModule(b: Block<Scope>, args: seq<int>, ghost m: string, ghost path: seq<nat>,
                          ghost active: set<string>, ghost chain: seq<Scope>)
      returns (err: Option<Error>)
      requires OwnScopes(owners, modules) && Owned(owners, b, m, path) && Tidy(owners)
      requires OnStack(owners, active, m, path, chain) && IsChain([b.scope] + chain)
      requires NeverReentered(FlattenBlock(modules, active, EnvOf(chain), b.scope.prefix, b, args))
      modifies this, owners.Keys
      ensures Tidy(owners) && Untouched(chain)
      ensures IsChain([b.scope] + chain) && b.scope.prefix == old(b.scope.prefix)
      ensures var t := old(FlattenBlock(modules, active, EnvOf(chain), b.scope.prefix, b, args));
              State() == Exec(old(State()), t.ops) && err == t.err
      decreases |modules.Keys - active|, b, 0
    {
      if |args| != |b.params| {
        return Some(ArityMismatch);
      }
      ghost var full := [b.scope] + chain;
      hide FlattenInsns, FlattenBlock, Exec, OnStack, Owned, OwnScopes, Tidy, EnvOf, Bind;
      BindArguments(b, args, m, path, chain);
      StackWithOwn(owners, active, b, m, path, chain);
      label bound:
      err := RunInsns(b, m, path, active, full);
      assert b.scope in full && forall s :: s in chain ==> s in full;
      UntouchedChain@bound(full);
    }

    /** Bind the parameters: afterwards the block's scope is the fresh frame. */
    method BindArguments(b: Block<Scope>, args: seq<int>, ghost m: string, ghost path: seq<nat>,
                         ghost chain: seq<Scope>)
      requires Tidy(owners) && Owned(owners, b, m, path) && IsChain([b.scope] + chain) && |args| == |b.params|
      modifies b.scope`nameToVal
      ensures Tidy(owners) && Untouched(chain) && IsChain([b.scope] + chain) && b.scope.prefix == old(b.scope.prefix)
      ensures EnvOf([b.scope] + chain) == [Frame(Bind(b.params, args), b.scope.prefix)] + old(EnvOf(chain))
    {
      hide Bind;
      HeadApart(b.scope, chain);
      assert forall x :: x in ParamSet(b) <==> x in b.params;
      BindParams(b.scope, b.params, args);
      assert Untouched(chain);
      UntouchedChain(chain);
      assert ([b.scope] + chain)[1..] == chain;
    }

    /** The loop over a block's statements. */
    method RunInsns(b: Block<Scope>, ghost m: string, ghost path: seq<nat>, ghost active: set<string>,
                    ghost full: seq<Scope>)
      returns (err: Option<Error>)
      requires OwnScopes(owners, modules) && Owned(owners, b, m, path) && Tidy(owners)
      requires OnStack(owners, active, m, path, full) && IsChain(full) && full[0] == b.scope
      requires NeverReentered(FlattenInsns(modules, active, EnvOf(full), b.insns))
      modifies this, owners.Keys
      ensures Tidy(owners) && Untouched(full)
      ensures var t := old(FlattenInsns(modules, active, EnvOf(full), b.insns));
              State() == Exec(old(State()), t.ops) && err == t.err
      decreases |modules.Keys - active|, b.insns, 0
    {
      hide FlattenInsn, Exec, OnStack, OwnScopes, Tidy, IsChain, EnvOf;
      ExecNone(State());
      ghost var env := EnvOf(full);
      ghost var done: seq<Op> := [];
      for i := 0 to |b.insns|
        invariant Tidy(owners) && IsChain(full) && EnvOf(full) == env && Untouched(full)
        invariant State() == Exec(old(State()), done)
        invariant FlattenInsns(modules, active, env, b.insns)
               == Then(Trace(done, None), FlattenInsns(modules, active, env, b.insns[i..]))
      {
        assert b.insns[i..][1..] == b.insns[i + 1..];
        ghost var t := FlattenInsn(modules, active, env, b.insns[i]);
        ThenStep(done, t, FlattenInsns(modules, active, env, b.insns[i + 1..]));
        err := GenerateInsn(b.scope, b.insns[i], m, path, i, active, full);
        UntouchedChain(full);
        ExecAppend(old(State()), done, t.ops);
        done := done + t.ops;
        if err != None {
          return;
        }
      }
      assert done + [] == done;
      return None;
    }

    /** The i-th statement of the block at `path`, in whose scope it runs. */
    method GenerateInsn(scope: Scope, insn: Insn<Scope>, ghost m: string, ghost path: seq<nat>, ghost i: nat,
                        ghost active: set<string>, ghost chain: seq<Scope>)
      returns (err: Option<Error>)
      requires OwnScopes(owners, modules) && OwnedInsn(owners, insn, m, path + [i]) && Tidy(owners)
      requires OnStack(owners, active, m, path, chain) && IsChain(chain) && chain[0] == scope
      requires NeverReentered(FlattenInsn(modules, active, EnvOf(chain), insn))
      modifies this, owners.Keys
      ensures Tidy(owners) && Untouched(chain)
      ensures var t := old(FlattenInsn(modules, active, EnvOf(chain), insn));
              State() == Exec(old(State()), t.ops) && err == t.err
      decreases |modules.Keys - active|, insn, 1
    {
      hide FlattenNode, FlattenLink, FlattenRdma, FlattenUse, FlattenIf, FlattenRange, Exec, OnStack, EnvOf;
      match insn
      case NewNode(name, kind) => err := GenNewNode(scope, name, kind, chain);
      case NewLink(src, dst, attrs) => err := GenNewLink(scope, src, dst, attrs, chain);
      case RdmaConfig(settings) => err := GenRdmaConfig(scope, settings, chain);
      case Submodule(name, moduleName, args) => err := GenSubmodule(scope, insn, m, path, active, chain);
      case If(left, cmp, right, trueBlock) => err := GenIf(scope, insn, m, path, i, active, chain);
      case Loop(_, start, end, body) => err := GenLoop(scope, insn, m, path, i, active, chain);
    }

    /** Put a module's scope under its user's scope, with the instance's name as prefix, and resolve the arguments. */
    method Enter(scope: Scope, parentScope: Scope, name: string, args: seq<Value>, ghost chain: seq<Scope>)
      returns (values: Result<seq<int>>)
      requires Tidy(owners) && scope in owners && owners[scope].path == []
      requires IsChain(chain) && chain[0] == parentScope && scope !in chain
      modifies scope`parent, scope`prefix
      ensures Tidy(owners) && Untouched(chain)
      ensures IsChain([scope] + chain) && scope.prefix == name && EnvOf(chain) == old(EnvOf(chain))
      ensures values == EvaluateAll(old(EnvOf(chain)), args)
    {
      scope.SetParent(parentScope, chain);
      scope.SetNodeNamePrefix(name);
      assert Untouched(chain);
      UntouchedChain(chain);
      values := ResolveArgs(parentScope, args, chain);
    }

    /** Put a nested block's scope under the enclosing one. */
    method AttachNested(scope: Scope, parentScope: Scope, ghost chain: seq<Scope>)
      requires Tidy(owners) && scope in owners && owners[scope].path != []
      requires IsChain(chain) && chain[0] == parentScope && scope !in chain
      modifies scope`parent
      ensures Tidy(owners) && Untouched(chain)
      ensures IsChain([scope] + chain) && scope.prefix == ""
      ensures IsChain(chain) && EnvOf(chain) == old(EnvOf(chain))
    {
      scope.SetParent(parentScope, chain);
      assert Untouched(chain);
      UntouchedChain(chain);
    }

    method GenSubmodule(parentScope: Scope, insn: Insn<Scope>, ghost m: string, ghost path: seq<nat>,
                        ghost active: set<string>, ghost chain: seq<Scope>)
      returns (err: Option<Error>)
      requires insn.Submodule?
      requires OwnScopes(owners, modules) && Tidy(owners)
      requires OnStack(owners, active, m, path, chain) && IsChain(chain) && chain[0] == parentScope
      requires NeverReentered(FlattenUse(modules, active, EnvOf(chain), insn.name, insn.moduleName, insn.args))
      modifies this, owners.Keys
      ensures Tidy(owners) && Untouched(chain)
      ensures var t := old(FlattenUse(modules, active, EnvOf(chain), insn.name, insn.moduleName, insn.args));
              State() == Exec(old(State()), t.ops) && err == t.err
      decreases |modules.Keys - active|, insn, 0
    {
      hide FlattenBlock, EvaluateAll, Exec, OnStack, Owned, OwnScopes, Tidy, IsChain, EnvOf;
      ExecNone(State());
      if insn.moduleName !in modules {
        return Some(NoSuchModule(insn.moduleName));
      }
      ghost var n := insn.moduleName;
      var b := modules[insn.moduleName];
      EnterModule(owners, modules, active, m, path, n, chain);
      var values := Enter(b.scope, parentScope, insn.name, insn.args, chain);
      if values.Err? {
        return Some(values.error);
      }
      Shrinks(modules.Keys, active, n);
      err := GenerateModule(b, values.value, n, [], active + {n}, chain);
    }

    method GenIf(parentScope: Scope, insn: Insn<Scope>, ghost m: string, ghost path: seq<nat>, ghost i: nat,
                 ghost active: set<string>, ghost chain: seq<Scope>)
      returns (err: Option<Error>)
      requires insn.If?
      requires OwnScopes(owners, modules) && OwnedInsn(owners, insn, m, path + [i]) && Tidy(owners)
      requires OnStack(owners, active, m, path, chain) && IsChain(chain) && chain[0] == parentScope
      requires NeverReentered(FlattenIf(modules, active, EnvOf(chain), insn.left, insn.cmp, insn.right, insn.trueBlock))
      modifies this, owners.Keys
      ensures Tidy(owners) && Untouched(chain)
      ensures var t := old(FlattenIf(modules, active, EnvOf(chain), insn.left, insn.cmp, insn.right, insn.trueBlock));
              State() == Exec(old(State()), t.ops) && err == t.err
      decreases |modules.Keys - active|, insn, 0
    {
      hide FlattenBlock, Evaluate, Exec, OnStack, Owned, OwnScopes, Tidy, IsChain, EnvOf;
      ExecNone(State());
      if insn.left.Quantity? || insn.right.Quantity? {
        return Some(UnitComparison);
      }
      var left := parentScope.EvaluateHere(insn.left, chain);
      if left.Err? {
        return Some(left.error);
      }
      var right := parentScope.EvaluateHere(insn.right, chain);
      if right.Err? {
        return Some(right.error);
      }
      if !insn.cmp.Holds(left.value, right.value) {
        return None;
      }
      var b := insn.trueBlock;
      NestedScope(owners, active, m, path, i, b, chain);
      AttachNested(b.scope, parentScope, chain);
      err := GenerateModule(b, [], m, path + [i], active, chain);
    }

    method GenLoop(parentScope: Scope, insn: Insn<Scope>, ghost m: string, ghost path: seq<nat>, ghost i: nat,
                   ghost active: set<string>, ghost chain: seq<Scope>)
      returns (err: Option<Error>)
      requires insn.Loop?
      requires OwnScopes(owners, modules) && OwnedInsn(owners, insn, m, path + [i]) && Tidy(owners)
      requires OnStack(owners, active, m, path, chain) && IsChain(chain) && chain[0] == parentScope
      requires NeverReentered(FlattenRange(modules, active, EnvOf(chain), insn.start, insn.end, insn.body))
      modifies this, owners.Keys
      ensures Tidy(owners) && Untouched(chain)
      ensures var t := old(FlattenRange(modules, active, EnvOf(chain), insn.start, insn.end, insn.body));
              State() == Exec(old(State()), t.ops) && err == t.err
      decreases |modules.Keys - active|, insn, 0
    {
      hide FlattenLoop, Evaluate, Exec, OnStack, Owned, OwnScopes, Tidy, IsChain, EnvOf;
      ExecNone(State());
      var start := parentScope.EvaluateHere(insn.start, chain);
      if start.Err? {
        return Some(start.error);
      }
      var end := parentScope.EvaluateHere(insn.end, chain);
      if end.Err? {
        return Some(end.error);
      }
      var b := insn.body;
      NestedScope(owners, active, m, path, i, b, chain);
      AttachNested(b.scope, parentScope, chain);
      err := Iterate(b, start.value, end.value, m, path + [i], active, chain);
    }

    /** The iterations of a loop, both bounds included, each with the loop's one scope. */
    method Iterate(b: Block<Scope>, start: int, end: int, ghost m: string, ghost path: seq<nat>,
                   ghost active: set<string>, ghost chain: seq<Scope>)
      returns (err: Option<Error>)
      requires OwnScopes(owners, modules) && Owned(owners, b, m, path) && Tidy(owners) && b.scope.prefix == ""
      requires OnStack(owners, active, m, path, chain) && IsChain([b.scope] + chain) && chain != []
      requires NeverReentered(FlattenLoop(modules, active, EnvOf(chain), b, start, end))
      modifies this, owners.Keys
      ensures Tidy(owners) && Untouched(chain)
      ensures var t := old(FlattenLoop(modules, active, EnvOf(chain), b, start, end));
              State() == Exec(old(State()), t.ops) && err == t.err
      decreases |modules.Keys - active|, b, 1
    {
      hide FlattenBlock, Exec, OnStack, OwnScopes, Owned, Tidy, IsChain, EnvOf;
      ExecNone(State());
      ghost var env := EnvOf(chain);
      ghost var done: seq<Op> := [];
      var k := start;
      while k < end + 1
        invariant Tidy(owners) && Untouched(chain) && EnvOf(chain) == env
        invariant IsChain([b.scope] + chain) && b.scope.prefix == ""
        invariant State() == Exec(old(State()), done)
        invariant FlattenLoop(modules, active, env, b, start, end)
               == Then(Trace(done, None), FlattenLoop(modules, active, env, b, k, end))
        decreases end + 1 - k
      {
        ghost var t := FlattenBlock(modules, active, env, "", b, [k]);
        ThenStep(done, t, FlattenLoop(modules, active, env, b, k + 1, end));
        err := GenerateModule(b, [k], m, path, active, chain);
        UntouchedChain(chain);
        ExecAppend(old(State()), done, t.ops);
        done := done + t.ops;
        if err != None {
          return;
        }
        k := k + 1;
      }
      assert done + [] == done;
      return None;
    }

    /** The loop over the interned helpers in `Generate`. */
    method DeclareHelpers(head: seq<NS3Insn>) returns (list: seq<NS3Insn>)
      requires forall a :: a in helperOrder ==> a in linkHelpers
      ensures list == head + HelperInsns(helperOrder, linkHelpers)
    {
      list := head;
      assert head + [] == head;
      for i := 0 to |helperOrder|
        invariant list == head + HelperInsns(helperOrder[..i], linkHelpers)
      {
        assert helperOrder[..i + 1][..i] == helperOrder[..i];
        list := list + [MakeLinkHelper(linkHelpers[helperOrder[i]], helperOrder[i])];
      }
      assert helperOrder[..|helperOrder|] == helperOrder;
    }

    /** On success the instructions are those that the straight-line program's final state finishes with, and every
        table is as in that state; on failure the same statements have been carried out and the same exception ends
        both. */
    method Generate() returns (err: Option<Error>)
      requires State() == INITIAL && OwnScopes(owners, modules)
      requires forall s :: s in owners ==> s.parent == null && s.nameToVal == map[] && s.prefix == ""
      requires NeverReentered(FlattenProgram(modules))
      modifies this, owners.Keys
      ensures var t := FlattenProgram(modules);
              var s := Exec(INITIAL, t.ops);
              && err == t.err
              && State() == if err == None then s.(links := s.links.(insns := Finish(s))) else s
    {
      if "main" !in modules {
        return Some(MissingKey("main"));
      }
      ghost var t := FlattenProgram(modules);
      ghost var b := modules["main"];
      assert Owned(owners, b, "main", []);
      assert IsChain([b.scope] + []);
      hide FlattenBlock, Exec, Inv, Finish, Owned, OwnScopes, IsChain;
      err := GenerateModule(modules["main"], [], "main", [], {"main"}, []);
      if err != None {
        return;
      }
      AlwaysInv(t.ops);
      Assemble();
    }

    /** The end of `Generate`: counts and helpers in front of the links, the fabric behind them. */
    method Assemble()
      requires Inv(State())
      modifies this`insns
      ensures State() == old(State()).(links := old(State()).links.(insns := Finish(old(State()))))
    {
      assert forall a :: a in helperOrder ==> a in linkHelpers;
      hide Inv, HelperInsns;
      var head := [MakeGPUs(gpuCounter), MakeRegSwitches(switchCounter), MakeNVSwitches(nvswitchCounter)];
      var list := DeclareHelpers(head);
      insns := list + insns;
      if hasQbbFabric {
        insns := insns + [BuildRdmaFabric(rdmaAttrs)];
      }
    }
  }

  /** A block's own scope belongs on the stack on which it runs. */
  lemma StackWithOwn(owners: Owners, active: set<string>, b: Block<Scope>, m: string, path: seq<nat>, chain: seq<Scope>)
    requires Owned(owners, b, m, path) && OnStack(owners, active, m, path, chain)
    ensures OnStack(owners, active, m, path, [b.scope] + chain)
  {
  }

  lemma HeadApart(scope: Scope, chain: seq<Scope>)
    requires IsChain([scope] + chain)
    ensures scope !in chain
  {
    if scope in chain {
      var j: nat :| j < |chain| && chain[j] == scope;
      ChainDistinct([scope] + chain, 0, j + 1);
    }
  }

  lemma BindStep(leftovers: map<string, int>, params: seq<string>, args: seq<int>, i: nat)
    requires |params| == |args| && i < |params|
    ensures leftovers + Bind(params[..i + 1], args[..i + 1])
         == (leftovers + Bind(params[..i], args[..i]))[params[i] := args[i]]
  {
    assert params[..i + 1][..i] == params[..i] && args[..i + 1][..i] == args[..i];
  }

  /** The scope of a module that is not active is not on the stack. */
  lemma EnterModule(owners: Owners, program: Program<Scope>, active: set<string>, m: string, path: seq<nat>, n: string,
                    chain: seq<Scope>)
    requires OwnScopes(owners, program) && n in program && OnStack(owners, active, m, path, chain) && n !in active
    ensures var scope := program[n].scope;
            && Owned(owners, program[n], n, []) && scope in owners && owners[scope].path == [] && scope !in chain
    ensures OnStack(owners, active + {n}, n, [], chain)
  {
    assert Owned(owners, program[n], n, []);
  }

  /** The scope of a nested block is on no enclosing block's place in the stack. */
  lemma NestedScope(owners: Owners, active: set<string>, m: string, path: seq<nat>, i: nat, b: Block<Scope>,
                    chain: seq<Scope>)
    requires Owned(owners, b, m, path + [i]) && OnStack(owners, active, m, path, chain)
    ensures b.scope !in chain && OnStack(owners, active, m, path + [i], chain)
    ensures b.scope in owners && owners[b.scope].path != []
  {
    assert !(path + [i] <= path);
    assert path <= path + [i];
  }

  lemma ExecNone(s: GenState)
    ensures Exec(s, []) == s
  {
  }

  lemma ExecOne(s: GenState, op: Op)
    ensures Exec(s, [op]) == Apply(s, op)
  {
    assert [op][..0] == [];
  }
}
