/** What a complete output of the writer holds, from the first statement to the last. */
module WholeOutput {
  import opened Wrappers
  import opened Text
  import opened Scopes
  import opened Elaboration
  import opened Generation
  import opened Writer

  // ----- Which instruction writes what -----

  lemma {:induction false} EmitAllConcat(n: NodeTables, a: seq<NS3Insn>, b: seq<NS3Insn>)
    requires EmitAll(n, a + b).Emitted?
    ensures EmitAll(n, a).Emitted? && EmitAll(n, b).Emitted?
    ensures EmitAll(n, a + b).stmts == EmitAll(n, a).stmts + EmitAll(n, b).stmts
  {
    hide Emit;
    if a == [] {
      assert [] + b == b && [] + EmitAll(n, b).stmts == EmitAll(n, b).stmts;
    } else {
      assert (a + b)[1..] == a[1..] + b;
      EmitAllConcat(n, a[1..], b);
      var first, rest := Emit(n, a[0]).stmts, EmitAll(n, a[1..]).stmts;
      assert first + (rest + EmitAll(n, b).stmts) == (first + rest) + EmitAll(n, b).stmts;
    }
  }

  /** The k-th instruction writes s. */
  ghost predicate WrittenBy(n: NodeTables, insns: seq<NS3Insn>, k: nat, s: Stmt) {
    k < |insns| && Emit(n, insns[k]).Emitted? && s in Emit(n, insns[k]).stmts
  }

  ghost predicate Written(n: NodeTables, insns: seq<NS3Insn>, s: Stmt) {
    exists k: nat :: WrittenBy(n, insns, k, s)
  }

  lemma {:induction false} WrittenExactly(n: NodeTables, insns: seq<NS3Insn>, s: Stmt)
    requires EmitAll(n, insns).Emitted?
    ensures s in EmitAll(n, insns).stmts <==> Written(n, insns, s)
  {
    hide Emit;
    if insns != [] {
      WrittenExactly(n, insns[1..], s);
      if Written(n, insns[1..], s) {
        var k: nat :| WrittenBy(n, insns[1..], k, s);
        assert WrittenBy(n, insns, k + 1, s);
      }
      if s in Emit(n, insns[0]).stmts {
        assert WrittenBy(n, insns, 0, s);
      }
      if Written(n, insns, s) && s !in Emit(n, insns[0]).stmts {
        var k: nat :| WrittenBy(n, insns, k, s);
        assert WrittenBy(n, insns[1..], k - 1, s);
      }
    }
  }

  // ----- Nodes and helpers are there before they are used -----

  /** How many nodes these statements create in a container. */
  function Created(stmts: seq<Stmt>, container: Kind): nat {
    if stmts == [] then 0
    else
      var s := stmts[0];
      Created(stmts[1..], container) + if s.CreateNodes? && s.container == container then s.count else 0
  }

  lemma {:induction false} CreatedConcat(a: seq<Stmt>, b: seq<Stmt>, container: Kind)
    ensures Created(a + b, container) == Created(a, container) + Created(b, container)
  {
    if a == [] {
      assert [] + b == b;
    } else {
      assert (a + b)[1..] == a[1..] + b;
      CreatedConcat(a[1..], b, container);
    }
  }

  lemma {:induction false} NoneCreated(stmts: seq<Stmt>, container: Kind)
    requires forall s :: s in stmts ==> !s.CreateNodes?
    ensures Created(stmts, container) == 0
  {
    if stmts != [] {
      NoneCreated(stmts[1..], container);
    }
  }

  lemma CreatedByOne(kind: Kind, k: nat, container: Kind)
    ensures Created(EmitNodes(kind, k), container) == if kind == container then k else 0
  {
    if k > 0 {
      assert [CreateNodes(kind, k)][1..] == [];
    }
  }

  function MakeInsns(n: NodeTables): seq<NS3Insn> {
    [MakeGPUs(n.gpuCounter), MakeRegSwitches(n.switchCounter), MakeNVSwitches(n.nvswitchCounter)]
  }

  lemma MakesCreate(n: NodeTables, container: Kind)
    ensures EmitAll(n, MakeInsns(n)).Emitted?
    ensures Created(EmitAll(n, MakeInsns(n)).stmts, container) == CounterOf(n, container)
    ensures forall s :: s in EmitAll(n, MakeInsns(n)).stmts ==> s.CreateNodes?
  {
    var a, b := EmitNodes(Gpu, n.gpuCounter), EmitNodes(Switch, n.switchCounter);
    var c := EmitNodes(NVSwitch, n.nvswitchCounter);
    ThreeInsns(n, MakeInsns(n), a, b, c);
    CreatedByOne(Gpu, n.gpuCounter, container);
    CreatedByOne(Switch, n.switchCounter, container);
    CreatedByOne(NVSwitch, n.nvswitchCounter, container);
    hide Created, EmitAll;
    CreatedConcat(b, c, container);
    CreatedConcat(a, b + c, container);
  }

  lemma ThreeInsns(n: NodeTables, insns: seq<NS3Insn>, a: seq<Stmt>, b: seq<Stmt>, c: seq<Stmt>)
    requires |insns| == 3
    requires Emit(n, insns[0]) == Emitted(a) && Emit(n, insns[1]) == Emitted(b) && Emit(n, insns[2]) == Emitted(c)
    ensures EmitAll(n, insns) == Emitted(a + (b + c))
  {
    hide Emit;
    assert insns[1..][0] == insns[1] && insns[1..][1..] == insns[2..];
    assert insns[2..][0] == insns[2] && insns[2..][1..] == [];
    assert EmitAll(n, []) == Emitted([]) && c + [] == c;
    assert EmitAll(n, insns[2..]) == Emitted(c);
    assert EmitAll(n, insns[1..]) == Emitted(b + c);
  }

  /** Only node creations and helper declarations. */
  ghost predicate Setup(stmts: seq<Stmt>) {
    forall s :: s in stmts ==> s.CreateNodes? || s.DeclareHelper?
  }

  /** Helper h is declared. */
  ghost predicate Declares(stmts: seq<Stmt>, h: nat) {
    exists s :: s in stmts && s.DeclareHelper? && s.id == h
  }

  lemma HelpersOnlyDeclare(n: NodeTables, links: LinkTables, s: Stmt)
    requires Interned(links)
    requires EmitAll(n, HelperInsns(links.helperOrder, links.helpers)).Emitted?
    requires s in EmitAll(n, HelperInsns(links.helperOrder, links.helpers)).stmts
    ensures s.DeclareHelper?
  {
    var insns := HelperInsns(links.helperOrder, links.helpers);
    HelperInsnsAt(links.helperOrder, links.helpers);
    hide EmitAll, HelperInsns;
    WrittenExactly(n, insns, s);
    var k: nat :| WrittenBy(n, insns, k, s);
  }

  lemma HelperDeclared(n: NodeTables, links: LinkTables, h: nat)
    requires Interned(links) && h < |links.helperOrder|
    requires EmitAll(n, HelperInsns(links.helperOrder, links.helpers)).Emitted?
    ensures Declares(EmitAll(n, HelperInsns(links.helperOrder, links.helpers)).stmts, h)
  {
    var insns := HelperInsns(links.helperOrder, links.helpers);
    HelperInsnsAt(links.helperOrder, links.helpers);
    assert insns[h] == MakeLinkHelper(h, links.helperOrder[h]);
    hide EmitAll, HelperInsns, Interned;
    EmitAllSucceeds(n, insns);
    var s := Emit(n, insns[h]).stmts[0];
    assert WrittenBy(n, insns, h, s);
    WrittenExactly(n, insns, s);
  }

  /** An install statement refers to nodes that exist and a helper that has been declared. */
  ghost predicate Grounded(front: seq<Stmt>, s: Stmt) {
    s.Install? ==>
      && s.src.index < Created(front, s.src.container) && s.dst.index < Created(front, s.dst.container)
      && Declares(front, s.helper)
  }

  function FrontOf(g: GenState): seq<NS3Insn> {
    MakeInsns(g.nodes) + HelperInsns(g.links.helperOrder, g.links.helpers)
  }

  function TailOf(g: GenState): seq<NS3Insn> {
    g.links.insns + if g.links.hasQbbFabric then [BuildRdmaFabric(g.rdmaAttrs)] else []
  }

  lemma FrontAndTail(g: GenState)
    ensures Finish(g) == FrontOf(g) + TailOf(g)
  {
    hide HelperInsns;
  }

  lemma FrontGood(g: GenState)
    requires Inv(g) && EmitAll(g.nodes, FrontOf(g)).Emitted?
    ensures var front := EmitAll(g.nodes, FrontOf(g)).stmts;
            && Setup(front)
            && (forall kind :: Created(front, kind) == CounterOf(g.nodes, kind))
            && (forall h: nat :: h < |g.links.helperOrder| ==> Declares(front, h))
  {
    var n, helpers := g.nodes, HelperInsns(g.links.helperOrder, g.links.helpers);
    InternedOf(g);
    hide EmitAll, Created, Inv, Interned, HelperInsns, MakeInsns, CounterOf;
    EmitAllConcat(n, MakeInsns(n), helpers);
    var makes, declared := EmitAll(n, MakeInsns(n)).stmts, EmitAll(n, helpers).stmts;
    MakesCreate(n, Gpu);
    forall s | s in declared
      ensures s.DeclareHelper?
    {
      HelpersOnlyDeclare(n, g.links, s);
    }
    forall kind: Kind
      ensures Created(makes + declared, kind) == CounterOf(n, kind)
    {
      MakesCreate(n, kind);
      NoneCreated(declared, kind);
      CreatedConcat(makes, declared, kind);
    }
    forall h: nat | h < |g.links.helperOrder|
      ensures Declares(makes + declared, h)
    {
      HelperDeclared(n, g.links, h);
    }
  }

  /** A complete output is a front part that creates exactly the declared nodes and declares the helpers, and a rest
      that does neither and in which every install statement finds its two nodes and its helper in the front. */
  lemma OutputGrounded(ops: seq<Op>) returns (front: seq<Stmt>, rest: seq<Stmt>)
    requires var s := Exec(INITIAL, ops); EmitAll(s.nodes, Finish(s)).Emitted?
    ensures var s := Exec(INITIAL, ops); EmitAll(s.nodes, Finish(s)).stmts == front + rest
    ensures Setup(front) && forall kind :: Created(front, kind) == Count(ops, kind)
    ensures forall s :: s in rest ==> !s.CreateNodes? && !s.DeclareHelper? && Grounded(front, s)
  {
    var g := Exec(INITIAL, ops);
    AlwaysInv(ops);
    KindCount(ops);
    hide *;
    FrontAndTail(g);
    EmitAllConcat(g.nodes, FrontOf(g), TailOf(g));
    front, rest := EmitAll(g.nodes, FrontOf(g)).stmts, EmitAll(g.nodes, TailOf(g)).stmts;
    FrontGood(g);
    forall t | t in rest
      ensures !t.CreateNodes? && !t.DeclareHelper? && Grounded(front, t)
    {
      RestGrounded(ops, t, front);
    }
  }

  lemma KindCount(ops: seq<Op>)
    ensures forall kind :: CounterOf(Exec(INITIAL, ops).nodes, kind) == Count(ops, kind)
  {
    CountersCount(INITIAL, ops);
    hide Exec, Count;
  }

  lemma RestGrounded(ops: seq<Op>, t: Stmt, front: seq<Stmt>)
    requires var g := Exec(INITIAL, ops);
             && EmitAll(g.nodes, TailOf(g)).Emitted? && t in EmitAll(g.nodes, TailOf(g)).stmts
             && (forall kind :: Created(front, kind) == CounterOf(g.nodes, kind))
             && (forall h: nat :: h < |g.links.helperOrder| ==> Declares(front, h))
    ensures !t.CreateNodes? && !t.DeclareHelper? && Grounded(front, t)
  {
    var g := Exec(INITIAL, ops);
    hide Exec, EmitAll, Created, Declares, CounterOf, Emit, Grounded;
    WrittenExactly(g.nodes, TailOf(g), t);
    var k: nat :| WrittenBy(g.nodes, TailOf(g), k, t);
    TailGrounded(ops, TailOf(g)[k], t, front);
  }

  lemma TailGrounded(ops: seq<Op>, insn: NS3Insn, t: Stmt, front: seq<Stmt>)
    requires var s := Exec(INITIAL, ops);
             && (insn in s.links.insns || insn == BuildRdmaFabric(s.rdmaAttrs))
             && Emit(s.nodes, insn).Emitted? && t in Emit(s.nodes, insn).stmts
             && (forall kind :: Created(front, kind) == CounterOf(s.nodes, kind))
             && (forall h: nat :: h < |s.links.helperOrder| ==> Declares(front, h))
    ensures !t.CreateNodes? && !t.DeclareHelper? && Grounded(front, t)
  {
    var s := Exec(INITIAL, ops);
    AlwaysInv(ops);
    InternedOf(s);
    if insn in s.links.insns {
      NodeExprsSound(ops, insn.src, insn.src);
      NodeExprsSound(ops, insn.dst, insn.dst);
    }
    hide Exec, Created, Declares, Inv;
  }

  // ----- Peer wiring -----

  lemma {:induction false} NoRepetition(list: seq<Stmt>, s: Stmt)
    requires forall i, j :: 0 <= i < j < |list| ==> list[i] != list[j]
    ensures multiset(list)[s] <= 1
  {
    if list != [] {
      NoRepetition(list[1..], s);
      assert list == [list[0]] + list[1..];
      if list[0] == s {
        assert s !in list[1..];
        assert s !in multiset(list[1..]);
      }
    }
  }

  /** A statement that at most one instruction writes, and that one at most once, is written at most once. */
  lemma {:induction false} WrittenOnce(n: NodeTables, insns: seq<NS3Insn>, s: Stmt)
    requires EmitAll(n, insns).Emitted?
    requires forall j: nat, k: nat :: WrittenBy(n, insns, j, s) && WrittenBy(n, insns, k, s) ==> j == k
    requires forall k :: 0 <= k < |insns| && Emit(n, insns[k]).Emitted? ==> multiset(Emit(n, insns[k]).stmts)[s] <= 1
    ensures multiset(EmitAll(n, insns).stmts)[s] <= 1
  {
    hide Emit;
    if insns != [] {
      var first, rest := Emit(n, insns[0]).stmts, EmitAll(n, insns[1..]).stmts;
      WrittenExactly(n, insns[1..], s);
      forall k: nat | WrittenBy(n, insns[1..], k, s)
        ensures WrittenBy(n, insns, k + 1, s)
      {
      }
      WrittenOnce(n, insns[1..], s);
      if s in first {
        assert WrittenBy(n, insns, 0, s);
        assert s !in rest && s !in multiset(rest);
      } else {
        assert s !in multiset(first);
      }
      assert multiset(first + rest)[s] == multiset(first)[s] + multiset(rest)[s];
    }
  }

  /** In a complete output a peer statement is there exactly if it belongs to an end of a link between two GPUs, and
      it is there only once. */
  lemma OutputWiring(ops: seq<Op>, s: Stmt)
    requires var g := Exec(INITIAL, ops); EmitAll(g.nodes, Finish(g)).Emitted?
    requires IsWiring(s)
    ensures var g := Exec(INITIAL, ops);
            var stmts := EmitAll(g.nodes, Finish(g)).stmts;
            (s in stmts <==> WiresSomeLink(g, s)) && multiset(stmts)[s] <= 1
  {
    var g := Exec(INITIAL, ops);
    AlwaysInv(ops);
    hide *;
    EmitAllSucceeds(g.nodes, Finish(g));
    WrittenExactly(g.nodes, Finish(g), s);
    if Written(g.nodes, Finish(g), s) {
      WiringFromLink(g, s);
    }
    if WiresSomeLink(g, s) {
      WiringForLink(g, s);
    }
    forall j: nat, k: nat | WrittenBy(g.nodes, Finish(g), j, s) && WrittenBy(g.nodes, Finish(g), k, s)
      ensures j == k
    {
      OneLinkWires(g, s, j, k);
    }
    forall k | 0 <= k < |Finish(g)| && Emit(g.nodes, Finish(g)[k]).Emitted?
      ensures multiset(Emit(g.nodes, Finish(g)[k]).stmts)[s] <= 1
    {
      WiredOnce(g.nodes, Finish(g)[k], s);
    }
    WrittenOnce(g.nodes, Finish(g), s);
  }

  lemma OneLinkWires(g: GenState, s: Stmt, j: nat, k: nat)
    requires Inv(g) && IsWiring(s) && WrittenBy(g.nodes, Finish(g), j, s) && WrittenBy(g.nodes, Finish(g), k, s)
    ensures j == k
  {
    InternedOf(g);
    hide Finish, Inv, Emit;
    OnlyLinksWire(g.nodes, Finish(g)[j], s);
    OnlyLinksWire(g.nodes, Finish(g)[k], s);
    LinkPlace(g, j);
    LinkPlace(g, k);
  }

  lemma WiredOnce(n: NodeTables, insn: NS3Insn, s: Stmt)
    requires IsWiring(s) && Emit(n, insn).Emitted?
    ensures multiset(Emit(n, insn).stmts)[s] <= 1
  {
    hide PeerWiring, Wired;
    var stmts := Emit(n, insn).stmts;
    if insn.InstallLink? {
      var src, dst := ResolveNode(n, insn.src).value, ResolveNode(n, insn.dst).value;
      var list := PeerWiring(src, dst, insn.helper, insn.linkId);
      forall i, j | 0 <= i < j < |list|
        ensures list[i] != list[j]
      {
        WiringOnce(src, dst, insn.helper, insn.linkId, i, j);
      }
      NoRepetition(list, s);
      OnlyTheRest(Install(insn.helper, insn.linkId, src, dst), list, s);
    } else {
      OnlyLinksWire(n, insn, s);
      assert s !in multiset(stmts);
    }
  }

  lemma OnlyTheRest(first: Stmt, rest: seq<Stmt>, s: Stmt)
    requires s != first
    ensures multiset([first] + rest)[s] == multiset(rest)[s] && multiset([first] + [])[s] == 0
  {
    assert multiset([first])[s] == 0;
    assert [first] + [] == [first];
  }

  lemma LinkPlace(g: GenState, k: nat)
    requires Inv(g) && k < |Finish(g)| && Finish(g)[k].InstallLink?
    ensures var h := |g.links.helperOrder|;
            3 + h <= k < 3 + h + |g.links.insns| && Finish(g)[k] == g.links.insns[k - 3 - h]
  {
    hide Finish, Inv, FabricNeeded;
    FinishShape(g);
  }

  lemma WiringFromLink(g: GenState, s: Stmt)
    requires Inv(g) && IsWiring(s) && Written(g.nodes, Finish(g), s)
    ensures WiresSomeLink(g, s)
  {
    hide Finish, Inv, Emit, Wired;
    var list := Finish(g);
    var k: nat :| WrittenBy(g.nodes, list, k, s);
    OnlyLinksWire(g.nodes, list[k], s);
    LinkPlace(g, k);
    assert WiresLink(g, k - 3 - |g.links.helperOrder|, s);
  }

  lemma WiringForLink(g: GenState, s: Stmt)
    requires Inv(g) && IsWiring(s) && WiresSomeLink(g, s)
    requires forall i :: 0 <= i < |Finish(g)| ==> Emit(g.nodes, Finish(g)[i]).Emitted?
    ensures Written(g.nodes, Finish(g), s)
  {
    var list, h := Finish(g), |g.links.helperOrder|;
    FinishShape(g);
    var k: nat :| WiresLink(g, k, s);
    hide Finish, Inv, FabricNeeded, Emit, PeerWiring, Wired;
    assert list[3 + h + k] == g.links.insns[k];
    OnlyLinksWire(g.nodes, list[3 + h + k], s);
    assert WrittenBy(g.nodes, list, 3 + h + k, s);
  }

  /** s is one of the peer statements of the k-th link, which joins two GPUs. */
  ghost predicate WiresLink(g: GenState, k: nat, s: Stmt) {
    && k < |g.links.insns| && g.links.insns[k].InstallLink?
    && var insn := g.links.insns[k];
       && insn.src in g.nodes.gpus && insn.dst in g.nodes.gpus
       && Wired(s, Get(Gpu, g.nodes.gpus[insn.src]), Get(Gpu, g.nodes.gpus[insn.dst]), insn.helper, insn.linkId)
  }

  ghost predicate WiresSomeLink(g: GenState, s: Stmt) {
    exists k: nat :: WiresLink(g, k, s)
  }

  lemma OnlyLinksWire(n: NodeTables, insn: NS3Insn, s: Stmt)
    requires IsWiring(s) && Emit(n, insn).Emitted?
    ensures s in Emit(n, insn).stmts <==>
            && insn.InstallLink? && insn.src in n.gpus && insn.dst in n.gpus
            && Wired(s, Get(Gpu, n.gpus[insn.src]), Get(Gpu, n.gpus[insn.dst]), insn.helper, insn.linkId)
  {
    hide PeerWiring, Wired;
    if insn.InstallLink? {
      var src, dst := ResolveNode(n, insn.src).value, ResolveNode(n, insn.dst).value;
      WiringExact(src, dst, insn.helper, insn.linkId, s);
      InstallFirst(Install(insn.helper, insn.linkId, src, dst), PeerWiring(src, dst, insn.helper, insn.linkId), s);
    }
  }

  lemma InstallFirst(first: Stmt, rest: seq<Stmt>, s: Stmt)
    requires s != first
    ensures s in [first] + rest <==> s in rest
    ensures s !in [first] + []
  {
  }

  // ----- What each link becomes -----

  /** The expression stands for the node of this name: its place in its container is the number it was given. */
  ghost predicate NodeAt(n: NodeTables, e: NodeExpr, name: string) {
    match e.container
    case Gpu => name in n.gpus && n.gpus[name] == e.index
    case Switch => name in n.switches && n.switches[name] == e.index
    case NVSwitch => name in n.nvswitches && n.nvswitches[name] == e.index
  }

  lemma ResolvedAt(n: NodeTables, name: string)
    requires ResolveNode(n, name).Some?
    ensures NodeAt(n, ResolveNode(n, name).value, name)
  {
  }

  lemma OnlyLinksInstall(n: NodeTables, insn: NS3Insn, s: Stmt)
    requires s.Install? && Emit(n, insn).Emitted?
    ensures s in Emit(n, insn).stmts <==>
            && insn.InstallLink? && s.helper == insn.helper && s.link == insn.linkId
            && ResolveNode(n, insn.src) == Some(s.src) && ResolveNode(n, insn.dst) == Some(s.dst)
    ensures multiset(Emit(n, insn).stmts)[s] <= 1
  {
    if insn.InstallLink? {
      var src, dst := ResolveNode(n, insn.src).value, ResolveNode(n, insn.dst).value;
      hide PeerWiring, ResolveNode;
      PeersAreNoInstall(src, dst, insn.helper, insn.linkId, s);
      InstallCount(Install(insn.helper, insn.linkId, src, dst), PeerWiring(src, dst, insn.helper, insn.linkId), s);
    } else {
      OthersInstallNothing(n, insn, s);
    }
  }

  lemma PeersAreNoInstall(src: NodeExpr, dst: NodeExpr, helper: nat, link: nat, s: Stmt)
    requires s.Install?
    ensures s !in PeerWiring(src, dst, helper, link)
  {
  }

  lemma OthersInstallNothing(n: NodeTables, insn: NS3Insn, s: Stmt)
    requires s.Install? && !insn.InstallLink? && Emit(n, insn).Emitted?
    ensures s !in Emit(n, insn).stmts && s !in multiset(Emit(n, insn).stmts)
  {
  }

  lemma InstallCount(first: Stmt, rest: seq<Stmt>, s: Stmt)
    requires s !in rest
    ensures s in [first] + rest <==> s == first
    ensures s in [first] + [] <==> s == first
    ensures multiset([first] + rest)[s] <= 1 && multiset([first] + [])[s] <= 1
  {
    assert s !in multiset(rest);
    assert multiset([first] + rest)[s] == multiset([first])[s] + multiset(rest)[s];
    assert [first] + [] == [first];
  }

  lemma OneLinkInstalls(g: GenState, i: nat, s: Stmt)
    requires Inv(g) && s.Install? && WrittenBy(g.nodes, Finish(g), i, s)
    ensures var h := |g.links.helperOrder|;
            && i == 3 + h + s.link && s.link < |g.links.insns| && g.links.insns[s.link].InstallLink?
            && s.helper == g.links.insns[s.link].helper
            && ResolveNode(g.nodes, g.links.insns[s.link].src) == Some(s.src)
            && ResolveNode(g.nodes, g.links.insns[s.link].dst) == Some(s.dst)
  {
    InternedOf(g);
    hide Finish, Inv, Emit, ResolveNode;
    OnlyLinksInstall(g.nodes, Finish(g)[i], s);
    LinkPlace(g, i);
  }

  lemma LinkWritten(g: GenState, k: nat) returns (src: NodeExpr, dst: NodeExpr)
    requires Inv(g) && k < |g.links.insns| && g.links.insns[k].InstallLink?
    requires forall i :: 0 <= i < |Finish(g)| ==> Emit(g.nodes, Finish(g)[i]).Emitted?
    ensures ResolveNode(g.nodes, g.links.insns[k].src) == Some(src)
    ensures ResolveNode(g.nodes, g.links.insns[k].dst) == Some(dst)
    ensures g.links.insns[k].linkId == k && Written(g.nodes, Finish(g), Install(g.links.insns[k].helper, k, src, dst))
  {
    InternedOf(g);
    FinishShape(g);
    var i, insn := 3 + |g.links.helperOrder| + k, g.links.insns[k];
    assert Finish(g)[i] == insn;
    hide Finish, Inv, FabricNeeded, ResolveNode;
    EmitLinkWires(g.nodes, insn);
    src, dst := ResolveNode(g.nodes, insn.src).value, ResolveNode(g.nodes, insn.dst).value;
    OnlyLinksInstall(g.nodes, insn, Install(insn.helper, k, src, dst));
    assert WrittenBy(g.nodes, Finish(g), i, Install(insn.helper, k, src, dst));
  }

  /** In a complete output every link statement has exactly one install statement with its link id: it uses the helper
      with the link's attributes and joins the nodes named by source and destination, in that order. */
  lemma OutputInstalls(ops: seq<Op>, j: nat) returns (helper: nat, src: NodeExpr, dst: NodeExpr)
    requires var g := Exec(INITIAL, ops); EmitAll(g.nodes, Finish(g)).Emitted?
    requires j < |ops| && ops[j].Link?
    ensures var g, k := Exec(INITIAL, ops), CountLinks(ops[..j]);
            var stmts := EmitAll(g.nodes, Finish(g)).stmts;
            && Install(helper, k, src, dst) in stmts && multiset(stmts)[Install(helper, k, src, dst)] == 1
            && (forall s :: s in stmts && s.Install? && s.link == k ==> s == Install(helper, k, src, dst))
            && helper < |g.links.helperOrder| && g.links.helperOrder[helper] == AttrOf(Before(ops, j), ops[j])
            && NodeAt(g.nodes, src, ops[j].src) && NodeAt(g.nodes, dst, ops[j].dst)
  {
    var g, k := Exec(INITIAL, ops), CountLinks(ops[..j]);
    AlwaysInv(ops);
    LinkRecorded(ops, j);
    hide *;
    EmitAllSucceeds(g.nodes, Finish(g));
    helper := g.links.insns[k].helper;
    src, dst := LinkWritten(g, k);
    ResolvedAt(g.nodes, ops[j].src);
    ResolvedAt(g.nodes, ops[j].dst);
    var install, stmts := Install(helper, k, src, dst), EmitAll(g.nodes, Finish(g)).stmts;
    WrittenExactly(g.nodes, Finish(g), install);
    InstallOnce(g, install);
    assert install in multiset(stmts);
    forall s | s in stmts && s.Install? && s.link == k
      ensures s == install
    {
      WrittenExactly(g.nodes, Finish(g), s);
      FromLink(g, s);
    }
  }

  lemma FromLink(g: GenState, s: Stmt)
    requires Inv(g) && s.Install? && Written(g.nodes, Finish(g), s)
    ensures s.link < |g.links.insns| && g.links.insns[s.link].InstallLink?
    ensures s.helper == g.links.insns[s.link].helper
    ensures ResolveNode(g.nodes, g.links.insns[s.link].src) == Some(s.src)
    ensures ResolveNode(g.nodes, g.links.insns[s.link].dst) == Some(s.dst)
  {
    hide Inv, Finish, WrittenBy, ResolveNode;
    var i: nat :| WrittenBy(g.nodes, Finish(g), i, s);
    OneLinkInstalls(g, i, s);
  }

  lemma InstallOnce(g: GenState, s: Stmt)
    requires Inv(g) && s.Install? && EmitAll(g.nodes, Finish(g)).Emitted?
    ensures multiset(EmitAll(g.nodes, Finish(g)).stmts)[s] <= 1
  {
    hide *;
    forall i: nat, j: nat | WrittenBy(g.nodes, Finish(g), i, s) && WrittenBy(g.nodes, Finish(g), j, s)
      ensures i == j
    {
      OneLinkInstalls(g, i, s);
      OneLinkInstalls(g, j, s);
    }
    forall i | 0 <= i < |Finish(g)| && Emit(g.nodes, Finish(g)[i]).Emitted?
      ensures multiset(Emit(g.nodes, Finish(g)[i]).stmts)[s] <= 1
    {
      OnlyLinksInstall(g.nodes, Finish(g)[i], s);
    }
    WrittenOnce(g.nodes, Finish(g), s);
  }

  /** The end of an install statement at which a device of its link is, and the other end. */
  function EndOf(install: Stmt, side: nat): NodeExpr
    requires install.Install?
  {
    if side == 0 then install.src else install.dst
  }

  /** Every peer statement of a complete output goes with the one install statement of its helper and link: the node
      at the device's side of it sends and receives, and the other node is told the address. */
  lemma PeersFollowInstall(ops: seq<Op>, s: Stmt, install: Stmt)
    requires var g := Exec(INITIAL, ops); EmitAll(g.nodes, Finish(g)).Emitted?
    requires var g := Exec(INITIAL, ops); s in EmitAll(g.nodes, Finish(g)).stmts && IsWiring(s)
    requires var g := Exec(INITIAL, ops); install in EmitAll(g.nodes, Finish(g)).stmts && install.Install?
    requires install.link == s.dev.link
    ensures install.helper == s.dev.helper && s.dev.side < 2
    ensures var near, far := EndOf(install, s.dev.side), EndOf(install, 1 - s.dev.side);
            if s.PushPeerAddr? then s.at == far && s.peer == near.index else s.at == near && s.peer == far.index
  {
    var g := Exec(INITIAL, ops);
    AlwaysInv(ops);
    hide Exec, Inv, Finish, EmitAll;
    OutputWiring(ops, s);
    var k: nat :| WiresLink(g, k, s);
    InternedOf(g);
    WrittenExactly(g.nodes, Finish(g), install);
    FromLink(g, install);
  }

  /** The install statement that a peer statement goes with is there. */
  lemma PeersHaveInstall(ops: seq<Op>, s: Stmt) returns (install: Stmt)
    requires var g := Exec(INITIAL, ops); EmitAll(g.nodes, Finish(g)).Emitted?
    requires var g := Exec(INITIAL, ops); s in EmitAll(g.nodes, Finish(g)).stmts && IsWiring(s)
    ensures var g := Exec(INITIAL, ops); install in EmitAll(g.nodes, Finish(g)).stmts && install.Install?
    ensures install.helper == s.dev.helper && install.link == s.dev.link
  {
    var g := Exec(INITIAL, ops);
    AlwaysInv(ops);
    hide Exec, Inv, Finish, EmitAll, Written;
    OutputWiring(ops, s);
    var k: nat :| WiresLink(g, k, s);
    InternedOf(g);
    EmitAllSucceeds(g.nodes, Finish(g));
    var src, dst := LinkWritten(g, k);
    install := Install(g.links.insns[k].helper, k, src, dst);
    WrittenExactly(g.nodes, Finish(g), install);
  }

  // ----- Helpers and the fabric -----

  lemma OnlyHelpersAreDeclared(n: NodeTables, insn: NS3Insn, s: Stmt)
    requires s.DeclareHelper? && Emit(n, insn).Emitted?
    ensures s in Emit(n, insn).stmts <==>
            && insn.MakeLinkHelper? && s.id == insn.id && s.kind == insn.attr.kind && s.mtu == insn.attr.mtu
            && PairText(insn.attr.latency) == Some(s.delay) && PairText(insn.attr.bandwidth) == Some(s.rate)
  {
    hide PairText;
    if insn.InstallLink? {
      assert s !in Emit(n, insn).stmts;
    }
  }

  lemma HelperPlace(g: GenState, i: nat)
    requires Inv(g) && i < |Finish(g)| && Finish(g)[i].MakeLinkHelper?
    ensures 3 <= i < 3 + |g.links.helperOrder| && Finish(g)[i] == MakeLinkHelper(i - 3, g.links.helperOrder[i - 3])
  {
    InternedOf(g);
    hide Finish, Inv, FabricNeeded;
    FinishShape(g);
  }

  /** A complete output declares the helpers of its links and no other, each with the type, MTU, delay and rate that
      the links with this helper have. */
  lemma OutputHelpers(ops: seq<Op>, s: Stmt)
    requires var g := Exec(INITIAL, ops); EmitAll(g.nodes, Finish(g)).Emitted?
    requires s.DeclareHelper?
    ensures var g := Exec(INITIAL, ops);
            s in EmitAll(g.nodes, Finish(g)).stmts <==>
            && s.id < |g.links.helperOrder|
            && var attr := g.links.helperOrder[s.id];
               && s.kind == attr.kind && s.mtu == attr.mtu
               && PairText(attr.latency) == Some(s.delay) && PairText(attr.bandwidth) == Some(s.rate)
  {
    var g := Exec(INITIAL, ops);
    AlwaysInv(ops);
    FinishShape(g);
    hide Exec, Inv, Finish, EmitAll, FabricNeeded, PairText;
    EmitAllSucceeds(g.nodes, Finish(g));
    WrittenExactly(g.nodes, Finish(g), s);
    if Written(g.nodes, Finish(g), s) {
      var i: nat :| WrittenBy(g.nodes, Finish(g), i, s);
      OnlyHelpersAreDeclared(g.nodes, Finish(g)[i], s);
      HelperPlace(g, i);
    }
    if s.id < |g.links.helperOrder| {
      OnlyHelpersAreDeclared(g.nodes, Finish(g)[3 + s.id], s);
      assert s in Emit(g.nodes, Finish(g)[3 + s.id]).stmts ==> WrittenBy(g.nodes, Finish(g), 3 + s.id, s);
    }
  }

  /** A delay or rate is the number and its unit. */
  lemma QuantityText(n: nat, unit: string)
    ensures PairText(Quantity(n, unit)) == Some(Decimal(n) + unit)
  {
  }

  ghost predicate TypedQbb(ops: seq<Op>, j: nat) {
    j < |ops| && ops[j].Link? && AttrOf(Before(ops, j), ops[j]).kind == Qbb
  }

  ghost predicate SomeQbb(ops: seq<Op>) {
    exists j: nat :: TypedQbb(ops, j)
  }

  lemma FabricForQbb(ops: seq<Op>)
    ensures FabricNeeded(Exec(INITIAL, ops).links) <==> SomeQbb(ops)
  {
    var links := Exec(INITIAL, ops).links;
    LinkCount(ops);
    hide Exec, AttrOf, Before;
    if FabricNeeded(links) {
      var k: nat :| UsesQbb(links, k);
      var j := NthLink(ops, k);
      LinkRecorded(ops, j);
      assert TypedQbb(ops, j);
    }
    if SomeQbb(ops) {
      var j: nat :| TypedQbb(ops, j);
      LinkRecorded(ops, j);
      assert UsesQbb(links, CountLinks(ops[..j]));
    }
  }

  lemma OnlyFabricBuilds(n: NodeTables, insn: NS3Insn)
    requires Emit(n, insn).Emitted?
    ensures BuildFabric in Emit(n, insn).stmts <==> insn.BuildRdmaFabric?
    ensures insn.BuildRdmaFabric? ==> Emit(n, insn).stmts == [Configure(insn.settings), BuildFabric]
  {
    if insn.InstallLink? {
      assert BuildFabric !in Emit(n, insn).stmts;
    }
    if insn.BuildRdmaFabric? {
      assert Emit(n, insn).stmts[1] == BuildFabric;
    }
  }

  /** A complete output builds the fabric exactly if some link is typed "qbb": last of all, after a statement that sets
      every setting to the value of the last rdma statement for it. */
  lemma OutputFabric(ops: seq<Op>) returns (settings: map<string, int>)
    requires var g := Exec(INITIAL, ops); EmitAll(g.nodes, Finish(g)).Emitted?
    ensures var g := Exec(INITIAL, ops);
            var stmts := EmitAll(g.nodes, Finish(g)).stmts;
            && (BuildFabric in stmts <==> SomeQbb(ops))
            && (SomeQbb(ops) ==> |stmts| >= 2 && stmts[|stmts| - 2..] == [Configure(settings), BuildFabric])
    ensures forall name :: (if name in settings then Some(settings[name]) else None) == LastSetting(ops, name)
  {
    var g := Exec(INITIAL, ops);
    settings := g.rdmaAttrs;
    forall name
      ensures (if name in settings then Some(settings[name]) else None) == LastSetting(ops, name)
    {
      SettingsAreLast(ops, name);
    }
    AlwaysInv(ops);
    FabricForQbb(ops);
    hide Exec, Inv, SomeQbb, LastSetting;
    FabricLast(g);
  }

  lemma FabricLast(g: GenState)
    requires Inv(g) && EmitAll(g.nodes, Finish(g)).Emitted?
    ensures var stmts := EmitAll(g.nodes, Finish(g)).stmts;
            && (BuildFabric in stmts <==> FabricNeeded(g.links))
            && (FabricNeeded(g.links) ==>
              |stmts| >= 2 && stmts[|stmts| - 2..] == [Configure(g.rdmaAttrs), BuildFabric])
  {
    var list, n := Finish(g), g.nodes;
    FinishShape(g);
    InternedOf(g);
    hide Finish, Inv, FabricNeeded;
    EmitAllSucceeds(n, list);
    WrittenExactly(n, list, BuildFabric);
    hide EmitAll;
    if Written(n, list, BuildFabric) {
      var i: nat :| WrittenBy(n, list, i, BuildFabric);
      OnlyFabricBuilds(n, list[i]);
    }
    if FabricNeeded(g.links) {
      var m := |list| - 1;
      OnlyFabricBuilds(n, list[m]);
      assert WrittenBy(n, list, m, BuildFabric);
      LastStatements(n, list);
      assert EmitAll(n, list).stmts[|EmitAll(n, list).stmts| - 2..] == [Configure(g.rdmaAttrs), BuildFabric];
    }
  }

  /** The output ends with what the last instruction writes. */
  lemma LastStatements(n: NodeTables, list: seq<NS3Insn>)
    requires list != [] && EmitAll(n, list).Emitted? && Emit(n, list[|list| - 1]).Emitted?
    ensures var stmts, last := EmitAll(n, list).stmts, Emit(n, list[|list| - 1]).stmts;
            |last| <= |stmts| && stmts[|stmts| - |last|..] == last
  {
    var m := |list| - 1;
    assert list == list[..m] + [list[m]];
    EmitAllConcat(n, list[..m], [list[m]]);
    OneInstruction(n, list[m]);
  }

  lemma OneInstruction(n: NodeTables, insn: NS3Insn)
    requires Emit(n, insn).Emitted?
    ensures EmitAll(n, [insn]) == Emitted(Emit(n, insn).stmts)
  {
    hide Emit;
    assert [insn][1..] == [] && EmitAll(n, []) == Emitted([]);
    assert Emit(n, insn).stmts + [] == Emit(n, insn).stmts;
  }
}
