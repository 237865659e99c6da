/** What the statements of a straight-line program do to the state of NS3CodeGenerator (ns3codegen.py), and
    the instruction list it ends with. */
module Generation {
  import opened Wrappers
  import opened Scopes
  import opened Elaboration

  datatype LinkType = P2P | Qbb

  /** The tuple that link helpers are interned by. */
  datatype LinkAttr = LinkAttr(latency: Value, bandwidth: Value, mtu: Value, kind: LinkType)

  datatype NS3Insn =
    | MakeGPUs(n: nat)
    | MakeRegSwitches(n: nat)
    | MakeNVSwitches(n: nat)
    | MakeLinkHelper(id: nat, attr: LinkAttr)
    | InstallLink(src: string, dst: string, helper: nat, linkId: nat)
    | BuildRdmaFabric(settings: map<string, int>)

  /** The generator's fields: the node dictionaries with their counters, ... */
  datatype NodeTables = NodeTables(
    gpus: map<string, nat>, switches: map<string, nat>, nvswitches: map<string, nat>,
    gpuCounter: nat, switchCounter: nat, nvswitchCounter: nat)

  /** ... the link helpers and the instructions so far (`helperOrder` lists the keys of the helper dictionary as
      it iterates them), ... */
  datatype LinkTables = LinkTables(
    helpers: map<LinkAttr, nat>, helperOrder: seq<LinkAttr>, helperCounter: nat,
    insns: seq<NS3Insn>, linkIdCounter: nat, hasQbbFabric: bool)

  /** ... and the `rdma` settings. */
  datatype GenState = GenState(nodes: NodeTables, links: LinkTables, rdmaAttrs: map<string, int>)

  const DEFAULT_MTU := 9000

  const INITIAL := GenState(NodeTables(map[], map[], map[], 0, 0, 0), LinkTables(map[], [], 0, [], 0, false), map[])

  function AddNode(n: NodeTables, name: string, kind: Kind): NodeTables {
    match kind
    case Gpu => n.(gpus := n.gpus[name := n.gpuCounter], gpuCounter := n.gpuCounter + 1)
    case Switch => n.(switches := n.switches[name := n.switchCounter], switchCounter := n.switchCounter + 1)
    case NVSwitch => n.(nvswitches := n.nvswitches[name := n.nvswitchCounter], nvswitchCounter := n.nvswitchCounter + 1)
  }

  /** The interning key of a link generated in state s. */
  function AttrOf(s: GenState, link: Op): LinkAttr
    requires link.Link?
  {
    var kind := if link.src in s.nodes.gpus && link.dst in s.nodes.gpus then P2P else Qbb;
    var mtu :=
      if link.mtu.Some? then link.mtu.value
      else if kind == Qbb && "Mtu" in s.rdmaAttrs then Num(s.rdmaAttrs["Mtu"])
      else Num(DEFAULT_MTU);
    LinkAttr(link.latency, link.bandwidth, mtu, kind)
  }

  function Intern(l: LinkTables, attr: LinkAttr): LinkTables {
    if attr in l.helpers then l
    else l.(helpers := l.helpers[attr := l.helperCounter], helperOrder := l.helperOrder + [attr],
            helperCounter := l.helperCounter + 1)
  }

  function AddLink(l: LinkTables, src: string, dst: string, attr: LinkAttr): (t: LinkTables) {
    var t := Intern(l, attr);
    t.(linkIdCounter := t.linkIdCounter + 1,
       insns := t.insns + [InstallLink(src, dst, t.helpers[attr], t.linkIdCounter)],
       hasQbbFabric := t.hasQbbFabric || attr.kind == Qbb)
  }

  function Apply(s: GenState, op: Op): GenState {
    match op
    case Node(name, kind) => s.(nodes := AddNode(s.nodes, name, kind))
    case Link(src, dst, _, _, _) => s.(links := AddLink(s.links, src, dst, AttrOf(s, op)))
    case Rdma(name, value) => s.(rdmaAttrs := s.rdmaAttrs[name := value])
  }

  function Exec(s: GenState, ops: seq<Op>): GenState {
    if ops == [] then s else Apply(Exec(s, ops[..|ops| - 1]), ops[|ops| - 1])
  }

  lemma {:induction false} ExecAppend(s: GenState, a: seq<Op>, b: seq<Op>)
    ensures Exec(s, a + b) == Exec(Exec(s, a), b)
  {
    if b == [] {
      assert a + b == a;
    } else {
      var n := |b| - 1;
      assert (a + b)[..|a| + n] == a + b[..n];
      ExecAppend(s, a, b[..n]);
    }
  }

  /** The list `Generate` leaves: the node counts, the helpers, the links, and the fabric if there is one. */
  function Finish(s: GenState): seq<NS3Insn> {
    [MakeGPUs(s.nodes.gpuCounter), MakeRegSwitches(s.nodes.switchCounter), MakeNVSwitches(s.nodes.nvswitchCounter)]
    + HelperInsns(s.links.helperOrder, s.links.helpers)
    + s.links.insns
    + if s.links.hasQbbFabric then [BuildRdmaFabric(s.rdmaAttrs)] else []
  }

  function HelperInsns(order: seq<LinkAttr>, ids: map<LinkAttr, nat>): seq<NS3Insn> {
    if order == [] then []
    else
      var n := |order| - 1;
      HelperInsns(order[..n], ids)
      + if order[n] in ids then [MakeLinkHelper(ids[order[n]], order[n])] else []
  }

  // ----- Invariants of every run -----

  ghost predicate Numbered(nodes: map<string, nat>, counter: nat) {
    && (forall x :: x in nodes ==> nodes[x] < counter)
    && (forall x, y :: x in nodes && y in nodes && nodes[x] == nodes[y] ==> x == y)
  }

  ghost predicate NodesNumbered(n: NodeTables) {
    && Numbered(n.gpus, n.gpuCounter)
    && Numbered(n.switches, n.switchCounter)
    && Numbered(n.nvswitches, n.nvswitchCounter)
  }

  /** Helper ids are the positions in the order of first use, one for each distinct tuple. */
  ghost predicate Interned(l: LinkTables) {
    && l.helperCounter == |l.helperOrder|
    && (forall i :: 0 <= i < |l.helperOrder| ==> l.helperOrder[i] in l.helpers && l.helpers[l.helperOrder[i]] == i)
    && (forall a :: a in l.helpers ==> l.helpers[a] < |l.helperOrder| && l.helperOrder[l.helpers[a]] == a)
  }

  /** Link k is the first to use helper h: no earlier link used h or a later helper. */
  ghost predicate FirstUse(insns: seq<NS3Insn>, h: nat, k: nat) {
    && k < |insns| && insns[k].InstallLink? && insns[k].helper == h
    && forall j :: 0 <= j < k ==> insns[j].InstallLink? && insns[j].helper < h
  }

  ghost predicate HasFirstUse(insns: seq<NS3Insn>, h: nat) {
    exists k: nat :: FirstUse(insns, h, k)
  }

  ghost predicate LinksNumbered(l: LinkTables) {
    && l.linkIdCounter == |l.insns|
    && (forall k :: 0 <= k < |l.insns| ==>
      l.insns[k].InstallLink? && l.insns[k].linkId == k && l.insns[k].helper < |l.helperOrder|)
  }

  ghost predicate FirstUseOrder(l: LinkTables) {
    forall h: nat :: h < |l.helperOrder| ==> HasFirstUse(l.insns, h)
  }

  ghost predicate UsesQbb(l: LinkTables, k: nat) {
    && k < |l.insns| && l.insns[k].InstallLink? && l.insns[k].helper < |l.helperOrder|
    && l.helperOrder[l.insns[k].helper].kind == Qbb
  }

  ghost predicate FabricNeeded(l: LinkTables) {
    exists k: nat :: UsesQbb(l, k)
  }

  ghost predicate LinksInv(l: LinkTables) {
    Interned(l) && LinksNumbered(l) && FirstUseOrder(l) && (l.hasQbbFabric <==> FabricNeeded(l))
  }

  ghost predicate Inv(s: GenState) {
    NodesNumbered(s.nodes) && LinksInv(s.links)
  }

  lemma InternedOf(s: GenState)
    requires Inv(s)
    ensures Interned(s.links) && LinksNumbered(s.links)
  {
  }

  lemma InternKeeps(l: LinkTables, attr: LinkAttr)
    requires Interned(l)
    ensures Interned(Intern(l, attr)) && attr in Intern(l, attr).helpers
  {
  }

  lemma FirstUseKept(l: LinkTables, src: string, dst: string, attr: LinkAttr)
    requires Interned(l) && LinksNumbered(l) && FirstUseOrder(l)
    ensures FirstUseOrder(AddLink(l, src, dst, attr))
  {
    var t := AddLink(l, src, dst, attr);
    var n := |l.insns|;
    InternKeeps(l, attr);
    forall h: nat | h < |t.helperOrder|
      ensures HasFirstUse(t.insns, h)
    {
      if h < |l.helperOrder| {
        assert HasFirstUse(l.insns, h);
        var k: nat :| FirstUse(l.insns, h, k);
        assert FirstUse(t.insns, h, k);
      } else {
        assert FirstUse(t.insns, h, n);
      }
    }
  }

  lemma FabricKept(l: LinkTables, src: string, dst: string, attr: LinkAttr)
    requires LinksInv(l)
    ensures var t := AddLink(l, src, dst, attr); t.hasQbbFabric <==> FabricNeeded(t)
  {
    var t := AddLink(l, src, dst, attr);
    var n := |l.insns|;
    InternKeeps(l, attr);
    assert UsesQbb(t, n) <==> attr.kind == Qbb;
    forall k: nat | k != n
      ensures UsesQbb(t, k) <==> UsesQbb(l, k)
    {
    }
    if FabricNeeded(l) {
      var k: nat :| UsesQbb(l, k);
      assert k != n && UsesQbb(t, k);
    }
  }

  lemma LinkKeepsInv(l: LinkTables, src: string, dst: string, attr: LinkAttr)
    requires LinksInv(l)
    ensures LinksInv(AddLink(l, src, dst, attr))
  {
    InternKeeps(l, attr);
    FirstUseKept(l, src, dst, attr);
    FabricKept(l, src, dst, attr);
  }

  lemma ApplyKeepsInv(s: GenState, op: Op)
    requires Inv(s)
    ensures Inv(Apply(s, op))
  {
    hide LinksInv, AddLink, AttrOf, NodesNumbered, AddNode;
    match op
    case Node(name, kind) => NodeKeepsNumbered(s.nodes, name, kind);
    case Link(src, dst, _, _, _) => LinkKeepsInv(s.links, src, dst, AttrOf(s, op));
    case Rdma(_, _) =>
  }

  lemma NodeKeepsNumbered(n: NodeTables, name: string, kind: Kind)
    requires NodesNumbered(n)
    ensures NodesNumbered(AddNode(n, name, kind))
  {
    hide Numbered;
    NextNumber(n.gpus, n.gpuCounter, name);
    NextNumber(n.switches, n.switchCounter, name);
    NextNumber(n.nvswitches, n.nvswitchCounter, name);
  }

  lemma NextNumber(nodes: map<string, nat>, counter: nat, name: string)
    requires Numbered(nodes, counter)
    ensures Numbered(nodes[name := counter], counter + 1)
  {
  }

  lemma {:induction false} ExecKeepsInv(s: GenState, ops: seq<Op>)
    requires Inv(s)
    ensures Inv(Exec(s, ops))
  {
    hide Inv, Apply;
    if ops != [] {
      ExecKeepsInv(s, ops[..|ops| - 1]);
      ApplyKeepsInv(Exec(s, ops[..|ops| - 1]), ops[|ops| - 1]);
    }
  }

  // ----- Counters, and what stays once it is there -----

  function Count(ops: seq<Op>, kind: Kind): nat {
    if ops == [] then 0
    else Count(ops[..|ops| - 1], kind) + if ops[|ops| - 1].Node? && ops[|ops| - 1].kind == kind then 1 else 0
  }

  function CountLinks(ops: seq<Op>): nat {
    if ops == [] then 0 else CountLinks(ops[..|ops| - 1]) + if ops[|ops| - 1].Link? then 1 else 0
  }

  lemma {:induction false} CountersCount(s: GenState, ops: seq<Op>)
    ensures var t := Exec(s, ops);
            && t.nodes.gpuCounter == s.nodes.gpuCounter + Count(ops, Gpu)
            && t.nodes.switchCounter == s.nodes.switchCounter + Count(ops, Switch)
            && t.nodes.nvswitchCounter == s.nodes.nvswitchCounter + Count(ops, NVSwitch)
            && t.links.linkIdCounter == s.links.linkIdCounter + CountLinks(ops)
  {
    if ops != [] {
      CountersCount(s, ops[..|ops| - 1]);
    }
  }

  /** The value of a setting after these statements: that of the last rdma statement for it. */
  function LastSetting(ops: seq<Op>, name: string): Option<int> {
    if ops == [] then None
    else
      var last := ops[|ops| - 1];
      if last.Rdma? && last.name == name then Some(last.value) else LastSetting(ops[..|ops| - 1], name)
  }

  lemma {:induction false} SettingsAreLast(ops: seq<Op>, name: string)
    ensures var attrs := Exec(INITIAL, ops).rdmaAttrs;
            (if name in attrs then Some(attrs[name]) else None) == LastSetting(ops, name)
  {
    if ops != [] {
      SettingsAreLast(ops[..|ops| - 1], name);
    }
  }

  /** Later statements only add: nodes stay declared, helpers keep their ids, links stay as they are. */
  ghost predicate Extends(s: GenState, t: GenState) {
    && s.nodes.gpus.Keys <= t.nodes.gpus.Keys
    && s.nodes.switches.Keys <= t.nodes.switches.Keys
    && s.nodes.nvswitches.Keys <= t.nodes.nvswitches.Keys
    && s.links.helperOrder <= t.links.helperOrder
    && s.links.insns <= t.links.insns
  }

  lemma {:induction false} ExecExtends(s: GenState, ops: seq<Op>)
    ensures Extends(s, Exec(s, ops))
  {
    if ops != [] {
      ExecExtends(s, ops[..|ops| - 1]);
    }
  }

  /** The state in which the j-th statement is carried out. */
  function Before(ops: seq<Op>, j: nat): GenState
    requires j <= |ops|
  {
    Exec(INITIAL, ops[..j])
  }

  lemma SplitAt(ops: seq<Op>, j: nat)
    requires j < |ops|
    ensures Exec(INITIAL, ops) == Exec(Apply(Before(ops, j), ops[j]), ops[j + 1..])
    ensures Extends(Before(ops, j), Exec(INITIAL, ops))
    ensures Extends(Apply(Before(ops, j), ops[j]), Exec(INITIAL, ops))
  {
    hide Apply, Extends;
    assert ops == ops[..j] + ops[j..];
    ExecAppend(INITIAL, ops[..j], ops[j..]);
    ExecExtends(Before(ops, j), ops[j..]);
    assert ops == ops[..j + 1] + ops[j + 1..] && ops[..j + 1][..j] == ops[..j];
    ExecAppend(INITIAL, ops[..j + 1], ops[j + 1..]);
    ExecExtends(Apply(Before(ops, j), ops[j]), ops[j + 1..]);
  }

  lemma InitialInv()
    ensures Inv(INITIAL)
  {
    assert forall k: nat :: !UsesQbb(INITIAL.links, k);
  }

  /** What every reachable state satisfies. */
  lemma AlwaysInv(ops: seq<Op>)
    ensures Inv(Exec(INITIAL, ops))
  {
    InitialInv();
    ExecKeepsInv(INITIAL, ops);
  }

  /** Every link statement ends up, in order, as the install instruction for its two names, with a helper whose
      attributes are exactly those the link had when it was generated. */
  lemma LinkRecorded(ops: seq<Op>, j: nat)
    requires j < |ops| && ops[j].Link?
    ensures var k, final := CountLinks(ops[..j]), Exec(INITIAL, ops).links;
            && k < |final.insns| && final.insns[k].InstallLink?
            && final.insns[k].src == ops[j].src && final.insns[k].dst == ops[j].dst && final.insns[k].linkId == k
            && final.insns[k].helper < |final.helperOrder|
            && final.helperOrder[final.insns[k].helper] == AttrOf(Before(ops, j), ops[j])
  {
    var s, attr := Before(ops, j), AttrOf(Before(ops, j), ops[j]);
    var t, final, k := Apply(s, ops[j]).links, Exec(INITIAL, ops).links, CountLinks(ops[..j]);
    CountersCount(INITIAL, ops[..j]);
    AlwaysInv(ops[..j]);
    LinkKeepsInv(s.links, ops[j].src, ops[j].dst, attr);
    InternKeeps(s.links, attr);
    SplitAt(ops, j);
    assert final.insns[k] == t.insns[k];
    var h := t.insns[k].helper;
    assert final.helperOrder[h] == t.helperOrder[h];
  }

  // ----- The final list -----

  lemma {:induction false} HelperInsnsAt(order: seq<LinkAttr>, ids: map<LinkAttr, nat>)
    requires forall i :: 0 <= i < |order| ==> order[i] in ids
    ensures |HelperInsns(order, ids)| == |order|
    ensures forall i :: 0 <= i < |order| ==> HelperInsns(order, ids)[i] == MakeLinkHelper(ids[order[i]], order[i])
  {
    if order != [] {
      HelperInsnsAt(order[..|order| - 1], ids);
    }
  }

  lemma Pieces<T>(a: seq<T>, b: seq<T>, c: seq<T>, d: seq<T>)
    ensures var list := a + b + c + d;
            && |list| == |a| + |b| + |c| + |d|
            && (forall i :: 0 <= i < |a| ==> list[i] == a[i])
            && (forall i :: |a| <= i < |a| + |b| ==> list[i] == b[i - |a|])
            && (forall i :: |a| + |b| <= i < |a| + |b| + |c| ==> list[i] == c[i - |a| - |b|])
            && (d != [] ==> list[|list| - 1] == d[|d| - 1])
  {
  }

  /** The finished list, entry by entry. */
  lemma FinishShape(s: GenState)
    requires Inv(s)
    ensures var list, h, n := Finish(s), |s.links.helperOrder|, |s.links.insns|;
            && |list| == 3 + h + n + (if FabricNeeded(s.links) then 1 else 0)
            && list[0] == MakeGPUs(s.nodes.gpuCounter) && list[1] == MakeRegSwitches(s.nodes.switchCounter)
            && list[2] == MakeNVSwitches(s.nodes.nvswitchCounter)
            && (forall i :: 3 <= i < 3 + h ==> list[i] == MakeLinkHelper(i - 3, s.links.helperOrder[i - 3]))
            && (forall i :: 3 + h <= i < 3 + h + n ==> list[i] == s.links.insns[i - 3 - h])
            && (FabricNeeded(s.links) ==> list[|list| - 1] == BuildRdmaFabric(s.rdmaAttrs))
  {
    HelperInsnsAt(s.links.helperOrder, s.links.helpers);
    assert s.links.hasQbbFabric <==> FabricNeeded(s.links);
    assert Interned(s.links);
    hide FabricNeeded, Inv, LinksInv, HelperInsns;
    Pieces([MakeGPUs(s.nodes.gpuCounter), MakeRegSwitches(s.nodes.switchCounter),
            MakeNVSwitches(s.nodes.nvswitchCounter)],
           HelperInsns(s.links.helperOrder, s.links.helpers), s.links.insns,
           if s.links.hasQbbFabric then [BuildRdmaFabric(s.rdmaAttrs)] else []);
  }

  /** The node counts are the numbers of node statements; helper declarations are dense, distinct and come before
      every link; every link's helper is declared; links are numbered densely; and the fabric instruction is the
      last and only one, present exactly when some link is "qbb". */
  lemma FinishedList(ops: seq<Op>)
    ensures var s := Exec(INITIAL, ops);
            var list, h, n := Finish(s), |s.links.helperOrder|, |s.links.insns|;
            && |list| == 3 + h + n + (if FabricNeeded(s.links) then 1 else 0)
            && list[0] == MakeGPUs(Count(ops, Gpu)) && list[1] == MakeRegSwitches(Count(ops, Switch))
            && list[2] == MakeNVSwitches(Count(ops, NVSwitch))
            && (forall i :: 3 <= i < 3 + h ==> list[i] == MakeLinkHelper(i - 3, s.links.helperOrder[i - 3]))
            && (forall i, j :: 0 <= i < j < h ==> s.links.helperOrder[i] != s.links.helperOrder[j])
            && (forall k :: 3 + h <= k < 3 + h + n ==>
              list[k].InstallLink? && list[k].linkId == k - 3 - h && list[k].helper < h)
            && (FabricNeeded(s.links) ==> list[|list| - 1] == BuildRdmaFabric(s.rdmaAttrs))
  {
    hide Exec, Finish, FabricNeeded, FirstUseOrder, Numbered, Count, CountLinks, HelperInsns;
    var s := Exec(INITIAL, ops);
    var list, h, n := Finish(s), |s.links.helperOrder|, |s.links.insns|;
    AlwaysInv(ops);
    CountersCount(INITIAL, ops);
    FinishShape(s);
  }
}
