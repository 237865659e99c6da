/** `NS3Writer` of ns3writer.py, emitting abstract statements instead of C++ text, and its agreement with the
    generator that ran before it. */
module Writer {
  import opened Wrappers
  import opened Text
  import opened Scopes
  import opened Elaboration
  import opened Generation

  /** `gpunodes.Get(i)`, `regswtches.Get(i)` or `nvswtches.Get(i)` */
  datatype NodeExpr = Get(container: Kind, index: nat)

  /** The device at one end of the container `devs{helper}_{link}`. */
  datatype Device = Device(helper: nat, link: nat, side: nat)

  datatype Stmt =
    | CreateNodes(container: Kind, count: nat)
    | DeclareHelper(kind: LinkType, id: nat, mtu: Value, delay: string, rate: string)
    | Install(helper: nat, link: nat, src: NodeExpr, dst: NodeExpr)
    | PushSendPeerDevice(at: NodeExpr, peer: nat, dev: Device)
    | PushRecvPeerDevice(at: NodeExpr, peer: nat, dev: Device)
    | PushPeerAddr(at: NodeExpr, peer: nat, dev: Device)
    | Configure(settings: map<string, int>)
    | BuildFabric

  datatype WriteError = UnknownNode(name: string) | NotAPair(v: Value)

  datatype Emission = Emitted(stmts: seq<Stmt>) | Failed(error: WriteError)

  function ResolveNode(n: NodeTables, name: string): Option<NodeExpr> {
    if name in n.gpus then Some(Get(Gpu, n.gpus[name]))
    else if name in n.switches then Some(Get(Switch, n.switches[name]))
    else if name in n.nvswitches then Some(Get(NVSwitch, n.nvswitches[name]))
    else None
  }

  /** The text of a quantity such as 400Gbps; unpacking also accepts a string of two characters. */
  function PairText(v: Value): Option<string> {
    match v
    case Quantity(n, unit) => Some(Str(n) + unit)
    case Name(s) => if |s| == 2 then Some(s) else None
    case _ => None
  }

  function EmitNodes(container: Kind, n: nat): seq<Stmt> {
    if n <= 0 then [] else [CreateNodes(container, n)]
  }

  /** The peer wiring of a link between two GPUs, both ways. */
  function PeerWiring(src: NodeExpr, dst: NodeExpr, helper: nat, link: nat): seq<Stmt> {
    var near, far := Device(helper, link, 0), Device(helper, link, 1);
    [PushSendPeerDevice(src, dst.index, near), PushRecvPeerDevice(dst, src.index, far),
     PushSendPeerDevice(dst, src.index, far), PushRecvPeerDevice(src, dst.index, near),
     PushPeerAddr(src, dst.index, far), PushPeerAddr(dst, src.index, near)]
  }

  function EmitLink(n: NodeTables, src: string, dst: string, helper: nat, link: nat): Emission {
    match ResolveNode(n, src)
    case None => Failed(UnknownNode(src))
    case Some(s) =>
      match ResolveNode(n, dst)
      case None => Failed(UnknownNode(dst))
      case Some(d) =>
        Emitted([Install(helper, link, s, d)]
                + if s.container == Gpu && d.container == Gpu then PeerWiring(s, d, helper, link) else [])
  }

  function Emit(n: NodeTables, insn: NS3Insn): Emission {
    match insn
    case MakeGPUs(k) => Emitted(EmitNodes(Gpu, k))
    case MakeRegSwitches(k) => Emitted(EmitNodes(Switch, k))
    case MakeNVSwitches(k) => Emitted(EmitNodes(NVSwitch, k))
    case MakeLinkHelper(id, attr) => (
      match PairText(attr.latency)
      case None => Failed(NotAPair(attr.latency))
      case Some(delay) =>
        match PairText(attr.bandwidth)
        case None => Failed(NotAPair(attr.bandwidth))
        case Some(rate) => Emitted([DeclareHelper(attr.kind, id, attr.mtu, delay, rate)]))
    case InstallLink(src, dst, helper, link) => EmitLink(n, src, dst, helper, link)
    case BuildRdmaFabric(settings) => Emitted([Configure(settings), BuildFabric])
  }

  function EmitAll(n: NodeTables, insns: seq<NS3Insn>): Emission {
    if insns == [] then Emitted([])
    else
      match Emit(n, insns[0])
      case Failed(e) => Failed(e)
      case Emitted(first) =>
        match EmitAll(n, insns[1..])
        case Failed(e) => Failed(e)
        case Emitted(rest) => Emitted(first + rest)
  }

  class NS3Writer {
    const gpus: map<string, nat>
    const switches: map<string, nat>
    const nvswitches: map<string, nat>
    const insns: seq<NS3Insn>
    var lines: seq<Stmt>
    var containerMap: map<(string, string), (nat, nat)>

    ghost const nodes: NodeTables

    ghost predicate Valid() {
      gpus == nodes.gpus && switches == nodes.switches && nvswitches == nodes.nvswitches
    }

    constructor (nodes: NodeTables, insns: seq<NS3Insn>)
      ensures Valid() && this.nodes == nodes && this.insns == insns && lines == []
    {
      gpus, switches, nvswitches := nodes.gpus, nodes.switches, nodes.nvswitches;
      this.nodes, this.insns, lines, containerMap := nodes, insns, [], map[];
    }

    method EmitLine(s: Stmt)
      modifies this`lines
      ensures lines == old(lines) + [s]
    {
      lines := lines + [s];
    }

    method ResolveNodeName(name: string) returns (r: Option<NodeExpr>)
      requires Valid()
      ensures r == ResolveNode(nodes, name)
    {
      if name in gpus {
        return Some(Get(Gpu, gpus[name]));
      } else if name in switches {
        return Some(Get(Switch, switches[name]));
      } else if name in nvswitches {
        return Some(Get(NVSwitch, nvswitches[name]));
      } else {
        return None;
      }
    }

    method EmitLinkInstall(src: string, dst: string, helper: nat, link: nat) returns (err: Option<WriteError>)
      requires Valid()
      modifies this
      ensures match EmitLink(nodes, src, dst, helper, link)
              case Failed(e) => err == Some(e) && lines == old(lines)
              case Emitted(stmts) => err == None && lines == old(lines) + stmts
    {
      var s := ResolveNodeName(src);
      if s == None {
        return Some(UnknownNode(src));
      }
      var d := ResolveNodeName(dst);
      if d == None {
        return Some(UnknownNode(dst));
      }
      var se, de := s.value, d.value;
      hide PeerWiring;
      EmitLine(Install(helper, link, se, de));
      containerMap := containerMap[(src, dst) := (helper, link)];
      if se.container == Gpu && de.container == Gpu {
        WirePeers(src, dst, se, de, helper, link);
      }
      return None;
    }

    method WirePeers(src: string, dst: string, se: NodeExpr, de: NodeExpr, helper: nat, link: nat)
      requires Valid() && ResolveNode(nodes, src) == Some(se) && ResolveNode(nodes, dst) == Some(de)
      requires se.container == Gpu && de.container == Gpu
      modifies this`lines
      ensures lines == old(lines) + PeerWiring(se, de, helper, link)
    {
      var srcId, dstId := gpus[src], gpus[dst];
      EmitLine(PushSendPeerDevice(se, dstId, Device(helper, link, 0)));
      EmitLine(PushRecvPeerDevice(de, srcId, Device(helper, link, 1)));
      EmitLine(PushSendPeerDevice(de, srcId, Device(helper, link, 1)));
      EmitLine(PushRecvPeerDevice(se, dstId, Device(helper, link, 0)));
      EmitLine(PushPeerAddr(se, dstId, Device(helper, link, 1)));
      EmitLine(PushPeerAddr(de, srcId, Device(helper, link, 0)));
    }

    method HandleInsn(insn: NS3Insn) returns (err: Option<WriteError>)
      requires Valid()
      modifies this
      ensures match Emit(nodes, insn)
              case Failed(e) => err == Some(e) && lines == old(lines)
              case Emitted(stmts) => err == None && lines == old(lines) + stmts
    {
      match insn
      case MakeGPUs(k) => EmitTypedNodes(Gpu, k); return None;
      case MakeRegSwitches(k) => EmitTypedNodes(Switch, k); return None;
      case MakeNVSwitches(k) => EmitTypedNodes(NVSwitch, k); return None;
      case MakeLinkHelper(id, attr) =>
        var delay, rate := PairText(attr.latency), PairText(attr.bandwidth);
        if delay == None {
          return Some(NotAPair(attr.latency));
        }
        if rate == None {
          return Some(NotAPair(attr.bandwidth));
        }
        EmitLine(DeclareHelper(attr.kind, id, attr.mtu, delay.value, rate.value));
        return None;
      case InstallLink(src, dst, helper, link) => err := EmitLinkInstall(src, dst, helper, link);
      case BuildRdmaFabric(settings) =>
        EmitLine(Configure(settings));
        EmitLine(BuildFabric);
        return None;
    }

    method EmitTypedNodes(container: Kind, n: nat)
      modifies this`lines
      ensures lines == old(lines) + EmitNodes(container, n)
    {
      if n <= 0 {
        return;
      }
      EmitLine(CreateNodes(container, n));
    }

    /** The instruction loop of `write`. */
    method Write() returns (err: Option<WriteError>)
      requires Valid() && lines == []
      modifies this
      ensures match EmitAll(nodes, insns)
              case Failed(e) => err == Some(e)
              case Emitted(stmts) => err == None && lines == stmts
    {
      hide Emit;
      PrependNothing(EmitAll(nodes, insns));
      assert insns[0..] == insns;
      for i := 0 to |insns|
        invariant EmitAll(nodes, insns) == Prepend(lines, EmitAll(nodes, insns[i..]))
      {
        EmitStep(nodes, insns, lines, i);
        hide EmitAll;
        err := HandleInsn(insns[i]);
        if err != None {
          return;
        }
      }
      assert lines + [] == lines;
      return None;
    }
  }

  /** An output with more statements in front. */
  function Prepend(stmts: seq<Stmt>, e: Emission): Emission {
    match e
    case Failed(error) => Failed(error)
    case Emitted(rest) => Emitted(stmts + rest)
  }

  lemma PrependNothing(e: Emission)
    ensures Prepend([], e) == e
  {
    assert e.Emitted? ==> [] + e.stmts == e.stmts;
  }

  /** The i-th instruction ends the writing, or its statements come next. */
  lemma EmitStep(n: NodeTables, insns: seq<NS3Insn>, lines: seq<Stmt>, i: nat)
    requires i < |insns|
    ensures var rest := EmitAll(n, insns[i + 1..]);
            Prepend(lines, EmitAll(n, insns[i..])) ==
              match Emit(n, insns[i])
              case Failed(e) => Failed(e)
              case Emitted(first) => Prepend(lines + first, rest)
  {
    hide Emit;
    assert insns[i..][0] == insns[i] && insns[i..][1..] == insns[i + 1..];
    var e, rest := Emit(n, insns[i]), EmitAll(n, insns[i + 1..]);
    if e.Emitted? && rest.Emitted? {
      assert lines + (e.stmts + rest.stmts) == (lines + e.stmts) + rest.stmts;
    }
  }

  // ----- Names and node expressions -----

  function CounterOf(n: NodeTables, kind: Kind): nat {
    match kind
    case Gpu => n.gpuCounter
    case Switch => n.switchCounter
    case NVSwitch => n.nvswitchCounter
  }

  /** Every emitted index is below the number of nodes created in its container, and different names have
      different node expressions, whatever the program declares. */
  lemma NodeExprsSound(ops: seq<Op>, a: string, b: string)
    ensures var n := Exec(INITIAL, ops).nodes;
            && (ResolveNode(n, a).Some? ==>
              ResolveNode(n, a).value.index < CounterOf(n, ResolveNode(n, a).value.container))
            && (ResolveNode(n, a).Some? && ResolveNode(n, a) == ResolveNode(n, b) ==> a == b)
  {
    AlwaysInv(ops);
  }

  ghost predicate Declared(ops: seq<Op>, name: string, kind: Kind) {
    Node(name, kind) in ops
  }

  lemma {:induction false} DeclaredNodes(ops: seq<Op>, name: string)
    ensures var n := Exec(INITIAL, ops).nodes;
            && (name in n.gpus <==> Declared(ops, name, Gpu))
            && (name in n.switches <==> Declared(ops, name, Switch))
            && (name in n.nvswitches <==> Declared(ops, name, NVSwitch))
  {
    if ops != [] {
      var init, last := ops[..|ops| - 1], ops[|ops| - 1];
      assert ops == init + [last];
      DeclaredNodes(init, name);
    }
  }

  ghost predicate DeclaredSomehow(ops: seq<Op>, name: string) {
    Declared(ops, name, Gpu) || Declared(ops, name, Switch) || Declared(ops, name, NVSwitch)
  }

  // ----- Agreement of the two passes -----

  predicate IsWiring(s: Stmt) {
    s.PushSendPeerDevice? || s.PushRecvPeerDevice? || s.PushPeerAddr?
  }

  ghost predicate Wires(e: Emission) {
    e.Emitted? && exists s :: s in e.stmts && IsWiring(s)
  }

  /** The generator decides a link's type from the GPUs declared before it, the writer from all of them. */
  ghost predicate GpusDeclaredInTime(ops: seq<Op>, j: nat)
    requires j < |ops| && ops[j].Link?
  {
    Declared(ops, ops[j].src, Gpu) && Declared(ops, ops[j].dst, Gpu) ==>
      Declared(ops[..j], ops[j].src, Gpu) && Declared(ops[..j], ops[j].dst, Gpu)
  }

  /** The instruction that the j-th statement, a link, became (see LinkRecorded). */
  function LinkInsn(ops: seq<Op>, j: nat): NS3Insn
    requires j < |ops| && ops[j].Link?
  {
    LinkRecorded(ops, j);
    Exec(INITIAL, ops).links.insns[CountLinks(ops[..j])]
  }

  /** The writer fails on a link exactly when one of its ends is declared nowhere; otherwise it wires the two GPUs
      as peers exactly for the links the generator typed "p2p", provided their GPUs are declared in time, and
      only then. */
  lemma PassesAgree(ops: seq<Op>, j: nat)
    requires j < |ops| && ops[j].Link?
    ensures var e := Emit(Exec(INITIAL, ops).nodes, LinkInsn(ops, j));
            && (e.Emitted? <==> DeclaredSomehow(ops, ops[j].src) && DeclaredSomehow(ops, ops[j].dst))
            && (e.Emitted? ==>
              ((Wires(e) <==> AttrOf(Before(ops, j), ops[j]).kind == P2P) <==> GpusDeclaredInTime(ops, j)))
  {
    var n, insn := Exec(INITIAL, ops).nodes, LinkInsn(ops, j);
    LinkRecorded(ops, j);
    DeclaredNodes(ops, ops[j].src);
    DeclaredNodes(ops, ops[j].dst);
    DeclaredNodes(ops[..j], ops[j].src);
    DeclaredNodes(ops[..j], ops[j].dst);
    SplitAt(ops, j);
    hide Exec, Declared, Emit, Wires;
    EmitLinkWires(n, insn);
  }

  /** On an install instruction the writer fails if it does not know an end, and wires peers if both are GPUs. */
  lemma EmitLinkWires(n: NodeTables, insn: NS3Insn)
    requires insn.InstallLink?
    ensures var e, s, d := Emit(n, insn), ResolveNode(n, insn.src), ResolveNode(n, insn.dst);
            && (e.Emitted? <==> s.Some? && d.Some?)
            && (e.Emitted? ==> (Wires(e) <==> insn.src in n.gpus && insn.dst in n.gpus))
  {
    var e := Emit(n, insn);
    if e.Emitted? {
      var s, d := ResolveNode(n, insn.src).value, ResolveNode(n, insn.dst).value;
      var first := PushSendPeerDevice(s, d.index, Device(insn.helper, insn.linkId, 0));
      assert s.container == Gpu && d.container == Gpu ==> e.stmts[1] == first && IsWiring(first);
    }
  }

  // ----- Attributes and wiring -----

  /** What a link's interning key is made of: "p2p" if both ends are GPUs declared before it, and the MTU given, or
      for a qbb link that of the last rdma statement before it, or 9000. */
  lemma LinkAttributes(ops: seq<Op>, j: nat)
    requires j < |ops| && ops[j].Link?
    ensures var attr, before := AttrOf(Before(ops, j), ops[j]), ops[..j];
            && attr.latency == ops[j].latency && attr.bandwidth == ops[j].bandwidth
            && (attr.kind == P2P <==> Declared(before, ops[j].src, Gpu) && Declared(before, ops[j].dst, Gpu))
            && attr.mtu == (match ops[j].mtu
                            case Some(m) => m
                            case None =>
                              match LastSetting(before, "Mtu")
                              case Some(v) => Num(if attr.kind == Qbb then v else 9000)
                              case None => Num(9000))
  {
    hide Exec, Declared;
    DeclaredNodes(ops[..j], ops[j].src);
    DeclaredNodes(ops[..j], ops[j].dst);
    SettingsAreLast(ops[..j], "Mtu");
  }

  /** The end at which a device of the link is installed, and the other end. */
  function NearEnd(dev: Device, src: NodeExpr, dst: NodeExpr): NodeExpr {
    if dev.side == 0 then src else dst
  }

  function FarEnd(dev: Device, src: NodeExpr, dst: NodeExpr): NodeExpr {
    if dev.side == 0 then dst else src
  }

  /** A GPU sends to and receives from its peer through its own device, and is told the address of the peer's. */
  ghost predicate Wired(s: Stmt, src: NodeExpr, dst: NodeExpr, helper: nat, link: nat) {
    match s
    case PushSendPeerDevice(at, peer, dev) => OwnDevice(at, peer, dev, src, dst, helper, link)
    case PushRecvPeerDevice(at, peer, dev) => OwnDevice(at, peer, dev, src, dst, helper, link)
    case PushPeerAddr(at, peer, dev) =>
      && dev.helper == helper && dev.link == link && dev.side < 2
      && at == FarEnd(dev, src, dst) && peer == NearEnd(dev, src, dst).index
    case _ => false
  }

  ghost predicate OwnDevice(at: NodeExpr, peer: nat, dev: Device, src: NodeExpr, dst: NodeExpr, helper: nat, link: nat)
  {
    && dev.helper == helper && dev.link == link && dev.side < 2
    && at == NearEnd(dev, src, dst) && peer == FarEnd(dev, src, dst).index
  }

  /** The peer statements are exactly these, for both ends of the link. */
  lemma WiringExact(src: NodeExpr, dst: NodeExpr, helper: nat, link: nat, s: Stmt)
    ensures s in PeerWiring(src, dst, helper, link) <==> Wired(s, src, dst, helper, link)
  {
    var list := PeerWiring(src, dst, helper, link);
    var near, far := Device(helper, link, 0), Device(helper, link, 1);
    if s.PushSendPeerDevice? && Wired(s, src, dst, helper, link) {
      assert s == list[0] || s == list[2];
    }
    if s.PushRecvPeerDevice? && Wired(s, src, dst, helper, link) {
      assert s == list[1] || s == list[3];
    }
    if s.PushPeerAddr? && Wired(s, src, dst, helper, link) {
      assert s == list[4] || s == list[5];
    }
  }

  /** None of them is written twice. */
  lemma WiringOnce(src: NodeExpr, dst: NodeExpr, helper: nat, link: nat, i: nat, j: nat)
    requires i < j < |PeerWiring(src, dst, helper, link)|
    ensures PeerWiring(src, dst, helper, link)[i] != PeerWiring(src, dst, helper, link)[j]
  {
  }

  // ----- Container names -----

  /** `devs{helper}_{link}` */
  function ContainerName(helper: nat, link: nat): string {
    Join(["devs" + Decimal(helper), Decimal(link)])
  }

  lemma NumberPlain(n: nat)
    ensures Plain(Decimal(n)) && Plain("devs" + Decimal(n))
  {
    DecimalDigits(n);
  }

  lemma ContainerNameInjective(h1: nat, l1: nat, h2: nat, l2: nat)
    requires ContainerName(h1, l1) == ContainerName(h2, l2)
    ensures h1 == h2 && l1 == l2
  {
    var a, b := ["devs" + Decimal(h1), Decimal(l1)], ["devs" + Decimal(h2), Decimal(l2)];
    NumberPlain(h1);
    NumberPlain(l1);
    NumberPlain(h2);
    NumberPlain(l2);
    hide Plain, Join, Decimal;
    JoinInjective(a, b);
    assert a[0] == b[0] && a[1] == b[1];
    assert a[0][4..] == Decimal(h1) && b[0][4..] == Decimal(h2);
    DecimalInjective(h1, h2);
    DecimalInjective(l1, l2);
  }

  /** No two links, whatever their helpers, install into containers of the same name. */
  lemma ContainersDistinct(ops: seq<Op>, i: nat, j: nat)
    requires i < |Exec(INITIAL, ops).links.insns| && j < |Exec(INITIAL, ops).links.insns|
    ensures var insns := Exec(INITIAL, ops).links.insns;
            && insns[i].InstallLink? && insns[j].InstallLink?
            && (ContainerName(insns[i].helper, insns[i].linkId) == ContainerName(insns[j].helper, insns[j].linkId) ==>
              i == j)
  {
    var insns := Exec(INITIAL, ops).links.insns;
    AlwaysInv(ops);
    hide Exec, ContainerName;
    if ContainerName(insns[i].helper, insns[i].linkId) == ContainerName(insns[j].helper, insns[j].linkId) {
      ContainerNameInjective(insns[i].helper, insns[i].linkId, insns[j].helper, insns[j].linkId);
    }
  }

  // ----- When the whole output is written -----

  /** Every link's ends are declared somewhere and its latency and bandwidth are quantities. */
  ghost predicate Writable(ops: seq<Op>) {
    forall j :: 0 <= j < |ops| && ops[j].Link? ==>
      && DeclaredSomehow(ops, ops[j].src) && DeclaredSomehow(ops, ops[j].dst)
      && PairText(ops[j].latency).Some? && PairText(ops[j].bandwidth).Some?
  }

  lemma {:induction false} EmitAllSucceeds(n: NodeTables, insns: seq<NS3Insn>)
    ensures EmitAll(n, insns).Emitted? <==> forall k :: 0 <= k < |insns| ==> Emit(n, insns[k]).Emitted?
  {
    if insns != [] {
      EmitAllSucceeds(n, insns[1..]);
      assert insns == [insns[0]] + insns[1..];
    }
  }

  lemma {:induction false} NthLink(ops: seq<Op>, k: nat) returns (j: nat)
    requires k < CountLinks(ops)
    ensures j < |ops| && ops[j].Link? && CountLinks(ops[..j]) == k
  {
    var init := ops[..|ops| - 1];
    if k < CountLinks(init) {
      j := NthLink(init, k);
      assert ops[..j] == init[..j];
    } else {
      j := |ops| - 1;
    }
  }

  /** Writing the generated list succeeds exactly for writable programs. */
  lemma WriteSucceeds(ops: seq<Op>)
    ensures var s := Exec(INITIAL, ops);
            EmitAll(s.nodes, Finish(s)).Emitted? <==> Writable(ops)
  {
    var s := Exec(INITIAL, ops);
    var list := Finish(s);
    EmitAllSucceeds(s.nodes, list);
    if Writable(ops) {
      forall i | 0 <= i < |list|
        ensures Emit(s.nodes, list[i]).Emitted?
      {
        InsnWritable(ops, i);
      }
    } else {
      var j :| 0 <= j < |ops| && ops[j].Link? &&
               !(DeclaredSomehow(ops, ops[j].src) && DeclaredSomehow(ops, ops[j].dst) &&
                 PairText(ops[j].latency).Some? && PairText(ops[j].bandwidth).Some?);
      var i := Unwritable(ops, j);
    }
  }

  lemma InsnWritable(ops: seq<Op>, i: nat)
    requires Writable(ops) && i < |Finish(Exec(INITIAL, ops))|
    ensures Emit(Exec(INITIAL, ops).nodes, Finish(Exec(INITIAL, ops))[i]).Emitted?
  {
    hide *;
    var s := Exec(INITIAL, ops);
    var h, n := |s.links.helperOrder|, |s.links.insns|;
    AlwaysInv(ops);
    LinkCount(ops);
    if 3 <= i < 3 + h {
      FinishShape(s);
      HelperWritable(ops, i - 3);
    } else if 3 + h <= i < 3 + h + n {
      FinishShape(s);
      LinkWritable(ops, i - 3 - h);
    } else {
      FinishEnds(s, i);
    }
  }

  lemma LinkCount(ops: seq<Op>)
    ensures |Exec(INITIAL, ops).links.insns| == CountLinks(ops)
  {
    AlwaysInv(ops);
    CountersCount(INITIAL, ops);
    InternedOf(Exec(INITIAL, ops));
    hide Exec, Inv, Count, CountLinks;
  }

  /** The remaining entries of the list are the node counts and the fabric. */
  lemma FinishEnds(s: GenState, i: nat)
    requires Inv(s) && i < |Finish(s)| && !(3 <= i < 3 + |s.links.helperOrder| + |s.links.insns|)
    ensures Emit(s.nodes, Finish(s)[i]).Emitted?
  {
    var list := Finish(s);
    FinishShape(s);
    hide Finish, Inv, FabricNeeded;
  }

  lemma HelperWritable(ops: seq<Op>, h: nat)
    requires Writable(ops) && h < |Exec(INITIAL, ops).links.helperOrder|
    ensures var s := Exec(INITIAL, ops); Emit(s.nodes, MakeLinkHelper(h, s.links.helperOrder[h])).Emitted?
  {
    var links := Exec(INITIAL, ops).links;
    AlwaysInv(ops);
    CountersCount(INITIAL, ops);
    assert HasFirstUse(links.insns, h);
    var k: nat :| FirstUse(links.insns, h, k);
    hide Exec, Inv, LinksInv, CountLinks, Count, DeclaredSomehow, PairText;
    var j := NthLink(ops, k);
    LinkRecorded(ops, j);
  }

  lemma LinkWritable(ops: seq<Op>, k: nat)
    requires Writable(ops) && k < CountLinks(ops) && k < |Exec(INITIAL, ops).links.insns|
    ensures Emit(Exec(INITIAL, ops).nodes, Exec(INITIAL, ops).links.insns[k]).Emitted?
  {
    hide Exec, CountLinks, DeclaredSomehow, PairText, Emit, Wires, GpusDeclaredInTime;
    var j := NthLink(ops, k);
    LinkRecorded(ops, j);
    PassesAgree(ops, j);
  }

  lemma Unwritable(ops: seq<Op>, j: nat) returns (i: nat)
    requires j < |ops| && ops[j].Link?
    requires !(DeclaredSomehow(ops, ops[j].src) && DeclaredSomehow(ops, ops[j].dst) &&
               PairText(ops[j].latency).Some? && PairText(ops[j].bandwidth).Some?)
    ensures i < |Finish(Exec(INITIAL, ops))|
    ensures Emit(Exec(INITIAL, ops).nodes, Finish(Exec(INITIAL, ops))[i]).Failed?
  {
    hide Exec, DeclaredSomehow, PairText, Emit, Wires, GpusDeclaredInTime, Finish, Inv, FabricNeeded, CountLinks;
    var s := Exec(INITIAL, ops);
    AlwaysInv(ops);
    LinkRecorded(ops, j);
    PassesAgree(ops, j);
    FinishShape(s);
    var k, h := CountLinks(ops[..j]), |s.links.helperOrder|;
    var helper := s.links.insns[k].helper;
    if DeclaredSomehow(ops, ops[j].src) && DeclaredSomehow(ops, ops[j].dst) {
      NoPair(s.nodes, helper, AttrOf(Before(ops, j), ops[j]));
      i := 3 + helper;
    } else {
      i := 3 + h + k;
    }
  }

  lemma NoPair(n: NodeTables, id: nat, attr: LinkAttr)
    requires PairText(attr.latency) == None || PairText(attr.bandwidth) == None
    ensures Emit(n, MakeLinkHelper(id, attr)).Failed?
  {
  }
}
