/** Written filters: what a filter looks like on paper, and the expansions of the shorthands. */
module FilterSyntax {
  import opened Wrappers
  import opened Memory
  import opened Text
  import opened FilterText
  import opened FilterFields

  /** A base expression, a bracketed filter, or a chain `left op right` whose left side is one of these two. */
  datatype Written =
    | Base(a: Atom)
    | Bracket(inner: Written)
    | Chain(left: Written, op: Conn, right: Written)

  predicate Proper(w: Written) {
    match w
    case Base(_) => true
    case Bracket(inner) => Proper(inner)
    case Chain(left, _, right) => !left.Chain? && Proper(left) && Proper(right)
  }

  function Print(w: Written): string {
    match w
    case Base(a) => a.field + CmpText(a.cmp) + a.value
    case Bracket(inner) => "(" + Print(inner) + ")"
    case Chain(left, op, right) => Print(left) + [ConnChar(op)] + Print(right)
  }

  /** `left op (right)`, with both connectives of equal precedence and associating to the right. */
  function Reading(scan: Scanner, w: Written): (r: Option<Tree>)
    ensures r.Some? ==> TreeFits(r.value)
  {
    match w
    case Base(a) => (
      match GetField(scan, a)
      case None => None
      case Some(f) => Some(Leaf(f)))
    case Bracket(inner) => Reading(scan, inner)
    case Chain(left, op, right) =>
      match Reading(scan, left)
      case None => None
      case Some(l) =>
        match Reading(scan, right)
        case None => None
        case Some(r) => Some(Branch(op, l, r))
  }

  // ----- The shorthands -----

  datatype Flow = Flow(sip: U32, dip: U32, sport: U16, dport: U16)

  function Reverse(f: Flow): Flow {
    Flow(f.dip, f.sip, f.dport, f.sport)
  }

  function Eq(field: string, value: string): Written {
    Base(Atom(field, EQ, value))
  }

  function Ports(sport: string, dport: string, f: Flow): Written {
    Chain(Eq(sport, Decimal(f.sport)), And, Eq(dport, Decimal(f.dport)))
  }

  function DataPart(f: Flow): Written {
    Chain(Eq("l3Prot", "17"), And, Ports("data.sport", "data.dport", f))
  }

  function AckPart(f: Flow): Written {
    Chain(Bracket(Chain(Eq("l3Prot", "0xFC"), Or, Eq("l3Prot", "0xFD"))), And, Ports("ack.sport", "ack.dport", f))
  }

  function QpPart(f: Flow): Written {
    Chain(Eq("l3Prot", "0x0"), And, Ports("qp.sport", "qp.dport", f))
  }

  /** sip=..&dip=..&((l3Prot=17&data ports)|((l3Prot=0xFC|l3Prot=0xFD)&ack ports)|(l3Prot=0x0&qp ports)) */
  function FlowFilter(f: Flow): Written {
    Chain(Eq("sip", Decimal(f.sip)), And, Chain(Eq("dip", Decimal(f.dip)), And, Bracket(Parts(f))))
  }

  function Parts(f: Flow): Written {
    Chain(Bracket(DataPart(f)), Or, Chain(Bracket(AckPart(f)), Or, Bracket(QpPart(f))))
  }

  function BiflowFilter(f: Flow): Written {
    Chain(Bracket(FlowFilter(f)), Or, Bracket(FlowFilter(Reverse(f))))
  }

  function QueueFilter(node: nat, intf: nat, qidx: nat): Written {
    Chain(Eq("node", Decimal(node)), And, Chain(Eq("intf", Decimal(intf)), And, Eq("qidx", Decimal(qidx))))
  }

  /** `parse_shorthand` up to its call of `_parse`: what a shorthand is replaced by. */
  function Expansion(scan: Scanner, a: Atom): Option<Written> {
    if a.field == "flow" || a.field == "biflow" || a.field == "rflow" then
      if a.cmp != EQ then None
      else
        match scan.four(a.value)
        case None => None
        case Some((sip, dip, sport, dport)) =>
          var f := Flow(sip, dip, sport, dport);
          Some(if a.field == "flow" then FlowFilter(f)
               else if a.field == "biflow" then BiflowFilter(f)
               else FlowFilter(Reverse(f)))
    else if a.field == "queue" then
      if a.cmp != EQ then None
      else
        match scan.three(a.value)
        case None => None
        case Some((node, intf, qidx)) => Some(QueueFilter(node, intf, qidx))
    else None
  }

  // ----- Shorthands cannot expand into shorthands -----

  /** Every shorthand name has a 'w' or a 'u' in it; no expansion has. */
  predicate MayAbbreviate(t: string) {
    'w' in t || 'u' in t
  }

  predicate Literal(w: Written) {
    match w
    case Base(a) => !MayAbbreviate(a.field) && !MayAbbreviate(a.value)
    case Bracket(inner) => Literal(inner)
    case Chain(left, _, right) => Literal(left) && Literal(right)
  }

  lemma {:induction false} LiteralText(w: Written)
    requires Literal(w)
    ensures !MayAbbreviate(Print(w))
  {
    match w
    case Base(_) =>
    case Bracket(inner) => LiteralText(inner);
    case Chain(left, _, right) =>
      LiteralText(left);
      LiteralText(right);
  }

  lemma EqDecimal(field: string, n: nat)
    requires !MayAbbreviate(field)
    ensures Literal(Eq(field, Decimal(n))) && Proper(Eq(field, Decimal(n)))
  {
    DecimalDigits(n);
  }

  lemma PortsLiteral(sport: string, dport: string, f: Flow)
    requires !MayAbbreviate(sport) && !MayAbbreviate(dport)
    ensures Literal(Ports(sport, dport, f)) && Proper(Ports(sport, dport, f))
  {
    EqDecimal(sport, f.sport);
    EqDecimal(dport, f.dport);
  }

  lemma PortNamesLiteral()
    ensures !MayAbbreviate("data.sport") && !MayAbbreviate("data.dport") && !MayAbbreviate("ack.sport")
    ensures !MayAbbreviate("ack.dport") && !MayAbbreviate("qp.sport") && !MayAbbreviate("qp.dport")
  {
  }

  lemma ProtocolsLiteral()
    ensures !MayAbbreviate("l3Prot") && !MayAbbreviate("17") && !MayAbbreviate("0xFC")
    ensures !MayAbbreviate("0xFD") && !MayAbbreviate("0x0")
  {
  }

  ghost predicate Unabbreviated(w: Written) {
    Literal(w) && Proper(w)
  }

  lemma EqUnabbreviated(field: string, value: string)
    requires !MayAbbreviate(field) && !MayAbbreviate(value)
    ensures Unabbreviated(Eq(field, value))
  {
  }

  lemma ChainUnabbreviated(left: Written, op: Conn, right: Written)
    requires Unabbreviated(left) && Unabbreviated(right)
    ensures !left.Chain? ==> Unabbreviated(Chain(left, op, right))
    ensures Unabbreviated(Chain(Bracket(left), op, right))
    ensures Unabbreviated(Bracket(left))
  {
  }

  lemma PartsLiteral(f: Flow)
    ensures Literal(Parts(f)) && Proper(Parts(f))
  {
    hide MayAbbreviate, Ports, Decimal, Literal, Proper;
    PortNamesLiteral();
    ProtocolsLiteral();
    PortsLiteral("data.sport", "data.dport", f);
    PortsLiteral("ack.sport", "ack.dport", f);
    PortsLiteral("qp.sport", "qp.dport", f);
    EqUnabbreviated("l3Prot", "17");
    EqUnabbreviated("l3Prot", "0xFC");
    EqUnabbreviated("l3Prot", "0xFD");
    EqUnabbreviated("l3Prot", "0x0");
    ChainUnabbreviated(Eq("l3Prot", "17"), And, Ports("data.sport", "data.dport", f));
    ChainUnabbreviated(Eq("l3Prot", "0xFC"), Or, Eq("l3Prot", "0xFD"));
    ChainUnabbreviated(Chain(Eq("l3Prot", "0xFC"), Or, Eq("l3Prot", "0xFD")), And, Ports("ack.sport", "ack.dport", f));
    ChainUnabbreviated(Eq("l3Prot", "0x0"), And, Ports("qp.sport", "qp.dport", f));
    ChainUnabbreviated(QpPart(f), Or, QpPart(f));
    ChainUnabbreviated(AckPart(f), Or, Bracket(QpPart(f)));
    ChainUnabbreviated(DataPart(f), Or, Chain(Bracket(AckPart(f)), Or, Bracket(QpPart(f))));
  }

  lemma FlowLiteral(f: Flow)
    ensures Literal(FlowFilter(f)) && Proper(FlowFilter(f))
  {
    EqDecimal("sip", f.sip);
    EqDecimal("dip", f.dip);
    PartsLiteral(f);
  }

  lemma ExpansionLiteral(scan: Scanner, a: Atom)
    requires Expansion(scan, a).Some?
    ensures Proper(Expansion(scan, a).value) && !MayAbbreviate(Print(Expansion(scan, a).value))
    ensures MayAbbreviate(a.field)
  {
    var w := Expansion(scan, a).value;
    assert "flow"[3] == 'w' && "biflow"[5] == 'w' && "rflow"[4] == 'w' && "queue"[1] == 'u';
    if a.field == "queue" {
      var (node, intf, qidx) := scan.three(a.value).value;
      EqDecimal("node", node);
      EqDecimal("intf", intf);
      EqDecimal("qidx", qidx);
    } else {
      var (sip, dip, sport, dport) := scan.four(a.value).value;
      FlowLiteral(Flow(sip, dip, sport, dport));
      FlowLiteral(Reverse(Flow(sip, dip, sport, dport)));
    }
    LiteralText(w);
  }

  // ----- The buffers into which shorthands are expanded -----

  function Pow10(k: nat): nat {
    if k == 0 then 1 else 10 * Pow10(k - 1)
  }

  lemma {:induction false} DecimalLength(n: nat, k: nat)
    requires k > 0 && n < Pow10(k)
    ensures |Decimal(n)| <= k
  {
    if n >= 10 {
      assert Pow10(1) == 10 * Pow10(0);
      DecimalLength(n / 10, k - 1);
    }
  }

  lemma WidthLengths(a: U32, b: U16, c: Byte)
    ensures |Decimal(a)| <= 10 && |Decimal(b)| <= 5 && |Decimal(c)| <= 3
  {
    assert Pow10(1) == 10 * Pow10(0) && Pow10(2) == 100 && Pow10(3) == 1000 && Pow10(4) == 10000 && Pow10(5) == 100000;
    assert Pow10(6) == 1000000 && Pow10(7) == 10000000 && Pow10(8) == 100000000;
    assert Pow10(9) == 1000000000 && Pow10(10) == 10000000000;
    hide Decimal;
    DecimalLength(a, 10);
    DecimalLength(b, 5);
    DecimalLength(c, 3);
  }

  /** The length of the text of a written filter. */
  function Length(w: Written): (n: nat)
    ensures n == |Print(w)|
  {
    match w
    case Base(a) => |a.field| + |CmpText(a.cmp)| + |a.value|
    case Bracket(inner) => Length(inner) + 2
    case Chain(left, _, right) => Length(left) + 1 + Length(right)
  }

  lemma PortsLength(sport: string, dport: string, f: Flow)
    ensures Length(Ports(sport, dport, f)) <= |sport| + |dport| + 13
  {
    WidthLengths(0, f.sport, 0);
    WidthLengths(0, f.dport, 0);
    hide Decimal, Print;
    EqLength(sport, Decimal(f.sport));
    EqLength(dport, Decimal(f.dport));
  }

  lemma EqLength(field: string, value: string)
    ensures Length(Eq(field, value)) == |field| + 1 + |value|
  {
  }

  lemma PartsLength(f: Flow)
    ensures Length(Parts(f)) <= 148
  {
    PortsLength("data.sport", "data.dport", f);
    PortsLength("ack.sport", "ack.dport", f);
    PortsLength("qp.sport", "qp.dport", f);
    hide Print, Ports;
    assert Length(DataPart(f)) <= 43;
    assert Length(Chain(Eq("l3Prot", "0xFC"), Or, Eq("l3Prot", "0xFD"))) == 23;
    assert Length(AckPart(f)) <= 57;
    assert Length(QpPart(f)) <= 40;
    assert Length(Chain(Bracket(AckPart(f)), Or, Bracket(QpPart(f)))) <= 102;
  }

  lemma FlowLength(f: Flow)
    ensures Length(FlowFilter(f)) <= 180
  {
    PartsLength(f);
    WidthLengths(f.sip, 0, 0);
    WidthLengths(f.dip, 0, 0);
    hide Print, Parts, Decimal;
    EqLength("sip", Decimal(f.sip));
    EqLength("dip", Decimal(f.dip));
    assert Length(Bracket(Parts(f))) <= 150;
    assert Length(Chain(Eq("dip", Decimal(f.dip)), And, Bracket(Parts(f)))) <= 165;
  }

  /** Every expansion fits into its buffer of 512 characters, with the end mark. */
  lemma ExpansionFits(scan: Scanner, a: Atom)
    requires Expansion(scan, a).Some?
    ensures |Print(Expansion(scan, a).value)| < 512
  {
    hide Print, FlowFilter, Decimal;
    if a.field == "queue" {
      var (node, intf, qidx) := scan.three(a.value).value;
      WidthLengths(0, node, intf);
      WidthLengths(0, node, qidx);
      EqLength("node", Decimal(node));
      EqLength("intf", Decimal(intf));
      EqLength("qidx", Decimal(qidx));
      assert Length(Chain(Eq("intf", Decimal(intf)), And, Eq("qidx", Decimal(qidx)))) <= 17;
    } else {
      var (sip, dip, sport, dport) := scan.four(a.value).value;
      var f := Flow(sip, dip, sport, dport);
      FlowLength(f);
      FlowLength(Reverse(f));
      assert Length(Bracket(FlowFilter(f))) <= 182 && Length(Bracket(FlowFilter(Reverse(f)))) <= 182;
      assert Length(BiflowFilter(f)) <= 365;
    }
    assert Length(Expansion(scan, a).value) < 512;
  }
}
