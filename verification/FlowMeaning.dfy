/** The flow shorthands of trace_filter.hpp against the flow ids of utils.hpp. */
module FlowMeaning {
  import opened Wrappers
  import opened Memory
  import opened Text
  import opened FilterNumbers
  import opened FilterText
  import opened FilterFields
  import opened FilterSyntax
  import opened FilterGrammar
  import opened FilterProofs
  import opened FilterMeaning

  // ----- Records (trace-format.h) -----

  function Sip(r: Record): nat { Load(r, 16, 4) }

  function Dip(r: Record): nat { Load(r, 20, 4) }

  function Protocol(r: Record): nat { Load(r, 26, 1) }

  /** `data.sport`, `ack.sport` and `qp.sport` are the same two bytes of the union. */
  function Sport(r: Record): nat { Load(r, 32, 2) }

  function Dport(r: Record): nat { Load(r, 34, 2) }

  // ----- Flow ids (utils.hpp) -----

  /** The middle two bytes of both addresses and both ports, packed into 64 bits. */
  function FlowInt(sip: nat, dip: nat, sport: nat, dport: nat): nat {
    var src, dst := (sip / 256) % 65536, (dip / 256) % 65536;
    (((src * 65536 + dst) * 65536) + sport) * 65536 + dport
  }

  function GetFlowInt(r: Record): nat {
    if Protocol(r) in {0x6, 0x11, 0xFC, 0xFD, 0x0} then FlowInt(Sip(r), Dip(r), Sport(r), Dport(r))
    else FlowInt(Sip(r), Dip(r), 0, 0)
  }

  function GetReverseFlowInt(r: Record): nat {
    if Protocol(r) in {0x6, 0x11, 0xFC, 0xFD, 0x0} then FlowInt(Dip(r), Sip(r), Dport(r), Sport(r))
    else FlowInt(Dip(r), Sip(r), 0, 0)
  }

  function GetStandardFlowInt(r: Record): nat {
    if Protocol(r) in {0xFC, 0xFD} then GetReverseFlowInt(r) else GetFlowInt(r)
  }

  predicate IsFlow(r: Record) {
    Protocol(r) in {0x6, 0x11, 0xFC, 0xFD, 0x0}
  }

  lemma Digits(a: nat, b: U16, c: nat, d: U16)
    requires a * 65536 + b == c * 65536 + d
    ensures a == c && b == d
  {
    assert (a * 65536 + b) / 65536 == a;
  }

  /** Two flows have the same id exactly when their ports and the middle bytes of their addresses agree. */
  lemma FlowIntInjective(a: Flow, b: Flow)
    ensures FlowInt(a.sip, a.dip, a.sport, a.dport) == FlowInt(b.sip, b.dip, b.sport, b.dport) <==>
            && (a.sip / 256) % 65536 == (b.sip / 256) % 65536 && (a.dip / 256) % 65536 == (b.dip / 256) % 65536
            && a.sport == b.sport && a.dport == b.dport
  {
    var a1, a2 := (a.sip / 256) % 65536, (a.dip / 256) % 65536;
    var b1, b2 := (b.sip / 256) % 65536, (b.dip / 256) % 65536;
    if FlowInt(a.sip, a.dip, a.sport, a.dport) == FlowInt(b.sip, b.dip, b.sport, b.dport) {
      Digits((a1 * 65536 + a2) * 65536 + a.sport, a.dport, (b1 * 65536 + b2) * 65536 + b.sport, b.dport);
      Digits(a1 * 65536 + a2, a.sport, b1 * 65536 + b2, b.sport);
      Digits(a1, a2, b1, b2);
    }
  }

  /** The four fields of a flow id, each 16 bits wide, from the highest: source, destination, source port, destination
      port. */
  lemma FlowIntFields(sip: nat, dip: nat, sport: U16, dport: U16)
    ensures var id := FlowInt(sip, dip, sport, dport);
            && id / 0x1_0000_0000_0000 == (sip / 0x100) % 0x1_0000
            && (id / 0x1_0000_0000) % 0x1_0000 == (dip / 0x100) % 0x1_0000
            && (id / 0x1_0000) % 0x1_0000 == sport
            && id % 0x1_0000 == dport
  {
    var src, dst := (sip / 256) % 65536, (dip / 256) % 65536;
    var id := FlowInt(sip, dip, sport, dport);
    Halves(src * 65536 + dst, sport, dport);
    assert id == ((src * 65536 + dst) * 65536 + sport) * 65536 + dport;
    assert id / 0x1_0000_0000 == src * 65536 + dst;
  }

  lemma Halves(high: nat, middle: U16, low: U16)
    ensures var id := (high * 65536 + middle) * 65536 + low;
            id % 65536 == low && (id / 65536) % 65536 == middle && id / 0x1_0000_0000 == high
  {
    var id := (high * 65536 + middle) * 65536 + low;
    assert id / 65536 == high * 65536 + middle;
    assert id == high * 0x1_0000_0000 + (middle * 65536 + low);
  }

  /** The middle bytes of an address are its second and third in the record. */
  lemma MiddleBytes(r: Record)
    ensures var low: nat, high: nat := r[17], r[18];
            (Sip(r) / 0x100) % 0x1_0000 == low + 0x100 * high
    ensures var low: nat, high: nat := r[21], r[22];
            (Dip(r) / 0x100) % 0x1_0000 == low + 0x100 * high
  {
    FourBytes(r, 16);
    FourBytes(r, 20);
  }

  lemma FourBytes(r: Record, offset: nat)
    requires offset + 4 <= |r|
    ensures var low: nat, high: nat := r[offset + 1], r[offset + 2];
            (Load(r, offset, 4) / 0x100) % 0x1_0000 == low + 0x100 * high
  {
    var b0: nat, b1: nat, b2: nat, high := r[offset], r[offset + 1], r[offset + 2], Load(r, offset + 3, 1);
    assert Load(r, offset + 2, 2) == b2 + 256 * high;
    assert Load(r, offset + 1, 3) == b1 + 256 * Load(r, offset + 2, 2);
    assert Load(r, offset, 4) == b0 + 256 * Load(r, offset + 1, 3);
    hide Load;
    assert Load(r, offset, 4) / 256 == Load(r, offset + 1, 3) == b1 + 256 * b2 + 65536 * high;
  }

  /** A data record and the ACK or NACK that goes back on the same flow have the same standard flow id. */
  lemma AckMeetsData(data: Record, ack: Record)
    requires Protocol(data) in {0x6, 0x11} && Protocol(ack) in {0xFC, 0xFD}
    requires Sip(ack) == Dip(data) && Dip(ack) == Sip(data) && Sport(ack) == Dport(data) && Dport(ack) == Sport(data)
    ensures GetStandardFlowInt(ack) == GetStandardFlowInt(data)
  {
    assert Protocol(data) !in {0xFC, 0xFD};
  }

  // ----- What the shorthands accept -----

  /** The record goes from one end of the flow to the other, on one of the protocols that the filter knows. TCP data
      (protocol 6), which IsFlow counts, is not among them. */
  predicate MatchesFlow(f: Flow, r: Record) {
    && Sip(r) == f.sip && Dip(r) == f.dip && Sport(r) == f.sport && Dport(r) == f.dport
    && Protocol(r) in {0x11, 0xFC, 0xFD, 0x0}
  }

  ghost predicate Accepts(scan: Scanner, w: Written, r: Record) {
    Reading(scan, w).Some? && Test(Reading(scan, w).value, r)
  }

  lemma PowersOf256()
    ensures Pow256(1) == 256 && Pow256(2) == 65536 && Pow256(4) == 4294967296
  {
    assert Pow256(0) == 1;
    assert Pow256(3) == 16777216;
  }

  /** A single equality on a field. */
  lemma EqAccepts(scan: Scanner, field: string, value: string, n: nat, r: Record)
    requires Layout(field).Some? && scan.number(value) == n && n < Pow256(Layout(field).value.1)
    ensures Reading(scan, Eq(field, value)).Some?
    ensures Accepts(scan, Eq(field, value), r) <==> Load(r, Layout(field).value.0, Layout(field).value.1) == n
  {
    hide Layout, Load, Pow256;
    SmallMod(n, Pow256(Layout(field).value.1));
  }

  lemma ChainAccepts(scan: Scanner, left: Written, op: Conn, right: Written, r: Record)
    requires Reading(scan, left).Some? && Reading(scan, right).Some?
    ensures Reading(scan, Chain(left, op, right)).Some?
    ensures Accepts(scan, Chain(left, op, right), r) <==>
            if op.And? then Accepts(scan, left, r) && Accepts(scan, right, r)
            else Accepts(scan, left, r) || Accepts(scan, right, r)
  {
  }

  lemma BracketAccepts(scan: Scanner, w: Written, r: Record)
    ensures Reading(scan, Bracket(w)) == Reading(scan, w)
    ensures Accepts(scan, Bracket(w), r) <==> Accepts(scan, w, r)
  {
  }

  lemma DecimalEq(scan: Scanner, field: string, n: nat, r: Record)
    requires Faithful(scan) && Layout(field).Some? && n < Pow256(Layout(field).value.1) && n < LONG_LIMIT
    ensures Reading(scan, Eq(field, Decimal(n))).Some?
    ensures Accepts(scan, Eq(field, Decimal(n)), r) <==> Load(r, Layout(field).value.0, Layout(field).value.1) == n
  {
    EqAccepts(scan, field, Decimal(n), n, r);
  }

  lemma PortsAccept(scan: Scanner, sport: string, dport: string, f: Flow, r: Record)
    requires Faithful(scan) && Layout(sport) == Some((32, 2)) && Layout(dport) == Some((34, 2))
    ensures Reading(scan, Ports(sport, dport, f)).Some?
    ensures Accepts(scan, Ports(sport, dport, f), r) <==> Sport(r) == f.sport && Dport(r) == f.dport
  {
    hide Accepts, Reading, Eq, Layout, Load, Pow256;
    PowersOf256();
    DecimalEq(scan, sport, f.sport, r);
    DecimalEq(scan, dport, f.dport, r);
    ChainAccepts(scan, Eq(sport, Decimal(f.sport)), And, Eq(dport, Decimal(f.dport)), r);
  }

  lemma ProtocolEq(scan: Scanner, value: string, n: Byte, r: Record)
    requires scan.number(value) == n
    ensures Reading(scan, Eq("l3Prot", value)).Some?
    ensures Accepts(scan, Eq("l3Prot", value), r) <==> Protocol(r) == n
  {
    hide Accepts, Reading, Eq, Load, Pow256;
    PowersOf256();
    EqAccepts(scan, "l3Prot", value, n, r);
  }

  /** The three alternatives of a flow filter. */
  lemma PartsAccept(scan: Scanner, f: Flow, r: Record)
    requires Faithful(scan)
    ensures Reading(scan, Parts(f)).Some?
    ensures Accepts(scan, Parts(f), r) <==>
            Sport(r) == f.sport && Dport(r) == f.dport && Protocol(r) in {0x11, 0xFC, 0xFD, 0x0}
  {
    hide Accepts, Reading, Eq, Load, Ports;
    PortsAccept(scan, "data.sport", "data.dport", f, r);
    PortsAccept(scan, "ack.sport", "ack.dport", f, r);
    PortsAccept(scan, "qp.sport", "qp.dport", f, r);
    ProtocolEq(scan, "17", 0x11, r);
    ProtocolEq(scan, "0xFC", 0xFC, r);
    ProtocolEq(scan, "0xFD", 0xFD, r);
    ProtocolEq(scan, "0x0", 0x0, r);
    var ack := Chain(Eq("l3Prot", "0xFC"), Or, Eq("l3Prot", "0xFD"));
    ChainAccepts(scan, Eq("l3Prot", "17"), And, Ports("data.sport", "data.dport", f), r);
    ChainAccepts(scan, Eq("l3Prot", "0xFC"), Or, Eq("l3Prot", "0xFD"), r);
    BracketAccepts(scan, ack, r);
    ChainAccepts(scan, Bracket(ack), And, Ports("ack.sport", "ack.dport", f), r);
    ChainAccepts(scan, Eq("l3Prot", "0x0"), And, Ports("qp.sport", "qp.dport", f), r);
    BracketAccepts(scan, DataPart(f), r);
    BracketAccepts(scan, AckPart(f), r);
    BracketAccepts(scan, QpPart(f), r);
    ChainAccepts(scan, Bracket(AckPart(f)), Or, Bracket(QpPart(f)), r);
    ChainAccepts(scan, Bracket(DataPart(f)), Or, Chain(Bracket(AckPart(f)), Or, Bracket(QpPart(f))), r);
  }

  lemma FlowFilterAccepts(scan: Scanner, f: Flow, r: Record)
    requires Faithful(scan)
    ensures Reading(scan, FlowFilter(f)).Some?
    ensures Accepts(scan, FlowFilter(f), r) <==> MatchesFlow(f, r)
  {
    hide Accepts, Reading, Eq, Load, Parts, Pow256;
    PowersOf256();
    DecimalEq(scan, "sip", f.sip, r);
    DecimalEq(scan, "dip", f.dip, r);
    PartsAccept(scan, f, r);
    BracketAccepts(scan, Parts(f), r);
    ChainAccepts(scan, Eq("dip", Decimal(f.dip)), And, Bracket(Parts(f)), r);
    ChainAccepts(scan, Eq("sip", Decimal(f.sip)), And, Chain(Eq("dip", Decimal(f.dip)), And, Bracket(Parts(f))), r);
  }

  lemma EqKnown(field: string, value: string)
    requires field != "" && All(field, FieldChar) && value != "" && All(value, ValueChar) && Layout(field).Some?
    ensures WellWritten(Eq(field, value))
  {
  }

  lemma DecimalKnown(field: string, n: nat)
    requires field != "" && All(field, FieldChar) && Layout(field).Some?
    ensures WellWritten(Eq(field, Decimal(n)))
  {
    DecimalDigits(n);
    EqKnown(field, Decimal(n));
  }

  lemma ChainKnown(left: Written, op: Conn, right: Written)
    requires WellWritten(left) && WellWritten(right)
    ensures WellWritten(Bracket(left)) && WellWritten(Bracket(right))
    ensures !left.Chain? ==> WellWritten(Chain(left, op, right))
  {
  }

  lemma PortsKnown(sport: string, dport: string, f: Flow)
    requires sport != "" && All(sport, FieldChar) && Layout(sport).Some?
    requires dport != "" && All(dport, FieldChar) && Layout(dport).Some?
    ensures WellWritten(Ports(sport, dport, f))
  {
    hide WellWritten, Layout;
    DecimalKnown(sport, f.sport);
    DecimalKnown(dport, f.dport);
    ChainKnown(Eq(sport, Decimal(f.sport)), And, Eq(dport, Decimal(f.dport)));
  }

  lemma FlowWellWritten(f: Flow)
    ensures WellWritten(FlowFilter(f))
  {
    hide WellWritten, Layout, Decimal;
    FlowFieldsKnown();
    DecimalKnown("sip", f.sip);
    DecimalKnown("dip", f.dip);
    PortsKnown("data.sport", "data.dport", f);
    PortsKnown("ack.sport", "ack.dport", f);
    PortsKnown("qp.sport", "qp.dport", f);
    EqKnown("l3Prot", "17");
    EqKnown("l3Prot", "0xFC");
    EqKnown("l3Prot", "0xFD");
    EqKnown("l3Prot", "0x0");
    ChainKnown(Eq("l3Prot", "17"), And, Ports("data.sport", "data.dport", f));
    ChainKnown(Eq("l3Prot", "0x0"), And, Ports("qp.sport", "qp.dport", f));
    var ack := Chain(Eq("l3Prot", "0xFC"), Or, Eq("l3Prot", "0xFD"));
    ChainKnown(Eq("l3Prot", "0xFC"), Or, Eq("l3Prot", "0xFD"));
    ChainKnown(ack, And, ack);
    ChainKnown(Bracket(ack), And, Ports("ack.sport", "ack.dport", f));
    ChainKnown(DataPart(f), Or, AckPart(f));
    ChainKnown(QpPart(f), Or, QpPart(f));
    ChainKnown(Bracket(AckPart(f)), Or, Bracket(QpPart(f)));
    ChainKnown(Bracket(DataPart(f)), Or, Chain(Bracket(AckPart(f)), Or, Bracket(QpPart(f))));
    ChainKnown(Parts(f), Or, Parts(f));
    ChainKnown(Eq("dip", Decimal(f.dip)), And, Bracket(Parts(f)));
    ChainKnown(Eq("sip", Decimal(f.sip)), And, Chain(Eq("dip", Decimal(f.dip)), And, Bracket(Parts(f))));
  }

  lemma FlowFieldsKnown()
    ensures Layout("sip").Some? && Layout("dip").Some? && Layout("l3Prot").Some?
    ensures Layout("data.sport").Some? && Layout("data.dport").Some?
    ensures Layout("ack.sport").Some? && Layout("ack.dport").Some?
    ensures Layout("qp.sport").Some? && Layout("qp.dport").Some?
  {
  }

  // ----- The theorems about filter texts -----

  /** The filter text t accepts record r. */
  ghost predicate FilterAccepts(scan: Scanner, t: string, r: Record) {
    Parse(scan, t).Some? && Test(Parse(scan, t).value, r)
  }

  /** A base expression that uses a shorthand, and the flow it names. */
  ghost predicate NamesFlow(scan: Scanner, a: Atom, f: Flow) {
    WellFormed(a) && a.cmp == EQ && scan.four(a.value) == Some((f.sip, f.dip, f.sport, f.dport))
  }

  lemma ShorthandParse(scan: Scanner, a: Atom, w: Written)
    requires WellFormed(a) && Layout(a.field).None? && Expansion(scan, a) == Some(w) && WellWritten(w)
    ensures Parse(scan, Print(Base(a))) == Reading(scan, w)
  {
    hide Layout, Expansion;
    ParsePrint(scan, w);
    BasePrint(a);
    ExpansionLiteral(scan, a);
    var tree := Reading(scan, w).value;
    AtomChars(Print(Base(a)), a);
    PrintDerives(scan, w);
    assert AtomTree(scan, a, tree);
    assert IsAtom(scan, Print(Base(a)), tree);
    ParseComplete(scan, Print(Base(a)), tree);
  }

  /** "flow=q" accepts exactly the records of flow q, "rflow=q" those of the reverse flow, "biflow=q" both. */
  lemma FlowShorthands(scan: Scanner, a: Atom, f: Flow, r: Record)
    requires Faithful(scan) && NamesFlow(scan, a, f)
    ensures a.field == "flow" ==> (FilterAccepts(scan, Print(Base(a)), r) <==> MatchesFlow(f, r))
    ensures a.field == "rflow" ==> (FilterAccepts(scan, Print(Base(a)), r) <==> MatchesFlow(Reverse(f), r))
    ensures a.field == "biflow" ==>
              (FilterAccepts(scan, Print(Base(a)), r) <==> MatchesFlow(f, r) || MatchesFlow(Reverse(f), r))
  {
    hide MatchesFlow, FlowFilter, Print, Test, WellWritten, Reading, Parse, Layout;
    FlowFilterAccepts(scan, f, r);
    FlowFilterAccepts(scan, Reverse(f), r);
    FlowWellWritten(f);
    FlowWellWritten(Reverse(f));
    NoShorthandField();
    if a.field == "flow" {
      ShorthandParse(scan, a, FlowFilter(f));
    } else if a.field == "rflow" {
      ShorthandParse(scan, a, FlowFilter(Reverse(f)));
    } else if a.field == "biflow" {
      BiflowAccepts(scan, f, r);
      ShorthandParse(scan, a, BiflowFilter(f));
    }
  }

  lemma NoShorthandField()
    ensures Layout("flow") == Layout("rflow") == Layout("biflow") == None
  {
  }

  lemma BiflowAccepts(scan: Scanner, f: Flow, r: Record)
    requires Faithful(scan)
    ensures WellWritten(BiflowFilter(f))
    ensures Accepts(scan, BiflowFilter(f), r) <==> MatchesFlow(f, r) || MatchesFlow(Reverse(f), r)
  {
    hide MatchesFlow, FlowFilter, WellWritten, Reading, Accepts;
    FlowFilterAccepts(scan, f, r);
    FlowFilterAccepts(scan, Reverse(f), r);
    FlowWellWritten(f);
    FlowWellWritten(Reverse(f));
    ChainKnown(FlowFilter(f), Or, FlowFilter(Reverse(f)));
    ChainKnown(Bracket(FlowFilter(f)), Or, Bracket(FlowFilter(Reverse(f))));
    BracketAccepts(scan, FlowFilter(f), r);
    BracketAccepts(scan, FlowFilter(Reverse(f)), r);
    ChainAccepts(scan, Bracket(FlowFilter(f)), Or, Bracket(FlowFilter(Reverse(f))), r);
  }

  /** A record accepted by "flow=q" has the flow id of q, and one accepted by "rflow=q" has it in reverse. */
  lemma AcceptedFlowInt(scan: Scanner, a: Atom, f: Flow, r: Record)
    requires Faithful(scan) && NamesFlow(scan, a, f) && FilterAccepts(scan, Print(Base(a)), r)
    ensures a.field == "flow" ==> IsFlow(r) && GetFlowInt(r) == FlowInt(f.sip, f.dip, f.sport, f.dport)
    ensures a.field == "rflow" ==> IsFlow(r) && GetReverseFlowInt(r) == FlowInt(f.sip, f.dip, f.sport, f.dport)
  {
    hide FilterAccepts;
    FlowShorthands(scan, a, f, r);
  }

  /** On the way out data records, on the way back ACK and NACK records carry the id of the flow as standard id. */
  lemma StandardDirection(scan: Scanner, a: Atom, f: Flow, r: Record)
    requires Faithful(scan) && NamesFlow(scan, a, f) && FilterAccepts(scan, Print(Base(a)), r)
    ensures a.field == "flow" && Protocol(r) !in {0xFC, 0xFD} ==>
              GetStandardFlowInt(r) == FlowInt(f.sip, f.dip, f.sport, f.dport)
    ensures a.field == "rflow" && Protocol(r) in {0xFC, 0xFD} ==>
              GetStandardFlowInt(r) == FlowInt(f.sip, f.dip, f.sport, f.dport)
  {
    hide FilterAccepts, Print, NamesFlow, FlowInt;
    AcceptedFlowInt(scan, a, f, r);
  }

  /** Of the records that count as part of a flow, going between its ends, `flow` leaves out exactly the TCP data. */
  lemma TcpNotAccepted(scan: Scanner, a: Atom, f: Flow, r: Record)
    requires Faithful(scan) && NamesFlow(scan, a, f) && a.field == "flow" && IsFlow(r)
    requires Sip(r) == f.sip && Dip(r) == f.dip && Sport(r) == f.sport && Dport(r) == f.dport
    ensures FilterAccepts(scan, Print(Base(a)), r) <==> Protocol(r) != 6
  {
    hide FilterAccepts;
    FlowShorthands(scan, a, f, r);
  }

  lemma QueueFilterAccepts(scan: Scanner, node: U16, intf: Byte, qidx: Byte, r: Record)
    requires Faithful(scan)
    ensures WellWritten(QueueFilter(node, intf, qidx))
    ensures Accepts(scan, QueueFilter(node, intf, qidx), r) <==>
            Load(r, 8, 2) == node && Load(r, 10, 1) == intf && Load(r, 11, 1) == qidx
  {
    QueueFieldsKnown();
    PowersOf256();
    hide Accepts, Reading, Eq, Load, Pow256, Layout, WellWritten, Decimal, FieldName;
    DecimalEq(scan, "node", node, r);
    DecimalEq(scan, "intf", intf, r);
    DecimalEq(scan, "qidx", qidx, r);
    var rest := Chain(Eq("intf", Decimal(intf)), And, Eq("qidx", Decimal(qidx)));
    ChainAccepts(scan, Eq("intf", Decimal(intf)), And, Eq("qidx", Decimal(qidx)), r);
    ChainAccepts(scan, Eq("node", Decimal(node)), And, rest, r);
    QueueWellWritten(node, intf, qidx);
  }

  lemma QueueWellWritten(node: nat, intf: nat, qidx: nat)
    ensures WellWritten(QueueFilter(node, intf, qidx))
  {
    HeaderNames();
    hide WellWritten, Layout, Decimal;
    QueueFieldsKnown();
    DecimalKnown("node", node);
    DecimalKnown("intf", intf);
    DecimalKnown("qidx", qidx);
    ChainKnown(Eq("intf", Decimal(intf)), And, Eq("qidx", Decimal(qidx)));
    ChainKnown(Eq("node", Decimal(node)), And, Chain(Eq("intf", Decimal(intf)), And, Eq("qidx", Decimal(qidx))));
  }

  lemma QueueFieldsKnown()
    ensures Layout("node") == Some((8, 2)) && Layout("intf") == Some((10, 1)) && Layout("qidx") == Some((11, 1))
    ensures Layout("queue") == None
  {
  }

  /** "queue=n,i,q" accepts exactly the records of that node, interface and queue. */
  lemma QueueShorthand(scan: Scanner, a: Atom, node: U16, intf: Byte, qidx: Byte, r: Record)
    requires Faithful(scan) && WellFormed(a) && a.field == "queue" && a.cmp == EQ
    requires scan.three(a.value) == Some((node, intf, qidx))
    ensures FilterAccepts(scan, Print(Base(a)), r) <==>
            Load(r, 8, 2) == node && Load(r, 10, 1) == intf && Load(r, 11, 1) == qidx
  {
    QueueFieldsKnown();
    assert Expansion(scan, a) == Some(QueueFilter(node, intf, qidx));
    hide QueueFilter, Print, Test, WellWritten, Reading, Parse, Layout, Load, Expansion;
    QueueFilterAccepts(scan, node, intf, qidx, r);
    ShorthandParse(scan, a, QueueFilter(node, intf, qidx));
  }

  /** A base expression on a known field compares that field with the number, cut to the field's width. */
  lemma BaseAccepts(scan: Scanner, a: Atom, r: Record)
    requires WellFormed(a) && Layout(a.field).Some?
    ensures var (offset, width) := Layout(a.field).value;
            FilterAccepts(scan, Print(Base(a)), r) <==>
            Compare(a.cmp, Load(r, offset, width), scan.number(a.value) % Pow256(width))
  {
    hide Print, Parse, Layout, Load, Pow256;
    ParsePrint(scan, Base(a));
  }
}
