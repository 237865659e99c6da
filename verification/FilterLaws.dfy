/** What filter texts do, said of the texts themselves: which base expressions are accepted, what their operators and
    the connectives mean, and where the fields lie. */
module FilterLaws {
  import opened Wrappers
  import opened Memory
  import opened FilterText
  import opened FilterFields
  import opened FilterSyntax
  import opened FilterGrammar
  import opened FilterProofs
  import opened FilterMeaning
  import opened FlowMeaning

  // ----- Which base expressions are accepted -----

  /** A text that is a base expression is parsed as one. */
  lemma BaseParsed(scan: Scanner, a: Atom)
    requires WellFormed(a)
    ensures Parse(scan, Print(Base(a))) == ParseAtom(scan, a)
  {
    var t := Print(Base(a));
    BasePrint(a);
    ScanAtomComplete(t, a);
    assert t[..|t|] == t;
    StartsPlain(t, |t|, a);
    StripPlain(t);
    hide Print, AtomText, Start, SplitAtom, SplitBracket;
  }

  lemma ExpansionParses(scan: Scanner, a: Atom)
    requires Layout(a.field) == None && Expansion(scan, a).Some?
    ensures ParseAtom(scan, a).Some?
  {
    ExpansionWellWritten(scan, a);
    hide Layout, Expansion, Parse, WellWritten;
    ParsePrint(scan, Expansion(scan, a).value);
  }

  lemma ExpansionWellWritten(scan: Scanner, a: Atom)
    requires Expansion(scan, a).Some?
    ensures WellWritten(Expansion(scan, a).value)
  {
    hide FlowFilter, QueueFilter, WellWritten;
    if a.field == "queue" {
      var (node, intf, qidx) := scan.three(a.value).value;
      QueueWellWritten(node, intf, qidx);
    } else {
      var (sip, dip, sport, dport) := scan.four(a.value).value;
      var f := Flow(sip, dip, sport, dport);
      FlowWellWritten(f);
      FlowWellWritten(Reverse(f));
      ChainKnown(FlowFilter(f), Or, FlowFilter(Reverse(f)));
      ChainKnown(Bracket(FlowFilter(f)), Or, Bracket(FlowFilter(Reverse(f))));
    }
  }

  lemma ShorthandsAreNoFields()
    ensures Layout("flow") == None && Layout("biflow") == None && Layout("rflow") == None && Layout("queue") == None
  {
  }

  const FLOW_SHORTHANDS := ["flow", "biflow", "rflow"]

  /** The format of the shorthand reads the value. */
  ghost predicate ValueReads(scan: Scanner, a: Atom) {
    if a.field == "queue" then scan.three(a.value).Some? else scan.four(a.value).Some?
  }

  lemma ExpansionExists(scan: Scanner, a: Atom)
    ensures Expansion(scan, a).Some? <==>
            (a.field in FLOW_SHORTHANDS || a.field == "queue") && a.cmp == EQ && ValueReads(scan, a)
  {
    var names := FLOW_SHORTHANDS;
    assert names[0] == "flow" && names[1] == "biflow" && names[2] == "rflow";
    assert "queue" != "flow" && "queue" != "rflow" && "queue" != "biflow";
    hide FlowFilter, BiflowFilter, QueueFilter;
  }

  lemma ShorthandsHaveNoLayout(name: string)
    ensures name in FLOW_SHORTHANDS || name == "queue" ==> Layout(name) == None
  {
    var names := FLOW_SHORTHANDS;
    assert names[0] == "flow" && names[1] == "biflow" && names[2] == "rflow";
    ShorthandsAreNoFields();
    hide Layout;
  }

  lemma ParsedByExpansion(scan: Scanner, a: Atom)
    ensures Layout(a.field).Some? ==> ParseAtom(scan, a).Some?
    ensures Layout(a.field) == None ==> (ParseAtom(scan, a).Some? <==> Expansion(scan, a).Some?)
  {
    if Layout(a.field) == None && Expansion(scan, a).Some? {
      ExpansionParses(scan, a);
    }
    hide Layout, Expansion, Parse;
  }

  /** A base expression is accepted exactly if its field is known, or it is a shorthand with the operator `=` and a
      value that the format of the shorthand reads. */
  lemma BaseAccepted(scan: Scanner, a: Atom)
    requires WellFormed(a)
    ensures a.field in FLOW_SHORTHANDS ==>
              (Parse(scan, Print(Base(a))).Some? <==> a.cmp == EQ && scan.four(a.value).Some?)
    ensures a.field == "queue" ==>
              (Parse(scan, Print(Base(a))).Some? <==> a.cmp == EQ && scan.three(a.value).Some?)
    ensures Layout(a.field).Some? ==> Parse(scan, Print(Base(a))).Some?
    ensures a.field !in FLOW_SHORTHANDS && a.field != "queue" && Layout(a.field) == None ==>
              Parse(scan, Print(Base(a))) == None
  {
    hide Layout, Print, Expansion, Parse, ParseAtom, WellFormed;
    BaseParsed(scan, a);
    ShorthandsHaveNoLayout(a.field);
    ParsedByExpansion(scan, a);
    ExpansionExists(scan, a);
    QueueIsNoFlow();
  }

  lemma QueueIsNoFlow()
    ensures "queue" !in FLOW_SHORTHANDS
  {
    var names := FLOW_SHORTHANDS;
    assert names[0] == "flow" && names[1] == "biflow" && names[2] == "rflow";
  }

  /** With any other operator a shorthand is refused. */
  lemma ShorthandNeedsEquals(scan: Scanner, field: string, op: string, value: string)
    requires field in FLOW_SHORTHANDS || field == "queue"
    requires op in [">", ">=", "<", "<=", "!="] && value != "" && All(value, ValueChar)
    ensures Parse(scan, field + op + value) == None
  {
    var names := FLOW_SHORTHANDS;
    assert names[0] == "flow" && names[1] == "biflow" && names[2] == "rflow";
    ShorthandChars();
    var ops := [">", ">=", "<", "<=", "!="];
    assert ops[0] == ">" && ops[1] == ">=" && ops[2] == "<" && ops[3] == "<=" && ops[4] == "!=";
    var cmp :=
      if op == ">" then GT else if op == ">=" then GE else if op == "<" then LT else if op == "<=" then LE else NE;
    assert CmpText(cmp) == op;
    BaseAccepted(scan, Atom(field, cmp, value));
  }

  lemma ShorthandChars()
    ensures All("flow", FieldChar) && All("biflow", FieldChar) && All("rflow", FieldChar) && All("queue", FieldChar)
  {
  }

  // ----- What the operators mean -----

  ghost predicate GoodName(name: string) {
    name != "" && All(name, FieldChar)
  }

  lemma HeaderChars()
    ensures GoodName("time") && GoodName("node") && GoodName("nodeType") && GoodName("intf") && GoodName("qidx")
    ensures GoodName("qlen") && GoodName("sip") && GoodName("dip") && GoodName("size")
  {
  }

  lemma RestChars()
    ensures GoodName("l3Prot") && GoodName("event") && GoodName("ecn")
    ensures GoodName("data.sport") && GoodName("data.dport") && GoodName("data.seq")
  {
  }

  lemma AckChars()
    ensures GoodName("ack.sport") && GoodName("ack.dport") && GoodName("ack.flags")
    ensures GoodName("qp.sport") && GoodName("qp.dport")
  {
  }

  lemma KnownChars(name: string)
    requires Layout(name).Some?
    ensures GoodName(name)
  {
    HeaderChars();
    RestChars();
    AckChars();
    hide GoodName;
  }

  lemma OperatorText(scan: Scanner, field: string, cmp: Cmp, value: string, r: Record)
    requires Layout(field).Some? && value != "" && All(value, ValueChar)
    ensures var (o, w) := Layout(field).value;
            FilterAccepts(scan, field + CmpText(cmp) + value, r) <==>
            Compare(cmp, Load(r, o, w), scan.number(value) % Pow256(w))
  {
    var a := Atom(field, cmp, value);
    KnownChars(field);
    assert WellFormed(a) && Print(Base(a)) == field + CmpText(cmp) + value;
    hide FilterAccepts, Layout, Load, Pow256, Print, WellFormed, CmpText, Compare;
    BaseAccepts(scan, a, r);
  }

  /** For every known field: the six operators compare the bytes of the field, as a number, with the number of the text
      cut to the width of the field. */
  lemma OperatorTexts(scan: Scanner, field: string, value: string, r: Record)
    requires Layout(field).Some? && value != "" && All(value, ValueChar)
    ensures var (o, w) := Layout(field).value;
            var stored, n := Load(r, o, w), scan.number(value) % Pow256(w);
            && (FilterAccepts(scan, field + "=" + value, r) <==> stored == n)
            && (FilterAccepts(scan, field + ">" + value, r) <==> stored > n)
            && (FilterAccepts(scan, field + ">=" + value, r) <==> stored >= n)
            && (FilterAccepts(scan, field + "<" + value, r) <==> stored < n)
            && (FilterAccepts(scan, field + "<=" + value, r) <==> stored <= n)
            && (FilterAccepts(scan, field + "!=" + value, r) <==> stored != n)
  {
    hide FilterAccepts, Layout, Load, Pow256, All;
    OperatorText(scan, field, EQ, value, r);
    OperatorText(scan, field, GT, value, r);
    OperatorText(scan, field, GE, value, r);
    OperatorText(scan, field, LT, value, r);
    OperatorText(scan, field, LE, value, r);
    OperatorText(scan, field, NE, value, r);
  }

  // ----- What the connectives mean -----

  /** `&` asks for both sides, `|` for one of them; brackets change nothing. The left side is a base expression or in
      brackets, the right side is everything after the connective. */
  lemma ConnectiveTexts(scan: Scanner, left: Written, right: Written, r: Record)
    requires WellWritten(left) && WellWritten(right) && !left.Chain?
    ensures var l, rest := Print(left), Print(right);
            && (FilterAccepts(scan, l + "&" + rest, r) <==> FilterAccepts(scan, l, r) && FilterAccepts(scan, rest, r))
            && (FilterAccepts(scan, l + "|" + rest, r) <==> FilterAccepts(scan, l, r) || FilterAccepts(scan, rest, r))
            && (FilterAccepts(scan, "(" + rest + ")", r) <==> FilterAccepts(scan, rest, r))
  {
    hide Parse;
    ParsePrint(scan, left);
    ParsePrint(scan, right);
    ParsePrint(scan, Chain(left, And, right));
    ParsePrint(scan, Chain(left, Or, right));
    ParsePrint(scan, Bracket(right));
    ChainText(left, right);
    hide Print, WellWritten;
  }

  lemma ChainText(left: Written, right: Written)
    ensures Print(Chain(left, And, right)) == Print(left) + "&" + Print(right)
    ensures Print(Chain(left, Or, right)) == Print(left) + "|" + Print(right)
    ensures Print(Bracket(right)) == "(" + Print(right) + ")"
  {
  }

  // ----- Where the fields lie -----

  /** The offset of the i-th member of a structure whose members have these sizes, each aligned to its own size. */
  function OffsetOf(sizes: seq<nat>, i: nat): nat
    requires i < |sizes|
  {
    if i == 0 then 0 else AlignUp(OffsetOf(sizes, i - 1) + sizes[i - 1], sizes[i])
  }

  function AlignUp(n: nat, size: nat): nat {
    if size == 0 || n % size == 0 then n else n + size - n % size
  }

  lemma NextOffset(sizes: seq<nat>, i: nat, offset: nat)
    requires i + 1 < |sizes| && OffsetOf(sizes, i) == offset
    ensures OffsetOf(sizes, i + 1) == AlignUp(offset + sizes[i], sizes[i + 1])
  {
  }

  /** time, node, intf, qidx, qlen, sip, dip, size, l3Prot, event, ecn, nodeType; then the union, aligned to 8. */
  const HEADER: seq<nat> := [8, 2, 1, 1, 4, 4, 4, 2, 1, 1, 1, 1, 8]

  const HEADER_NAMES := [
    "time", "node", "intf", "qidx", "qlen", "sip", "dip", "size", "l3Prot", "event", "ecn", "nodeType"
  ]

  /** The member `data` of the union: sport, dport, seq, ts, pg, payload. */
  const DATA: seq<nat> := [2, 2, 4, 8, 2, 2]

  /** The members `ack` and `qp`: sport, dport, and for `ack` flags, pg, seq, ts. */
  const ACK: seq<nat> := [2, 2, 2, 2, 4, 8]

  lemma FirstOffsets()
    ensures OffsetOf(HEADER, 0) == 0 && OffsetOf(HEADER, 1) == 8 && OffsetOf(HEADER, 2) == 10
    ensures OffsetOf(HEADER, 3) == 11 && OffsetOf(HEADER, 4) == 12 && OffsetOf(HEADER, 5) == 16
    ensures OffsetOf(HEADER, 6) == 20
  {
    assert OffsetOf(HEADER, 0) == 0;
    hide OffsetOf;
    NextOffset(HEADER, 0, 0);
    NextOffset(HEADER, 1, 8);
    NextOffset(HEADER, 2, 10);
    NextOffset(HEADER, 3, 11);
    NextOffset(HEADER, 4, 12);
    NextOffset(HEADER, 5, 16);
  }

  lemma LastOffsets()
    ensures OffsetOf(HEADER, 7) == 24 && OffsetOf(HEADER, 8) == 26 && OffsetOf(HEADER, 9) == 27
    ensures OffsetOf(HEADER, 10) == 28 && OffsetOf(HEADER, 11) == 29 && OffsetOf(HEADER, 12) == 32
  {
    FirstOffsets();
    hide OffsetOf;
    NextOffset(HEADER, 6, 20);
    NextOffset(HEADER, 7, 24);
    NextOffset(HEADER, 8, 26);
    NextOffset(HEADER, 9, 27);
    NextOffset(HEADER, 10, 28);
    NextOffset(HEADER, 11, 29);
  }

  lemma UnionOffsets()
    ensures OffsetOf(DATA, 0) == 0 && OffsetOf(DATA, 1) == 2 && OffsetOf(DATA, 2) == 4 && OffsetOf(DATA, 5) == 18
    ensures OffsetOf(ACK, 0) == 0 && OffsetOf(ACK, 1) == 2 && OffsetOf(ACK, 2) == 4
  {
    assert OffsetOf(DATA, 0) == 0 && OffsetOf(ACK, 0) == 0;
    hide OffsetOf;
    NextOffset(DATA, 0, 0);
    NextOffset(DATA, 1, 2);
    NextOffset(DATA, 2, 4);
    NextOffset(DATA, 3, 8);
    NextOffset(DATA, 4, 16);
    NextOffset(ACK, 0, 0);
    NextOffset(ACK, 1, 2);
  }

  /** The fields are where the declaration of the record puts them, and as wide. Only the flags of `ack`, two bytes
      there, are tested by their first byte. */
  lemma FieldsLieAsDeclared(i: nat)
    requires i < |HEADER_NAMES|
    ensures Layout(HEADER_NAMES[i]) == Some((OffsetOf(HEADER, i), HEADER[i]))
  {
    FirstOffsets();
    LastOffsets();
    hide OffsetOf;
    if i < 6 {
      FirstNames(i);
    } else {
      LastNames(i);
    }
  }

  lemma FirstNames(i: nat)
    requires i < 6
    ensures Layout(HEADER_NAMES[i]) == Some(([0, 8, 10, 11, 12, 16][i], [8, 2, 1, 1, 4, 4][i]))
  {
    assert HEADER_NAMES[0] == "time" && HEADER_NAMES[1] == "node" && HEADER_NAMES[2] == "intf";
    assert HEADER_NAMES[3] == "qidx" && HEADER_NAMES[4] == "qlen" && HEADER_NAMES[5] == "sip";
  }

  lemma LastNames(i: nat)
    requires 6 <= i < 12
    ensures Layout(HEADER_NAMES[i]) == Some(([20, 24, 26, 27, 28, 29][i - 6], [4, 2, 1, 1, 1, 1][i - 6]))
  {
    assert HEADER_NAMES[6] == "dip" && HEADER_NAMES[7] == "size" && HEADER_NAMES[8] == "l3Prot";
    assert HEADER_NAMES[9] == "event" && HEADER_NAMES[10] == "ecn" && HEADER_NAMES[11] == "nodeType";
  }

  lemma UnionLiesAsDeclared()
    ensures var u := OffsetOf(HEADER, 12);
            var sport, dport := Some((u + OffsetOf(DATA, 0), DATA[0])), Some((u + OffsetOf(DATA, 1), DATA[1]));
            && Layout("data.sport") == Layout("ack.sport") == Layout("qp.sport") == sport
            && Layout("data.dport") == Layout("ack.dport") == Layout("qp.dport") == dport
            && Layout("data.seq") == Some((u + OffsetOf(DATA, 2), DATA[2]))
            && Layout("ack.flags") == Some((u + OffsetOf(ACK, 2), 1))
    ensures AlignUp(OffsetOf(HEADER, 12) + OffsetOf(DATA, 5) + DATA[5], 8) == 56
  {
    FirstOffsets();
    LastOffsets();
    UnionOffsets();
    PortNames();
    DataNames();
    hide OffsetOf, Layout;
  }

  lemma PortNames()
    ensures Layout("data.sport") == Layout("ack.sport") == Layout("qp.sport") == Some((32, 2))
    ensures Layout("data.dport") == Layout("ack.dport") == Layout("qp.dport") == Some((34, 2))
  {
  }

  lemma DataNames()
    ensures Layout("data.seq") == Some((36, 4)) && Layout("ack.flags") == Some((36, 1))
  {
  }
}
