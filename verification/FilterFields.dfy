/** Trace records, the tests on single fields, filter trees and what they accept (trace_filter.hpp and
    trace-format.h, on a little-endian machine). */
module FilterFields {
  import opened Wrappers
  import opened Memory
  import opened FilterText

  /** A TraceFormat as it lies in memory. */
  type Record = r: seq<Byte> | |r| == 56 witness seq(56, _ => 0)

  /** A test of the number at an offset. The width is that of the C++ field class. */
  datatype Field = Field(offset: nat, width: nat, cmp: Cmp, value: nat)

  ghost predicate Fits(f: Field) {
    f.offset + f.width <= 56
  }

  predicate Compare(cmp: Cmp, a: nat, b: nat) {
    match cmp
    case EQ => a == b
    case GT => a > b
    case GE => a >= b
    case LT => a < b
    case LE => a <= b
    case NE => a != b
  }

  predicate TestField(f: Field, r: Record)
    requires Fits(f)
  {
    Compare(f.cmp, Load(r, f.offset, f.width), f.value)
  }

  /** Offset and width of each field a filter can name. `data`, `ack` and `qp` share the union at offset 32. */
  function Layout(name: string): (r: Option<(nat, nat)>)
    ensures r.Some? ==> r.value.0 + r.value.1 <= 56
  {
    if name == "time" then Some((0, 8))
    else if name == "node" then Some((8, 2))
    else if name == "nodeType" then Some((29, 1))
    else if name == "intf" then Some((10, 1))
    else if name == "qidx" then Some((11, 1))
    else if name == "qlen" then Some((12, 4))
    else if name == "sip" then Some((16, 4))
    else if name == "dip" then Some((20, 4))
    else if name == "size" then Some((24, 2))
    else if name == "l3Prot" then Some((26, 1))
    else if name == "event" then Some((27, 1))
    else if name == "ecn" then Some((28, 1))
    else if name == "data.sport" then Some((32, 2))
    else if name == "data.dport" then Some((34, 2))
    else if name == "data.seq" then Some((36, 4))
    else if name == "ack.sport" then Some((32, 2))
    else if name == "ack.dport" then Some((34, 2))
    else if name == "ack.flags" then Some((36, 1))
    else if name == "qp.sport" then Some((32, 2))
    else if name == "qp.dport" then Some((34, 2))
    else None
  }

  /** The number formats of sscanf: "%li" read into 64 unsigned bits, "%i,%i,%hu,%hu" and "%hu,%hhu,%hhu". */
  datatype Scanner = Scanner(
    number: string -> U64,
    four: string -> Option<(U32, U32, U16, U16)>,
    three: string -> Option<(U16, Byte, Byte)>)

  /** `GetField`: the test that a base expression stands for; the value is cut to the width of the field. */
  function GetField(scan: Scanner, a: Atom): (r: Option<Field>)
    ensures r.Some? ==> Fits(r.value)
  {
    match Layout(a.field)
    case None => None
    case Some((offset, width)) => Some(Field(offset, width, a.cmp, scan.number(a.value) % Pow256(width)))
  }

  // ----- Filter trees -----

  datatype Conn = And | Or

  datatype Tree = Leaf(f: Field) | Branch(op: Conn, left: Tree, right: Tree)

  ghost predicate TreeFits(t: Tree) {
    match t
    case Leaf(f) => Fits(f)
    case Branch(_, l, r) => TreeFits(l) && TreeFits(r)
  }

  predicate Test(t: Tree, r: Record)
    requires TreeFits(t)
  {
    match t
    case Leaf(f) => TestField(f, r)
    case Branch(And, left, right) => Test(left, r) && Test(right, r)
    case Branch(Or, left, right) => Test(left, r) || Test(right, r)
  }

  function ConnOf(c: char): Option<Conn> {
    if c == '&' then Some(And) else if c == '|' then Some(Or) else None
  }

  function ConnChar(op: Conn): char {
    if op.And? then '&' else '|'
  }
}
