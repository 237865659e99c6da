/** What filters mean: every properly written filter is read as written, the bracketing of `str` loses nothing, the
    flow shorthands accept what they should, and how they relate to the flow ids of utils.hpp. */
module FilterMeaning {
  import opened Wrappers
  import opened Memory
  import opened Text
  import opened FilterNumbers
  import opened FilterText
  import opened FilterFields
  import opened FilterSyntax
  import opened FilterGrammar
  import opened FilterProofs

  // ----- Written filters -----

  /** Chains start with a base expression or a bracket, and every field exists. */
  ghost predicate WellWritten(w: Written) {
    match w
    case Base(a) => WellFormed(a) && Layout(a.field).Some?
    case Bracket(inner) => WellWritten(inner)
    case Chain(left, _, right) => !left.Chain? && WellWritten(left) && WellWritten(right)
  }

  ghost predicate NoLineEnd(t: string) {
    forall i :: 0 <= i < |t| ==> !IsLineEnd(t[i])
  }

  lemma {:induction false} NoLineEndOneLine(t: string)
    requires NoLineEnd(t)
    ensures LineEnd(t) == |t|
  {
    if t != "" {
      NoLineEndOneLine(t[1..]);
    }
  }

  lemma BasePrint(a: Atom)
    requires WellFormed(a)
    ensures AtomText(Print(Base(a)), a) && NoLineEnd(Print(Base(a)))
  {
    var t := Print(Base(a));
    BaseText(a);
    assert forall i :: 0 <= i < |a.field| ==> In(FieldChar, a.field[i]);
    assert forall i :: 0 <= i < |a.value| ==> In(ValueChar, a.value[i]);
  }

  lemma BaseText(a: Atom)
    requires WellFormed(a)
    ensures AtomText(Print(Base(a)), a)
  {
    hide WellFormed, CmpText;
    var v := a.value + "";
    var u := "" + (CmpText(a.cmp) + ("" + v));
    assert Spaces("");
    assert ValueText("" + v, a.value);
    assert TestText(u, a.cmp, a.value);
    assert Print(Base(a)) == "" + (a.field + u);
  }

  lemma {:induction false} PrintNoLineEnd(w: Written)
    requires WellWritten(w)
    ensures NoLineEnd(Print(w))
  {
    match w
    case Base(a) => BasePrint(a);
    case Bracket(inner) => PrintNoLineEnd(inner);
    case Chain(left, _, right) =>
      PrintNoLineEnd(left);
      PrintNoLineEnd(right);
  }

  lemma ReadingExists(scan: Scanner, w: Written)
    requires WellWritten(w)
    ensures Reading(scan, w).Some?
  {
  }

  lemma {:induction false} TermDerives(scan: Scanner, w: Written)
    requires WellWritten(w) && !w.Chain? && Reading(scan, w).Some?
    ensures var tree := Reading(scan, w).value;
            (w.Base? ==> IsAtom(scan, Print(w), tree)) && (w.Bracket? ==> IsBracket(scan, Print(w), tree))
    decreases w, 0
  {
    hide Derives, AtomText;
    match w
    case Base(a) =>
      BasePrint(a);
      assert AtomTree(scan, a, Reading(scan, w).value);
    case Bracket(inner) =>
      PrintDerives(scan, inner);
      var t := Print(w);
      assert t[1..|t| - 1] == Print(inner) && t[..0] == "" && t[|t| - 1 + 1..] == "";
      assert BracketAt(t, 0, |t| - 1);
  }

  lemma {:induction false} PrintDerives(scan: Scanner, w: Written)
    requires WellWritten(w) && Reading(scan, w).Some?
    ensures Derives(scan, Print(w), Reading(scan, w).value)
    decreases w, 1
  {
    match w
    case Chain(left, op, right) =>
      TermDerives(scan, left);
      PrintDerives(scan, right);
      PrintNoLineEnd(right);
      NoLineEndOneLine(Print(right));
      ChainDerives(scan, left, op, right);
    case _ => TermDerives(scan, w);
  }

  lemma ChainDerives(scan: Scanner, left: Written, op: Conn, right: Written)
    requires Reading(scan, left).Some? && Reading(scan, right).Some? && !left.Chain?
    requires LineEnd(Print(right)) == |Print(right)| && Derives(scan, Print(right), Reading(scan, right).value)
    requires left.Base? ==> IsAtom(scan, Print(left), Reading(scan, left).value)
    requires left.Bracket? ==> IsBracket(scan, Print(left), Reading(scan, left).value)
    ensures Derives(scan, Print(Chain(left, op, right)), Reading(scan, Chain(left, op, right)).value)
  {
    hide IsAtom, IsBracket, LineEnd;
    var t, k, r := Print(Chain(left, op, right)), |Print(left)|, Print(right);
    var tree := Reading(scan, Chain(left, op, right)).value;
    assert t[..k] == Print(left) && t[k + 1..] == r && r[..|r|] == r && r[|r|..] == "";
    assert OpAt(t, k, op) && ChainAt(scan, t, k, tree);
    assert IsChain(scan, t, tree);
  }

  /** Every properly written filter is parsed to the tree it is read as: `&` and `|` bind equally and to the right,
      and brackets group. */
  lemma ParsePrint(scan: Scanner, w: Written)
    requires WellWritten(w)
    ensures Reading(scan, w).Some? && Parse(scan, Print(w)) == Reading(scan, w)
  {
    ReadingExists(scan, w);
    PrintDerives(scan, w);
    ParseComplete(scan, Print(w), Reading(scan, w).value);
  }

  // ----- The bracketing of `str` -----

  /** A name of the field at an offset. Fields that share their bytes have the same tests. */
  function NameAt(offset: nat, width: nat): Option<string> {
    match (offset, width)
    case (0, 8) => Some("time")
    case (8, 2) => Some("node")
    case (29, 1) => Some("nodeType")
    case (10, 1) => Some("intf")
    case (11, 1) => Some("qidx")
    case (12, 4) => Some("qlen")
    case (16, 4) => Some("sip")
    case (20, 4) => Some("dip")
    case (24, 2) => Some("size")
    case (26, 1) => Some("l3Prot")
    case (27, 1) => Some("event")
    case (28, 1) => Some("ecn")
    case (32, 2) => Some("data.sport")
    case (34, 2) => Some("data.dport")
    case (36, 4) => Some("data.seq")
    case (36, 1) => Some("ack.flags")
    case _ => None
  }

  lemma NameLayout(offset: nat, width: nat)
    requires NameAt(offset, width).Some?
    ensures Layout(NameAt(offset, width).value) == Some((offset, width))
  {
  }

  ghost predicate FieldName(name: string) {
    name != "" && All(name, FieldChar)
  }

  lemma NameChars(offset: nat, width: nat)
    requires NameAt(offset, width).Some?
    ensures FieldName(NameAt(offset, width).value)
  {
    hide FieldName;
    HeaderNames();
    AddressNames();
    UnionNames();
  }

  lemma HeaderNames()
    ensures FieldName("time") && FieldName("node") && FieldName("nodeType")
    ensures FieldName("intf") && FieldName("qidx") && FieldName("qlen")
  {
  }

  lemma AddressNames()
    ensures FieldName("sip") && FieldName("dip") && FieldName("size") && FieldName("l3Prot")
    ensures FieldName("event") && FieldName("ecn")
  {
  }

  lemma UnionNames()
    ensures FieldName("data.sport") && FieldName("data.dport") && FieldName("data.seq") && FieldName("ack.flags")
  {
  }

  /** A test that some base expression stands for. */
  ghost predicate Expressible(f: Field) {
    NameAt(f.offset, f.width).Some? && f.value < Pow256(f.width)
  }

  /** Every field that GetField can return is expressible, and stays in the range of "%li" if the number did. */
  lemma FieldsExpressible(scan: Scanner, a: Atom)
    requires GetField(scan, a).Some?
    ensures Expressible(GetField(scan, a).value)
    ensures scan.number(a.value) < LONG_LIMIT ==> GetField(scan, a).value.value < LONG_LIMIT
  {
    hide Layout, Pow256;
    LayoutNamed(a.field);
    var n, p := scan.number(a.value), Pow256(Layout(a.field).value.1);
    ModBound(n, p);
  }

  lemma LayoutNamed(name: string)
    ensures Layout(name).Some? ==> NameAt(Layout(name).value.0, Layout(name).value.1).Some?
  {
  }

  lemma ModBound(n: nat, p: nat)
    requires p > 0
    ensures n % p < p && n % p <= n
  {
    if n >= p {
      assert n % p < p;
    }
  }

  ghost predicate TreeExpressible(t: Tree) {
    match t
    case Leaf(f) => Expressible(f)
    case Branch(_, l, r) => TreeExpressible(l) && TreeExpressible(r)
  }

  ghost function Source(f: Field): Atom
    requires Expressible(f)
  {
    Atom(NameAt(f.offset, f.width).value, f.cmp, Decimal(f.value))
  }

  /** `str`: both sons in brackets, the connective between them; the leaves in source form. */
  ghost function Str(t: Tree): string
    requires TreeExpressible(t)
  {
    match t
    case Leaf(f) => Source(f).field + CmpText(f.cmp) + Source(f).value
    case Branch(op, l, r) => "(" + Str(l) + ")" + [ConnChar(op)] + "(" + Str(r) + ")"
  }

  ghost function Bracketed(t: Tree): Written
    requires TreeExpressible(t)
  {
    match t
    case Leaf(f) => Base(Source(f))
    case Branch(op, l, r) => Chain(Bracket(Bracketed(l)), op, Bracket(Bracketed(r)))
  }

  /** The scanner reads decimal numbers up to the largest signed 64-bit one, and the constants of the shorthands, as
      what they are. */
  ghost predicate Faithful(scan: Scanner) {
    && (forall n: nat :: n < LONG_LIMIT ==> scan.number(Decimal(n)) == n)
    && scan.number("17") == 17 && scan.number("0xFC") == 0xFC && scan.number("0xFD") == 0xFD && scan.number("0x0") == 0
  }

  /** The scanner of the program reads a text that starts with a digit as "%li" does; what the variable holds after a
      text that is no number is left open. */
  ghost predicate ReadsLong(scan: Scanner) {
    forall s :: s != "" && '0' <= s[0] <= '9' ==> scan.number(s) == ReadLong(s)
  }

  lemma LongIsFaithful(scan: Scanner)
    requires ReadsLong(scan)
    ensures Faithful(scan)
  {
    forall n: nat | n < LONG_LIMIT
      ensures scan.number(Decimal(n)) == n
    {
      DecimalDigits(n);
      LongReadsDecimal(n);
    }
    LongReadsConstants();
  }

  lemma SmallMod(v: nat, p: nat)
    requires v < p
    ensures v % p == v
  {
  }

  /** What a field becomes when its value is printed and read again. */
  function RereadField(scan: Scanner, f: Field): Field {
    f.(value := scan.number(Decimal(f.value)) % Pow256(f.width))
  }

  function Reread(scan: Scanner, t: Tree): Tree {
    match t
    case Leaf(f) => Leaf(RereadField(scan, f))
    case Branch(op, l, r) => Branch(op, Reread(scan, l), Reread(scan, r))
  }

  lemma LeafReads(scan: Scanner, f: Field)
    requires Expressible(f)
    ensures WellFormed(Source(f)) && GetField(scan, Source(f)) == Some(RereadField(scan, f))
  {
    hide NameAt, Layout, Pow256, Decimal;
    NameLayout(f.offset, f.width);
    NameChars(f.offset, f.width);
    DecimalDigits(f.value);
    assert All(Decimal(f.value), ValueChar);
  }

  lemma LeafLayout(scan: Scanner, f: Field)
    requires Expressible(f)
    ensures Layout(Source(f).field).Some? && Source(f).cmp == f.cmp
  {
    hide Layout;
    NameLayout(f.offset, f.width);
  }

  lemma {:induction false} BracketedReads(scan: Scanner, t: Tree)
    requires TreeExpressible(t)
    ensures Print(Bracketed(t)) == Str(t) && WellWritten(Bracketed(t))
    ensures Reading(scan, Bracketed(t)) == Some(Reread(scan, t))
  {
    hide GetField, NameAt, Layout, Source, RereadField;
    match t
    case Leaf(f) =>
      LeafReads(scan, f);
      LeafLayout(scan, f);
    case Branch(op, l, r) =>
      BracketedReads(scan, l);
      BracketedReads(scan, r);
      assert "(" + Str(l) + ")" + [ConnChar(op)] + ("(" + Str(r) + ")") == Str(t);
  }

  /** Whatever the scanner: printing and parsing again gives back the shape of the tree, with every value as the
      scanner reads it. */
  lemma StrReread(scan: Scanner, t: Tree)
    requires TreeExpressible(t)
    ensures Parse(scan, Str(t)) == Some(Reread(scan, t))
  {
    BracketedReads(scan, t);
    ParsePrint(scan, Bracketed(t));
  }

  /** All values are in the range of "%li". */
  ghost predicate InRange(t: Tree) {
    match t
    case Leaf(f) => f.value < LONG_LIMIT
    case Branch(_, l, r) => InRange(l) && InRange(r)
  }

  lemma {:induction false} RereadSame(scan: Scanner, t: Tree)
    requires TreeExpressible(t) && InRange(t) && Faithful(scan)
    ensures Reread(scan, t) == t
  {
    hide NameAt, Pow256, Decimal;
    match t
    case Leaf(f) => SmallMod(f.value, Pow256(f.width));
    case Branch(_, l, r) =>
      RereadSame(scan, l);
      RereadSame(scan, r);
  }

  /** Printing and parsing again gives back the tree. */
  lemma StrRoundTrip(scan: Scanner, t: Tree)
    requires TreeExpressible(t) && InRange(t) && Faithful(scan)
    ensures Parse(scan, Str(t)) == Some(t)
  {
    StrReread(scan, t);
    RereadSame(scan, t);
  }

  lemma {:induction false} RereadChanges(scan: Scanner, t: Tree)
    requires TreeExpressible(t) && !InRange(t) && ReadsLong(scan)
    ensures Reread(scan, t) != t
  {
    hide NameAt, Pow256, Decimal, ReadLong, Saturate;
    match t
    case Leaf(f) =>
      DecimalDigits(f.value);
      LongReadsDecimal(f.value);
      ModBound(scan.number(Decimal(f.value)), Pow256(f.width));
    case Branch(_, l, r) =>
      if !InRange(l) {
        RereadChanges(scan, l);
      } else {
        RereadChanges(scan, r);
      }
  }

  /** With the program's scanner the tree comes back if and only if all its values are in the range of "%li". */
  lemma StrRoundTripExactly(scan: Scanner, t: Tree)
    requires TreeExpressible(t) && ReadsLong(scan)
    ensures Parse(scan, Str(t)) == Some(t) <==> InRange(t)
  {
    LongIsFaithful(scan);
    StrReread(scan, t);
    if InRange(t) {
      RereadSame(scan, t);
    } else {
      RereadChanges(scan, t);
    }
  }

  // ----- What `str` prints for a leaf -----

  /** `str` as it is: a leaf is printed with the offset of its field in square brackets. */
  function DebugStr(t: Tree): string {
    match t
    case Leaf(f) => "[" + Decimal(f.offset) + "]" + CmpText(f.cmp) + Decimal(f.value)
    case Branch(op, l, r) => "(" + DebugStr(l) + ")" + [ConnChar(op)] + "(" + DebugStr(r) + ")"
  }

  lemma {:induction false} DebugStrSquare(t: Tree)
    ensures '[' in DebugStr(t)
  {
    match t
    case Leaf(f) => assert DebugStr(t)[0] == '[';
    case Branch(op, l, r) =>
      DebugStrSquare(l);
      var s, rest := DebugStr(l), ")" + [ConnChar(op)] + "(" + DebugStr(r) + ")";
      var i :| 0 <= i < |s| && s[i] == '[';
      hide DebugStr;
      assert ("(" + s + rest)[i + 1] == '[';
      assert "(" + s + rest == "(" + s + ")" + [ConnChar(op)] + "(" + DebugStr(r) + ")";
  }

  lemma ClassNoSquare(t: string, cls: Class)
    requires All(t, cls)
    ensures '[' !in t
  {
  }

  lemma ValueNoSquare(t: string, value: string)
    requires ValueText(t, value) && All(value, ValueChar)
    ensures '[' !in t
  {
    var w, v :| Spaces(w) && Spaces(v) && t == w + (value + v);
    ClassNoSquare(w, Space);
    ClassNoSquare(v, Space);
    ClassNoSquare(value, ValueChar);
    hide All;
  }

  lemma TestNoSquare(t: string, cmp: Cmp, value: string)
    requires TestText(t, cmp, value) && All(value, ValueChar)
    ensures '[' !in t
  {
    var w, u :| Spaces(w) && ValueText(u, value) && t == w + (CmpText(cmp) + u);
    ClassNoSquare(w, Space);
    ValueNoSquare(u, value);
    hide All, ValueText;
  }

  lemma AtomNoSquare(t: string, a: Atom)
    requires AtomText(t, a)
    ensures '[' !in t
  {
    var w, u :| Spaces(w) && TestText(u, a.cmp, a.value) && t == w + (a.field + u);
    ClassNoSquare(w, Space);
    ClassNoSquare(a.field, FieldChar);
    TestNoSquare(u, a.cmp, a.value);
    hide All, TestText;
  }

  lemma BracketNoSquare(t: string, i: nat, j: nat)
    requires BracketAt(t, i, j) && '[' !in t[i + 1..j]
    ensures '[' !in t
  {
    ClassNoSquare(t[..i], Space);
    ClassNoSquare(t[j + 1..], Space);
    forall k | 0 <= k < |t|
      ensures t[k] != '['
    {
      if k < i {
        assert t[k] == t[..i][k];
      } else if i < k < j {
        assert t[k] == t[i + 1..j][k - i - 1];
      } else if j < k {
        assert t[k] == t[j + 1..][k - j - 1];
      }
    }
  }

  lemma ChainNoSquare(t: string, k: nat, n: nat, op: Conn)
    requires OpAt(t, k, op) && k + 1 + n <= |t| && '[' !in t[..k]
    requires '[' !in t[k + 1..][..n] && Spaces(t[k + 1..][n..])
    ensures '[' !in t
  {
    ClassNoSquare(t[k + 1..][n..], Space);
    forall x | 0 <= x < |t|
      ensures t[x] != '['
    {
      if x < k {
        assert t[x] == t[..k][x];
      } else if k < x <= k + n {
        assert t[x] == t[k + 1..][..n][x - k - 1];
      } else if k + n < x {
        assert t[x] == t[k + 1..][n..][x - k - 1 - n];
      }
    }
  }

  lemma {:induction false} TermNoSquare(scan: Scanner, t: string, tree: Tree)
    requires IsAtom(scan, t, tree) || IsBracket(scan, t, tree)
    ensures '[' !in t
    decreases |t|, 0
  {
    hide AtomText, Derives;
    if IsAtom(scan, t, tree) {
      var a :| AtomText(t, a);
      AtomNoSquare(t, a);
    } else {
      var i, j :| BracketAt(t, i, j) && Derives(scan, t[i + 1..j], tree);
      DerivesNoSquare(scan, t[i + 1..j], tree);
      BracketNoSquare(t, i, j);
    }
  }

  lemma {:induction false} DerivesNoSquare(scan: Scanner, t: string, tree: Tree)
    requires Derives(scan, t, tree)
    ensures '[' !in t
    decreases |t|, 1
  {
    if IsChain(scan, t, tree) {
      var k := ConnPlace(scan, t, tree);
      hide *;
      var right := t[k + 1..];
      TermNoSquare(scan, t[..k], tree.left);
      DerivesNoSquare(scan, right[..LineEnd(right)], tree.right);
      ChainNoSquare(t, k, LineEnd(right), tree.op);
    } else {
      TermNoSquare(scan, t, tree);
    }
  }

  /** Where the connective of a chain stands. */
  lemma ConnPlace(scan: Scanner, t: string, tree: Tree) returns (k: nat)
    requires IsChain(scan, t, tree)
    ensures tree.Branch? && OpAt(t, k, tree.op) && k < |t|
    ensures IsAtom(scan, t[..k], tree.left) || IsBracket(scan, t[..k], tree.left)
    ensures var right := t[k + 1..];
            var n := LineEnd(right);
            |right| < |t| && Derives(scan, right[..n], tree.right) && Spaces(right[n..])
  {
    hide IsAtom, IsBracket, LineEnd, Derives;
    k :| OpAt(t, k, tree.op) && ChainAt(scan, t, k, tree);
  }

  /** The text that `str` really prints is never accepted by the parser, whatever the tree. */
  lemma DebugStrRejected(scan: Scanner, t: Tree)
    ensures Parse(scan, DebugStr(t)) == None
  {
    DebugStrSquare(t);
    ParseSound(scan, DebugStr(t));
    if Parse(scan, DebugStr(t)).Some? {
      DerivesNoSquare(scan, DebugStr(t), Parse(scan, DebugStr(t)).value);
    }
  }
}
