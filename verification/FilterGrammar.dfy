/** `_parse` of trace_filter.hpp as a function, and the grammar it accepts:
    E ::= T | T op E and T ::= base expression | '(' E ')', with spaces around, where a shorthand counts as a base
    expression that reads as its expansion. */
module FilterGrammar {
  import opened Wrappers
  import opened FilterText
  import opened FilterFields
  import opened FilterSyntax

  // ----- Brackets -----

  /** The index of the ')' that closes c open brackets, from i on. */
  function Close(t: string, i: nat, c: nat): (r: Option<nat>)
    requires c >= 1
    ensures r.Some? ==> i <= r.value < |t| && t[r.value] == ')'
    decreases |t| - i
  {
    if i >= |t| then None
    else if t[i] == ')' && c <= 1 then Some(i)
    else if t[i] == '(' then Close(t, i + 1, c + 1)
    else if t[i] == ')' then Close(t, i + 1, c - 1)
    else Close(t, i + 1, c)
  }

  /** The index of the first character that is no space. */
  function Start(t: string): (i: nat)
    ensures i <= |t| && Spaces(t[..i]) && (i < |t| ==> !In(Space, t[i]))
  {
    var (w, u) := Take(t, Space);
    assert t[..|w|] == w;
    |w|
  }

  predicate Blank(t: string) {
    Start(t) == |t|
  }

  /** `strip_outer_bracket` */
  function Strip(t: string): (r: string)
    ensures |r| <= |t| && forall c :: c in r ==> c in t
    decreases |t|
  {
    var i := Start(t);
    if i < |t| && t[i] == '(' then
      match Close(t, i + 1, 1)
      case None => t
      case Some(j) => if Blank(t[j + 1..]) then Strip(t[i + 1..j]) else t
    else t
  }

  // ----- The parser -----

  /** The first connective from i on, if there is one. */
  function FindConn(t: string, i: nat): (r: Option<nat>)
    requires i <= |t|
    ensures r.Some? ==> i <= r.value < |t| && ConnOf(t[r.value]).Some?
    ensures forall k :: i <= k < (if r.Some? then r.value else |t|) ==> ConnOf(t[k]).None?
    decreases |t| - i
  {
    if i == |t| then None
    else if ConnOf(t[i]).Some? then Some(i)
    else FindConn(t, i + 1)
  }

  /** The end of the line that t starts with. */
  function LineEnd(t: string): (n: nat)
    ensures n <= |t| && (n < |t| ==> IsLineEnd(t[n]))
  {
    if t == "" || IsLineEnd(t[0]) then 0 else 1 + LineEnd(t[1..])
  }

  predicate OneLine(t: string) {
    LineEnd(t) == |t|
  }

  /** A connective and what follows it on its line. */
  datatype Tail = Tail(op: Conn, right: string)

  /** How a text without outer brackets is cut: a base expression alone, a base expression and more, a bracket and
      more; anything else is malformed. */
  datatype Shape =
    | Lone(a: Atom)
    | AfterAtom(a: Atom, tail: Tail)
    | AfterBracket(inner: string, tail: Tail)
    | Malformed

  /** Whether the text may hold a shorthand; only the expansion of one may not. */
  function Level(t: string): nat {
    if MayAbbreviate(t) then 1 else 0
  }

  ghost predicate Within(part: string, whole: string) {
    |part| <= |whole| && Level(part) <= Level(whole)
  }

  lemma PartWithin(part: string, whole: string)
    requires |part| <= |whole| && forall c :: c in part ==> c in whole
    ensures Within(part, whole)
  {
  }

  /** The match of BASE(&|\|)(.*): base expression, connective, and the rest on the same line. */
  function SplitAtom(t: string): Option<(Atom, Tail)> {
    match FindConn(t, 0)
    case None => None
    case Some(k) =>
      match ScanAtom(t[..k])
      case None => None
      case Some(a) => if OneLine(t[k + 1..]) then Some((a, Tail(ConnOf(t[k]).value, t[k + 1..]))) else None
  }

  /** The match of \s*(&|\|)(.*)\s* on what follows a bracket. */
  function SplitTail(t: string): Option<Tail> {
    var i := Start(t);
    if i < |t| && ConnOf(t[i]).Some? then
      var rest := t[i + 1..];
      var n := LineEnd(rest);
      if Blank(rest[n..]) then Some(Tail(ConnOf(t[i]).value, rest[..n])) else None
    else None
  }

  /** A bracket at the start, and what follows it. When nothing does, right_str stays empty in the source, and the
      empty text has no tree. */
  function SplitBracket(t: string): Option<(string, Tail)> {
    var i := Start(t);
    if i >= |t| || t[i] != '(' then None
    else
      match Close(t, i + 1, 1)
      case None => None
      case Some(j) =>
        match SplitTail(t[j + 1..])
        case None => None
        case Some(tail) => Some((t[i + 1..j], tail))
  }

  function Dissect(e: string): (s: Shape)
    ensures s.Lone? ==> Within(s.a.field, e)
    ensures s.AfterAtom? ==> Within(s.a.field, e) && Within(s.tail.right, e) && |s.tail.right| < |e|
    ensures s.AfterBracket? ==> Within(s.inner, e) && |s.inner| < |e| && Within(s.tail.right, e) && |s.tail.right| < |e|
  {
    match ScanAtom(e)
    case Some(a) =>
      AtomChars(e, a);
      PartWithin(a.field, e);
      Lone(a)
    case None =>
      match SplitAtom(e)
      case Some((a, tail)) =>
        AtomChars(e[..FindConn(e, 0).value], a);
        PartWithin(a.field, e);
        PartWithin(tail.right, e);
        AfterAtom(a, tail)
      case None =>
        match SplitBracket(e)
        case Some((inner, tail)) =>
          PartWithin(inner, e);
          PartWithin(tail.right, e);
          AfterBracket(inner, tail)
        case None => Malformed
  }

  /** The tree of a base expression, or of what a shorthand expands to. */
  function ParseAtom(scan: Scanner, a: Atom): (r: Option<Tree>)
    ensures r.Some? ==> TreeFits(r.value)
    decreases Level(a.field), |a.field|, 0
  {
    match GetField(scan, a)
    case Some(f) => Some(Leaf(f))
    case None =>
      match Expansion(scan, a)
      case None => None
      case Some(w) =>
        ExpansionLiteral(scan, a);
        Parse(scan, Print(w))
  }

  function Combine(op: Conn, left: Option<Tree>, right: Option<Tree>): Option<Tree> {
    if left.Some? && right.Some? then Some(Branch(op, left.value, right.value)) else None
  }

  function Parse(scan: Scanner, t: string): (r: Option<Tree>)
    ensures r.Some? ==> TreeFits(r.value)
    decreases Level(t), |t|, 2
  {
    var e := Strip(t);
    PartWithin(e, t);
    ParseStripped(scan, e)
  }

  /** `_parse` after the outer brackets have been stripped. */
  function ParseStripped(scan: Scanner, e: string): (r: Option<Tree>)
    ensures r.Some? ==> TreeFits(r.value)
    decreases Level(e), |e|, 1
  {
    match Dissect(e)
    case Lone(a) => ParseAtom(scan, a)
    case AfterAtom(a, tail) => Combine(tail.op, ParseAtom(scan, a), Parse(scan, tail.right))
    case AfterBracket(inner, tail) => Combine(tail.op, Parse(scan, inner), Parse(scan, tail.right))
    case Malformed => None
  }

  // ----- The grammar -----

  /** T ::= base expression */
  ghost predicate IsAtom(scan: Scanner, t: string, tree: Tree)
    decreases Level(t), |t|, 1
  {
    exists a :: AtomText(t, a) && (AtomChars(t, a); AtomTree(scan, a, tree))
  }

  ghost predicate AtomTree(scan: Scanner, a: Atom, tree: Tree)
    decreases Level(a.field), |a.field|, 0
  {
    match GetField(scan, a)
    case Some(f) => tree == Leaf(f)
    case None =>
      Expansion(scan, a).Some? &&
      (ExpansionLiteral(scan, a); Derives(scan, Print(Expansion(scan, a).value), tree))
  }

  /** T ::= '(' E ')' */
  ghost predicate IsBracket(scan: Scanner, t: string, tree: Tree)
    decreases Level(t), |t|, 1
  {
    exists i, j :: BracketAt(t, i, j) && Derives(scan, t[i + 1..j], tree)
  }

  ghost predicate BracketAt(t: string, i: int, j: int) {
    0 <= i < j < |t| && t[i] == '(' && t[j] == ')' && Spaces(t[..i]) && Spaces(t[j + 1..])
  }

  /** E ::= T op E, where the right side is what is left of the line; only spaces may follow the line, and those
      only after a bracket. */
  ghost predicate IsChain(scan: Scanner, t: string, tree: Tree)
    decreases Level(t), |t|, 1
  {
    tree.Branch? && exists k :: OpAt(t, k, tree.op) && ChainAt(scan, t, k, tree)
  }

  ghost predicate ChainAt(scan: Scanner, t: string, k: nat, tree: Tree)
    requires tree.Branch? && k < |t|
    decreases Level(t), |t|, 0
  {
    var right := t[k + 1..];
    var n := LineEnd(right);
    && Derives(scan, right[..n], tree.right)
    && ((n == |right| && IsAtom(scan, t[..k], tree.left)) ||
        (Spaces(right[n..]) && IsBracket(scan, t[..k], tree.left)))
  }

  ghost predicate OpAt(t: string, k: int, op: Conn) {
    0 <= k < |t| && t[k] == ConnChar(op)
  }

  ghost predicate Derives(scan: Scanner, t: string, tree: Tree)
    decreases Level(t), |t|, 2
  {
    IsAtom(scan, t, tree) || IsBracket(scan, t, tree) || IsChain(scan, t, tree)
  }
}
