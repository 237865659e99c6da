/** `TraceFilter` of trace_filter.hpp with its heap: nodes and fields are allocated and deleted explicitly, and the
    live ones are those allocated and not yet deleted. */
module TraceFilters {
  import opened Wrappers
  import opened FilterText
  import opened FilterFields
  import opened FilterSyntax
  import opened FilterGrammar

  class FieldObject {
    const field: Field

    constructor (f: Field)
      ensures field == f
    {
      field := f;
    }
  }

  class Node {
    var kind: nat  // 0: base expression, 1: &, 2: |
    var left: Node?
    var right: Node?
    var f: FieldObject?

    // the nodes of the tree below, with this one, and their fields
    ghost var nodes: set<Node>
    ghost var fields: set<FieldObject>

    constructor ()
      ensures kind == 0 && left == null && right == null && f == null && nodes == {this} && fields == {}
    {
      kind, left, right, f, nodes, fields := 0, null, null, null, {this}, {};
    }

    /** A proper tree: every node and field below has exactly one owner. */
    ghost predicate Valid()
      reads this, nodes
      decreases nodes
    {
      && this in nodes
      && if kind == 0 then
           f != null && left == null && right == null && nodes == {this} && fields == {f}
         else
           && kind <= 2 && f == null && left != null && right != null
           && left in nodes && left.nodes <= nodes && this !in left.nodes && left.Valid()
           && right in nodes && right.nodes <= nodes && this !in right.nodes && right.Valid()
           && left.nodes !! right.nodes && nodes == {this} + left.nodes + right.nodes
           && left.fields !! right.fields && fields == left.fields + right.fields
    }

    ghost function AsTree(): Tree
      requires Valid()
      reads this, nodes
      decreases nodes
    {
      if kind == 0 then Leaf(f.field)
      else Branch(if kind == 1 then And else Or, left.AsTree(), right.AsTree())
    }

    /** `Node::test` */
    method Test(r: Record) returns (b: bool)
      requires Valid() && TreeFits(AsTree())
      ensures b == FilterFields.Test(AsTree(), r)
      decreases nodes
    {
      if kind == 0 {
        return TestField(f.field, r);
      }
      if kind == 1 {
        b := left.Test(r);
        if b {
          b := right.Test(r);
        }
        return;
      }
      b := left.Test(r);
      if !b {
        b := right.Test(r);
      }
    }
  }

  lemma BranchValid(n: Node, op: Conn, left: Node, right: Node)
    requires left.Valid() && right.Valid() && n !in left.nodes && n !in right.nodes
    requires left in left.nodes && right in right.nodes && left.nodes !! right.nodes && left.fields !! right.fields
    requires n.left == left && n.right == right && n.f == null && n.kind == if op.And? then 1 else 2
    requires n.nodes == {n} + left.nodes + right.nodes && n.fields == left.fields + right.fields
    ensures n.Valid() && n.AsTree() == Branch(op, left.AsTree(), right.AsTree())
  {
  }

  lemma SelfIncluded(n: Node)
    requires n.Valid()
    ensures n in n.nodes
  {
  }

  /** The tree of what is left of the connective. */
  function LeftTree(scan: Scanner, s: Shape): Option<Tree> {
    match s
    case AfterAtom(a, _) => ParseAtom(scan, a)
    case AfterBracket(inner, _) => Parse(scan, inner)
    case _ => None
  }

  lemma ParseLone(scan: Scanner, text: string)
    requires ScanAtom(Strip(text)).Some?
    ensures Parse(scan, text) == ParseAtom(scan, ScanAtom(Strip(text)).value)
    ensures Within(ScanAtom(Strip(text)).value.field, Strip(text))
  {
    DissectBy(Strip(text));
    hide Dissect, Strip, ScanAtom;
  }

  lemma ParseBoth(scan: Scanner, text: string)
    requires ScanAtom(Strip(text)) == None
    ensures var s := Dissect(Strip(text));
            var left := LeftTree(scan, s);
            && (left == None ==> Parse(scan, text) == None)
            && (left.Some? ==> !s.Lone? && !s.Malformed?)
            && (left.Some? && Parse(scan, s.tail.right) == None ==> Parse(scan, text) == None)
            && (left.Some? && Parse(scan, s.tail.right).Some? ==>
              Parse(scan, text) == Some(Branch(s.tail.op, left.value, Parse(scan, s.tail.right).value)))
  {
    DissectBy(Strip(text));
    hide Dissect, Strip, ScanAtom;
  }

  /** The order in which `_parse` tries the shapes. */
  lemma DissectBy(e: string)
    ensures ScanAtom(e).Some? ==> Dissect(e) == Lone(ScanAtom(e).value)
    ensures ScanAtom(e) == None && SplitAtom(e).Some? ==>
              Dissect(e) == AfterAtom(SplitAtom(e).value.0, SplitAtom(e).value.1)
    ensures ScanAtom(e) == None && SplitAtom(e) == None && SplitBracket(e).Some? ==>
              Dissect(e) == AfterBracket(SplitBracket(e).value.0, SplitBracket(e).value.1)
    ensures ScanAtom(e) == None && SplitAtom(e) == None && SplitBracket(e) == None ==> Dissect(e) == Malformed
  {
    hide ScanAtom, SplitAtom, SplitBracket;
  }

  lemma BracketBy(t: string)
    ensures var i := Start(t);
            if i >= |t| || t[i] != '(' || Close(t, i + 1, 1) == None then SplitBracket(t) == None
            else
              var j := Close(t, i + 1, 1).value;
              var tail := SplitTail(t[j + 1..]);
              SplitBracket(t) == if tail == None then None else Some((t[i + 1..j], tail.value))
  {
    hide Start, Close, SplitTail;
  }

  /** The spaces from i on are skipped. */
  method SkipSpace(i: nat, str: string) returns (j: nat)
    requires i <= |str|
    ensures j == i + Start(str[i..])
  {
    j := i;
    while j < |str| && In(Space, str[j])
      invariant i <= j <= |str| && j - i + Start(str[j..]) == Start(str[i..])
    {
      assert str[j..][0] == str[j] && str[j..][1..] == str[j + 1..];
      j := j + 1;
    }
    assert j < |str| ==> str[j..][0] == str[j];
  }

  /** The loop that finds the bracket matching the one before i; |expr| when there is none. */
  method FindMatching(expr: string, i: nat) returns (j: nat)
    requires i <= |expr|
    ensures Close(expr, i, 1) == if j < |expr| then Some(j) else None
  {
    var c := 1;
    j := i;
    while j < |expr| && (expr[j] != ')' || c > 1)
      invariant i <= j <= |expr| && c >= 1
      invariant Close(expr, i, 1) == Close(expr, j, c)
    {
      if expr[j] == '(' {
        c := c + 1;
      } else if expr[j] == ')' {
        c := c - 1;
      }
      j := j + 1;
    }
  }

  method StripOuterBracket(expr: string) returns (r: string)
    ensures r == Strip(expr)
    decreases |expr|
  {
    assert expr[0..] == expr;
    var i := SkipSpace(0, expr);
    if i < |expr| && expr[i] == '(' {
      var end := FindMatching(expr, i + 1);
      if end >= |expr| {
        return expr;
      }
      var k := SkipSpace(end + 1, expr);
      if k >= |expr| {
        r := StripOuterBracket(expr[i + 1..end]);
        return;
      }
    }
    return expr;
  }

  class TraceFilter {
    var root: Node?
    const scan: Scanner
    ghost var liveNodes: set<Node>
    ghost var liveFields: set<FieldObject>

    constructor (scan: Scanner)
      ensures root == null && liveNodes == {} && liveFields == {} && this.scan == scan
    {
      root, liveNodes, liveFields, this.scan := null, {}, {}, scan;
    }

    /** `delete`: only what has been allocated and not yet deleted may be deleted. */
    ghost method DeleteNode(n: Node)
      requires n in liveNodes
      modifies this`liveNodes
      ensures liveNodes == old(liveNodes) - {n}
    {
      liveNodes := liveNodes - {n};
    }

    ghost method DeleteField(f: FieldObject)
      requires f in liveFields
      modifies this`liveFields
      ensures liveFields == old(liveFields) - {f}
    {
      liveFields := liveFields - {f};
    }

    /** The whole tree is alive. */
    ghost predicate Owns(n: Node)
      reads this, n, n.nodes
    {
      n.Valid() && n.nodes <= liveNodes && n.fields <= liveFields
    }

    /** What a call that returns a tree or fails leaves: on success exactly the tree's objects, all of them new, are
        added to the live ones; on failure nothing is. */
    twostate predicate Returns(new n: Node?, new expected: Option<Tree>)
      reads this, n, if n == null then {} else n.nodes
    {
      if n == null then expected == None && liveNodes == old(liveNodes) && liveFields == old(liveFields)
      else
        && n.Valid() && expected == Some(n.AsTree()) && fresh(n.nodes) && fresh(n.fields)
        && liveNodes == old(liveNodes) + n.nodes && liveFields == old(liveFields) + n.fields
    }

    /** `Node::clear`: delete everything below n, each object once, but not n itself. */
    method Clear(n: Node)
      requires Owns(n)
      modifies this`liveNodes, this`liveFields
      ensures liveNodes == old(liveNodes) - (n.nodes - {n}) && liveFields == old(liveFields) - n.fields
      decreases n.nodes
    {
      if n.left != null {
        Clear(n.left);
        DeleteNode(n.left);
      }
      if n.right != null {
        Clear(n.right);
        DeleteNode(n.right);
      }
      if n.f != null {
        DeleteField(n.f);
      }
    }

    method NewLeaf(f: Field) returns (n: Node)
      modifies this`liveNodes, this`liveFields
      ensures Returns(n, Some(Leaf(f)))
    {
      var o := new FieldObject(f);
      n := new Node();
      n.f := o;
      n.fields := {o};
      liveNodes, liveFields := liveNodes + {n}, liveFields + {o};
    }

    method NewBranch(op: Conn, left: Node, right: Node) returns (n: Node)
      requires left.Valid() && right.Valid() && left.nodes !! right.nodes && left.fields !! right.fields
      modifies this`liveNodes
      ensures n.Valid() && n.AsTree() == Branch(op, old(left.AsTree()), old(right.AsTree()))
      ensures fresh(n) && n.nodes == {n} + left.nodes + right.nodes && n.fields == left.fields + right.fields
      ensures liveNodes == old(liveNodes) + {n}
    {
      hide Node.Valid, Node.AsTree;
      SelfIncluded(left);
      SelfIncluded(right);
      n := new Node();
      n.left := left;
      n.right := right;
      n.kind := if op.And? then 1 else 2;
      n.nodes := {n} + left.nodes + right.nodes;
      n.fields := left.fields + right.fields;
      liveNodes := liveNodes + {n};
      BranchValid(n, op, left, right);
    }

    method ParseBase(a: Atom) returns (res: Node?)
      modifies this`liveNodes, this`liveFields
      ensures Returns(res, ParseAtom(scan, a))
      decreases Level(a.field), |a.field|, 1
    {
      var f := GetField(scan, a);
      if f.Some? {
        res := NewLeaf(f.value);
      } else {
        res := ParseShorthand(a);
      }
    }

    /** `parse_shorthand` */
    method ParseShorthand(a: Atom) returns (res: Node?)
      requires GetField(scan, a) == None
      modifies this`liveNodes, this`liveFields
      ensures Returns(res, ParseAtom(scan, a))
      decreases Level(a.field), |a.field|, 0
    {
      var w := Expansion(scan, a);
      if w == None {
        return null;
      }
      ExpansionLiteral(scan, a);
      res := ParseNode(Print(w.value));
    }

    /** Free a whole tree. */
    method Free(n: Node)
      requires Owns(n)
      modifies this`liveNodes, this`liveFields
      ensures liveNodes == old(liveNodes) - n.nodes && liveFields == old(liveFields) - n.fields
    {
      Clear(n);
      DeleteNode(n);
    }

    /** The right side of a connective; when it fails, the left tree is freed. */
    method Join(left: Node, tail: Tail) returns (res: Node?)
      requires Owns(left)
      modifies this`liveNodes, this`liveFields
      ensures Parse(scan, tail.right) == None ==>
                res == null && liveNodes == old(liveNodes) - left.nodes && liveFields == old(liveFields) - left.fields
      ensures Parse(scan, tail.right).Some? ==>
                && res != null && res.Valid()
                && res.AsTree() == Branch(tail.op, old(left.AsTree()), Parse(scan, tail.right).value)
                && fresh(res.nodes - left.nodes) && fresh(res.fields - left.fields)
                && left.nodes <= res.nodes && left.fields <= res.fields
                && liveNodes == old(liveNodes) + res.nodes && liveFields == old(liveFields) + res.fields
      decreases Level(tail.right), |tail.right|, 4
    {
      hide Parse, Node.Valid, Node.AsTree, Level;
      var right := ParseNode(tail.right);
      if right != null {
        res := NewBranch(tail.op, left, right);
      } else {
        Free(left);
        res := null;
      }
    }

    /** The part of `_parse` up to "get right", for a text that is no base expression: the left tree, and the
        connective and the text after it. */
    method ParseLeft(expr: string) returns (left: Node?, tail: Tail)
      requires ScanAtom(expr) == None
      modifies this`liveNodes, this`liveFields
      ensures Returns(left, LeftTree(scan, Dissect(expr)))
      ensures left != null ==> !Dissect(expr).Lone? && !Dissect(expr).Malformed? && tail == Dissect(expr).tail
      decreases Level(expr), |expr|, 2
    {
      DissectBy(expr);
      BracketBy(expr);
      hide Dissect, SplitAtom, SplitBracket, SplitTail, Start, Close, ScanAtom, Parse, ParseAtom, Level;
      hide Node.Valid, Node.AsTree;
      var split := SplitAtom(expr);
      if split.Some? {
        var (a, t) := split.value;
        left := ParseBase(a);
        tail := t;
        return;
      }
      tail := Tail(And, "");
      assert expr[0..] == expr;
      var i := SkipSpace(0, expr);
      if i >= |expr| || expr[i] != '(' {
        return null, tail;
      }
      var j := FindMatching(expr, i + 1);
      if j >= |expr| {
        return null, tail;
      }
      var inner := expr[i + 1..j];
      PartWithin(inner, expr);
      left := ParseNode(inner);
      if left == null {
        return;
      }
      var rest := SplitTail(expr[j + 1..]);
      if rest == None {
        // right_str is empty, so the right side fails and the left tree is freed
        Free(left);
        return null, tail;
      }
      tail := rest.value;
    }

    /** `_parse` */
    method ParseNode(text: string) returns (res: Node?)
      modifies this`liveNodes, this`liveFields
      ensures Returns(res, Parse(scan, text))
      decreases Level(text), |text|, 3
    {
      hide Dissect, Parse, ParseAtom, LeftTree, ScanAtom, Strip, Node.Valid, Node.AsTree, Level;
      var expr := StripOuterBracket(text);
      PartWithin(expr, text);
      var whole := ScanAtom(expr);
      if whole.Some? {
        ParseLone(scan, text);
        res := ParseBase(whole.value);
        return;
      }
      ParseBoth(scan, text);
      var left, tail := ParseLeft(expr);
      if left == null {
        return null;
      }
      res := Join(left, tail);
    }

    /** `parse`. A tree from an earlier call is not freed. */
    method ParseFilter(expr: string)
      modifies this`liveNodes, this`liveFields, this`root
      ensures Returns(root, Parse(scan, expr))
    {
      hide Parse, Node.Valid, Node.AsTree;
      root := ParseNode(expr);
    }

    /** `test`: without a tree everything passes. */
    method TestRecord(r: Record) returns (b: bool)
      requires root != null ==> root.Valid() && TreeFits(root.AsTree())
      ensures b == (root == null || FilterFields.Test(root.AsTree(), r))
    {
      if root != null {
        b := root.Test(r);
      } else {
        b := true;
      }
    }
  }
}
