/** The parser accepts exactly the texts of the grammar, with the tree of the grammar. */
module FilterProofs {
  import opened Wrappers
  import opened FilterText
  import opened FilterFields
  import opened FilterSyntax
  import opened FilterGrammar

  // ----- Spaces and first characters -----

  lemma StartIs(t: string, i: nat)
    requires i <= |t| && Spaces(t[..i]) && (i < |t| ==> !In(Space, t[i]))
    ensures Start(t) == i
  {
    assert t == t[..i] + t[i..];
    TakeSplit(t[..i], t[i..], Space);
  }

  lemma BlankSpaces(t: string)
    ensures Blank(t) <==> Spaces(t)
  {
    if Spaces(t) {
      assert t[..|t|] == t;
      StartIs(t, |t|);
    } else {
      assert t[..|t|] == t;
    }
  }

  lemma StripPlain(t: string)
    requires Start(t) < |t| ==> t[Start(t)] != '('
    ensures Strip(t) == t
  {
  }

  // ----- Soundness -----

  lemma {:induction false} StripSound(scan: Scanner, t: string, tree: Tree)
    requires Derives(scan, Strip(t), tree)
    ensures Derives(scan, t, tree)
    decreases |t|
  {
    hide Start, Close, Level, IsAtom, IsChain;
    var i := Start(t);
    if i < |t| && t[i] == '(' && Close(t, i + 1, 1).Some? {
      var j := Close(t, i + 1, 1).value;
      if Blank(t[j + 1..]) {
        BlankSpaces(t[j + 1..]);
        StripSound(scan, t[i + 1..j], tree);
        assert BracketAt(t, i, j);
        assert IsBracket(scan, t, tree);
      }
    }
  }

  lemma {:induction false} AtomSound(scan: Scanner, a: Atom)
    ensures ParseAtom(scan, a).Some? ==> AtomTree(scan, a, ParseAtom(scan, a).value)
    decreases Level(a.field), |a.field|, 0
  {
    if GetField(scan, a).None? && Expansion(scan, a).Some? {
      ExpansionLiteral(scan, a);
      ParseSound(scan, Print(Expansion(scan, a).value));
    }
  }

  /** Every tree the parser returns is derived by the grammar. */
  lemma {:induction false} ParseSound(scan: Scanner, t: string)
    ensures Parse(scan, t).Some? ==> Derives(scan, t, Parse(scan, t).value)
    decreases Level(t), |t|, 2
  {
    var e := Strip(t);
    PartWithin(e, t);
    if Parse(scan, t).Some? {
      StrippedSound(scan, e);
      StripSound(scan, t, Parse(scan, t).value);
    }
  }

  lemma {:induction false} StrippedSound(scan: Scanner, e: string)
    ensures ParseStripped(scan, e).Some? ==> Derives(scan, e, ParseStripped(scan, e).value)
    decreases Level(e), |e|, 1
  {
    if ParseStripped(scan, e).Some? {
      var tree := ParseStripped(scan, e).value;
      match Dissect(e)
      case Lone(a) =>
        AtomSound(scan, a);
        LoneDerives(scan, e, a, tree);
      case AfterAtom(a, tail) =>
        AtomSound(scan, a);
        ParseSound(scan, tail.right);
        AfterAtomDerives(scan, e, a, tail, tree);
      case AfterBracket(inner, tail) =>
        ParseSound(scan, inner);
        ParseSound(scan, tail.right);
        AfterBracketDerives(scan, e, inner, tail, tree);
    }
  }

  lemma LoneDerives(scan: Scanner, e: string, a: Atom, tree: Tree)
    requires AtomText(e, a) && AtomTree(scan, a, tree)
    ensures IsAtom(scan, e, tree) && Derives(scan, e, tree)
  {
  }

  lemma AfterAtomDerives(scan: Scanner, e: string, a: Atom, tail: Tail, tree: Tree)
    requires SplitAtom(e) == Some((a, tail)) && tree.Branch? && tree.op == tail.op
    requires AtomTree(scan, a, tree.left) && Derives(scan, tail.right, tree.right)
    ensures Derives(scan, e, tree)
  {
    hide ScanAtom, FindConn, AtomTree, AtomText, Level;
    var k := FindConn(e, 0).value;
    LoneDerives(scan, e[..k], a, tree.left);
    assert OneLine(e[k + 1..]) && tail.right == e[k + 1..];
    assert tail.right[..LineEnd(tail.right)] == tail.right;
    assert OpAt(e, k, tree.op) && ChainAt(scan, e, k, tree);
    assert IsChain(scan, e, tree);
  }

  lemma AfterBracketDerives(scan: Scanner, e: string, inner: string, tail: Tail, tree: Tree)
    requires SplitBracket(e) == Some((inner, tail)) && tree.Branch? && tree.op == tail.op
    requires Derives(scan, inner, tree.left) && Derives(scan, tail.right, tree.right)
    ensures Derives(scan, e, tree)
  {
    var i, j, k := BracketParts(e);
    BracketPrefix(e, i, j, k);
    assert IsBracket(scan, e[..k], tree.left);
    assert ChainAt(scan, e, k, tree);
    assert IsChain(scan, e, tree);
  }

  /** Where the bracket opens and closes and where the connective after it is. */
  lemma BracketParts(e: string) returns (i: nat, j: nat, k: nat)
    requires SplitBracket(e).Some?
    ensures i < j < k < |e| && e[i] == '(' && e[j] == ')' && Spaces(e[..i]) && Spaces(e[j + 1..][..k - j - 1])
    ensures SplitBracket(e).value.0 == e[i + 1..j] && OpAt(e, k, SplitBracket(e).value.1.op)
    ensures var rest := e[k + 1..];
            SplitBracket(e).value.1.right == rest[..LineEnd(rest)] && Spaces(rest[LineEnd(rest)..])
  {
    hide SplitBracket, SplitTail, LineEnd;
    i, j := OpenAndClose(e);
    var m := ConnAfter(e[j + 1..]);
    k := j + 1 + m;
    assert e[k + 1..] == e[j + 1..][m + 1..];
  }

  lemma OpenAndClose(e: string) returns (i: nat, j: nat)
    requires SplitBracket(e).Some?
    ensures i < j < |e| && e[i] == '(' && e[j] == ')' && Spaces(e[..i])
    ensures SplitTail(e[j + 1..]).Some? && SplitBracket(e).value == (e[i + 1..j], SplitTail(e[j + 1..]).value)
  {
    hide SplitTail, Close, Start;
    i := Start(e);
    j := Close(e, i + 1, 1).value;
  }

  lemma ConnAfter(t: string) returns (m: nat)
    requires SplitTail(t).Some?
    ensures OpAt(t, m, SplitTail(t).value.op) && Spaces(t[..m])
    ensures var rest := t[m + 1..];
            SplitTail(t).value.right == rest[..LineEnd(rest)] && Spaces(rest[LineEnd(rest)..])
  {
    m := Start(t);
    var rest := t[m + 1..];
    BlankSpaces(rest[LineEnd(rest)..]);
  }

  lemma BracketPrefix(e: string, i: nat, j: nat, k: nat)
    requires i < j < k <= |e| && e[i] == '(' && e[j] == ')' && Spaces(e[..i]) && Spaces(e[j + 1..][..k - j - 1])
    ensures BracketAt(e[..k], i, j) && e[..k][i + 1..j] == e[i + 1..j]
  {
    assert e[..k][..i] == e[..i];
    assert e[..k][j + 1..] == e[j + 1..][..k - j - 1];
  }

  // ----- Balanced brackets -----

  /** The number of open brackets after s, from c; None when a ')' closes the last of them on the way. */
  function Walk(s: string, c: nat): Option<nat>
    requires c >= 1
  {
    if s == "" then Some(c)
    else if s[0] == '(' then Walk(s[1..], c + 1)
    else if s[0] == ')' then (if c <= 1 then None else Walk(s[1..], c - 1))
    else Walk(s[1..], c)
  }

  ghost predicate Balanced(s: string) {
    forall c: nat :: c >= 1 ==> Walk(s, c) == Some(c)
  }

  lemma {:induction false} WalkConcat(a: string, b: string, c: nat)
    requires c >= 1 && Walk(a, c).Some? && Walk(a, c).value >= 1
    ensures Walk(a + b, c) == Walk(b, Walk(a, c).value)
  {
    if a == "" {
      assert a + b == b;
    } else {
      assert (a + b)[1..] == a[1..] + b;
      WalkConcat(a[1..], b, if a[0] == '(' then c + 1 else if a[0] == ')' then c - 1 else c);
    }
  }

  lemma {:induction false} PlainBalanced(s: string)
    requires NoneOf(s, "()")
    ensures Balanced(s)
  {
    if s != "" {
      assert s[0] in s && s[0] !in "()";
      assert "()"[0] == '(' && "()"[1] == ')';
      PlainBalanced(s[1..]);
    }
  }

  lemma ConcatBalanced(a: string, b: string)
    requires Balanced(a) && Balanced(b)
    ensures Balanced(a + b)
  {
    forall c: nat | c >= 1
      ensures Walk(a + b, c) == Some(c)
    {
      WalkConcat(a, b, c);
    }
  }

  lemma EncloseBalanced(s: string)
    requires Balanced(s)
    ensures Balanced("(" + s + ")")
  {
    var t := "(" + s + ")";
    assert t[1..] == s + ")";
    forall c: nat | c >= 1
      ensures Walk(t, c) == Some(c)
    {
      WalkConcat(s, ")", c + 1);
      assert ")"[1..] == "";
    }
  }

  lemma SpacesBalanced(s: string)
    requires Spaces(s)
    ensures Balanced(s)
  {
    ClassChars(s, Space);
    NoneOfFewer(s);
    PlainBalanced(s);
  }

  lemma NoneOfFewer(s: string)
    requires NoneOf(s, "()&|")
    ensures NoneOf(s, "()")
  {
    var cs := "()&|";
    assert cs[0] == '(' && cs[1] == ')';
  }

  lemma BracketBalanced(t: string, i: nat, j: nat)
    requires BracketAt(t, i, j) && Balanced(t[i + 1..j])
    ensures Balanced(t)
  {
    EncloseBalanced(t[i + 1..j]);
    SpacesBalanced(t[..i]);
    SpacesBalanced(t[j + 1..]);
    ConcatBalanced(t[..i], "(" + t[i + 1..j] + ")");
    ConcatBalanced(t[..i] + ("(" + t[i + 1..j] + ")"), t[j + 1..]);
    assert t == t[..i] + ("(" + t[i + 1..j] + ")") + t[j + 1..];
  }

  lemma ChainBalanced(t: string, k: nat, n: nat, op: Conn)
    requires OpAt(t, k, op) && k + 1 + n <= |t| && Balanced(t[..k])
    requires Balanced(t[k + 1..][..n]) && Spaces(t[k + 1..][n..])
    ensures Balanced(t)
  {
    var right := t[k + 1..];
    SpacesBalanced(right[n..]);
    ConcatBalanced(right[..n], right[n..]);
    assert right == right[..n] + right[n..];
    PlainBalanced([ConnChar(op)]);
    ConcatBalanced(t[..k], [ConnChar(op)]);
    ConcatBalanced(t[..k] + [ConnChar(op)], right);
    assert t == t[..k] + [ConnChar(op)] + right;
  }

  lemma {:induction false} TermBalanced(scan: Scanner, t: string, tree: Tree)
    requires IsAtom(scan, t, tree) || IsBracket(scan, t, tree)
    ensures Balanced(t)
    decreases |t|, 0
  {
    if IsAtom(scan, t, tree) {
      var a :| AtomText(t, a);
      AtomChars(t, a);
      NoneOfFewer(t);
      PlainBalanced(t);
    } else {
      var i, j :| BracketAt(t, i, j) && Derives(scan, t[i + 1..j], tree);
      DerivesBalanced(scan, t[i + 1..j], tree);
      BracketBalanced(t, i, j);
    }
  }

  lemma {:induction false} DerivesBalanced(scan: Scanner, t: string, tree: Tree)
    requires Derives(scan, t, tree)
    ensures Balanced(t)
    decreases |t|, 1
  {
    if IsChain(scan, t, tree) {
      var k :| OpAt(t, k, tree.op) && ChainAt(scan, t, k, tree);
      var right := t[k + 1..];
      var n := LineEnd(right);
      TermBalanced(scan, t[..k], tree.left);
      DerivesBalanced(scan, right[..n], tree.right);
      ChainBalanced(t, k, n, tree.op);
    } else {
      TermBalanced(scan, t, tree);
    }
  }

  /** Brackets that open and close again on the way do not matter for the bracket that is looked for. */
  lemma {:induction false} CloseSkips(t: string, i: nat, j: nat, c: nat)
    requires i <= j <= |t| && c >= 1 && Walk(t[i..j], c).Some? && Walk(t[i..j], c).value >= 1
    ensures Close(t, i, c) == Close(t, j, Walk(t[i..j], c).value)
    decreases j - i
  {
    if i < j {
      assert t[i..j][1..] == t[i + 1..j];
      CloseSkips(t, i + 1, j, if t[i] == '(' then c + 1 else if t[i] == ')' then c - 1 else c);
    } else {
      assert t[i..j] == "";
    }
  }

  /** The bracket that matches is found. */
  lemma CloseFinds(t: string, i: nat, j: nat)
    requires i < j < |t| && t[j] == ')' && Balanced(t[i + 1..j])
    ensures Close(t, i + 1, 1) == Some(j)
  {
    CloseSkips(t, i + 1, j, 1);
  }

  // ----- Outer brackets -----

  /** The bracket at i is closed by the one at j, and around them are only spaces. */
  ghost predicate Encloses(t: string, i: int, j: int) {
    BracketAt(t, i, j) && Walk(t[i + 1..j], 1) == Some(1)
  }

  /** r is what is left of t when some outer brackets are taken off. */
  ghost predicate Unwraps(t: string, r: string)
    decreases |t|
  {
    t == r || exists i, j :: Encloses(t, i, j) && Unwraps(t[i + 1..j], r)
  }

  lemma {:induction false} CloseWalk(t: string, i: nat, c: nat)
    requires c >= 1 && Close(t, i, c).Some?
    ensures Walk(t[i..Close(t, i, c).value], c) == Some(1)
    decreases |t| - i
  {
    var j := Close(t, i, c).value;
    if i < j {
      assert t[i..j][0] == t[i] && t[i..j][1..] == t[i + 1..j];
      CloseWalk(t, i + 1, if t[i] == '(' then c + 1 else if t[i] == ')' then c - 1 else c);
    } else {
      assert t[i..j] == "";
    }
  }

  lemma EnclosedFound(t: string, i: int, j: int)
    requires Encloses(t, i, j)
    ensures Start(t) == i && Close(t, i + 1, 1) == Some(j) && Blank(t[j + 1..])
  {
    hide Start, Close, Blank, Walk;
    StartIs(t, i);
    BlankSpaces(t[j + 1..]);
    CloseSkips(t, i + 1, j, 1);
    CloseNow(t, j);
  }

  lemma CloseNow(t: string, j: nat)
    requires j < |t| && t[j] == ')'
    ensures Close(t, j, 1) == Some(j)
  {
  }

  /** Exactly the outer brackets are stripped: brackets that match each other around the whole text, as often as there
      are any, and nothing else. */
  lemma {:induction false} StripExactly(t: string)
    ensures Unwraps(t, Strip(t))
    ensures forall i, j :: !Encloses(Strip(t), i, j)
    decreases |t|
  {
    hide Start, Close, Blank, Walk;
    var i := Start(t);
    if i < |t| && t[i] == '(' && Close(t, i + 1, 1).Some? && Blank(t[Close(t, i + 1, 1).value + 1..]) {
      var j := Close(t, i + 1, 1).value;
      CloseWalk(t, i + 1, 1);
      BlankSpaces(t[j + 1..]);
      assert Encloses(t, i, j);
      StripExactly(t[i + 1..j]);
    } else {
      forall i, j
        ensures !Encloses(t, i, j)
      {
        if Encloses(t, i, j) {
          EnclosedFound(t, i, j);
        }
      }
    }
  }

  // ----- Completeness -----

  lemma {:induction false} AtomComplete(scan: Scanner, a: Atom, tree: Tree)
    requires AtomTree(scan, a, tree)
    ensures ParseAtom(scan, a) == Some(tree)
    decreases Level(a.field), |a.field|, 0
  {
    if GetField(scan, a).None? {
      ExpansionLiteral(scan, a);
      ParseComplete(scan, Print(Expansion(scan, a).value), tree);
    }
  }

  lemma StartsPlain(t: string, k: nat, a: Atom)
    requires k <= |t| && AtomText(t[..k], a)
    ensures Start(t) < k && t[Start(t)] != '('
  {
    var p := t[..k];
    ScanAtomComplete(p, a);
    var i := Start(p);
    assert p == Take(p, Space).0 + Take(p, Space).1;
    assert p[i] == Take(p, Space).1[0];
    assert t[..i] == p[..i];
    StartIs(t, i);
  }

  lemma ScanAtomMarks(t: string)
    ensures ScanAtom(t).Some? ==> NoneOf(t, "()&|")
  {
    if ScanAtom(t).Some? {
      AtomChars(t, ScanAtom(t).value);
    }
  }

  lemma NoAtomWithConn(t: string, k: nat, op: Conn)
    requires OpAt(t, k, op)
    ensures ScanAtom(t) == None
  {
    var cs := "()&|";
    assert cs[2] == '&' && cs[3] == '|' && t[k] in t;
    ScanAtomMarks(t);
  }

  lemma FirstConn(t: string, k: nat, op: Conn)
    requires OpAt(t, k, op) && NoneOf(t[..k], "()&|")
    ensures FindConn(t, 0) == Some(k)
  {
    var cs := "()&|";
    assert cs[2] == '&' && cs[3] == '|';
    assert forall x :: 0 <= x < k ==> t[x] == t[..k][x] && t[x] in t[..k];
  }

  lemma DissectAfterAtom(t: string, k: nat, a: Atom, op: Conn)
    requires OpAt(t, k, op) && OneLine(t[k + 1..]) && AtomText(t[..k], a)
    ensures Strip(t) == t && Dissect(t) == AfterAtom(a, Tail(op, t[k + 1..]))
  {
    AtomChars(t[..k], a);
    ScanAtomComplete(t[..k], a);
    StartsPlain(t, k, a);
    StripPlain(t);
    NoAtomWithConn(t, k, op);
    FirstConn(t, k, op);
    SplitAt(t, k, a, op);
    DissectSplit(t, a, Tail(op, t[k + 1..]));
  }

  lemma SplitAt(t: string, k: nat, a: Atom, op: Conn)
    requires OpAt(t, k, op) && OneLine(t[k + 1..])
    requires FindConn(t, 0) == Some(k) && ScanAtom(t[..k]) == Some(a)
    ensures SplitAtom(t) == Some((a, Tail(op, t[k + 1..])))
  {
  }

  lemma DissectSplit(t: string, a: Atom, tail: Tail)
    requires ScanAtom(t) == None
    ensures SplitAtom(t) == Some((a, tail)) ==> Dissect(t) == AfterAtom(a, tail)
    ensures SplitAtom(t) == None && SplitBracket(t).Some? ==>
              Dissect(t) == AfterBracket(SplitBracket(t).value.0, SplitBracket(t).value.1)
  {
  }

  lemma SplitBracketAt(t: string, i: nat, j: nat)
    requires i < j < |t| && t[i] == '(' && Start(t) == i && Close(t, i + 1, 1) == Some(j) && SplitTail(t[j + 1..]).Some?
    ensures SplitBracket(t) == Some((t[i + 1..j], SplitTail(t[j + 1..]).value))
  {
    hide SplitTail, Close, Start;
  }

  /** A text that starts with a bracket is no base expression with something after it. */
  lemma NotSplit(t: string, i: nat, k: nat, op: Conn)
    requires OpAt(t, k, op) && i < k && t[i] == '(' && Spaces(t[..i])
    ensures SplitAtom(t) == None
  {
    var k0 := FindConn(t, 0).value;
    assert forall x :: 0 <= x < i ==> t[..i][x] == t[x];
    assert k0 > i;
    var p, cs := t[..k0], "()&|";
    assert cs[0] == '(' && p[i] in p;
    ScanAtomMarks(p);
  }

  lemma TailIs(t: string, j: nat, k: nat, op: Conn)
    requires j < k && OpAt(t, k, op) && Spaces(t[j + 1..][..k - j - 1])
    requires Spaces(t[k + 1..][LineEnd(t[k + 1..])..])
    ensures SplitTail(t[j + 1..]) == Some(Tail(op, t[k + 1..][..LineEnd(t[k + 1..])]))
    ensures !Blank(t[j + 1..])
  {
    hide Start, LineEnd;
    var tail, m := t[j + 1..], k - j - 1;
    assert tail[m] == t[k];
    StartIs(tail, m);
    assert tail[m + 1..] == t[k + 1..];
    BlankSpaces(t[k + 1..][LineEnd(t[k + 1..])..]);
  }

  lemma DissectAfterBracket(t: string, i: nat, j: nat, k: nat, op: Conn)
    requires j < k && OpAt(t, k, op) && BracketAt(t[..k], i, j) && Balanced(t[i + 1..j])
    requires Spaces(t[k + 1..][LineEnd(t[k + 1..])..])
    ensures Strip(t) == t
    ensures Dissect(t) == AfterBracket(t[i + 1..j], Tail(op, t[k + 1..][..LineEnd(t[k + 1..])]))
  {
    BracketStarts(t, i, j, k);
    hide Dissect, SplitBracket, SplitAtom, SplitTail, Close, Start, LineEnd, ScanAtom, Strip, Blank, BracketAt,
      Balanced;
    TailIs(t, j, k, op);
    NoAtomWithConn(t, k, op);
    NotSplit(t, i, k, op);
    SplitBracketAt(t, i, j);
    StripStops(t, i, j);
    DissectSplit(t, Atom("", EQ, ""), SplitTail(t[j + 1..]).value);
  }

  lemma BracketStarts(t: string, i: nat, j: nat, k: nat)
    requires j < k < |t| && BracketAt(t[..k], i, j) && Balanced(t[i + 1..j])
    ensures i < j && t[i] == '(' && t[j] == ')' && Spaces(t[..i]) && Spaces(t[j + 1..][..k - j - 1])
    ensures Start(t) == i && Close(t, i + 1, 1) == Some(j)
  {
    hide Start, Close, Balanced;
    var p := t[..k];
    assert t[i] == p[i] && t[j] == p[j] && t[..i] == p[..i] && t[j + 1..][..k - j - 1] == p[j + 1..];
    CloseFinds(t, i, j);
    StartIs(t, i);
  }

  lemma StripStops(t: string, i: nat, j: nat)
    requires i < j < |t| && t[i] == '(' && Start(t) == i && Close(t, i + 1, 1) == Some(j) && !Blank(t[j + 1..])
    ensures Strip(t) == t
  {
    hide Start, Close, Blank;
  }

  lemma StripOnce(t: string, i: nat, j: nat)
    requires i < j < |t| && t[i] == '(' && Start(t) == i && Close(t, i + 1, 1) == Some(j) && Blank(t[j + 1..])
    ensures Strip(t) == Strip(t[i + 1..j])
  {
    hide Start, Close, Blank;
  }

  lemma {:induction false} BracketComplete(scan: Scanner, t: string, tree: Tree)
    requires IsBracket(scan, t, tree)
    ensures Parse(scan, t) == Some(tree)
    decreases Level(t), |t|, 2
  {
    var i, j := LeftBracket(scan, t, tree);
    CloseFinds(t, i, j);
    StartIs(t, i);
    BlankSpaces(t[j + 1..]);
    StripOnce(t, i, j);
  }

  lemma {:induction false} LoneComplete(scan: Scanner, t: string, tree: Tree)
    requires IsAtom(scan, t, tree)
    ensures Parse(scan, t) == Some(tree)
    decreases Level(t), |t|, 1
  {
    hide Level, AtomText, Derives, SplitAtom, SplitBracket, Start;
    var a :| AtomText(t, a) && (AtomChars(t, a); AtomTree(scan, a, tree));
    AtomChars(t, a);
    ScanAtomComplete(t, a);
    PartWithin(a.field, t);
    AtomComplete(scan, a, tree);
    assert t[..|t|] == t;
    StartsPlain(t, |t|, a);
    StripPlain(t);
  }

  lemma {:induction false} ChainComplete(scan: Scanner, t: string, tree: Tree)
    requires IsChain(scan, t, tree)
    ensures Parse(scan, t) == Some(tree)
    decreases Level(t), |t|, 2
  {
    hide Dissect, LineEnd, Balanced, AtomText, Level;
    var k :| OpAt(t, k, tree.op) && ChainAt(scan, t, k, tree);
    var p, rest := t[..k], t[k + 1..];
    var right := rest[..LineEnd(rest)];
    PartWithin(p, t);
    PartWithin(right, t);
    ParseComplete(scan, right, tree.right);
    if LineEnd(rest) == |rest| && IsAtom(scan, p, tree.left) {
      assert right == rest;
      var a := LeftAtom(scan, p, tree.left);
      DissectAfterAtom(t, k, a, tree.op);
    } else {
      var i, j := LeftBracket(scan, p, tree.left);
      assert p[i + 1..j] == t[i + 1..j];
      DissectAfterBracket(t, i, j, k, tree.op);
    }
  }

  lemma {:induction false} LeftAtom(scan: Scanner, p: string, tree: Tree) returns (a: Atom)
    requires IsAtom(scan, p, tree)
    ensures AtomText(p, a) && ParseAtom(scan, a) == Some(tree)
    decreases Level(p), |p|, 1
  {
    a :| AtomText(p, a) && (AtomChars(p, a); AtomTree(scan, a, tree));
    AtomChars(p, a);
    PartWithin(a.field, p);
    AtomComplete(scan, a, tree);
  }

  lemma {:induction false} LeftBracket(scan: Scanner, p: string, tree: Tree) returns (i: nat, j: nat)
    requires IsBracket(scan, p, tree)
    ensures BracketAt(p, i, j) && Balanced(p[i + 1..j]) && Parse(scan, p[i + 1..j]) == Some(tree)
    decreases Level(p), |p|, 1
  {
    i, j :| BracketAt(p, i, j) && Derives(scan, p[i + 1..j], tree);
    PartWithin(p[i + 1..j], p);
    DerivesBalanced(scan, p[i + 1..j], tree);
    ParseComplete(scan, p[i + 1..j], tree);
  }

  /** Every text of the grammar is parsed, to the tree that the grammar gives it. */
  lemma {:induction false} ParseComplete(scan: Scanner, t: string, tree: Tree)
    requires Derives(scan, t, tree)
    ensures Parse(scan, t) == Some(tree)
    decreases Level(t), |t|, 3
  {
    if IsAtom(scan, t, tree) {
      LoneComplete(scan, t, tree);
    } else if IsBracket(scan, t, tree) {
      BracketComplete(scan, t, tree);
    } else {
      ChainComplete(scan, t, tree);
    }
  }

  /** The parser decides the grammar: it returns a tree exactly for the texts that have one, and that tree is the
      only one. */
  lemma ParseIffDerives(scan: Scanner, t: string, tree: Tree)
    ensures Parse(scan, t) == Some(tree) <==> Derives(scan, t, tree)
  {
    ParseSound(scan, t);
    if Derives(scan, t, tree) {
      ParseComplete(scan, t, tree);
    }
  }
}
