/** The text level of the filter language of trace_filter.hpp: character classes and base expressions such as
    "sip = 0x0b000001". */
module FilterText {
  import opened Wrappers

  // ----- Characters -----

  /** `\s`, `[a-zA-Z0-9\.]` and `[x,[:xdigit:]]` */
  datatype Class = Space | FieldChar | ValueChar

  predicate In(cls: Class, c: char) {
    match cls
    case Space => c == ' ' || c == '\t' || c == '\n' || c == '\r' || c == '\U{000B}' || c == '\U{000C}'
    case FieldChar => 'a' <= c <= 'z' || 'A' <= c <= 'Z' || '0' <= c <= '9' || c == '.'
    case ValueChar => '0' <= c <= '9' || 'a' <= c <= 'f' || 'A' <= c <= 'F' || c == 'x' || c == ','
  }

  /** The characters that `.` of a regular expression does not match. */
  predicate IsLineEnd(c: char) {
    c == '\n' || c == '\r'
  }

  ghost predicate All(t: string, cls: Class) {
    forall i :: 0 <= i < |t| ==> In(cls, t[i])
  }

  ghost predicate Spaces(t: string) {
    All(t, Space)
  }

  /** The longest prefix of characters of a class, and the rest. */
  function Take(t: string, cls: Class): (r: (string, string))
    ensures t == r.0 + r.1 && All(r.0, cls) && (r.1 != "" ==> !In(cls, r.1[0]))
  {
    if t != "" && In(cls, t[0]) then
      var (run, rest) := Take(t[1..], cls);
      ([t[0]] + run, rest)
    else ("", t)
  }

  lemma {:induction false} TakeSplit(a: string, b: string, cls: Class)
    requires All(a, cls) && (b != "" ==> !In(cls, b[0]))
    ensures Take(a + b, cls) == (a, b)
  {
    if a == "" {
      assert a + b == b;
    } else {
      assert (a + b)[1..] == a[1..] + b;
      assert forall i :: 0 <= i < |a[1..]| ==> a[1..][i] == a[i + 1];
      TakeSplit(a[1..], b, cls);
      assert [a[0]] + a[1..] == a;
    }
  }

  // ----- Base expressions -----

  datatype Cmp = EQ | GT | GE | LT | LE | NE

  function CmpText(c: Cmp): string {
    match c
    case EQ => "="
    case GT => ">"
    case GE => ">="
    case LT => "<"
    case LE => "<="
    case NE => "!="
  }

  datatype Atom = Atom(field: string, cmp: Cmp, value: string)

  ghost predicate WellFormed(a: Atom) {
    a.field != "" && a.value != "" && All(a.field, FieldChar) && All(a.value, ValueChar)
  }

  /** Spaces, the value, spaces. */
  ghost predicate ValueText(t: string, value: string) {
    exists w, v :: Spaces(w) && Spaces(v) && t == w + (value + v)
  }

  /** Spaces, the operator, and then the value. */
  ghost predicate TestText(t: string, cmp: Cmp, value: string) {
    exists w, u :: Spaces(w) && ValueText(u, value) && t == w + (CmpText(cmp) + u)
  }

  /** Spaces, the field, and then operator and value, with spaces anywhere between them. */
  ghost predicate AtomText(t: string, a: Atom) {
    WellFormed(a) && exists w, u :: Spaces(w) && TestText(u, a.cmp, a.value) && t == w + (a.field + u)
  }

  /** The operator at the start of t and what follows it; of two that fit, the longer one. */
  function TakeCmp(t: string): Option<(Cmp, string)> {
    if t == "" then None
    else
      var eq := |t| > 1 && t[1] == '=';
      if t[0] == '=' then Some((EQ, t[1..]))
      else if t[0] == '>' then Some(if eq then (GE, t[2..]) else (GT, t[1..]))
      else if t[0] == '<' then Some(if eq then (LE, t[2..]) else (LT, t[1..]))
      else if t[0] == '!' && eq then Some((NE, t[2..]))
      else None
  }

  function ScanValue(t: string): (r: Option<string>)
    ensures r.Some? ==> r.value != "" && All(r.value, ValueChar) && ValueText(t, r.value)
  {
    var (w, u) := Take(t, Space);
    var (value, v) := Take(u, ValueChar);
    if value != "" && Take(v, Space).1 == "" then
      assert Take(v, Space).0 + "" == v;
      assert Spaces(w) && Spaces(v) && t == w + (value + v);
      Some(value)
    else None
  }

  function ScanTest(t: string): (r: Option<(Cmp, string)>)
    ensures r.Some? ==> TestText(t, r.value.0, r.value.1) && r.value.1 != "" && All(r.value.1, ValueChar)
  {
    var (w, u) := Take(t, Space);
    match TakeCmp(u)
    case None => None
    case Some((cmp, v)) =>
      assert u == CmpText(cmp) + v;
      match ScanValue(v)
      case None => None
      case Some(value) =>
        assert Spaces(w) && t == w + (CmpText(cmp) + v);
        Some((cmp, value))
  }

  /** Read the whole of t as one base expression. */
  function ScanAtom(t: string): (r: Option<Atom>)
    ensures r.Some? ==> AtomText(t, r.value)
  {
    var (w, u) := Take(t, Space);
    var (field, v) := Take(u, FieldChar);
    match ScanTest(v)
    case None => None
    case Some((cmp, value)) =>
      if field == "" then None
      else
        assert Spaces(w) && t == w + (field + v);
        Some(Atom(field, cmp, value))
  }

  lemma ScanValueComplete(t: string, value: string)
    requires value != "" && All(value, ValueChar) && ValueText(t, value)
    ensures ScanValue(t) == Some(value)
    ensures t != "" && (In(Space, t[0]) || In(ValueChar, t[0]))
  {
    var w, v :| Spaces(w) && Spaces(v) && t == w + (value + v);
    var u := value + v;
    assert In(ValueChar, value[0]) && u[0] == value[0];
    TakeSplit(w, u, Space);
    assert v != "" ==> In(Space, v[0]);
    TakeSplit(value, v, ValueChar);
    assert v == v + "";
    TakeSplit(v, "", Space);
    assert t[0] == if w == "" then u[0] else w[0];
  }

  lemma TakeCmpText(c: Cmp, rest: string)
    requires rest != "" && rest[0] != '='
    ensures TakeCmp(CmpText(c) + rest) == Some((c, rest))
  {
    var t := CmpText(c) + rest;
    assert t[|CmpText(c)|..] == rest;
    assert t[|CmpText(c)|] == rest[0];
  }

  lemma ScanTestComplete(t: string, cmp: Cmp, value: string)
    requires value != "" && All(value, ValueChar) && TestText(t, cmp, value)
    ensures ScanTest(t) == Some((cmp, value))
    ensures t != "" && !In(FieldChar, t[0])
  {
    var w, u :| Spaces(w) && ValueText(u, value) && t == w + (CmpText(cmp) + u);
    ScanValueComplete(u, value);
    TakeCmpText(cmp, u);
    var v := CmpText(cmp) + u;
    assert v[0] == CmpText(cmp)[0] && !In(Space, v[0]) && !In(FieldChar, v[0]);
    assert t[0] == if w == "" then v[0] else w[0];
    hide ValueText, CmpText, TakeCmp, ScanValue;
    TakeSplit(w, v, Space);
  }

  /** A text has at most one reading as a base expression, and ScanAtom finds it. */
  lemma ScanAtomComplete(t: string, a: Atom)
    requires AtomText(t, a)
    ensures ScanAtom(t) == Some(a)
    ensures Take(t, Space).1 != "" && In(FieldChar, Take(t, Space).1[0])
  {
    var w, u :| Spaces(w) && TestText(u, a.cmp, a.value) && t == w + (a.field + u);
    ScanTestComplete(u, a.cmp, a.value);
    var v := a.field + u;
    assert In(FieldChar, a.field[0]) && v[0] == a.field[0];
    TakeSplit(w, v, Space);
    TakeSplit(a.field, u, FieldChar);
  }

  ghost predicate NoneOf(t: string, cs: string) {
    forall c :: c in t ==> c !in cs
  }

  lemma ClassChars(t: string, cls: Class)
    requires All(t, cls)
    ensures NoneOf(t, "()&|")
  {
  }

  lemma NoneOfConcat(a: string, b: string, cs: string)
    requires NoneOf(a, cs) && NoneOf(b, cs)
    ensures NoneOf(a + b, cs)
  {
  }

  /** A base expression holds no bracket and no connective. */
  lemma AtomChars(t: string, a: Atom)
    requires AtomText(t, a)
    ensures NoneOf(t, "()&|")
    ensures |a.field| <= |t| && forall c :: c in a.field ==> c in t
  {
    var cs := "()&|";
    var w, u :| Spaces(w) && TestText(u, a.cmp, a.value) && t == w + (a.field + u);
    var w1, u1 :| Spaces(w1) && ValueText(u1, a.value) && u == w1 + (CmpText(a.cmp) + u1);
    var w2, v2 :| Spaces(w2) && Spaces(v2) && u1 == w2 + (a.value + v2);
    ClassChars(w, Space);
    ClassChars(a.field, FieldChar);
    ClassChars(w1, Space);
    ClassChars(w2, Space);
    ClassChars(a.value, ValueChar);
    ClassChars(v2, Space);
    NoneOfConcat(a.value, v2, cs);
    NoneOfConcat(w2, a.value + v2, cs);
    NoneOfConcat(CmpText(a.cmp), u1, cs);
    NoneOfConcat(w1, CmpText(a.cmp) + u1, cs);
    NoneOfConcat(a.field, u, cs);
    NoneOfConcat(w, a.field + u, cs);
  }
}
