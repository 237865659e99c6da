/** The string operations the sources use: decimal printing and joining with a separator. */
module Text {

  function Digit(n: nat): char
    requires n < 10
  {
    ['0', '1', '2', '3', '4', '5', '6', '7', '8', '9'][n]
  }

  /** The decimal digits of n, as `str` and "%u" print them. */
  function Decimal(n: nat): string {
    if n < 10 then [Digit(n)] else Decimal(n / 10) + [Digit(n % 10)]
  }

  lemma {:induction false} DecimalDigits(n: nat)
    ensures Decimal(n) != "" && forall i :: 0 <= i < |Decimal(n)| ==> '0' <= Decimal(n)[i] <= '9'
  {
    if n >= 10 {
      DecimalDigits(n / 10);
    }
  }

  lemma DigitInjective(a: nat, b: nat)
    requires a < 10 && b < 10 && Digit(a) == Digit(b)
    ensures a == b
  {
  }

  /** Different numbers are printed differently. */
  lemma {:induction false} DecimalInjective(a: nat, b: nat)
    requires Decimal(a) == Decimal(b)
    ensures a == b
  {
    var s, t := Decimal(a), Decimal(b);
    assert s[|s| - 1] == Digit(a % 10) && t[|t| - 1] == Digit(b % 10);
    DigitInjective(a % 10, b % 10);
    DecimalDigits(a / 10);
    DecimalDigits(b / 10);
    if a >= 10 && b >= 10 {
      assert Decimal(a / 10) == s[..|s| - 1] && Decimal(b / 10) == t[..|t| - 1];
      DecimalInjective(a / 10, b / 10);
    }
  }

  /** Python's `str` of an int. */
  function Str(n: int): string {
    if n < 0 then "-" + Decimal(-n) else Decimal(n)
  }

  lemma StrSign(n: int)
    ensures Str(n) != "" && (n < 0 <==> Str(n)[0] == '-')
    ensures n < 0 ==> Str(n)[1..] == Decimal(-n)
  {
    DecimalDigits(if n < 0 then -n else n);
    hide Decimal;
  }

  lemma StrInjective(a: int, b: int)
    requires Str(a) == Str(b)
    ensures a == b
  {
    StrSign(a);
    StrSign(b);
    hide Decimal;
    if a < 0 {
      DecimalInjective(-a, -b);
    } else {
      DecimalInjective(a, b);
    }
  }

  /** The segments joined with underscores, left to right. */
  function Join(segments: seq<string>): string {
    if segments == [] then ""
    else if |segments| == 1 then segments[0]
    else segments[0] + "_" + Join(segments[1..])
  }

  ghost predicate Plain(segment: string) {
    segment != "" && '_' !in segment
  }

  ghost predicate AllPlain(segments: seq<string>) {
    forall i :: 0 <= i < |segments| ==> Plain(segments[i])
  }

  function FirstUnderscore(s: string): (i: nat)
    requires '_' in s
    ensures i < |s|
  {
    if s[0] == '_' then 0
    else
      assert s == [s[0]] + s[1..];
      1 + FirstUnderscore(s[1..])
  }

  lemma {:induction false} UnderscoreAfter(a: string, x: string)
    requires '_' !in a
    ensures '_' in a + "_" + x && FirstUnderscore(a + "_" + x) == |a|
  {
    var s := a + "_" + x;
    assert s[|a|] == '_';
    if a != "" {
      UnderscoreAfter(a[1..], x);
      assert s[1..] == a[1..] + "_" + x;
    }
  }

  /** How to read the first segment back from the joined text. */
  lemma FirstSegment(a: seq<string>)
    requires AllPlain(a) && a != []
    ensures Join(a) != ""
    ensures |a| == 1 <==> '_' !in Join(a)
    ensures |a| > 1 ==> var i := FirstUnderscore(Join(a)); Join(a)[..i] == a[0] && Join(a)[i + 1..] == Join(a[1..])
  {
    hide FirstUnderscore;
    assert Plain(a[0]);
    if |a| > 1 {
      UnderscoreAfter(a[0], Join(a[1..]));
      assert Join(a)[..|a[0]|] == a[0];
    }
  }

  /** Different paths of non-empty, underscore-free segments have different flat names. */
  lemma {:induction false} JoinInjective(a: seq<string>, b: seq<string>)
    requires AllPlain(a) && AllPlain(b) && Join(a) == Join(b)
    ensures a == b
  {
    if a != [] {
      FirstSegment(a);
    }
    if b != [] {
      FirstSegment(b);
    }
    if |a| > 1 {
      JoinInjective(a[1..], b[1..]);
      assert a == [a[0]] + a[1..] && b == [b[0]] + b[1..];
    }
  }
}
