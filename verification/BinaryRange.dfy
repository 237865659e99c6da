/** `int2bin`, `bin2int` and the ripple-carry enumerator `binary_range` of rad_util.py. */
module BinaryRange {
  import opened Wrappers

  /** What `int2bin` returns, or which of its exceptions it ends with. */
  datatype Converted = Text(s: string) | ValueError | KeyError

  function Pow2(n: nat): nat
    ensures Pow2(n) > 0
  {
    if n == 0 then 1 else 2 * Pow2(n - 1)
  }

  // ----- Binary numerals -----

  predicate Numeral(s: string) {
    forall i :: 0 <= i < |s| ==> s[i] == '0' || s[i] == '1'
  }

  function BitOf(n: nat): char {
    if n % 2 == 1 then '1' else '0'
  }

  /** The n lowest binary digits of k, most significant first. */
  function Bits(k: nat, n: nat): (s: string)
    ensures |s| == n && Numeral(s)
  {
    if n == 0 then "" else Bits(k / 2, n - 1) + [BitOf(k)]
  }

  /** `int(s, 2)` for a text of binary digits. */
  function Bin2Int(s: string): nat
    requires Numeral(s)
  {
    if s == "" then 0
    else 2 * Bin2Int(s[..|s| - 1]) + if s[|s| - 1] == '1' then 1 else 0
  }

  lemma {:induction false} NumeralBound(s: string)
    requires Numeral(s)
    ensures Bin2Int(s) < Pow2(|s|)
    ensures Bin2Int(s) == 0 <==> '1' !in s
  {
    if s != "" {
      var init := s[..|s| - 1];
      NumeralBound(init);
      assert s == init + [s[|s| - 1]];
    }
  }

  lemma {:induction false} BitsValue(k: nat, n: nat)
    requires k < Pow2(n)
    ensures Bin2Int(Bits(k, n)) == k
  {
    if n > 0 {
      BitsValue(k / 2, n - 1);
      assert Bits(k, n)[..n - 1] == Bits(k / 2, n - 1);
    }
  }

  /** A numeral is determined by its length and its value. */
  lemma {:induction false} NumeralIs(s: string)
    requires Numeral(s)
    ensures s == Bits(Bin2Int(s), |s|)
  {
    if s != "" {
      var init, last := s[..|s| - 1], s[|s| - 1];
      NumeralIs(init);
      assert s == init + [last];
      assert Bin2Int(s) / 2 == Bin2Int(init);
    }
  }

  lemma {:induction false} NumeralConcat(a: string, b: string)
    requires Numeral(a) && Numeral(b)
    ensures Bin2Int(a + b) == Bin2Int(a) * Pow2(|b|) + Bin2Int(b)
  {
    if b == "" {
      assert a + b == a;
    } else {
      var n := |b| - 1;
      assert (a + b)[..|a| + n] == a + b[..n] && (a + b)[|a| + n] == b[n];
      NumeralConcat(a, b[..n]);
      Doubled(Bin2Int(a), Pow2(n));
    }
  }

  lemma Doubled(x: nat, p: nat)
    ensures x * (2 * p) == 2 * (x * p)
  {
  }

  // ----- int2bin -----

  const HEX := "0123456789abcdef"

  function HexDigits(i: nat): string {
    if i < 16 then [HEX[i]] else HexDigits(i / 16) + [HEX[i % 16]]
  }

  /** The lower-case hexadecimal text without its first two characters: for a negative number, which starts with
      "-0x", that leaves the x. */
  function HexText(i: int): string {
    if i >= 0 then HexDigits(i) else "x" + HexDigits(-i)
  }

  /** The dictionary `hex2bin`. */
  function Hex2Bin(c: char): Option<string> {
    match c
    case '0' => Some("0000")
    case '1' => Some("0001")
    case '2' => Some("0010")
    case '3' => Some("0011")
    case '4' => Some("0100")
    case '5' => Some("0101")
    case '6' => Some("0110")
    case '7' => Some("0111")
    case '8' => Some("1000")
    case '9' => Some("1001")
    case 'a' => Some("1010")
    case 'b' => Some("1011")
    case 'c' => Some("1100")
    case 'd' => Some("1101")
    case 'e' => Some("1110")
    case 'f' => Some("1111")
    case _ => None
  }

  /** Every digit replaced by its four bits; None when some character is no key. */
  function Translate(hex: string): Option<string> {
    if hex == "" then Some("")
    else
      match (Translate(hex[..|hex| - 1]), Hex2Bin(hex[|hex| - 1]))
      case (Some(init), Some(last)) => Some(init + last)
      case _ => None
  }

  /** Where a Python slice bound falls in a sequence of this length. */
  function SliceBound(length: nat, i: int): (p: nat)
    ensures p <= length
  {
    if i >= 0 then (if i < length then i else length)
    else if length + i >= 0 then length + i
    else 0
  }

  function Zeros(n: int): (s: string)
    ensures |s| == (if n > 0 then n else 0) && Numeral(s)
  {
    if n <= 0 then "" else "0" + Zeros(n - 1)
  }

  function Int2Bin(i: int, n: int): Converted {
    match Translate(HexText(i))
    case None => KeyError
    case Some(result) =>
      var cut := SliceBound(|result|, -n);
      if '1' in result[..cut] then ValueError
      else Text(Zeros(n - |result[cut..]|) + result[cut..])
  }

  lemma FourBits(d: nat)
    ensures Bits(d, 4) == [BitOf(d / 2 / 2 / 2), BitOf(d / 2 / 2), BitOf(d / 2), BitOf(d)]
  {
    assert Bits(d / 2 / 2 / 2, 1) == [BitOf(d / 2 / 2 / 2)];
    assert Bits(d / 2 / 2, 2) == [BitOf(d / 2 / 2 / 2), BitOf(d / 2 / 2)];
    assert Bits(d / 2, 3) == [BitOf(d / 2 / 2 / 2), BitOf(d / 2 / 2), BitOf(d / 2)];
  }

  /** The table is right. */
  lemma NibbleValue(d: nat)
    requires d < 16
    ensures Hex2Bin(HEX[d]) == Some(Bits(d, 4))
  {
    FourBits(d);
    hide Bits, Hex2Bin;
    if d < 8 {
      LowNibbles();
    } else {
      HighNibbles();
    }
  }

  lemma LowNibbles()
    ensures Hex2Bin(HEX[0]) == Some("0000") && Hex2Bin(HEX[1]) == Some("0001")
    ensures Hex2Bin(HEX[2]) == Some("0010") && Hex2Bin(HEX[3]) == Some("0011")
    ensures Hex2Bin(HEX[4]) == Some("0100") && Hex2Bin(HEX[5]) == Some("0101")
    ensures Hex2Bin(HEX[6]) == Some("0110") && Hex2Bin(HEX[7]) == Some("0111")
  {
  }

  lemma HighNibbles()
    ensures Hex2Bin(HEX[8]) == Some("1000") && Hex2Bin(HEX[9]) == Some("1001")
    ensures Hex2Bin(HEX[10]) == Some("1010") && Hex2Bin(HEX[11]) == Some("1011")
    ensures Hex2Bin(HEX[12]) == Some("1100") && Hex2Bin(HEX[13]) == Some("1101")
    ensures Hex2Bin(HEX[14]) == Some("1110") && Hex2Bin(HEX[15]) == Some("1111")
  {
  }

  lemma AppendDigit(hex: string, t: string, d: nat)
    requires d < 16 && Translate(hex) == Some(t) && Numeral(t)
    ensures Translate(hex + [HEX[d]]) == Some(t + Bits(d, 4))
    ensures Numeral(t + Bits(d, 4)) && |t + Bits(d, 4)| == |t| + 4
    ensures Bin2Int(t + Bits(d, 4)) == 16 * Bin2Int(t) + d
  {
    hide Hex2Bin, Bits, Bin2Int;
    NibbleValue(d);
    assert Pow2(4) == 16 by {
      assert Pow2(0) == 1 && Pow2(1) == 2 && Pow2(2) == 4 && Pow2(3) == 8;
    }
    BitsValue(d, 4);
    NumeralConcat(t, Bits(d, 4));
    assert (hex + [HEX[d]])[..|hex|] == hex;
  }

  /** The digits of a natural number translate to a numeral of that number. */
  lemma {:induction false} TranslateDigits(i: nat)
    ensures var t := Translate(HexDigits(i));
            t.Some? && Numeral(t.value) && |t.value| >= 4 && Bin2Int(t.value) == i
  {
    assert Translate("") == Some("") && Bin2Int("") == 0 && Numeral("");
    hide Hex2Bin, Bits, Bin2Int, Translate, Numeral;
    if i < 16 {
      AppendDigit("", "", i);
      assert "" + [HEX[i]] == [HEX[i]];
    } else {
      TranslateDigits(i / 16);
      AppendDigit(HexDigits(i / 16), Translate(HexDigits(i / 16)).value, i % 16);
    }
  }

  lemma {:induction false} TranslateBad(hex: string)
    requires hex != "" && hex[0] == 'x'
    ensures Translate(hex) == None
  {
    if |hex| > 1 {
      TranslateBad(hex[..|hex| - 1]);
    }
  }

  lemma {:induction false} ZerosValue(n: int, s: string)
    requires Numeral(s)
    ensures Bin2Int(Zeros(n) + s) == Bin2Int(s)
  {
    NumeralConcat(Zeros(n), s);
    NoOnes(n);
    NumeralBound(Zeros(n));
  }

  lemma {:induction false} NoOnes(n: int)
    ensures '1' !in Zeros(n)
    decreases if n > 0 then n else 0
  {
    if n > 0 {
      NoOnes(n - 1);
    }
  }

  /** Cutting a numeral to its last n digits loses a one exactly when its value needs more than n digits. */
  lemma CutNumeral(b: string, cut: nat, n: nat)
    requires Numeral(b) && cut <= |b| && (cut > 0 ==> |b| - cut == n) && |b| - cut <= n
    ensures '1' in b[..cut] <==> Bin2Int(b) >= Pow2(n)
    ensures '1' !in b[..cut] ==> Zeros(n - |b[cut..]|) + b[cut..] == Bits(Bin2Int(b), n)
  {
    hide Bin2Int, Pow2, Bits, Zeros;
    var high, low := b[..cut], b[cut..];
    assert b == high + low;
    NumeralConcat(high, low);
    NumeralBound(high);
    NumeralBound(low);
    if '1' in high {
      AtLeast(Bin2Int(high), Pow2(n));
    } else {
      ZerosValue(n - |low|, low);
      NumeralIs(Zeros(n - |low|) + low);
      PowMonotone(|low|, n);
    }
  }

  /** For a positive width: the numeral of that width, or a ValueError if there is none. */
  lemma Int2BinPads(i: nat, n: nat)
    requires n > 0
    ensures Int2Bin(i, n) == if i < Pow2(n) then Text(Bits(i, n)) else ValueError
  {
    hide Translate, Bin2Int, Pow2, Bits, Zeros, HexDigits;
    TranslateDigits(i);
    var b := Translate(HexDigits(i)).value;
    CutNumeral(b, SliceBound(|b|, -(n as int)), n);
  }

  lemma AtLeast(a: nat, p: nat)
    requires a > 0
    ensures a * p >= p
  {
  }

  lemma {:induction false} PowMonotone(m: nat, n: nat)
    requires m <= n
    ensures Pow2(m) <= Pow2(n)
  {
    if m < n {
      PowMonotone(m, n - 1);
    }
  }

  ghost predicate IsNumeralOf(r: Converted, i: int, n: int) {
    r.Text? && |r.s| == n && Numeral(r.s) && Bin2Int(r.s) == i
  }

  /** `int2bin` returns what it promises, an n-digit numeral of i, exactly for positive widths into which i fits.
      A width of 0 never fails: the slice `[:-0]` is empty, so nothing is cut off. */
  lemma Int2BinExactly(i: int, n: int)
    ensures IsNumeralOf(Int2Bin(i, n), i, n) <==> n >= 1 && 0 <= i < Pow2(n)
    ensures i < 0 ==> Int2Bin(i, n) == KeyError
    ensures n == 0 && i >= 0 ==> Int2Bin(i, n).Text? && |Int2Bin(i, n).s| >= 4
  {
    if i < 0 {
      TranslateBad(HexText(i));
    } else if n >= 1 {
      Int2BinPads(i, n);
      if i < Pow2(n) {
        BitsValue(i, n);
      }
    } else {
      TranslateDigits(i);
      var b := Translate(HexDigits(i)).value;
      if n == 0 {
        assert b[0..] == b && "" + b == b && Zeros(n - |b|) == "";
      }
    }
  }

  // ----- binary_range -----

  /** The digits of k, least significant first, as the array holds them. */
  function Register(k: nat, n: nat): (v: seq<char>)
    ensures |v| == n
  {
    if n == 0 then [] else [BitOf(k)] + Register(k / 2, n - 1)
  }

  function Reversed(s: seq<char>): seq<char> {
    if s == [] then [] else Reversed(s[1..]) + [s[0]]
  }

  lemma {:induction false} RegisterReversed(k: nat, n: nat)
    ensures Reversed(Register(k, n)) == Bits(k, n)
  {
    if n > 0 {
      RegisterReversed(k / 2, n - 1);
      assert Register(k, n)[1..] == Register(k / 2, n - 1);
    }
  }

  lemma {:induction false} RegisterZero(v: seq<char>)
    requires forall i :: 0 <= i < |v| ==> v[i] == '0'
    ensures v == Register(0, |v|)
  {
    if v != [] {
      RegisterZero(v[1..]);
    }
  }

  /** Adding one, and whether a carry leaves the last place. */
  function Increment(v: seq<char>): (r: (seq<char>, bool))
    ensures |r.0| == |v|
  {
    if v == [] then ([], true)
    else if v[0] == '0' then (['1'] + v[1..], false)
    else (['0'] + Increment(v[1..]).0, Increment(v[1..]).1)
  }

  lemma {:induction false} IncrementCounts(k: nat, n: nat)
    requires k < Pow2(n)
    ensures Increment(Register(k, n)) == (Register(if k + 1 < Pow2(n) then k + 1 else 0, n), k + 1 == Pow2(n))
  {
    if n > 0 {
      assert Register(k, n)[1..] == Register(k / 2, n - 1);
      IncrementCounts(k / 2, n - 1);
      assert (k + 1) / 2 == if k % 2 == 1 then k / 2 + 1 else k / 2;
    }
  }

  lemma RippleStep(v: seq<char>, i: nat)
    requires i < |v|
    ensures v[i] == '0' ==> Increment(v[i..]) == (['1'] + v[i + 1..], false)
    ensures v[i] != '0' ==> Increment(v[i..]) == (['0'] + Increment(v[i + 1..]).0, Increment(v[i + 1..]).1)
  {
    assert v[i..][1..] == v[i + 1..];
  }

  /** Before place i: the carry has passed all places below, or has been absorbed. */
  ghost predicate Rippling(v0: seq<char>, v: seq<char>, toggle: seq<int>, i: nat) {
    && i <= |v| == |v0| && |toggle| == |v| + 1
    && (forall j :: i < j < |toggle| ==> toggle[j] == 0)
    && (forall j :: i <= j < |v| ==> v[j] == v0[j])
    && if toggle[i] == 1 then Increment(v0) == (v[..i] + Increment(v0[i..]).0, Increment(v0[i..]).1)
       else toggle[i] == 0 && Increment(v0) == (v, false)
  }

  lemma RippleFrom(v: seq<char>, toggle: seq<int>)
    requires |toggle| == |v| + 1 && toggle[0] == 1 && forall j :: 1 <= j < |toggle| ==> toggle[j] == 0
    ensures Rippling(v, v, toggle, 0)
  {
    assert v[0..] == v && v[..0] == [];
    assert [] + Increment(v).0 == Increment(v).0;
  }

  lemma RippleOn(v0: seq<char>, v: seq<char>, toggle: seq<int>, i: nat)
    requires Rippling(v0, v, toggle, i) && i < |v| && toggle[i] == 1
    ensures v[i] == '0' ==> Rippling(v0, v[i := '1'], toggle[i + 1 := 0], i + 1)
    ensures v[i] != '0' ==> Rippling(v0, v[i := '0'], toggle[i + 1 := 1], i + 1)
  {
    RippleStep(v0, i);
    hide Increment;
    if v[i] == '0' {
      assert v[i := '1'] == v[..i] + (['1'] + v0[i + 1..]);
    } else {
      var next := Increment(v0[i + 1..]).0;
      assert v[i := '0'][..i + 1] + next == v[..i] + (['0'] + next);
    }
  }

  lemma RippleEnd(v0: seq<char>, v: seq<char>, toggle: seq<int>, i: nat)
    requires Rippling(v0, v, toggle, i) && (i == |v| || toggle[i] != 1)
    ensures Increment(v0) == (v, toggle[|v|] == 1)
  {
    assert v0[|v|..] == [] && v[..|v|] + [] == v;
  }

  /** The inner loop: the carry ripples from place to place until it is absorbed, or leaves the last place. */
  method Ripple(v: array<char>, toggle: array<int>, bits: nat)
    requires v.Length == bits && toggle.Length == bits + 1 && toggle[0] == 1
    requires forall j :: 1 <= j <= bits ==> toggle[j] == 0
    modifies v, toggle
    ensures Increment(old(v[..])) == (v[..], toggle[bits] == 1)
  {
    hide *;
    ghost var v0 := v[..];
    RippleFrom(v0, toggle[..]);
    var i := 0;
    while i < bits && toggle[i] == 1
      invariant 0 <= i <= bits && Rippling(v0, v[..], toggle[..], i)
    {
      ghost var now, carry := v[..], toggle[..];
      RippleOn(v0, now, carry, i);
      if v[i] == '0' {
        v[i] := '1';
        toggle[i + 1] := 0;
        assert v[..] == now[i := '1'] && toggle[..] == carry[i + 1 := 0];
      } else {
        v[i] := '0';
        toggle[i + 1] := 1;
        assert v[..] == now[i := '0'] && toggle[..] == carry[i + 1 := 1];
      }
      i := i + 1;
    }
    RippleEnd(v0, v[..], toggle[..], i);
  }

  /** A new list of carries: only the one into the first place is set. */
  method NewToggle(bits: nat) returns (toggle: array<int>)
    ensures fresh(toggle) && toggle.Length == bits + 1 && toggle[0] == 1
    ensures forall j :: 1 <= j <= bits ==> toggle[j] == 0
  {
    toggle := new int[bits + 1](i => if i == 0 then 1 else 0);
  }

  /** All numerals of a positive width, in order: exactly 2^bits of them, the k-th as `int2bin` prints k. A width of
      0 or -1 gives an empty list, a smaller one an IndexError (None). */
  method BinaryRange(bits: int) returns (r: Option<seq<string>>)
    ensures r == None <==> bits < -1
    ensures bits == 0 || bits == -1 ==> r == Some([])
    ensures bits >= 1 ==>
              && |r.value| == Pow2(bits)
              && forall k :: 0 <= k < Pow2(bits) ==> Int2Bin(k, bits) == Text(r.value[k])
  {
    if bits < -1 {
      return None;
    }
    if bits == -1 {
      return Some([]);  // toggle[-1] is its last element, the 1
    }
    var l := Enumerate(bits);
    forall k | bits >= 1 && 0 <= k < Pow2(bits)
      ensures Int2Bin(k, bits) == Text(l[k])
    {
      Int2BinPads(k, bits);
    }
    return Some(l);
  }

  /** The outer loop. */
  method Enumerate(bits: nat) returns (l: seq<string>)
    ensures bits == 0 ==> l == []
    ensures bits >= 1 ==> |l| == Pow2(bits) && forall k :: 0 <= k < Pow2(bits) ==> l[k] == Bits(k, bits)
  {
    hide Increment, Register, Reversed, Bits, Pow2;
    l := [];
    var v := new char[bits](_ => '0');
    var toggle := NewToggle(bits);
    RegisterZero(v[..]);
    while toggle[bits] != 1
      invariant fresh(v) && fresh(toggle) && v.Length == bits && toggle.Length == bits + 1
      invariant if bits == 0 then l == [] && toggle[0] == 1
                else if toggle[bits] == 1 then |l| == Pow2(bits)
                else |l| < Pow2(bits) && v[..] == Register(|l|, bits)
      invariant forall k :: 0 <= k < |l| ==> l[k] == Bits(k, bits)
      decreases Pow2(bits) - |l|, toggle[bits] != 1
    {
      RegisterReversed(|l|, bits);
      IncrementCounts(|l|, bits);
      l := l + [Reversed(v[..])];
      toggle := NewToggle(bits);
      Ripple(v, toggle, bits);
    }
  }

  // ----- Round trip -----

  /** Padding, after a cut that loses no one, keeps the value. */
  lemma CutKeepsValue(b: string, cut: nat, n: int)
    requires Numeral(b) && cut <= |b| && '1' !in b[..cut]
    ensures Numeral(Zeros(n) + b[cut..]) && Bin2Int(Zeros(n) + b[cut..]) == Bin2Int(b)
  {
    hide Bin2Int, Pow2, Zeros;
    var high, low := b[..cut], b[cut..];
    assert b == high + low;
    NumeralConcat(high, low);
    NumeralBound(high);
    ZerosValue(n, low);
  }

  /** Whatever the width, `bin2int` undoes `int2bin` where that returns a text it can read; the text is empty only
      for 0 and a width of -4 or less. */
  lemma BinRoundTrip(i: int, n: int)
    requires Int2Bin(i, n).Text?
    ensures var s := Int2Bin(i, n).s;
            Numeral(s) && (s != "" ==> Bin2Int(s) == i) && (s == "" <==> i == 0 && n <= -4)
  {
    if i < 0 {
      TranslateBad(HexText(i));
    } else {
      TranslateDigits(i);
      if i == 0 {
        ZeroTranslates();
      }
      hide Translate, Bin2Int, HexDigits, Zeros, Numeral;
      var b := Translate(HexDigits(i)).value;
      var cut := SliceBound(|b|, -n);
      CutKeepsValue(b, cut, n - |b[cut..]|);
      if cut == |b| {
        WholeCut(b, cut);
      }
    }
  }

  lemma ZeroTranslates()
    ensures Translate(HexDigits(0)) == Some("0000")
  {
    assert "0"[..0] == "" && Translate("") == Some("") && "" + "0000" == "0000";
  }

  /** Cutting everything off loses the ones of every number but 0. */
  lemma WholeCut(b: string, cut: nat)
    requires Numeral(b) && cut <= |b| && '1' !in b[..cut] && |b| == cut
    ensures Bin2Int(b) == 0
  {
    NumeralBound(b);
    assert b[..cut] == b;
  }
}
