/** How "%li" reads a number without a sign: decimal, octal after a 0, hexadecimal after 0x, up to the first character
    that is no digit; what does not fit into a signed 64-bit number reads as the largest one. */
module FilterNumbers {
  import opened Wrappers
  import opened Memory
  import opened Text

  /** One more than the largest signed 64-bit number. */
  const LONG_LIMIT: nat := 0x8000_0000_0000_0000

  function DigitValue(c: char): (r: Option<nat>)
    ensures r.Some? ==> r.value < 16
  {
    if '0' <= c <= '9' then Some(c as int - '0' as int)
    else if 'a' <= c <= 'f' then Some(10 + (c as int - 'a' as int))
    else if 'A' <= c <= 'F' then Some(10 + (c as int - 'A' as int))
    else None
  }

  predicate IsDigit(c: char, base: nat) {
    DigitValue(c).Some? && DigitValue(c).value < base
  }

  /** The value of the digits at the start of s, after digits of value acc. */
  function ReadDigits(s: string, base: nat, acc: nat): nat {
    if s == "" || !IsDigit(s[0], base) then acc
    else ReadDigits(s[1..], base, acc * base + DigitValue(s[0]).value)
  }

  function ReadNatural(s: string): nat {
    if |s| >= 2 && s[0] == '0' && (s[1] == 'x' || s[1] == 'X') then ReadDigits(s[2..], 16, 0)
    else if s != "" && s[0] == '0' then ReadDigits(s, 8, 0)
    else ReadDigits(s, 10, 0)
  }

  function Saturate(n: nat): (r: U64)
    ensures r < LONG_LIMIT && (r == n <==> n < LONG_LIMIT)
  {
    if n < LONG_LIMIT then n else LONG_LIMIT - 1
  }

  function ReadLong(s: string): U64 {
    Saturate(ReadNatural(s))
  }

  ghost predicate AllDigits(s: string, base: nat) {
    forall i :: 0 <= i < |s| ==> IsDigit(s[i], base)
  }

  lemma {:induction false} ReadOneMore(s: string, c: char, base: nat, acc: nat)
    requires AllDigits(s, base) && IsDigit(c, base)
    ensures ReadDigits(s + [c], base, acc) == ReadDigits(s, base, acc) * base + DigitValue(c).value
  {
    hide DigitValue;
    if s == "" {
      assert [] + [c] == [c] && [c][1..] == "";
    } else {
      assert (s + [c])[1..] == s[1..] + [c];
      ReadOneMore(s[1..], c, base, acc * base + DigitValue(s[0]).value);
    }
  }

  lemma DigitReads(n: nat)
    requires n < 10
    ensures IsDigit(Digit(n), 10) && DigitValue(Digit(n)) == Some(n) && (Digit(n) == '0' <==> n == 0)
  {
  }

  lemma {:induction false} DecimalReads(n: nat)
    ensures AllDigits(Decimal(n), 10) && ReadDigits(Decimal(n), 10, 0) == n
    ensures Decimal(n) != "" && (Decimal(n)[0] == '0' <==> n == 0)
  {
    hide IsDigit, DigitValue;
    DigitReads(n % 10);
    if n < 10 {
      var s := [Digit(n)];
      assert s[1..] == "";
    } else {
      DecimalReads(n / 10);
      ReadOneMore(Decimal(n / 10), Digit(n % 10), 10, 0);
    }
  }

  /** A number printed in decimal is read back, up to the largest signed 64-bit number. */
  lemma LongReadsDecimal(n: nat)
    ensures ReadLong(Decimal(n)) == Saturate(n)
  {
    DecimalReads(n);
    if n == 0 {
      assert Decimal(0) == "0" && "0"[1..] == "";
    }
    hide Decimal, DigitValue;
  }

  /** The constants of the shorthands. */
  lemma LongReadsConstants()
    ensures ReadLong("17") == 17 && ReadLong("0x0") == 0 && ReadLong("0xFC") == 0xFC && ReadLong("0xFD") == 0xFD
  {
    TwoDigits("17", 10, 1, 7);
    assert "0x0"[2..] == "0" && "0xFC"[2..] == "FC" && "0xFD"[2..] == "FD";
    assert ReadDigits("0", 16, 0) == 0 by {
      assert "0"[1..] == "";
    }
    TwoDigits("FC", 16, 15, 12);
    TwoDigits("FD", 16, 15, 13);
  }

  lemma TwoDigits(s: string, base: nat, a: nat, b: nat)
    requires |s| == 2 && a < base && b < base && DigitValue(s[0]) == Some(a) && DigitValue(s[1]) == Some(b)
    ensures ReadDigits(s, base, 0) == a * base + b
  {
    hide DigitValue;
    var rest := s[1..];
    assert rest == [s[1]] && rest[1..] == "";
    assert ReadDigits(rest, base, a) == ReadDigits("", base, a * base + b);
    assert 0 * base + a == a;
    assert ReadDigits(s, base, 0) == ReadDigits(rest, base, a);
  }
}
