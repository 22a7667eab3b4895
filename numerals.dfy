/**
 * The two conversions between numbers and text that the assembler uses:
 * format!("{:016b}", n) for a u16, and str::parse::<u16>.
 */
module Numerals {
  import opened Options

  /** Rust's u16. */
  newtype u16 = x: int | 0 <= x < 0x1_0000

  predicate IsBit(c: char) {
    c == '0' || c == '1'
  }

  predicate IsBits(s: string) {
    forall i :: 0 <= i < |s| ==> IsBit(s[i])
  }

  /** The number a string of binary digits denotes, most significant digit first. */
  function BitsValue(s: string): nat
    requires IsBits(s)
  {
    if s == [] then 0
    else 2 * BitsValue(s[..|s| - 1]) + (if s[|s| - 1] == '1' then 1 else 0)
  }

  function Pow2(n: nat): nat {
    if n == 0 then 1 else 2 * Pow2(n - 1)
  }

  lemma {:induction false} Pow2Add(a: nat, b: nat)
    ensures Pow2(a + b) == Pow2(a) * Pow2(b)
  {
    if a > 0 { Pow2Add(a - 1, b); }
  }

  lemma {:induction false} Pow2Sixteen()
    ensures Pow2(16) == 0x1_0000
  {
    assert Pow2(4) == 16;
    Pow2Add(4, 4);
    Pow2Add(8, 8);
  }

  /** The low width bits of n as binary digits, most significant first. */
  function ToBinary(n: nat, width: nat): (r: string)
    ensures |r| == width
  {
    if width == 0 then ""
    else ToBinary(n / 2, width - 1) + [if n % 2 == 1 then '1' else '0']
  }

  /** Below 2^width, the digits read back as n. */
  lemma {:induction false} ToBinaryValue(n: nat, width: nat)
    requires n < Pow2(width)
    ensures IsBits(ToBinary(n, width)) && BitsValue(ToBinary(n, width)) == n
  {
    if width > 0 {
      ToBinaryValue(n / 2, width - 1);
      var r := ToBinary(n, width);
      assert r[..|r| - 1] == ToBinary(n / 2, width - 1);
    }
  }

  /** format!("{:016b}", n). */
  function ToBin16(n: u16): (r: string)
    ensures |r| == 16
  {
    ToBinary(n as nat, 16)
  }

  /** The sixteen digits are binary digits that read back as n. */
  lemma {:induction false} ToBin16Value(n: u16)
    ensures IsBits(ToBin16(n)) && BitsValue(ToBin16(n)) == n as int
  {
    Pow2Sixteen();
    ToBinaryValue(n as nat, 16);
  }

  /** Distinct addresses are written differently. */
  lemma {:induction false} ToBin16Injective(a: u16, b: u16)
    requires ToBin16(a) == ToBin16(b)
    ensures a == b
  {
    ToBin16Value(a);
    ToBin16Value(b);
  }

  predicate IsDigit(c: char) {
    '0' <= c <= '9'
  }

  predicate IsDigits(s: string) {
    forall i :: 0 <= i < |s| ==> IsDigit(s[i])
  }

  /** The number a string of decimal digits denotes, most significant digit first. */
  function DecimalValue(s: string): nat
    requires IsDigits(s)
  {
    if s == [] then 0
    else 10 * DecimalValue(s[..|s| - 1]) + (s[|s| - 1] as int - '0' as int)
  }

  /** What str::parse::<u16> accepts: one or more ASCII digits, optionally after a '+'. */
  predicate IsU16Numeral(s: string, digits: string) {
    (s == digits || s == "+" + digits) && digits != [] && IsDigits(digits)
      && DecimalValue(digits) < 0x1_0000
  }

  /** str::parse::<u16>: the value of the numeral, or None when s is not one. */
  function ParseU16(s: string): Option<u16> {
    var digits := if |s| > 0 && s[0] == '+' then s[1..] else s;
    if digits != [] && IsDigits(digits) && DecimalValue(digits) < 0x1_0000 then
      Some(DecimalValue(digits) as u16)
    else None
  }

  /** ParseU16 succeeds exactly on the numerals, with their value. */
  lemma {:induction false} ParseU16Spec(s: string)
    ensures ParseU16(s).Some? <==> exists d :: IsU16Numeral(s, d)
    ensures forall d :: IsU16Numeral(s, d) ==> ParseU16(s) == Some(DecimalValue(d) as u16)
  {
    var digits := if |s| > 0 && s[0] == '+' then s[1..] else s;
    forall d | IsU16Numeral(s, d) ensures d == digits {
      if s == "+" + d { assert s[1..] == d; } else { assert s[0] == d[0]; }
    }
    if ParseU16(s).Some? {
      assert IsU16Numeral(s, digits) by {
        if |s| > 0 && s[0] == '+' { assert s == "+" + digits; }
      }
    }
  }

  /** n in decimal, without leading zeros. */
  function Decimal(n: nat): (r: string)
    ensures r != [] && IsDigits(r)
  {
    if n < 10 then [('0' as int + n) as char]
    else Decimal(n / 10) + [('0' as int + n % 10) as char]
  }

  lemma {:induction false} DecimalRoundTrip(n: nat)
    ensures DecimalValue(Decimal(n)) == n
  {
    if n >= 10 {
      var r := Decimal(n);
      assert r[..|r| - 1] == Decimal(n / 10);
      DecimalRoundTrip(n / 10);
    }
  }

  /** Every u16 written in decimal, with or without a '+', parses back to itself. */
  lemma {:induction false} ParseU16Decimal(n: u16)
    ensures ParseU16(Decimal(n as nat)) == Some(n)
    ensures ParseU16("+" + Decimal(n as nat)) == Some(n)
  {
    DecimalRoundTrip(n as nat);
    ParseU16Spec(Decimal(n as nat));
    ParseU16Spec("+" + Decimal(n as nat));
    assert IsU16Numeral(Decimal(n as nat), Decimal(n as nat));
    assert IsU16Numeral("+" + Decimal(n as nat), Decimal(n as nat));
  }
}
