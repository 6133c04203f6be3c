/** Numbers as text: decimal and fixed-width hexadecimal, each with its
    inverse. */
module Text {
  type byte = x: int | 0 <= x < 256

  function DigitChar(d: nat): (c: char)
    requires d < 16
    ensures c != '\0' && c != '-'
    ensures d < 10 ==> IsDigit(c) && DigitValue(c) == d
  {
    if d < 10 then (('0' as int) + d) as char else (('a' as int) + (d - 10)) as char
  }

  predicate IsDigit(c: char) { '0' <= c <= '9' }

  function DigitValue(c: char): (d: nat)
    requires IsDigit(c)
    ensures d < 10
  {
    (c as int) - ('0' as int)
  }

  predicate AllDigits(s: string) { forall i :: 0 <= i < |s| ==> IsDigit(s[i]) }

  function Decimal(n: nat): (s: string)
    ensures s != [] && AllDigits(s)
  {
    if n < 10 then [DigitChar(n)] else Decimal(n / 10) + [DigitChar(n % 10)]
  }

  /** The number a run of digits writes. */
  function ParseDecimal(s: string): nat
    requires AllDigits(s)
  {
    if s == [] then 0 else 10 * ParseDecimal(s[..|s| - 1]) + DigitValue(s[|s| - 1])
  }

  lemma {:induction false} ParseOfDecimal(n: nat)
    ensures ParseDecimal(Decimal(n)) == n
  {
    if n >= 10 {
      ParseOfDecimal(n / 10);
      assert Decimal(n)[..|Decimal(n)| - 1] == Decimal(n / 10);
    }
  }

  lemma DecimalInjective(a: nat, b: nat)
    requires Decimal(a) == Decimal(b)
    ensures a == b
  {
    ParseOfDecimal(a);
    ParseOfDecimal(b);
  }

  /** `n` in hexadecimal on exactly `width` digits (the low ones). */
  function Hex(n: nat, width: nat): (s: string)
    ensures |s| == width && NulFree(s)
  {
    if width == 0 then "" else Hex(n / 16, width - 1) + [DigitChar(n % 16)]
  }

  /** `n` has at most `width` hexadecimal digits. */
  predicate Fits(n: nat, width: nat) {
    if width == 0 then n == 0 else Fits(n / 16, width - 1)
  }

  lemma {:induction false} HexInjective(a: nat, b: nat, width: nat)
    requires Fits(a, width) && Fits(b, width)
    requires Hex(a, width) == Hex(b, width)
    ensures a == b
  {
    if width > 0 {
      var x, y := Hex(a, width), Hex(b, width);
      assert x[..width - 1] == Hex(a / 16, width - 1);
      assert y[..width - 1] == Hex(b / 16, width - 1);
      assert x[width - 1] == y[width - 1];
      HexInjective(a / 16, b / 16, width - 1);
    }
  }

  function Pow16(e: nat): nat { if e == 0 then 1 else 16 * Pow16(e - 1) }

  lemma {:induction false} FitsHex(n: nat, width: nat)
    requires n < Pow16(width)
    ensures Fits(n, width)
  {
    if width > 0 {
      FitsHex(n / 16, width - 1);
    }
  }

  // ---- identifiers ---------------------------------------------------------

  type Uuid = n: nat | n < 0x1_0000_0000_0000_0000_0000_0000_0000_0000

  /** An identifier written 8-4-4-4-12, in hexadecimal digits. */
  function UuidText(u: Uuid): (s: string)
    ensures |s| == 36
    ensures NulFree(s)
  {
    var h := Hex(u, 32);
    h[..8] + "-" + h[8..12] + "-" + h[12..16] + "-" + h[16..20] + "-" + h[20..]
  }

  predicate NulFree(s: string) { forall i :: 0 <= i < |s| ==> s[i] != '\0' }

  lemma Pow16Of32()
    ensures Pow16(32) == 0x1_0000_0000_0000_0000_0000_0000_0000_0000
  {
    assert Pow16(8) == 0x1_0000_0000;
    assert Pow16(16) == 0x1_0000_0000_0000_0000;
    assert Pow16(24) == 0x1_0000_0000_0000_0000_0000_0000;
  }

  lemma UuidTextInjective(a: Uuid, b: Uuid)
    requires UuidText(a) == UuidText(b)
    ensures a == b
  {
    var s := UuidText(a);
    HexOfText(a);
    HexOfText(b);
    Pow16Of32();
    FitsHex(a, 32);
    FitsHex(b, 32);
    HexInjective(a, b, 32);
  }

  lemma HexOfText(u: Uuid)
    ensures var s := UuidText(u);
            Hex(u, 32) == s[..8] + s[9..13] + s[14..18] + s[19..23] + s[24..]
  {
    var h, s := Hex(u, 32), UuidText(u);
    assert s[..8] == h[..8];
    assert s[9..13] == h[8..12];
    assert s[14..18] == h[12..16];
    assert s[19..23] == h[16..20];
    assert s[24..] == h[20..];
  }
}
