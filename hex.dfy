/**
 * Python's `f"{v:0Nx}".upper()`: an integer written in upper-case
 * hexadecimal with sign-aware zero padding to at least N characters,
 * and the value a string of hexadecimal digits stands for.
 */
module Hex {

  /** The upper-case hexadecimal digit for 0..15. */
  function Digit(d: nat): (c: char)
    requires d < 16
    ensures IsHexDigit(c) && DigitValue(c) == d
  {
    if d < 10 then ('0' as int + d) as char else ('A' as int + d - 10) as char
  }

  predicate IsHexDigit(c: char)
  {
    '0' <= c <= '9' || 'A' <= c <= 'F'
  }

  /** Every character is an upper-case hexadecimal digit. */
  predicate IsUpperHex(s: string)
  {
    forall i :: 0 <= i < |s| ==> IsHexDigit(s[i])
  }

  /** The value of one hexadecimal digit; anything else counts as 0. */
  function DigitValue(c: char): nat
  {
    if '0' <= c <= '9' then c as int - '0' as int
    else if 'A' <= c <= 'F' then c as int - 'A' as int + 10
    else 0
  }

  /** The number a string of hexadecimal digits stands for, most significant digit first. */
  function HexValue(s: string): nat
  {
    if s == [] then 0 else HexValue(s[..|s| - 1]) * 16 + DigitValue(s[|s| - 1])
  }

  function Pow16(k: nat): (p: nat)
    ensures p >= 1
  {
    if k == 0 then 1 else 16 * Pow16(k - 1)
  }

  /** The shortest hexadecimal spelling of `n` (`"0"` for zero), as `format(n, "x").upper()` writes it. */
  function Digits(n: nat): (s: string)
    ensures 1 <= |s| && IsUpperHex(s)
  {
    if n < 16 then [Digit(n)] else Digits(n / 16) + [Digit(n % 16)]
  }

  /** `s` left-padded with `'0'` to at least `width` characters. */
  function ZeroPad(s: string, width: int): string
  {
    if |s| >= width then s else Zeros(width - |s|) + s
  }

  function Zeros(k: nat): string
  {
    seq(k, _ => '0')
  }

  /** `f"{v:0{width}x}".upper()`: a minus sign counts towards the width and the zeros go after it. */
  function FormatHex(v: int, width: nat): string
  {
    if v >= 0 then ZeroPad(Digits(v), width) else "-" + ZeroPad(Digits(-v), width - 1)
  }

  /** Reading the digits back gives the number. */
  lemma {:induction false} DigitsValue(n: nat)
    ensures HexValue(Digits(n)) == n
  {
    if n >= 16 {
      DigitsValue(n / 16);
      var s := Digits(n / 16) + [Digit(n % 16)];
      assert s[..|s| - 1] == Digits(n / 16);
    }
  }

  /** A number below 16^k needs at most k digits. */
  lemma {:induction false} DigitsLength(n: nat, k: nat)
    requires 1 <= k && n < Pow16(k)
    ensures |Digits(n)| <= k
  {
    if n >= 16 {
      assert k >= 2;
      DigitsLength(n / 16, k - 1);
    }
  }

  /** The value of a concatenation: the left part is shifted by the right part's length. */
  lemma {:induction false} HexValueAppend(a: string, b: string)
    ensures HexValue(a + b) == HexValue(a) * Pow16(|b|) + HexValue(b)
    decreases |b|
  {
    if b == [] {
      assert a + b == a;
    } else {
      var ab := a + b;
      var b', d := b[..|b| - 1], DigitValue(b[|b| - 1]);
      assert ab[..|ab| - 1] == a + b';
      assert ab[|ab| - 1] == b[|b| - 1];
      HexValueAppend(a, b');
      Shift(HexValue(a), Pow16(|b'|), HexValue(b'), d);
    }
  }

  lemma Shift(va: nat, p: nat, vb: nat, d: nat)
    ensures (va * p + vb) * 16 + d == va * (p * 16) + (vb * 16 + d)
  {
  }

  /** Leading zeros do not change the value. */
  lemma {:induction false} ZerosValue(k: nat, s: string)
    ensures HexValue(Zeros(k) + s) == HexValue(s)
  {
    HexValueAppend(Zeros(k), s);
    ZerosAreZero(k);
  }

  lemma {:induction false} ZerosAreZero(k: nat)
    ensures HexValue(Zeros(k)) == 0
  {
    if k > 0 {
      assert Zeros(k)[..k - 1] == Zeros(k - 1);
      ZerosAreZero(k - 1);
    }
  }

  /** k hexadecimal digits stand for a number below 16^k. */
  lemma {:induction false} HexValueBound(s: string)
    requires IsUpperHex(s)
    ensures HexValue(s) < Pow16(|s|)
  {
    if s != [] {
      var s' := s[..|s| - 1];
      assert IsUpperHex(s');
      HexValueBound(s');
      assert DigitValue(s[|s| - 1]) < 16;
    }
  }

  /** Zero padding keeps the digits and their value, and reaches the width. */
  lemma ZeroPadDigits(s: string, width: int)
    requires IsUpperHex(s)
    ensures IsUpperHex(ZeroPad(s, width)) && HexValue(ZeroPad(s, width)) == HexValue(s)
    ensures |ZeroPad(s, width)| == if |s| >= width then |s| else width
  {
    if |s| < width {
      ZerosValue(width - |s|, s);
    }
  }

  /**
   * For a non-negative number, the formatted text has exactly `width` digits
   * when the number fits in them, is made of digits only, and reads back as the number.
   */
  lemma FormatHexNonNegative(v: nat, width: nat)
    ensures IsUpperHex(FormatHex(v, width)) && HexValue(FormatHex(v, width)) == v
    ensures 1 <= width && v < Pow16(width) ==> |FormatHex(v, width)| == width
  {
    DigitsValue(v);
    ZeroPadDigits(Digits(v), width);
    if 1 <= width && v < Pow16(width) {
      DigitsLength(v, width);
    }
  }

  /** A negative number is written with a leading minus sign and the digits of its magnitude. */
  lemma FormatHexNegative(v: int, width: nat)
    requires v < 0
    ensures |FormatHex(v, width)| >= 2 && FormatHex(v, width)[0] == '-'
    ensures IsUpperHex(FormatHex(v, width)[1..]) && HexValue(FormatHex(v, width)[1..]) == -v
  {
    DigitsValue(-v);
    ZeroPadDigits(Digits(-v), width - 1);
    assert FormatHex(v, width)[1..] == ZeroPad(Digits(-v), width - 1);
  }
}
