/**
 * The value encoders of the converter: colour attributes to hexadecimal
 * text, red-green-blue to blue-green-red order, transparency percentages
 * to the subtitle format's alpha byte (`00` opaque, `FF` fully transparent),
 * percentages to pixels, and `H:MM:SS` timestamps to seconds.
 */
module Encoders {
  import opened Wrappers
  import opened Text
  import opened Hex

  /**
   * An integer-valued XML attribute as the reader hands it over: absent, or
   * present with its text and the number `int()` makes of that text.
   */
  datatype IntAttr = Absent | Present(text: string, number: int)

  /**
   * `color(el, attr)`: an attribute that is missing or empty gives no colour;
   * any other gives its number as six (or more) upper-case hexadecimal digits.
   */
  function Color(attr: IntAttr): (r: Option<string>)
    ensures r.None? <==> attr.Absent? || attr.text == ""
  {
    if attr.Present? && attr.text != "" then Some(FormatHex(attr.number, 6)) else None
  }

  /** A 24-bit colour number comes out as exactly six upper-case hexadecimal digits that read back as the number. */
  lemma ColorSixDigits(attr: IntAttr)
    requires attr.Present? && attr.text != "" && 0 <= attr.number < 0x100_0000
    ensures Color(attr).Some?
    ensures |Color(attr).value| == 6 && IsUpperHex(Color(attr).value)
    ensures HexValue(Color(attr).value) == attr.number
  {
    assert Pow16(6) == 0x100_0000;
    FormatHexNonNegative(attr.number, 6);
  }

  /** Python's slice bound: a negative index counts from the end, and both kinds are clamped to the string. */
  function SliceBound(n: nat, i: int): (b: nat)
    ensures b <= n
  {
    if i < 0 then (if n + i < 0 then 0 else n + i) else (if i > n then n else i)
  }

  /** `s[i:j]` with Python's clamping: empty when the bounds cross. */
  function PySlice(s: string, i: int, j: int): string
  {
    var lo, hi := SliceBound(|s|, i), SliceBound(|s|, j);
    if lo < hi then s[lo..hi] else ""
  }

  /**
   * `rgb_to_bgr`: the last three character pairs of the text in reverse
   * order. Only the last six characters matter; a shorter text keeps all of
   * its characters, pair by pair from the end.
   */
  function RgbToBgr(rgb: string): (bgr: string)
    ensures |bgr| == if |rgb| < 6 then |rgb| else 6
    ensures |rgb| >= 6 ==>
      var n := |rgb|;
      bgr == rgb[n - 2..] + rgb[n - 4..n - 2] + rgb[n - 6..n - 4]
  {
    PySlice(rgb, -2, |rgb|) + PySlice(rgb, -4, -2) + PySlice(rgb, -6, -4)
  }

  /** On six characters the pair swap is its own inverse. */
  lemma RgbToBgrInvolution(rgb: string)
    requires |rgb| == 6
    ensures RgbToBgr(RgbToBgr(rgb)) == rgb
  {
    var bgr := RgbToBgr(rgb);
    assert bgr[4..6] == rgb[0..2] && bgr[2..4] == rgb[2..4] && bgr[0..2] == rgb[4..6];
    assert rgb == rgb[0..2] + rgb[2..4] + rgb[4..6];
  }

  /** Characters before the last six are ignored. */
  lemma RgbToBgrLastSix(rgb: string)
    requires |rgb| >= 6
    ensures RgbToBgr(rgb) == RgbToBgr(rgb[|rgb| - 6..])
  {
    var n, t := |rgb|, rgb[|rgb| - 6..];
    assert t[4..] == rgb[n - 2..] && t[2..4] == rgb[n - 4..n - 2] && t[0..2] == rgb[n - 6..n - 4];
  }

  /** The blue-green-red number of a 24-bit red-green-blue number: its low and high bytes swapped. */
  function SwapRedBlue(v: nat): nat
  {
    (v % 256) * 0x1_0000 + (v / 256 % 256) * 256 + v / 0x1_0000
  }

  /**
   * Swapping character pairs of a colour's six digits is the same as
   * swapping the red and blue bytes of its number: the text permutation
   * the converter does is the colour conversion the subtitle format wants.
   */
  lemma RgbToBgrSwapsBytes(attr: IntAttr)
    requires attr.Present? && attr.text != "" && 0 <= attr.number < 0x100_0000
    ensures HexValue(RgbToBgr(Color(attr).value)) == SwapRedBlue(attr.number)
  {
    ColorSixDigits(attr);
    var s, v := Color(attr).value, attr.number;
    var r, g, b := s[0..2], s[2..4], s[4..6];
    assert s == r + g + b;
    assert RgbToBgr(s) == b + g + r;
    ThreePairs(r, g, b);
    ThreePairs(b, g, r);
    ByteSplit(v, HexValue(r), HexValue(g), HexValue(b));
  }

  /** Three two-digit pairs read as one number: one byte per pair, most significant first. */
  lemma ThreePairs(a: string, b: string, c: string)
    requires |a| == 2 && |b| == 2 && |c| == 2
    requires IsUpperHex(a) && IsUpperHex(b) && IsUpperHex(c)
    ensures HexValue(a) < 256 && HexValue(b) < 256 && HexValue(c) < 256
    ensures HexValue(a + b + c) == HexValue(a) * 0x1_0000 + HexValue(b) * 256 + HexValue(c)
  {
    HexValueBound(a);
    HexValueBound(b);
    HexValueBound(c);
    assert Pow16(2) == 256 && Pow16(4) == 0x1_0000;
    HexValueAppend(a, b);
    HexValueAppend(a + b, c);
  }

  /** A number built from three bytes gives the bytes back by division and remainder. */
  lemma ByteSplit(v: nat, hi: nat, mid: nat, lo: nat)
    requires hi < 256 && mid < 256 && lo < 256
    requires v == hi * 0x1_0000 + mid * 256 + lo
    ensures v % 256 == lo && v / 256 % 256 == mid && v / 0x1_0000 == hi
  {
    assert v == (hi * 256 + mid) * 256 + lo;
    assert v / 256 == hi * 256 + mid;
    assert v / 0x1_0000 == v / 256 / 256;
  }

  /** `int(x)` on a float: truncation toward zero. */
  function Trunc(x: real): (t: int)
    ensures x >= 0.0 ==> t as real <= x < t as real + 1.0
    ensures x < 0.0 ==> t as real - 1.0 < x <= t as real
  {
    if x >= 0.0 then x.Floor else -((-x).Floor)
  }

  /**
   * `alpha_to_hex`: `255 * alpha / 100` truncated toward zero, as upper-case
   * hexadecimal padded to two characters.
   */
  function AlphaToHex(alpha: real): string
  {
    FormatHex(Trunc(255.0 * alpha / 100.0), 2)
  }

  /**
   * For a percentage in [0, 100] the code is two upper-case hexadecimal
   * digits whose value is `255 * alpha / 100` rounded down, never up.
   */
  lemma AlphaToHexInRange(alpha: real)
    requires 0.0 <= alpha <= 100.0
    ensures |AlphaToHex(alpha)| == 2 && IsUpperHex(AlphaToHex(alpha))
    ensures HexValue(AlphaToHex(alpha)) as real <= 255.0 * alpha / 100.0 < HexValue(AlphaToHex(alpha)) as real + 1.0
  {
    var t := Trunc(255.0 * alpha / 100.0);
    assert 0 <= t <= 255;
    assert Pow16(2) == 256;
    FormatHexNonNegative(t, 2);
  }

  /** The ends of the scale and the converter's default background transparency of 20. */
  lemma AlphaToHexExamples()
    ensures AlphaToHex(0.0) == "00"
    ensures AlphaToHex(100.0) == "FF"
    ensures AlphaToHex(20.0) == "33"
    ensures AlphaToHex(1.0) == "02"
    ensures AlphaToHex(-1.0) == "-2"
  {
    assert Trunc(0.0) == 0;
    assert Trunc(255.0) == 255;
    assert Trunc(51.0) == 51;
    assert Trunc(2.55) == 2;
    assert Trunc(-2.55) == -2;
    assert Digits(255) == Digits(15) + [Digit(15)];
    assert Digits(51) == Digits(3) + [Digit(3)];
  }

  /** `percent_to_pixels`: `size * percent / 100`, with no rounding. */
  function PercentToPixels(size: real, percent: real): (px: real)
    ensures 0.0 <= size && 0.0 <= percent <= 100.0 ==> 0.0 <= px <= size
  {
    size * percent / 100.0
  }

  /** Pixels convert back to the percentage they came from. */
  lemma PercentToPixelsInverse(size: real, percent: real)
    requires size != 0.0
    ensures PercentToPixels(size, percent) * 100.0 / size == percent
  {
    assert size * percent / 100.0 * 100.0 == size * percent;
    assert size * percent / size == percent;
  }

  /** Scaling keeps the order of percentages on a canvas of non-negative size. */
  lemma PercentToPixelsMonotone(size: real, p: real, q: real)
    requires 0.0 <= size && p <= q
    ensures PercentToPixels(size, p) <= PercentToPixels(size, q)
  {
    assert size * (q - p) >= 0.0;
    assert size * q - size * p == size * (q - p);
  }

  function Reverse<T>(s: seq<T>): seq<T>
  {
    seq(|s|, i requires 0 <= i < |s| => s[|s| - 1 - i])
  }

  /** `sum(toFloat(n) * m for n, m in zip(fields, weights))`: pairs stop at the shorter list. */
  function WeightedSum(fields: seq<string>, weights: seq<real>, toFloat: string -> real): real
  {
    if fields == [] || weights == [] then 0.0
    else toFloat(fields[0]) * weights[0] + WeightedSum(fields[1..], weights[1..], toFloat)
  }

  /**
   * `timestamp_to_seconds`: the `:`-separated fields, last first, weighted by
   * 1, 60 and 3600. `toFloat` stands for Python's `float()` on one field.
   */
  function TimestampToSeconds(t: string, toFloat: string -> real): real
  {
    WeightedSum(Reverse(Split(t, ':')), [1.0, 60.0, 3600.0], toFloat)
  }

  /** The timestamp weights applied to fields listed first to last. */
  function FieldSeconds(fields: seq<string>, toFloat: string -> real): real
    requires |fields| >= 1
  {
    var n := |fields|;
    toFloat(fields[n - 1])
    + (if n >= 2 then 60.0 * toFloat(fields[n - 2]) else 0.0)
    + (if n >= 3 then 3600.0 * toFloat(fields[n - 3]) else 0.0)
  }

  /** One step of the weighted sum: the first pair, then the rest. */
  lemma WeightedSumStep(fields: seq<string>, weights: seq<real>, toFloat: string -> real)
    requires fields != [] && weights != []
    ensures WeightedSum(fields, weights, toFloat)
            == toFloat(fields[0]) * weights[0] + WeightedSum(fields[1..], weights[1..], toFloat)
  {
  }

  /** The timestamp weights applied to fields listed last first. */
  lemma WeightedSumOfThree(r: seq<string>, toFloat: string -> real)
    requires |r| >= 1
    ensures WeightedSum(r, [1.0, 60.0, 3600.0], toFloat)
            == toFloat(r[0])
               + (if |r| >= 2 then 60.0 * toFloat(r[1]) else 0.0)
               + (if |r| >= 3 then 3600.0 * toFloat(r[2]) else 0.0)
  {
    var w: seq<real> := [1.0, 60.0, 3600.0];
    WeightedSumStep(r, w, toFloat);
    assert w[1..] == [60.0, 3600.0];
    if |r| >= 2 {
      WeightedSumStep(r[1..], w[1..], toFloat);
      assert w[2..] == [3600.0] && r[1..][1..] == r[2..];
      if |r| >= 3 {
        WeightedSumStep(r[2..], w[2..], toFloat);
        assert w[2..][1..] == [];
      }
    }
  }

  lemma ReversedWeightedSum(fields: seq<string>, toFloat: string -> real)
    requires |fields| >= 1
    ensures WeightedSum(Reverse(fields), [1.0, 60.0, 3600.0], toFloat) == FieldSeconds(fields, toFloat)
  {
    var n, r := |fields|, Reverse(fields);
    WeightedSumOfThree(r, toFloat);
    assert r[0] == fields[n - 1];
    if n >= 2 {
      assert r[1] == fields[n - 2];
    }
    if n >= 3 {
      assert r[2] == fields[n - 3];
    }
  }

  /**
   * The seconds of a timestamp made of colon-free fields: the last field
   * counts once, the one before it 60 times, the one before that 3600 times,
   * and any earlier field is ignored.
   */
  lemma {:induction false} TimestampOfFields(fields: seq<string>, toFloat: string -> real)
    requires |fields| >= 1
    requires forall i :: 0 <= i < |fields| ==> ':' !in fields[i]
    ensures TimestampToSeconds(Join(fields, ':'), toFloat) == FieldSeconds(fields, toFloat)
  {
    SplitJoin(fields, ':');
    ReversedWeightedSum(fields, toFloat);
  }

  /** `"1:02:03"`-style timestamps: hours, minutes and seconds. */
  lemma TimestampHoursMinutesSeconds(h: string, m: string, s: string, toFloat: string -> real)
    requires ':' !in h && ':' !in m && ':' !in s
    ensures TimestampToSeconds(h + ":" + m + ":" + s, toFloat) == 3600.0 * toFloat(h) + 60.0 * toFloat(m) + toFloat(s)
  {
    var fields := [h, m, s];
    assert Join(fields, ':') == h + ":" + m + ":" + s by {
      assert Join(fields[1..], ':') == m + [':'] + s;
    }
    TimestampOfFields(fields, toFloat);
  }
}
