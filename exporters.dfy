/** The two `.mem` exporters: the weight exporter's `quantize` and
    `save_mem`, and the test-image exporter's `quantize_to_fixed_point` and
    `save_mem_file`. Both round to the nearest multiple of 2^-frac_bits
    (ties to even, as `np.round` does), clip, cast to int16 and write one
    four-digit two's-complement line per element in row-major order. */
module Exporters {
  import opened Hex
  import opened FixedPoint
  import opened DiseaseResults
  import opened FinalLayerAnalysis
  import opened Text

  function Pow2(n: nat): (p: nat)
    ensures p >= 1
  {
    if n == 0 then 1 else 2 * Pow2(n - 1)
  }

  lemma Pow2Values()
    ensures Pow2(8) == 256 && Pow2(15) == SignBit
  {
    assert Pow2(2) == 4;
    assert Pow2(4) == 16;
    assert Pow2(6) == 64;
    assert Pow2(8) == 256;
    assert Pow2(10) == 1024;
    assert Pow2(12) == 4096;
    assert Pow2(14) == 16384;
  }

  /** `np.round`: the nearest integer, ties to the even neighbour. */
  function RoundHalfEven(r: real): (n: int)
    ensures n as real - 0.5 <= r <= n as real + 0.5
  {
    var f := r.Floor;
    var d := r - f as real;
    if d < 0.5 then f
    else if d > 0.5 then f + 1
    else if f % 2 == 0 then f
    else f + 1
  }

  /** Rounding never reverses an order. */
  lemma RoundMonotone(x: real, y: real)
    requires x <= y
    ensures RoundHalfEven(x) <= RoundHalfEven(y)
  {
    var fx, fy := x.Floor, y.Floor;
    assert fx <= fy;
    if fx == fy {
      assert x - fx as real <= y - fy as real;
    } else {
      assert RoundHalfEven(x) <= fx + 1 <= fy <= RoundHalfEven(y);
    }
  }

  /** An integer rounds to itself. */
  lemma RoundInteger(n: int)
    ensures RoundHalfEven(n as real) == n
  {
    assert (n as real).Floor == n;
  }

  /** `np.clip(v, lo, hi)`. */
  function Clip(v: int, lo: int, hi: int): (c: int)
    requires lo <= hi
    ensures lo <= c <= hi
    ensures lo <= v <= hi ==> c == v
    ensures v < lo ==> c == lo
    ensures v > hi ==> c == hi
  {
    if v < lo then lo else if v > hi then hi else v
  }

  /** `2 ** frac_bits`, the scale of a fixed-point value. */
  function Scale(fracBits: nat): (s: real)
    ensures s >= 1.0
  {
    Pow2(fracBits) as real
  }

  /** `np.round(x * 2 ** frac_bits)`. */
  function Scaled(x: real, fracBits: nat): int {
    RoundHalfEven(x * Scale(fracBits))
  }

  /** Scaling and rounding never reverse an order. */
  lemma ScaledMonotone(x: real, y: real, fracBits: nat)
    requires x <= y
    ensures Scaled(x, fracBits) <= Scaled(y, fracBits)
  {
    ScaledIs(x, fracBits);
    ScaledIs(y, fracBits);
    RoundScaledMonotone(x, y, Scale(fracBits));
  }

  lemma RoundScaledMonotone(x: real, y: real, s: real)
    requires x <= y && s >= 0.0
    ensures RoundHalfEven(x * s) <= RoundHalfEven(y * s)
  {
    ScaleMonotone(x, y, s);
    RoundMonotone(x * s, y * s);
  }

  lemma ScaledIs(x: real, fracBits: nat)
    ensures Scaled(x, fracBits) == RoundHalfEven(x * Scale(fracBits))
  {
  }

  lemma ScaleMonotone(x: real, y: real, s: real)
    requires x <= y && s >= 0.0
    ensures x * s <= y * s
  {
  }

  // The weight exporter.

  /** `quantize`: round `x * 2 ** frac_bits`, clip to the signed range of
      `bit_width` bits, cast to int16. */
  function Quantize(x: real, bitWidth: nat, fracBits: nat): (q: int)
    requires bitWidth >= 1
    ensures -SignBit <= q < SignBit
  {
    var lo, hi: int := -(Pow2(bitWidth - 1) as int), Pow2(bitWidth - 1) - 1;
    Int16Of(Clip(Scaled(x, fracBits), lo, hi))
  }

  /** With the exporter's 16 bits, a value whose rounding is representable
      is kept exactly, and anything beyond is clipped to the nearest end of
      the int16 range. */
  lemma QuantizeCases(x: real, fracBits: nat)
    ensures var r := Scaled(x, fracBits);
      Quantize(x, 16, fracBits) == (if r < -SignBit then -SignBit else if r >= SignBit then SignBit - 1 else r)
  {
    Pow2Values();
  }

  /** A larger input never quantizes lower. */
  lemma QuantizeMonotone(x: real, y: real, fracBits: nat)
    requires x <= y
    ensures Quantize(x, 16, fracBits) <= Quantize(y, 16, fracBits)
  {
    ScaledMonotone(x, y, fracBits);
    QuantizeCases(x, fracBits);
    QuantizeCases(y, fracBits);
  }

  /** `arr.flatten()`: the rows concatenated, row-major. */
  function Flatten(rows: seq<seq<int>>): (flat: seq<int>)
  {
    if |rows| == 0 then [] else Flatten(rows[..|rows| - 1]) + rows[|rows| - 1]
  }

  /** For a `height` by `width` array, the flattened array holds
      `height * width` elements, and element `(r, c)` is element
      `r * width + c` of it (an index that `LayoutIndexBelow` shows to be
      in range). */
  lemma {:induction false} FlattenLayout(rows: seq<seq<int>>, width: nat)
    requires forall r :: 0 <= r < |rows| ==> |rows[r]| == width
    ensures |Flatten(rows)| == |rows| * width
    ensures forall r, c :: 0 <= r < |rows| && 0 <= c < width && r * width + c < |Flatten(rows)| ==>
      Flatten(rows)[r * width + c] == rows[r][c]
  {
    FlattenLength(rows, width);
    if |rows| > 0 {
      var h := |rows| - 1;
      FlattenLayout(rows[..h], width);
      assert Flatten(rows) == Flatten(rows[..h]) + rows[h];
      forall r, c | 0 <= r < |rows| && 0 <= c < width && r * width + c < |Flatten(rows)|
        ensures Flatten(rows)[r * width + c] == rows[r][c]
      {
        if r < h {
          LayoutIndexBelow(r, c, h, width);
          assert rows[..h][r] == rows[r];
        } else {
          assert r * width + c == h * width + c;
        }
      }
    }
  }

  lemma {:induction false} FlattenLength(rows: seq<seq<int>>, width: nat)
    requires forall r :: 0 <= r < |rows| ==> |rows[r]| == width
    ensures |Flatten(rows)| == |rows| * width
  {
    if |rows| > 0 {
      var h := |rows| - 1;
      FlattenLength(rows[..h], width);
      assert |rows| * width == h * width + width;
    }
  }

  /** Element `(r, c)` of a row above `h` lands before element `h * width`. */
  lemma LayoutIndexBelow(r: nat, c: nat, h: nat, width: nat)
    requires r < h && c < width
    ensures r * width + c < h * width
  {
    assert (r + 1) * width <= h * width;
  }

  /** The values of an int16 array. */
  predicate IsInt16(values: seq<int>) {
    forall k :: 0 <= k < |values| ==> -SignBit <= values[k] < SignBit
  }

  /** `save_mem`: one four-digit line per flattened element, written in
      order; reading the file back gives the elements. */
  method SaveMem(values: seq<int>) returns (lines: seq<string>)
    requires IsInt16(values)
    ensures lines == MemLines(values)
    ensures HexValues(lines) == Words(values)
    ensures ReadMemFile(lines) == Some(values)
  {
    lines := [];
    for k := 0 to |values|
      invariant lines == MemLines(values[..k])
    {
      lines := lines + [MemLine(values[k])];
    }
    assert values[..|values|] == values;
    MemLinesValues(values);
    ReadMemRoundTrip(values);
  }

  /** The written lines of the four landmarks of the int16 range. */
  lemma MemLineLandmarks()
    ensures MemLine(0) == "0000" && MemLine(32767) == "7fff"
    ensures MemLine(-1) == "ffff" && MemLine(-32768) == "8000"
  {
    assert Wrap16(0) == 0;
    assert Wrap16(32767) == 0x7fff;
    assert Wrap16(-1) == 0xffff;
    assert Wrap16(-32768) == 0x8000;
    ZeroLine();
    TopLine();
    AllOnesLine();
    SignBitLine();
  }

  lemma ZeroLine()
    ensures Hex4(0) == "0000"
  {
    AppendDigit(0, 0, 0);
    AppendDigit(0, 0, 1);
    AppendDigit(0, 0, 2);
    AppendDigit(0, 0, 3);
  }

  lemma TopLine()
    ensures Hex4(0x7fff) == "7fff"
  {
    AppendDigit(0, 7, 0);
    AppendDigit(0x7, 15, 1);
    AppendDigit(0x7f, 15, 2);
    AppendDigit(0x7ff, 15, 3);
  }

  lemma AllOnesLine()
    ensures Hex4(0xffff) == "ffff"
  {
    AppendDigit(0, 15, 0);
    AppendDigit(0xf, 15, 1);
    AppendDigit(0xff, 15, 2);
    AppendDigit(0xfff, 15, 3);
  }

  lemma SignBitLine()
    ensures Hex4(0x8000) == "8000"
  {
    AppendDigit(0, 8, 0);
    AppendDigit(0x8, 0, 1);
    AppendDigit(0x80, 0, 2);
    AppendDigit(0x800, 0, 3);
  }

  /** Writing `q * 16 + d` in one more digit writes `q` and then the digit `d`. */
  lemma AppendDigit(q: nat, d: nat, width: nat)
    requires d < 16 && q < Pow16(width)
    ensures q * 16 + d < Pow16(width + 1)
    ensures HexPad(q * 16 + d, width + 1) == HexPad(q, width) + [HexDigitChar(d)]
  {
    LastDigit(q, d);
    var p := Pow16(width);
    assert Pow16(width + 1) == 16 * p;
    assert (q + 1) * 16 <= p * 16;
  }

  /** Appending a digit `d` to `q` multiplies by 16 and adds `d`. */
  lemma LastDigit(q: nat, d: nat)
    requires d < 16
    ensures (q * 16 + d) / 16 == q && (q * 16 + d) % 16 == d
  {
  }

  // The test-image exporter.

  /** The exporter's module constants, used as clip bounds whatever
      `bit_width` is passed. */
  const MaxVal: int := 0x7FFF
  const MinVal: int := -0x8000

  /** `quantize_to_fixed_point`: `bit_width` is accepted and ignored. */
  function QuantizeToFixedPoint(x: real, bitWidth: nat, fracBits: nat): (q: int)
    ensures -SignBit <= q < SignBit
  {
    Int16Of(Clip(Scaled(x, fracBits), MinVal, MaxVal))
  }

  /** Whatever `bit_width` says, the image quantizer is the weight
      quantizer at 16 bits. */
  lemma ImageQuantizerIs16Bit(x: real, bitWidth: nat, fracBits: nat)
    ensures QuantizeToFixedPoint(x, bitWidth, fracBits) == Quantize(x, 16, fracBits)
  {
    Pow2Values();
  }

  /** A pixel `p` of an 8-bit image, normalised by 255 and quantized with 8
      fractional bits, lands in [0, 256]: the clip never acts. */
  lemma PixelQuantizeRange(p: nat)
    requires p <= 255
    ensures 0 <= QuantizeToFixedPoint(p as real / 255.0, 16, 8) <= 256
    ensures QuantizeToFixedPoint(p as real / 255.0, 16, 8) == RoundHalfEven(p as real / 255.0 * 256.0)
  {
    PixelScaledIs(p);
    PixelRounded(p);
    var r := RoundHalfEven(p as real / 255.0 * 256.0);
    assert Clip(r, MinVal, MaxVal) == r;
  }

  /** Scaling a normalised pixel by `2 ** 8` multiplies it by 256. */
  lemma PixelScaledIs(p: nat)
    requires p <= 255
    ensures Scaled(p as real / 255.0, 8) == RoundHalfEven(p as real / 255.0 * 256.0)
  {
    ScaleEight();
    ScaledIs(p as real / 255.0, 8);
  }

  /** The rounded, scaled pixel lies in [0, 256]. */
  lemma PixelRounded(p: nat)
    requires p <= 255
    ensures 0 <= RoundHalfEven(p as real / 255.0 * 256.0) <= 256
  {
    var s := NormalisedPixel(p);
    RoundMonotone(0.0, s);
    RoundMonotone(s, 256.0);
    RoundInteger(0);
    RoundInteger(256);
  }

  lemma ScaleEight()
    ensures Scale(8) == 256.0
  {
    Pow2Values();
  }

  /** A pixel divided by 255 and scaled by 256 lies in [0, 256]. */
  lemma NormalisedPixel(p: nat) returns (s: real)
    requires p <= 255
    ensures s == p as real / 255.0 * 256.0 && 0.0 <= s <= 256.0
  {
    var x := p as real / 255.0;
    assert 0.0 <= x <= 1.0;
    s := x * 256.0;
    ScaleMonotone(0.0, x, 256.0);
    ScaleMonotone(x, 1.0, 256.0);
  }
}
