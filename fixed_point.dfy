/** The Q8.8 fixed-point format shared by the hardware and the scripts:
    16-bit two's-complement words with 8 fractional bits, their hex text, and
    the saturating logistic that turns a word into a probability. */
module FixedPoint {
  import opened Hex

  /** `2 ** 15` and `2 ** 16`: the sign bit and the word size. */
  const SignBit: int := 0x8000
  const WordSize: int := 0x1_0000

  /** The saturation threshold 5.0 in Q8.8 units. */
  const SaturationRaw: int := 5 * 256

  /** Reinterpreting a 16-bit word as signed: values from `2 ** 15` on lose
      `2 ** 16`; anything below is kept as it is. */
  function SignExtend16(raw: int): (v: int)
    ensures raw < SignBit ==> v == raw
    ensures 0 <= raw < WordSize ==> -SignBit <= v < SignBit && (raw - v) % WordSize == 0
  {
    if raw >= SignBit then raw - WordSize else raw
  }

  /** `np.uint16(v)`: the 16-bit word with the same low 16 bits. */
  function Wrap16(v: int): (w: nat)
    ensures w < WordSize && (w - v) % WordSize == 0
    ensures 0 <= v < WordSize ==> w == v
  {
    v % WordSize
  }

  /** Writing a signed value as a word and reading it back as signed gives the value. */
  lemma SignExtendWrap(v: int)
    requires -SignBit <= v < SignBit
    ensures SignExtend16(Wrap16(v)) == v
  {
    if v < 0 { assert Wrap16(v) == v + WordSize; }
  }

  /** Reading a word as signed and wrapping it again gives the word. */
  lemma WrapSignExtend(raw: int)
    requires 0 <= raw < WordSize
    ensures Wrap16(SignExtend16(raw)) == raw
  {
    if raw >= SignBit { assert (raw - WordSize) % WordSize == raw; }
  }

  /** The line a `.mem` exporter writes for an int16 value,
      `f'{np.uint16(v):04x}'`. */
  function MemLine(v: int): string
    requires -SignBit <= v < SignBit
  {
    Hex4(Wrap16(v))
  }

  /** The lines of a `.mem` file holding int16 values: one exported line
      per value, in order. */
  function MemLines(values: seq<int>): (lines: seq<string>)
    requires forall k :: 0 <= k < |values| ==> -SignBit <= values[k] < SignBit
    ensures |lines| == |values|
    ensures forall k :: 0 <= k < |values| ==> lines[k] == MemLine(values[k])
  {
    seq(|values|, k requires 0 <= k < |values| => MemLine(values[k]))
  }

  /** Every exported line has four lower-case hex digits, and parsing it with
      `int(line, 16)` and sign-extending gives the exported value back. */
  lemma MemLineRoundTrip(v: int)
    requires -SignBit <= v < SignBit
    ensures |MemLine(v)| == 4 && AllHexDigits(MemLine(v))
    ensures ParseHexInt(MemLine(v)).Some?
    ensures SignExtend16(ParseHexInt(MemLine(v)).value) == v
  {
    ParseHex4(Wrap16(v));
    SignExtendWrap(v);
  }

  /** What the scripts assume of `1 / (1 + exp(-t))`: strictly between 0 and 1,
      strictly increasing, one half at zero. */
  ghost predicate IsLogistic(sig: real -> real) {
    (forall t :: 0.0 < sig(t) < 1.0)
    && (forall s, t :: s < t ==> sig(s) < sig(t))
    && sig(0.0) == 0.5
  }

  /** The probability of a Q8.8 value read without sign extension: exactly
      1.0 above 5.0, exactly 0.0 below -5.0, the logistic in between. */
  function SignedProbability(sig: real -> real, v: int): real {
    var t := v as real / 256.0;
    if t > 5.0 then 1.0 else if t < -5.0 then 0.0 else sig(t)
  }

  /** `fixed_to_probability`: sign-extend the word, then saturate. */
  function FixedToProbability(sig: real -> real, raw: int): real {
    SignedProbability(sig, SignExtend16(raw))
  }

  /** The saturated outputs are exactly the values beyond plus or minus 1280,
      and 1280 itself (raw 0x0500, exactly 5.0) takes the logistic branch. */
  lemma SaturationIff(sig: real -> real, v: int)
    requires IsLogistic(sig)
    ensures SignedProbability(sig, v) == 1.0 <==> v > SaturationRaw
    ensures SignedProbability(sig, v) == 0.0 <==> v < -SaturationRaw
  {
    var t := v as real / 256.0;
    assert t > 5.0 <==> v > SaturationRaw;
    assert t < -5.0 <==> v < -SaturationRaw;
    if -5.0 <= t <= 5.0 { assert 0.0 < sig(t) < 1.0; }
  }

  /** Every probability lies in [0, 1]. */
  lemma ProbabilityRange(sig: real -> real, v: int)
    requires IsLogistic(sig)
    ensures 0.0 <= SignedProbability(sig, v) <= 1.0
  {
    var t := v as real / 256.0;
    assert 0.0 < sig(t) < 1.0;
  }

  /** The probability never decreases as the signed value grows. */
  lemma ProbabilityMonotone(sig: real -> real, v: int, w: int)
    requires IsLogistic(sig)
    requires v <= w
    ensures SignedProbability(sig, v) <= SignedProbability(sig, w)
  {
    var s, t := v as real / 256.0, w as real / 256.0;
    assert s <= t;
    assert 0.0 < sig(s) < 1.0 && 0.0 < sig(t) < 1.0;
    if s < t { assert sig(s) < sig(t); }
  }

  /** Raw zero is one half; raw 0x0500 is not saturated. */
  lemma ProbabilityLandmarks(sig: real -> real)
    requires IsLogistic(sig)
    ensures FixedToProbability(sig, 0) == 0.5
    ensures 0.0 < FixedToProbability(sig, 0x0500) < 1.0
    ensures FixedToProbability(sig, 0x0501) == 1.0
  {
    assert 0x0500 as real / 256.0 == 5.0;
    assert 0.0 < sig(5.0) < 1.0;
  }

  /** A word's probability in terms of the word: 1.0 exactly for
      0x0501..0x7FFF, 0.0 exactly for 0x8000..0xFAFF. */
  lemma WordSaturation(sig: real -> real, raw: int)
    requires IsLogistic(sig)
    requires 0 <= raw < WordSize
    ensures FixedToProbability(sig, raw) == 1.0 <==> 0x0500 < raw < SignBit
    ensures FixedToProbability(sig, raw) == 0.0 <==> SignBit <= raw < WordSize - SaturationRaw
  {
    SaturationIff(sig, SignExtend16(raw));
  }
}
