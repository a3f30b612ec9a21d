/** The test-case generator: the noise and shift variations of a synthetic
    8-bit image, the schedule of variation kinds and strengths, and the
    renaming of the generated files into consecutively numbered cases. The
    random draws (the noise array, the shift offsets, the files the glob
    finds) are parameters. */
module TestCaseGen {
  import opened Text
  import opened DiseaseResults
  import opened Exporters

  // The noise variation.

  /** One pixel of the noise variation: the pixel plus its noise in int16
      arithmetic, clipped to [0, 255]. */
  function NoisyPixel(p: int, n: int): (q: int)
    ensures 0 <= q <= 255
    ensures -0x8000 <= p + n < 0x8000 ==> q == Clip(p + n, 0, 255)
  {
    Clip(Int16Of(p + n), 0, 255)
  }

  /** A pixel with no noise is kept, and noise never moves a pixel against
      its sign: non-negative noise never darkens, non-positive noise never
      brightens an 8-bit pixel, as long as the sum stays in int16. */
  lemma NoiseDirection(p: int, n: int)
    requires 0 <= p <= 255 && -0x8000 <= p + n < 0x8000
    ensures n == 0 ==> NoisyPixel(p, n) == p
    ensures n >= 0 ==> NoisyPixel(p, n) >= p
    ensures n <= 0 ==> NoisyPixel(p, n) <= p
  {
  }

  /** The noise branch: a new image whose every pixel is the clipped noisy
      pixel; the base image is read, never written. */
  method AddNoise(base: array2<int>, noise: array2<int>) returns (img: array2<int>)
    requires noise.Length0 == base.Length0 && noise.Length1 == base.Length1
    ensures fresh(img) && img.Length0 == base.Length0 && img.Length1 == base.Length1
    ensures forall y, x :: 0 <= y < img.Length0 && 0 <= x < img.Length1 ==>
      img[y, x] == NoisyPixel(base[y, x], noise[y, x])
  {
    var h, w := base.Length0, base.Length1;
    img := new int[h, w]((y, x) requires 0 <= y < h && 0 <= x < w reads base, noise =>
      NoisyPixel(base[y, x], noise[y, x]));
  }

  // The shift variation.

  /** The slice bounds of the shift along one axis of length `n` for offset
      `s`: where the copied block starts and ends in the source and in the
      destination. */
  function SrcStart(s: int): int { if s < 0 then -s else 0 }
  function DstStart(s: int): int { if s > 0 then s else 0 }
  function SrcEnd(n: int, s: int): int { if s > 0 then n - s else n }
  function DstEnd(n: int, s: int): int { if s < 0 then n + s else n }

  /** The source and destination slices have the same length, `n - |s|`, so
      the slice assignment never fails, and a destination index `t` lies in
      the copied block exactly when `t - s` is an index of the axis, whose
      source index it then reads. */
  lemma SliceBounds(n: int, s: int, t: int)
    requires 0 <= n && -n <= s <= n
    ensures 0 <= SrcStart(s) <= SrcEnd(n, s) <= n && 0 <= DstStart(s) <= DstEnd(n, s) <= n
    ensures SrcEnd(n, s) - SrcStart(s) == DstEnd(n, s) - DstStart(s) == n - (if s < 0 then -s else s)
    ensures 0 <= t < n ==> (DstStart(s) <= t < DstEnd(n, s) <==> 0 <= t - s < n)
    ensures SrcStart(s) + (t - DstStart(s)) == t - s
  {
  }

  /** The pixel the shift leaves at `(y, x)`: the source pixel `(y - sy,
      x - sx)` when it exists, and 0 where the shift uncovers the image. */
  function ShiftedPixel(img: array2<int>, sy: int, sx: int, y: int, x: int): int
    reads img
  {
    if 0 <= y - sy < img.Length0 && 0 <= x - sx < img.Length1 then img[y - sy, x - sx] else 0
  }

  /** The shift branch: a zero image of the same shape into which the block
      of the source that stays inside is copied, offset by `(sy, sx)`. */
  method ShiftImage(img: array2<int>, sy: int, sx: int) returns (shifted: array2<int>)
    requires -img.Length0 <= sy <= img.Length0 && -img.Length1 <= sx <= img.Length1
    ensures fresh(shifted) && shifted.Length0 == img.Length0 && shifted.Length1 == img.Length1
    ensures forall y, x :: 0 <= y < img.Length0 && 0 <= x < img.Length1 ==>
      shifted[y, x] == ShiftedPixel(img, sy, sx, y, x)
  {
    var h, w := img.Length0, img.Length1;
    shifted := new int[h, w]((_, _) => 0);
    var srcY, srcX := SrcStart(sy), SrcStart(sx);
    var dstY, dstX := DstStart(sy), DstStart(sx);
    var endY, endX := DstEnd(h, sy), DstEnd(w, sx);
    SliceBounds(h, sy, 0);
    SliceBounds(w, sx, 0);
    for y := dstY to endY
      invariant forall r, c :: 0 <= r < h && 0 <= c < w ==>
        shifted[r, c] == if dstY <= r < y && dstX <= c < endX then img[r - sy, c - sx] else 0
    {
      SliceBounds(h, sy, y);
      for x := dstX to endX
        invariant forall r, c :: 0 <= r < h && 0 <= c < w ==>
          shifted[r, c] == if (dstY <= r < y && dstX <= c < endX) || (r == y && dstX <= c < x) then img[r - sy, c - sx] else 0
      {
        SliceBounds(w, sx, x);
        shifted[y, x] := img[srcY + (y - dstY), srcX + (x - dstX)];
      }
    }
    forall r, c | 0 <= r < h && 0 <= c < w
      ensures shifted[r, c] == ShiftedPixel(img, sy, sx, r, c)
    {
      SliceBounds(h, sy, r);
      SliceBounds(w, sx, c);
    }
  }

  /** A shift by zero copies the image, and a shift by the whole height or
      width leaves nothing but zeros. */
  lemma ShiftExtremes(img: array2<int>, y: int, x: int)
    requires 0 <= y < img.Length0 && 0 <= x < img.Length1
    ensures ShiftedPixel(img, 0, 0, y, x) == img[y, x]
    ensures ShiftedPixel(img, img.Length0, 0, y, x) == 0
    ensures ShiftedPixel(img, 0, img.Length1, y, x) == 0
  {
  }

  /** Shifting an 8-bit image keeps it 8-bit: every pixel is a source pixel
      or 0. */
  lemma ShiftKeepsRange(img: array2<int>, sy: int, sx: int, y: int, x: int)
    requires forall r, c :: 0 <= r < img.Length0 && 0 <= c < img.Length1 ==> 0 <= img[r, c] <= 255
    ensures 0 <= ShiftedPixel(img, sy, sx, y, x) <= 255
  {
  }

  // The schedule.

  /** The variation kinds, in the order the schedule cycles through them. */
  datatype Variation = Noise | Brightness | Contrast | Shift | Intensity

  const VariationTypes: seq<Variation> := [Noise, Brightness, Contrast, Shift, Intensity]

  /** The strength of variation `i` of `numCases`: `0.5 + i / num_cases`. */
  function Strength(i: nat, numCases: nat): real
    requires numCases > 0
  {
    0.5 + i as real / numCases as real
  }

  /** `int(x)`: truncation toward zero. */
  function Truncate(r: real): (n: int)
    ensures r >= 0.0 ==> n as real <= r < n as real + 1.0
    ensures r < 0.0 ==> n as real - 1.0 < r <= n as real
  {
    if r >= 0.0 then r.Floor else -((-r).Floor)
  }

  /** `max_shift = int(20 * strength)`: the offsets of the shift are drawn
      from `[-max_shift, max_shift]`. */
  function MaxShift(strength: real): int {
    Truncate(20.0 * strength)
  }

  /** The loop over `i` in `range(1, num_cases)`: variation `i` has kind
      `variation_types[i % 5]` and strength `0.5 + i / num_cases`. */
  method Schedule(numCases: nat) returns (kinds: seq<Variation>, strengths: seq<real>)
    ensures |kinds| == |strengths| == if numCases > 0 then numCases - 1 else 0
    ensures forall k :: 0 <= k < |kinds| ==> kinds[k] == VariationTypes[(k + 1) % 5]
    ensures forall k :: 0 <= k < |strengths| ==> strengths[k] == Strength(k + 1, numCases)
  {
    kinds, strengths := [], [];
    var i := 1;
    while i < numCases
      invariant 1 <= i && |kinds| == |strengths| == i - 1
      invariant i <= numCases || i == 1
      invariant forall k :: 0 <= k < |kinds| ==> kinds[k] == VariationTypes[(k + 1) % 5]
      invariant forall k :: 0 <= k < |strengths| ==> strengths[k] == Strength(k + 1, numCases)
    {
      kinds := kinds + [VariationTypes[i % |VariationTypes|]];
      strengths := strengths + [0.5 + i as real / numCases as real];
      i := i + 1;
    }
  }

  /** Later variations are strictly stronger, every strength lies strictly
      between 0.5 and 1.5, and the largest shift offset lies between 10 and
      29 pixels. */
  lemma StrengthSchedule(i: nat, j: nat, numCases: nat)
    requires 1 <= i < j < numCases
    ensures Strength(i, numCases) < Strength(j, numCases)
    ensures 0.5 < Strength(i, numCases) < 1.5
    ensures 10 <= MaxShift(Strength(i, numCases)) <= 29
  {
    var n := numCases as real;
    Quotients(i, j, numCases);
    var s := Strength(i, numCases);
    assert 10.0 < 20.0 * s < 30.0;
  }

  lemma Quotients(i: nat, j: nat, n: nat)
    requires 1 <= i < j < n
    ensures 0.0 < i as real / n as real < j as real / n as real < 1.0
  {
    var r := n as real;
    assert i as real / r * r == i as real;
    assert j as real / r * r == j as real;
  }

  /** Every kind comes back after five variations, and the first four
      variations are brightness, contrast, shift and intensity. */
  lemma KindCycle(i: nat)
    ensures VariationTypes[i % 5] == VariationTypes[(i + 5) % 5]
    ensures VariationTypes[1 % 5] == Brightness && VariationTypes[2 % 5] == Contrast
    ensures VariationTypes[3 % 5] == Shift && VariationTypes[4 % 5] == Intensity
  {
  }

  // The numbered copies.

  /** `{disease}_case{n}.mem`. */
  function CaseName(disease: string, n: nat): string {
    disease + "_case" + NatToString(n) + ".mem"
  }

  /** The number can be read back from the name: names are equal exactly
      when their numbers are. */
  lemma CaseNamesDistinct(disease: string, m: nat, n: nat)
    ensures CaseName(disease, m) == CaseName(disease, n) <==> m == n
  {
    if CaseName(disease, m) == CaseName(disease, n) {
      CaseNumber(disease, m);
      CaseNumber(disease, n);
    }
  }

  /** The digits sit between `{disease}_case` and `.mem`. */
  lemma CaseNumber(disease: string, n: nat)
    ensures var s := CaseName(disease, n);
      |s| >= |disease| + 9 && DigitsValue(s[|disease| + 5..|s| - 4]) == n
  {
    var s, d := CaseName(disease, n), NatToString(n);
    assert s == (disease + "_case") + d + ".mem";
    assert s[|disease| + 5..|s| - 4] == d;
  }

  /** The renaming loop: one copy per file found, numbered from 1 with a
      counter. */
  method NumberCases(disease: string, found: seq<string>) returns (names: seq<string>)
    ensures |names| == |found|
    ensures forall k :: 0 <= k < |names| ==> names[k] == CaseName(disease, k + 1)
  {
    names := [];
    var caseNum := 1;
    for k := 0 to |found|
      invariant caseNum == k + 1 && |names| == k
      invariant forall j :: 0 <= j < k ==> names[j] == CaseName(disease, j + 1)
    {
      names := names + [disease + "_case" + NatToString(caseNum) + ".mem"];
      caseNum := caseNum + 1;
    }
  }

  /** The numbered copies never overwrite one another. */
  lemma NumberedNamesDistinct(disease: string, names: seq<string>, i: nat, j: nat)
    requires forall k :: 0 <= k < |names| ==> names[k] == CaseName(disease, k + 1)
    requires i < j < |names|
    ensures names[i] != names[j]
  {
    CaseNamesDistinct(disease, i + 1, j + 1);
  }
}
