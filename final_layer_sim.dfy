/** The integer simulation of the final layer: weighted accumulation over a
    run of input samples, the shift, boost and clamp that turn accumulators
    into 16-bit scores, the first-maximum primary condition and the local
    probability that reads the score without sign extension. */
module FinalLayerSim {
  import opened FixedPoint
  import opened DiseaseResults

  /** The per-condition weights, No Finding first and Pneumonia (13) the
      heaviest. */
  const ConditionWeights: seq<nat> := [
    0x0800, 0x0A00, 0x0C00, 0x0B00, 0x0900, 0x0700, 0x0D00, 0x0E00,
    0x0A80, 0x0F00, 0x0B80, 0x0C80, 0x0D80, 0x1000, 0x0880]

  /** The number of simulated input samples. */
  const Samples: nat := 100

  /** The index whose score is boosted, and the one whose score is halved. */
  const Pneumonia: nat := 13
  const NoFinding: nat := 0

  /** The largest score, the 16-bit clamp. */
  const MaxScore: nat := 0xFFFF

  // Accumulation.

  /** What sample `s` adds to accumulator `i` of weight `w`: the weighted
      input, a spatial term and a channel term; no term is negative. */
  function Contribution(s: nat, i: nat, w: nat): (c: nat)
    ensures c >= (1000 + s * 50) * w
  {
    var spatial: nat := (s % 10) * (s % 10) * (i + 1);
    var channel: nat := (s % 16) * w;
    (1000 + s * 50) * w + spatial + channel
  }

  /** Accumulator `i` after the first `m` samples. */
  function Accumulated(w: nat, i: nat, m: nat): nat {
    if m == 0 then 0 else Accumulated(w, i, m - 1) + Contribution(m - 1, i, w)
  }

  /** The accumulation loop: for every sample, every accumulator grows by
      its contribution. */
  method Accumulate(weights: seq<nat>, samples: nat) returns (acc: array<nat>)
    ensures fresh(acc) && acc.Length == |weights|
    ensures forall i :: 0 <= i < |weights| ==> acc[i] == Accumulated(weights[i], i, samples)
  {
    acc := new nat[|weights|](_ => 0);
    for sample := 0 to samples
      invariant forall i :: 0 <= i < acc.Length ==> acc[i] == Accumulated(weights[i], i, sample)
    {
      for i := 0 to |weights|
        invariant forall j :: 0 <= j < i ==> acc[j] == Accumulated(weights[j], j, sample + 1)
        invariant forall j :: i <= j < acc.Length ==> acc[j] == Accumulated(weights[j], j, sample)
      {
        var weighted := (1000 + sample * 50) * weights[i];
        weighted := weighted + (sample % 10) * (sample % 10) * (i + 1);
        weighted := weighted + (sample % 16) * weights[i];
        assert weighted == Contribution(sample, i, weights[i]);
        acc[i] := acc[i] + weighted;
      }
    }
  }

  /** `m` samples add at least `w` times the sum of their base inputs,
      `1000 m + 25 m (m - 1)`. */
  lemma {:induction false} AccumulatedLowerBound(w: nat, i: nat, m: nat)
    ensures Accumulated(w, i, m) >= w * (1000 * m + 25 * (m * (m - 1)))
  {
    if m > 0 {
      var k := m - 1;
      AccumulatedLowerBound(w, i, k);
      var before, step := 1000 * k + 25 * (k * (k - 1)), 1000 + k * 50;
      BaseStep(m, k);
      StepBound(Accumulated(w, i, k), Contribution(k, i, w), w, before, step, 1000 * m + 25 * (m * (m - 1)));
    }
  }

  /** The base inputs of `m = k + 1` samples are those of `k` samples plus
      the base input of sample `k`. */
  lemma BaseStep(m: nat, k: nat)
    requires k + 1 == m
    ensures 1000 * m + 25 * (m * (m - 1)) == (1000 * k + 25 * (k * (k - 1))) + (1000 + k * 50)
  {
    assert m * (m - 1) == k * k + k;
    assert k * (k - 1) == k * k - k;
  }

  /** One more sample keeps the lower bound. */
  lemma StepBound(before: int, added: int, w: nat, base: int, step: int, total: int)
    requires before >= w * base && added >= step * w && total == base + step
    ensures before + added >= w * total
  {
    assert w * total == w * base + w * step;
  }

  // Scores.

  /** The score before the clamp: the accumulator shifted right by 8, then
      boosted by 0x2000 for Pneumonia or halved for No Finding. */
  function Unclamped(acc: nat, i: nat): nat {
    if i == Pneumonia then acc / 256 + 0x2000
    else if i == NoFinding then acc / 256 / 2
    else acc / 256
  }

  /** The final score: the unclamped score, capped at 0xFFFF. */
  function FinalScore(acc: nat, i: nat): (s: nat)
    ensures s <= MaxScore
    ensures s == MaxScore <==> Unclamped(acc, i) >= MaxScore
    ensures s < MaxScore ==> s == Unclamped(acc, i)
  {
    if Unclamped(acc, i) > MaxScore then MaxScore else Unclamped(acc, i)
  }

  /** A larger accumulator never gives a smaller score. */
  lemma FinalScoreMonotone(a: nat, b: nat, i: nat)
    requires a <= b
    ensures FinalScore(a, i) <= FinalScore(b, i)
  {
    assert a / 256 <= b / 256;
    assert a / 256 / 2 <= b / 256 / 2;
  }

  /** From equal accumulators Pneumonia scores at least as high as any other
      condition, and No Finding no higher. */
  lemma BoostAndReduction(acc: nat, i: nat)
    ensures FinalScore(acc, NoFinding) <= FinalScore(acc, i) <= FinalScore(acc, Pneumonia)
  {
  }

  /** The scoring loop: shift, boost or halve, clamp, append. */
  method ComputeFinalScores(acc: array<nat>) returns (scores: seq<nat>)
    ensures |scores| == acc.Length
    ensures forall i :: 0 <= i < acc.Length ==> scores[i] == FinalScore(acc[i], i)
  {
    scores := [];
    for i := 0 to acc.Length
      invariant |scores| == i
      invariant forall j :: 0 <= j < i ==> scores[j] == FinalScore(acc[j], j)
    {
      var s := acc[i] / 256;
      if i == Pneumonia {
        s := s + 0x2000;
      } else if i == NoFinding {
        s := s / 2;
      }
      if s > MaxScore {
        s := MaxScore;
      }
      scores := scores + [s];
    }
  }

  // The run.

  /** The local `fixed_to_probability`: the score divided by 256 with no
      sign extension, so 0xFFFF reads as about 255.99. */
  function LocalProbability(sig: real -> real, score: nat): real {
    SignedProbability(sig, score)
  }

  /** 0xFFFF is certain for the local reading, while the shared decoding
      takes it as -1/256 and gives less than one half. */
  lemma LocalReadingOfAllOnes(sig: real -> real)
    requires IsLogistic(sig)
    ensures LocalProbability(sig, MaxScore) == 1.0
    ensures FixedToProbability(sig, MaxScore) < 0.5
  {
    assert SignExtend16(MaxScore) == -1;
    assert (-1) as real / 256.0 < 0.0;
  }

  /** Every condition's accumulator after the run is at least 347500 times
      the smallest weight, 0x0700. */
  lemma RunAccumulators(i: nat)
    requires i < |ConditionWeights|
    ensures Accumulated(ConditionWeights[i], i, Samples) >= 347500 * 0x0700
  {
    var w := ConditionWeights[i];
    AccumulatedLowerBound(w, i, Samples);
    assert w >= 0x0700;
    assert 1000 * Samples + 25 * (Samples * (Samples - 1)) == 347500;
    assert w * 347500 >= 0x0700 * 347500;
  }

  /** Such an accumulator is clamped whatever the condition. */
  lemma LargeAccumulatorClamps(acc: nat, i: nat)
    requires acc >= 347500 * 0x0700
    ensures FinalScore(acc, i) == MaxScore
  {
    assert acc / 256 >= 2432500;
  }

  /** `test_new_final_layer`: every score clamps to 0xFFFF, so the first
      maximum is No Finding, and the local probability of the winning score
      is 1.0. */
  method SimulateFinalLayer(sig: real -> real) returns (scores: seq<nat>, primary: nat, probability: real)
    requires IsLogistic(sig)
    ensures |scores| == |ConditionWeights|
    ensures forall i :: 0 <= i < |scores| ==> scores[i] == MaxScore
    ensures primary == ArgMax(scores) == NoFinding
    ensures probability == 1.0
  {
    var acc := Accumulate(ConditionWeights, Samples);
    forall i | 0 <= i < acc.Length ensures FinalScore(acc[i], i) == MaxScore {
      RunAccumulators(i);
      LargeAccumulatorClamps(acc[i], i);
    }
    scores := ComputeFinalScores(acc);
    primary := ArgMax(scores);
    assert scores[primary] == scores[0];
    LocalReadingOfAllOnes(sig);
    probability := LocalProbability(sig, scores[primary]);
  }
}
