/** The demonstration report: a fixed sample vector and three scenario
    vectors, each scored with the same decode, first-maximum and urgency
    rules as the hardware report. Every token of these vectors is a valid
    hex literal, so every word is accepted. */
module Demo {
  import opened Text
  import opened FixedPoint
  import opened HexOutputs

  /** The words of the sample vector, as `int(hex, 16)` reads its literals. */
  const SampleWords: seq<int> := [0x00FF, 0x1234, 0x4567, 0x2345, 0x0123, 0x3456, 0x5678,
    0x2345, 0x0123, 0x3456, 0x1234, 0x0123, 0x2345, 0x4567, 0x0123]

  /** The "Normal X-ray" scenario: 0x8000 for No Finding, zero elsewhere. */
  const NormalWords: seq<int> := [0x8000, 0, 0, 0, 0, 0, 0, 0, 0, 0, 0, 0, 0, 0, 0]

  /** The "Pneumonia Case" scenario. */
  const PneumoniaWords: seq<int> := [0, 0x1234, 0x2345, 0x3456, 0, 0, 0, 0x8000, 0, 0, 0, 0, 0x4567, 0x9000, 0]

  /** The "Pneumothorax Emergency" scenario: 0x9000 for Pneumothorax, zero elsewhere. */
  const EmergencyWords: seq<int> := [0, 0, 0, 0, 0, 0x9000, 0, 0, 0, 0, 0, 0, 0, 0, 0]

  /** `demonstrate_medical_analysis`: every token is scored (there is no
      cut at fifteen), the running best gives the primary condition, and
      the secondary findings are listed by position in `probabilities`. */
  method DemonstrateAnalysis(sig: real -> real, tokens: seq<string>)
    returns (probabilities: seq<real>, primary: nat, confidence: real, secondary: seq<nat>, urgency: Urgency)
    ensures probabilities == Probs(Scored(sig, ParseWords(tokens), |tokens|))
    ensures Score(primary, confidence) == Select(Scored(sig, ParseWords(tokens), |tokens|))
    ensures secondary == SecondaryByPosition(probabilities, primary)
    ensures urgency == UrgencyOf(primary)
  {
    var scored;
    probabilities, scored, primary, confidence := ScoreWords(sig, ParseWords(tokens), |tokens|);
    secondary := ListSecondary(probabilities, primary);
    urgency := UrgencyOf(primary);
  }

  /** Words that all parsed. */
  function Accepted(raws: seq<int>): (words: seq<Option<int>>)
    ensures |words| == |raws|
    ensures forall k :: 0 <= k < |raws| ==> words[k] == Some(raws[k])
  {
    seq(|raws|, k requires 0 <= k < |raws| => Some(raws[k]))
  }

  /** The demo's scoring loop over a vector of valid words: entry `k` holds
      condition `k` and the probability of word `k`. */
  lemma AcceptedScores(sig: real -> real, raws: seq<int>)
    ensures |Scored(sig, Accepted(raws), |raws|)| == |raws|
    ensures forall k :: 0 <= k < |raws| ==>
      Scored(sig, Accepted(raws), |raws|)[k] == Score(k, FixedToProbability(sig, raws[k]))
  {
    ScoredAligned(sig, Accepted(raws), |raws|);
    ScoredSound(sig, Accepted(raws), |raws|);
  }

  /** The scenario words 0x8000 and 0x9000 are negative once sign-extended,
      and far enough below -5.0 to decode to exactly 0.0. */
  lemma ScenarioHighWordsDecodeToZero(sig: real -> real)
    ensures SignExtend16(0x8000) == -32768 && SignExtend16(0x9000) == -28672
    ensures FixedToProbability(sig, 0x8000) == 0.0 && FixedToProbability(sig, 0x9000) == 0.0
  {
  }

  /** On the sample vector every word decodes above 0.3, word 0 (0x00FF) to
      a logistic value below 1.0, and every word beyond 0x0500 to 1.0. */
  lemma SampleScores(sig: real -> real)
    requires IsLogistic(sig)
    ensures var scored := Scored(sig, Accepted(SampleWords), |SampleWords|);
      |scored| == 15
      && (forall k :: 0 <= k < 15 ==> scored[k].index == k && 0.3 < scored[k].prob <= 1.0)
      && scored[0].prob < 1.0 && scored[1].prob == 1.0
  {
    SampleWordsPositive();
    PositiveScores(sig, SampleWords);
    AcceptedScores(sig, SampleWords);
    PositiveWord(sig, SampleWords[1]);
    SaturationIff(sig, 0x00FF);
  }

  /** Every sample word is a positive value below the sign bit. */
  lemma SampleWordsPositive()
    ensures forall k :: 0 <= k < |SampleWords| ==> 0 < SampleWords[k] < SignBit
  {
  }

  /** Words that are all positive values below the sign bit score above
      one half each, at their own positions. */
  lemma PositiveScores(sig: real -> real, raws: seq<int>)
    requires IsLogistic(sig)
    requires forall k :: 0 <= k < |raws| ==> 0 < raws[k] < SignBit
    ensures var scored := Scored(sig, Accepted(raws), |raws|);
      |scored| == |raws|
      && forall k :: 0 <= k < |raws| ==> scored[k].index == k && 0.3 < scored[k].prob <= 1.0
  {
    var scored := Scored(sig, Accepted(raws), |raws|);
    AcceptedScores(sig, raws);
    forall k | 0 <= k < |raws|
      ensures scored[k].index == k && 0.3 < scored[k].prob <= 1.0
    {
      PositiveWord(sig, raws[k]);
    }
  }

  /** So word 1 (0x1234), the first to reach 1.0, is primary: later words
      that also reach 1.0 cannot displace it, and its urgency is standard. */
  lemma SamplePrimary(sig: real -> real)
    requires IsLogistic(sig)
    ensures Select(Scored(sig, Accepted(SampleWords), |SampleWords|)) == Score(1, 1.0)
    ensures UrgencyOf(1) == Standard
  {
    SampleScores(sig);
    SelectFirstMaxAt(Scored(sig, Accepted(SampleWords), |SampleWords|), 1);
  }

  /** And every other condition is a secondary finding. */
  lemma SampleSecondary(sig: real -> real)
    requires IsLogistic(sig)
    ensures SecondaryByPosition(Probs(Scored(sig, Accepted(SampleWords), |SampleWords|)), 1)
         == [0] + seq(13, k => k + 2)
  {
    SampleScores(sig);
    var expected := [0] + seq(13, k => k + 2);
    var found := SecondaryByPosition(Probs(Scored(sig, Accepted(SampleWords), |SampleWords|)), 1);
    forall c ensures c in found <==> c in expected {
      if 2 <= c < 15 { assert expected[c - 1] == c; }
    }
    AscendingSame(found, expected);
  }

  /** A positive word below the sign bit is above one half, and exactly 1.0
      beyond 0x0500. */
  lemma PositiveWord(sig: real -> real, raw: int)
    requires IsLogistic(sig)
    requires 0 < raw < SignBit
    ensures 0.5 < FixedToProbability(sig, raw) <= 1.0
    ensures raw > SaturationRaw ==> FixedToProbability(sig, raw) == 1.0
  {
    ProbabilityRange(sig, raw);
    var t := raw as real / 256.0;
    assert t > 0.0 && sig(0.0) < sig(t);
  }

  /** In the "Pneumothorax Emergency" scenario the 0x9000 word decodes to
      0.0, so the first of the 0.5 values, No Finding, is primary and the
      urgency is low. */
  lemma EmergencyScenario(sig: real -> real)
    requires IsLogistic(sig)
    ensures Select(Scored(sig, Accepted(EmergencyWords), |EmergencyWords|)) == Score(0, 0.5)
    ensures UrgencyOf(0) == Low
  {
    ZeroesElsewhere(sig, EmergencyWords, 0, 5);
  }

  /** In the "Normal X-ray" scenario the 0x8000 word decodes to 0.0, so
      Infiltration, the first 0.5 value, is primary. */
  lemma NormalScenario(sig: real -> real)
    requires IsLogistic(sig)
    ensures Select(Scored(sig, Accepted(NormalWords), |NormalWords|)) == Score(1, 0.5)
    ensures UrgencyOf(1) == Standard
  {
    ZeroesElsewhere(sig, NormalWords, 1, 0);
  }

  /** In the "Pneumonia Case" scenario 0x1234 at Infiltration saturates at
      1.0 first, while 0x9000 at Pneumonia decodes to 0.0. */
  lemma PneumoniaScenario(sig: real -> real)
    requires IsLogistic(sig)
    ensures Select(Scored(sig, Accepted(PneumoniaWords), |PneumoniaWords|)) == Score(1, 1.0)
    ensures FixedToProbability(sig, PneumoniaWords[13]) == 0.0
    ensures UrgencyOf(1) == Standard
  {
    var scored := Scored(sig, Accepted(PneumoniaWords), |PneumoniaWords|);
    AcceptedScores(sig, PneumoniaWords);
    forall k | 0 <= k < |scored|
      ensures scored[k].prob <= 1.0
    {
      ProbabilityRange(sig, PneumoniaWords[k]);
    }
    assert scored[0].prob == 0.5 by { ProbabilityLandmarks(sig); }
    SelectFirstMaxAt(scored, 1);
  }

  /** A vector of zero words but for one word that decodes to 0.0: the first
      other position is primary with 0.5. */
  lemma ZeroesElsewhere(sig: real -> real, raws: seq<int>, first: nat, low: nat)
    requires IsLogistic(sig)
    requires low < |raws| && first < |raws| && first != low && (first == 0 || (first == 1 && low == 0))
    requires FixedToProbability(sig, raws[low]) == 0.0
    requires forall k :: 0 <= k < |raws| && k != low ==> raws[k] == 0
    ensures Select(Scored(sig, Accepted(raws), |raws|)) == Score(first, 0.5)
  {
    var scored := Scored(sig, Accepted(raws), |raws|);
    AcceptedScores(sig, raws);
    ProbabilityLandmarks(sig);
    SelectFirstMaxAt(scored, first);
  }
}
