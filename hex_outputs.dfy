/** The medical report built from the hex words the hardware prints: each of
    the first fifteen words is decoded to a probability for one of the fifteen
    conditions, the first maximal condition is the primary diagnosis, other
    conditions above 30% are secondary findings, and the urgency follows from
    the primary condition alone. */
module HexOutputs {
  import opened Text
  import opened Hex
  import opened FixedPoint
  import opened Seqs

  /** One report line per condition, for the first fifteen words. */
  const NumConditions: nat := 15
  const SecondaryThreshold: real := 0.3

  datatype Urgency = High | Moderate | Low | Standard

  /** The urgency table: Pneumothorax (5) is high; Atelectasis (2), Mass (6)
      and Pneumonia (13) are moderate; No Finding (0) is low; all else is
      standard. */
  function UrgencyOf(primary: nat): (u: Urgency)
    ensures u == High <==> primary == 5
    ensures u == Moderate <==> primary in {2, 6, 13}
    ensures u == Low <==> primary == 0
    ensures u == Standard <==> primary !in {0, 2, 5, 6, 13}
  {
    if primary == 5 then High
    else if primary in {2, 6, 13} then Moderate
    else if primary == 0 then Low
    else Standard
  }

  /** A decoded word together with the position of its token. */
  datatype Score = Score(index: nat, prob: real)

  /** Positions strictly increase along the list. */
  predicate Ascending(scored: seq<Score>) {
    forall k, l :: 0 <= k < l < |scored| ==> scored[k].index < scored[l].index
  }

  /** `int(token, 16)` for each token, `None` where it raises `ValueError`. */
  function ParseWords(tokens: seq<string>): (words: seq<Option<int>>)
    ensures |words| == |tokens|
  {
    if |tokens| == 0 then [] else ParseWords(tokens[..|tokens| - 1]) + [ParseHexInt(tokens[|tokens| - 1])]
  }

  lemma {:induction false} ParseWordsAt(tokens: seq<string>, j: nat)
    requires j < |tokens|
    ensures ParseWords(tokens)[j] == ParseHexInt(tokens[j])
  {
    if j < |tokens| - 1 {
      ParseWordsAt(tokens[..|tokens| - 1], j);
    }
  }

  /** The accepted words among the first `n`, each with its position and its
      probability; rejected words leave no entry. */
  function Scored(sig: real -> real, words: seq<Option<int>>, n: nat): (scored: seq<Score>)
    requires n <= |words|
    ensures |scored| <= n && Ascending(scored)
    ensures forall k :: 0 <= k < |scored| ==> scored[k].index < n && words[scored[k].index].Some?
  {
    if n == 0 then []
    else
      var before := Scored(sig, words, n - 1);
      match words[n - 1]
      case None => before
      case Some(raw) => before + [Score(n - 1, FixedToProbability(sig, raw))]
  }

  /** Each entry carries the probability of the word at its position. */
  lemma {:induction false} ScoredSound(sig: real -> real, words: seq<Option<int>>, n: nat)
    requires n <= |words|
    ensures forall k :: 0 <= k < |Scored(sig, words, n)| ==>
      var e := Scored(sig, words, n)[k];
      words[e.index].Some? && e.prob == FixedToProbability(sig, words[e.index].value)
  {
    if n > 0 {
      ScoredSound(sig, words, n - 1);
      var before := Scored(sig, words, n - 1);
      assert forall k :: 0 <= k < |before| ==> Scored(sig, words, n)[k] == before[k];
    }
  }

  /** Every accepted word among the first `n` has its entry. */
  lemma {:induction false} ScoredComplete(sig: real -> real, words: seq<Option<int>>, n: nat)
    requires n <= |words|
    ensures forall j :: 0 <= j < n && words[j].Some? ==>
      Score(j, FixedToProbability(sig, words[j].value)) in Scored(sig, words, n)
  {
    if n > 0 {
      ScoredComplete(sig, words, n - 1);
      ScoredStep(sig, words, n - 1);
      var before := Scored(sig, words, n - 1);
      forall j | 0 <= j < n && words[j].Some?
        ensures Score(j, FixedToProbability(sig, words[j].value)) in Scored(sig, words, n)
      {
        if j < n - 1 {
          assert Score(j, FixedToProbability(sig, words[j].value)) in before;
        }
      }
    }
  }

  /** The entries of the first `i + 1` words: those of the first `i`, then
      word `i`'s when it is accepted. */
  lemma ScoredStep(sig: real -> real, words: seq<Option<int>>, i: nat)
    requires i < |words|
    ensures words[i].None? ==> Scored(sig, words, i + 1) == Scored(sig, words, i)
    ensures words[i].Some? ==>
      Scored(sig, words, i + 1) == Scored(sig, words, i) + [Score(i, FixedToProbability(sig, words[i].value))]
  {
  }

  /** The `probabilities` list: the probabilities alone, positions dropped. */
  function Probs(scored: seq<Score>): (probs: seq<real>)
    ensures |probs| == |scored|
    ensures forall k :: 0 <= k < |scored| ==> probs[k] == scored[k].prob
  {
    if |scored| == 0 then [] else Probs(scored[..|scored| - 1]) + [scored[|scored| - 1].prob]
  }

  /** When every word is accepted, list positions and token positions agree. */
  lemma {:induction false} ScoredAligned(sig: real -> real, words: seq<Option<int>>, n: nat)
    requires n <= |words|
    requires forall j :: 0 <= j < n ==> words[j].Some?
    ensures |Scored(sig, words, n)| == n
    ensures forall k :: 0 <= k < n ==> Scored(sig, words, n)[k].index == k
  {
    if n > 0 {
      ScoredAligned(sig, words, n - 1);
      var before := Scored(sig, words, n - 1);
      assert Scored(sig, words, n) == before + [Score(n - 1, FixedToProbability(sig, words[n - 1].value))];
    }
  }

  /** The secondary findings as the report lists them: positions in the
      `probabilities` list, other than the primary condition's token
      position, whose probability is above 0.3, in ascending order. */
  function SecondaryByPosition(probs: seq<real>, primary: nat): (found: seq<nat>)
    ensures forall i :: i in found <==> 0 <= i < |probs| && i != primary && probs[i] > SecondaryThreshold
    ensures forall k, l :: 0 <= k < l < |found| ==> found[k] < found[l]
    ensures forall k :: 0 <= k < |found| ==> found[k] < |probs|
  {
    if |probs| == 0 then []
    else
      var i := |probs| - 1;
      SecondaryByPosition(probs[..i], primary) + (if i != primary && probs[i] > SecondaryThreshold then [i] else [])
  }

  /** The findings among one more probability. */
  lemma ByPositionStep(probs: seq<real>, i: nat, primary: nat)
    requires i < |probs|
    ensures SecondaryByPosition(probs[..i + 1], primary) ==
      SecondaryByPosition(probs[..i], primary) + (if i != primary && probs[i] > SecondaryThreshold then [i] else [])
  {
    assert probs[..i + 1][..i] == probs[..i];
  }

  /** The secondary findings by condition: the token positions, other than the
      primary one, whose word decodes above 0.3, in ascending order. */
  function SecondaryFindings(scored: seq<Score>, primary: nat): (found: seq<nat>)
    requires Ascending(scored)
    ensures forall c :: c in found <==>
      exists k :: 0 <= k < |scored| && scored[k].index == c && c != primary && scored[k].prob > SecondaryThreshold
    ensures forall k, l :: 0 <= k < l < |found| ==> found[k] < found[l]
    ensures forall k :: 0 <= k < |found| ==> exists j :: 0 <= j < |scored| && scored[j].index == found[k]
  {
    if |scored| == 0 then []
    else
      var last := scored[|scored| - 1];
      var before := SecondaryFindings(scored[..|scored| - 1], primary);
      assert forall k :: 0 <= k < |before| ==> before[k] < last.index;
      before + (if last.index != primary && last.prob > SecondaryThreshold then [last.index] else [])
  }

  /** The report of a run with at least fifteen tokens. */
  datatype Diagnosis = Diagnosis(
    probabilities: seq<real>,
    scored: seq<Score>,
    primary: nat,
    confidence: real,
    secondary: seq<nat>,
    urgency: Urgency)

  /** The running best of the scoring loop after the entries of `scored`:
      the best starts as position 0 with 0.0 and moves to an entry only when
      that entry's probability is strictly greater. */
  function Select(scored: seq<Score>): (best: Score) {
    if |scored| == 0 then Score(0, 0.0)
    else
      var best := Select(scored[..|scored| - 1]);
      var last := scored[|scored| - 1];
      if last.prob > best.prob then last else best
  }

  /** The running best is the first entry of maximal probability, or
      position 0 with 0.0 when no entry is above 0.0. */
  lemma {:induction false} SelectIsFirstMax(scored: seq<Score>)
    requires Ascending(scored)
    ensures Select(scored).prob >= 0.0
    ensures forall k :: 0 <= k < |scored| ==> scored[k].prob <= Select(scored).prob
    ensures Select(scored).prob > 0.0 ==> Select(scored) in scored
    ensures forall k :: 0 <= k < |scored| && scored[k].index < Select(scored).index ==>
      scored[k].prob < Select(scored).prob
    ensures Select(scored).prob == 0.0 ==> Select(scored).index == 0
  {
    SelectIsMax(scored);
    SelectIsFirst(scored);
  }

  lemma {:induction false} SelectIsMax(scored: seq<Score>)
    ensures Select(scored).prob >= 0.0
    ensures forall k :: 0 <= k < |scored| ==> scored[k].prob <= Select(scored).prob
    ensures Select(scored).prob > 0.0 ==> Select(scored) in scored
    ensures Select(scored).prob == 0.0 ==> Select(scored).index == 0
  {
    if |scored| > 0 {
      var init := scored[..|scored| - 1];
      SelectIsMax(init);
      assert forall k :: 0 <= k < |init| ==> scored[k] == init[k];
    }
  }

  lemma {:induction false} SelectIsFirst(scored: seq<Score>)
    requires Ascending(scored)
    ensures forall k :: 0 <= k < |scored| && scored[k].index < Select(scored).index ==>
      scored[k].prob < Select(scored).prob
  {
    if |scored| > 0 {
      var init := scored[..|scored| - 1];
      assert forall k :: 0 <= k < |init| ==> scored[k] == init[k];
      SelectIsFirst(init);
      SelectIsMax(init);
      var best, last := Select(init), scored[|scored| - 1];
      if best.prob > 0.0 {
        var j :| 0 <= j < |init| && init[j] == best;
        assert best.index < last.index;
      }
    }
  }

  /** Conversely, an entry above 0.0 that no entry exceeds and that every
      earlier entry falls short of is the running best. */
  lemma SelectFirstMaxAt(scored: seq<Score>, j: nat)
    requires Ascending(scored) && j < |scored|
    requires scored[j].prob > 0.0
    requires forall k :: 0 <= k < |scored| ==> scored[k].prob <= scored[j].prob
    requires forall k :: 0 <= k < j ==> scored[k].prob < scored[j].prob
    ensures Select(scored) == scored[j]
  {
    SelectIsFirstMax(scored);
    var best := Select(scored);
    var i :| 0 <= i < |scored| && scored[i] == best;
    assert best.prob == scored[j].prob;
    assert i == j;
  }

  /** The scoring loop of `create_medical_diagnosis_report` over the first
      `n` parsed tokens: each accepted word is appended to `probabilities`,
      and the primary condition and its confidence are the running best. */
  method ScoreWords(sig: real -> real, words: seq<Option<int>>, n: nat)
    returns (probabilities: seq<real>, scored: seq<Score>, primary: nat, confidence: real)
    requires n <= |words|
    ensures scored == Scored(sig, words, n)
    ensures probabilities == Probs(scored)
    ensures Score(primary, confidence) == Select(scored)
    ensures primary == 0 || primary < n
  {
    probabilities, scored := [], [];
    confidence, primary := 0.0, 0;
    var i := 0;
    while i < n
      invariant i <= n
      invariant ScannedTo(sig, words, i, probabilities, scored, primary, confidence)
    {
      ScanNext(sig, words, i, probabilities, scored, primary, confidence);
      var word := words[i];
      if word.Some? {
        var probability := FixedToProbability(sig, word.value);
        probabilities := probabilities + [probability];
        scored := scored + [Score(i, probability)];
        if probability > confidence {
          confidence := probability;
          primary := i;
        }
      }
      i := i + 1;
    }
  }

  /** The state of the scoring loop after the first `i` words. */
  ghost predicate ScannedTo(sig: real -> real, words: seq<Option<int>>, i: nat,
    probabilities: seq<real>, scored: seq<Score>, primary: nat, confidence: real)
  {
    i <= |words| && scored == Scored(sig, words, i) && probabilities == Probs(scored)
    && Score(primary, confidence) == Select(scored) && (primary == 0 || primary < i)
  }

  /** One turn of the scoring loop keeps its state. */
  lemma ScanNext(sig: real -> real, words: seq<Option<int>>, i: nat,
    probabilities: seq<real>, scored: seq<Score>, primary: nat, confidence: real)
    requires i < |words| && ScannedTo(sig, words, i, probabilities, scored, primary, confidence)
    ensures words[i].None? ==> ScannedTo(sig, words, i + 1, probabilities, scored, primary, confidence)
    ensures words[i].Some? && FixedToProbability(sig, words[i].value) > confidence ==>
      var p := FixedToProbability(sig, words[i].value);
      ScannedTo(sig, words, i + 1, probabilities + [p], scored + [Score(i, p)], i, p)
    ensures words[i].Some? && FixedToProbability(sig, words[i].value) <= confidence ==>
      var p := FixedToProbability(sig, words[i].value);
      ScannedTo(sig, words, i + 1, probabilities + [p], scored + [Score(i, p)], primary, confidence)
  {
    ScoredStep(sig, words, i);
    if words[i].Some? {
      var p := FixedToProbability(sig, words[i].value);
      ProbsSnoc(scored, Score(i, p));
      SelectSnoc(scored, Score(i, p));
    }
  }

  lemma ProbsSnoc(scored: seq<Score>, x: Score)
    ensures Probs(scored + [x]) == Probs(scored) + [x.prob]
  {
    assert (scored + [x])[..|scored|] == scored;
  }

  /** The running best after one more entry. */
  lemma SelectSnoc(scored: seq<Score>, x: Score)
    ensures Select(scored + [x]) == if x.prob > Select(scored).prob then x else Select(scored)
  {
    assert (scored + [x])[..|scored|] == scored;
  }

  /** The secondary-findings loop over `enumerate(probabilities)`: it lists
      list positions, which it then names as conditions. */
  method ListSecondary(probabilities: seq<real>, primary: nat) returns (secondary: seq<nat>)
    ensures secondary == SecondaryByPosition(probabilities, primary)
  {
    secondary := [];
    var i := 0;
    while i < |probabilities|
      invariant 0 <= i <= |probabilities|
      invariant secondary == SecondaryByPosition(probabilities[..i], primary)
    {
      ByPositionStep(probabilities, i, primary);
      if probabilities[i] > SecondaryThreshold && i != primary {
        secondary := secondary + [i];
      }
      i := i + 1;
    }
    assert probabilities[..|probabilities|] == probabilities;
  }

  /** `create_medical_diagnosis_report`: with fewer than fifteen tokens there
      is no report; otherwise the first fifteen are scored, and the report
      names the primary condition, its confidence, the secondary findings by
      position in the `probabilities` list (which are the conditions only
      when every token parses, `SecondaryAgreesWhenAligned`) and the
      urgency of the primary condition. */
  method Diagnose(sig: real -> real, tokens: seq<string>) returns (d: Option<Diagnosis>)
    ensures d.None? <==> |tokens| < NumConditions
    ensures d.Some? ==> d.value.scored == Scored(sig, ParseWords(tokens), NumConditions)
    ensures d.Some? ==> d.value.probabilities == Probs(d.value.scored)
    ensures d.Some? ==> d.value.primary < NumConditions && d.value.confidence >= 0.0
    ensures d.Some? ==> forall k :: 0 <= k < |d.value.scored| ==> d.value.scored[k].prob <= d.value.confidence
    ensures d.Some? && d.value.confidence > 0.0 ==> Score(d.value.primary, d.value.confidence) in d.value.scored
    ensures d.Some? ==> forall k :: 0 <= k < |d.value.scored| && d.value.scored[k].index < d.value.primary ==>
      d.value.scored[k].prob < d.value.confidence
    ensures d.Some? && d.value.confidence == 0.0 ==> d.value.primary == 0
    ensures d.Some? ==> d.value.secondary == SecondaryByPosition(d.value.probabilities, d.value.primary)
    ensures d.Some? ==> d.value.urgency == UrgencyOf(d.value.primary)
  {
    if |tokens| < NumConditions {
      return None;
    }
    var probabilities, scored, primary, confidence := ScoreWords(sig, ParseWords(tokens), NumConditions);
    SelectIsFirstMax(scored);
    var secondary := ListSecondary(probabilities, primary);
    d := Some(Diagnosis(probabilities, scored, primary, confidence, secondary, UrgencyOf(primary)));
  }

  /** When all fifteen words are accepted, listing by position and listing
      by condition give the same secondary findings. */
  lemma SecondaryAgreesWhenAligned(sig: real -> real, words: seq<Option<int>>, primary: nat)
    requires NumConditions <= |words|
    requires forall j :: 0 <= j < NumConditions ==> words[j].Some?
    ensures SecondaryByPosition(Probs(Scored(sig, words, NumConditions)), primary)
         == SecondaryFindings(Scored(sig, words, NumConditions), primary)
  {
    ScoredAligned(sig, words, NumConditions);
    AlignedListsAgree(Scored(sig, words, NumConditions), primary);
  }

  /** Entries whose list positions are their token positions list the same
      findings either way. */
  lemma AlignedListsAgree(scored: seq<Score>, primary: nat)
    requires Ascending(scored)
    requires forall k :: 0 <= k < |scored| ==> scored[k].index == k
    ensures SecondaryByPosition(Probs(scored), primary) == SecondaryFindings(scored, primary)
  {
    var probs := Probs(scored);
    var a := SecondaryByPosition(probs, primary);
    var b := SecondaryFindings(scored, primary);
    forall c ensures c in a <==> c in b {
      if c in b {
        var k :| 0 <= k < |scored| && scored[k].index == c && c != primary && scored[k].prob > SecondaryThreshold;
        assert k == c && probs[c] == scored[c].prob;
      }
      if c in a {
        assert scored[c].index == c && probs[c] == scored[c].prob;
      }
    }
    AscendingSame(a, b);
  }

  /** Rejected words add no entries. */
  lemma {:induction false} ScoredSkipsRejected(sig: real -> real, words: seq<Option<int>>, m: nat, n: nat)
    requires m <= n <= |words|
    requires forall j :: m <= j < n ==> words[j].None?
    ensures Scored(sig, words, n) == Scored(sig, words, m)
    decreases n - m
  {
    if m < n {
      ScoredSkipsRejected(sig, words, m, n - 1);
    }
  }

  /** A rejected token shifts later probabilities to lower list positions,
      so listing by position reports the wrong conditions: with token 0
      rejected, tokens 1 and 2 both saturating at 1.0 and the rest rejected,
      token 1 is primary, and the report lists position 0 (which holds token
      1, the primary itself) as a secondary finding while leaving out
      token 2. */
  lemma SecondaryMisaligned(sig: real -> real)
    ensures var words := [None, Some(0x7FFF), Some(0x7FFF)] + seq(12, _ => None);
      var scored := Scored(sig, words, NumConditions);
      Select(scored) == Score(1, 1.0)
      && SecondaryByPosition(Probs(scored), 1) == [0]
      && SecondaryFindings(scored, 1) == [2]
  {
    MisalignedScored(sig);
    TwoSaturatedReport(Scored(sig, [None, Some(0x7FFF), Some(0x7FFF)] + seq(12, _ => None), NumConditions));
  }

  /** Tokens 1 and 2 give the only two entries, both at 1.0. */
  lemma MisalignedScored(sig: real -> real)
    ensures Scored(sig, [None, Some(0x7FFF), Some(0x7FFF)] + seq(12, _ => None), NumConditions)
      == [Score(1, 1.0), Score(2, 1.0)]
  {
    var words: seq<Option<int>> := [None, Some(0x7FFF), Some(0x7FFF)] + seq(12, _ => None);
    assert FixedToProbability(sig, 0x7FFF) == 1.0;
    ScoredSkipsRejected(sig, words, 3, NumConditions);
    assert Scored(sig, words, 1) == [];
    assert Scored(sig, words, 2) == [Score(1, 1.0)];
  }

  /** The report on those two entries, by position and by condition. */
  lemma TwoSaturatedReport(scored: seq<Score>)
    requires scored == [Score(1, 1.0), Score(2, 1.0)]
    ensures Ascending(scored)
    ensures Select(scored) == Score(1, 1.0)
    ensures SecondaryByPosition(Probs(scored), 1) == [0]
    ensures SecondaryFindings(scored, 1) == [2]
  {
    forall k, l | 0 <= k < l < |scored| ensures scored[k].index < scored[l].index {
      assert k == 0 && l == 1;
    }
    var first := scored[..1];
    assert first == [Score(1, 1.0)];
    assert Select(first) == Score(1, 1.0);
    assert Probs(scored) == [1.0, 1.0] by {
      assert Probs(first) == [1.0];
    }
    assert SecondaryByPosition([1.0, 1.0], 1) == [0] by {
      assert [1.0, 1.0][..1] == [1.0];
      assert SecondaryByPosition([1.0], 1) == [0];
    }
    assert SecondaryFindings(first, 1) == [];
  }

  /** The size groups of the report header, as written: a token is 8-bit if
      it has 2 characters or is `0x` plus 2 characters, 16-bit if it has 4
      characters or is `0x` plus 4, and 32-bit if it has 8 characters or is
      `0x` plus 8. */
  predicate In8BitGroup(h: string) { |h| == 2 || (StartsWith(h, "0x") && |h| == 4) }
  predicate In16BitGroup(h: string) { |h| == 4 || (StartsWith(h, "0x") && |h| == 6) }
  predicate In32BitGroup(h: string) { |h| == 8 || (StartsWith(h, "0x") && |h| == 10) }

  /** The three group sizes the header prints. */
  function GroupSizes(tokens: seq<string>): (sizes: (nat, nat, nat))
    ensures sizes.0 <= |tokens| && sizes.1 <= |tokens| && sizes.2 <= |tokens|
  {
    if |tokens| == 0 then (0, 0, 0)
    else
      var (a, b, c) := GroupSizes(tokens[..|tokens| - 1]);
      var h := tokens[|tokens| - 1];
      (a + (if In8BitGroup(h) then 1 else 0),
       b + (if In16BitGroup(h) then 1 else 0),
       c + (if In32BitGroup(h) then 1 else 0))
  }

  /** A prefixed byte such as `0xab` is counted both as 8-bit and as 16-bit,
      so the group sizes add up to more than the number of tokens. */
  lemma PrefixedByteCountedTwice()
    ensures In8BitGroup("0xab") && In16BitGroup("0xab")
    ensures GroupSizes(["0xab"]) == (1, 1, 0)
  {
    assert StartsWith("0xab", "0x");
    assert GroupSizes(["0xab"][..0]) == (0, 0, 0);
  }

  /** The number of hex digits of a token, not counting a `0x` prefix. */
  function DigitCount(h: string): nat {
    if StartsWith(h, "0x") then |h| - 2 else |h|
  }

  /** The size groups by digit count: 2, 4 or 8 digits. */
  function GroupSizesByDigits(tokens: seq<string>): (sizes: (nat, nat, nat))
    ensures sizes.0 + sizes.1 + sizes.2 <= |tokens|
  {
    if |tokens| == 0 then (0, 0, 0)
    else
      var (a, b, c) := GroupSizesByDigits(tokens[..|tokens| - 1]);
      var d := DigitCount(tokens[|tokens| - 1]);
      (a + (if d == 2 then 1 else 0), b + (if d == 4 then 1 else 0), c + (if d == 8 then 1 else 0))
  }

  /** Grouping by digit count puts `0xab` in the 8-bit group only, and agrees
      with the written grouping on tokens without a prefix. */
  lemma {:induction false} GroupSizesByDigitsAgree(tokens: seq<string>)
    requires forall k :: 0 <= k < |tokens| ==> !StartsWith(tokens[k], "0x")
    ensures GroupSizesByDigits(tokens) == GroupSizes(tokens)
  {
    if |tokens| > 0 {
      GroupSizesByDigitsAgree(tokens[..|tokens| - 1]);
    }
  }

  lemma PrefixedByteCountedOnce()
    ensures GroupSizesByDigits(["0xab"]) == (1, 0, 0)
  {
    assert StartsWith("0xab", "0x");
    assert GroupSizesByDigits(["0xab"][..0]) == (0, 0, 0);
  }

  /** The de-duplication loop of `main`: a token is kept when it is not yet in
      `seen`, and then added to it. The result keeps the first occurrence of
      each token, in order of first appearance. */
  method Dedup(tokens: seq<string>) returns (unique: seq<string>)
    ensures unique == KeepFirst(tokens)
    ensures NoDuplicates(unique)
    ensures forall i :: 0 <= i < |tokens| ==> tokens[i] in unique
    ensures forall k :: 0 <= k < |unique| ==> unique[k] in tokens
  {
    unique := [];
    var seen: set<string> := {};
    var i := 0;
    while i < |tokens|
      invariant 0 <= i <= |tokens|
      invariant unique == KeepFirst(tokens[..i])
      invariant forall x :: x in seen <==> x in unique
    {
      assert tokens[..i + 1][..i] == tokens[..i];
      var h := tokens[i];
      if h !in seen {
        unique := unique + [h];
        seen := seen + {h};
      }
      i := i + 1;
    }
    assert tokens[..|tokens|] == tokens;
  }

  /** Two strictly ascending lists with the same elements are equal. */
  lemma {:induction false} AscendingSame(a: seq<nat>, b: seq<nat>)
    requires forall k, l :: 0 <= k < l < |a| ==> a[k] < a[l]
    requires forall k, l :: 0 <= k < l < |b| ==> b[k] < b[l]
    requires forall c :: c in a <==> c in b
    ensures a == b
    decreases |a| + |b|
  {
    if |a| > 0 && |b| > 0 {
      assert a[0] == b[0] by {
        assert a[0] in b && b[0] in a;
        var j :| 0 <= j < |b| && b[j] == a[0];
        assert b[0] <= b[j];
        var i :| 0 <= i < |a| && a[i] == b[0];
        assert a[0] <= a[i];
      }
      forall c ensures c in a[1..] <==> c in b[1..] {
        if c in a[1..] { assert c > a[0] && c in b; }
        if c in b[1..] { assert c > b[0] && c in a; }
      }
      AscendingSame(a[1..], b[1..]);
      assert a == [a[0]] + a[1..] && b == [b[0]] + b[1..];
    } else if |a| > 0 {
      HeadIn(a);
      assert false;
    } else if |b| > 0 {
      HeadIn(b);
      assert false;
    }
  }

  lemma HeadIn(s: seq<nat>)
    requires |s| > 0
    ensures s[0] in s
  {
  }
}
