/** The emergency-results analyser: a store of parsed test records with the
    textual report (overall accuracy, rating, per-disease tally, confidence
    statistics), the 15 by 15 confusion matrix and the per-record score
    variances. */
module Emergency {
  import opened Text
  import opened Seqs
  import opened Stats

  const NumClasses: nat := 15

  /** One parsed test record. Class numbers, the confidence and the scores
      are read with `\d+`, so none is negative. */
  datatype TestResult = TestResult(
    testId: nat,
    diseaseName: string,
    expectedClass: nat,
    predictedClass: nat,
    correct: bool,
    confidence: nat,
    scores: seq<nat>)

  /** `sum(1 for r in results if r['correct'])`. */
  function CorrectCount(rs: seq<TestResult>): (n: nat)
    ensures n <= |rs|
  {
    if |rs| == 0 then 0
    else CorrectCount(rs[..|rs| - 1]) + (if rs[|rs| - 1].correct then 1 else 0)
  }

  /** A percentage with the zero guard: `correct / total * 100` when there
      are records, 0 otherwise. */
  function AccuracyPercent(correct: nat, total: nat): real {
    if total > 0 then correct as real / total as real * 100.0 else 0.0
  }

  /** The accuracy lies in [0, 100], is 0 with no records, and is 100 exactly
      when every record is correct. */
  lemma AccuracyRange(correct: nat, total: nat)
    requires correct <= total
    ensures 0.0 <= AccuracyPercent(correct, total) <= 100.0
    ensures total == 0 ==> AccuracyPercent(correct, total) == 0.0
    ensures total > 0 ==> (AccuracyPercent(correct, total) == 100.0 <==> correct == total)
  {
    if total > 0 {
      var q := correct as real / total as real;
      assert q * total as real == correct as real;
      assert q <= 1.0;
    }
  }

  datatype Rating = Excellent | Good | NeedsImprovement

  /** The rating line: strictly above 90 is excellent, strictly above 70
      good, anything else needs improvement. */
  function RatingOf(accuracy: real): (r: Rating)
    ensures r == Excellent <==> accuracy > 90.0
    ensures r == Good <==> 70.0 < accuracy <= 90.0
    ensures r == NeedsImprovement <==> accuracy <= 70.0
  {
    if accuracy > 90.0 then Excellent else if accuracy > 70.0 then Good else NeedsImprovement
  }

  /** The disease names of the records, in order. */
  function Names(rs: seq<TestResult>): (names: seq<string>)
    ensures |names| == |rs|
    ensures forall k :: 0 <= k < |rs| ==> names[k] == rs[k].diseaseName
  {
    if |rs| == 0 then [] else Names(rs[..|rs| - 1]) + [rs[|rs| - 1].diseaseName]
  }

  /** How many records are of disease `d`. */
  function TotalFor(rs: seq<TestResult>, d: string): nat {
    if |rs| == 0 then 0
    else TotalFor(rs[..|rs| - 1], d) + (if rs[|rs| - 1].diseaseName == d then 1 else 0)
  }

  /** How many records of disease `d` are correct. */
  function CorrectFor(rs: seq<TestResult>, d: string): nat {
    if |rs| == 0 then 0
    else CorrectFor(rs[..|rs| - 1], d) + (if rs[|rs| - 1].diseaseName == d && rs[|rs| - 1].correct then 1 else 0)
  }

  lemma {:induction false} CorrectWithinTotal(rs: seq<TestResult>, d: string)
    ensures CorrectFor(rs, d) <= TotalFor(rs, d)
  {
    if |rs| > 0 { CorrectWithinTotal(rs[..|rs| - 1], d); }
  }

  /** The records of disease `d` are the occurrences of `d` among the names. */
  lemma {:induction false} TotalForIsCount(rs: seq<TestResult>, d: string)
    ensures TotalFor(rs, d) == Count(Names(rs), d)
  {
    if |rs| > 0 {
      TotalForIsCount(rs[..|rs| - 1], d);
      assert Names(rs)[..|rs| - 1] == Names(rs[..|rs| - 1]);
    }
  }

  /** A per-disease counter pair. */
  datatype Perf = Perf(correct: nat, total: nat)

  /** The tally after the records `rs`: diseases in order of first
      appearance, each with its correct and total counts. */
  ghost predicate IsTally(rs: seq<TestResult>, order: seq<string>, perf: map<string, Perf>) {
    order == KeepFirst(Names(rs))
    && (forall d :: d in perf <==> d in order)
    && (forall d :: d in perf ==> perf[d] == Perf(CorrectFor(rs, d), TotalFor(rs, d)))
  }

  /** One more record: its disease is appended to the order when new, and
      its counters go up. */
  /** One step of the tally loop: a disease seen for the first time is
      appended to the order with zeroed counters, then its total, and its
      correct count when the record is correct, go up by one. */
  function Record(order: seq<string>, perf: map<string, Perf>, r: TestResult): (seq<string>, map<string, Perf>) {
    var d := r.diseaseName;
    var started := if d in perf then perf else perf[d := Perf(0, 0)];
    (if d in perf then order else order + [d],
     started[d := Perf(started[d].correct + (if r.correct then 1 else 0), started[d].total + 1)])
  }

  /** The tally the loop builds. */
  function TallyOf(rs: seq<TestResult>): (seq<string>, map<string, Perf>) {
    if |rs| == 0 then ([], map[])
    else
      var (order, perf) := TallyOf(rs[..|rs| - 1]);
      Record(order, perf, rs[|rs| - 1])
  }

  /** The tally the loop builds is the tally by first appearance. */
  lemma {:induction false} TallyOfIsTally(rs: seq<TestResult>)
    ensures IsTally(rs, TallyOf(rs).0, TallyOf(rs).1)
  {
    if |rs| > 0 {
      var init, r := rs[..|rs| - 1], rs[|rs| - 1];
      TallyOfIsTally(init);
      assert rs == init + [r];
      TallyStep(init, r, TallyOf(init).0, TallyOf(init).1);
    }
  }

  /** Recording one more record keeps the tally. */
  lemma TallyStep(rs: seq<TestResult>, r: TestResult, order: seq<string>, perf: map<string, Perf>)
    requires IsTally(rs, order, perf)
    ensures IsTally(rs + [r], Record(order, perf, r).0, Record(order, perf, r).1)
  {
    TallyOrderStep(rs, r, order, perf);
    assert r.diseaseName !in perf ==> r.diseaseName !in Names(rs);
    TallyCountersStep(rs, r, order, perf);
  }

  lemma TallyOrderStep(rs: seq<TestResult>, r: TestResult, order: seq<string>, perf: map<string, Perf>)
    requires order == KeepFirst(Names(rs))
    requires forall d :: d in perf <==> d in order
    ensures Record(order, perf, r).0 == KeepFirst(Names(rs + [r]))
    ensures forall d :: d in Record(order, perf, r).1 <==> d in Record(order, perf, r).0
  {
    NamesSnoc(rs, r);
    KeepFirstSnoc(Names(rs), r.diseaseName);
  }

  lemma TallyCountersStep(rs: seq<TestResult>, r: TestResult, order: seq<string>, perf: map<string, Perf>)
    requires forall d :: d in perf ==> perf[d] == Perf(CorrectFor(rs, d), TotalFor(rs, d))
    requires r.diseaseName !in perf ==> r.diseaseName !in Names(rs)
    ensures var perf' := Record(order, perf, r).1;
      forall d :: d in perf' ==> perf'[d] == Perf(CorrectFor(rs + [r], d), TotalFor(rs + [r], d))
  {
    var d := r.diseaseName;
    var rs' := rs + [r];
    var perf' := Record(order, perf, r).1;
    assert perf'[d] == Perf(CorrectFor(rs', d), TotalFor(rs', d)) by {
      assert rs'[..|rs|] == rs;
      if d !in perf {
        TotalForIsCount(rs, d);
        CorrectWithinTotal(rs, d);
      }
    }
    forall x | x in perf' && x != d
      ensures perf'[x] == Perf(CorrectFor(rs', x), TotalFor(rs', x))
    {
      assert perf'[x] == perf[x];
      CountersSnoc(rs, r, x);
    }
  }

  lemma CountersSnoc(rs: seq<TestResult>, r: TestResult, x: string)
    requires r.diseaseName != x
    ensures CorrectFor(rs + [r], x) == CorrectFor(rs, x) && TotalFor(rs + [r], x) == TotalFor(rs, x)
  {
    assert (rs + [r])[..|rs|] == rs;
  }

  lemma NamesSnoc(rs: seq<TestResult>, r: TestResult)
    ensures Names(rs + [r]) == Names(rs) + [r.diseaseName]
  {
    assert (rs + [r])[..|rs|] == rs;
  }

  /** The totals of the tallied diseases, added up in tally order. */
  function SumTotals(order: seq<string>, perf: map<string, Perf>): nat
    requires forall k :: 0 <= k < |order| ==> order[k] in perf
  {
    if |order| == 0 then 0 else SumTotals(order[..|order| - 1], perf) + perf[order[|order| - 1]].total
  }

  lemma {:induction false} SumTotalsIsCounts(keys: seq<string>, rs: seq<TestResult>, perf: map<string, Perf>)
    requires forall k :: 0 <= k < |keys| ==> keys[k] in perf && perf[keys[k]].total == TotalFor(rs, keys[k])
    ensures SumTotals(keys, perf) == CountsOf(keys, Names(rs))
  {
    if |keys| > 0 {
      SumTotalsIsCounts(keys[..|keys| - 1], rs, perf);
      TotalForIsCount(rs, keys[|keys| - 1]);
    }
  }

  /** The per-disease totals add up to the number of records, and each
      disease in the tally has at least one record and no more correct
      records than records, so its accuracy division is safe. */
  lemma TallyTotals(rs: seq<TestResult>, order: seq<string>, perf: map<string, Perf>)
    requires IsTally(rs, order, perf)
    ensures forall k :: 0 <= k < |order| ==> order[k] in perf
    ensures SumTotals(order, perf) == |rs|
    ensures forall d :: d in perf ==> 1 <= perf[d].total && perf[d].correct <= perf[d].total
  {
    SumTotalsIsCounts(order, rs, perf);
    CountsOfKeepFirst(Names(rs));
    forall d | d in perf ensures 1 <= perf[d].total && perf[d].correct <= perf[d].total {
      TotalForIsCount(rs, d);
      CorrectWithinTotal(rs, d);
    }
  }

  /** The summary statistics of the confidences. */
  datatype ConfidenceStats = ConfidenceStats(average: real, minimum: real, maximum: real, variance: real)

  function Confidences(rs: seq<TestResult>): (cs: seq<real>)
    ensures |cs| == |rs| && forall k :: 0 <= k < |rs| ==> cs[k] == rs[k].confidence as real
  {
    seq(|rs|, k requires 0 <= k < |rs| => rs[k].confidence as real)
  }

  /** The confidence analysis, computed only when there are records. */
  function ConfidenceAnalysis(rs: seq<TestResult>): Option<ConfidenceStats> {
    if |rs| == 0 then None
    else
      var cs := Confidences(rs);
      Some(ConfidenceStats(Mean(cs), Minimum(cs), Maximum(cs), Variance(cs)))
  }

  /** When there are records: minimum <= average <= maximum and the variance
      is not negative; with none there is no analysis. */
  lemma ConfidenceAnalysisOrdered(rs: seq<TestResult>)
    ensures ConfidenceAnalysis(rs).None? <==> |rs| == 0
    ensures ConfidenceAnalysis(rs).Some? ==>
      var s := ConfidenceAnalysis(rs).value;
      s.minimum <= s.average <= s.maximum && s.variance >= 0.0
  {
    if |rs| > 0 {
      MeanBetween(Confidences(rs));
      VarianceNonNegative(Confidences(rs));
    }
  }

  /** The textual report's figures. */
  datatype Report = Report(
    total: nat,
    correct: nat,
    incorrect: int,
    accuracy: real,
    rating: Rating,
    order: seq<string>,
    performance: map<string, Perf>,
    confidence: Option<ConfidenceStats>)

  /** The records of `expected` class `e` predicted as class `p`. */
  function CellCount(rs: seq<TestResult>, e: nat, p: nat): nat {
    if |rs| == 0 then 0
    else
      var r := rs[|rs| - 1];
      CellCount(rs[..|rs| - 1], e, p) + (if r.expectedClass == e && r.predictedClass == p then 1 else 0)
  }

  /** The records of expected class `e`. */
  function ExpectedCount(rs: seq<TestResult>, e: nat): nat {
    if |rs| == 0 then 0
    else ExpectedCount(rs[..|rs| - 1], e) + (if rs[|rs| - 1].expectedClass == e then 1 else 0)
  }

  /** The first `k` cells of row `e`, added up. */
  function RowSum(rs: seq<TestResult>, e: nat, k: nat): nat {
    if k == 0 then 0 else RowSum(rs, e, k - 1) + CellCount(rs, e, k - 1)
  }

  /** The first `k` full rows, added up. */
  function MatrixSum(rs: seq<TestResult>, k: nat): nat {
    if k == 0 then 0 else MatrixSum(rs, k - 1) + RowSum(rs, k - 1, NumClasses)
  }

  predicate InRange(rs: seq<TestResult>) {
    forall k :: 0 <= k < |rs| ==> rs[k].expectedClass < NumClasses && rs[k].predictedClass < NumClasses
  }

  /** One more record adds one to the first `k` cells of its row when its
      predicted class is among them. */
  lemma {:induction false} RowSumSnoc(rs: seq<TestResult>, r: TestResult, e: nat, k: nat)
    ensures RowSum(rs + [r], e, k) == RowSum(rs, e, k) + (if r.expectedClass == e && r.predictedClass < k then 1 else 0)
  {
    if k > 0 {
      RowSumSnoc(rs, r, e, k - 1);
      assert (rs + [r])[..|rs|] == rs;
    }
  }

  /** Row `e` of the matrix holds every record of expected class `e`. */
  lemma {:induction false} RowSumEmpty(e: nat, k: nat)
    ensures RowSum([], e, k) == 0
  {
    if k > 0 { RowSumEmpty(e, k - 1); }
  }

  lemma {:induction false} MatrixSumEmpty(k: nat)
    ensures MatrixSum([], k) == 0
  {
    if k > 0 {
      MatrixSumEmpty(k - 1);
      RowSumEmpty(k - 1, NumClasses);
    }
  }

  lemma {:induction false} RowSumIsExpectedCount(rs: seq<TestResult>, e: nat)
    requires InRange(rs)
    ensures RowSum(rs, e, NumClasses) == ExpectedCount(rs, e)
  {
    if |rs| > 0 {
      var init, r := rs[..|rs| - 1], rs[|rs| - 1];
      assert rs == init + [r];
      RowSumIsExpectedCount(init, e);
      RowSumSnoc(init, r, e, NumClasses);
    } else {
      RowSumEmpty(e, NumClasses);
    }
  }

  /** One more record adds one to the first `k` rows when its expected class
      is among them. */
  lemma {:induction false} MatrixSumSnoc(rs: seq<TestResult>, r: TestResult, k: nat)
    requires r.predictedClass < NumClasses
    ensures MatrixSum(rs + [r], k) == MatrixSum(rs, k) + (if r.expectedClass < k then 1 else 0)
  {
    if k > 0 {
      MatrixSumSnoc(rs, r, k - 1);
      RowSumSnoc(rs, r, k - 1, NumClasses);
    }
  }

  /** The cells of the matrix add up to the number of records. */
  lemma {:induction false} MatrixSumIsCount(rs: seq<TestResult>)
    requires InRange(rs)
    ensures MatrixSum(rs, NumClasses) == |rs|
  {
    if |rs| > 0 {
      var init, r := rs[..|rs| - 1], rs[|rs| - 1];
      assert rs == init + [r];
      MatrixSumIsCount(init);
      MatrixSumSnoc(init, r, NumClasses);
    } else {
      MatrixSumEmpty(NumClasses);
    }
  }

  /** The analyser's state: the parsed records and the non-empty score
      lists among them. */
  class ResultsAnalyzer {
    var results: seq<TestResult>
    var scoresData: seq<seq<nat>>

    /** Only non-empty score lists are stored. */
    ghost predicate Valid()
      reads this
    {
      forall k :: 0 <= k < |scoresData| ==> |scoresData[k]| > 0
    }

    constructor ()
      ensures results == [] && scoresData == [] && Valid()
    {
      results := [];
      scoresData := [];
    }

    /** Storing one parsed record: it is appended to `results`, and its
        scores to `scoresData` when there are any. */
    method AddResult(r: TestResult)
      requires Valid()
      modifies this
      ensures Valid()
      ensures results == old(results) + [r]
      ensures scoresData == old(scoresData) + (if |r.scores| > 0 then [r.scores] else [])
    {
      results := results + [r];
      if |r.scores| > 0 {
        scoresData := scoresData + [r.scores];
      }
    }

    /** The per-disease loop of `generate_textual_report`: a disease gets a
        zeroed entry when first seen, then its total, and its correct count
        when the record is correct, go up by one. */
    method DiseasePerformance() returns (order: seq<string>, perf: map<string, Perf>)
      ensures (order, perf) == TallyOf(results)
      ensures IsTally(results, order, perf)
    {
      order, perf := [], map[];
      var i := 0;
      while i < |results|
        invariant 0 <= i <= |results|
        invariant (order, perf) == TallyOf(results[..i])
      {
        var r := results[i];
        assert results[..i + 1][..i] == results[..i];
        var disease := r.diseaseName;
        if disease !in perf {
          perf := perf[disease := Perf(0, 0)];
          order := order + [disease];
        }
        var p := perf[disease];
        perf := perf[disease := Perf(p.correct + (if r.correct then 1 else 0), p.total + 1)];
        i := i + 1;
      }
      assert results[..|results|] == results;
      TallyOfIsTally(results);
    }

    /** `generate_textual_report`: totals, the guarded accuracy and its
        rating, one block per record naming its expected and predicted
        classes, the per-disease tally and the confidence analysis. `None`
        stands for the `IndexError` of a class number outside 0..14, whose
        name the record block looks up. */
    method GenerateTextualReport() returns (report: Option<Report>)
      ensures report.None? <==> !InRange(results)
      ensures report.Some? ==> report.value.total == |results| && report.value.correct == CorrectCount(results)
      ensures report.Some? ==> report.value.incorrect == report.value.total - report.value.correct >= 0
      ensures report.Some? ==> report.value.accuracy == AccuracyPercent(report.value.correct, report.value.total)
      ensures report.Some? ==> report.value.rating == RatingOf(report.value.accuracy)
      ensures report.Some? ==> IsTally(results, report.value.order, report.value.performance)
      ensures report.Some? ==> report.value.confidence == ConfidenceAnalysis(results)
    {
      var total := |results|;
      var correct := CorrectCount(results);
      var accuracy := AccuracyPercent(correct, total);
      var i := 0;
      while i < |results|
        invariant 0 <= i <= |results|
        invariant forall k :: 0 <= k < i ==> results[k].expectedClass < NumClasses && results[k].predictedClass < NumClasses
      {
        if results[i].expectedClass >= NumClasses || results[i].predictedClass >= NumClasses {
          return None;
        }
        i := i + 1;
      }
      var order, perf := DiseasePerformance();
      report := Some(Report(total, correct, total - correct, accuracy, RatingOf(accuracy), order, perf,
        ConfidenceAnalysis(results)));
    }

    /** `create_confusion_matrix`: nothing without records; otherwise a
        zeroed 15 by 15 matrix, then one increment of cell
        [expected][predicted] per record. `None` also stands for the
        `IndexError` of a class number outside 0..14. */
    method ConfusionMatrix() returns (m: Option<array2<nat>>)
      ensures m.None? <==> |results| == 0 || !InRange(results)
      ensures m.Some? ==> fresh(m.value) && m.value.Length0 == NumClasses && m.value.Length1 == NumClasses
      ensures m.Some? ==> forall e, p :: 0 <= e < NumClasses && 0 <= p < NumClasses ==>
        m.value[e, p] == CellCount(results, e, p)
    {
      if |results| == 0 {
        return None;
      }
      var a := new nat[NumClasses, NumClasses]((e, p) => 0);
      var i := 0;
      while i < |results|
        invariant 0 <= i <= |results|
        invariant forall k :: 0 <= k < i ==> results[k].expectedClass < NumClasses && results[k].predictedClass < NumClasses
        invariant forall e, p :: 0 <= e < NumClasses && 0 <= p < NumClasses ==> a[e, p] == CellCount(results[..i], e, p)
      {
        var r := results[i];
        if r.expectedClass >= NumClasses || r.predictedClass >= NumClasses {
          return None;
        }
        assert results[..i + 1][..i] == results[..i];
        a[r.expectedClass, r.predictedClass] := a[r.expectedClass, r.predictedClass] + 1;
        i := i + 1;
      }
      assert results[..|results|] == results;
      m := Some(a);
    }

    /** The score-variance loop: one population variance per stored score
        list; none of them is empty, so no division is by zero. */
    method ScoreVariances() returns (variances: seq<real>)
      requires Valid()
      ensures |variances| == |scoresData|
      ensures forall k :: 0 <= k < |scoresData| ==> variances[k] == Variance(ToReals(scoresData[k]))
    {
      variances := [];
      var i := 0;
      while i < |scoresData|
        invariant 0 <= i <= |scoresData|
        invariant |variances| == i
        invariant forall k :: 0 <= k < i ==> variances[k] == Variance(ToReals(scoresData[k]))
      {
        var xs := ToReals(scoresData[i]);
        var mean := Sum(xs) / |xs| as real;
        variances := variances + [SquaredDeviations(xs, mean) / |xs| as real];
        i := i + 1;
      }
    }
  }
}
