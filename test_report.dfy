/** The test-report generator: the disease key of a result file, the
    per-disease counts and accuracy, the grade bands of the text and HTML
    reports, the sorts by accuracy and the areas for improvement. */
module TestReport {
  import opened Text
  import opened Stats
  import opened TestRunner

  /** The disease key of a result file: its stem up to the first `_`
      (the whole stem when it has none). */
  function DiseaseKey(stem: string): string {
    Split(stem, "_")[0]
  }

  /** The key is a prefix of the stem without `_`, followed in the stem by
      `_` whenever it is shorter than the stem. */
  lemma DiseaseKeyIsPrefix(stem: string)
    ensures StartsWith(stem, DiseaseKey(stem)) && !Contains(DiseaseKey(stem), "_")
    ensures |DiseaseKey(stem)| < |stem| ==> stem[|DiseaseKey(stem)|] == '_'
  {
    SplitHead(stem, "_");
    SplitPiecesLackSeparator(stem, "_");
    match IndexOf(stem, "_")
    case Some(i) => assert OccursAt(stem, "_", i);
    case None =>
  }

  /** The key of `<disease>_<anything>` is the disease, when the disease
      has no `_` of its own. */
  lemma DiseaseKeyOf(disease: string, rest: string)
    requires forall j :: 0 <= j < |disease| ==> disease[j] != '_'
    ensures DiseaseKey(disease + "_" + rest) == disease
  {
    var stem := disease + "_" + rest;
    IndexFromChar(stem, '_', 0, |disease|);
    SplitHead(stem, "_");
    assert stem[..|disease|] == disease;
  }

  /** The files read by `load_test_results`, in the order the directory
      listing gives them: each file's stem and its list of test cases. A
      later file whose key is already present replaces the earlier one. */
  function LoadedOf(files: seq<(string, seq<TestResult>)>): map<string, seq<TestResult>> {
    if |files| == 0 then map[]
    else
      var (stem, cases) := files[|files| - 1];
      LoadedOf(files[..|files| - 1])[DiseaseKey(stem) := cases]
  }

  method LoadDiseaseResults(files: seq<(string, seq<TestResult>)>) returns (results: map<string, seq<TestResult>>)
    ensures results == LoadedOf(files)
  {
    results := map[];
    var i := 0;
    while i < |files|
      invariant 0 <= i <= |files|
      invariant results == LoadedOf(files[..i])
    {
      assert files[..i + 1][..i] == files[..i];
      var (stem, cases) := files[i];
      results := results[DiseaseKey(stem) := cases];
      i := i + 1;
    }
    assert files[..i] == files;
  }

  /** The keys are the keys of the files, and each key holds the test cases
      of the last file with that key. */
  lemma LoadedOfLastWins(files: seq<(string, seq<TestResult>)>)
    ensures forall k :: k in LoadedOf(files) <==> exists i :: 0 <= i < |files| && DiseaseKey(files[i].0) == k
    ensures forall i :: 0 <= i < |files| && (forall j :: i < j < |files| ==> DiseaseKey(files[j].0) != DiseaseKey(files[i].0)) ==>
      LoadedOf(files)[DiseaseKey(files[i].0)] == files[i].1
  {
    forall k ensures k in LoadedOf(files) <==> exists i :: 0 <= i < |files| && DiseaseKey(files[i].0) == k {
      if k in LoadedOf(files) {
        LoadedKeyFrom(files, k);
      }
      if exists i :: 0 <= i < |files| && DiseaseKey(files[i].0) == k {
        var i :| 0 <= i < |files| && DiseaseKey(files[i].0) == k;
        KeyLoaded(files, i);
      }
    }
    forall i | 0 <= i < |files| && (forall j :: i < j < |files| ==> DiseaseKey(files[j].0) != DiseaseKey(files[i].0))
      ensures LoadedOf(files)[DiseaseKey(files[i].0)] == files[i].1
    {
      LastWins(files, i);
    }
  }

  lemma {:induction false} KeyLoaded(files: seq<(string, seq<TestResult>)>, i: nat)
    requires i < |files|
    ensures DiseaseKey(files[i].0) in LoadedOf(files)
  {
    if i < |files| - 1 {
      var init := files[..|files| - 1];
      assert init[i] == files[i];
      KeyLoaded(init, i);
    }
  }

  lemma {:induction false} LoadedKeyFrom(files: seq<(string, seq<TestResult>)>, k: string)
    requires k in LoadedOf(files)
    ensures exists i :: 0 <= i < |files| && DiseaseKey(files[i].0) == k
  {
    var last := |files| - 1;
    if k != DiseaseKey(files[last].0) {
      var init := files[..last];
      LoadedKeyFrom(init, k);
      var i :| 0 <= i < |init| && DiseaseKey(init[i].0) == k;
      assert init[i] == files[i];
    }
  }

  lemma {:induction false} LastWins(files: seq<(string, seq<TestResult>)>, i: nat)
    requires i < |files|
    requires forall j :: i < j < |files| ==> DiseaseKey(files[j].0) != DiseaseKey(files[i].0)
    ensures DiseaseKey(files[i].0) in LoadedOf(files) && LoadedOf(files)[DiseaseKey(files[i].0)] == files[i].1
  {
    if i < |files| - 1 {
      var init := files[..|files| - 1];
      assert init[i] == files[i];
      assert forall j :: i < j < |init| ==> init[j] == files[j];
      LastWins(init, i);
    }
  }

  /** The loop of the chart code over the diseases: correct and incorrect
      counts per disease, in order. */
  method CountOutcomes(groups: seq<seq<TestResult>>) returns (correctCounts: seq<int>, incorrectCounts: seq<int>)
    ensures |correctCounts| == |incorrectCounts| == |groups|
    ensures forall k :: 0 <= k < |groups| ==> correctCounts[k] == CorrectOf(groups[k])
    ensures forall k :: 0 <= k < |groups| ==> 0 <= incorrectCounts[k] && correctCounts[k] + incorrectCounts[k] == |groups[k]|
  {
    correctCounts, incorrectCounts := [], [];
    var i := 0;
    while i < |groups|
      invariant 0 <= i <= |groups|
      invariant |correctCounts| == |incorrectCounts| == i
      invariant forall k :: 0 <= k < i ==> correctCounts[k] == CorrectOf(groups[k])
      invariant forall k :: 0 <= k < i ==> 0 <= incorrectCounts[k] && correctCounts[k] + incorrectCounts[k] == |groups[k]|
    {
      var correct := CorrectOf(groups[i]);
      var incorrect := |groups[i]| - correct;
      correctCounts := correctCounts + [correct];
      incorrectCounts := incorrectCounts + [incorrect];
      i := i + 1;
    }
  }

  // The grade bands.

  datatype Grade = Excellent | Good | Fair | Poor

  function GradeRank(g: Grade): nat {
    match g
    case Poor => 0
    case Fair => 1
    case Good => 2
    case Excellent => 3
  }

  function GradeOf(accuracy: real): Grade {
    if accuracy >= 0.9 then Excellent
    else if accuracy >= 0.7 then Good
    else if accuracy >= 0.5 then Fair
    else Poor
  }

  const GradeThresholds: seq<real> := [0.5, 0.7, 0.9]

  /** The grade is the number of the thresholds 0.5, 0.7 and 0.9 the
      accuracy reaches: the bands cover every accuracy and do not overlap. */
  lemma GradeByThresholds(accuracy: real)
    ensures GradeRank(GradeOf(accuracy)) == Reached(GradeThresholds, accuracy)
  {
    ReachedSnoc([], 0.5, accuracy);
    assert [] + [0.5] == [0.5];
    ReachedSnoc([0.5], 0.7, accuracy);
    assert [0.5] + [0.7] == [0.5, 0.7];
    ReachedSnoc([0.5, 0.7], 0.9, accuracy);
    assert [0.5, 0.7] + [0.9] == GradeThresholds;
  }

  /** A higher accuracy never gets a lower grade. */
  lemma GradeMonotone(a: real, b: real)
    requires a <= b
    ensures GradeRank(GradeOf(a)) <= GradeRank(GradeOf(b))
  {
    GradeByThresholds(a);
    GradeByThresholds(b);
    ReachedMonotone(GradeThresholds, a, b);
  }

  /** The notes column of the text report. */
  function TextNote(accuracy: real): string {
    if accuracy >= 0.9 then "Excellent"
    else if accuracy >= 0.7 then "Good"
    else if accuracy >= 0.5 then "Fair"
    else "Poor - Needs improvement"
  }

  /** The assessment column of the HTML table. */
  function HtmlAssessment(accuracy: real): string {
    if accuracy >= 0.9 then "<span class=\"good\">Excellent</span>"
    else if accuracy >= 0.7 then "<span class=\"fair\">Good</span>"
    else if accuracy >= 0.5 then "<span class=\"fair\">Fair</span>"
    else "<span class=\"poor\">Poor</span>"
  }

  /** The performance assessment of the HTML summary, on the overall
      accuracy: its grade label. */
  function OverallAssessment(accuracy: real): string {
    if accuracy >= 0.9 then "Excellent"
    else if accuracy >= 0.7 then "Good"
    else if accuracy >= 0.5 then "Fair"
    else "Poor"
  }

  /** The three paths grade alike: two accuracies get the same text note
      exactly when they get the same HTML assessment, exactly when they get
      the same overall assessment, exactly when they have the same grade. */
  lemma SameBands(a: real, b: real)
    ensures TextNote(a) == TextNote(b) <==> GradeOf(a) == GradeOf(b)
    ensures HtmlAssessment(a) == HtmlAssessment(b) <==> GradeOf(a) == GradeOf(b)
    ensures OverallAssessment(a) == OverallAssessment(b) <==> GradeOf(a) == GradeOf(b)
  {
    assert "Excellent" != "Good" && "Excellent" != "Fair" && "Good" != "Fair";
    assert "Poor - Needs improvement" != "Excellent" && "Poor - Needs improvement" != "Good" && "Poor - Needs improvement" != "Fair";
    assert "Poor" != "Excellent" && "Poor" != "Good" && "Poor" != "Fair";
    assert "<span class=\"good\">Excellent</span>"[13] == 'g';
    assert "<span class=\"fair\">Good</span>"[13] == 'f' && "<span class=\"poor\">Poor</span>"[13] == 'p';
    assert |"<span class=\"fair\">Good</span>"| != |"<span class=\"fair\">Fair</span>"| || "<span class=\"fair\">Good</span>"[19] != "<span class=\"fair\">Fair</span>"[19];
  }

  // The sorts by accuracy and the areas for improvement.

  /** One entry of `results_by_disease` in the summary. */
  datatype DiseaseStats = DiseaseStats(disease: string, accuracy: real, correct: nat, total: nat)

  /** Whether `a` may come before `b`: not less accurate when descending,
      not more accurate when ascending. */
  predicate Precedes(a: DiseaseStats, b: DiseaseStats, descending: bool) {
    if descending then a.accuracy >= b.accuracy else a.accuracy <= b.accuracy
  }

  predicate SortedBy(s: seq<DiseaseStats>, descending: bool) {
    forall i, j :: 0 <= i < j < |s| ==> Precedes(s[i], s[j], descending)
  }

  /** Places `x` before the first entry it may precede. */
  function Insert(x: DiseaseStats, s: seq<DiseaseStats>, descending: bool): (r: seq<DiseaseStats>)
    requires SortedBy(s, descending)
    ensures SortedBy(r, descending)
    ensures multiset(r) == multiset(s) + multiset{x}
  {
    if |s| == 0 || Precedes(x, s[0], descending) then [x] + s
    else
      var t := Insert(x, s[1..], descending);
      InsertStep(x, s, t, descending);
      [s[0]] + t
  }

  /** Putting the first entry back in front of the insertion into the rest
      keeps the order. */
  lemma InsertStep(x: DiseaseStats, s: seq<DiseaseStats>, t: seq<DiseaseStats>, descending: bool)
    requires |s| > 0 && SortedBy(s, descending) && !Precedes(x, s[0], descending)
    requires SortedBy(t, descending) && multiset(t) == multiset(s[1..]) + multiset{x}
    ensures SortedBy([s[0]] + t, descending)
    ensures multiset([s[0]] + t) == multiset(s) + multiset{x}
  {
    assert s == [s[0]] + s[1..];
    forall k | 0 <= k < |t| ensures Precedes(s[0], t[k], descending) {
      assert t[k] in multiset(t);
      if t[k] != x {
        assert t[k] in multiset(s[1..]);
        var j :| 0 <= j < |s[1..]| && s[1..][j] == t[k];
        assert s[j + 1] == t[k];
      }
    }
  }

  /** `sorted(items, key=accuracy, reverse=descending)`: the entries,
      ordered by accuracy. */
  function SortByAccuracy(items: seq<DiseaseStats>, descending: bool): (r: seq<DiseaseStats>)
    ensures SortedBy(r, descending)
    ensures multiset(r) == multiset(items) && |r| == |items|
  {
    if |items| == 0 then []
    else
      assert items == [items[0]] + items[1..];
      Insert(items[0], SortByAccuracy(items[1..], descending), descending)
  }

  /** The three least accurate entries (fewer when there are fewer). */
  function WorstThree(items: seq<DiseaseStats>): seq<DiseaseStats> {
    var s := SortByAccuracy(items, false);
    s[..if |s| < 3 then |s| else 3]
  }

  /** The entries that are not among the worst three. */
  function AfterWorstThree(items: seq<DiseaseStats>): seq<DiseaseStats> {
    var s := SortByAccuracy(items, false);
    s[if |s| < 3 then |s| else 3..]
  }

  /** The entries listed under "Areas for Improvement": those of the worst
      three below 0.7, in order. */
  function AreasForImprovement(worst: seq<DiseaseStats>): (areas: seq<DiseaseStats>) {
    if |worst| == 0 then []
    else
      var last := worst[|worst| - 1];
      AreasForImprovement(worst[..|worst| - 1]) + (if last.accuracy < 0.7 then [last] else [])
  }

  lemma {:induction false} AreasAreBelow(worst: seq<DiseaseStats>)
    ensures |AreasForImprovement(worst)| <= |worst|
    ensures forall k :: 0 <= k < |AreasForImprovement(worst)| ==>
      AreasForImprovement(worst)[k] in worst && AreasForImprovement(worst)[k].accuracy < 0.7
    ensures forall k :: 0 <= k < |worst| && worst[k].accuracy < 0.7 ==> worst[k] in AreasForImprovement(worst)
  {
    if |worst| > 0 {
      var init := worst[..|worst| - 1];
      AreasAreBelow(init);
      assert forall k :: 0 <= k < |init| ==> init[k] == worst[k];
    }
  }

  /** The areas for improvement: at most three entries, each below 0.7;
      they are drawn from three entries that, with the rest, make up all
      the entries, and no entry of the rest is less accurate than any of
      the three. */
  lemma AreasForImprovementSpec(items: seq<DiseaseStats>)
    ensures var areas, worst, rest := AreasForImprovement(WorstThree(items)), WorstThree(items), AfterWorstThree(items);
      |areas| <= 3 &&
      (forall k :: 0 <= k < |areas| ==> areas[k] in worst && areas[k].accuracy < 0.7) &&
      (forall k :: 0 <= k < |worst| && worst[k].accuracy < 0.7 ==> worst[k] in areas) &&
      multiset(worst) + multiset(rest) == multiset(items) &&
      (forall i, j :: 0 <= i < |worst| && 0 <= j < |rest| ==> worst[i].accuracy <= rest[j].accuracy)
  {
    var s := SortByAccuracy(items, false);
    var m := if |s| < 3 then |s| else 3;
    AreasAreBelow(WorstThree(items));
    assert s == s[..m] + s[m..];
    forall i, j | 0 <= i < m && 0 <= j < |s| - m ensures s[..m][i].accuracy <= s[m..][j].accuracy {
      assert Precedes(s[i], s[m + j], false);
    }
  }
}
