/** The disease test runner: the disease and case of a test file's name,
    the scan of the analysis script's output for the detected disease and
    its confidence, the result record of one test with its correctness,
    and the overall summary over all diseases. The simulator and the
    analysis script are not run here: what they produced is a parameter. */
module TestRunner {
  import opened Text
  import opened Stats

  /** The disease keys the runner iterates over, in their table order. */
  const DiseaseKeys: seq<string> := ["normal", "pneumonia", "pneumothorax", "atelectasis", "effusion",
    "cardiomegaly", "nodule", "mass", "consolidation", "emphysema"]

  // File names.

  /** `os.path.basename(p)`: the longest suffix of `p` without `/`. */
  function Basename(p: string): (b: string)
    ensures |b| <= |p| && b == p[|p| - |b|..]
    ensures forall j :: 0 <= j < |b| ==> b[j] != '/'
    ensures |b| < |p| ==> p[|p| - |b| - 1] == '/'
  {
    if |p| == 0 || p[|p| - 1] == '/' then ""
    else Basename(p[..|p| - 1]) + [p[|p| - 1]]
  }

  /** The base name of `dir/name` is `name` when it has no `/` of its own. */
  lemma {:induction false} BasenameOf(dir: string, name: string)
    requires forall j :: 0 <= j < |name| ==> name[j] != '/'
    ensures Basename(dir + "/" + name) == name
  {
    if |name| > 0 {
      var init := name[..|name| - 1];
      BasenameOf(dir, init);
      assert (dir + "/" + name)[..|dir + "/" + name| - 1] == dir + "/" + init;
      assert init + [name[|name| - 1]] == name;
    }
  }

  /** The disease and the case of a test file's name: the disease is the
      name up to its first `_`, the case is what follows the first `_` once
      every `.mem` is removed. `None` stands for the `IndexError` raised
      when the name has no `_`. */
  function ParseTestFileName(filename: string): Option<(string, string)> {
    var stem := ReplaceAll(filename, ".mem", "");
    match IndexOf(stem, "_")
    case None => None
    case Some(i) => Some((Split(filename, "_")[0], stem[i + 1..]))
  }

  /** A name without `_` makes the runner fail before anything is run. */
  lemma NameWithoutUnderscoreFails(filename: string)
    requires forall j :: 0 <= j < |filename| ==> filename[j] != '_'
    ensures ParseTestFileName(filename) == None
  {
    ReplaceAllCharFree(filename, ".mem", "", '_');
    IndexFromNoChar(ReplaceAll(filename, ".mem", ""), '_', 0);
  }

  /** The names the test-case generator writes, `<disease>_<case>.mem`,
      read back as their disease and case. */
  lemma ParseTestFileNameRoundTrip(disease: string, info: string)
    requires forall j :: 0 <= j < |disease| ==> disease[j] != '_'
    requires !Contains(disease + "_" + info, ".mem")
    ensures ParseTestFileName(disease + "_" + info + ".mem") == Some((disease, info))
  {
    var x := disease + "_" + info;
    var filename := x + ".mem";
    SplitAtSuffix(x, ".mem");
    assert Split(filename, ".mem") == [x, ""];
    assert [x, ""][1..] == [""];
    assert Join([x, ""], "") == x + "" + "";
    assert ReplaceAll(filename, ".mem", "") == x;
    IndexFromChar(x, '_', 0, |disease|);
    assert x[|disease| + 1..] == info;
    IndexFromChar(filename, '_', 0, |disease|);
    SplitHead(filename, "_");
    assert filename[..|disease|] == disease;
  }

  // The scan of the analysis output.

  const DetectedMarker := "Detected:"
  const ConfidenceMarker := "Confidence:"

  /** `line.split(marker)[1].strip()` on a line holding the marker: the
      text between its first and second occurrence, stripped. */
  function After(line: string, marker: string): string
    requires |marker| > 0 && Contains(line, marker)
  {
    SplitHead(line, marker);
    Strip(Split(line, marker)[1])
  }

  /** Every character is a decimal digit; the empty string qualifies. */
  predicate AllDigits(s: string) {
    forall k :: 0 <= k < |s| ==> IsDigit(s[k])
  }

  function Pow10(k: nat): (p: nat)
    ensures p >= 1
  {
    if k == 0 then 1 else 10 * Pow10(k - 1)
  }

  /** `k` digits have a value below `10^k`. */
  lemma {:induction false} DigitsBelowPow10(f: string)
    requires AllDigits(f)
    ensures DigitsValue(f) < Pow10(|f|)
  {
    if |f| > 0 {
      var init := f[..|f| - 1];
      assert AllDigits(init);
      DigitsBelowPow10(init);
    }
  }

  /** The value of the digits after a decimal point, in [0, 1). */
  function FractionValue(f: string): (v: real)
    requires AllDigits(f)
    ensures 0.0 <= v < 1.0
  {
    DigitsBelowPow10(f);
    QuotientBounds(DigitsValue(f) as real, Pow10(|f|) as real, 0.0, 1.0);
    DigitsValue(f) as real / Pow10(|f|) as real
  }

  /** An unsigned decimal: digits with an optional fractional part, at
      least one digit in all. */
  function ParseUnsigned(u: string): Option<real> {
    match IndexOf(u, ".")
    case None => if IsDigits(u) then Some(DigitsValue(u) as real) else None
    case Some(i) =>
      var whole, fraction := u[..i], u[i + 1..];
      if |whole| + |fraction| > 0 && AllDigits(whole) && AllDigits(fraction)
      then Some(DigitsValue(whole) as real + FractionValue(fraction))
      else None
  }

  /** Python's `float(s)` on decimal notation: surrounding whitespace and
      an optional sign around an unsigned decimal. `None` stands for the
      `ValueError` raised on malformed text; exponents (`1e2`), `inf`,
      `nan` and digit underscores, which Python reads, are not read here. */
  function ParseFloat(s: string): Option<real> {
    var (negative, u) := SignAndRest(Strip(s));
    match ParseUnsigned(u)
    case None => None
    case Some(m) => Some(if negative then -m else m)
  }

  /** Text without a single digit never reads as a number. */
  lemma ParseFloatNeedsDigit(s: string)
    requires forall j :: 0 <= j < |s| ==> !IsDigit(s[j])
    ensures ParseFloat(s) == None
  {
    var t := Strip(s);
    assert NoDigit(t) by {
      assert forall j :: 0 <= j < |t| ==> t[j] == s[LeadingSpaces(s) + j];
    }
    SignRestNoDigit(t);
    UnsignedNeedsDigit(SignAndRest(t).1);
  }

  predicate NoDigit(s: string) {
    forall j :: 0 <= j < |s| ==> !IsDigit(s[j])
  }

  lemma SignRestNoDigit(t: string)
    requires NoDigit(t)
    ensures NoDigit(SignAndRest(t).1)
  {
    var u := SignAndRest(t).1;
    forall j | 0 <= j < |u| ensures !IsDigit(u[j]) {
      if |t| > 0 && (t[0] == '-' || t[0] == '+') { assert u[j] == t[j + 1]; } else { assert u[j] == t[j]; }
    }
  }

  lemma UnsignedNeedsDigit(u: string)
    requires NoDigit(u)
    ensures ParseUnsigned(u) == None
  {
    match IndexOf(u, ".")
    case None =>
      if |u| > 0 { assert !IsDigit(u[0]); }
    case Some(i) =>
      var whole, fraction := u[..i], u[i + 1..];
      if |whole| > 0 { assert whole[0] == u[0]; }
      if |fraction| > 0 { assert fraction[0] == u[i + 1]; }
  }

  /** Text that starts with a digit and does not end in whitespace has
      nothing to strip. */
  lemma StripNumberText(s: string)
    requires |s| > 0 && IsDigit(s[0]) && !IsSpace(s[|s| - 1])
    ensures Strip(s) == s
  {
    assert LeadingSpaces(s) == 0;
  }

  /** `float(str(n)) == n`. */
  lemma ParseFloatOfNat(n: nat)
    ensures ParseFloat(NatToString(n)) == Some(n as real)
  {
    var s := NatToString(n);
    StripNumberText(s);
    assert SignAndRest(s) == (false, s);
    IndexFromNoChar(s, '.', 0);
  }

  /** `w.f` for digits `w` has nothing to strip and no sign. */
  lemma DecimalTextIsUnsigned(w: string, f: string)
    requires IsDigits(w) && AllDigits(f)
    ensures Strip(w + "." + f) == w + "." + f && SignAndRest(w + "." + f) == (false, w + "." + f)
  {
    var s := w + "." + f;
    assert s[0] == w[0];
    assert s[|s| - 1] == if |f| > 0 then f[|f| - 1] else '.';
    StripNumberText(s);
  }

  /** The first `.` of `w.f` for digits `w` is the one right after `w`. */
  lemma DecimalTextParts(w: string, f: string)
    requires IsDigits(w)
    ensures IndexOf(w + "." + f, ".") == Some(|w|)
    ensures (w + "." + f)[..|w|] == w && (w + "." + f)[|w| + 1..] == f
  {
    var s := w + "." + f;
    assert s[..|w|] == w;
    assert s[|w| + 1..] == f;
    assert forall j :: 0 <= j < |w| ==> s[j] == w[j];
    IndexFromChar(s, '.', 0, |w|);
  }

  lemma UnsignedDecimal(w: string, f: string)
    requires IsDigits(w) && AllDigits(f)
    ensures ParseUnsigned(w + "." + f)
      == Some(DigitsValue(w) as real + FractionValue(f))
  {
    var s := w + "." + f;
    DecimalTextParts(w, f);
    var whole, fraction := s[..|w|], s[|w| + 1..];
    assert whole == w && fraction == f;
    assert |whole| + |fraction| > 0 && AllDigits(whole) && AllDigits(fraction);
  }

  /** `float(f'{a}.{f}')` is `a` plus the digits `f` as a fraction. */
  lemma ParseFloatOfDecimal(a: nat, f: string)
    requires AllDigits(f)
    ensures ParseFloat(NatToString(a) + "." + f)
      == Some(a as real + FractionValue(f))
  {
    DecimalTextIsUnsigned(NatToString(a), f);
    UnsignedDecimal(NatToString(a), f);
  }

  /** The confidence of a line holding the marker: the number before any
      trailing `%`, divided by 100, and 0.0 when it does not parse. */
  function ConfidenceOf(line: string): real
    requires Contains(line, ConfidenceMarker)
  {
    match ParseFloat(RStripChar(After(line, ConfidenceMarker), '%'))
    case Some(v) => v / 100.0
    case None => 0.0
  }

  /** A percentage written as `<n>%` reads as `n` (before the division). */
  lemma PercentOfNat(n: nat)
    ensures ParseFloat(RStripChar(NatToString(n) + "%", '%')) == Some(n as real)
  {
    var s := NatToString(n);
    assert (s + "%")[..|s|] == s;
    assert RStripChar(s + "%", '%') == RStripChar(s, '%');
    assert s[|s| - 1] != '%';
    ParseFloatOfNat(n);
  }

  /** The detected disease and the confidence while the output is read. */
  datatype Scan = Scan(detected: string, confidence: real)

  /** Before any line is read: `"unknown"` and 0.0. */
  const Unscanned := Scan("unknown", 0.0)

  /** One line of the output: a `Detected:` line sets the disease, a
      `Confidence:` line the confidence; a line may do both. */
  function ScanLine(st: Scan, line: string): Scan {
    var st1 := if Contains(line, DetectedMarker) then st.(detected := After(line, DetectedMarker)) else st;
    if Contains(line, ConfidenceMarker) then st1.(confidence := ConfidenceOf(line)) else st1
  }

  function ScanOf(lines: seq<string>): Scan {
    if |lines| == 0 then Unscanned
    else ScanLine(ScanOf(lines[..|lines| - 1]), lines[|lines| - 1])
  }

  /** The loop over `stdout.splitlines()`. */
  method ScanAnalysisOutput(lines: seq<string>) returns (detected: string, confidence: real)
    ensures Scan(detected, confidence) == ScanOf(lines)
  {
    detected, confidence := "unknown", 0.0;
    var i := 0;
    while i < |lines|
      invariant 0 <= i <= |lines|
      invariant Scan(detected, confidence) == ScanOf(lines[..i])
    {
      assert lines[..i + 1][..i] == lines[..i];
      var line := lines[i];
      if Contains(line, DetectedMarker) {
        detected := After(line, DetectedMarker);
      }
      if Contains(line, ConfidenceMarker) {
        confidence := ConfidenceOf(line);
      }
      i := i + 1;
    }
    assert lines[..i] == lines;
  }

  /** The index of the last line holding `marker`, if any. */
  function LastWith(lines: seq<string>, marker: string): (r: Option<nat>)
    ensures r.Some? ==> r.value < |lines| && Contains(lines[r.value], marker)
    ensures r.Some? ==> forall j :: r.value < j < |lines| ==> !Contains(lines[j], marker)
    ensures r.None? ==> forall j :: 0 <= j < |lines| ==> !Contains(lines[j], marker)
  {
    if |lines| == 0 then None
    else if Contains(lines[|lines| - 1], marker) then Some(|lines| - 1)
    else LastWith(lines[..|lines| - 1], marker)
  }

  /** The detected disease comes from the last `Detected:` line, and is
      `"unknown"` when there is none. */
  lemma {:induction false} ScanDetectedIsLast(lines: seq<string>)
    ensures LastWith(lines, DetectedMarker).None? ==> ScanOf(lines).detected == "unknown"
    ensures LastWith(lines, DetectedMarker).Some? ==>
      ScanOf(lines).detected == After(lines[LastWith(lines, DetectedMarker).value], DetectedMarker)
  {
    if |lines| > 0 {
      var init := lines[..|lines| - 1];
      ScanDetectedIsLast(init);
      if !Contains(lines[|lines| - 1], DetectedMarker) {
        assert LastWith(lines, DetectedMarker) == LastWith(init, DetectedMarker);
      }
    }
  }

  /** The confidence comes from the last `Confidence:` line, and is 0.0
      when there is none. */
  lemma {:induction false} ScanConfidenceIsLast(lines: seq<string>)
    ensures LastWith(lines, ConfidenceMarker).None? ==> ScanOf(lines).confidence == 0.0
    ensures LastWith(lines, ConfidenceMarker).Some? ==>
      ScanOf(lines).confidence == ConfidenceOf(lines[LastWith(lines, ConfidenceMarker).value])
  {
    if |lines| > 0 {
      var init := lines[..|lines| - 1];
      ScanConfidenceIsLast(init);
      if !Contains(lines[|lines| - 1], ConfidenceMarker) {
        assert LastWith(lines, ConfidenceMarker) == LastWith(init, ConfidenceMarker);
      }
    }
  }

  // One test.

  /** What running the simulator and then the analysis script gave: the
      simulation failed or timed out, the analysis timed out, or the
      analysis wrote these lines. */
  datatype Run = SimulationFailed | AnalysisTimedOut | Analyzed(stdout: seq<string>)

  /** The record a test produces, as saved in a disease's result file. */
  datatype TestResult = TestResult(
    testFile: string, disease: string, caseInfo: string, expected: string,
    detected: string, confidence: real,
    simulationSuccess: bool, analysisSuccess: bool, correctDetection: bool)

  /** A detection is correct when the lower-cased disease occurs in the
      lower-cased detected text. */
  predicate CorrectDetection(disease: string, detected: string) {
    Contains(Lower(detected), Lower(disease))
  }

  /** What a run gives the record: the detected disease, the confidence,
      and whether the simulation and the analysis succeeded. */
  function Outcome(run: Run): (string, real, bool, bool) {
    match run
    case SimulationFailed => ("simulation_failed", 0.0, false, false)
    case AnalysisTimedOut => ("timeout", 0.0, true, false)
    case Analyzed(stdout) => (ScanOf(stdout).detected, ScanOf(stdout).confidence, true, true)
  }

  /** `run_test`: `None` stands for the `IndexError` of a name without `_`. */
  function RunTest(testFile: string, run: Run): (r: Option<TestResult>)
    ensures r.Some? ==> r.value.testFile == testFile && r.value.expected == r.value.disease
    ensures r.Some? ==> (r.value.correctDetection <==> CorrectDetection(r.value.disease, r.value.detected))
  {
    match ParseTestFileName(Basename(testFile))
    case None => None
    case Some((disease, caseInfo)) =>
      var (detected, confidence, simulated, analyzed) := Outcome(run);
      Some(TestResult(testFile, disease, caseInfo, disease, detected, confidence, simulated, analyzed,
        CorrectDetection(disease, detected)))
  }

  /** A failed simulation and a timed-out analysis give their markers and
      a zero confidence; a completed analysis gives what its output says. */
  lemma RunTestOutcomes(testFile: string, run: Run)
    requires RunTest(testFile, run).Some?
    ensures run == SimulationFailed ==>
      RunTest(testFile, run).value.detected == "simulation_failed" && RunTest(testFile, run).value.confidence == 0.0
      && !RunTest(testFile, run).value.simulationSuccess && !RunTest(testFile, run).value.analysisSuccess
    ensures run == AnalysisTimedOut ==>
      RunTest(testFile, run).value.detected == "timeout" && RunTest(testFile, run).value.confidence == 0.0
      && RunTest(testFile, run).value.simulationSuccess && !RunTest(testFile, run).value.analysisSuccess
    ensures run.Analyzed? ==>
      RunTest(testFile, run).value.detected == ScanOf(run.stdout).detected
      && RunTest(testFile, run).value.confidence == ScanOf(run.stdout).confidence
      && RunTest(testFile, run).value.analysisSuccess
  {
  }

  /** `lower` of a concatenation. */
  lemma LowerAppend(a: string, b: string)
    ensures Lower(a + b) == Lower(a) + Lower(b)
  {
    var l, r := Lower(a + b), Lower(a) + Lower(b);
    forall k | 0 <= k < |l| ensures l[k] == r[k] {
      if k < |a| {
        assert (a + b)[k] == a[k];
      } else {
        assert (a + b)[k] == b[k - |a|];
      }
    }
  }

  /** A detected text naming the disease anywhere, in any case, is correct. */
  lemma NamingTheDiseaseIsCorrect(prefix: string, disease: string, suffix: string)
    ensures CorrectDetection(disease, prefix + disease + suffix)
  {
    LowerAppend(prefix + disease, suffix);
    LowerAppend(prefix, disease);
    var s := Lower(prefix) + Lower(disease) + Lower(suffix);
    assert s[|prefix|..|prefix| + |disease|] == Lower(disease);
    assert OccursAt(s, Lower(disease), |prefix|);
    ContainsIff(s, Lower(disease));
  }

  /** Text without upper-case letters is its own lower case. */
  lemma LowerOfLower(s: string)
    requires forall k :: 0 <= k < |s| ==> !('A' <= s[k] <= 'Z')
    ensures Lower(s) == s
  {
  }

  /** None of the disease keys occurs in `marker`, and the disease keys are lower-case. */
  predicate MissesKeys(marker: string) {
    forall k :: 0 <= k < |DiseaseKeys| ==> !CorrectDetection(DiseaseKeys[k], marker)
  }

  lemma KeysAreLower(k: nat)
    requires k < |DiseaseKeys|
    ensures Lower(DiseaseKeys[k]) == DiseaseKeys[k]
  {
    LowerOfLower(DiseaseKeys[k]);
  }

  lemma NotInSimulationFailed(k: nat)
    requires k < |DiseaseKeys|
    ensures !Contains("simulation_failed", DiseaseKeys[k])
  {
    var m, key := "simulation_failed", DiseaseKeys[k];
    if k == 0 { MissingCharMissingWord(m, key, 2); }
    else if k == 1 || k == 2 { MissingCharMissingWord(m, key, 0); }
    else if k == 3 { MissingCharMissingWord(m, key, 5); }
    else if k == 4 { MisplacedCharMissingWord(m, key, 0); }
    else if k == 5 || k == 8 { MissingCharMissingWord(m, key, 0); }
    else if k == 6 || k == 7 { MisplacedCharMissingWord(m, key, 2); }
    else { MissingCharMissingWord(m, key, 2); }
  }

  lemma NotInTimeout(k: nat)
    requires k < |DiseaseKeys|
    ensures !Contains("timeout", DiseaseKeys[k])
  {
    var m, key := "timeout", DiseaseKeys[k];
    if k == 0 || k == 6 || k == 7 || k == 9 { MissingCharMissingWord(m, key, 2); }
    else if k == 3 { MissingCharMissingWord(m, key, 5); }
    else if k == 4 { MissingCharMissingWord(m, key, 1); }
    else { MissingCharMissingWord(m, key, 0); }
  }

  lemma NotInUnknown(k: nat)
    requires k < |DiseaseKeys|
    ensures !Contains("unknown", DiseaseKeys[k])
  {
    var m, key := "unknown", DiseaseKeys[k];
    if k == 0 || k == 6 || k == 7 || k == 9 { MissingCharMissingWord(m, key, 2); }
    else if k == 3 { MissingCharMissingWord(m, key, 5); }
    else if k == 4 { MissingCharMissingWord(m, key, 1); }
    else { MissingCharMissingWord(m, key, 0); }
  }

  lemma SimulationFailedMissesKeys()
    ensures MissesKeys("simulation_failed")
  {
    LowerOfLower("simulation_failed");
    forall k | 0 <= k < |DiseaseKeys| ensures !CorrectDetection(DiseaseKeys[k], "simulation_failed") {
      KeysAreLower(k);
      NotInSimulationFailed(k);
    }
  }

  lemma TimeoutMissesKeys()
    ensures MissesKeys("timeout")
  {
    LowerOfLower("timeout");
    forall k | 0 <= k < |DiseaseKeys| ensures !CorrectDetection(DiseaseKeys[k], "timeout") {
      KeysAreLower(k);
      NotInTimeout(k);
    }
  }

  lemma UnknownMissesKeys()
    ensures MissesKeys("unknown")
  {
    LowerOfLower("unknown");
    forall k | 0 <= k < |DiseaseKeys| ensures !CorrectDetection(DiseaseKeys[k], "unknown") {
      KeysAreLower(k);
      NotInUnknown(k);
    }
  }

  /** A test of any of the ten diseases whose simulation failed, whose
      analysis timed out, or whose output names no disease is never counted
      as a correct detection. */
  lemma FailedTestsAreIncorrect(testFile: string, run: Run)
    requires RunTest(testFile, run).Some?
    requires RunTest(testFile, run).value.disease in DiseaseKeys
    requires run.Analyzed? ==> LastWith(run.stdout, DetectedMarker).None?
    ensures !RunTest(testFile, run).value.correctDetection
  {
    var r := RunTest(testFile, run).value;
    RunTestOutcomes(testFile, run);
    match run
    case SimulationFailed =>
      SimulationFailedMissesKeys();
      MissedByMarker(r.disease, r.detected);
    case AnalysisTimedOut =>
      TimeoutMissesKeys();
      MissedByMarker(r.disease, r.detected);
    case Analyzed(stdout) =>
      ScanDetectedIsLast(stdout);
      UnknownMissesKeys();
      MissedByMarker(r.disease, r.detected);
  }

  /** A marker that misses every key misses the disease of each of them. */
  lemma MissedByMarker(disease: string, marker: string)
    requires disease in DiseaseKeys && MissesKeys(marker)
    ensures !CorrectDetection(disease, marker)
  {
    var k :| 0 <= k < |DiseaseKeys| && DiseaseKeys[k] == disease;
  }

  /** What each test of one disease gives, in order. */
  function TestsRun(tests: seq<(string, Run)>): (rs: seq<Option<TestResult>>)
    ensures |rs| == |tests|
    ensures forall k :: 0 <= k < |tests| ==> rs[k] == RunTest(tests[k].0, tests[k].1)
  {
    seq(|tests|, k requires 0 <= k < |tests| => RunTest(tests[k].0, tests[k].1))
  }

  /** `run_disease_tests` over the sorted test files of one disease and
      what running each of them gave: the results in order, or `None` for
      the `IndexError` of a file name without `_`, which ends the run. */
  method RunDiseaseTests(tests: seq<(string, Run)>) returns (results: Option<seq<TestResult>>)
    ensures results.Some? <==> forall k :: 0 <= k < |tests| ==> RunTest(tests[k].0, tests[k].1).Some?
    ensures results.Some? ==> |results.value| == |tests|
    ensures results.Some? ==> forall k :: 0 <= k < |tests| ==> RunTest(tests[k].0, tests[k].1) == Some(results.value[k])
  {
    ghost var runs := TestsRun(tests);
    var acc: seq<TestResult> := [];
    var i := 0;
    while i < |tests|
      invariant 0 <= i <= |tests|
      invariant AllSome(runs[..i]) == Some(acc)
    {
      var r := RunTest(tests[i].0, tests[i].1);
      if r.None? {
        return None;
      }
      AllSomeStep(runs, i, acc);
      acc := acc + [r.value];
      i := i + 1;
    }
    assert runs[..i] == runs;
    AllSomeEach(runs);
    results := Some(acc);
  }

  // Counts and the summary.

  /** `sum(1 for r in results if r["correct_detection"])`. */
  function CorrectOf(results: seq<TestResult>): (n: nat)
    ensures n <= |results|
  {
    if |results| == 0 then 0
    else CorrectOf(results[..|results| - 1]) + (if results[|results| - 1].correctDetection then 1 else 0)
  }

  lemma {:induction false} CorrectOfAll(results: seq<TestResult>)
    ensures CorrectOf(results) == |results| <==> forall k :: 0 <= k < |results| ==> results[k].correctDetection
  {
    if |results| > 0 {
      var init := results[..|results| - 1];
      CorrectOfAll(init);
      assert forall k :: 0 <= k < |init| ==> init[k] == results[k];
    }
  }

  lemma {:induction false} CorrectOfAppend(a: seq<TestResult>, b: seq<TestResult>)
    ensures CorrectOf(a + b) == CorrectOf(a) + CorrectOf(b)
  {
    if |b| > 0 {
      CorrectOfAppend(a, b[..|b| - 1]);
      assert (a + b)[..|a + b| - 1] == a + b[..|b| - 1];
    } else {
      assert a + b == a;
    }
  }

  /** `correct / total if total > 0 else 0`, as a fraction. */
  function Accuracy(results: seq<TestResult>): real {
    if |results| > 0 then CorrectOf(results) as real / |results| as real else 0.0
  }

  /** The accuracy is a fraction in [0, 1]; it is 1 exactly when there are
      results and all are correct, and 0 when none is. */
  lemma AccuracyRange(results: seq<TestResult>)
    ensures 0.0 <= Accuracy(results) <= 1.0
    ensures Accuracy(results) == 1.0 <==> |results| > 0 && forall k :: 0 <= k < |results| ==> results[k].correctDetection
    ensures CorrectOf(results) == 0 ==> Accuracy(results) == 0.0
  {
    CorrectOfAll(results);
    if |results| > 0 {
      FractionFacts(CorrectOf(results), |results|);
    }
  }

  /** One entry of `results_by_disease`. */
  datatype DiseaseSummary = DiseaseSummary(total: nat, correct: nat, accuracy: real)

  /** The saved overall summary. */
  datatype Summary = Summary(totalTests: nat, totalCorrect: nat, accuracy: real,
    byDisease: seq<(string, DiseaseSummary)>)

  /** All results, disease by disease, in key order. */
  function Pooled(all: seq<(string, seq<TestResult>)>): seq<TestResult> {
    if |all| == 0 then [] else Pooled(all[..|all| - 1]) + all[|all| - 1].1
  }

  function TotalTests(all: seq<(string, seq<TestResult>)>): nat {
    if |all| == 0 then 0 else TotalTests(all[..|all| - 1]) + |all[|all| - 1].1|
  }

  function TotalCorrect(all: seq<(string, seq<TestResult>)>): nat {
    if |all| == 0 then 0 else TotalCorrect(all[..|all| - 1]) + CorrectOf(all[|all| - 1].1)
  }

  function SummaryOf(all: seq<(string, seq<TestResult>)>): Summary {
    var total, correct := TotalTests(all), TotalCorrect(all);
    Summary(total, correct, if total > 0 then correct as real / total as real else 0.0,
      seq(|all|, k requires 0 <= k < |all| =>
        (all[k].0, DiseaseSummary(|all[k].1|, CorrectOf(all[k].1), Accuracy(all[k].1)))))
  }

  /** The totals are those of all results pooled together. */
  lemma {:induction false} TotalsArePooled(all: seq<(string, seq<TestResult>)>)
    ensures TotalTests(all) == |Pooled(all)|
    ensures TotalCorrect(all) == CorrectOf(Pooled(all))
  {
    if |all| > 0 {
      TotalsArePooled(all[..|all| - 1]);
      CorrectOfAppend(Pooled(all[..|all| - 1]), all[|all| - 1].1);
    }
  }

  /** The overall accuracy is the accuracy of the pooled results, within
      [0, 1]; each disease's entry has its own counts and accuracy. */
  lemma SummaryFacts(all: seq<(string, seq<TestResult>)>)
    ensures SummaryOf(all).totalCorrect <= SummaryOf(all).totalTests
    ensures SummaryOf(all).totalTests == |Pooled(all)|
    ensures SummaryOf(all).accuracy == Accuracy(Pooled(all))
    ensures 0.0 <= SummaryOf(all).accuracy <= 1.0
    ensures |SummaryOf(all).byDisease| == |all|
    ensures forall k :: 0 <= k < |all| ==> SummaryOf(all).byDisease[k].0 == all[k].0
    ensures forall k :: 0 <= k < |all| ==>
      SummaryOf(all).byDisease[k].1.correct <= SummaryOf(all).byDisease[k].1.total == |all[k].1|
    ensures forall k :: 0 <= k < |all| ==> 0.0 <= SummaryOf(all).byDisease[k].1.accuracy <= 1.0
  {
    TotalsArePooled(all);
    AccuracyRange(Pooled(all));
    forall k | 0 <= k < |all| ensures 0.0 <= Accuracy(all[k].1) <= 1.0 {
      AccuracyRange(all[k].1);
    }
  }

  /** The overall accuracy line as printed: `total_correct/total_tests`
      without a guard. `None` stands for the `ZeroDivisionError` raised when
      no test case exists. */
  function PrintedAccuracyAsWritten(s: Summary): Option<real> {
    if s.totalTests == 0 then None else Some(s.totalCorrect as real / s.totalTests as real)
  }

  /** Every disease without a test case file. */
  function NoTestCases(keys: seq<string>): (all: seq<(string, seq<TestResult>)>)
    ensures |all| == |keys|
    ensures forall k :: 0 <= k < |keys| ==> all[k] == (keys[k], [])
  {
    seq(|keys|, k requires 0 <= k < |keys| => (keys[k], []))
  }

  /** With no test case file for any disease the final printout fails,
      after the summary (with its guarded accuracy 0) has been saved. */
  lemma {:induction false} EmptyRunCrashesPrintout(keys: seq<string>)
    ensures SummaryOf(NoTestCases(keys)).accuracy == 0.0
    ensures PrintedAccuracyAsWritten(SummaryOf(NoTestCases(keys))) == None
  {
    var all := NoTestCases(keys);
    TotalsArePooled(all);
    EmptyPooled(all);
  }

  lemma {:induction false} EmptyPooled(all: seq<(string, seq<TestResult>)>)
    requires forall k :: 0 <= k < |all| ==> all[k].1 == []
    ensures Pooled(all) == []
  {
    if |all| > 0 {
      EmptyPooled(all[..|all| - 1]);
    }
  }

  /** The printed accuracy with the same guard as the saved one. */
  function PrintedAccuracy(s: Summary): real {
    if s.totalTests > 0 then s.totalCorrect as real / s.totalTests as real else 0.0
  }

  /** The guarded printout shows the saved accuracy, agrees with the
      unguarded one whenever that does not fail, and lies in [0, 1]. */
  lemma PrintedAccuracyIsSaved(all: seq<(string, seq<TestResult>)>)
    ensures PrintedAccuracy(SummaryOf(all)) == SummaryOf(all).accuracy
    ensures 0.0 <= PrintedAccuracy(SummaryOf(all)) <= 1.0
    ensures SummaryOf(all).totalTests > 0 ==>
      PrintedAccuracyAsWritten(SummaryOf(all)) == Some(PrintedAccuracy(SummaryOf(all)))
  {
    SummaryFacts(all);
  }
}
