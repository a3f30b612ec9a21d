/** The classification validation script: the hardware dump read section by
    section, the first-maximum prediction of a section with exactly fifteen
    scores, its checks against the test's name and the identical-scores
    warning. Its class table is ordered differently from every other
    script's. */
module Validation {
  import opened Text
  import opened Hex
  import opened FixedPoint
  import opened DiseaseResults
  import AllDiseases

  /** The class table of this script, alphabetical with No Finding last. */
  const ValidationNames: seq<string> := [
    "Atelectasis", "Cardiomegaly", "Consolidation", "Edema",
    "Effusion", "Emphysema", "Fibrosis", "Hernia", "Infiltration",
    "Mass", "Nodule", "Pleural_Thickening", "Pneumonia",
    "Pneumothorax", "No Finding"]

  /** No class index carries the same name here as in the table the other
      scripts share: the same predicted index is reported as a different
      disease. */
  lemma ClassOrderDiffers()
    ensures |ValidationNames| == |AllDiseases.DiseaseNames| == 15
    ensures forall i :: 0 <= i < 15 ==> ValidationNames[i] != AllDiseases.DiseaseNames[i]
    ensures ValidationNames[0] == "Atelectasis" && ValidationNames[14] == "No Finding"
  {
    var v, d := ValidationNames, AllDiseases.DiseaseNames;
    assert v[0] != d[0] && v[1] != d[1] && v[2] != d[2] && v[3] != d[3] && v[4] != d[4];
    assert v[5] != d[5] && v[6] != d[6] && v[7] != d[7] && v[8] != d[8] && v[9] != d[9];
    assert v[10] != d[10] && v[11] != d[11] && v[12] != d[12] && v[13] != d[13] && v[14] != d[14];
  }

  // Decoding a score.

  /** `hex_to_signed_int`: `int(s, 16)`, less `2 ** 16` above 32767, and 0
      when the text is not hex. */
  function HexToSignedInt(s: string): (v: int)
    ensures ParseHexInt(s).None? ==> v == 0
    ensures ParseHexInt(s).Some? && 0 <= ParseHexInt(s).value < WordSize ==>
      v == SignExtend16(ParseHexInt(s).value)
  {
    match ParseHexInt(s)
    case None => 0
    case Some(x) => if x > 32767 then x - 65536 else x
  }

  /** One to four hex digits decode into the int16 range. */
  lemma ShortHexInRange(s: string)
    requires 1 <= |s| <= 4 && AllHexDigits(s)
    ensures -SignBit <= HexToSignedInt(s) < SignBit
  {
    var x := HexValue(s);
    ParseHexDigits(s);
    Pow16AtMostFour(|s|);
    assert x < 65536;
    assert HexToSignedInt(s) == if x > 32767 then x - 65536 else x;
  }

  lemma Pow16AtMostFour(k: nat)
    requires k <= 4
    ensures Pow16(k) <= 65536
  {
    assert Pow16(0) == 1;
    assert Pow16(1) == 16;
    assert Pow16(2) == 256;
    assert Pow16(3) == 4096;
    assert Pow16(4) == 65536;
  }

  /** The decoding inverts the exporters' line for every int16 value. */
  lemma HexToSignedIntOfMemLine(v: int)
    requires -SignBit <= v < SignBit
    ensures HexToSignedInt(MemLine(v)) == v
  {
    MemLineRoundTrip(v);
    ParseHex4(Wrap16(v));
  }

  /** Text that is not hex decodes as 0, like a genuine zero. */
  lemma ZeroIsAmbiguous()
    ensures HexToSignedInt("zz") == HexToSignedInt("0") == 0
  {
    ParseHexDigits("0");
    assert Strip("zz") == "zz" by {
      assert !IsSpace("zz"[0]) && !IsSpace("zz"[1]);
    }
    assert !IsHexDigit("zz"[0]);
  }

  // Reading one section.

  /** What a score line gives: every non-blank line other than exactly
      `===` counts, decoded after stripping. */
  function ScoreOf(line: string): Option<int> {
    var l := Strip(line);
    if |l| > 0 && l != "===" then Some(HexToSignedInt(l)) else None
  }

  /** A closing banner such as `=== End ===` is scored, as 0, where the
      diagnosis analysis skips every line that starts with `===`. */
  lemma BannerScoredAsZero()
    ensures ScoreOf("=== End ===") == Some(0)
    ensures LineValue("=== End ===") == None
  {
    var l := "=== End ===";
    assert Strip(l) == l by {
      assert !IsSpace(l[0]) && !IsSpace(l[|l| - 1]);
    }
    assert l[..3] == "===";
    assert !IsHexDigit(l[0]);
  }

  function ScoreOfs(lines: seq<string>): (r: seq<Option<int>>)
    ensures |r| == |lines| && forall k :: 0 <= k < |lines| ==> r[k] == ScoreOf(lines[k])
  {
    seq(|lines|, k requires 0 <= k < |lines| => ScoreOf(lines[k]))
  }

  /** The scores of the lines after the heading, in order. */
  function SectionScores(lines: seq<string>): seq<int> {
    Somes(ScoreOfs(lines))
  }

  /** The score loop of one section. */
  method ReadScores(lines: seq<string>) returns (scores: seq<int>)
    ensures scores == SectionScores(lines)
  {
    ghost var xs := ScoreOfs(lines);
    scores := [];
    var i := 0;
    while i < |lines|
      invariant 0 <= i <= |lines|
      invariant scores == Somes(xs[..i])
    {
      assert xs[..i + 1][..i] == xs[..i];
      var l := Strip(lines[i]);
      if |l| > 0 && l != "===" {
        scores := scores + [HexToSignedInt(l)];
      }
      i := i + 1;
    }
    assert xs[..i] == xs;
  }

  /** The test name: the text after the first `:` and before any further
      `:`, stripped. `None` stands for the `IndexError` of a heading
      without `:`. */
  function ValidationTestName(heading: string): Option<string> {
    var parts := Split(heading, ":");
    if |parts| < 2 then None else Some(Strip(parts[1]))
  }

  // Judging one section.

  /** The outcome of the name check tied to the test's name. */
  datatype NameCheck = Unchecked | Confirmed | Warned

  /** Real data and all-ones input should give a non-zero maximum, all-zeros
      input a zero maximum; other tests are not checked. */
  function NameCheckOf(name: string, maxScore: int): (c: NameCheck)
    ensures c.Unchecked? <==> name !in {"Real Image Data (224x224)", "All Zeros Image", "All Ones Image"}
    ensures c.Confirmed? <==>
      ((name == "Real Image Data (224x224)" || name == "All Ones Image") && maxScore != 0)
      || (name == "All Zeros Image" && maxScore == 0)
  {
    if name == "Real Image Data (224x224)" then (if maxScore == 0 then Warned else Confirmed)
    else if name == "All Zeros Image" then (if maxScore == 0 then Confirmed else Warned)
    else if name == "All Ones Image" then (if maxScore != 0 then Confirmed else Warned)
    else Unchecked
  }

  /** The distinct scores, `set(disease_scores)`. */
  function ScoreSet(scores: seq<int>): set<int> {
    set k | 0 <= k < |scores| :: scores[k]
  }

  /** The set of scores has one element exactly when a non-empty list holds
      one value throughout. */
  lemma IdenticalIff(scores: seq<int>)
    requires |scores| > 0
    ensures |ScoreSet(scores)| == 1 <==> forall i, j :: 0 <= i < |scores| && 0 <= j < |scores| ==> scores[i] == scores[j]
  {
    var s := ScoreSet(scores);
    assert scores[0] in s;
    if forall i, j :: 0 <= i < |scores| && 0 <= j < |scores| ==> scores[i] == scores[j] {
      assert s == {scores[0]};
    }
    if |s| == 1 {
      assert |s - {scores[0]}| == 0;
      forall i, j | 0 <= i < |scores| && 0 <= j < |scores| ensures scores[i] == scores[j] {
        assert scores[i] in s && scores[j] in s;
      }
    }
  }

  /** What the script reports for a section. */
  datatype Verdict =
    | Invalid(count: nat)
    | Analyzed(name: string, scores: seq<int>, predicted: nat, maxScore: int, check: NameCheck, identical: bool)

  /** A section with exactly fifteen scores is analysed; any other count is
      reported as invalid. `None` stands for a heading without `:`. */
  function SectionVerdict(section: string): (r: Option<Verdict>)
    ensures r.Some? && r.value.Analyzed? ==>
      |r.value.scores| == 15 && r.value.predicted < 15
      && r.value.maxScore == r.value.scores[r.value.predicted]
      && (forall j :: 0 <= j < 15 ==> r.value.scores[j] <= r.value.maxScore)
      && (forall j :: 0 <= j < r.value.predicted ==> r.value.scores[j] < r.value.maxScore)
      && r.value.check == NameCheckOf(r.value.name, r.value.maxScore)
      && (r.value.identical <==>
            forall i, j :: 0 <= i < 15 && 0 <= j < 15 ==> r.value.scores[i] == r.value.scores[j])
    ensures r.Some? && r.value.Invalid? ==> r.value.count != 15
  {
    var lines := Split(Strip(section), "\n");
    match ValidationTestName(lines[0])
    case None => None
    case Some(name) =>
      var scores := SectionScores(lines[1..]);
      if |scores| == 15 then
        var i := ArgMax(scores);
        IdenticalIff(scores);
        Some(Analyzed(name, scores, i, scores[i], NameCheckOf(name, scores[i]), |ScoreSet(scores)| == 1))
      else Some(Invalid(|scores|))
  }

  /** The verdict of each section. */
  function SectionVerdicts(sections: seq<string>): (r: seq<Option<Verdict>>)
    ensures |r| == |sections| && forall k :: 0 <= k < |sections| ==> r[k] == SectionVerdict(sections[k])
  {
    seq(|sections|, k requires 0 <= k < |sections| => SectionVerdict(sections[k]))
  }

  /** `analyze_hardware_outputs` on the text of the file: one verdict per
      section after the first `=== Test`, or `None` when a heading has no
      `:`. */
  function AnalyzeHardwareOutputs(content: string): (r: Option<seq<Verdict>>)
    ensures r.Some? <==> forall k :: 1 <= k < |Split(content, "=== Test")| ==>
      SectionVerdict(Split(content, "=== Test")[k]).Some?
    ensures r.Some? ==> |r.value| == |Split(content, "=== Test")| - 1
    ensures r.Some? ==> forall k :: 0 <= k < |r.value| ==>
      SectionVerdict(Split(content, "=== Test")[k + 1]) == Some(r.value[k])
  {
    var parts := Split(content, "=== Test");
    var r := VerdictsOf(parts[1..]);
    assert forall k :: 1 <= k < |parts| ==> parts[1..][k - 1] == parts[k];
    r
  }

  /** The verdicts of the sections, or `None` when one of them has none. */
  function VerdictsOf(sections: seq<string>): (r: Option<seq<Verdict>>)
    ensures r.Some? <==> forall k :: 0 <= k < |sections| ==> SectionVerdict(sections[k]).Some?
    ensures r.Some? ==> |r.value| == |sections|
    ensures r.Some? ==> forall k :: 0 <= k < |sections| ==> SectionVerdict(sections[k]) == Some(r.value[k])
  {
    var vs := SectionVerdicts(sections);
    AllSomeEach(vs);
    AllSome(vs)
  }
}
