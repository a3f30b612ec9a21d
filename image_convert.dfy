/** The X-ray image converter: the table from image file to disease and
    expected class, the output file name derived from the disease, the
    widening of 8-bit pixels to 16-bit words written as four hex digits, and
    the conversion loop with its counters and log. Whether a file exists and
    whether its conversion succeeds are inputs. */
module ImageConvert {
  import opened Text
  import opened Hex
  import opened Seqs
  import AllDiseases

  // The mapping.

  /** One entry of the mapping: the image file, the disease it shows and
      the class the network is expected to report (-1 for the test
      pattern). */
  datatype MappingEntry = MappingEntry(file: string, disease: string, classIndex: int)

  /** The mapping, in the order the conversion loop visits it. */
  const DiseaseMapping: seq<MappingEntry> := [
    MappingEntry("Atelectasis.png", "Atelectasis", 2),
    MappingEntry("Cardiomegaly.png", "Cardiomegaly", 9),
    MappingEntry("Consolidation.png", "Consolidation", 7),
    MappingEntry("Edema.png", "Edema", 12),
    MappingEntry("Effusion.png", "Effusion", 3),
    MappingEntry("Emphysema.png", "Emphysema", 10),
    MappingEntry("Fibrosis.png", "Fibrosis", 11),
    MappingEntry("Hernia.png", "Hernia", 14),
    MappingEntry("Infiltration.png", "Infiltration", 1),
    MappingEntry("Mass.png", "Mass", 6),
    MappingEntry("Nodule.png", "Nodule", 4),
    MappingEntry("normal.png", "No Finding", 0),
    MappingEntry("Pleural Thickening.png", "Pleural_Thickening", 8),
    MappingEntry("Pleural_Thickening.png", "Pleural_Thickening", 8),
    MappingEntry("Pneumonia.png", "Pneumonia", 13),
    MappingEntry("Pneumothorax.png", "Pneumothorax", 5),
    MappingEntry("Chest-X-ray-showing-infiltrate-in-the-right-lung.png", "Infiltration", 1),
    MappingEntry("pneumonia_xray.png", "Pneumonia", 13),
    MappingEntry("test_image.png", "Test_Pattern", -1)]

  /** Every expected class is one of the fifteen, except the test
      pattern's -1. */
  lemma MappingClassRange()
    ensures |DiseaseMapping| == 19
    ensures forall k :: 0 <= k < 18 ==> 0 <= DiseaseMapping[k].classIndex < 15
    ensures DiseaseMapping[18].file == "test_image.png" && DiseaseMapping[18].classIndex == -1
  {
  }

  /** The expected class of every entry names its disease in the class
      table the analysis scripts share, except that the table writes Pleural
      Thickening with a space where the mapping has an underscore. */
  lemma MappingMatchesClassTable(k: nat)
    requires k < 18 && k != 12 && k != 13
    ensures AllDiseases.DiseaseNames[DiseaseMapping[k].classIndex] == DiseaseMapping[k].disease
  {
    var m, d := DiseaseMapping, AllDiseases.DiseaseNames;
    if k < 6 {
      assert d[m[k].classIndex] == m[k].disease;
    } else if k < 12 {
      assert d[m[k].classIndex] == m[k].disease;
    } else {
      assert d[m[k].classIndex] == m[k].disease;
    }
  }

  /** The one class whose name differs between the mapping and the class
      table. */
  lemma PleuralSpelling()
    ensures DiseaseMapping[12].classIndex == DiseaseMapping[13].classIndex == 8
    ensures AllDiseases.DiseaseNames[8] == "Pleural Thickening"
    ensures DiseaseMapping[12].disease == DiseaseMapping[13].disease == "Pleural_Thickening"
  {
  }

  // The output file name.

  /** `disease.lower().replace(' ', '_').replace('_finding', '')`. */
  function OutputStem(disease: string): string {
    ReplaceAll(ReplaceAll(Lower(disease), " ", "_"), "_finding", "")
  }

  /** `f"real_{stem}_xray.mem"`. */
  function OutputName(disease: string): string {
    "real_" + OutputStem(disease) + "_xray.mem"
  }

  /** The stem has neither spaces nor upper-case letters. */
  lemma OutputStemShape(disease: string)
    ensures forall j :: 0 <= j < |OutputStem(disease)| ==>
      OutputStem(disease)[j] != ' ' && !('A' <= OutputStem(disease)[j] <= 'Z')
  {
    var stem := OutputStem(disease);
    StemLacksSpace(disease);
    forall j | 0 <= j < |stem| ensures stem[j] != ' ' && !('A' <= stem[j] <= 'Z') {
      var c := stem[j];
      if 'A' <= c <= 'Z' {
        StemLacks(disease, c);
      }
    }
  }

  /** The space is absent from the stem. */
  lemma StemLacksSpace(disease: string)
    ensures forall j :: 0 <= j < |OutputStem(disease)| ==> OutputStem(disease)[j] != ' '
  {
    var l := Lower(disease);
    var parts := Split(l, " ");
    SplitPiecesLackSeparator(l, " ");
    forall k, j | 0 <= k < |parts| && 0 <= j < |parts[k]| ensures parts[k][j] != ' ' {
      OccursAtChar(parts[k], ' ', j);
      ContainsIff(parts[k], " ");
    }
    JoinCharFree(parts, "_", ' ');
    ReplaceAllCharFree(ReplaceAll(l, " ", "_"), "_finding", "", ' ');
  }

  /** A character other than `_` that the lower-cased name lacks is absent
      from the stem. */
  lemma StemLacks(disease: string, c: char)
    requires c != '_'
    requires forall j :: 0 <= j < |Lower(disease)| ==> Lower(disease)[j] != c
    ensures forall j :: 0 <= j < |OutputStem(disease)| ==> OutputStem(disease)[j] != c
  {
    var l := Lower(disease);
    SplitFromCharFree(l, " ", 0, c);
    JoinCharFree(Split(l, " "), "_", c);
    ReplaceAllCharFree(ReplaceAll(l, " ", "_"), "_finding", "", c);
  }

  /** Replacing a text that does not occur changes nothing. */
  lemma ReplaceAbsent(s: string, target: string, replacement: string)
    requires |target| > 0 && !Contains(s, target)
    ensures ReplaceAll(s, target, replacement) == s
  {
    SplitHead(s, target);
  }

  /** A disease name without spaces whose lower-case form lacks `_finding`
      keeps its lower-case form as the stem. */
  lemma PlainStem(disease: string)
    requires forall j :: 0 <= j < |disease| ==> disease[j] != ' '
    requires !Contains(Lower(disease), "_finding")
    ensures OutputName(disease) == "real_" + Lower(disease) + "_xray.mem"
  {
    var l := Lower(disease);
    LowerLacksSpace(disease);
    ReplaceAbsent(l, " ", "_");
    ReplaceAbsent(l, "_finding", "");
  }

  lemma LowerLacksSpace(disease: string)
    requires forall j :: 0 <= j < |disease| ==> disease[j] != ' '
    ensures !Contains(Lower(disease), " ")
  {
    var l := Lower(disease);
    assert forall j :: 0 <= j < |l| ==> l[j] != ' ';
    MissingCharMissingWord(l, " ", 0);
  }

  /** No Finding becomes `real_no_xray.mem`. */
  lemma NoFindingName()
    ensures OutputName("No Finding") == "real_no_xray.mem"
  {
    NoFindingStem();
    NameOfStem("No Finding");
  }

  lemma NameOfStem(disease: string)
    requires OutputStem(disease) == "no"
    ensures OutputName(disease) == "real_no_xray.mem"
  {
  }

  lemma NoFindingStem()
    ensures OutputStem("No Finding") == "no"
  {
    LowerNoFinding();
    SpaceToUnderscore();
    DropFinding();
  }

  lemma LowerNoFinding()
    ensures Lower("No Finding") == "no finding"
  {
    LowerEach("No Finding", "no finding");
  }

  /** A string lower-cases to `t` when each of its characters lower-cases
      to the character of `t` at the same place. */
  lemma LowerEach(s: string, t: string)
    requires |s| == |t| && forall k :: 0 <= k < |s| ==> LowerChar(s[k]) == t[k]
    ensures Lower(s) == t
  {
  }

  lemma SpaceToUnderscore()
    ensures ReplaceAll("no finding", " ", "_") == "no_finding"
  {
    var parts := ["no", "finding"];
    assert Join(parts, " ") == "no finding";
    SplitJoin(parts, ' ');
    assert Join(parts, "_") == "no_finding";
  }

  lemma DropFinding()
    ensures ReplaceAll("no_finding", "_finding", "") == "no"
  {
    assert "no_finding" == "no" + "_finding";
    MissingCharMissingWord("no", "_finding", 0);
    SplitAtSuffix("no", "_finding");
    assert Join(["no", ""], "") == "no";
  }

  /** Both pleural-thickening images, both pneumonia images and both
      infiltration images are written to one output file each: the later
      conversion overwrites the earlier. */
  lemma SharedOutputs()
    ensures DiseaseMapping[12].file != DiseaseMapping[13].file
    ensures OutputName(DiseaseMapping[12].disease) == OutputName(DiseaseMapping[13].disease)
    ensures DiseaseMapping[14].file != DiseaseMapping[17].file
    ensures OutputName(DiseaseMapping[14].disease) == OutputName(DiseaseMapping[17].disease)
    ensures DiseaseMapping[8].file != DiseaseMapping[16].file
    ensures OutputName(DiseaseMapping[8].disease) == OutputName(DiseaseMapping[16].disease)
  {
    SharedPair(12, 13);
    SharedPair(14, 17);
    SharedPair(8, 16);
  }

  /** Entries `a` and `b` read different image files for one disease. */
  lemma SharedPair(a: nat, b: nat)
    requires (a, b) in {(12, 13), (14, 17), (8, 16)}
    ensures a < |DiseaseMapping| && b < |DiseaseMapping|
    ensures DiseaseMapping[a].file != DiseaseMapping[b].file
    ensures OutputName(DiseaseMapping[a].disease) == OutputName(DiseaseMapping[b].disease)
  {
    var m := DiseaseMapping;
    if a == 12 {
      assert m[12].file[7] != m[13].file[7];
    } else if a == 14 {
      assert m[14].file[0] != m[17].file[0];
    } else {
      assert |m[8].file| != |m[16].file|;
      assert m[8].disease == "Infiltration";
      assert m[16].disease == "Infiltration";
    }
    SameDiseaseSameOutput(m[a], m[b]);
  }

  lemma SameDiseaseSameOutput(a: MappingEntry, b: MappingEntry)
    requires a.disease == b.disease
    ensures OutputName(a.disease) == OutputName(b.disease)
  {
  }

  // Widening and writing the pixels.

  /** `(p.astype(np.uint32) * 257).astype(np.uint16)` for an 8-bit pixel. */
  function Widen(p: nat): nat
    requires p <= 255
  {
    (p * 257) % 0x1_0000
  }

  /** The widening never wraps: it sends 0 to 0 and 255 to 0xFFFF, keeps
      the order strictly, and dividing by 257 gives the pixel back. */
  lemma WidenFacts(p: nat, q: nat)
    requires p <= 255 && q <= 255
    ensures Widen(p) == 257 * p < 0x1_0000
    ensures Widen(p) / 257 == p
    ensures p < q ==> Widen(p) < Widen(q)
    ensures Widen(0) == 0 && Widen(255) == 0xFFFF
  {
  }

  /** The line written for a pixel, `f"{pixel:04x}"` of the widened
      value. */
  function PixelLine(p: nat): string
    requires p <= 255
  {
    Hex4(Widen(p))
  }

  /** A pixel's line is its two hex digits written twice, and reads back as
      `257 p`. */
  lemma PixelLineFacts(p: nat)
    requires p <= 255
    ensures PixelLine(p) == Hex2(p) + Hex2(p)
    ensures ParseHexInt(PixelLine(p)) == Some(257 * p)
  {
    PixelLineDigits(p);
    PixelLineParses(p);
  }

  lemma PixelLineDigits(p: nat)
    requires p <= 255
    ensures PixelLine(p) == Hex2(p) + Hex2(p)
  {
    assert Widen(p) == 257 * p;
    Hex4OfRepeatedByte(p);
  }

  lemma PixelLineParses(p: nat)
    requires p <= 255
    ensures ParseHexInt(PixelLine(p)) == Some(257 * p)
  {
    var w := Widen(p);
    assert w == 257 * p;
    ParseHex4(w);
  }

  /** The write loop over the flattened image: one line per pixel, in
      order, each the pixel's hex digits twice, reading back as `257 p`. */
  method WritePixels(pixels: seq<nat>) returns (lines: seq<string>)
    requires forall k :: 0 <= k < |pixels| ==> pixels[k] <= 255
    ensures |lines| == |pixels|
    ensures forall k :: 0 <= k < |pixels| ==> lines[k] == Hex2(pixels[k]) + Hex2(pixels[k])
    ensures forall k :: 0 <= k < |pixels| ==> ParseHexInt(lines[k]) == Some(257 * pixels[k])
  {
    lines := [];
    for k := 0 to |pixels|
      invariant |lines| == k
      invariant forall j :: 0 <= j < k ==> lines[j] == PixelLine(pixels[j])
    {
      lines := lines + [Hex4(Widen(pixels[k]))];
    }
    forall k | 0 <= k < |pixels|
      ensures lines[k] == Hex2(pixels[k]) + Hex2(pixels[k])
      ensures ParseHexInt(lines[k]) == Some(257 * pixels[k])
    {
      PixelLineFacts(pixels[k]);
    }
  }

  // The conversion loop.

  /** What happened to one entry of the mapping: its image was missing, or
      it was found and converted, or found and its conversion failed. */
  datatype Outcome = Missing | Converted | ConversionFailed

  /** One line of the conversion log. */
  datatype LogEntry = LogEntry(input: string, output: string, disease: string, classIndex: int, success: bool)

  /** The log entry of a found image. */
  function EntryOf(e: MappingEntry, success: bool): LogEntry {
    LogEntry(e.file, OutputName(e.disease), e.disease, e.classIndex, success)
  }

  /** The log after the given entries: one line per found image, in
      order. */
  function LogOf(mapping: seq<MappingEntry>, outcomes: seq<Outcome>): seq<LogEntry>
    requires |outcomes| == |mapping|
  {
    LogWith(mapping, outcomes, EntryOf)
  }

  /** The log with the line of each found image given by `line`; the
      positions of the lines do not depend on what they say. */
  function LogWith(mapping: seq<MappingEntry>, outcomes: seq<Outcome>, line: (MappingEntry, bool) -> LogEntry): seq<LogEntry>
    requires |outcomes| == |mapping|
  {
    if |mapping| == 0 then []
    else
      var n := |mapping| - 1;
      LogWith(mapping[..n], outcomes[..n], line)
        + (if outcomes[n] == Missing then [] else [line(mapping[n], outcomes[n] == Converted)])
  }

  /** `convert_all_disease_images`: every entry adds one to exactly one of
      the two counters, and a found image adds its log line. */
  method ConvertAll(mapping: seq<MappingEntry>, outcomes: seq<Outcome>)
    returns (converted: nat, failed: nat, log: seq<LogEntry>)
    requires |outcomes| == |mapping|
    ensures converted == Count(outcomes, Converted)
    ensures failed == Count(outcomes, Missing) + Count(outcomes, ConversionFailed)
    ensures converted + failed == |mapping|
    ensures log == LogOf(mapping, outcomes)
  {
    converted, failed, log := 0, 0, [];
    for k := 0 to |mapping|
      invariant converted == Count(outcomes[..k], Converted)
      invariant failed == Count(outcomes[..k], Missing) + Count(outcomes[..k], ConversionFailed)
      invariant converted + failed == k
      invariant log == LogOf(mapping[..k], outcomes[..k])
    {
      CountsStep(outcomes, k);
      LogStep(mapping, outcomes, k);
      var e := mapping[k];
      if outcomes[k] != Missing {
        var name := OutputName(e.disease);
        if outcomes[k] == Converted {
          converted := converted + 1;
          log := log + [LogEntry(e.file, name, e.disease, e.classIndex, true)];
        } else {
          failed := failed + 1;
          log := log + [LogEntry(e.file, name, e.disease, e.classIndex, false)];
        }
      } else {
        failed := failed + 1;
      }
    }
    assert outcomes[..|mapping|] == outcomes;
    assert mapping[..|mapping|] == mapping;
  }

  /** One more entry: the counters of its outcome go up by one. */
  lemma CountsStep(outcomes: seq<Outcome>, k: nat)
    requires k < |outcomes|
    ensures forall o :: Count(outcomes[..k + 1], o) == Count(outcomes[..k], o) + (if outcomes[k] == o then 1 else 0)
  {
    assert outcomes[..k + 1] == outcomes[..k] + [outcomes[k]];
    forall o ensures Count(outcomes[..k + 1], o) == Count(outcomes[..k], o) + (if outcomes[k] == o then 1 else 0) {
      CountSnoc(outcomes[..k], outcomes[k], o);
    }
  }

  /** One more entry: a found image appends its line to the log. */
  lemma LogStep(mapping: seq<MappingEntry>, outcomes: seq<Outcome>, k: nat)
    requires |outcomes| == |mapping| && k < |mapping|
    ensures LogOf(mapping[..k + 1], outcomes[..k + 1]) == LogOf(mapping[..k], outcomes[..k])
      + (if outcomes[k] == Missing then [] else [EntryOf(mapping[k], outcomes[k] == Converted)])
  {
    assert mapping[..k + 1][..k] == mapping[..k];
    assert outcomes[..k + 1][..k] == outcomes[..k];
  }

  /** The number of found images before entry `k`. */
  function FoundBefore(outcomes: seq<Outcome>, k: nat): nat
    requires k <= |outcomes|
  {
    k - Count(outcomes[..k], Missing)
  }

  /** The log has one line per found image and nothing else: its length is
      the number of found images, and the image of entry `k`, when found,
      has its line at position `FoundBefore(outcomes, k)`, marked a success
      exactly when its conversion succeeded. */
  lemma LogLines(mapping: seq<MappingEntry>, outcomes: seq<Outcome>, k: nat)
    requires |outcomes| == |mapping| && k < |mapping|
    ensures |LogOf(mapping, outcomes)| == |mapping| - Count(outcomes, Missing)
    ensures outcomes[k] != Missing ==>
      FoundBefore(outcomes, k) < |LogOf(mapping, outcomes)|
      && LogOf(mapping, outcomes)[FoundBefore(outcomes, k)] == EntryOf(mapping[k], outcomes[k] == Converted)
  {
    LinesWith(mapping, outcomes, EntryOf, k);
  }

  lemma {:induction false} LinesWith(mapping: seq<MappingEntry>, outcomes: seq<Outcome>, line: (MappingEntry, bool) -> LogEntry, k: nat)
    requires |outcomes| == |mapping| && k < |mapping|
    ensures |LogWith(mapping, outcomes, line)| == |mapping| - Count(outcomes, Missing)
    ensures outcomes[k] != Missing ==>
      FoundBefore(outcomes, k) < |LogWith(mapping, outcomes, line)|
      && LogWith(mapping, outcomes, line)[FoundBefore(outcomes, k)] == line(mapping[k], outcomes[k] == Converted)
    decreases |mapping|, 1
  {
    LengthWith(mapping, outcomes, line);
    if outcomes[k] != Missing {
      if k < |mapping| - 1 {
        EarlierLine(mapping, outcomes, line, k);
      } else {
        LastLine(mapping, outcomes, line);
      }
    }
  }

  /** An image found before the last entry keeps the line it has in the
      log of the earlier entries. */
  lemma {:induction false} EarlierLine(mapping: seq<MappingEntry>, outcomes: seq<Outcome>, line: (MappingEntry, bool) -> LogEntry, k: nat)
    requires |outcomes| == |mapping| && k < |mapping| - 1 && outcomes[k] != Missing
    ensures FoundBefore(outcomes, k) < |LogWith(mapping, outcomes, line)|
      && LogWith(mapping, outcomes, line)[FoundBefore(outcomes, k)] == line(mapping[k], outcomes[k] == Converted)
    decreases |mapping|, 0
  {
    var n := |mapping| - 1;
    var m, o := mapping[..n], outcomes[..n];
    var before := LogWith(m, o, line);
    LinesWith(m, o, line, k);
    assert o[..k] == outcomes[..k];
    assert m[k] == mapping[k] && o[k] == outcomes[k];
  }

  /** A found last image has the last line of the log. */
  lemma LastLine(mapping: seq<MappingEntry>, outcomes: seq<Outcome>, line: (MappingEntry, bool) -> LogEntry)
    requires |outcomes| == |mapping| > 0 && outcomes[|mapping| - 1] != Missing
    ensures var n := |mapping| - 1;
      FoundBefore(outcomes, n) < |LogWith(mapping, outcomes, line)|
      && LogWith(mapping, outcomes, line)[FoundBefore(outcomes, n)] == line(mapping[n], outcomes[n] == Converted)
  {
    var n := |mapping| - 1;
    LengthWith(mapping[..n], outcomes[..n], line);
  }

  /** The log has one line per found image. */
  lemma {:induction false} LengthWith(mapping: seq<MappingEntry>, outcomes: seq<Outcome>, line: (MappingEntry, bool) -> LogEntry)
    requires |outcomes| == |mapping|
    ensures |LogWith(mapping, outcomes, line)| == |mapping| - Count(outcomes, Missing)
  {
    if |mapping| > 0 {
      var n := |mapping| - 1;
      LengthWith(mapping[..n], outcomes[..n], line);
      assert outcomes == outcomes[..n] + [outcomes[n]];
      CountSnoc(outcomes[..n], outcomes[n], Missing);
    }
  }
}
