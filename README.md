# Fixed-point scoring, diagnosis and evaluation of a chest X-ray classifier

The system classifies chest X-rays into fifteen conditions (No Finding,
Infiltration, Atelectasis, Effusion, Nodule, Pneumothorax, Mass,
Consolidation, Pleural Thickening, Cardiomegaly, Emphysema, Fibrosis, Edema,
Pneumonia, Hernia) on a MobileNetV3 accelerator. A simulator runs the
accelerator; Python scripts around it prepare its inputs and read its
outputs. Every value that crosses the boundary is a 16-bit two's-complement
word in Q8.8 fixed point: 8 integer bits and 8 fractional bits, written as
four hex digits per line in a `.mem` file.

This project models the deterministic core of those scripts and proves
properties of it:

- **Decoding.** A word is sign-extended at 2^15 and divided by 256. The
  probability saturates to exactly 1.0 above +5.0 and to exactly 0.0 below
  -5.0. Otherwise the logistic function is applied (modules `FixedPoint`
  and `Hex`).
- **Export.** Weights and images are quantised by rounding, clipping and an
  int16 cast, then written as `.mem` lines (`Exporters`, `ImageConvert`).
- **Diagnosis.** The primary class is the first maximum, secondary findings
  lie above 0.3, and urgency comes from a fixed table (`HexOutputs`,
  `Demo`, `FinalLayerSim`).
- **Parsing.** Simulator dumps are split into test sections, with a
  zero-vector fallback (`DiseaseResults`, `FinalLayerAnalysis`,
  `Validation`). Summary tables, test-file names and analysis output are
  also parsed (`AllDiseases`, `TestRunner`).
- **Evaluation.** The batch evaluation covers accuracy with its zero guard,
  per-disease tallies, the confusion matrix, statistics, rating and grade
  bands, sorting, and the generated test cases (`Emergency`, `AllDiseases`,
  `TestReport`, `TestRunner`, `TestCaseGen`).

Modules and the files they model:

- `FixedPoint`: `src/analyze_disease_hex_outputs.py` `fixed_to_probability`,
  and the 16-bit reinterpretations shared by the other files.
- `Hex`: `int(s, 16)` and four-digit hex output.
- `Text`, `Seqs`, `Stats`: `str.split`/`join`/`strip`/`lower`/`replace`,
  order-preserving de-duplication and counting, and sums, means, variance,
  minimum and maximum.
- `HexOutputs`: `src/analyze_disease_hex_outputs.py`.
- `Demo`: `demo_medical_analysis.py`.
- `Emergency`: `analyze_emergency_results.py`. `src/analyze_emergency_results.py`
  is the same text, so it is modelled once.
- `AllDiseases`: `FULL_TOP/analyze_all_diseases_results.py`.
- `TestReport`: `analyze_test_results.py`. `src/analyze_test_results.py` is
  identical.
- `TestRunner`: `run_disease_test_cases.py`. `src/run_disease_test_cases.py`
  is identical.
- `DiseaseResults`: `analyze_disease_results.py`.
- `FinalLayerAnalysis`: `models/final_layer/analyze_final_layer_results.py`.
  Its `read_testbench_output` (lines 19-54) is the parser of
  `analyze_disease_results.py` line for line, so `DiseaseResults.ReadHardwareOutput`
  models both.
- `Validation`: `src/validate_disease_classification.py`.
- `FinalLayerSim`: `test_new_final_layer.py`.
- `Exporters`: `src/export_mobilenetv3_weights_for_hw.py` and
  `final_layer/export_test_image_to_mem.py`.
- `TestCaseGen`: `generate_disease_test_cases.py`.
- `ImageConvert`: `convert_all_disease_images.py`.
  `src/convert_all_disease_images.py` differs only in the encoding of its
  messages.

Simulator runs, subprocesses, files, clocks and random numbers are not
modelled. Where the scripts consume what these produce, the model takes it
as a parameter: the outcome of a run, the lines of a file, the order a
directory listing gives, a noise array or a shift offset.

## Model

| member | source | states |
|---|---|---|
| FixedPoint.SignExtend16 | src/analyze_disease_hex_outputs.py:54-55 | a word below 2^15 is kept; a word in [0, 2^16) reads as the int16 value congruent to it modulo 2^16, in [-2^15, 2^15) |
| FixedPoint.Wrap16 | src/export_mobilenetv3_weights_for_hw.py:24 | `np.uint16(v)` is the word in [0, 2^16) congruent to `v` modulo 2^16, and a word is kept |
| FixedPoint.SignExtendWrap | models/final_layer/analyze_final_layer_results.py:11-13 | an int16 value written as a uint16 word and reinterpreted as int16 is the value again |
| FixedPoint.WrapSignExtend | models/final_layer/analyze_final_layer_results.py:11-13 | a word reinterpreted as int16 and wrapped back is the word again: the two readings are inverse bijections |
| FixedPoint.MemLines | src/export_mobilenetv3_weights_for_hw.py:21-25 | the file has one line per value, line `k` being the exported line of value `k` |
| FixedPoint.MemLineRoundTrip | src/export_mobilenetv3_weights_for_hw.py:24-25 | every exported line is four lower-case hex digits, parses as hex, and sign-extends back to the value |
| FixedPoint.SaturationIff | src/analyze_disease_hex_outputs.py:58-66 | the probability is exactly 1.0 iff the signed value exceeds 1280 and exactly 0.0 iff it is below -1280; 1280 itself takes the logistic branch |
| FixedPoint.ProbabilityRange | src/analyze_disease_hex_outputs.py:58-66 | every probability lies in [0, 1] |
| FixedPoint.ProbabilityMonotone | src/analyze_disease_hex_outputs.py:58-66 | the probability never decreases as the signed value grows |
| FixedPoint.ProbabilityLandmarks | demo_medical_analysis.py:48-63 | raw 0 gives exactly 0.5, raw 0x0500 (5.0) is strictly inside (0, 1), raw 0x0501 gives 1.0 |
| FixedPoint.WordSaturation | src/analyze_disease_hex_outputs.py:51-66 | on words: 1.0 exactly for 0x0500 < raw < 0x8000, 0.0 exactly for 0x8000 <= raw < 0x10000 - 1280 |
| Hex.HexPad | src/export_mobilenetv3_weights_for_hw.py:25 | `f'{v:0{w}x}'` of a value that fits is exactly `w` lower-case hex digits whose value is `v` |
| Hex.ParseHexDigits | src/validate_disease_classification.py:23 | `int(s, 16)` of a bare string of hex digits succeeds with the digits' value |
| Hex.ParseHexPad | src/validate_disease_classification.py:23 | parsing a written field gives back the value written |
| Hex.ParseHex4 | convert_all_disease_images.py:159 | a four-digit line parses back as the 16-bit value written |
| Hex.Hex4OfRepeatedByte | convert_all_disease_images.py:148-159 | widening a byte `p` to `p * 257` stays below 2^16, and its four digits are the byte's two digits twice |
| Text.IndexFrom | run_disease_test_cases.py:32-34 | `s.find(sep, i)`: a found index is at or after `i`, `sep` occurs there and nowhere before it; no index at all means `sep` occurs nowhere from `i` on |
| Text.JoinSplit | analyze_disease_results.py:41 | joining the pieces of `s.split(sep)` with `sep` gives `s` back |
| Text.SplitPiecesLackSeparator | analyze_disease_results.py:41 | no piece of a split contains the separator |
| Text.SplitHead | run_disease_test_cases.py:32 | the first piece of a split is everything before the first occurrence (the whole string when there is none), and there are two or more pieces exactly when the separator occurs |
| Text.SplitJoin | FULL_TOP/analyze_all_diseases_results.py:78 | splitting on a character that no field contains undoes joining the fields with it |
| Text.Strip | analyze_disease_results.py:55 | `s.strip()` is the slice of `s` between its leading and trailing whitespace, and neither end of a non-empty result is whitespace; whitespace is what `str.isspace()` accepts, the ASCII controls 9-13 and 28-31, the space and the Unicode spaces |
| Text.StripPadded | analyze_disease_results.py:55 | stripping whitespace padding around a field that neither starts nor ends with whitespace gives the field |
| TestRunner.LowerAppend | run_disease_test_cases.py:126 | `s.lower()` works character by character: lower-casing a concatenation lower-cases each part |
| Text.NatToString | generate_disease_test_cases.py:136 | `str(n)` is a non-empty string of decimal digits whose value is `n` |
| Text.RStripChar | run_disease_test_cases.py:93 | `rstrip(c)`: a prefix of the text, not ending in `c`, with only `c` removed |
| Seqs.KeepFirst | src/analyze_disease_hex_outputs.py:327-333 | the order-preserving de-duplication has no duplicates, holds every input element and nothing else, and is no longer than the input |
| Seqs.KeepFirstOrder | src/analyze_disease_hex_outputs.py:327-333 | the kept elements appear in the order of their first occurrences in the input |
| Seqs.CountsOfKeepFirst | analyze_emergency_results.py:205-216 | counting the occurrences of each distinct element counts every element exactly once |
| Stats.Minimum | analyze_emergency_results.py:222 | `min` is an element no element is below |
| Stats.Maximum | analyze_emergency_results.py:223 | `max` is an element no element is above |
| Stats.MeanBetween | analyze_emergency_results.py:219-224 | the mean of a non-empty list lies between its minimum and maximum |
| Stats.MeanBounds | models/final_layer/analyze_final_layer_results.py:128-135 | bounds on every element bound the mean |
| Stats.VarianceNonNegative | analyze_emergency_results.py:226 | the population variance is never negative |
| Stats.VarianceZeroIff | analyze_emergency_results.py:471-475 | the population variance is zero exactly when all elements are equal |
| Stats.ReachedMonotone | FULL_TOP/analyze_all_diseases_results.py:155-164 | a larger value reaches at least as many thresholds of a band chain |
| Stats.FractionFacts | analyze_test_results.py:86-88 | `correct / total` of a positive total lies in [0, 1], is 1 exactly when all are correct, and 0 when none is |
| Emergency.CorrectCount | analyze_emergency_results.py:168 | the number of correct records never exceeds the number of records |
| Emergency.AccuracyRange | analyze_emergency_results.py:167-169 | the guarded accuracy lies in [0, 100], is 0 with no records, and with records is 100 exactly when all are correct |
| Emergency.RatingOf | analyze_emergency_results.py:183 | EXCELLENT exactly above 90, GOOD exactly in (70, 90], NEEDS IMPROVEMENT exactly at or below 70: exactly 90 is GOOD and exactly 70 needs improvement |
| Emergency.TotalForIsCount | analyze_emergency_results.py:205-212 | the total of a disease is the number of records with that name |
| Emergency.CorrectWithinTotal | analyze_emergency_results.py:210-212 | a disease's correct count never exceeds its total |
| Emergency.TallyOfIsTally | analyze_emergency_results.py:205-212 | the loop's dictionary holds the diseases in first-seen order, each with its correct and total counts |
| Emergency.TallyTotals | analyze_emergency_results.py:205-216 | the per-disease totals add up to the number of records, and each entry has 1 <= total and correct <= total, so the per-disease division is safe |
| Emergency.ConfidenceAnalysisOrdered | analyze_emergency_results.py:219-227 | the confidence statistics exist exactly when there are records, and then minimum <= average <= maximum and variance >= 0 |
| Emergency.RowSumIsExpectedCount | analyze_emergency_results.py:377-379 | row `e` of the confusion matrix adds up to the number of records expecting class `e` |
| Emergency.MatrixSumIsCount | analyze_emergency_results.py:377-379 | the cells of the confusion matrix add up to the number of records |
| Emergency.ResultsAnalyzer.constructor | analyze_emergency_results.py:50-51 | a new analyzer holds no results and no score vectors |
| Emergency.ResultsAnalyzer.AddResult | analyze_emergency_results.py:87-98 | a record is appended to `results`, and its scores to `scores_data` only when non-empty; only non-empty score lists are ever stored |
| Emergency.ResultsAnalyzer.DiseasePerformance | analyze_emergency_results.py:205-212 | the loop's order and counters are the first-seen tally of the records |
| Emergency.ResultsAnalyzer.GenerateTextualReport | analyze_emergency_results.py:165-227 | no report (the `IndexError` of lines 191-192) exactly when some record's expected or predicted class lies outside 0..14; otherwise total, correct, incorrect = total - correct >= 0, the guarded accuracy, its rating, the tally and the confidence statistics of the stored records |
| Emergency.ResultsAnalyzer.ConfusionMatrix | analyze_emergency_results.py:369-379 | no matrix without records, nor for a class outside 0..14 (the `IndexError` of line 379); otherwise a fresh 15 by 15 matrix whose cell `[e][p]` counts the records expecting `e` and predicting `p` |
| Emergency.ResultsAnalyzer.ScoreVariances | analyze_emergency_results.py:471-475 | one population variance per stored score list, in order; none divides by zero since every stored list is non-empty |
| DiseaseResults.Int16Of | analyze_disease_results.py:63 | the int16 cast lands in [-2^15, 2^15) and keeps a value already in range |
| DiseaseResults.TestNameRoundTrip | analyze_disease_results.py:49 | a heading `<index>: <name> ===` gives back exactly `<name>` |
| DiseaseResults.HeadingSplitsOnce | analyze_disease_results.py:49 | a heading with one `: ` after a colon-free index splits into the index and the rest |
| DiseaseResults.LineValues | analyze_disease_results.py:53-60 | each line after the heading contributes the value of its stripped text when it is non-empty, does not start with `===` and parses as hex, and nothing otherwise |
| DiseaseResults.ParseValues | analyze_disease_results.py:53-60 | the inner loop collects exactly the values of the lines that parse, in order, skipping the rest |
| DiseaseResults.OutputVector | analyze_disease_results.py:62-66 | a section yields a vector of `num_classes` int16 scores: its values cast to int16 when there are exactly `num_classes` of them, the zero vector otherwise |
| DiseaseResults.SectionOf | analyze_disease_results.py:43-66 | a named section always yields a vector of `num_classes` int16 scores |
| DiseaseResults.ReadSections | analyze_disease_results.py:43-68 | the outputs and the test names have equal length, at most one per section, and every output has `num_classes` scores |
| DiseaseResults.ReadHardwareOutput | analyze_disease_results.py:32-68 | the loop over the sections after the first `=== Test` returns what the section-by-section reading gives, failing on a heading without `: ` |
| DiseaseResults.ReadSectionsFails | analyze_disease_results.py:49 | a section of two or more lines whose heading has no `: ` makes the whole read fail, as Python's `IndexError` does |
| DiseaseResults.ReadSectionsInRange | analyze_disease_results.py:62-66 | every score a read produces is an int16 |
| DiseaseResults.MemLineValue | analyze_disease_results.py:53-60 | a four-digit line written for an int16 value contributes that value's word |
| DiseaseResults.MemLinesValues | analyze_disease_results.py:53-60 | reading back the lines written for some int16 scores gives their words, in order |
| DiseaseResults.MemLinesRoundTrip | analyze_disease_results.py:53-66 | a section written for `n` int16 scores reads back as exactly those scores |
| DiseaseResults.ArgMax | analyze_disease_results.py:78 | `np.argmax` is an index of a largest score, and every earlier score is strictly smaller: the first maximum |
| DiseaseResults.BestBelow | analyze_disease_results.py:87 | the best index not yet chosen exists exactly when an index is left, and no unchosen index scores higher |
| DiseaseResults.TopKIsTop | analyze_disease_results.py:87 | the top `k` is `min(k, n)` distinct indices, best first, none outscored by an index left out |
| DiseaseResults.Top3 | analyze_disease_results.py:87-90 | the three indices the report lists are the top three in that sense |
| DiseaseResults.TopStartsAtMax | analyze_disease_results.py:78-90 | the first of the top three has the largest score, the same score as `np.argmax` |
| DiseaseResults.ConfidencePctRange | analyze_disease_results.py:93-98 | with the magnitudes taken in a wide integer, the confidence percentage lies in [-100, 100] |
| DiseaseResults.ConfidenceAgrees | analyze_disease_results.py:93-98 | as long as no score is -32768, the int16 `np.abs` and the wide magnitudes give the same confidence |
| DiseaseResults.ConfidenceAboveHundred | analyze_disease_results.py:93-95 | on scores 0x8000, 0x7fff, 0x7fff and twelve zeros, the confidence as written exceeds 100% while the wide one stays below |
| DiseaseResults.CountPredictions | analyze_disease_results.py:154-156 | `disease_counts[c]` ends as the number of predictions of class `c` |
| DiseaseResults.CountsAddUp | analyze_disease_results.py:154-156 | the prediction counts over all classes add up to the number of predictions |
| DiseaseResults.Predictions | analyze_disease_results.py:121-124 | one prediction per output, the first maximum of that output |
| FinalLayerAnalysis.MemValue | models/final_layer/analyze_final_layer_results.py:11-13 | a line gives a value exactly when its stripped text parses as hex; the value is an int16, and for a word it is the word reinterpreted as signed |
| FinalLayerAnalysis.MemValueOfMemLine | models/final_layer/analyze_final_layer_results.py:11-13 | the line exported for an int16 value reads back as the value |
| FinalLayerAnalysis.ReadMemFile | models/final_layer/analyze_final_layer_results.py:8-16 | `read_mem_file` succeeds exactly when every line parses, and then gives one value per line, in order; a length other than `num_classes` is only warned about |
| FinalLayerAnalysis.ReadMemRoundTrip | models/final_layer/analyze_final_layer_results.py:8-16 | a file written as one exported line per int16 score reads back as exactly those scores |
| FinalLayerAnalysis.Reference | models/final_layer/analyze_final_layer_results.py:76-81 | without a software file the reference is the zero vector, otherwise it is what the file reads as |
| FinalLayerAnalysis.AbsErrors | models/final_layer/analyze_final_layer_results.py:106 | every element error is non-negative and zero exactly where the two vectors agree |
| FinalLayerAnalysis.MeanAbsErrorZeroIff | models/final_layer/analyze_final_layer_results.py:104-107 | the mean absolute error is never negative, and zero exactly when the hardware vector equals the software vector |
| FinalLayerAnalysis.MaxAbsErrorZeroIff | models/final_layer/analyze_final_layer_results.py:161-163 | the largest absolute error is never negative, and zero exactly when the two vectors are equal |
| FinalLayerAnalysis.Broadcast | models/final_layer/analyze_final_layer_results.py:106 | `hw_out - sw_output` pairs equal lengths element by element and repeats a one-value array; any other pair of lengths is the `ValueError` |
| FinalLayerAnalysis.BroadcastEqualLengths | models/final_layer/analyze_final_layer_results.py:106 | arrays of equal length are compared as they are |
| FinalLayerAnalysis.BroadcastOneValue | models/final_layer/analyze_final_layer_results.py:106 | a one-value software reference is compared with every hardware score |
| FinalLayerAnalysis.MeanAbsErrors | models/final_layer/analyze_final_layer_results.py:103-107 | no errors against an empty reference; otherwise one mean absolute error per testcase, in order, over the broadcast pair, and failure exactly when some testcase does not broadcast against the reference |
| FinalLayerAnalysis.Column | models/final_layer/analyze_final_layer_results.py:118-119 | column `c` holds class `c`'s score of every testcase |
| FinalLayerAnalysis.Spread | models/final_layer/analyze_final_layer_results.py:118-119 | corrected: a class's spread is the largest difference between two of its scores, never negative |
| FinalLayerAnalysis.OutputRanges | models/final_layer/analyze_final_layer_results.py:118-119 | `np.ptp` on the stacked int16 outputs gives one int16 range per class, the spread wrapped into [-2^15, 2^15) |
| FinalLayerAnalysis.OutputRangesFacts | models/final_layer/analyze_final_layer_results.py:118-119 | a range is the spread when the spread is below 2^15 and the spread minus 2^16, a negative value, from there on; it is zero exactly when that class scores the same in every testcase |
| FinalLayerAnalysis.RangeWraps | models/final_layer/analyze_final_layer_results.py:118-119 | as written: a class scoring -32768 in one testcase and 0 in another gets the range -32768 |
| FinalLayerAnalysis.StatsOf | models/final_layer/analyze_final_layer_results.py:128-135 | per testcase, min <= mean <= max, the variance is non-negative, min and max are scores, and every score lies between them |
| FinalLayerAnalysis.StatsFlatIff | models/final_layer/analyze_final_layer_results.py:128-135 | a testcase's variance is zero exactly when all its scores are equal |
| FinalLayerAnalysis.TestcaseStats | models/final_layer/analyze_final_layer_results.py:127-135 | the statistics loop gives one entry per testcase, in order |
| Validation.ClassOrderDiffers | src/validate_disease_classification.py:13-18 | this script's class table has 15 names, starts with Atelectasis and ends with No Finding, and no index carries the same name as in the table the other scripts use |
| Validation.HexToSignedInt | src/validate_disease_classification.py:20-28 | text that does not parse gives 0; a parsed word above 32767 loses 2^16, any other parsed word is kept |
| Validation.ShortHexInRange | src/validate_disease_classification.py:20-26 | one to four hex digits always decode into [-32768, 32767] |
| Validation.HexToSignedIntOfMemLine | src/validate_disease_classification.py:23-26 | decoding the exporters' line for an int16 value gives the value back |
| Validation.ZeroIsAmbiguous | src/validate_disease_classification.py:27-28 | unparsable text decodes to the same 0 as the genuine word 0 |
| Validation.BannerScoredAsZero | src/validate_disease_classification.py:49-53 | a closing banner such as `=== End ===` is scored, as 0, where the hardware-output parser skips it |
| Validation.ScoreOfs | src/validate_disease_classification.py:49-53 | every line after the heading is scored on its own: non-blank lines other than exactly `===` give a score |
| Validation.ReadScores | src/validate_disease_classification.py:49-53 | the score loop collects the scores of the scored lines, in order |
| Validation.NameCheckOf | src/validate_disease_classification.py:66-84 | only the three named tests are checked; the name check passes exactly for a non-zero maximum on real data or all-ones input, and a zero maximum on all-zeros input |
| Validation.IdenticalIff | src/validate_disease_classification.py:87-91 | the set of scores has one element exactly when all scores are equal |
| Validation.SectionVerdict | src/validate_disease_classification.py:44-94 | a section with exactly 15 scores is analysed, predicting the first index of the maximum, with the name check and the identical-scores flag; any other count is reported invalid |
| Validation.SectionVerdicts | src/validate_disease_classification.py:44 | one verdict per section, in order |
| Validation.AnalyzeHardwareOutputs | src/validate_disease_classification.py:41-94 | one verdict per section after the first `=== Test`, or failure exactly when some heading has no `:` |
| FinalLayerSim.Contribution | test_new_final_layer.py:61-71 | what a sample adds to an accumulator is at least its base input times the weight: every term is non-negative |
| FinalLayerSim.Accumulate | test_new_final_layer.py:56-71 | the nested loop leaves each accumulator at the sum of its contributions over all samples |
| FinalLayerSim.AccumulatedLowerBound | test_new_final_layer.py:59-71 | `m` samples add at least the weight times the sum of their base inputs |
| FinalLayerSim.FinalScore | test_new_final_layer.py:77-90 | every final score lies in [0, 0xFFFF]; it is 0xFFFF exactly when the shifted and adjusted accumulator reaches it, and otherwise equals it |
| FinalLayerSim.FinalScoreMonotone | test_new_final_layer.py:77-90 | a larger accumulator never gives a smaller final score |
| FinalLayerSim.BoostAndReduction | test_new_final_layer.py:81-84 | from equal accumulators No Finding scores lowest and Pneumonia highest |
| FinalLayerSim.ComputeFinalScores | test_new_final_layer.py:75-90 | the scoring loop gives one final score per accumulator, in order |
| FinalLayerSim.RunAccumulators | test_new_final_layer.py:14-30 | with the script's weights, every accumulator after 100 samples is at least 347500 times 0x0700 |
| FinalLayerSim.LargeAccumulatorClamps | test_new_final_layer.py:77-90 | such an accumulator clamps to 0xFFFF whatever the condition |
| FinalLayerSim.LocalReadingOfAllOnes | test_new_final_layer.py:117-127 | the local decoding without sign extension reads 0xFFFF as certain, while the shared decoding reads it as -1/256, below one half |
| FinalLayerSim.SimulateFinalLayer | test_new_final_layer.py:56-127 | all 15 scores clamp to 0xFFFF, so the first maximum is index 0 (No Finding) and the printed probability is 1.0 |
| HexOutputs.UrgencyOf | src/analyze_disease_hex_outputs.py:227-235 | (also lines 278-286, whose saved report follows the same table): HIGH exactly for Pneumothorax (5), MODERATE exactly for 2, 6 and 13, LOW exactly for No Finding (0), STANDARD for every other index: the cases are disjoint and exhaustive |
| HexOutputs.ParseWordsAt | src/analyze_disease_hex_outputs.py:182-187 | token `j` is read with `int(token, 16)`, failing where that raises `ValueError` |
| HexOutputs.Scored | src/analyze_disease_hex_outputs.py:180-191 | the accepted words among the first `n`, in ascending token position, each at a position below `n` whose word parsed |
| HexOutputs.ScoredSound | src/analyze_disease_hex_outputs.py:189-191 | each entry carries `fixed_to_probability` of the word at its token position |
| HexOutputs.ScoredComplete | src/analyze_disease_hex_outputs.py:180-206 | every parsed word among the first `n` has its entry; only rejected tokens are missing |
| HexOutputs.ScoredAligned | src/analyze_disease_hex_outputs.py:180-191 | when every token parses, list position `k` holds token `k` |
| HexOutputs.Probs | src/analyze_disease_hex_outputs.py:191 | the `probabilities` list holds the entries' probabilities, in order |
| HexOutputs.SelectIsFirstMax | src/analyze_disease_hex_outputs.py:177-178 | the running best starting from (0.0, index 0) with strict `>` is a maximal probability, reached by no earlier token; a best of 0.0 means primary index 0 |
| HexOutputs.SelectFirstMaxAt | src/analyze_disease_hex_outputs.py:194-196 | conversely, a positive entry that no entry exceeds and every earlier entry falls short of is the one chosen |
| HexOutputs.ScoreWords | src/analyze_disease_hex_outputs.py:176-206 | the scoring loop builds exactly the scored entries, their probabilities and the running best |
| HexOutputs.SecondaryFindings | src/analyze_disease_hex_outputs.py:216-224 | corrected: the secondary findings the report evidently means, the conditions other than the primary whose own word decodes above 0.3, in ascending order (the loop as written is `SecondaryByPosition`) |
| HexOutputs.ListSecondary | src/analyze_disease_hex_outputs.py:218-222 | the `enumerate(probabilities)` loop (also lines 270-273 of the saved report, and `demo_medical_analysis.py:136-142`) lists exactly the positions of `SecondaryByPosition`, by list position and not by condition |
| HexOutputs.Diagnose | src/analyze_disease_hex_outputs.py:152-293 | no report with fewer than 15 tokens; otherwise only the first 15 are scored, the primary is the first maximal condition (0 when nothing beats 0.0), the secondary findings are the list positions of `SecondaryByPosition` (the conditions of `SecondaryFindings` when all 15 tokens parse), and the urgency is the primary's |
| HexOutputs.SecondaryByPosition | src/analyze_disease_hex_outputs.py:219-220 | as written: list positions other than the primary's token position whose probability is above 0.3, in ascending order |
| HexOutputs.SecondaryAgreesWhenAligned | src/analyze_disease_hex_outputs.py:219-220 | when all 15 tokens parse, listing by position and listing by condition agree |
| HexOutputs.ScoredSkipsRejected | src/analyze_disease_hex_outputs.py:205-206 | rejected tokens add no entries |
| HexOutputs.SecondaryMisaligned | src/analyze_disease_hex_outputs.py:190-191 | with token 0 rejected and tokens 1 and 2 saturating, listing by position reports the primary itself and misses token 2 |
| HexOutputs.GroupSizes | src/analyze_disease_hex_outputs.py:159-162 | each of the three size groups holds at most all the tokens |
| HexOutputs.PrefixedByteCountedTwice | src/analyze_disease_hex_outputs.py:160-161 | a prefixed byte such as `0xab` lands in both the 8-bit and the 16-bit group |
| HexOutputs.GroupSizesByDigits | src/analyze_disease_hex_outputs.py:159-162 | grouping by digit count puts each token in at most one group |
| HexOutputs.GroupSizesByDigitsAgree | src/analyze_disease_hex_outputs.py:159-162 | for tokens without `0x` the two groupings agree |
| HexOutputs.PrefixedByteCountedOnce | src/analyze_disease_hex_outputs.py:160-161 | grouping by digit count puts `0xab` in the 8-bit group only |
| HexOutputs.Dedup | src/analyze_disease_hex_outputs.py:327-333 | the loop keeps the first occurrence of each token: no duplicates, the same elements as the input, first-occurrence order |
| Demo.DemonstrateAnalysis | demo_medical_analysis.py:98-153 | every token is scored; the primary is the running best, the secondary findings are listed by position and the urgency follows the table |
| Demo.AcceptedScores | demo_medical_analysis.py:102-109 | on words that all parse, entry `k` holds word `k`'s probability |
| Demo.ScenarioHighWordsDecodeToZero | demo_medical_analysis.py:168-183 | 0x8000 and 0x9000 sign-extend to -32768 and -28672 and both decode to exactly 0.0 |
| Demo.SampleScores | demo_medical_analysis.py:69-85 | on the sample vector every word decodes into (0.3, 1.0], and word 1 (0x1234) to exactly 1.0 |
| Demo.SamplePrimary | demo_medical_analysis.py:112-114 | on the sample vector word 1, the first to reach 1.0, is primary and later 1.0 words cannot displace it; its urgency is STANDARD |
| Demo.SampleSecondary | demo_medical_analysis.py:137-142 | on the sample vector every position other than the primary's is a secondary finding |
| Demo.PositiveWord | demo_medical_analysis.py:48-63 | a positive word below the sign bit decodes above one half, to exactly 1.0 beyond 0x0500 |
| Demo.EmergencyScenario | demo_medical_analysis.py:181-216 | in the Pneumothorax Emergency scenario 0x9000 decodes to 0.0, so index 0 (0x0000, 0.5) is primary with LOW urgency |
| Demo.NormalScenario | demo_medical_analysis.py:166-218 | in the Normal X-ray scenario 0x8000 decodes to 0.0, so index 1 (0.5) is primary with STANDARD urgency |
| Demo.PneumoniaScenario | demo_medical_analysis.py:173-218 | in the Pneumonia Case scenario 0x1234 saturates at Infiltration (1), which is primary, and Pneumothorax's 0x9000 decodes to 0.0 |
| Demo.ZeroesElsewhere | demo_medical_analysis.py:195-206 | with zero words everywhere but one word decoding to 0.0, the first other index is primary at 0.5 |
| AllDiseases.Kinds | FULL_TOP/analyze_all_diseases_results.py:68-84 | one line kind per line of the summary |
| AllDiseases.Found | FULL_TOP/analyze_all_diseases_results.py:72-82 | the row each line would give, one per line |
| AllDiseases.ParseTable | FULL_TOP/analyze_all_diseases_results.py:64-84 | the table loop with its `in_results_table` flag records exactly the rows the line-by-line reading gives |
| AllDiseases.SkipUntilStart | FULL_TOP/analyze_all_diseases_results.py:69-72 | no line before the `DETAILED RESULTS BY DISEASE:` line records a row |
| AllDiseases.SkipOther | FULL_TOP/analyze_all_diseases_results.py:72-84 | lines that are neither table lines nor the end line leave the rows unchanged |
| AllDiseases.RowsFromData | FULL_TOP/analyze_all_diseases_results.py:72-82 | inside the table each table line adds its row, in order |
| AllDiseases.NoStartNoRows | FULL_TOP/analyze_all_diseases_results.py:69-72 | a summary without the start line has no rows |
| AllDiseases.DigitsAreClean | FULL_TOP/analyze_all_diseases_results.py:79-80 | a digit field has no surrounding whitespace and none of `|`, `-`, `:` or `Expected` |
| AllDiseases.SplitRenderRow | FULL_TOP/analyze_all_diseases_results.py:73 | splitting a clean row's line on `|` gives back its padded fields |
| AllDiseases.RenderRowRoundTrip | FULL_TOP/analyze_all_diseases_results.py:72-82 | a clean row's line is a table line, neither the start nor the end line, and reads back as the row |
| AllDiseases.RenderedRows | FULL_TOP/analyze_all_diseases_results.py:72-82 | the lines of clean rows are table lines that read back as the rows |
| AllDiseases.StartKind | FULL_TOP/analyze_all_diseases_results.py:69 | the start line opens the table |
| AllDiseases.EndKind | FULL_TOP/analyze_all_diseases_results.py:83 | the end line is not a table line and closes the table |
| AllDiseases.MachineOfLayout | FULL_TOP/analyze_all_diseases_results.py:68-84 | lines without the start line, the start line, non-table headings, table lines and then the end line record exactly the table lines' rows |
| AllDiseases.TableRoundTrip | FULL_TOP/analyze_all_diseases_results.py:64-84 | parsing a rendered summary gives back exactly its table's rows, whatever follows the end line |
| AllDiseases.Predictions | FULL_TOP/analyze_all_diseases_results.py:107 | the predicted names of the records, in order |
| AllDiseases.CorrectRows | FULL_TOP/analyze_all_diseases_results.py:111-112 | the records marked `CORRECT` are at most all the records |
| AllDiseases.EntryOfDescribes | FULL_TOP/analyze_all_diseases_results.py:109-116 | a class's counters after its records: total is their number, correct counts `CORRECT`, and `predicted_as` counts each prediction, keys in first-seen order |
| AllDiseases.PredictionsAddUp | FULL_TOP/analyze_all_diseases_results.py:114-116 | the `predicted_as` counts are positive and add up to the class total, and correct never exceeds total |
| AllDiseases.RowsFor | FULL_TOP/analyze_all_diseases_results.py:105-109 | the records of a class are records whose expected name is that class |
| AllDiseases.ConfusionOfIsPerClass | FULL_TOP/analyze_all_diseases_results.py:101-116 | the tally has exactly the 15 classes; records of other names are ignored, and each class holds the counters of its own records |
| AllDiseases.AnalyzeConfusion | FULL_TOP/analyze_all_diseases_results.py:101-116 | the loop builds exactly that tally |
| AllDiseases.FirstOtherIndex | FULL_TOP/analyze_all_diseases_results.py:133-136 | as written: the first key in insertion order that is another class with a positive count |
| AllDiseases.FindMainMisclassAsWritten | FULL_TOP/analyze_all_diseases_results.py:129-136 | the loop reports nothing unless `predicted_as` has two or more keys, and then the first other key |
| AllDiseases.MainMisclassAsWrittenIsFirst | FULL_TOP/analyze_all_diseases_results.py:129-136 | as written, over a class's records: nothing exactly when they saw at most one distinct prediction or all were predicted as the class; otherwise the first prediction in record order that is not the class, with its number of occurrences |
| AllDiseases.MostFrequentOtherIndex | FULL_TOP/analyze_all_diseases_results.py:128 | corrected: the other prediction with the largest count, the first of equal counts |
| AllDiseases.MainMisclassIsMostFrequent | FULL_TOP/analyze_all_diseases_results.py:128-136 | the corrected main misclassification is a seen other prediction no other prediction outnumbers, and is absent exactly when every record was predicted as the class itself |
| AllDiseases.SingleKeyHidesMisclass | FULL_TOP/analyze_all_diseases_results.py:131 | three Nodule records all predicted as Mass are reported with no misclassification |
| AllDiseases.FirstKeyIsNotMostCommon | FULL_TOP/analyze_all_diseases_results.py:133-136 | one Nodule record predicted as Mass then two as Edema are reported as Mass (1x), not Edema (2x) |
| AllDiseases.EntryOfCounts | FULL_TOP/analyze_all_diseases_results.py:110-112 | a class's total is its number of records and its correct count the `CORRECT` ones |
| AllDiseases.LineForAbout | FULL_TOP/analyze_all_diseases_results.py:123-137 | a class's report line carries its accuracy, correct and total figures and the main misclassification as written over its records |
| AllDiseases.ClassLinesAbout | FULL_TOP/analyze_all_diseases_results.py:122-137 | each report line is about a class of the table that has records, with that class's figures and its main misclassification as written |
| AllDiseases.ClassLinesCover | FULL_TOP/analyze_all_diseases_results.py:122-123 | every class with records has a line |
| AllDiseases.ClassLinesOrdered | FULL_TOP/analyze_all_diseases_results.py:122 | the lines follow the order of the class table |
| AllDiseases.ConfusionReport | FULL_TOP/analyze_all_diseases_results.py:92-137 | the tally, then one line per class with records, in class order, each naming the main misclassification as written (first other key, two or more keys) |
| AllDiseases.ReportLines | FULL_TOP/analyze_all_diseases_results.py:122-137 | the report loop gives the lines of the classes with records, each with the main misclassification as written |
| AllDiseases.RatingByThresholds | FULL_TOP/analyze_all_diseases_results.py:155-164 | the rating is the number of the thresholds 60, 70, 80 and 90 the accuracy reaches: the bands are disjoint and cover every value |
| AllDiseases.RatingMonotone | FULL_TOP/analyze_all_diseases_results.py:155-164 | a higher accuracy never gets a lower rating |
| AllDiseases.AdviceByThresholds | FULL_TOP/analyze_all_diseases_results.py:204-234 | the verdict is the number of the thresholds 65, 75 and 85 reached; the cycle warning appears exactly above 1,000,000 cycles and does not affect the verdict |
| AllDiseases.AdviceMonotone | FULL_TOP/analyze_all_diseases_results.py:204-224 | a higher accuracy never gets a worse verdict |
| AllDiseases.RatingAndAdviceAgree | FULL_TOP/analyze_all_diseases_results.py:155-224 | the two scales agree in direction |
| AllDiseases.LowAccuracyDiseases | FULL_TOP/analyze_all_diseases_results.py:237-241 | the loop collects the expected names of the `INCORRECT` records, in order |
| AllDiseases.UnfocusedClassIsPerfect | FULL_TOP/analyze_all_diseases_results.py:237-246 | a class never named among them, with every record marked `CORRECT` or `INCORRECT`, has all its records correct |
| AllDiseases.UnfocusedClassTally | FULL_TOP/analyze_all_diseases_results.py:101-116 | so its confusion entry has correct equal to total |
| TestReport.DiseaseKeyIsPrefix | analyze_test_results.py:27 | the disease key is a prefix of the stem without `_`, and when shorter than the stem it is followed there by `_` |
| TestReport.DiseaseKeyOf | analyze_test_results.py:27 | the key of `<disease>_<anything>` is the disease when the disease has no `_` |
| TestReport.LoadDiseaseResults | analyze_test_results.py:25-29 | the loading loop builds the map of the files read one after the other, each key set to its file's cases |
| TestReport.LoadedOfLastWins | analyze_test_results.py:25-29 | the keys are exactly the files' keys, and a key holds the cases of the last file with that key |
| TestReport.CountOutcomes | analyze_test_results.py:180-188 | per disease the correct count is the number of correct results, the incorrect count is never negative, and the two add up to the number of results |
| TestReport.GradeByThresholds | analyze_test_results.py:64-71 | the grade is the number of the thresholds 0.5, 0.7 and 0.9 the accuracy reaches: the four bands are disjoint and cover every accuracy |
| TestReport.GradeMonotone | analyze_test_results.py:64-71 | a higher accuracy never gets a lower grade |
| TestReport.SameBands | analyze_test_results.py:64-71 | (also lines 296-303 and 348-355): the text note, the HTML assessment and the overall assessment each tell two accuracies apart exactly when their grades differ |
| TestReport.Insert | analyze_test_results.py:52-56 | inserting into a sorted list keeps it sorted and adds exactly the one entry |
| TestReport.InsertStep | analyze_test_results.py:52-56 | the step of the insertion past a first entry keeps the order and the entries |
| TestReport.SortByAccuracy | analyze_test_results.py:52-56 | the sort by accuracy, either direction, is ordered and a permutation of the entries |
| TestReport.AreasAreBelow | analyze_test_results.py:420-423 | the listed areas are exactly the given entries below 0.7, no more of them than given |
| TestReport.AreasForImprovementSpec | analyze_test_results.py:413-424 | at most three areas, all below 0.7, drawn from three least accurate entries; every one of those below 0.7 is listed, and no other entry is less accurate |
| TestRunner.Basename | run_disease_test_cases.py:32 | the base name is the suffix after the last `/`, with no `/` in it |
| TestRunner.BasenameOf | run_disease_test_cases.py:32 | the base name of `dir/name` is `name` |
| TestRunner.NameWithoutUnderscoreFails | run_disease_test_cases.py:33-34 | a file name without `_` fails (the `IndexError`) |
| TestRunner.ParseTestFileNameRoundTrip | run_disease_test_cases.py:33-34 | `<disease>_<case>.mem` gives back the disease and the case |
| TestRunner.ParseFloatNeedsDigit | run_disease_test_cases.py:92-95 | in decimal notation, text without a digit never reads as a number, so the confidence falls back to 0 (`inf` and `nan` are not modelled) |
| TestRunner.ParseFloatOfNat | run_disease_test_cases.py:93 | the decimal text of a natural number reads back as that number |
| TestRunner.ParseFloatOfDecimal | run_disease_test_cases.py:93 | `a.f` reads as `a` plus the digits `f` as a fraction |
| TestRunner.PercentOfNat | run_disease_test_cases.py:93 | `n%` reads as `n` once the `%` is stripped |
| TestRunner.ScanAnalysisOutput | run_disease_test_cases.py:83-95 | the loop over the output lines gives the detected disease and the confidence of the line-by-line reading |
| TestRunner.LastWith | run_disease_test_cases.py:88-91 | the last line holding the marker, and none after it; absent exactly when no line holds it |
| TestRunner.ScanDetectedIsLast | run_disease_test_cases.py:83-90 | the detected disease is the stripped text after `Detected:` on the last such line, and `unknown` when there is none |
| TestRunner.ScanConfidenceIsLast | run_disease_test_cases.py:84-95 | the confidence is that of the last `Confidence:` line, and 0.0 when there is none |
| TestRunner.RunTest | run_disease_test_cases.py:31-127 | the record keeps the test file, expects its own disease, and is correct exactly when the lower-cased disease occurs in the lower-cased detection |
| TestRunner.RunTestOutcomes | run_disease_test_cases.py:66-109 | a failed simulation gives `simulation_failed`, a timed-out analysis `timeout`, both with confidence 0; a completed analysis gives the scan of its output |
| TestRunner.NamingTheDiseaseIsCorrect | run_disease_test_cases.py:126 | a detection naming the disease anywhere, in any case, is correct |
| TestRunner.KeysAreLower | run_disease_test_cases.py:126 | the disease keys are lower-case |
| TestRunner.SimulationFailedMissesKeys | run_disease_test_cases.py:108 | no disease key occurs in `simulation_failed` |
| TestRunner.TimeoutMissesKeys | run_disease_test_cases.py:104 | no disease key occurs in `timeout` |
| TestRunner.UnknownMissesKeys | run_disease_test_cases.py:83 | no disease key occurs in `unknown` |
| TestRunner.FailedTestsAreIncorrect | run_disease_test_cases.py:83-126 | a test of a disease key whose simulation failed, whose analysis timed out, or whose output names no disease is never counted correct |
| TestRunner.TestsRun | run_disease_test_cases.py:147-149 | what each test gives, in order |
| TestRunner.RunDiseaseTests | run_disease_test_cases.py:145-163 | the results of the sorted tests in order, or a failure exactly when some file name makes `run_test` fail |
| TestRunner.CorrectOf | run_disease_test_cases.py:160 | the number of correct results is at most the number of results |
| TestRunner.CorrectOfAll | run_disease_test_cases.py:160 | every result is correct exactly when the count equals the number of results |
| TestRunner.CorrectOfAppend | run_disease_test_cases.py:180-181 | the count over two lists is the sum of their counts |
| TestRunner.AccuracyRange | run_disease_test_cases.py:187-192 | the guarded accuracy lies in [0, 1], is 1 exactly when there are results and all are correct, and 0 when none is |
| TestRunner.TotalsArePooled | run_disease_test_cases.py:179-181 | the totals are the size and correct count of all results pooled together |
| TestRunner.SummaryFacts | run_disease_test_cases.py:179-196 | the saved summary: correct within total, overall accuracy that of the pooled results, one entry per disease in order, each with its own totals and an accuracy in [0, 1] |
| TestRunner.NoTestCases | run_disease_test_cases.py:138-141 | every disease with an empty result list |
| TestRunner.EmptyRunCrashesPrintout | run_disease_test_cases.py:207 | (also line 187): as written: with no test case for any disease the summary saves accuracy 0, and the printout divides by zero |
| TestRunner.EmptyPooled | run_disease_test_cases.py:179 | diseases without results pool to no results |
| TestRunner.PrintedAccuracyIsSaved | run_disease_test_cases.py:207 | (also line 187): corrected: the guarded printout shows the saved accuracy, lies in [0, 1] and agrees with the unguarded one whenever that one succeeds |
| Exporters.RoundHalfEven | src/export_mobilenetv3_weights_for_hw.py:17 | the rounded value lies within one half of its input |
| Exporters.RoundMonotone | src/export_mobilenetv3_weights_for_hw.py:17 | rounding never reverses an order |
| Exporters.RoundInteger | src/export_mobilenetv3_weights_for_hw.py:17 | an integer rounds to itself |
| Exporters.Clip | src/export_mobilenetv3_weights_for_hw.py:18 | the clipped value lies in the bounds, equals the input inside them and the nearer bound outside |
| Exporters.ScaledMonotone | src/export_mobilenetv3_weights_for_hw.py:14-17 | scaling by `2 ** frac_bits` and rounding never reverses an order |
| Exporters.Quantize | src/export_mobilenetv3_weights_for_hw.py:13-19 | whatever the bit width, the result of the int16 cast lies in the int16 range |
| Exporters.QuantizeCases | src/export_mobilenetv3_weights_for_hw.py:13-19 | at 16 bits a representable rounded value is kept exactly and anything beyond goes to the nearer end of the int16 range |
| Exporters.QuantizeMonotone | src/export_mobilenetv3_weights_for_hw.py:13-19 | a larger input never quantizes lower |
| Exporters.FlattenLayout | src/export_mobilenetv3_weights_for_hw.py:23 | the flattened array holds `height * width` elements, element `(r, c)` at `r * width + c` |
| Exporters.SaveMem | src/export_mobilenetv3_weights_for_hw.py:21-25 | the write loop gives one exported line per element, in order; the lines decode to the elements' 16-bit words and read back as the elements |
| Exporters.MemLineLandmarks | src/export_mobilenetv3_weights_for_hw.py:24-25 | 0, 32767, -1 and -32768 are written `0000`, `7fff`, `ffff` and `8000` |
| Exporters.QuantizeToFixedPoint | final_layer/export_test_image_to_mem.py:12-18 | the image quantizer's result lies in the int16 range |
| Exporters.ImageQuantizerIs16Bit | final_layer/export_test_image_to_mem.py:6-18 | whatever `bit_width` is passed, the image quantizer is the weight quantizer at 16 bits, since it clips to the module constants |
| Exporters.PixelQuantizeRange | final_layer/export_test_image_to_mem.py:12-18 | (also line 38): an 8-bit pixel divided by 255 quantizes with 8 fractional bits into [0, 256], and the clip never acts |
| TestCaseGen.NoisyPixel | generate_disease_test_cases.py:39 | the noisy pixel lies in [0, 255], and is the clipped sum whenever the int16 sum does not wrap |
| TestCaseGen.NoiseDirection | generate_disease_test_cases.py:39 | zero noise keeps the pixel, and noise never moves a pixel against its sign |
| TestCaseGen.AddNoise | generate_disease_test_cases.py:33-39 | the noise branch gives a new image of the same shape whose every pixel is the clipped noisy pixel |
| TestCaseGen.SliceBounds | generate_disease_test_cases.py:58-73 | for an offset within the axis the source and destination slices lie in the axis, have the same length `n - abs(s)`, and the destination covers exactly the positions whose source is inside the image |
| TestCaseGen.ShiftImage | generate_disease_test_cases.py:52-74 | a new image of the same shape holding at `(y, x)` the source pixel `(y - sy, x - sx)` when inside the image and 0 elsewhere |
| TestCaseGen.ShiftExtremes | generate_disease_test_cases.py:58-74 | a zero shift copies the image, and a shift by the whole height or width leaves only zeros |
| TestCaseGen.ShiftKeepsRange | generate_disease_test_cases.py:58-74 | a shifted 8-bit image stays in [0, 255] |
| TestCaseGen.Truncate | generate_disease_test_cases.py:54 | `int()` truncates toward zero |
| TestCaseGen.Schedule | generate_disease_test_cases.py:99-118 | variation `i` of `1 .. num_cases - 1` has kind `i % 5` of the kind table and strength `0.5 + i / num_cases` |
| TestCaseGen.StrengthSchedule | generate_disease_test_cases.py:118 | (also line 54): later variations are strictly stronger, strengths lie strictly between 0.5 and 1.5, and `max_shift` lies in [10, 29] |
| TestCaseGen.KindCycle | generate_disease_test_cases.py:99-115 | kinds repeat every five variations, and variations 1 to 4 are brightness, contrast, shift and intensity |
| TestCaseGen.CaseNumber | generate_disease_test_cases.py:135 | the number can be read back from between `<disease>_case` and `.mem` |
| TestCaseGen.CaseNamesDistinct | generate_disease_test_cases.py:135 | two numbered names are equal exactly when their numbers are |
| TestCaseGen.NumberCases | generate_disease_test_cases.py:133-138 | one numbered name per file found, numbered from 1 in the order found |
| TestCaseGen.NumberedNamesDistinct | generate_disease_test_cases.py:133-138 | the numbered copies never overwrite one another |
| ImageConvert.MappingClassRange | convert_all_disease_images.py:14-112 | the mapping has 19 entries; the first 18 expect one of the 15 classes and the test pattern expects -1 |
| ImageConvert.MappingMatchesClassTable | convert_all_disease_images.py:14-112 | apart from the two pleural-thickening entries, each entry's disease is the class table's name of its expected class |
| ImageConvert.PleuralSpelling | convert_all_disease_images.py:76-85 | both pleural-thickening entries expect class 8 but spell it `Pleural_Thickening`, where the class table says `Pleural Thickening` |
| ImageConvert.OutputStemShape | convert_all_disease_images.py:219 | the output stem has no spaces and no upper-case letters |
| ImageConvert.PlainStem | convert_all_disease_images.py:219-220 | a disease name without spaces and without `_finding` is written to `real_<lower-cased name>_xray.mem` |
| ImageConvert.NoFindingName | convert_all_disease_images.py:219-220 | No Finding is written to `real_no_xray.mem` |
| ImageConvert.SharedOutputs | convert_all_disease_images.py:76-106 | (also lines 219-220): the two pleural-thickening images, the two pneumonia images and the two infiltration images each write to the same output file |
| ImageConvert.WidenFacts | convert_all_disease_images.py:148 | widening is `257 * p`, never wraps, is strictly increasing, sends 0 to 0 and 255 to `0xFFFF`, and dividing by 257 gives back the pixel |
| ImageConvert.PixelLineFacts | convert_all_disease_images.py:148-159 | a pixel's line is its two hex digits written twice and reads back as the widened pixel |
| ImageConvert.WritePixels | convert_all_disease_images.py:156-159 | the write loop gives one line per pixel, in order, each its two hex digits twice and reading back as `257` times the pixel |
| ImageConvert.ConvertAll | convert_all_disease_images.py:206-248 | the converted count is the number of converted images, the failed count the missing plus the failed conversions, the two add up to the mapping size, and the log is that of the found images |
| ImageConvert.LogLines | convert_all_disease_images.py:228-245 | the log has one line per found image and nothing else, the found image of entry `k` at its position among the found ones, marked a success exactly when converted |

## Left out

- The logistic function (`math.exp`) is not modelled. The probability
  decode takes it as a parameter `sig` and proves its properties for any
  function that is strictly increasing, lies in (0, 1) and gives 1/2 at 0.
  Concrete values such as 0.73 for `0x00FF` are therefore not computed.
- Floating point: scores, accuracies and statistics are exact reals.
  `float32` rounding, `math.sqrt` and the float formatting of reports are
  not modelled.
- FinalLayerAnalysis.StatsOf: gives the variance where the source reports `np.std`, its square root; `sqrt` is not available over exact reals.
- Emergency.ConfidenceAnalysisOrdered: states the variance, not the standard deviation printed from it, for the same reason.
- FinalLayerAnalysis.AbsErrors: subtracts exact integers. `hw_out - sw_output` on two int16 arrays wraps modulo 2^16 in NumPy; the model does not. The broadcast of a one-value reference, and the `ValueError` for other unequal lengths, are modelled by `Broadcast`.
- FinalLayerAnalysis.ReadMemFile: the warning printed for a length mismatch is output only and is not modelled.
- DiseaseResults.Int16Of: follows NumPy 1.x, where `np.array(values, dtype=np.int16)` wraps a parsed word of 0x8000 or more to its two's-complement value (with a deprecation warning from NumPy 1.24). NumPy 2 raises `OverflowError` there instead, which the model does not capture.
- DiseaseResults.OutputVector: casts through `Int16Of`, so it too follows the NumPy 1.x wrap and not the `OverflowError` of NumPy 2 (`analyze_disease_results.py:63`, and `analyze_final_layer_results.py:49`).
- FinalLayerAnalysis.MemValue: follows NumPy 1.x, where `np.array(..., dtype=np.uint16)` wraps a parsed value outside [0, 0xFFFF] modulo 2^16. NumPy 2 raises `OverflowError` for such a line, which the model does not capture.
- FinalLayerAnalysis.MeanAbsErrors: requires every testcase to have at least one score, as the testbench reader gives `num_classes` of them. With `--num_classes 0`, `np.mean` of an empty array gives `nan`, which is not modelled.
- Hex.ParseHexInt: accepts an optional sign, an optional `0x` prefix and hex digits only. Python's `int(s, 16)` also accepts single underscores between digits and after the prefix (`ff_ff`, `0x_ff`); such tokens are rejected here.
- TestRunner.ParseFloat: reads decimal notation only. Python's `float()` also reads exponents (`1e2`), `inf`, `infinity`, `nan` and digit underscores (`1_0`); such text reads as no number here.
- TestRunner.ParseFloatNeedsDigit: holds for the decimal notation the model reads. The source's `float()` reads `inf%` and `nan%` as numbers without a digit, so on such text it does not fall back to 0.
- Text.Lower: lower-cases the ASCII letters only. Python's `str.lower()` also lower-cases other Unicode letters.
- Text.IsDigits: accepts the ASCII digits only. Python's `str.isdigit()` also accepts other Unicode digits, such as superscripts.
- Regular-expression scraping of simulator logs is not modelled, because
  the model has no regular-expression engine:
  - `parse_simulation_log` (`analyze_emergency_results.py:53-102`);
  - `extract_hex_values_from_log` (`src/analyze_disease_hex_outputs.py:68-150`);
  - the header fields of the summary file, and its missing-file case
    (`FULL_TOP/analyze_all_diseases_results.py:31-62`).
  The records and tokens these produce are inputs to the model.
- Random data is not modelled:
  - the sample data of `_generate_sample_data` (`analyze_emergency_results.py:104-163`);
  - the brightness, contrast and intensity variations
    (`generate_disease_test_cases.py:41-50, 76-81`), whose factors are
    random floats;
  - the random seeds.
  The noise array and the shift offsets are parameters.
- TestCaseGen.ShiftImage: requires each offset to lie within the image size. NumPy's reading of negative slice bounds for larger offsets is not modelled. The schedule's offsets never exceed 29, and `StrengthSchedule` proves that bound.
- Image handling is not modelled:
  - image loading, grayscale conversion and resizing
    (`convert_all_disease_images.py:114-146`);
  - the image checks of `analyze_image_characteristics`;
  - the synthetic disease patterns and `convert_image_to_mem_from_array` of
    the test-case generator;
  - loading the model checkpoint in the weight exporter.
  They call into PIL, NumPy and torch internals.
- `save_mem_file` (`final_layer/export_test_image_to_mem.py:21-30`) is the
  same loop as `save_mem`. `Exporters.SaveMem` models both.
- Subprocesses, copies of files, time delays and timeouts in the test
  runner are not modelled. Their outcome is the `Run` parameter: failed,
  timed out, or the analysis output.
- Directory listings are parameters: the files found and their order. The
  `<disease>_case*.mem` filter is not modelled.
- Plots, HTML pages and printed reports are not modelled. The values they
  show are modelled, and so are the report lines and bands.
- The collected low-accuracy names go through `list(set(...))[:5]`
  (`FULL_TOP/analyze_all_diseases_results.py:245-246`). Python does not
  specify the order of a set. The model therefore keeps the collected list
  (`AllDiseases.LowAccuracyDiseases`) and states which classes are absent
  from it.
- DiseaseResults.Top3: equal scores are ordered as a stable sort would order them. `np.argsort` does not promise an order among equal scores.
- The mapping's `description` field and the `--single` command line of
  the image converter are not modelled. The latter uses the same
  output-name rule, `ImageConvert.OutputName`.

## Findings

| source | as written | input that shows it | evidently intended | confidence | as-written member | corrected member |
|---|---|---|---|---|---|---|
| analyze_disease_results.py:93-95 | `np.abs` on the int16 output leaves -32768 negative, so the sum of magnitudes falls short of the largest score | the output -32768, 32767, 32767 followed by twelve zeros: the confidence is 32767/32766, above 100% | the largest score over the sum of magnitudes, within [-100, 100] | high; not executed | DiseaseResults.ConfidenceAboveHundred | DiseaseResults.ConfidencePctRange |
| src/analyze_disease_hex_outputs.py:190-191, 219-220 | only tokens that parse are appended to `probabilities`, but secondary findings read a list position as the class index | token 0 does not parse, tokens 1 and 2 are `7FFF`, and the rest do not parse: the primary is class 1, class 0 (holding class 1's value) is listed as secondary, and class 2 is missed | the classes other than the primary whose own probability exceeds 0.3 | high; not executed | HexOutputs.SecondaryMisaligned | HexOutputs.SecondaryFindings |
| FULL_TOP/analyze_all_diseases_results.py:129-136 | the main misclassification is the first other key of `predicted_as`, and none at all while it has a single key | Nodule records predicted Mass once and then Edema twice give Mass (1x); three Nodule records all predicted Mass give none | the most frequent prediction other than the class | medium; not executed | AllDiseases.FirstKeyIsNotMostCommon | AllDiseases.MainMisclassIsMostFrequent |
| run_disease_test_cases.py:207 | the overall accuracy is printed as `total_correct/total_tests` without the guard used for the saved summary | no test case file for any disease: division by zero after the summary is saved | the guarded accuracy, 0 when there are no tests | high; not executed | TestRunner.EmptyRunCrashesPrintout | TestRunner.PrintedAccuracyIsSaved |
| src/analyze_disease_hex_outputs.py:160-161 | a prefixed byte such as `0xab` has length 4, so it passes both the 8-bit test and the unprefixed 16-bit test | the single token `0xab` counts as one 8-bit and one 16-bit value | each token in the one group its digit count gives | medium; not executed | HexOutputs.PrefixedByteCountedTwice | HexOutputs.PrefixedByteCountedOnce |
| models/final_layer/analyze_final_layer_results.py:118-119 | `np.ptp` runs on the stacked int16 outputs and keeps int16, so a spread of 2^15 or more wraps negative | a class scoring -32768 in one testcase and 0 in another: the plotted range is -32768 | the spread of the class, max - min, as the plot's axis label says | medium; not executed | FinalLayerAnalysis.RangeWraps | FinalLayerAnalysis.Spread |
