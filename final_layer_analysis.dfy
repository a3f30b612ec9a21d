/** The comparison of the final layer's hardware outputs with the software
    reference: reading the reference `.mem` file, the per-testcase error
    against it, the per-class spread across testcases and the per-testcase
    statistics. The testbench dump is read with the same rules as the
    hardware dump of the diagnosis analysis (`DiseaseResults.HardwareOutputOf`). */
module FinalLayerAnalysis {
  import opened Text
  import opened Hex
  import opened FixedPoint
  import opened Stats
  import opened DiseaseResults

  // Reading the software reference.

  /** One line of a `.mem` file: `int(line.strip(), 16)`, stored as uint16
      and reinterpreted as int16. `None` stands for the `ValueError` of a
      line that is not hex. A 16-bit word keeps its value below `2 ** 15`
      and loses `2 ** 16` from there on. */
  function MemValue(line: string): (r: Option<int>)
    ensures r.Some? ==> -SignBit <= r.value < SignBit
    ensures r.Some? <==> ParseHexInt(Strip(line)).Some?
    ensures r.Some? && 0 <= ParseHexInt(Strip(line)).value < WordSize ==>
      var raw := ParseHexInt(Strip(line)).value;
      r.value == if raw >= SignBit then raw - WordSize else raw
  {
    match ParseHexInt(Strip(line))
    case None => None
    case Some(x) => Some(SignExtend16(Wrap16(x)))
  }

  /** Reading back the line exported for an int16 value gives the value. */
  lemma MemValueOfMemLine(v: int)
    requires -SignBit <= v < SignBit
    ensures MemValue(MemLine(v)) == Some(v)
  {
    var l := MemLine(v);
    MemLineRoundTrip(v);
    assert forall k :: 0 <= k < |l| ==> !IsSpace(l[k]);
    StripDigits(l);
    assert 0 <= ParseHexInt(l).value < WordSize by {
      ParseHex4(Wrap16(v));
    }
  }

  /** What each line of the file gives. */
  function MemValues(lines: seq<string>): (r: seq<Option<int>>)
    ensures |r| == |lines| && forall k :: 0 <= k < |lines| ==> r[k] == MemValue(lines[k])
  {
    seq(|lines|, k requires 0 <= k < |lines| => MemValue(lines[k]))
  }

  /** `read_mem_file`: one value per line, or `None` when some line is not
      hex. The number of values is the number of lines whatever the
      expected class count: a mismatch is only reported. */
  function ReadMemFile(lines: seq<string>): (r: Option<seq<int>>)
    ensures r.Some? <==> forall k :: 0 <= k < |lines| ==> ParseHexInt(Strip(lines[k])).Some?
    ensures r.Some? ==> |r.value| == |lines|
    ensures r.Some? ==> forall k :: 0 <= k < |lines| ==> MemValue(lines[k]) == Some(r.value[k])
  {
    AllSomeEach(MemValues(lines));
    AllSome(MemValues(lines))
  }

  /** A file written as one exported line per int16 score reads back as
      those scores. */
  lemma ReadMemRoundTrip(scores: seq<int>)
    requires forall k :: 0 <= k < |scores| ==> -SignBit <= scores[k] < SignBit
    ensures ReadMemFile(MemLines(scores)) == Some(scores)
  {
    var lines := MemLines(scores);
    forall k | 0 <= k < |lines| ensures MemValue(lines[k]) == Some(scores[k]) {
      MemValueOfMemLine(scores[k]);
    }
    var r := ReadMemFile(lines);
    assert r.Some?;
    assert r.value == scores;
  }

  /** The reference used by the comparison: the file's values when it
      exists, `n` zeros when it does not; `None` when it cannot be read. */
  function Reference(file: Option<seq<string>>, n: nat): (r: Option<seq<int>>)
    ensures file.None? ==> r == Some(Zeros(n))
    ensures file.Some? ==> r == ReadMemFile(file.value)
  {
    match file
    case None => Some(Zeros(n))
    case Some(lines) => ReadMemFile(lines)
  }

  // Error against the reference.

  /** `np.abs(hw_out - sw_output)`, element by element, on exact integers. */
  function AbsErrors(hw: seq<int>, sw: seq<int>): (e: seq<int>)
    requires |hw| == |sw|
    ensures |e| == |hw|
    ensures forall k :: 0 <= k < |hw| ==> e[k] >= 0 && (e[k] == 0 <==> hw[k] == sw[k])
  {
    seq(|hw|, k requires 0 <= k < |hw| => Abs(hw[k] - sw[k]))
  }

  /** `np.mean(abs_err)`. */
  function MeanAbsError(hw: seq<int>, sw: seq<int>): real
    requires |hw| == |sw| > 0
  {
    Mean(ToReals(AbsErrors(hw, sw)))
  }

  /** `np.max(abs_err)`. */
  function MaxAbsError(hw: seq<int>, sw: seq<int>): real
    requires |hw| == |sw| > 0
  {
    Maximum(ToReals(AbsErrors(hw, sw)))
  }

  /** A sum of non-negative reals is zero exactly when every element is. */
  lemma {:induction false} SumZeroIff(xs: seq<real>)
    requires forall k :: 0 <= k < |xs| ==> xs[k] >= 0.0
    ensures Sum(xs) >= 0.0
    ensures Sum(xs) == 0.0 <==> forall k :: 0 <= k < |xs| ==> xs[k] == 0.0
  {
    if |xs| > 0 {
      var init := xs[..|xs| - 1];
      assert forall k :: 0 <= k < |init| ==> init[k] == xs[k];
      SumZeroIff(init);
    }
  }

  /** The mean error is never negative, and it is zero exactly when the
      hardware vector equals the reference. */
  lemma MeanAbsErrorZeroIff(hw: seq<int>, sw: seq<int>)
    requires |hw| == |sw| > 0
    ensures MeanAbsError(hw, sw) >= 0.0
    ensures MeanAbsError(hw, sw) == 0.0 <==> hw == sw
  {
    var xs := ToReals(AbsErrors(hw, sw));
    ErrorsZeroIff(hw, sw);
    MeanZeroIff(xs);
  }

  /** The errors are all zero exactly when the vectors are equal. */
  lemma ErrorsZeroIff(hw: seq<int>, sw: seq<int>)
    requires |hw| == |sw|
    ensures var xs := ToReals(AbsErrors(hw, sw));
      (forall k :: 0 <= k < |xs| ==> xs[k] >= 0.0) &&
      ((forall k :: 0 <= k < |xs| ==> xs[k] == 0.0) <==> hw == sw)
  {
    var xs := ToReals(AbsErrors(hw, sw));
    if forall k :: 0 <= k < |xs| ==> xs[k] == 0.0 {
      forall k | 0 <= k < |hw| ensures hw[k] == sw[k] {
        assert xs[k] == 0.0;
      }
    }
  }

  /** A mean of non-negative reals is non-negative, and zero exactly when
      every element is. */
  lemma MeanZeroIff(xs: seq<real>)
    requires |xs| > 0 && forall k :: 0 <= k < |xs| ==> xs[k] >= 0.0
    ensures Mean(xs) >= 0.0
    ensures Mean(xs) == 0.0 <==> forall k :: 0 <= k < |xs| ==> xs[k] == 0.0
  {
    SumZeroIff(xs);
    assert Mean(xs) * (|xs| as real) == Sum(xs);
  }

  /** The largest error is never negative, and it is zero exactly when the
      hardware vector equals the reference. */
  lemma MaxAbsErrorZeroIff(hw: seq<int>, sw: seq<int>)
    requires |hw| == |sw| > 0
    ensures MaxAbsError(hw, sw) >= 0.0
    ensures MaxAbsError(hw, sw) == 0.0 <==> hw == sw
  {
    var xs := ToReals(AbsErrors(hw, sw));
    assert xs[0] <= MaxAbsError(hw, sw);
    if MaxAbsError(hw, sw) == 0.0 {
      forall k | 0 <= k < |hw| ensures hw[k] == sw[k] {
        assert xs[k] <= 0.0;
      }
    }
    if hw == sw {
      var k :| 0 <= k < |xs| && xs[k] == MaxAbsError(hw, sw);
    }
  }

  /** NumPy's broadcasting of two one-dimensional arrays: equal lengths pair
      up element by element, and an array of one value is repeated to the
      other's length; `None` stands for the `ValueError` of any other pair
      of lengths. */
  function Broadcast(a: seq<int>, b: seq<int>): (r: Option<(seq<int>, seq<int>)>)
    ensures r.Some? <==> |a| == |b| || |a| == 1 || |b| == 1
    ensures r.Some? ==> |r.value.0| == |r.value.1| == (if |a| == 1 then |b| else |a|)
    ensures r.Some? ==> forall k :: 0 <= k < |r.value.0| ==>
      r.value.0[k] == a[if |a| == 1 then 0 else k] && r.value.1[k] == b[if |b| == 1 then 0 else k]
  {
    if |a| == |b| || |a| == 1 || |b| == 1 then
      var n := if |a| == 1 then |b| else |a|;
      Some((seq(n, k requires 0 <= k < n => a[if |a| == 1 then 0 else k]),
            seq(n, k requires 0 <= k < n => b[if |b| == 1 then 0 else k])))
    else None
  }

  /** Arrays of equal length are compared as they are. */
  lemma BroadcastEqualLengths(a: seq<int>, b: seq<int>)
    requires |a| == |b|
    ensures Broadcast(a, b) == Some((a, b))
  {
    var r := Broadcast(a, b).value;
    assert r.0 == a && r.1 == b;
  }

  /** A one-value reference is compared with every score. */
  lemma BroadcastOneValue(hw: seq<int>, v: int)
    ensures Broadcast(hw, [v]).Some?
    ensures Broadcast(hw, [v]).value.0 == hw
    ensures Broadcast(hw, [v]).value.1 == seq(|hw|, _ => v)
  {
    var r := Broadcast(hw, [v]).value;
    assert r.0 == hw;
  }

  /** The error loop under `if len(sw_output) > 0`: no errors against an
      empty reference; otherwise one mean error per testcase, each testcase
      broadcast against the reference, and `None` for the `ValueError` of a
      testcase whose length does not broadcast. Every testcase has at least
      one score, as the testbench reader gives `num_classes` of them. */
  method MeanAbsErrors(outputs: seq<seq<int>>, sw: seq<int>) returns (errors: Option<seq<real>>)
    requires forall k :: 0 <= k < |outputs| ==> |outputs[k]| > 0
    ensures errors.None? <==> |sw| > 0 && exists k :: 0 <= k < |outputs| && Broadcast(outputs[k], sw).None?
    ensures errors.Some? && |sw| == 0 ==> errors.value == []
    ensures errors.Some? && |sw| > 0 ==> |errors.value| == |outputs|
    ensures errors.Some? && |sw| > 0 ==> forall k :: 0 <= k < |outputs| ==>
      var pair := Broadcast(outputs[k], sw).value;
      errors.value[k] == MeanAbsError(pair.0, pair.1)
  {
    if |sw| == 0 {
      return Some([]);
    }
    var es: seq<real> := [];
    for i := 0 to |outputs|
      invariant |es| == i
      invariant forall k :: 0 <= k < i ==> Broadcast(outputs[k], sw).Some?
      invariant forall k :: 0 <= k < i ==>
        var pair := Broadcast(outputs[k], sw).value;
        es[k] == MeanAbsError(pair.0, pair.1)
    {
      match Broadcast(outputs[i], sw) {
        case None =>
          return None;
        case Some(pair) =>
          es := es + [MeanAbsError(pair.0, pair.1)];
      }
    }
    errors := Some(es);
  }

  // Spread across testcases.

  /** The scores of class `c` across the testcases. */
  function Column(outputs: seq<seq<int>>, c: nat): (col: seq<real>)
    requires forall k :: 0 <= k < |outputs| ==> c < |outputs[k]|
    ensures |col| == |outputs| && forall k :: 0 <= k < |outputs| ==> col[k] == outputs[k][c] as real
  {
    seq(|outputs|, k requires 0 <= k < |outputs| => outputs[k][c] as real)
  }

  /** The peak-to-peak spread of class `c` across the testcases: the
      largest difference between two of its scores. */
  function Spread(outputs: seq<seq<int>>, c: nat): (s: int)
    requires |outputs| > 0 && forall k :: 0 <= k < |outputs| ==> c < |outputs[k]|
    ensures s >= 0
    ensures exists a, b :: 0 <= a < |outputs| && 0 <= b < |outputs| && s == outputs[a][c] - outputs[b][c]
    ensures forall a, b :: 0 <= a < |outputs| && 0 <= b < |outputs| ==> outputs[a][c] - outputs[b][c] <= s
  {
    var col := Column(outputs, c);
    ColumnExtremes(outputs, c);
    (Maximum(col) - Minimum(col)).Floor
  }

  /** The extremes of a column are scores of the class. */
  lemma ColumnExtremes(outputs: seq<seq<int>>, c: nat)
    requires |outputs| > 0 && forall k :: 0 <= k < |outputs| ==> c < |outputs[k]|
    ensures exists a, b :: (0 <= a < |outputs| && 0 <= b < |outputs| &&
      Maximum(Column(outputs, c)) - Minimum(Column(outputs, c)) == (outputs[a][c] - outputs[b][c]) as real)
  {
    var col := Column(outputs, c);
    var a :| 0 <= a < |col| && col[a] == Maximum(col);
    var b :| 0 <= b < |col| && col[b] == Minimum(col);
    assert Maximum(col) - Minimum(col) == (outputs[a][c] - outputs[b][c]) as real;
  }

  /** `np.ptp(all_outputs, axis=0)` on the stacked int16 outputs: per
      class, the spread, computed in int16 and so wrapped modulo 2^16. */
  function OutputRanges(outputs: seq<seq<int>>, n: nat): (r: seq<int>)
    requires |outputs| > 0 && forall k :: 0 <= k < |outputs| ==> |outputs[k]| == n
    ensures |r| == n
    ensures forall c :: 0 <= c < n ==> -SignBit <= r[c] < SignBit
  {
    seq(n, c requires 0 <= c < n => Int16Of(Spread(outputs, c)))
  }

  /** The scores of every testcase are int16 values. */
  predicate Int16Outputs(outputs: seq<seq<int>>) {
    forall k, j :: 0 <= k < |outputs| && 0 <= j < |outputs[k]| ==> -SignBit <= outputs[k][j] < SignBit
  }

  /** A range below 2^15 is the spread itself, a larger one wraps to a
      negative value, and a range is zero exactly when that class scores
      the same in every testcase. */
  lemma OutputRangesFacts(outputs: seq<seq<int>>, n: nat, c: nat)
    requires |outputs| > 0 && forall k :: 0 <= k < |outputs| ==> |outputs[k]| == n
    requires Int16Outputs(outputs) && c < n
    ensures Spread(outputs, c) < SignBit ==> OutputRanges(outputs, n)[c] == Spread(outputs, c) >= 0
    ensures Spread(outputs, c) >= SignBit ==> OutputRanges(outputs, n)[c] == Spread(outputs, c) - WordSize < 0
    ensures OutputRanges(outputs, n)[c] == 0 <==>
      forall a, b :: 0 <= a < |outputs| && 0 <= b < |outputs| ==> outputs[a][c] == outputs[b][c]
  {
    var s := Spread(outputs, c);
    var a, b :| 0 <= a < |outputs| && 0 <= b < |outputs| && s == outputs[a][c] - outputs[b][c];
    assert s < WordSize;
    Int16OfWord(s);
    if forall a, b :: 0 <= a < |outputs| && 0 <= b < |outputs| ==> outputs[a][c] == outputs[b][c] {
      assert s == 0;
    }
  }

  /** A word in [0, 2^16) reads as itself below 2^15 and loses 2^16 from
      there on. */
  lemma Int16OfWord(s: int)
    requires 0 <= s < WordSize
    ensures s < SignBit ==> Int16Of(s) == s
    ensures s >= SignBit ==> Int16Of(s) == s - WordSize
  {
  }

  /** A class scoring -32768 in one testcase and 0 in another has the
      range -32768, not 32768. */
  lemma RangeWraps(outputs: seq<seq<int>>)
    requires outputs == [[-32768], [0]]
    ensures OutputRanges(outputs, 1) == [-32768]
  {
    assert Spread(outputs, 0) == 32768 by {
      assert outputs[1][0] - outputs[0][0] == 32768;
    }
    OutputRangesFacts(outputs, 1, 0);
  }

  // Per-testcase statistics.

  /** The four statistics of one testcase; the variance stands for `np.std`,
      its square root. */
  datatype CaseStats = CaseStats(mean: real, variance: real, max: real, min: real)

  /** The statistics of a non-empty score vector: the mean lies between the
      minimum and the maximum, and the variance is never negative. */
  function StatsOf(v: seq<int>): (s: CaseStats)
    requires |v| > 0
    ensures s.min <= s.mean <= s.max && s.variance >= 0.0
    ensures s.min in ToReals(v) && s.max in ToReals(v)
    ensures forall k :: 0 <= k < |v| ==> s.min <= v[k] as real <= s.max
  {
    var xs := ToReals(v);
    MeanBetween(xs);
    VarianceNonNegative(xs);
    CaseStats(Mean(xs), Variance(xs), Maximum(xs), Minimum(xs))
  }

  /** A testcase's variance is zero exactly when all its scores are equal. */
  lemma StatsFlatIff(v: seq<int>)
    requires |v| > 0
    ensures StatsOf(v).variance == 0.0 <==> forall i, j :: 0 <= i < |v| && 0 <= j < |v| ==> v[i] == v[j]
  {
    var xs := ToReals(v);
    VarianceZeroIff(xs);
    if forall i, j :: 0 <= i < |xs| && 0 <= j < |xs| ==> xs[i] == xs[j] {
      forall i, j | 0 <= i < |v| && 0 <= j < |v| ensures v[i] == v[j] {
        assert xs[i] == xs[j];
      }
    }
  }

  /** The statistics loop: one entry per testcase. */
  method TestcaseStats(outputs: seq<seq<int>>) returns (stats: seq<CaseStats>)
    requires forall k :: 0 <= k < |outputs| ==> |outputs[k]| > 0
    ensures |stats| == |outputs|
    ensures forall k :: 0 <= k < |outputs| ==> stats[k] == StatsOf(outputs[k])
  {
    stats := [];
    for i := 0 to |outputs|
      invariant |stats| == i
      invariant forall k :: 0 <= k < i ==> stats[k] == StatsOf(outputs[k])
    {
      stats := stats + [StatsOf(outputs[i])];
    }
  }
}
