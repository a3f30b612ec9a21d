/** The analysis of the hardware's batch output: the dump is cut into
    `=== Test` sections, each gives a test name and a vector of int16
    scores (a zero vector when the count is wrong), and each vector gives a
    predicted class (the first maximum), a top three, a confidence
    percentage, and a tally of predictions per class. */
module DiseaseResults {
  import opened Text
  import opened Hex
  import opened FixedPoint
  import opened Seqs
  import opened Stats

  /** The number of classes the analysis expects per test. */
  const NumClasses: nat := 15

  // Reading the dump.

  /** One parsed value as `np.array(values, dtype=np.int16)` stores it under
      NumPy 1.x: the signed 16-bit value with the same low 16 bits. */
  function Int16Of(v: int): (w: int)
    ensures -SignBit <= w < SignBit
    ensures -SignBit <= v < SignBit ==> w == v
  {
    if -SignBit <= v < SignBit then
      SignExtendWrap(v);
      SignExtend16(Wrap16(v))
    else SignExtend16(Wrap16(v))
  }

  /** The name of a test from the first line of its section: the text after
      the first `: ` and up to the first ` ===`. `None` stands for the
      `IndexError` raised when the line has no `: `. */
  function TestName(line: string): Option<string> {
    var parts := Split(line, ": ");
    if |parts| < 2 then None else Some(Split(parts[1], " ===")[0])
  }

  /** A heading `<index>: <name> ===` gives back its name, when neither
      the index nor the name has a `:` and the name has no `=`. */
  lemma TestNameRoundTrip(index: string, name: string)
    requires forall j :: 0 <= j < |index| ==> index[j] != ':'
    requires forall j :: 0 <= j < |name| ==> name[j] != ':' && name[j] != '='
    ensures TestName(index + ": " + name + " ===") == Some(name)
  {
    var rest := name + " ===";
    var s := index + ": " + rest;
    assert s == (index + ": ") + rest;
    assert index + ": " + name + " ===" == s;
    forall j | 0 <= j < |rest| ensures rest[j] != ':' {
      if j >= |name| { assert rest[j] == " ==="[j - |name|]; }
    }
    MissingCharMissingWord(rest, ": ", 0);
    IndexFromAfterPrefix(index + ": ", rest, ": ");
    HeadingSplitsOnce(index, rest);
    MissingCharMissingWord(name, " ===", 1);
    SplitAtSuffix(name, " ===");
    assert Split(s, ": ")[1] == rest;
  }

  /** The first `: ` of `<index>: <rest>` is the one after the index. */
  lemma HeadingSplitsOnce(index: string, rest: string)
    requires forall j :: 0 <= j < |index| ==> index[j] != ':'
    requires IndexFrom(index + ": " + rest, ": ", |index| + 2).None?
    ensures Split(index + ": " + rest, ": ") == [index, rest]
  {
    var s := index + ": " + rest;
    assert s[|index|..|index| + 2] == ": ";
    forall j: nat | j < |index| ensures !OccursAt(s, ": ", j) {
      assert s[j] == index[j];
      if j + 2 <= |s| { assert s[j..j + 2][0] == s[j]; }
    }
    assert OccursAt(s, ": ", |index|);
    assert IndexFrom(s, ": ", 0) == Some(|index|);
    assert s[0..|index|] == index;
    assert s[|index| + 2..] == rest;
    assert SplitFrom(s, ": ", |index| + 2) == [rest];
    assert SplitFrom(s, ": ", 0) == [index] + SplitFrom(s, ": ", |index| + 2);
  }

  /** The value a line of a section contributes: stripped, non-empty, not
      starting with `===`, and readable as hex; otherwise nothing. */
  function LineValue(line: string): Option<int> {
    var l := Strip(line);
    if |l| > 0 && !StartsWith(l, "===") then ParseHexInt(l) else None
  }

  /** What each line contributes. */
  function LineValues(lines: seq<string>): (r: seq<Option<int>>)
    ensures |r| == |lines| && forall k :: 0 <= k < |lines| ==> r[k] == LineValue(lines[k])
  {
    seq(|lines|, k requires 0 <= k < |lines| => LineValue(lines[k]))
  }

  /** The values of the lines after the heading, in order. */
  function HexValues(lines: seq<string>): seq<int> {
    Somes(LineValues(lines))
  }

  /** The inner loop over a section's lines. */
  method ParseValues(lines: seq<string>) returns (values: seq<int>)
    ensures values == HexValues(lines)
  {
    ghost var xs := LineValues(lines);
    values := [];
    var i := 0;
    while i < |lines|
      invariant 0 <= i <= |lines|
      invariant values == Somes(xs[..i])
    {
      SomesStep(xs, i);
      var l := Strip(lines[i]);
      if |l| > 0 && !StartsWith(l, "===") {
        var v := ParseHexInt(l);
        if v.Some? {
          values := values + [v.value];
        }
      }
      i := i + 1;
    }
    assert xs[..i] == xs;
  }

  function Zeros(n: nat): (z: seq<int>)
    ensures |z| == n && forall k :: 0 <= k < n ==> z[k] == 0
  {
    seq(n, k => 0)
  }

  /** The vector of a section: its values as int16 when there are exactly
      `n` of them, and `n` zeros otherwise. */
  function OutputVector(values: seq<int>, n: nat): (v: seq<int>)
    ensures |v| == n
    ensures forall k :: 0 <= k < n ==> -SignBit <= v[k] < SignBit
    ensures |values| == n ==> forall k :: 0 <= k < n ==> v[k] == Int16Of(values[k])
    ensures |values| != n ==> v == Zeros(n)
  {
    if |values| == n then seq(n, k requires 0 <= k < n => Int16Of(values[k])) else Zeros(n)
  }

  /** A section of the dump: skipped when it has fewer than two lines,
      failing when its heading has no `: `, otherwise named with a vector. */
  datatype Section = Skipped | Unnamed | Named(name: string, vector: seq<int>)

  function SectionOf(section: string, n: nat): (r: Section)
    ensures r.Named? ==> |r.vector| == n && Int16s(r.vector)
  {
    var lines := Split(Strip(section), "\n");
    if |lines| < 2 then Skipped
    else
      match TestName(lines[0])
      case None => Unnamed
      case Some(name) => Named(name, OutputVector(HexValues(lines[1..]), n))
  }

  /** Every score of `v` is an int16. */
  predicate Int16s(v: seq<int>) {
    forall c :: 0 <= c < |v| ==> -SignBit <= v[c] < SignBit
  }

  /** A read of `m` sections gives as many outputs as names, at most `m`,
      each output of `n` scores. */
  predicate WellShaped(r: Option<(seq<seq<int>>, seq<string>)>, m: nat, n: nat) {
    r.Some? ==> |r.value.0| == |r.value.1| <= m && forall k :: 0 <= k < |r.value.0| ==> |r.value.0[k]| == n
  }

  /** The outputs and the test names, section by section; `None` stands for
      the `IndexError` of a heading without `: `. */
  function ReadSections(sections: seq<string>, n: nat): (r: Option<(seq<seq<int>>, seq<string>)>)
    ensures WellShaped(r, |sections|, n)
  {
    if |sections| == 0 then Some(([], []))
    else
      var acc := ReadSections(sections[..|sections| - 1], n);
      var s := SectionOf(sections[|sections| - 1], n);
      ExtendShaped(acc, s, |sections| - 1, n);
      Extend(acc, s)
  }

  /** One more section onto what the earlier ones gave: a skipped section
      changes nothing, a section without a name fails the whole read. */
  function Extend(acc: Option<(seq<seq<int>>, seq<string>)>, s: Section): Option<(seq<seq<int>>, seq<string>)> {
    match acc
    case None => None
    case Some((outputs, names)) =>
      match s
      case Skipped => acc
      case Unnamed => None
      case Named(name, vector) => Some((outputs + [vector], names + [name]))
  }

  lemma ExtendShaped(acc: Option<(seq<seq<int>>, seq<string>)>, s: Section, m: nat, n: nat)
    requires WellShaped(acc, m, n) && (s.Named? ==> |s.vector| == n)
    ensures WellShaped(Extend(acc, s), m + 1, n)
  {
  }

  /** `read_hardware_output` on the text of the file: the part before the
      first `=== Test` is dropped. */
  function HardwareOutputOf(content: string, n: nat): Option<(seq<seq<int>>, seq<string>)> {
    ReadSections(Split(content, "=== Test")[1..], n)
  }

  method ReadHardwareOutput(content: string, n: nat) returns (r: Option<(seq<seq<int>>, seq<string>)>)
    ensures r == HardwareOutputOf(content, n)
  {
    var sections := Split(content, "=== Test")[1..];
    var outputs: seq<seq<int>> := [];
    var names: seq<string> := [];
    var i := 0;
    while i < |sections|
      invariant 0 <= i <= |sections|
      invariant ReadSections(sections[..i], n) == Some((outputs, names))
    {
      ReadSectionsNext(sections, n, i, outputs, names);
      var section := ReadSection(sections[i], n);
      match section {
        case Skipped =>
        case Unnamed =>
          ReadSectionsFails(sections, n, i);
          return None;
        case Named(name, vector) =>
          outputs := outputs + [vector];
          names := names + [name];
      }
      i := i + 1;
    }
    assert sections[..i] == sections;
    r := Some((outputs, names));
  }

  /** The body of the section loop: the section's lines after stripping, its
      test name and its scores. */
  method ReadSection(section: string, n: nat) returns (r: Section)
    ensures r == SectionOf(section, n)
  {
    var lines := Split(Strip(section), "\n");
    if |lines| < 2 {
      return Skipped;
    }
    var name := TestName(lines[0]);
    if name.None? {
      return Unnamed;
    }
    var values := ParseValues(lines[1..]);
    r := Named(name.value, OutputVector(values, n));
  }

  /** The read of one more section, after a read that went through. */
  lemma ReadSectionsNext(sections: seq<string>, n: nat, i: nat, outputs: seq<seq<int>>, names: seq<string>)
    requires i < |sections| && ReadSections(sections[..i], n) == Some((outputs, names))
    ensures SectionOf(sections[i], n).Skipped? ==> ReadSections(sections[..i + 1], n) == Some((outputs, names))
    ensures SectionOf(sections[i], n).Named? ==>
      ReadSections(sections[..i + 1], n) ==
        Some((outputs + [SectionOf(sections[i], n).vector], names + [SectionOf(sections[i], n).name]))
  {
    assert sections[..i + 1][..i] == sections[..i];
  }

  /** A failing section makes the whole read fail. */
  lemma {:induction false} ReadSectionsFails(sections: seq<string>, n: nat, i: nat)
    requires i < |sections| && SectionOf(sections[i], n) == Unnamed
    ensures ReadSections(sections, n) == None
    decreases |sections|
  {
    if i < |sections| - 1 {
      ReadSectionsFails(sections[..|sections| - 1], n, i);
    }
    ExtendFails(ReadSections(sections[..|sections| - 1], n), SectionOf(sections[|sections| - 1], n));
  }

  lemma ExtendFails(acc: Option<(seq<seq<int>>, seq<string>)>, s: Section)
    requires acc.None? || s.Unnamed?
    ensures Extend(acc, s).None?
  {
  }

  /** Every score that a read produces is an int16. */
  lemma {:induction false} ReadSectionsInRange(sections: seq<string>, n: nat)
    ensures ReadSections(sections, n).Some? ==>
      forall k :: 0 <= k < |ReadSections(sections, n).value.0| ==> Int16s(ReadSections(sections, n).value.0[k])
  {
    if |sections| > 0 {
      ReadSectionsInRange(sections[..|sections| - 1], n);
      ExtendInRange(ReadSections(sections[..|sections| - 1], n), SectionOf(sections[|sections| - 1], n));
    }
  }

  lemma ExtendInRange(acc: Option<(seq<seq<int>>, seq<string>)>, s: Section)
    requires acc.Some? ==> forall k :: 0 <= k < |acc.value.0| ==> Int16s(acc.value.0[k])
    requires s.Named? ==> Int16s(s.vector)
    ensures Extend(acc, s).Some? ==> forall k :: 0 <= k < |Extend(acc, s).value.0| ==> Int16s(Extend(acc, s).value.0[k])
  {
  }

  /** A four-digit line contributes its word. */
  lemma MemLineValue(v: int)
    requires -SignBit <= v < SignBit
    ensures LineValue(MemLine(v)) == Some(Wrap16(v))
  {
    var l := MemLine(v);
    ParseHex4(Wrap16(v));
    MemLineRoundTrip(v);
    assert forall k :: 0 <= k < |l| ==> !IsSpace(l[k]);
    StripDigits(l);
    assert l[0] != '=';
    assert !StartsWith(l, "===");
  }

  /** The words of a list of int16 scores. */
  function Words(scores: seq<int>): (w: seq<int>)
    ensures |w| == |scores| && forall k :: 0 <= k < |scores| ==> w[k] == Wrap16(scores[k])
  {
    seq(|scores|, k requires 0 <= k < |scores| => Wrap16(scores[k]))
  }

  /** Reading back the lines a testbench writes for some scores gives their words. */
  lemma MemLinesValues(scores: seq<int>)
    requires forall k :: 0 <= k < |scores| ==> -SignBit <= scores[k] < SignBit
    ensures HexValues(MemLines(scores)) == Words(scores)
  {
    var xs := LineValues(MemLines(scores));
    forall k | 0 <= k < |xs| ensures xs[k] == Some(Words(scores)[k]) {
      MemLineValue(scores[k]);
    }
    AllPresent(xs, Words(scores));
  }

  /** A section written for `n` int16 scores reads back as exactly those
      scores. */
  lemma MemLinesRoundTrip(scores: seq<int>)
    requires forall k :: 0 <= k < |scores| ==> -SignBit <= scores[k] < SignBit
    ensures OutputVector(HexValues(MemLines(scores)), |scores|) == scores
  {
    MemLinesValues(scores);
    forall k | 0 <= k < |scores| ensures Int16Of(Wrap16(scores[k])) == scores[k] {
      SignExtendWrap(scores[k]);
    }
  }

  // Analysis of one vector.

  /** `np.argmax`: the first index of the largest score. */
  function ArgMax(v: seq<int>): (i: nat)
    requires |v| > 0
    ensures i < |v|
    ensures forall j :: 0 <= j < |v| ==> v[j] <= v[i]
    ensures forall j :: 0 <= j < i ==> v[j] < v[i]
  {
    if |v| == 1 then 0
    else
      var i := ArgMax(v[..|v| - 1]);
      if v[|v| - 1] > v[i] then |v| - 1 else i
  }

  /** The largest score among the first `m` that are not yet chosen, the
      last such index among equal scores; `None` when all are chosen. */
  function BestBelow(v: seq<int>, chosen: seq<nat>, m: nat): (r: Option<nat>)
    requires m <= |v|
    ensures r.None? <==> forall j :: 0 <= j < m ==> j in chosen
    ensures r.Some? ==> r.value < m && r.value !in chosen
    ensures r.Some? ==> forall j :: 0 <= j < m && j !in chosen ==> v[j] <= v[r.value]
  {
    if m == 0 then None
    else
      var r := BestBelow(v, chosen, m - 1);
      if m - 1 in chosen then r
      else if r.None? || v[m - 1] >= v[r.value] then Some(m - 1)
      else r
  }

  /** The `k` best indices, best first, as `np.argsort(v)[-k:][::-1]`
      gives them with a stable sort. */
  function TopK(v: seq<int>, k: nat): (t: seq<nat>)
  {
    if k == 0 then []
    else
      var t := TopK(v, k - 1);
      match BestBelow(v, t, |v|)
      case None => t
      case Some(i) => t + [i]
  }

  /** What the top `k` is: `min(k, |v|)` distinct indices of `v`, in
      non-increasing order of score, and no index left out scores higher
      than any chosen one. */
  predicate IsTop(v: seq<int>, k: nat, t: seq<nat>) {
    |t| == (if k <= |v| then k else |v|)
    && NoDuplicates(t)
    && (forall a :: 0 <= a < |t| ==> t[a] < |v|)
    && (forall a, b :: 0 <= a < b < |t| ==> v[t[a]] >= v[t[b]])
    && (forall j, a :: 0 <= j < |v| && j !in t && 0 <= a < |t| ==> v[j] <= v[t[a]])
  }

  /** A list without repetitions that holds every index below `m` has at
      least `m` entries. */
  lemma {:induction false} CoverLength(t: seq<nat>, m: nat)
    requires NoDuplicates(t)
    requires forall j :: 0 <= j < m ==> j in t
    ensures |t| >= m
  {
    if m > 0 {
      assert m - 1 in t;
      var i :| 0 <= i < |t| && t[i] == m - 1;
      var rest := t[..i] + t[i + 1..];
      forall j | 0 <= j < m - 1 ensures j in rest {
        assert j in t;
        var p :| 0 <= p < |t| && t[p] == j;
        if p < i { assert rest[p] == j; } else { assert rest[p - 1] == j; }
      }
      forall a, b | 0 <= a < b < |rest| ensures rest[a] != rest[b] {
        var a', b' := if a < i then a else a + 1, if b < i then b else b + 1;
        assert rest[a] == t[a'] && rest[b] == t[b'];
      }
      CoverLength(rest, m - 1);
    }
  }

  /** A list without repetitions of indices below `m` has at most `m`
      entries. */
  lemma {:induction false} DistinctBelow(t: seq<nat>, m: nat)
    requires NoDuplicates(t)
    requires forall a :: 0 <= a < |t| ==> t[a] < m
    ensures |t| <= m
  {
    if |t| == 0 {
    } else if m - 1 in t {
      var i :| 0 <= i < |t| && t[i] == m - 1;
      var rest := t[..i] + t[i + 1..];
      forall a | 0 <= a < |rest| ensures rest[a] < m - 1 {
        var a' := if a < i then a else a + 1;
        assert rest[a] == t[a'] && a' != i;
      }
      forall a, b | 0 <= a < b < |rest| ensures rest[a] != rest[b] {
        var a', b' := if a < i then a else a + 1, if b < i then b else b + 1;
        assert rest[a] == t[a'] && rest[b] == t[b'];
      }
      DistinctBelow(rest, m - 1);
    } else {
      assert t[0] < m;
      forall a | 0 <= a < |t| ensures t[a] < m - 1 {
        assert t[a] != m - 1;
      }
      DistinctBelow(t, m - 1);
    }
  }

  /** Each step of `TopK` adds the best index not yet chosen, keeping the
      list a top list. */
  lemma {:induction false} TopKIsTop(v: seq<int>, k: nat)
    ensures IsTop(v, k, TopK(v, k))
  {
    if k > 0 {
      var t := TopK(v, k - 1);
      TopKIsTop(v, k - 1);
      match BestBelow(v, t, |v|)
      case None =>
        TopNoneLeft(v, k, t);
      case Some(i) =>
        TopAddBest(v, k, t, i);
    }
  }

  lemma TopNoneLeft(v: seq<int>, k: nat, t: seq<nat>)
    requires k > 0 && IsTop(v, k - 1, t)
    requires forall j :: 0 <= j < |v| ==> j in t
    ensures IsTop(v, k, t)
  {
    CoverLength(t, |v|);
  }

  lemma TopAddBest(v: seq<int>, k: nat, t: seq<nat>, i: nat)
    requires k > 0 && IsTop(v, k - 1, t)
    requires BestBelow(v, t, |v|) == Some(i)
    ensures IsTop(v, k, t + [i])
  {
    var t' := t + [i];
    assert i !in t && i < |v|;
    forall a | 0 <= a < |t'| ensures t'[a] < |v| {
      if a < |t| { assert t'[a] == t[a]; }
    }
    forall a, b | 0 <= a < b < |t'| ensures t'[a] != t'[b] && v[t'[a]] >= v[t'[b]] {
      assert t'[a] == t[a];
      if b < |t| { assert t'[b] == t[b]; }
    }
    DistinctBelow(t', |v|);
    forall j, a | 0 <= j < |v| && j !in t' && 0 <= a < |t'| ensures v[j] <= v[t'[a]] {
      assert j !in t;
      if a < |t| { assert t'[a] == t[a]; }
    }
  }

  /** The three best indices, as the report lists them. */
  function Top3(v: seq<int>): (t: seq<nat>)
    ensures IsTop(v, 3, t)
  {
    TopKIsTop(v, 3);
    TopK(v, 3)
  }

  /** The first entry of the top list is a largest score. */
  lemma TopStartsAtMax(v: seq<int>)
    requires |v| > 0
    ensures v[Top3(v)[0]] == v[ArgMax(v)]
  {
    var t := Top3(v);
    if ArgMax(v) !in t {
    } else {
      var a :| 0 <= a < |t| && t[a] == ArgMax(v);
      assert v[t[0]] >= v[t[a]] || a == 0;
    }
  }

  // The confidence percentage.

  function Abs(x: int): nat {
    if x < 0 then -x else x
  }

  /** `np.abs` on an int16: the most negative value has no positive
      counterpart and stays as it is. */
  function AbsInt16(x: int): int {
    if x == -SignBit then x else Abs(x)
  }

  /** `np.sum(np.abs(output))` on the int16 vector, summed in a wide integer. */
  function SumAbsAsWritten(v: seq<int>): int {
    if |v| == 0 then 0 else SumAbsAsWritten(v[..|v| - 1]) + AbsInt16(v[|v| - 1])
  }

  /** The confidence as written: the largest score over the sum of the
      int16 magnitudes, in percent, and 0 when that sum is not positive. */
  function ConfidencePctAsWritten(v: seq<int>): real
    requires |v| > 0
  {
    var total := SumAbsAsWritten(v);
    if total > 0 then v[ArgMax(v)] as real / total as real * 100.0 else 0.0
  }

  /** The sum of the true magnitudes. */
  function SumAbs(v: seq<int>): (s: nat)
  {
    if |v| == 0 then 0 else SumAbs(v[..|v| - 1]) + Abs(v[|v| - 1])
  }

  /** The confidence with the magnitudes taken in a wide integer. */
  function ConfidencePct(v: seq<int>): real
    requires |v| > 0
  {
    var total := SumAbs(v);
    if total > 0 then v[ArgMax(v)] as real / total as real * 100.0 else 0.0
  }

  lemma {:induction false} SumAbsBoundsEach(v: seq<int>, k: nat)
    requires k < |v|
    ensures Abs(v[k]) <= SumAbs(v)
  {
    if k < |v| - 1 {
      SumAbsBoundsEach(v[..|v| - 1], k);
    }
  }

  /** The confidence lies in [-100, 100]. */
  lemma ConfidencePctRange(v: seq<int>)
    requires |v| > 0
    ensures -100.0 <= ConfidencePct(v) <= 100.0
  {
    var total := SumAbs(v);
    if total > 0 {
      var m := v[ArgMax(v)];
      SumAbsBoundsEach(v, ArgMax(v));
      QuotientBounds(m as real, total as real, -1.0, 1.0);
    }
  }

  /** The two agree whenever no score is the most negative int16. */
  lemma {:induction false} SumAbsAgree(v: seq<int>)
    requires forall k :: 0 <= k < |v| ==> v[k] != -SignBit
    ensures SumAbsAsWritten(v) == SumAbs(v)
  {
    if |v| > 0 {
      SumAbsAgree(v[..|v| - 1]);
    }
  }

  lemma ConfidenceAgrees(v: seq<int>)
    requires |v| > 0
    requires forall k :: 0 <= k < |v| ==> v[k] != -SignBit
    ensures ConfidencePctAsWritten(v) == ConfidencePct(v)
  {
    SumAbsAgree(v);
  }

  /** The words 8000, 7fff, 7fff and twelve zeros, as int16. */
  const WrappedOutput: seq<int> := [-0x8000, 0x7fff, 0x7fff, 0, 0, 0, 0, 0, 0, 0, 0, 0, 0, 0, 0]

  /** On that output the confidence as written exceeds 100%: the magnitude
      of -32768 counts as -32768. */
  lemma ConfidenceAboveHundred()
    ensures ConfidencePctAsWritten(WrappedOutput) > 100.0
    ensures ConfidencePct(WrappedOutput) < 100.0
  {
    var v := WrappedOutput;
    var i := ArgMax(v);
    assert forall j :: 0 <= j < |v| ==> v[j] <= 0x7fff;
    assert v[1] <= v[i] <= 0x7fff;
    SumAbsOfWrapped();
    var q := 0x7fff as real / 32766 as real;
    assert q * 32766.0 == 32767.0;
    var r := 0x7fff as real / 98302 as real;
    assert r * 98302.0 == 32767.0;
  }

  lemma SumAbsOfWrapped()
    ensures SumAbsAsWritten(WrappedOutput) == 32766
    ensures SumAbs(WrappedOutput) == 98302
  {
    var v := WrappedOutput;
    var z := v[3..];
    assert forall k :: 0 <= k < |z| ==> z[k] == 0;
    ZeroTail(v, 3);
    assert v[..3] == [-0x8000, 0x7fff, 0x7fff];
    SumsOfThree(-0x8000, 0x7fff, 0x7fff);
  }

  lemma SumsOfThree(a: int, b: int, c: int)
    ensures SumAbsAsWritten([a, b, c]) == AbsInt16(a) + AbsInt16(b) + AbsInt16(c)
    ensures SumAbs([a, b, c]) == Abs(a) + Abs(b) + Abs(c)
  {
    assert [a, b, c][..2] == [a, b];
    assert [a, b][..1] == [a];
    assert [a][..0] == [];
    assert SumAbs([a]) == Abs(a);
    assert SumAbs([a, b]) == Abs(a) + Abs(b);
    assert SumAbsAsWritten([a]) == AbsInt16(a);
    assert SumAbsAsWritten([a, b]) == AbsInt16(a) + AbsInt16(b);
  }

  /** Zeros at the end add nothing to either sum. */
  lemma {:induction false} ZeroTail(v: seq<int>, m: nat)
    requires m <= |v| && forall k :: m <= k < |v| ==> v[k] == 0
    ensures SumAbsAsWritten(v) == SumAbsAsWritten(v[..m])
    ensures SumAbs(v) == SumAbs(v[..m])
    decreases |v|
  {
    if |v| > m {
      ZeroTail(v[..|v| - 1], m);
      assert v[..|v| - 1][..m] == v[..m];
    } else {
      assert v[..m] == v;
    }
  }

  // Prediction frequency.

  /** The class indices `0 .. n - 1`. */
  function Classes(n: nat): (r: seq<nat>)
    ensures |r| == n && forall k :: 0 <= k < n ==> r[k] == k
  {
    seq(n, k => k)
  }

  /** `disease_counts[predicted] += 1` for each prediction. */
  method CountPredictions(predicted: seq<nat>, n: nat) returns (counts: array<nat>)
    requires forall k :: 0 <= k < |predicted| ==> predicted[k] < n
    ensures counts.Length == n
    ensures forall c :: 0 <= c < n ==> counts[c] == Count(predicted, c)
  {
    counts := new nat[n](c => 0);
    var i := 0;
    while i < |predicted|
      invariant 0 <= i <= |predicted|
      invariant forall c :: 0 <= c < n ==> counts[c] == Count(predicted[..i], c)
    {
      forall c | 0 <= c < n { CountPrefixStep(predicted, i, c); }
      counts[predicted[i]] := counts[predicted[i]] + 1;
      i := i + 1;
    }
    assert predicted[..i] == predicted;
  }

  /** The counts over all classes add up to the number of predictions. */
  lemma {:induction false} CountsAddUp(predicted: seq<nat>, n: nat)
    requires forall k :: 0 <= k < |predicted| ==> predicted[k] < n
    ensures CountsOf(Classes(n), predicted) == |predicted|
  {
    if |predicted| > 0 {
      var init, p := predicted[..|predicted| - 1], predicted[|predicted| - 1];
      CountsAddUp(init, n);
      assert init + [p] == predicted;
      CountsOfSnoc(Classes(n), init, p);
      assert Classes(n)[p] == p;
      CountOnce(Classes(n), p);
      assert CountsOf(Classes(n), predicted) == CountsOf(Classes(n), init) + 1;
    } else {
      CountsOfNothing(Classes(n));
    }
  }

  /** The predicted class of every output. */
  function Predictions(outputs: seq<seq<int>>): (p: seq<nat>)
    requires forall k :: 0 <= k < |outputs| ==> |outputs[k]| > 0
    ensures |p| == |outputs|
    ensures forall k :: 0 <= k < |outputs| ==> p[k] == ArgMax(outputs[k]) && p[k] < |outputs[k]|
  {
    seq(|outputs|, k requires 0 <= k < |outputs| => ArgMax(outputs[k]))
  }
}
