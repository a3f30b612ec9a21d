/** The all-diseases summary analyser: the results table of the summary
    file, the per-class confusion tally with its main misclassification,
    the performance rating and the recommendation bands. */
module AllDiseases {
  import opened Text
  import opened Seqs
  import Emergency
  import opened Stats

  const DiseaseNames: seq<string> := [
    "No Finding", "Infiltration", "Atelectasis", "Effusion", "Nodule",
    "Pneumothorax", "Mass", "Consolidation", "Pleural Thickening",
    "Cardiomegaly", "Emphysema", "Fibrosis", "Edema", "Pneumonia", "Hernia"]

  /** The line that opens the results table. */
  const TableStart: string := "DETAILED RESULTS BY DISEASE:"
  /** The line that closes it. */
  const TableEnd: string := "PERFORMANCE ANALYSIS:"

  /** One parsed table row. */
  datatype Row = Row(expected: string, predicted: string, result: string, confidence: nat, cycles: nat)

  /** `int(f) if f.isdigit() else 0`. */
  function NumberField(f: string): nat {
    if IsDigits(f) then DigitsValue(f) else 0
  }

  /** A line the table loop turns into a row: it has a `|` and contains
      neither `Expected` (the column header) nor `-` (rules, and any
      negative number). */
  predicate IsTableLine(line: string) {
    Contains(line, "|") && !Contains(line, "Expected") && !Contains(line, "-")
  }

  /** The `|`-separated fields of a table line, stripped; a line with fewer
      than five fields gives no row. */
  function RowOf(line: string): Option<Row> {
    var parts := Split(line, "|");
    if |parts| >= 5 then
      Some(Row(Strip(parts[0]), Strip(parts[1]), Strip(parts[2]),
               NumberField(Strip(parts[3])), NumberField(Strip(parts[4]))))
    else None
  }

  /** How the table loop treats a line: the start line (recognised first), a
      table line, the end line, or anything else. Table and end lines only
      matter once the table is open. */
  datatype LineKind = Start | Data | End | Other

  function KindOf(line: string): LineKind {
    if Contains(line, TableStart) then Start
    else if IsTableLine(line) then Data
    else if Contains(line, TableEnd) then End
    else Other
  }

  /** The kind of every line. */
  function Kinds(lines: seq<string>): (ks: seq<LineKind>)
    ensures |ks| == |lines|
  {
    if |lines| == 0 then [] else Kinds(lines[..|lines| - 1]) + [KindOf(lines[|lines| - 1])]
  }

  /** The row, if any, every line would give. */
  function Found(lines: seq<string>): (fs: seq<Option<Row>>)
    ensures |fs| == |lines|
  {
    if |lines| == 0 then [] else Found(lines[..|lines| - 1]) + [RowOf(lines[|lines| - 1])]
  }

  lemma {:induction false} KindsAt(lines: seq<string>)
    ensures forall k :: 0 <= k < |lines| ==> Kinds(lines)[k] == KindOf(lines[k])
  {
    if |lines| > 0 {
      KindsAt(lines[..|lines| - 1]);
    }
  }

  lemma {:induction false} FoundAt(lines: seq<string>)
    ensures forall k :: 0 <= k < |lines| ==> Found(lines)[k] == RowOf(lines[k])
  {
    if |lines| > 0 {
      FoundAt(lines[..|lines| - 1]);
    }
  }

  /** The rows the table loop records from line `i` on, given the kind of
      each line and the row each would give, with the table open or not:
      the start line opens the table, a table line adds its row, the end
      line met inside the table stops everything, and any other line is
      passed over. */
  function Machine(kinds: seq<LineKind>, found: seq<Option<Row>>, i: nat, inTable: bool): seq<Row>
    requires |kinds| == |found| && i <= |kinds|
    decreases |kinds| - i
  {
    if i == |kinds| then []
    else
      match kinds[i]
      case Start => Machine(kinds, found, i + 1, true)
      case Data =>
        if inTable then
          (match found[i] case Some(r) => [r] case None => []) + Machine(kinds, found, i + 1, true)
        else Machine(kinds, found, i + 1, false)
      case End => if inTable then [] else Machine(kinds, found, i + 1, false)
      case Other => Machine(kinds, found, i + 1, inTable)
  }

  /** The rows the table loop records from the lines of a summary. */
  function TableRows(lines: seq<string>): seq<Row> {
    Machine(Kinds(lines), Found(lines), 0, false)
  }

  /** The table loop of `parse_summary_file` over the lines of the file,
      each line's tests done up front by `Kinds` and `Found`. */
  method ParseTable(content: string) returns (rows: seq<Row>)
    ensures rows == TableRows(Split(content, "\n"))
  {
    var lines := Split(content, "\n");
    var kinds, found := Kinds(lines), Found(lines);
    var inTable := false;
    rows := [];
    var i := 0;
    while i < |kinds|
      invariant 0 <= i <= |kinds|
      invariant rows + Machine(kinds, found, i, inTable) == Machine(kinds, found, 0, false)
    {
      match kinds[i] {
        case Start =>
          inTable := true;
        case Data =>
          if inTable {
            match found[i] {
              case Some(r) =>
                assert rows + ([r] + Machine(kinds, found, i + 1, true)) == (rows + [r]) + Machine(kinds, found, i + 1, true);
                rows := rows + [r];
              case None =>
            }
          }
        case End =>
          if inTable {
            assert rows + [] == rows;
            return;
          }
        case Other =>
      }
      i := i + 1;
    }
  }

  /** Lines before the start line record nothing. */
  lemma {:induction false} SkipUntilStart(kinds: seq<LineKind>, found: seq<Option<Row>>, i: nat, k: nat)
    requires |kinds| == |found| && i <= k <= |kinds|
    requires forall j :: i <= j < k ==> kinds[j] != Start
    ensures Machine(kinds, found, i, false) == Machine(kinds, found, k, false)
    decreases k - i
  {
    if i < k {
      SkipUntilStart(kinds, found, i + 1, k);
    }
  }

  /** Lines the loop passes over leave the rows unchanged. */
  lemma {:induction false} SkipOther(kinds: seq<LineKind>, found: seq<Option<Row>>, i: nat, k: nat, inTable: bool)
    requires |kinds| == |found| && i <= k <= |kinds|
    requires forall j :: i <= j < k ==> kinds[j] == Other
    ensures Machine(kinds, found, i, inTable) == Machine(kinds, found, k, inTable)
    decreases k - i
  {
    if i < k {
      SkipOther(kinds, found, i + 1, k, inTable);
    }
  }

  /** The start line opens the table. */
  lemma EnterTable(kinds: seq<LineKind>, found: seq<Option<Row>>, i: nat)
    requires |kinds| == |found| && i < |kinds| && kinds[i] == Start
    ensures Machine(kinds, found, i, false) == Machine(kinds, found, i + 1, true)
  {
  }

  /** An end line inside the table ends the loop. */
  lemma LeaveTable(kinds: seq<LineKind>, found: seq<Option<Row>>, i: nat)
    requires |kinds| == |found| && i < |kinds| && kinds[i] == End
    ensures Machine(kinds, found, i, true) == []
  {
  }

  /** Inside the table, table lines add their rows. */
  lemma {:induction false} RowsFromData(kinds: seq<LineKind>, found: seq<Option<Row>>, i: nat, rows: seq<Row>)
    requires |kinds| == |found| && i + |rows| <= |kinds|
    requires forall j :: i <= j < i + |rows| ==> kinds[j] == Data
    requires forall j :: i <= j < i + |rows| ==> found[j] == Some(rows[j - i])
    ensures Machine(kinds, found, i, true) == rows + Machine(kinds, found, i + |rows|, true)
    decreases |rows|
  {
    if |rows| > 0 {
      RowsFromData(kinds, found, i + 1, rows[1..]);
      assert rows == [rows[0]] + rows[1..];
    }
  }

  /** Without a start line there is no row at all. */
  lemma NoStartNoRows(lines: seq<string>)
    requires forall j :: 0 <= j < |lines| ==> !Contains(lines[j], TableStart)
    ensures TableRows(lines) == []
  {
    KindsAt(lines);
    SkipUntilStart(Kinds(lines), Found(lines), 0, |lines|);
  }

  // Rendering a table in the layout the parser reads: a partner for the parser.

  /** A text field that survives a round trip through a table line: not
      empty, not padded, free of `|`, `-` and `:`, and not containing
      `Expected`. */
  predicate CleanField(f: string) {
    |f| > 0 && !IsSpace(f[0]) && !IsSpace(f[|f| - 1]) &&
    (forall j :: 0 <= j < |f| ==> f[j] != '|' && f[j] != '-' && f[j] != ':') &&
    !Contains(f, "Expected")
  }

  predicate CleanRow(r: Row) {
    CleanField(r.expected) && CleanField(r.predicted) && CleanField(r.result)
  }

  /** The padded fields of a row's line. */
  function RowFields(r: Row): seq<string> {
    [r.expected + " ", " " + r.predicted + " ", " " + r.result + " ",
     " " + NatToString(r.confidence) + " ", " " + NatToString(r.cycles)]
  }

  /** `expected | predicted | result | confidence | cycles`. */
  function RenderRow(r: Row): string {
    Join(RowFields(r), "|")
  }

  function RenderRows(rows: seq<Row>): (lines: seq<string>)
    ensures |lines| == |rows|
    ensures forall k :: 0 <= k < |rows| ==> lines[k] == RenderRow(rows[k])
  {
    if |rows| == 0 then [] else RenderRows(rows[..|rows| - 1]) + [RenderRow(rows[|rows| - 1])]
  }

  /** A summary file: lines before the table, the start line, heading
      lines (the column header and rules), the rows, the end line, then
      anything. */
  function RenderTable(before: seq<string>, headings: seq<string>, rows: seq<Row>, after: seq<string>): seq<string> {
    before + [TableStart] + headings + RenderRows(rows) + [TableEnd] + after
  }

  /** A digit string is a clean number field. */
  lemma DigitsAreClean(s: string)
    requires IsDigits(s)
    ensures |s| > 0 && !IsSpace(s[0]) && !IsSpace(s[|s| - 1])
    ensures forall j :: 0 <= j < |s| ==> s[j] != '|' && s[j] != '-' && s[j] != ':'
    ensures !Contains(s, "Expected")
  {
    MissingCharMissingWord(s, "Expected", 0);
  }

  /** A padded field keeps the field's freedom from a word that lacks spaces. */
  lemma PaddedLacks(f: string, w: string)
    requires |w| > 0 && (forall k :: 0 <= k < |w| ==> w[k] != ' ')
    requires !Contains(f, w)
    ensures !Contains(f + " ", w) && !Contains(" " + f, w) && !Contains(" " + f + " ", w)
  {
    assert !Contains("", w) by { ContainsIff("", w); }
    ContainsAround(f, ' ', "", w);
    assert f + [' '] + "" == f + " ";
    ContainsAround("", ' ', f, w);
    assert "" + [' '] + f == " " + f;
    ContainsAround(" " + f, ' ', "", w);
    assert " " + f + [' '] + "" == " " + f + " ";
  }

  /** Joining pieces that lack a word without `|` gives a line that lacks it. */
  lemma {:induction false} JoinLacks(parts: seq<string>, w: string)
    requires |w| > 0 && (forall k :: 0 <= k < |w| ==> w[k] != '|')
    requires forall k :: 0 <= k < |parts| ==> !Contains(parts[k], w)
    ensures !Contains(Join(parts, "|"), w)
  {
    if |parts| == 0 {
      ContainsIff("", w);
    } else if |parts| > 1 {
      JoinLacks(parts[1..], w);
      ContainsAround(parts[0], '|', Join(parts[1..], "|"), w);
      assert parts[0] + ['|'] + Join(parts[1..], "|") == Join(parts, "|");
    }
  }

  /** No padded field of a clean row contains `|`. */
  lemma RowFieldsCharFree(r: Row)
    requires CleanRow(r)
    ensures CharFree(RowFields(r), '|')
  {
    DigitsAreClean(NatToString(r.confidence));
    DigitsAreClean(NatToString(r.cycles));
    var fs := RowFields(r);
    forall k, j | 0 <= k < |fs| && 0 <= j < |fs[k]| ensures fs[k][j] != '|' {
    }
  }

  /** The fields of a clean row's line are the padded fields. */
  lemma SplitRenderRow(r: Row)
    requires CleanRow(r)
    ensures Split(RenderRow(r), "|") == RowFields(r)
  {
    RowFieldsCharFree(r);
    SplitJoin(RowFields(r), '|');
  }

  /** No padded field of a clean row contains `w`, a word without spaces or `|` that clean fields lack. */
  lemma RowLacks(r: Row, w: string)
    requires CleanRow(r)
    requires |w| > 0 && (forall k :: 0 <= k < |w| ==> w[k] != ' ' && w[k] != '|')
    requires !Contains(r.expected, w) && !Contains(r.predicted, w) && !Contains(r.result, w)
    requires !Contains(NatToString(r.confidence), w) && !Contains(NatToString(r.cycles), w)
    ensures !Contains(RenderRow(r), w)
  {
    PaddedLacks(r.expected, w);
    PaddedLacks(r.predicted, w);
    PaddedLacks(r.result, w);
    PaddedLacks(NatToString(r.confidence), w);
    PaddedLacks(NatToString(r.cycles), w);
    JoinLacks(RowFields(r), w);
  }

  /** A clean row's line is a table line, is neither the start nor the end
      line, and reads back as the row. */
  lemma RenderRowRoundTrip(r: Row)
    requires CleanRow(r)
    ensures IsTableLine(RenderRow(r)) && KindOf(RenderRow(r)) == Data
    ensures !Contains(RenderRow(r), TableStart) && !Contains(RenderRow(r), TableEnd)
    ensures RowOf(RenderRow(r)) == Some(r)
  {
    RowReadsBack(r);
    RowLacksMarkers(r);
    ColonlessLacks(RenderRow(r));
  }

  /** The fields of a clean row's line, stripped, are the row's. */
  lemma RowReadsBack(r: Row)
    requires CleanRow(r)
    ensures Contains(RenderRow(r), "|") && RowOf(RenderRow(r)) == Some(r)
  {
    var line := RenderRow(r);
    var c, y := NatToString(r.confidence), NatToString(r.cycles);
    DigitsAreClean(c);
    DigitsAreClean(y);
    SplitRenderRow(r);
    var fs := RowFields(r);
    SplitHead(line, "|");
    StripPadded("", r.expected, " ");
    assert fs[0] == "" + r.expected + " ";
    StripPadded(" ", r.predicted, " ");
    StripPadded(" ", r.result, " ");
    StripPadded(" ", c, " ");
    StripPadded(" ", y, "");
    assert fs[4] == " " + y + "";
  }

  /** A clean row's line lacks `-`, `Expected` and the colon of the start
      and end lines. */
  lemma RowLacksMarkers(r: Row)
    requires CleanRow(r)
    ensures !Contains(RenderRow(r), "-") && !Contains(RenderRow(r), "Expected")
    ensures !Contains(RenderRow(r), ":")
  {
    RowLacksChar(r, '-');
    RowLacksExpected(r);
    RowLacksChar(r, ':');
  }

  /** A clean row's line lacks `-` and `:`, which clean fields exclude. */
  lemma RowLacksChar(r: Row, ch: char)
    requires CleanRow(r) && (ch == '-' || ch == ':')
    ensures !Contains(RenderRow(r), [ch])
  {
    var c, y := NatToString(r.confidence), NatToString(r.cycles);
    DigitsAreClean(c);
    DigitsAreClean(y);
    MissingCharMissingWord(r.expected, [ch], 0);
    MissingCharMissingWord(r.predicted, [ch], 0);
    MissingCharMissingWord(r.result, [ch], 0);
    MissingCharMissingWord(c, [ch], 0);
    MissingCharMissingWord(y, [ch], 0);
    RowLacks(r, [ch]);
  }

  lemma RowLacksExpected(r: Row)
    requires CleanRow(r)
    ensures !Contains(RenderRow(r), "Expected")
  {
    var c, y := NatToString(r.confidence), NatToString(r.cycles);
    DigitsAreClean(c);
    DigitsAreClean(y);
    MissingCharMissingWord(c, "Expected", 0);
    MissingCharMissingWord(y, "Expected", 0);
    RowLacks(r, "Expected");
  }

  /** A line without `:` contains neither the start nor the end line. */
  lemma ColonlessLacks(line: string)
    requires !Contains(line, ":")
    ensures !Contains(line, TableStart) && !Contains(line, TableEnd)
  {
    ContainsIff(line, ":");
    forall j | 0 <= j < |line| ensures line[j] != ':' {
      assert line[j..j + 1] == [line[j]];
      assert !OccursAt(line, ":", j);
    }
    MissingCharMissingWord(line, TableStart, |TableStart| - 1);
    MissingCharMissingWord(line, TableEnd, |TableEnd| - 1);
  }

  /** The lines of clean rows are table lines that read back as the rows. */
  lemma RenderedRows(rows: seq<Row>)
    requires forall k :: 0 <= k < |rows| ==> CleanRow(rows[k])
    ensures forall k :: 0 <= k < |rows| ==> KindOf(RenderRows(rows)[k]) == Data
    ensures forall k :: 0 <= k < |rows| ==> RowOf(RenderRows(rows)[k]) == Some(rows[k])
  {
    forall k | 0 <= k < |rows|
      ensures KindOf(RenderRows(rows)[k]) == Data && RowOf(RenderRows(rows)[k]) == Some(rows[k])
    {
      RenderRowRoundTrip(rows[k]);
    }
  }

  /** The row one line gives. */
  lemma FoundIndex(lines: seq<string>, j: nat)
    requires j < |lines|
    ensures Found(lines)[j] == RowOf(lines[j])
  {
    FoundAt(lines);
  }

  /** A clean row's line, however obtained, reads back as the row. */
  lemma RowOfRendered(r: Row, line: string)
    requires CleanRow(r) && line == RenderRow(r)
    ensures RowOf(line) == Some(r)
  {
    RenderRowRoundTrip(r);
  }

  /** The start line is a start line. */
  lemma StartKind()
    ensures KindOf(TableStart) == Start
  {
    assert OccursAt(TableStart, TableStart, 0);
    ContainsIff(TableStart, TableStart);
  }

  /** The end line is an end line. */
  lemma EndKind()
    ensures KindOf(TableEnd) == End
  {
    assert OccursAt(TableEnd, TableEnd, 0);
    ContainsIff(TableEnd, TableEnd);
    ContainsIff(TableEnd, TableStart);
    assert forall j :: 0 <= j < |TableEnd| ==> TableEnd[j] != '|';
    MissingCharMissingWord(TableEnd, "|", 0);
  }

  /** The table loop over a summary laid out as: lines without a start
      line, the start line at `b`, `nh` passed-over lines, table lines
      giving `rows`, then an end line. It records exactly `rows`. */
  lemma MachineOfLayout(kinds: seq<LineKind>, found: seq<Option<Row>>, b: nat, nh: nat, rows: seq<Row>)
    requires |kinds| == |found| && b + 1 + nh + |rows| < |kinds|
    requires forall j :: 0 <= j < b ==> kinds[j] != Start
    requires kinds[b] == Start
    requires forall j :: b + 1 <= j < b + 1 + nh ==> kinds[j] == Other
    requires TableAt(kinds, found, b + 1 + nh, rows)
    ensures Machine(kinds, found, 0, false) == rows
  {
    SkipUntilStart(kinds, found, 0, b);
    EnterTable(kinds, found, b);
    SkipOther(kinds, found, b + 1, b + 1 + nh, true);
    RowsToEnd(kinds, found, b + 1 + nh, rows);
  }

  /** Table lines giving `rows` from `i` on, then an end line. */
  ghost predicate TableAt(kinds: seq<LineKind>, found: seq<Option<Row>>, i: nat, rows: seq<Row>) {
    |kinds| == |found| && i + |rows| < |kinds| &&
    (forall j :: i <= j < i + |rows| ==> kinds[j] == Data) &&
    (forall j :: i <= j < i + |rows| ==> found[j] == Some(rows[j - i])) &&
    kinds[i + |rows|] == End
  }

  /** Inside the table, the table lines and the end line give exactly `rows`. */
  lemma RowsToEnd(kinds: seq<LineKind>, found: seq<Option<Row>>, i: nat, rows: seq<Row>)
    requires TableAt(kinds, found, i, rows)
    ensures Machine(kinds, found, i, true) == rows
  {
    RowsFromData(kinds, found, i, rows);
    LeaveTable(kinds, found, i + |rows|);
    assert rows + [] == rows;
  }

  /** The kind of each part of a rendered summary. */
  lemma LayoutKinds(before: seq<string>, headings: seq<string>, rows: seq<Row>, after: seq<string>)
    requires forall k :: 0 <= k < |before| ==> !Contains(before[k], TableStart)
    requires forall k :: 0 <= k < |headings| ==> KindOf(headings[k]) == Other
    requires forall k :: 0 <= k < |rows| ==> CleanRow(rows[k])
    ensures var kinds, b := Kinds(RenderTable(before, headings, rows, after)), |before|;
      var h := b + 1 + |headings|;
      |kinds| == h + |rows| + 1 + |after| &&
      (forall j :: 0 <= j < b ==> kinds[j] != Start) &&
      kinds[b] == Start &&
      (forall j :: b + 1 <= j < h ==> kinds[j] == Other) &&
      (forall j :: h <= j < h + |rows| ==> kinds[j] == Data) &&
      kinds[h + |rows|] == End
  {
    KindsOfEnds(before, headings, rows, after);
    KindsBeforeTable(before, headings, rows, after);
    KindsOfHeadings(before, headings, rows, after);
    KindsOfRows(before, headings, rows, after);
  }

  lemma KindsOfEnds(before: seq<string>, headings: seq<string>, rows: seq<Row>, after: seq<string>)
    ensures var kinds, b := Kinds(RenderTable(before, headings, rows, after)), |before|;
      var h := b + 1 + |headings|;
      |kinds| == h + |rows| + 1 + |after| && kinds[b] == Start && kinds[h + |rows|] == End
  {
    var lines := RenderTable(before, headings, rows, after);
    TableLinesAt(before, headings, rows, after);
    KindsAt(lines);
    StartKind();
    EndKind();
  }

  lemma KindsBeforeTable(before: seq<string>, headings: seq<string>, rows: seq<Row>, after: seq<string>)
    requires forall k :: 0 <= k < |before| ==> !Contains(before[k], TableStart)
    ensures var kinds := Kinds(RenderTable(before, headings, rows, after));
      |before| < |kinds| && forall j :: 0 <= j < |before| ==> kinds[j] != Start
  {
    var lines := RenderTable(before, headings, rows, after);
    TableLinesAt(before, headings, rows, after);
    KindsAt(lines);
    forall j | 0 <= j < |before| ensures Kinds(lines)[j] != Start {
      assert !Contains(lines[j], TableStart);
    }
  }

  lemma KindsOfHeadings(before: seq<string>, headings: seq<string>, rows: seq<Row>, after: seq<string>)
    requires forall k :: 0 <= k < |headings| ==> KindOf(headings[k]) == Other
    ensures var kinds, b := Kinds(RenderTable(before, headings, rows, after)), |before|;
      var h := b + 1 + |headings|;
      h <= |kinds| && forall j :: b + 1 <= j < h ==> kinds[j] == Other
  {
    var lines := RenderTable(before, headings, rows, after);
    var start := |before| + 1;
    TableLinesAt(before, headings, rows, after);
    KindsAt(lines);
    forall j | start <= j < start + |headings| ensures Kinds(lines)[j] == Other {
      assert lines[j] == headings[j - start];
    }
  }

  lemma KindsOfRows(before: seq<string>, headings: seq<string>, rows: seq<Row>, after: seq<string>)
    requires forall k :: 0 <= k < |rows| ==> CleanRow(rows[k])
    ensures var kinds, b := Kinds(RenderTable(before, headings, rows, after)), |before|;
      var h := b + 1 + |headings|;
      h + |rows| <= |kinds| && forall j :: h <= j < h + |rows| ==> kinds[j] == Data
  {
    var lines := RenderTable(before, headings, rows, after);
    var start := |before| + 1 + |headings|;
    TableLinesAt(before, headings, rows, after);
    KindsAt(lines);
    forall j | start <= j < start + |rows| ensures Kinds(lines)[j] == Data {
      assert lines[j] == RenderRow(rows[j - start]);
      RenderRowRoundTrip(rows[j - start]);
    }
  }

  /** Where each part of a rendered summary lies. */
  lemma TableLinesAt(before: seq<string>, headings: seq<string>, rows: seq<Row>, after: seq<string>)
    ensures var lines, b := RenderTable(before, headings, rows, after), |before|;
      var h := b + 1 + |headings|;
      |lines| == h + |rows| + 1 + |after| &&
      (forall j :: 0 <= j < b ==> lines[j] == before[j]) &&
      lines[b] == TableStart &&
      (forall j :: b + 1 <= j < h ==> lines[j] == headings[j - (b + 1)]) &&
      (forall j :: h <= j < h + |rows| ==> lines[j] == RenderRow(rows[j - h])) &&
      lines[h + |rows|] == TableEnd
  {
    var rendered := RenderRows(rows);
    var h := |before| + 1 + |headings|;
    assert RenderTable(before, headings, rows, after) == before + [TableStart] + headings + rendered + [TableEnd] + after;
  }

  /** The row each table line of a rendered summary gives. */
  lemma LayoutFound(before: seq<string>, headings: seq<string>, rows: seq<Row>, after: seq<string>)
    requires forall k :: 0 <= k < |rows| ==> CleanRow(rows[k])
    ensures var found, h := Found(RenderTable(before, headings, rows, after)), |before| + 1 + |headings|;
      |found| == h + |rows| + 1 + |after| &&
      forall j :: h <= j < h + |rows| ==> found[j] == Some(rows[j - h])
  {
    var lines := RenderTable(before, headings, rows, after);
    var rendered := RenderRows(rows);
    var h := |before| + 1 + |headings|;
    forall j | h <= j < h + |rows| ensures Found(lines)[j] == Some(rows[j - h]) {
      assert lines[j] == rendered[j - h];
      FoundIndex(lines, j);
      RowOfRendered(rows[j - h], lines[j]);
    }
  }

  /** Parsing a rendered summary gives back exactly the table's rows,
      whatever comes after the end line. */
  lemma TableRoundTrip(before: seq<string>, headings: seq<string>, rows: seq<Row>, after: seq<string>)
    requires forall k :: 0 <= k < |before| ==> !Contains(before[k], TableStart)
    requires forall k :: 0 <= k < |headings| ==> KindOf(headings[k]) == Other
    requires forall k :: 0 <= k < |rows| ==> CleanRow(rows[k])
    ensures TableRows(RenderTable(before, headings, rows, after)) == rows
  {
    TableLayout(before, headings, rows, after);
    TableRowsOfLayout(RenderTable(before, headings, rows, after), |before|, |headings|, rows);
  }

  /** The layout `MachineOfLayout` reads: no start line before `b`, the
      start line at `b`, `nh` other lines, table lines giving `rows`, then
      an end line. */
  ghost predicate LaidOut(kinds: seq<LineKind>, found: seq<Option<Row>>, b: nat, nh: nat, rows: seq<Row>) {
    var h := b + 1 + nh;
    |kinds| == |found| && h + |rows| < |kinds| &&
    (forall j :: 0 <= j < b ==> kinds[j] != Start) &&
    kinds[b] == Start &&
    (forall j :: b + 1 <= j < h ==> kinds[j] == Other) &&
    TableAt(kinds, found, h, rows)
  }

  /** The kinds and rows of a rendered summary's lines, part by part. */
  lemma TableLayout(before: seq<string>, headings: seq<string>, rows: seq<Row>, after: seq<string>)
    requires forall k :: 0 <= k < |before| ==> !Contains(before[k], TableStart)
    requires forall k :: 0 <= k < |headings| ==> KindOf(headings[k]) == Other
    requires forall k :: 0 <= k < |rows| ==> CleanRow(rows[k])
    ensures var lines := RenderTable(before, headings, rows, after);
      LaidOut(Kinds(lines), Found(lines), |before|, |headings|, rows)
  {
    LayoutKinds(before, headings, rows, after);
    LayoutFound(before, headings, rows, after);
  }

  /** `MachineOfLayout` read as a statement about the lines of a summary. */
  lemma TableRowsOfLayout(lines: seq<string>, b: nat, nh: nat, rows: seq<Row>)
    requires LaidOut(Kinds(lines), Found(lines), b, nh, rows)
    ensures TableRows(lines) == rows
  {
    MachineOfLayout(Kinds(lines), Found(lines), b, nh, rows);
  }

  // The confusion tally of `analyze_confusion_matrix`.

  /** One class's counters: correct and total records, and how often each
      prediction was made, with the predictions in first-insertion order
      (the iteration order of the dictionary). */
  datatype Entry = Entry(correct: nat, total: nat, predictedOrder: seq<string>, predictedAs: map<string, nat>)

  const EmptyEntry: Entry := Entry(0, 0, [], map[])

  /** One more record of the class: total always, correct for `CORRECT`,
      and the prediction's counter, created at 0 when new. */
  function Bump(e: Entry, r: Row): Entry {
    var p := r.predicted;
    var started := if p in e.predictedAs then e.predictedAs else e.predictedAs[p := 0];
    Entry(e.correct + (if r.result == "CORRECT" then 1 else 0), e.total + 1,
          if p in e.predictedAs then e.predictedOrder else e.predictedOrder + [p],
          started[p := started[p] + 1])
  }

  /** The counters of a class after its records, in order. */
  function EntryOf(rs: seq<Row>): Entry {
    if |rs| == 0 then EmptyEntry else Bump(EntryOf(rs[..|rs| - 1]), rs[|rs| - 1])
  }

  function Predictions(rs: seq<Row>): (ps: seq<string>)
    ensures |ps| == |rs| && forall k :: 0 <= k < |rs| ==> ps[k] == rs[k].predicted
  {
    if |rs| == 0 then [] else Predictions(rs[..|rs| - 1]) + [rs[|rs| - 1].predicted]
  }

  /** The records marked `CORRECT`. */
  function CorrectRows(rs: seq<Row>): (n: nat)
    ensures n <= |rs|
  {
    if |rs| == 0 then 0 else CorrectRows(rs[..|rs| - 1]) + (if rs[|rs| - 1].result == "CORRECT" then 1 else 0)
  }

  /** The counters say what the records were: the total is their number,
      correct counts the `CORRECT` ones, the prediction keys are the
      distinct predictions by first appearance, and each prediction's
      counter is its number of occurrences. */
  ghost predicate Describes(e: Entry, rs: seq<Row>) {
    e.total == |rs| && e.correct == CorrectRows(rs) && DescribesPredictions(e, Predictions(rs))
  }

  ghost predicate DescribesPredictions(e: Entry, ps: seq<string>) {
    e.predictedOrder == KeepFirst(ps)
    && (forall p :: p in e.predictedAs <==> p in e.predictedOrder)
    && (forall p :: p in e.predictedAs ==> e.predictedAs[p] == Count(ps, p))
  }

  /** One more record keeps the description. */
  lemma BumpStep(rs: seq<Row>)
    requires |rs| > 0 && Describes(EntryOf(rs[..|rs| - 1]), rs[..|rs| - 1])
    ensures Describes(EntryOf(rs), rs)
  {
    TallyLast(rs);
    PredictionsLast(rs);
  }

  lemma TallyLast(rs: seq<Row>)
    requires |rs| > 0
    requires EntryOf(rs[..|rs| - 1]).total == |rs| - 1
    requires EntryOf(rs[..|rs| - 1]).correct == CorrectRows(rs[..|rs| - 1])
    ensures EntryOf(rs).total == |rs| && EntryOf(rs).correct == CorrectRows(rs)
  {
    LastRow(rs);
  }

  lemma PredictionsLast(rs: seq<Row>)
    requires |rs| > 0 && DescribesPredictions(EntryOf(rs[..|rs| - 1]), Predictions(rs[..|rs| - 1]))
    ensures DescribesPredictions(EntryOf(rs), Predictions(rs))
  {
    var init, r := rs[..|rs| - 1], rs[|rs| - 1];
    LastRow(rs);
    BumpPredictionsStep(Predictions(init), r, EntryOf(init), Predictions(rs), EntryOf(rs));
  }

  /** The counters and the tallies of the records, unfolded at the last one. */
  lemma LastRow(rs: seq<Row>)
    requires |rs| > 0
    ensures var init, r := rs[..|rs| - 1], rs[|rs| - 1];
      EntryOf(rs) == Bump(EntryOf(init), r) &&
      Predictions(rs) == Predictions(init) + [r.predicted] &&
      CorrectRows(rs) == CorrectRows(init) + (if r.result == "CORRECT" then 1 else 0)
  {
  }

  lemma BumpPredictionsStep(ps: seq<string>, r: Row, e: Entry, ps': seq<string>, e': Entry)
    requires DescribesPredictions(e, ps) && ps' == ps + [r.predicted] && e' == Bump(e, r)
    ensures DescribesPredictions(e', ps')
  {
    BumpOrderStep(ps, r, e);
    BumpCountersStep(ps, r, e);
  }

  lemma BumpOrderStep(ps: seq<string>, r: Row, e: Entry)
    requires DescribesPredictions(e, ps)
    ensures Bump(e, r).predictedOrder == KeepFirst(ps + [r.predicted])
    ensures forall p :: p in Bump(e, r).predictedAs <==> p in Bump(e, r).predictedOrder
  {
    KeepFirstSnoc(ps, r.predicted);
  }

  lemma BumpCountersStep(ps: seq<string>, r: Row, e: Entry)
    requires DescribesPredictions(e, ps)
    ensures var m := Bump(e, r).predictedAs;
      forall p :: p in m ==> m[p] == Count(ps + [r.predicted], p)
  {
    var m := Bump(e, r).predictedAs;
    forall p | p in m ensures m[p] == Count(ps + [r.predicted], p) {
      CountSnoc(ps, r.predicted, p);
      if p != r.predicted {
        assert p in e.predictedAs;
      } else if p !in e.predictedAs {
        assert p !in KeepFirst(ps);
        assert p !in ps;
      }
    }
  }

  lemma CorrectRowsSnoc(rs: seq<Row>, r: Row)
    ensures CorrectRows(rs + [r]) == CorrectRows(rs) + (if r.result == "CORRECT" then 1 else 0)
  {
    assert (rs + [r])[..|rs|] == rs;
  }

  lemma {:induction false} EntryOfDescribes(rs: seq<Row>)
    ensures Describes(EntryOf(rs), rs)
  {
    if |rs| > 0 {
      EntryOfDescribes(rs[..|rs| - 1]);
      BumpStep(rs);
    }
  }

  /** The counters of the predictions, added up in key order. */
  function SumCounts(keys: seq<string>, m: map<string, nat>): nat
    requires forall k :: 0 <= k < |keys| ==> keys[k] in m
  {
    if |keys| == 0 then 0 else SumCounts(keys[..|keys| - 1], m) + m[keys[|keys| - 1]]
  }

  lemma {:induction false} SumCountsIsCounts(keys: seq<string>, m: map<string, nat>, ps: seq<string>)
    requires forall k :: 0 <= k < |keys| ==> keys[k] in m && m[keys[k]] == Count(ps, keys[k])
    ensures SumCounts(keys, m) == CountsOf(keys, ps)
  {
    if |keys| > 0 {
      SumCountsIsCounts(keys[..|keys| - 1], m, ps);
    }
  }

  /** Every record of a class is counted under exactly one prediction: the
      prediction counters add up to the class total, and none is zero. */
  lemma PredictionsAddUp(rs: seq<Row>)
    ensures forall k :: 0 <= k < |EntryOf(rs).predictedOrder| ==> EntryOf(rs).predictedOrder[k] in EntryOf(rs).predictedAs
    ensures SumCounts(EntryOf(rs).predictedOrder, EntryOf(rs).predictedAs) == EntryOf(rs).total
    ensures forall p :: p in EntryOf(rs).predictedAs ==> EntryOf(rs).predictedAs[p] > 0
    ensures EntryOf(rs).correct <= EntryOf(rs).total
  {
    var e := EntryOf(rs);
    EntryOfDescribes(rs);
    assert DescribesPredictions(e, Predictions(rs));
    SumCountsIsCounts(e.predictedOrder, e.predictedAs, Predictions(rs));
    CountsOfKeepFirst(Predictions(rs));
  }

  /** The 15 classes, each with no record yet. */
  function InitialConfusion(): map<string, Entry> {
    map d | d in DiseaseNames :: EmptyEntry
  }

  /** One record: ignored unless its expected name is one of the classes. */
  function Tally(c: map<string, Entry>, r: Row): map<string, Entry> {
    if r.expected in c then c[r.expected := Bump(c[r.expected], r)] else c
  }

  /** The confusion tally after the records, in order. */
  function ConfusionOf(rows: seq<Row>): map<string, Entry> {
    if |rows| == 0 then InitialConfusion() else Tally(ConfusionOf(rows[..|rows| - 1]), rows[|rows| - 1])
  }

  /** The records whose expected name is `d`, in order. */
  function RowsFor(rows: seq<Row>, d: string): (rs: seq<Row>)
    ensures |rs| <= |rows|
    ensures forall k :: 0 <= k < |rs| ==> rs[k].expected == d
  {
    if |rows| == 0 then []
    else RowsFor(rows[..|rows| - 1], d) + (if rows[|rows| - 1].expected == d then [rows[|rows| - 1]] else [])
  }

  /** The tally has a class for each of the 15 names and nothing else, and
      each class holds the counters of exactly its own records; records of
      any other name leave no trace. */
  lemma {:induction false} ConfusionOfIsPerClass(rows: seq<Row>)
    ensures forall d :: d in ConfusionOf(rows) <==> d in DiseaseNames
    ensures forall d :: d in DiseaseNames ==> ConfusionOf(rows)[d] == EntryOf(RowsFor(rows, d))
  {
    if |rows| > 0 {
      var init, r := rows[..|rows| - 1], rows[|rows| - 1];
      ConfusionOfIsPerClass(init);
      forall d | d in DiseaseNames ensures ConfusionOf(rows)[d] == EntryOf(RowsFor(rows, d)) {
        TallyClassStep(init, r, d);
      }
    }
  }

  lemma TallyClassStep(init: seq<Row>, r: Row, d: string)
    requires d in ConfusionOf(init) && ConfusionOf(init)[d] == EntryOf(RowsFor(init, d))
    ensures var rows := init + [r];
      d in ConfusionOf(rows) && ConfusionOf(rows)[d] == EntryOf(RowsFor(rows, d))
  {
    var rows := init + [r];
    assert rows[..|init|] == init;
    var rs := RowsFor(init, d);
    if r.expected == d {
      assert RowsFor(rows, d) == rs + [r];
      assert (rs + [r])[..|rs|] == rs;
    } else {
      assert RowsFor(rows, d) == rs;
    }
  }

  /** The loop of `analyze_confusion_matrix` over the parsed rows. */
  method AnalyzeConfusion(rows: seq<Row>) returns (confusion: map<string, Entry>)
    ensures confusion == ConfusionOf(rows)
  {
    confusion := map d | d in DiseaseNames :: EmptyEntry;
    var i := 0;
    while i < |rows|
      invariant 0 <= i <= |rows|
      invariant confusion == ConfusionOf(rows[..i])
    {
      var r := rows[i];
      assert rows[..i + 1][..i] == rows[..i];
      if r.expected in confusion {
        var e := confusion[r.expected];
        e := e.(total := e.total + 1);
        if r.result == "CORRECT" {
          e := e.(correct := e.correct + 1);
        }
        if r.predicted !in e.predictedAs {
          e := e.(predictedOrder := e.predictedOrder + [r.predicted], predictedAs := e.predictedAs[r.predicted := 0]);
        }
        e := e.(predictedAs := e.predictedAs[r.predicted := e.predictedAs[r.predicted] + 1]);
        confusion := confusion[r.expected := e];
      }
      i := i + 1;
    }
    assert rows[..i] == rows;
  }

  // The main misclassification of a class.

  /** A prediction the report may name for class `d`: another class, seen. */
  predicate Misclass(m: map<string, nat>, d: string, p: string) {
    p != d && p in m && m[p] > 0
  }

  /** As written: the first key, in insertion order, that may be named;
      `|order|` when there is none. */
  function FirstOtherIndex(order: seq<string>, m: map<string, nat>, d: string): (i: nat)
    ensures i <= |order|
    ensures forall k :: 0 <= k < i ==> !Misclass(m, d, order[k])
    ensures i < |order| ==> Misclass(m, d, order[i])
    decreases |order|
  {
    if |order| == 0 then 0
    else if Misclass(m, d, order[0]) then 0
    else 1 + FirstOtherIndex(order[1..], m, d)
  }

  /** The main misclassification as the report computes it: nothing unless
      the class has at least two prediction keys, then the first key that
      may be named, with its counter. */
  function MainMisclassAsWritten(d: string, e: Entry): Option<(string, nat)>
  {
    if |e.predictedAs| > 1 then
      var i := FirstOtherIndex(e.predictedOrder, e.predictedAs, d);
      if i < |e.predictedOrder| then Some((e.predictedOrder[i], e.predictedAs[e.predictedOrder[i]])) else None
    else None
  }

  /** The loop of the report over `predicted_as`, stopping at the first key
      that may be named. */
  method FindMainMisclassAsWritten(d: string, e: Entry) returns (main: Option<(string, nat)>)
    ensures main == MainMisclassAsWritten(d, e)
  {
    main := None;
    if |e.predictedAs| > 1 {
      var order, m := e.predictedOrder, e.predictedAs;
      var i := 0;
      while i < |order|
        invariant 0 <= i <= |order|
        invariant forall k :: 0 <= k < i ==> !Misclass(m, d, order[k])
      {
        if order[i] != d && order[i] in m && m[order[i]] > 0 {
          main := Some((order[i], m[order[i]]));
          return;
        }
        i := i + 1;
      }
    }
  }

  /** Corrected: the most frequent key that may be named, the first in
      insertion order among equals; `|order|` when there is none. */
  function MostFrequentOtherIndex(order: seq<string>, m: map<string, nat>, d: string): (i: nat)
    ensures i <= |order|
    ensures i == |order| <==> forall k :: 0 <= k < |order| ==> !Misclass(m, d, order[k])
    ensures i < |order| ==> Misclass(m, d, order[i])
    ensures i < |order| ==> forall k :: 0 <= k < |order| && Misclass(m, d, order[k]) ==> m[order[k]] <= m[order[i]]
    ensures i < |order| ==> forall k :: 0 <= k < i && Misclass(m, d, order[k]) ==> m[order[k]] < m[order[i]]
  {
    if |order| == 0 then 0
    else
      var init := order[..|order| - 1];
      var best := MostFrequentOtherIndex(init, m, d);
      var last := |order| - 1;
      if Misclass(m, d, order[last]) && (best == |init| || m[order[last]] > m[order[best]]) then last
      else if best == |init| then |order|
      else best
  }

  /** The main misclassification of class `d`: the most frequent other
      prediction with its counter, or nothing when every record of the
      class was predicted as the class itself. */
  function MainMisclass(d: string, e: Entry): Option<(string, nat)>
  {
    var i := MostFrequentOtherIndex(e.predictedOrder, e.predictedAs, d);
    if i < |e.predictedOrder| then Some((e.predictedOrder[i], e.predictedAs[e.predictedOrder[i]])) else None
  }

  /** For a tallied class, the main misclassification names a prediction
      made for it other than itself, made at least as often as any other
      such prediction; it is missing exactly when every record of the class
      was predicted as the class. */
  lemma MainMisclassIsMostFrequent(rs: seq<Row>, d: string)
    ensures var main, ps := MainMisclass(d, EntryOf(rs)), Predictions(rs);
      (main.None? <==> forall k :: 0 <= k < |ps| ==> ps[k] == d) &&
      (main.Some? ==> main.value.0 != d && main.value.1 == Count(ps, main.value.0) > 0) &&
      (main.Some? ==> forall k :: 0 <= k < |ps| && ps[k] != d ==> Count(ps, ps[k]) <= main.value.1)
  {
    EntryOfDescribes(rs);
    var e, ps := EntryOf(rs), Predictions(rs);
    assert DescribesPredictions(e, ps);
    NoMisclassIff(e, ps, d);
    MostFrequentBound(e, ps, d);
  }

  /** With counters that describe the predictions, no key may be named
      exactly when every prediction is the class itself. */
  lemma NoneMayBeNamed(e: Entry, ps: seq<string>, d: string)
    requires DescribesPredictions(e, ps)
    ensures (forall k :: 0 <= k < |e.predictedOrder| ==> !Misclass(e.predictedAs, d, e.predictedOrder[k]))
      <==> forall k :: 0 <= k < |ps| ==> ps[k] == d
  {
    var order, m := e.predictedOrder, e.predictedAs;
    if forall k :: 0 <= k < |order| ==> !Misclass(m, d, order[k]) {
      forall k | 0 <= k < |ps| ensures ps[k] == d {
        assert ps[k] in order;
        var j := FirstIndex(order, ps[k]);
        assert !Misclass(m, d, order[j]);
      }
    } else {
      var j :| 0 <= j < |order| && Misclass(m, d, order[j]);
      assert order[j] in ps;
    }
  }

  /** The corrected rule names nothing exactly when every prediction is the
      class itself. */
  lemma NoMisclassIff(e: Entry, ps: seq<string>, d: string)
    requires DescribesPredictions(e, ps)
    ensures MostFrequentOtherIndex(e.predictedOrder, e.predictedAs, d) == |e.predictedOrder|
      <==> forall k :: 0 <= k < |ps| ==> ps[k] == d
  {
    NoneMayBeNamed(e, ps, d);
  }

  /** With counters that describe the predictions, a named key is another
      prediction, with its number of occurrences, made at least as often as
      any other prediction that is not the class. */
  lemma MostFrequentBound(e: Entry, ps: seq<string>, d: string)
    requires DescribesPredictions(e, ps)
    ensures var order, m := e.predictedOrder, e.predictedAs;
      var i := MostFrequentOtherIndex(order, m, d);
      i < |order| ==> (order[i] != d && m[order[i]] == Count(ps, order[i]) > 0
        && forall k :: 0 <= k < |ps| && ps[k] != d ==> Count(ps, ps[k]) <= m[order[i]])
  {
    var order, m := e.predictedOrder, e.predictedAs;
    var i := MostFrequentOtherIndex(order, m, d);
    if i < |order| {
      assert order[i] in ps;
      forall k | 0 <= k < |ps| && ps[k] != d ensures Count(ps, ps[k]) <= m[order[i]] {
        assert ps[k] in order;
        var j := FirstIndex(order, ps[k]);
        assert Misclass(m, d, order[j]);
      }
    }
  }

  /** For a tallied class, the report as written names the first prediction
      made for the class, in record order, that is not the class itself,
      with its number of occurrences; it names nothing exactly when the
      records saw at most one distinct prediction or every record was
      predicted as the class. */
  lemma MainMisclassAsWrittenIsFirst(rs: seq<Row>, d: string)
    ensures var main, ps := MainMisclassAsWritten(d, EntryOf(rs)), Predictions(rs);
      (main.None? <==> |KeepFirst(ps)| <= 1 || forall k :: 0 <= k < |ps| ==> ps[k] == d) &&
      (main.Some? ==> (main.value.0 != d && main.value.1 == Count(ps, main.value.0) > 0
        && forall k :: 0 <= k < FirstIndex(ps, main.value.0) ==> ps[k] == d))
  {
    EntryOfDescribes(rs);
    AsWrittenDescribed(EntryOf(rs), Predictions(rs), d);
  }

  /** The rule as written, over counters that describe the predictions. */
  lemma AsWrittenDescribed(e: Entry, ps: seq<string>, d: string)
    requires DescribesPredictions(e, ps)
    ensures var main := MainMisclassAsWritten(d, e);
      (main.None? <==> |KeepFirst(ps)| <= 1 || forall k :: 0 <= k < |ps| ==> ps[k] == d) &&
      (main.Some? ==> (main.value.0 != d && main.value.1 == Count(ps, main.value.0) > 0
        && forall k :: 0 <= k < FirstIndex(ps, main.value.0) ==> ps[k] == d))
  {
    KeysAreDistinctPredictions(e, ps);
    NoneMayBeNamed(e, ps, d);
    FirstOtherIsFirst(e, ps, d);
  }

  /** The keys of counters that describe the predictions are the distinct
      predictions. */
  lemma KeysAreDistinctPredictions(e: Entry, ps: seq<string>)
    requires DescribesPredictions(e, ps)
    ensures |e.predictedAs| == |KeepFirst(ps)|
  {
    assert e.predictedAs.Keys == set x | x in e.predictedOrder;
    DistinctElements(e.predictedOrder);
  }

  /** With counters that describe the predictions, the first key that may be
      named is the first other prediction in record order. */
  lemma FirstOtherIsFirst(e: Entry, ps: seq<string>, d: string)
    requires DescribesPredictions(e, ps)
    ensures var order, m := e.predictedOrder, e.predictedAs;
      var i := FirstOtherIndex(order, m, d);
      i < |order| ==> (order[i] != d && m[order[i]] == Count(ps, order[i]) > 0
        && order[i] in ps && forall k :: 0 <= k < FirstIndex(ps, order[i]) ==> ps[k] == d)
  {
    var order, m := e.predictedOrder, e.predictedAs;
    var i := FirstOtherIndex(order, m, d);
    if i < |order| {
      var p := order[i];
      assert p in ps;
      var j := FirstIndex(ps, p);
      forall k | 0 <= k < j ensures ps[k] == d {
        assert ps[k] in order;
        var q := FirstIndex(order, ps[k]);
        FirstIndexAtMost(ps, k);
        KeptInOrder(ps, q, i);
        assert !Misclass(m, d, order[q]);
      }
    }
  }

  /** Three Nodule records all predicted as Mass. */
  const AlwaysMass: seq<Row> := [
    Row("Nodule", "Mass", "INCORRECT", 0, 0), Row("Nodule", "Mass", "INCORRECT", 0, 0),
    Row("Nodule", "Mass", "INCORRECT", 0, 0)]

  /** A class always mistaken for the same other class has one prediction
      key, so the report as written names no misclassification at all. */
  lemma SingleKeyHidesMisclass()
    ensures MainMisclassAsWritten("Nodule", EntryOf(AlwaysMass)) == None
    ensures MainMisclass("Nodule", EntryOf(AlwaysMass)) == Some(("Mass", 3))
  {
    var e3 := AlwaysMassEntry();
    assert |e3.predictedAs| == 1 by { assert e3.predictedAs.Keys == {"Mass"}; }
    AlwaysMassIndex(e3.predictedOrder, e3.predictedAs);
  }

  /** The counters of `AlwaysMass`: Mass three times. */
  lemma AlwaysMassEntry() returns (e3: Entry)
    ensures e3 == EntryOf(AlwaysMass)
    ensures e3 == Entry(0, 3, ["Mass"], map["Mass" := 3])
  {
    var e1 := Entry(0, 1, ["Mass"], map["Mass" := 1]);
    var e2 := Entry(0, 2, ["Mass"], map["Mass" := 2]);
    e3 := Entry(0, 3, ["Mass"], map["Mass" := 3]);
    assert EntryOf(AlwaysMass[..1]) == e1 by { assert AlwaysMass[..1][..0] == []; }
    assert EntryOf(AlwaysMass[..2]) == e2 by { assert AlwaysMass[..2][..1] == AlwaysMass[..1]; }
    assert EntryOf(AlwaysMass) == e3 by { assert AlwaysMass[..2] == AlwaysMass[..|AlwaysMass| - 1]; }
  }

  /** Mass, the only key, is the most frequent other prediction. */
  lemma AlwaysMassIndex(order: seq<string>, m: map<string, nat>)
    requires order == ["Mass"] && m == map["Mass" := 3]
    ensures MostFrequentOtherIndex(order, m, "Nodule") == 0
  {
    assert Misclass(m, "Nodule", order[0]);
    assert order[..0] == [];
  }

  /** A Nodule record predicted as Mass, then two predicted as Edema. */
  const MostlyEdema: seq<Row> := [
    Row("Nodule", "Mass", "INCORRECT", 0, 0), Row("Nodule", "Edema", "INCORRECT", 0, 0),
    Row("Nodule", "Edema", "INCORRECT", 0, 0)]

  /** The counters of `MostlyEdema`: Mass once, then Edema twice. */
  lemma MostlyEdemaEntry() returns (e3: Entry)
    ensures e3 == EntryOf(MostlyEdema)
    ensures e3 == Entry(0, 3, ["Mass", "Edema"], map["Mass" := 1, "Edema" := 2])
  {
    var e1 := Entry(0, 1, ["Mass"], map["Mass" := 1]);
    var e2 := Entry(0, 2, ["Mass", "Edema"], map["Mass" := 1, "Edema" := 1]);
    e3 := Entry(0, 3, ["Mass", "Edema"], map["Mass" := 1, "Edema" := 2]);
    assert EntryOf(MostlyEdema[..1]) == e1 by { assert MostlyEdema[..1][..0] == []; }
    assert EntryOf(MostlyEdema[..2]) == e2 by { assert MostlyEdema[..2][..1] == MostlyEdema[..1]; }
    assert EntryOf(MostlyEdema) == e3 by { assert MostlyEdema[..2] == MostlyEdema[..|MostlyEdema| - 1]; }
  }

  /** The report as written names the first other prediction, not the most
      common one. */
  lemma FirstKeyIsNotMostCommon()
    ensures MainMisclassAsWritten("Nodule", EntryOf(MostlyEdema)) == Some(("Mass", 1))
    ensures MainMisclass("Nodule", EntryOf(MostlyEdema)) == Some(("Edema", 2))
  {
    var e3 := MostlyEdemaEntry();
    assert |e3.predictedAs| == 2 by { assert e3.predictedAs.Keys == {"Mass", "Edema"}; }
    MostlyEdemaIndices(e3.predictedOrder, e3.predictedAs);
  }

  /** Mass comes first among the keys, Edema has the larger counter. */
  lemma MostlyEdemaIndices(order: seq<string>, m: map<string, nat>)
    requires order == ["Mass", "Edema"] && m == map["Mass" := 1, "Edema" := 2]
    ensures FirstOtherIndex(order, m, "Nodule") == 0
    ensures MostFrequentOtherIndex(order, m, "Nodule") == 1
  {
    assert Misclass(m, "Nodule", order[0]);
    assert MostFrequentOtherIndex(order[..1], m, "Nodule") == 0 by {
      assert order[..1][..0] == [];
    }
    assert order[..1] == order[..|order| - 1];
  }

  // The per-class report of `analyze_confusion_matrix`.

  /** One report line: class, accuracy in percent, correct, total and the
      main misclassification. */
  datatype ClassLine = ClassLine(disease: string, accuracy: real, correct: nat, total: nat, mainMisclass: Option<(string, nat)>)

  /** The line of class `d`: its main misclassification follows the rule as
      written. */
  function LineFor(d: string, e: Entry): ClassLine
  {
    ClassLine(d, Emergency.AccuracyPercent(e.correct, e.total), e.correct, e.total, MainMisclassAsWritten(d, e))
  }

  /** The lines for the classes `names` that have records, in that order,
      each computed from the class's own records. */
  function ClassLinesOf(rows: seq<Row>, names: seq<string>): seq<ClassLine> {
    if |names| == 0 then []
    else
      var d := names[|names| - 1];
      var rs := RowsFor(rows, d);
      ClassLinesOf(rows, names[..|names| - 1]) + (if |rs| > 0 then [LineFor(d, EntryOf(rs))] else [])
  }

  /** One more class keeps the earlier lines and adds its own when it has
      records. */
  lemma ClassLinesGrow(rows: seq<Row>, names: seq<string>)
    requires |names| > 0
    ensures var pre, lines := ClassLinesOf(rows, names[..|names| - 1]), ClassLinesOf(rows, names);
      var d := names[|names| - 1];
      |pre| <= |lines| && (forall k :: 0 <= k < |pre| ==> lines[k] == pre[k])
      && (|RowsFor(rows, d)| > 0 ==> |pre| < |lines| && lines[|pre|].disease == d)
  {
  }

  lemma ClassLinesSnoc(rows: seq<Row>, names: seq<string>, d: string)
    ensures var rs := RowsFor(rows, d);
      ClassLinesOf(rows, names + [d]) == ClassLinesOf(rows, names) + (if |rs| > 0 then [LineFor(d, EntryOf(rs))] else [])
  {
    assert (names + [d])[..|names|] == names;
  }

  /** The counters of a class's records: their number and the correct ones. */
  lemma EntryOfCounts(rs: seq<Row>)
    ensures EntryOf(rs).total == |rs| && EntryOf(rs).correct == CorrectRows(rs)
  {
    EntryOfDescribes(rs);
  }

  /** What a report line says about its class: the class has records, the
      line's totals are the class's, the accuracy is within [0, 100], and
      the main misclassification is the rule as written over the class's
      records. */
  ghost predicate LineAbout(rows: seq<Row>, l: ClassLine) {
    l.total == |RowsFor(rows, l.disease)| > 0 && l.correct == CorrectRows(RowsFor(rows, l.disease))
    && 0.0 <= l.accuracy <= 100.0
    && l.mainMisclass == MainMisclassAsWritten(l.disease, EntryOf(RowsFor(rows, l.disease)))
  }

  lemma LineForAbout(rows: seq<Row>, d: string)
    requires |RowsFor(rows, d)| > 0
    ensures LineAbout(rows, LineFor(d, EntryOf(RowsFor(rows, d))))
  {
    var rs := RowsFor(rows, d);
    EntryOfCounts(rs);
    Emergency.AccuracyRange(EntryOf(rs).correct, EntryOf(rs).total);
  }

  /** Each line is about a class of `names` that has records. */
  lemma {:induction false} ClassLinesAbout(rows: seq<Row>, names: seq<string>)
    ensures forall k :: 0 <= k < |ClassLinesOf(rows, names)| ==>
      ClassLinesOf(rows, names)[k].disease in names && LineAbout(rows, ClassLinesOf(rows, names)[k])
  {
    if |names| > 0 {
      var init, d := names[..|names| - 1], names[|names| - 1];
      ClassLinesAbout(rows, init);
      assert names == init + [d];
      ClassLinesSnoc(rows, init, d);
      if |RowsFor(rows, d)| > 0 {
        LineForAbout(rows, d);
      }
    }
  }

  /** Every class of `names` with records has a line. */
  lemma {:induction false} ClassLinesCover(rows: seq<Row>, names: seq<string>)
    ensures forall d :: d in names && |RowsFor(rows, d)| > 0 ==>
      exists k :: 0 <= k < |ClassLinesOf(rows, names)| && ClassLinesOf(rows, names)[k].disease == d
  {
    if |names| > 0 {
      var init, d := names[..|names| - 1], names[|names| - 1];
      ClassLinesCover(rows, init);
      ClassLinesGrow(rows, names);
      var lines := ClassLinesOf(rows, names);
      var pre := ClassLinesOf(rows, init);
      forall x | x in names && |RowsFor(rows, x)| > 0
        ensures exists k :: 0 <= k < |lines| && lines[k].disease == x
      {
        InInitOrLast(names, x);
        if x in init {
          var k :| 0 <= k < |pre| && pre[k].disease == x;
          assert lines[k] == pre[k] && lines[k].disease == x;
        } else {
          assert lines[|pre|].disease == x;
        }
      }
    }
  }

  /** Each line is about a class of `names`, and the classes come in the
      order of `names`. */
  ghost predicate LinesInOrder(lines: seq<ClassLine>, names: seq<string>) {
    forall k, l :: 0 <= k < l < |lines| ==>
      lines[k].disease in names && lines[l].disease in names &&
      FirstIndex(names, lines[k].disease) < FirstIndex(names, lines[l].disease)
  }

  /** The lines follow the order of `names`, taken without duplicates. */
  lemma {:induction false} ClassLinesOrdered(rows: seq<Row>, names: seq<string>)
    requires NoDuplicates(names)
    ensures LinesInOrder(ClassLinesOf(rows, names), names)
  {
    if |names| > 0 {
      var init, d := names[..|names| - 1], names[|names| - 1];
      assert NoDuplicates(init);
      ClassLinesOrdered(rows, init);
      assert names == init + [d];
      InOrderStep(rows, init, d);
    }
  }

  /** A class appended to the names keeps the lines in order. */
  lemma InOrderStep(rows: seq<Row>, init: seq<string>, d: string)
    requires NoDuplicates(init + [d])
    requires LinesInOrder(ClassLinesOf(rows, init), init)
    ensures LinesInOrder(ClassLinesOf(rows, init + [d]), init + [d])
  {
    var rs := RowsFor(rows, d);
    ClassLinesAbout(rows, init);
    ClassLinesSnoc(rows, init, d);
    NotInPrefix(init, d);
    OrderAppend(ClassLinesOf(rows, init), if |rs| > 0 then [LineFor(d, EntryOf(rs))] else [], init, d);
  }

  lemma NotInPrefix(init: seq<string>, d: string)
    requires NoDuplicates(init + [d])
    ensures d !in init
  {
    var names := init + [d];
    forall i | 0 <= i < |init| ensures init[i] != d {
      assert names[i] == init[i] && names[|init|] == d;
    }
  }

  /** Lines in the order of `init`, then at most one line about a new class
      `d`, are in the order of `init + [d]`. */
  lemma OrderAppend(pre: seq<ClassLine>, tail: seq<ClassLine>, init: seq<string>, d: string)
    requires d !in init && LinesInOrder(pre, init)
    requires forall k :: 0 <= k < |pre| ==> pre[k].disease in init
    requires |tail| <= 1 && (|tail| == 1 ==> tail[0].disease == d)
    ensures LinesInOrder(pre + tail, init + [d])
  {
    var names, lines := init + [d], pre + tail;
    FirstIndexSnoc(init, d);
    forall k, l | 0 <= k < l < |lines|
      ensures lines[k].disease in names && lines[l].disease in names &&
        FirstIndex(names, lines[k].disease) < FirstIndex(names, lines[l].disease)
    {
      assert lines[k] == pre[k] && pre[k].disease in init;
      if l < |pre| {
        assert lines[l] == pre[l] && pre[l].disease in init;
      } else {
        assert lines[l] == tail[0];
      }
    }
  }

  /** Appending a new element keeps the first indices of the old ones and
      puts the new one last. */
  lemma FirstIndexSnoc(init: seq<string>, d: string)
    requires d !in init
    ensures d in init + [d] && FirstIndex(init + [d], d) == |init|
    ensures forall x :: x in init ==> x in init + [d] && FirstIndex(init + [d], x) == FirstIndex(init, x) < |init|
  {
    forall x | x in init ensures x in init + [d] && FirstIndex(init + [d], x) == FirstIndex(init, x) {
      FirstIndexPrefix(init, d, x);
    }
    var j := FirstIndex(init + [d], d);
    assert (init + [d])[j] == d;
  }

  /** `analyze_confusion_matrix`: the tally, then one line per class with
      records, in the order of the 15 names. */
  method ConfusionReport(rows: seq<Row>) returns (lines: seq<ClassLine>)
    ensures lines == ClassLinesOf(rows, DiseaseNames)
  {
    var confusion := AnalyzeConfusion(rows);
    ConfusionOfIsPerClass(rows);
    lines := ReportLines(rows, DiseaseNames, confusion);
  }

  /** The report loop over the class names, reading each class's counters
      from the tally. */
  method ReportLines(rows: seq<Row>, names: seq<string>, confusion: map<string, Entry>) returns (lines: seq<ClassLine>)
    requires forall d :: d in names ==> d in confusion && confusion[d] == EntryOf(RowsFor(rows, d))
    ensures lines == ClassLinesOf(rows, names)
  {
    lines := [];
    var i := 0;
    while i < |names|
      invariant 0 <= i <= |names|
      invariant lines == ClassLinesOf(rows, names[..i])
    {
      var d := names[i];
      ReportStep(rows, names, i, confusion);
      if d in confusion && confusion[d].total > 0 {
        lines := lines + [LineFor(d, confusion[d])];
      }
      i := i + 1;
    }
    assert names[..i] == names;
  }

  /** One turn of the report loop: class `names[i]` adds its line exactly
      when its tallied total is positive. */
  lemma ReportStep(rows: seq<Row>, names: seq<string>, i: nat, confusion: map<string, Entry>)
    requires i < |names|
    requires forall d :: d in names ==> d in confusion && confusion[d] == EntryOf(RowsFor(rows, d))
    ensures names[i] in confusion
    ensures ClassLinesOf(rows, names[..i + 1]) == ClassLinesOf(rows, names[..i])
      + (if confusion[names[i]].total > 0 then [LineFor(names[i], confusion[names[i]])] else [])
  {
    var d := names[i];
    assert d in names;
    var rs := RowsFor(rows, d);
    EntryOfCounts(rs);
    assert names[..i + 1] == names[..i] + [d];
    ClassLinesSnoc(rows, names[..i], d);
  }

  // `analyze_performance_metrics` and `generate_recommendations`.

  datatype Rating = Excellent | Good | Fair | Poor | VeryPoor

  /** The rating of the overall accuracy in percent. */
  function PerformanceRating(accuracy: real): Rating {
    if accuracy >= 90.0 then Excellent
    else if accuracy >= 80.0 then Good
    else if accuracy >= 70.0 then Fair
    else if accuracy >= 60.0 then Poor
    else VeryPoor
  }

  function RatingRank(r: Rating): nat {
    match r
    case VeryPoor => 0
    case Poor => 1
    case Fair => 2
    case Good => 3
    case Excellent => 4
  }

  const RatingThresholds: seq<real> := [60.0, 70.0, 80.0, 90.0]

  /** The rating is the number of the thresholds 60, 70, 80 and 90 the
      accuracy reaches: every accuracy gets exactly one rating. */
  lemma RatingByThresholds(accuracy: real)
    ensures RatingRank(PerformanceRating(accuracy)) == Reached(RatingThresholds, accuracy)
  {
    ReachedSnoc([], 60.0, accuracy);
    assert [] + [60.0] == [60.0];
    ReachedSnoc([60.0], 70.0, accuracy);
    assert [60.0] + [70.0] == [60.0, 70.0];
    ReachedSnoc([60.0, 70.0], 80.0, accuracy);
    assert [60.0, 70.0] + [80.0] == [60.0, 70.0, 80.0];
    ReachedSnoc([60.0, 70.0, 80.0], 90.0, accuracy);
    assert [60.0, 70.0, 80.0] + [90.0] == RatingThresholds;
  }

  /** A higher accuracy never gets a lower rating. */
  lemma RatingMonotone(a: real, b: real)
    requires a <= b
    ensures RatingRank(PerformanceRating(a)) <= RatingRank(PerformanceRating(b))
  {
    RatingByThresholds(a);
    RatingByThresholds(b);
    ReachedMonotone(RatingThresholds, a, b);
  }

  /** The model verdict of the recommendations. */
  datatype Advice = ExcellentModel | GoodModel | NeedsImprovement | PoorModel

  function AdviceRank(v: Advice): nat {
    match v
    case PoorModel => 0
    case NeedsImprovement => 1
    case GoodModel => 2
    case ExcellentModel => 3
  }

  /** The recommendations: the model verdict, and whether the cycle count
      calls for optimisation. */
  datatype Recommendations = Recommendations(advice: Advice, optimizeCycles: bool)

  const CycleLimit: nat := 1000000

  function Recommend(accuracy: real, avgCycles: nat): Recommendations {
    var advice :=
      if accuracy >= 85.0 then ExcellentModel
      else if accuracy >= 75.0 then GoodModel
      else if accuracy >= 65.0 then NeedsImprovement
      else PoorModel;
    Recommendations(advice, avgCycles > CycleLimit)
  }

  const AdviceThresholds: seq<real> := [65.0, 75.0, 85.0]

  /** The verdict is the number of the thresholds 65, 75 and 85 the
      accuracy reaches, and the cycle warning is independent of it. */
  lemma AdviceByThresholds(accuracy: real, avgCycles: nat)
    ensures AdviceRank(Recommend(accuracy, avgCycles).advice) == Reached(AdviceThresholds, accuracy)
    ensures Recommend(accuracy, avgCycles).optimizeCycles <==> avgCycles > CycleLimit
    ensures forall c: nat :: Recommend(accuracy, c).advice == Recommend(accuracy, avgCycles).advice
  {
    ReachedSnoc([], 65.0, accuracy);
    assert [] + [65.0] == [65.0];
    ReachedSnoc([65.0], 75.0, accuracy);
    assert [65.0] + [75.0] == [65.0, 75.0];
    ReachedSnoc([65.0, 75.0], 85.0, accuracy);
    assert [65.0, 75.0] + [85.0] == AdviceThresholds;
  }

  /** A higher accuracy never gets a worse verdict. */
  lemma AdviceMonotone(a: real, b: real, cycles: nat)
    requires a <= b
    ensures AdviceRank(Recommend(a, cycles).advice) <= AdviceRank(Recommend(b, cycles).advice)
  {
    AdviceByThresholds(a, cycles);
    AdviceByThresholds(b, cycles);
    ReachedMonotone(AdviceThresholds, a, b);
  }

  /** The two scales agree in direction: a good or excellent rating comes
      with a good or excellent verdict, a very poor rating with a poor
      verdict, and a poor verdict with a poor or very poor rating. */
  lemma RatingAndAdviceAgree(accuracy: real, cycles: nat)
    ensures RatingRank(PerformanceRating(accuracy)) >= 3 ==> AdviceRank(Recommend(accuracy, cycles).advice) >= 2
    ensures PerformanceRating(accuracy) == VeryPoor ==> Recommend(accuracy, cycles).advice == PoorModel
    ensures Recommend(accuracy, cycles).advice == PoorModel ==> RatingRank(PerformanceRating(accuracy)) <= 1
  {
    RatingByThresholds(accuracy);
    AdviceByThresholds(accuracy, cycles);
  }

  /** The expected names of the records marked `INCORRECT`, in order. */
  function IncorrectNames(rows: seq<Row>): seq<string> {
    if |rows| == 0 then []
    else
      var r := rows[|rows| - 1];
      IncorrectNames(rows[..|rows| - 1]) + (if r.result == "INCORRECT" then [r.expected] else [])
  }

  /** The loop collecting the classes to focus on. */
  method LowAccuracyDiseases(rows: seq<Row>) returns (low: seq<string>)
    ensures low == IncorrectNames(rows)
  {
    low := [];
    var i := 0;
    while i < |rows|
      invariant 0 <= i <= |rows|
      invariant low == IncorrectNames(rows[..i])
    {
      assert rows[..i + 1][..i] == rows[..i];
      if rows[i].result == "INCORRECT" {
        low := low + [rows[i].expected];
      }
      i := i + 1;
    }
    assert rows[..i] == rows;
  }

  /** A class never named among the focus areas is, when every record is
      marked `CORRECT` or `INCORRECT`, a class whose records are all
      correct. */
  lemma {:induction false} UnfocusedClassIsPerfect(rows: seq<Row>, d: string)
    requires forall k :: 0 <= k < |rows| ==> rows[k].result == "CORRECT" || rows[k].result == "INCORRECT"
    requires d !in IncorrectNames(rows)
    ensures CorrectRows(RowsFor(rows, d)) == |RowsFor(rows, d)|
  {
    if |rows| > 0 {
      var init, r := rows[..|rows| - 1], rows[|rows| - 1];
      assert d !in IncorrectNames(init);
      UnfocusedClassIsPerfect(init, d);
      if r.expected == d {
        assert r.result != "INCORRECT";
        assert r.result == "CORRECT";
        assert RowsFor(rows, d) == RowsFor(init, d) + [r];
        CorrectRowsSnoc(RowsFor(init, d), r);
      } else {
        assert RowsFor(rows, d) == RowsFor(init, d);
      }
    }
  }

  /** So the confusion tally gives such a class full accuracy. */
  lemma UnfocusedClassTally(rows: seq<Row>, d: string)
    requires forall k :: 0 <= k < |rows| ==> rows[k].result == "CORRECT" || rows[k].result == "INCORRECT"
    requires d in DiseaseNames && d !in IncorrectNames(rows)
    ensures d in ConfusionOf(rows) && ConfusionOf(rows)[d].correct == ConfusionOf(rows)[d].total
  {
    ConfusionOfIsPerClass(rows);
    EntryOfCounts(RowsFor(rows, d));
    UnfocusedClassIsPerfect(rows, d);
  }
}
