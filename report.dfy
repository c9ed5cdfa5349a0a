/** The per-base report: one row for each position of a validated record, in order,
    and the script's overall flow from the file's lines to those rows or to the
    failure that stops it. */
module Report {
  import opened Phred
  import opened Fastq

  /** A report row. A row printed to the terminal carries the 1-based position, the
      base, the quality character and its Phred score; a row written to an output
      file carries only the position and the score. */
  datatype Row =
    | TerminalRow(position: int, base: char, qualityChar: char, score: int)
    | FileRow(position: int, score: int)

  /** The row for 1-based position `pos`, holding `base` and quality character `qc`. */
  function RowAt(printToTerminal: bool, pos: int, base: char, qc: char): (row: Row) {
    if printToTerminal then TerminalRow(pos, base, qc, PhredScore(qc))
    else FileRow(pos, PhredScore(qc))
  }

  /** The report on `sequence` and `quality`: the report on all but the last position,
      followed by the row for the last one. */
  function Rows(sequence: string, quality: string, printToTerminal: bool): (rows: seq<Row>)
    requires |sequence| == |quality|
    decreases |sequence|
  {
    if sequence == [] then []
    else
      var n := |sequence|;
      Rows(sequence[..n - 1], quality[..n - 1], printToTerminal)
        + [RowAt(printToTerminal, n, sequence[n - 1], quality[n - 1])]
  }

  /** A terminal row with its base and quality-character columns left out. */
  function DropCharColumns(row: Row): (r: Row) {
    FileRow(row.position, row.score)
  }

  /** The report has one row per base, and row `i` is the row for position `i + 1`. */
  lemma {:induction false} RowsAt(sequence: string, quality: string, printToTerminal: bool)
    requires |sequence| == |quality|
    ensures |Rows(sequence, quality, printToTerminal)| == |sequence|
    ensures forall i :: 0 <= i < |sequence| ==>
      Rows(sequence, quality, printToTerminal)[i] == RowAt(printToTerminal, i + 1, sequence[i], quality[i])
    decreases |sequence|
  {
    if sequence != [] {
      var n := |sequence|;
      var s, q := sequence[..n - 1], quality[..n - 1];
      RowsAt(s, q, printToTerminal);
      forall i | 0 <= i < n - 1
        ensures Rows(sequence, quality, printToTerminal)[i] == RowAt(printToTerminal, i + 1, sequence[i], quality[i])
      {
        assert s[i] == sequence[i] && q[i] == quality[i];
      }
    }
  }

  /** Positions run 1, 2, ..., n: they start at one and strictly increase. */
  lemma PositionsIncrease(sequence: string, quality: string, printToTerminal: bool)
    requires |sequence| == |quality|
    ensures var rows := Rows(sequence, quality, printToTerminal);
      && (forall i :: 0 <= i < |rows| ==> rows[i].position == i + 1)
      && (forall i, j :: 0 <= i < j < |rows| ==> rows[i].position < rows[j].position)
  {
    RowsAt(sequence, quality, printToTerminal);
  }

  /** Every row carries the Phred score of the quality character at its position. */
  lemma ScoresDecoded(sequence: string, quality: string, printToTerminal: bool)
    requires |sequence| == |quality|
    ensures |Rows(sequence, quality, printToTerminal)| == |quality|
    ensures forall i :: 0 <= i < |quality| ==>
      Rows(sequence, quality, printToTerminal)[i].score == quality[i] as int - '!' as int
  {
    RowsAt(sequence, quality, printToTerminal);
  }

  /** The file report is the terminal report with the base and quality-character
      columns left out. */
  lemma FileRowsDropColumns(sequence: string, quality: string)
    requires |sequence| == |quality|
    ensures var file, term := Rows(sequence, quality, false), Rows(sequence, quality, true);
      |file| == |term| && forall i :: 0 <= i < |file| ==> file[i] == DropCharColumns(term[i])
  {
    RowsAt(sequence, quality, false);
    RowsAt(sequence, quality, true);
  }

  /** The loop over positions 1 to n that emits one row per base, to the terminal or
      to the output file. */
  method PerBaseRows(rec: Record, printToTerminal: bool) returns (rows: seq<Row>)
    requires |rec.sequence| == |rec.quality|
    ensures rows == Rows(rec.sequence, rec.quality, printToTerminal)
    ensures |rows| == |rec.sequence|
    ensures forall i :: 0 <= i < |rows| ==>
      rows[i] == RowAt(printToTerminal, i + 1, rec.sequence[i], rec.quality[i])
  {
    var n := |rec.sequence|;
    rows := [];
    for counter := 1 to n + 1
      invariant rows == Rows(rec.sequence[..counter - 1], rec.quality[..counter - 1], printToTerminal)
    {
      var base := rec.sequence[counter - 1];
      var qc := rec.quality[counter - 1];
      var score := PhredScore(qc);
      if printToTerminal {
        rows := rows + [TerminalRow(counter, base, qc, score)];
      } else {
        rows := rows + [FileRow(counter, score)];
      }
      assert rec.sequence[..counter][..counter - 1] == rec.sequence[..counter - 1];
      assert rec.quality[..counter][..counter - 1] == rec.quality[..counter - 1];
    }
    assert rec.sequence[..n] == rec.sequence && rec.quality[..n] == rec.quality;
    RowsAt(rec.sequence, rec.quality, printToTerminal);
  }

  /** How a run of the script ends. */
  datatype Outcome =
    | Rejected(error: FormatError)  // the validator failed: exit status 1, no rows
    | DivisionByZero                // the record is empty: averaging the error probabilities
                                    // divides by the zero quality length, before any row
    | Emitted(rows: seq<Row>)       // the per-base rows were printed or written

  /** The script from the lines of the input file to the rows it emits. A file that
      fails validation produces only the validator's error; an accepted record with an
      empty quality line stops at the average, which divides by its length; any other
      accepted record produces its report. */
  method Analyze(lines: seq<string>, printToTerminal: bool) returns (out: Outcome)
    ensures Validate(lines).Err? ==> out == Rejected(Validate(lines).error)
    ensures Validate(lines).Ok? ==> (out == DivisionByZero <==> |Validate(lines).value.quality| == 0)
    ensures Validate(lines).Ok? && |Validate(lines).value.quality| > 0 ==>
      out.Emitted? && out.rows == Rows(Validate(lines).value.sequence, Validate(lines).value.quality, printToTerminal)
    ensures out.Emitted? ==> 0 < |out.rows| == |Validate(lines).value.sequence|
  {
    var checked := Validate(lines);
    if checked.Err? {
      return Rejected(checked.error);
    }
    if |checked.value.quality| == 0 {
      return DivisionByZero;
    }
    var rows := PerBaseRows(checked.value, printToTerminal);
    out := Emitted(rows);
  }

  /** The per-base report on sequence ACGT with quality characters `!"#$`. */
  lemma ReportExample()
    ensures Rows("ACGT", "!\"#$", true) ==
      [TerminalRow(1, 'A', '!', 0), TerminalRow(2, 'C', '"', 1),
       TerminalRow(3, 'G', '#', 2), TerminalRow(4, 'T', '$', 3)]
  {
    RowsAt("ACGT", "!\"#$", true);
  }
}
