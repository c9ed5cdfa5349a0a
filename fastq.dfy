/** Structural validation of a single-record Sanger FASTQ file: a count of the lines,
    then the four stripped fields, then the separator check, then the length check. */
module Fastq {
  import opened Text

  /** The three ways the validator rejects a file, in the order it checks them. */
  datatype FormatError =
    | NotSingleRecord  // the line count does not give exactly one record
    | BadSeparator     // the stripped third line is empty or does not start with `+`
    | LengthMismatch   // the stripped sequence and quality lines differ in length

  datatype Result<T> = Ok(value: T) | Err(error: FormatError)

  /** One FASTQ record, each field being its line with surrounding whitespace stripped. */
  datatype Record = Record(id: string, sequence: string, separator: string, quality: string)

  const LinesPerRecord: nat := 4

  /** `int(lineCount / 4)`: the number of whole four-line groups in the file. */
  function CountRecords(lines: seq<string>): (n: nat)
    ensures n * LinesPerRecord <= |lines| < (n + 1) * LinesPerRecord
  {
    |lines| / LinesPerRecord
  }

  /** The separator test on the stripped third line: it has at least one character
      and its one-character prefix is `+`. */
  predicate SeparatorOk(sep: string) {
    |sep| >= 1 && sep[..1] == "+"
  }

  /** What holds of every record the validator accepts. */
  predicate WellFormed(r: Record) {
    SeparatorOk(r.separator) && |r.sequence| == |r.quality|
  }

  /** `field` is what stripping `line` gives: trimmed, and surrounded in `line` by
      whitespace only. */
  ghost predicate StripsTo(line: string, field: string) {
    Trimmed(field) && exists i :: IsCoreAt(line, field, i)
  }

  /** The four fields of `r` are the stripped first four lines of `lines`. */
  ghost predicate FieldsOf(lines: seq<string>, r: Record)
    requires |lines| >= 4
  {
    StripsTo(lines[0], r.id) && StripsTo(lines[1], r.sequence)
    && StripsTo(lines[2], r.separator) && StripsTo(lines[3], r.quality)
  }

  /** The validator. Every failure is final, and the first failing check decides the
      error. Only lines 1 to 4 are read; a file of 5 to 7 lines passes the count. */
  function Validate(lines: seq<string>): (r: Result<Record>)
    ensures r.Ok? ==> 4 <= |lines| && FieldsOf(lines, r.value) && WellFormed(r.value)
  {
    if CountRecords(lines) != 1 then Err(NotSingleRecord)
    else CheckFields(lines[0], lines[1], lines[2], lines[3])
  }

  /** The checks on the four lines read one at a time, after the count has passed:
      the separator first, then the lengths. */
  function CheckFields(line1: string, line2: string, line3: string, line4: string): (r: Result<Record>)
    ensures r.Ok? ==> WellFormed(r.value)
    ensures r.Ok? ==> StripsTo(line1, r.value.id) && StripsTo(line2, r.value.sequence)
    ensures r.Ok? ==> StripsTo(line3, r.value.separator) && StripsTo(line4, r.value.quality)
    ensures r.Err? ==> r.error != NotSingleRecord
  {
    var id := Strip(line1);
    var sequence := Strip(line2);
    var separator := Strip(line3);
    var quality := Strip(line4);
    if !SeparatorOk(separator) then Err(BadSeparator)
    else if |sequence| != |quality| then Err(LengthMismatch)
    else Ok(Record(id, sequence, separator, quality))
  }

  /** The count check passes exactly for files of four to seven lines. */
  lemma SingleRecordIff(lines: seq<string>)
    ensures CountRecords(lines) == 1 <==> 4 <= |lines| <= 7
  {
  }

  /** Files of fewer than four or more than seven lines are rejected on the count,
      whatever their lines hold. */
  lemma WrongCountRejected(lines: seq<string>)
    requires |lines| < 4 || |lines| > 7
    ensures Validate(lines) == Err(NotSingleRecord)
  {
  }

  /** The error reported is the first failing check in the order
      count, separator, length. */
  lemma ValidateOutcome(lines: seq<string>)
    ensures Validate(lines) == Err(NotSingleRecord) <==> !(4 <= |lines| <= 7)
    ensures Validate(lines) == Err(BadSeparator) <==>
      4 <= |lines| <= 7 && !SeparatorOk(Strip(lines[2]))
    ensures Validate(lines) == Err(LengthMismatch) <==>
      4 <= |lines| <= 7 && SeparatorOk(Strip(lines[2])) && |Strip(lines[1])| != |Strip(lines[3])|
  {
  }

  /** Lines 5 to 7 of an accepted-size file have no effect on the outcome. */
  lemma ExtraLinesIgnored(a: seq<string>, b: seq<string>)
    requires 4 <= |a| <= 7 && 4 <= |b| <= 7
    requires a[..4] == b[..4]
    ensures Validate(a) == Validate(b)
  {
    assert a[0] == a[..4][0] && a[1] == a[..4][1] && a[2] == a[..4][2] && a[3] == a[..4][3];
    assert a[0] == b[0] && a[1] == b[1] && a[2] == b[2] && a[3] == b[3];
  }

  /** The separator line passes exactly when its first non-whitespace character is `+`:
      leading whitespace is tolerated and whatever follows the `+` is ignored. */
  lemma {:induction false} SeparatorLineIff(line: string)
    ensures SeparatorOk(Strip(line)) <==>
      exists i :: 0 <= i < |line| && AllSpace(line[..i]) && line[i] == '+'
  {
    var r := Strip(line);
    var j :| IsCoreAt(line, r, j);
    if SeparatorOk(r) {
      assert r[0] == r[..1][0] == '+';
      assert line[j] == r[0];
      assert 0 <= j < |line| && AllSpace(line[..j]) && line[j] == '+';
    }
    if i :| 0 <= i < |line| && AllSpace(line[..i]) && line[i] == '+' {
      assert line[i] == line[..i + 1][i];
      assert r != [];
      assert line[j] == r[0] && !IsSpace(r[0]);
      if j < i {
        assert line[j] == line[..i][j];
      }
      assert r[..1] == [r[0]] == "+";
    }
  }

  /** Soundness and completeness of the validator: it accepts a file with record `rec`
      exactly when the file has four to seven lines, the fields of `rec` are the stripped
      first four lines, the separator starts with `+` and the sequence and quality have
      equal length. There is no check of the base alphabet, of the quality characters or
      of non-emptiness. */
  lemma {:induction false} ValidateOkIff(lines: seq<string>, rec: Record)
    ensures Validate(lines) == Ok(rec) <==>
      4 <= |lines| <= 7 && FieldsOf(lines, rec) && WellFormed(rec)
  {
    if 4 <= |lines| <= 7 && FieldsOf(lines, rec) {
      var i0 :| IsCoreAt(lines[0], rec.id, i0);
      var i1 :| IsCoreAt(lines[1], rec.sequence, i1);
      var i2 :| IsCoreAt(lines[2], rec.separator, i2);
      var i3 :| IsCoreAt(lines[3], rec.quality, i3);
      StripUnique(lines[0], rec.id, i0);
      StripUnique(lines[1], rec.sequence, i1);
      StripUnique(lines[2], rec.separator, i2);
      StripUnique(lines[3], rec.quality, i3);
    }
  }

  /** A record whose sequence and quality lines are empty passes validation, so any
      later step that divides by the sequence length needs a non-empty record. */
  lemma EmptyRecordAccepted()
    ensures Validate(["@read\n", "\n", "+\n", "\n"]) == Ok(Record("@read", "", "+", ""))
  {
    var lines := ["@read\n", "\n", "+\n", "\n"];
    var rec := Record("@read", "", "+", "");
    assert IsCoreAt(lines[0], rec.id, 0) && IsCoreAt(lines[1], rec.sequence, 0);
    assert IsCoreAt(lines[2], rec.separator, 0) && IsCoreAt(lines[3], rec.quality, 0);
    ValidateOkIff(lines, rec);
  }

  /** A five-line file is accepted as one record: the count check does not require
      exactly four lines. */
  lemma FiveLineFileAccepted()
    ensures Validate(["@r", "AC", "+", "!!", "@extra"]) == Ok(Record("@r", "AC", "+", "!!"))
  {
    StripOfTrimmed("@r");
    StripOfTrimmed("AC");
    StripOfTrimmed("+");
    StripOfTrimmed("!!");
  }
}
