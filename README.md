# gmNano-DQ: single-record FASTQ validation and per-base Phred report

gmNano-DQ reads a consensus Nanopore sequencing file in Sanger FASTQ layout
(identifier line, DNA sequence line, `+` separator line, quality line, with
Phred+33 quality characters). It refuses any file that does not have four to seven lines or whose
record is malformed,
decodes every quality character into a Phred score and emits one row per base:
position, base, quality character and score on the terminal, or position and
score in an output file.

This project models that core in Dafny:

- `Text` (text.dfy): Python's `str.strip()` as `Strip`, built from `TrimStart`
  and `TrimEnd`, with the lemmas that pin it down (it removes exactly the
  whitespace at both ends and keeps every interior character).
- `Phred` (phred.dfy): the decoder `PhredScore(c) = ord(c) - ord('!')`, total and
  unclamped, with its inverse on the printable range and its order properties.
- `Fastq` (fastq.dfy): the record count `CountRecords`, the validator `Validate`
  (count, then the four stripped fields, then the separator check, then the
  length check) returning `Ok(record)` or `Err(kind)` for the three error kinds
  `NotSingleRecord`, `BadSeparator` and `LengthMismatch`, each of which ends the
  script with exit status 1.
- `Report` (report.dfy): the per-base rows as a specification function `Rows`, the
  loop `PerBaseRows` that builds them one position at a time and is proved equal
  to `Rows`, and `Analyze`, the script's flow from the file's lines to the validator's
  error, to the division by zero that an empty record causes, or to its rows.

The input is the file as a sequence of lines, as Python's line iteration yields
them (line terminators may still be attached; `Strip` removes them).

Where the code and its own description differ, the model follows the code:

- The comment at gmNano-DQ.py:75 says the file should have exactly four lines,
  but the test is `int(lineCount / 4) == 1`, which accepts four to seven lines;
  lines five to seven are never read (`FiveLineFileAccepted`, `ExtraLinesIgnored`).
- Each field is stripped of all surrounding whitespace, not only its line
  terminator, so leading whitespace before the `+` is accepted.
- Nothing checks that the sequence is non-empty, that the bases are nucleotides
  or that the quality characters are in range. A record with empty sequence and
  quality passes (`EmptyRecordAccepted`); the script then divides by the zero
  quality length when it averages the error probabilities (gmNano-DQ.py:146)
  and stops before any row; `Analyze` reports this as `DivisionByZero`.
- Quality characters below `!` give negative scores; nothing clamps them.

## Model

| member | source | states |
|---|---|---|
| `Text.TrimStart` | gmNano-DQ.py:94-123 | computes the line without its leading whitespace, one character at a time; its properties are `TrimStartSpec` |
| `Text.TrimEnd` | gmNano-DQ.py:94-123 | computes the line without its trailing whitespace; its properties are `TrimEndSpec` |
| `Text.Strip` | gmNano-DQ.py:94-123 | `.strip()` on each of the four field lines (94, 98, 99, 103, 122, 123): the stripped line is trimmed at both ends and is a contiguous slice of the line with only whitespace cut off on either side |
| `Text.TrimStartSpec` | gmNano-DQ.py:94-123 | removing leading whitespace keeps a suffix, drops only whitespace and stops at the first non-whitespace character |
| `Text.TrimEndSpec` | gmNano-DQ.py:94-123 | removing trailing whitespace keeps a prefix, drops only whitespace and stops at the last non-whitespace character |
| `Text.StripDecomposition` | gmNano-DQ.py:94-123 | for whitespace `p`, `q` and a trimmed `m`, stripping `p + m + q` gives exactly `m`: interior characters, whitespace included, are kept |
| `Text.StripUnique` | gmNano-DQ.py:94-123 | a trimmed slice of a line surrounded only by whitespace is the stripped line |
| `Text.StripOfTrimmed` | gmNano-DQ.py:94-123 | a line with no whitespace at either end is left unchanged |
| `Text.StripIdempotent` | gmNano-DQ.py:94-123 | stripping a stripped field changes nothing |
| `Phred.PhredScore` | gmNano-DQ.py:194 | computes `ord(c) - ord('!')` for any character, unclamped; its properties are the round trips, the order lemma and `NegativeScores` |
| `Phred.PhredChar` | gmNano-DQ.py:142 | the Phred+33 character for a score 0..93 is printable ASCII and decodes back to that score |
| `Phred.CharRoundTrip` | gmNano-DQ.py:142 | every printable quality character decodes to a score in 0..93 and re-encodes to itself |
| `Phred.ScoreRoundTrip` | gmNano-DQ.py:194 | every score in 0..93 survives encoding and decoding |
| `Phred.PhredScoreOrder` | gmNano-DQ.py:142 | decoding preserves and reflects the order of characters, and different characters get different scores |
| `Phred.NegativeScores` | gmNano-DQ.py:194 | a score is negative exactly when the character is below `!`; there is no clamping |
| `Phred.PhredScoreExamples` | gmNano-DQ.py:142 | `!` is 0, `"` is 1, `#` is 2, `+` is 10, `I` is 40, `~` is 93, space is -1 |
| `Fastq.CountRecords` | gmNano-DQ.py:83 | the record count is the number of whole four-line groups: `4n <= lineCount < 4n + 4` |
| `Fastq.SingleRecordIff` | gmNano-DQ.py:83-87 | the count check passes if and only if the file has four to seven lines |
| `Fastq.WrongCountRejected` | gmNano-DQ.py:85-87 | files of fewer than four or more than seven lines are rejected as not a single record whatever they contain |
| `Fastq.SeparatorOk` | gmNano-DQ.py:107-113 | computes whether the stripped separator's first character (`[:1]`) is `+`; `SeparatorLineIff` states it on the raw line |
| `Fastq.Validate` | gmNano-DQ.py:75-131 | an accepted file has at least four lines, its record's fields are the stripped first four lines, the separator starts with `+` and sequence and quality have equal length |
| `Fastq.CheckFields` | gmNano-DQ.py:92-131 | the checks after the count: an accepted record is well formed with stripped fields, and a failure here is never the count error |
| `Fastq.ValidateOutcome` | gmNano-DQ.py:85-131 | the error reported is the first failing check in the order count, separator, length, each stated as an if-and-only-if |
| `Fastq.ExtraLinesIgnored` | gmNano-DQ.py:93-121 | two files of four to seven lines with the same first four lines get the same outcome |
| `Fastq.SeparatorLineIff` | gmNano-DQ.py:102-118 | the separator check passes if and only if the first non-whitespace character of the third line is `+`; what follows it is ignored |
| `Fastq.ValidateOkIff` | gmNano-DQ.py:92-131 | the validator returns `Ok(rec)` if and only if the file has four to seven lines, the fields of `rec` are its stripped first four lines, the separator starts with `+` and the lengths match; nothing else is checked |
| `Fastq.EmptyRecordAccepted` | gmNano-DQ.py:128-131 | a record with empty sequence and quality passes validation |
| `Fastq.FiveLineFileAccepted` | gmNano-DQ.py:81-87 | a five-line file is accepted as one record and its fifth line is ignored |
| `Report.RowAt` | gmNano-DQ.py:192-202 | computes the row for one position: position, base, quality character and score on the terminal, position and score in a file |
| `Report.Rows` | gmNano-DQ.py:191-202 | computes the report on a record as the rows for positions 1..n in order; its properties are `RowsAt` and the lemmas after it |
| `Report.RowsAt` | gmNano-DQ.py:191-202 | the report has one row per base and row `i` is the row for position `i + 1` with that base, quality character and score |
| `Report.PositionsIncrease` | gmNano-DQ.py:191 | positions are 1..n in strictly increasing order |
| `Report.ScoresDecoded` | gmNano-DQ.py:192-194 | each row's score is `ord(q) - ord('!')` of the quality character at its position |
| `Report.FileRowsDropColumns` | gmNano-DQ.py:196-202 | the file rows are the terminal rows without the base and quality-character columns |
| `Report.PerBaseRows` | gmNano-DQ.py:190-202 | the loop's rows equal the report specification: one row per position, in order, for the chosen output |
| `Report.Analyze` | gmNano-DQ.py:82-202 | a file that fails validation yields only the validator's error and no rows; an accepted record with an empty quality line ends in the division by zero at line 146, and only then; any other accepted record yields its report, which is non-empty |
| `Report.ReportExample` | gmNano-DQ.py:191-197 | sequence ACGT with quality `!"#$` gives positions 1..4, bases A, C, G, T and scores 0, 1, 2, 3 |

## Left out

- Argument parsing, the missing-input message and the verbose messages (gmNano-DQ.py:35-73, 134-136, 208-209): command-line plumbing.
- Opening, reading and closing the files and the two passes over the input (gmNano-DQ.py:82-84, 90, 117, 126, 150, 205-206): the model receives the lines already read. Python's newline translation (`\r\n` to `\n`) is not modelled; a remaining `\r` is whitespace and is stripped.
- The floating-point statistics: error probability `10^(-q/10)`, the expected-errors sum, the average probability, `-10 * log10(...)` and `math.floor` (gmNano-DQ.py:139-147, 173, 188). Dafny has no floating point here; the division by the quality length that these need is discussed above.
- Output formatting: the Prism `<Info>` block, `{:.9f}` formatting, tab-separated printing and file writes (gmNano-DQ.py:152-188, 196-202). Only the contents of each row are modelled.
- Report.Analyze: does not model the `ValueError` that `math.log10` raises at gmNano-DQ.py:147 when the average error probability rounds to 0.0 in floating point (scores of several thousand); such a record yields its rows in the model.
- Text.IsSpace: stands for Python 3's `str.isspace()` (Unicode 6.3 or later), which the model lists character by character; it does not follow changes to that set in other Unicode versions.
- Fastq.CountRecords: models `int(lineCount / 4)` as exact integer division; Python divides in floating point first, which differs only for line counts beyond 2^53.
