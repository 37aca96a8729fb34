# DSView SPI transfer merge, modelled in Dafny

`dsview-spi-merge.py` merges two DSView 1:SPI decoder exports, one holding the
MOSI (master-out) transfers and one holding the MISO (master-in) transfers,
into one interleaved text report that is easier to `diff`. This project models
its three pieces of logic and proves properties about them:

- **Record parser** (`parse_spi_transfer_line`, module `Records`). A line
  `Id,Time[ns],data` is stripped and split on commas. It must give exactly
  three fields. The id is read as a decimal integer. The time is read as a
  decimal number and truncated toward zero. The payload is kept verbatim.
  Every way the source raises on the literals modelled becomes `None`,
  except the two limits of Python's `int()` and `float()` listed under
  "Left out".
- **Role detector** (`find_mosi_miso_files`, module `Roles`). Each candidate
  file is classified by substring tests on its first line: `'MOSI'` is tested
  first, then `'MISO'`. The loop keeps, for each role, the last file of that
  role, or `None` if there is none. A file is modelled as its name and the
  first line read from it.
- **Merge engine** (`merge_files`, modules `Merge` and `MergeProperties`). The
  two exports are sequences of lines, header line first. `readline()` past
  the end gives `""`, as in Python. The output is the sequence of chunks passed
  to `write()`. The loop is the method `Merge.MergePairs`. The two files are
  read in lockstep, so it keeps one line index for both, together with the two
  last-timestamp accumulators, and it is proved equal to
  the recursive specification `Merge.MergeFrom`. The properties of the report
  are then proved about that specification.

Two behaviours of the code are kept as written:

- `last_mosi_timestamp` / `last_miso_timestamp` are first assigned at the end
  of the first turn (lines 107-108). A first data record whose id is not 0
  therefore reads an unbound variable (lines 90, 95) and aborts the merge.
  This happens in absolute mode too. The model holds each accumulator as an
  `Option<int>`, and the error is `UnboundTimestamp`.
- The delta restarts at 0 at every record whose id is 0, not only at the
  first record.

An aborted merge keeps everything `write()` received before the failure: the
five header chunks and the complete rows of the earlier pairs. The checks in
one turn happen in the code's order: parse MOSI, parse MISO, MOSI delta, MISO
delta.

Further behaviours of `merge_files` and `find_mosi_miso_files`:

- The column banner (`'Delta'` or `'Timestamp'`, left-aligned in 9 characters)
  is written in both modes, not only in delta mode.
- The value column is right-aligned in 31 characters in both modes, not only in
  delta mode. The id is right-aligned in 8 characters. See
  `MergeExamples.SampleMergeAbsolute` for a complete pair of rows.
- When no file has the MOSI or MISO role, the role detector itself does not
  fail. It returns `None` for that role, and the caller (`main`, not modelled)
  reports it.
- A first record with a non-zero id is an error. It is not a delta taken from
  an earlier record.

Files: `wrappers.dfy` (Option), `text.dfy` (strip, split, substring test,
integer rendering, padding), `records.dfy`, `roles.dfy`, `merge.dfy`,
`merge_properties.dfy`, `merge_examples.dfy` (the sample lines from the
export format).

## Model

| member | source | states |
|---|---|---|
| `Text.StripCutsWhitespace` | dsview-spi-merge.py:53 | `Text.Strip`: `strip()` removes only whitespace: the line is a leading whitespace run, the stripped line, then a trailing whitespace run |
| `Text.StripPadded` | dsview-spi-merge.py:53 | `Text.Strip`: whitespace around a string with no whitespace at either end is exactly what `strip()` removes |
| `Text.SplitShape` | dsview-spi-merge.py:53 | `Text.Split`: the pieces of `split(',')` hold no comma and join back, with commas, to the string that was split |
| `Text.SplitJoin` | dsview-spi-merge.py:53 | `Text.Split`: splitting recovers comma-free pieces joined by commas (the inverse of joining) |
| `Text.ContainsOccurs` | dsview-spi-merge.py:43-45 | `Text.Contains`: the `in` substring test holds exactly when the pattern occurs at some position |
| `Text.NatToStringDigits` | dsview-spi-merge.py:97-104 | `Text.NatToString`: the decimal rendering of a natural number is a digit string with no leading zero whose value is that number |
| `Records.ParseIntAccepts` | dsview-spi-merge.py:54 | `Records.ParseInt`: an id token is accepted if and only if it is non-empty, starts with a digit or with `+`/`-` followed by at least one more character, and every character after the first is a digit |
| `Records.ParseIntRoundTrip` | dsview-spi-merge.py:54 | `Records.ParseInt`: the rendering of any integer, negative included, reads back as that integer (see "Left out" for the digit limit of `int()`) |
| `Records.ParseTimestampAccepts` | dsview-spi-merge.py:55 | `Records.ParseTimestamp`: a time token is accepted if and only if, after an optional `+`/`-`, it is digits, or exactly one decimal point with digits on each side, where one side may be empty but not both (`DecimalBody`) |
| `Records.ParseTimestampTruncates` | dsview-spi-merge.py:55 | `Records.ParseTimestamp`: `ParseTimestamp("<t>.<fraction>")` is `t` for any integer `t` and digit fraction: the exact decimal is truncated toward zero (see "Left out" for the binary64 rounding of `float()`) |
| `Records.ParseTimestampWhole` | dsview-spi-merge.py:55 | `Records.ParseTimestamp`: a time without a decimal point reads as its integer value (see "Left out" for the overflow of `float()`) |
| `Records.NegativeFractionTruncatesToZero` | dsview-spi-merge.py:55 | `Records.ParseTimestamp`: `-0.7` truncates toward zero, to 0 (not down to -1) |
| `Records.ParseLineAccepts` | dsview-spi-merge.py:52-57 | `Records.ParseLine`: a line parses only when, stripped, it splits on commas into exactly three fields, the id field reads as the record's id and the time field as its truncated timestamp; the payload is the third field verbatim, comma-free, and it is the tail of the stripped line |
| `Records.ParseLineRoundTrip` | dsview-spi-merge.py:52-57 | `Records.ParseLine`: an exported line `id,time.fraction,data` (with a trailing newline) parses back to exactly that record |
| `Records.ParseLineOfFields` | dsview-spi-merge.py:52-57 | `Records.ParseLine`: conversely, a line whose stripped fields are three, with a readable id and time, parses to that record |
| `Roles.ClassifyOccurs` | dsview-spi-merge.py:43-46 | `Roles.Classify`: a header containing `MOSI` is MOSI, even if it also contains `MISO`; one containing only `MISO` is MISO; one containing neither is unclassified (each as an if-and-only-if) |
| `Roles.FindMosiMisoFiles` | dsview-spi-merge.py:36-48 | `Roles.LastOfRole`: the loop's two slots end up holding the last file of each role (`LastOfRole`), or `None` |
| `Roles.LastOfRoleFinds` | dsview-spi-merge.py:36-48 | `Roles.LastOfRole`: a role's slot is filled exactly when some file has that role, and then it holds a file of that role that no later file of the same role follows (a later file overwrites an earlier one) |
| `Merge.ColumnLabel` | dsview-spi-merge.py:80-81 | `Merge.ColumnLabel`: the `{:9s}` column title is exactly 9 characters wide, starts with `Delta` in delta mode or `Timestamp` otherwise, and is spaces after the word |
| `Merge.MergeOutcome` | dsview-spi-merge.py:76-81 | `Merge.Header`: every merge, finished or aborted, starts with the five header chunks |
| `Merge.PaddedNumberReads` | dsview-spi-merge.py:97-104 | `Text.PadLeft` of `Text.IntToString`: a number right-aligned to width `w` is exactly `max(w, len(str(n)))` wide, ends with its digits, has only spaces before them, and reads back as that number |
| `Merge.RecordLineColumns` | dsview-spi-merge.py:97-104 | `Merge.RecordLine`: a record row is the id's `PadLeft` cell of at least 8 columns, ` - MOSI - ` or ` - MISO - `, the value's `PadLeft` cell of at least 31 columns, ` - `, the payload verbatim and a newline; each number cell reads back as what was written, and `Merge.PaddedNumberReads` shows each cell is spaces followed by the digits (right-aligned) |
| `Merge.MergeTurn` | dsview-spi-merge.py:84-108 | `Merge.PairStep`, through `Merge.TurnFrom`: one turn of the loop either fails with the error that ends the merge there, or writes three chunks and gives the two timestamps that become the last ones, agreeing with the specification `TurnFrom` |
| `Merge.MergePairs` | dsview-spi-merge.py:83-111 | `Merge.MergeFrom`: the lockstep loop with two accumulators writes exactly what the recursive specification `MergeFrom` writes and stops in the same way |
| `Merge.MergeFiles` | dsview-spi-merge.py:59-118 | `Merge.MergeOutcome`: `merge_files` writes the header chunks and then the pairs from line 1 on, as `MergeOutcome` says |
| `MergeProperties.MergeCompletes` | dsview-spi-merge.py:83-111 | `Merge.MergeFrom`: when every pair can be written, the report is the header followed by the rows of every pair, one per data line of the shorter export, and the merge finishes |
| `MergeProperties.MergeAborts` | dsview-spi-merge.py:84-114 | `Merge.MergeFrom`: when pair `k` is the first that cannot be written, the header and the rows of pairs before `k` stay written and the merge ends with pair `k`'s error |
| `MergeProperties.MergeFinishedIff` | dsview-spi-merge.py:83-114 | `Merge.MergeFrom`: a merge finishes if and only if every pair up to the shorter export's end parses and has its deltas defined |
| `MergeProperties.MergeLayout` | dsview-spi-merge.py:76-105 | `Merge.MergeOutcome`: a finished report holds exactly 5 + 3 × (pair count) chunks: the header, then for each pair its MOSI row, its MISO row and a blank line, in that order |
| `MergeProperties.MergeAbortLayout` | dsview-spi-merge.py:84-114 | `Merge.MergeOutcome`: an aborted report holds exactly the header and three chunks for each pair before the failure, in order, and nothing of the failing pair |
| `MergeProperties.AbsoluteReport` | dsview-spi-merge.py:97-104 | `Merge.MergeOutcome` and `Merge.RecordLine`: in absolute mode, each pair's MOSI row shows the MOSI record's own truncated timestamp and its MISO row the MISO record's, then a blank line |
| `MergeProperties.DeltaReport` | dsview-spi-merge.py:87-108 | `Merge.MergeOutcome`, `Merge.NextDelta` and `Merge.RecordLine`: in delta mode, a record with id 0 shows 0; any other record shows its timestamp minus that of the previous data line of the same export only (possibly negative), and such a record is never the first data line |
| `MergeProperties.ParsedExportsFinish` | dsview-spi-merge.py:83-111 | `Merge.MergeOutcome`: exports whose data lines all parse and whose first records have id 0 always merge to the end, one pair per data line of the shorter export |
| `MergeProperties.NonZeroFirstIdAborts` | dsview-spi-merge.py:87-95 | `Merge.MergeOutcome` and `Merge.NextDelta`: a first MOSI record whose id is not 0 aborts the merge after the header, in both modes, with the unbound-timestamp error |
| `MergeProperties.HeaderLineIgnored` | dsview-spi-merge.py:68-74 | `Merge.MergeOutcome`: replacing either export's header line by any other line changes nothing in the result: it is dropped without being inspected |
| `MergeProperties.LongerExportTruncated` | dsview-spi-merge.py:83 | `Merge.MergeOutcome`: cutting the longer export to the length of the shorter one changes nothing: mismatched lengths truncate silently |
| `MergeProperties.MergeFromSeesOnlyPairs` | dsview-spi-merge.py:83-111 | `Merge.MergeFrom`: the merge from a line on depends only on the line pairs the lockstep loop reads from there on |
| `MergeProperties.ModesAgree` | dsview-spi-merge.py:87-104 | `Merge.MergeOutcome`: delta mode and absolute mode stop at the same pair for the same reason and write the same number of chunks: the mode only changes the value column |
| `MergeExamples.SampleMosiLineParses` | dsview-spi-merge.py:17 | `Records.ParseLine`: the sample line `0,2149586100.00000000000000000000,30 70 F0 00 00 00 00` reads as transfer 0 at 2149586100 ns with its payload verbatim |
| `MergeExamples.SampleMisoLineParses` | dsview-spi-merge.py:52-57 | `Records.ParseLine`: the sample line `0,2149586100.0,FF FF FF FF FF FF FF` reads as transfer 0 at 2149586100 ns |
| `MergeExamples.TwoFieldLineFails` | dsview-spi-merge.py:52-57 | `Records.ParseLine`: a data line with only two comma-separated fields is a parse failure |
| `MergeExamples.MosiHeaderClassifies` | dsview-spi-merge.py:16 | `Roles.Classify`: the header `Id,Time[ns],1:SPI: MOSI transfer` is classified MOSI |
| `MergeExamples.MisoHeaderClassifies` | dsview-spi-merge.py:45-46 | `Roles.Classify`: the matching MISO header is classified MISO |
| `MergeExamples.BareHeaderUnclassified` | dsview-spi-merge.py:43-46 | `Roles.Classify`: a header naming neither line leaves the file unclassified |
| `MergeExamples.OnePairAbsolute` | dsview-spi-merge.py:83-111 | `Merge.MergeOutcome`: two one-record exports with id 0 merge in absolute mode to the header, the MOSI row, the MISO row and a blank line, and the merge finishes |
| `MergeExamples.SampleMergeAbsolute` | dsview-spi-merge.py:97-105 | `Merge.MergeOutcome`: the sample pair in absolute mode gives `       0 - MOSI - ` + 21 spaces + `2149586100 - 30 70 F0 00 00 00 00`, then the MISO row in the same columns, then a blank line |

## Left out

- Argument parsing (`parse_arguments`), `main` and its messages and exit codes are not modelled. Opening, reading, writing and closing real files are not modelled either. The exports are given as sequences of lines and the report as the sequence of `write()` chunks.
- The bugs on the error-reporting path are not modelled. `'...' + e` raises `TypeError` (line 113), `printf` is undefined (lines 127, 131), and the `finally` block closes handles that may be unbound when an `open` failed (lines 116-118). The model only reports which failure aborted the merge.
- Closing the three handles on every exit path is not modelled: there are no handles in the model.
- Python's `int()` and `float()` are modelled only on plain decimal literals. The id is an optional sign and digits. The time is an optional sign and then digits with at most one decimal point, where the digits on one side of the point may be empty but not on both (`5.`, `.5` and `5.5` are accepted, as `float()` accepts them). Whitespace inside a field (which `int(' 5')` accepts), underscores, exponents and `inf`/`nan` are not modelled.
- `ParseTimestamp` truncates the exact decimal toward zero. Python's `float()` first rounds the decimal to the nearest binary64 value, at every magnitude, and only then does `int()` truncate. So the program reads `0.99999999999999999` as 1 and `2149586100.9999999` as 2149586101, where the model gives 0 and 2149586100. Binary64 arithmetic is not modelled.
- `ParseTimestamp` accepts a time of any size. If the time's value rounds past the largest binary64 value (about 1.8 × 10^308), `float()` gives infinity and `int()` at line 55 raises `OverflowError`. Line 112 catches it and the merge aborts, while the model reads the time as its truncated value.
- `ParseInt` accepts an id of any length. CPython 3.11 and later refuses by default to convert a decimal string of more than 4300 digits, and `int()` at line 54 raises `ValueError`. The merge then aborts at line 112, while the model reads the id. The limit depends on the interpreter's version and on `sys.set_int_max_str_digits`, so it is not modelled.
- `strip()` is modelled on characters: it removes the 29 characters `str.isspace()` accepts. Decoding the file's bytes (UTF-8 or otherwise) into characters is not modelled.
- The whole-merge lemmas in `MergeProperties` assume no line is the empty string (`NoBlankLines`). This holds for lines read from a real file, since every line but the last ends in a newline. An empty string inside a line sequence would stop the model's loop the way end of file does.
- Reading each candidate file's first line in `find_mosi_miso_files` is not modelled: a file is given as its name together with that first line.
