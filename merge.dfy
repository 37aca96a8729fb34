/**
 * `merge_files`: the lockstep merge of a MOSI export and a MISO export into
 * one interleaved report. The exports are given as their lines (header line
 * first); the report is the sequence of strings handed to `write`.
 */
module Merge {
  import opened Wrappers
  import opened Text
  import opened Records

  datatype Stream = Mosi | Miso

  /**
   * Why a merge stops early: a line that does not parse, or a first record
   * whose id is not 0, which reads the stream's last timestamp before the
   * loop has ever assigned it (an `UnboundLocalError` in the source).
   */
  datatype MergeError = ParseFailure(stream: Stream) | UnboundTimestamp(stream: Stream)

  datatype Status = Finished | Aborted(error: MergeError)

  /** What was written to the report, and how the merge ended. */
  datatype Outcome = Outcome(written: seq<string>, status: Status)

  /** `readline()` on a file whose lines are `lines`: the empty string at end of file. */
  function ReadLine(lines: seq<string>, i: nat): string {
    if i < |lines| then lines[i] else ""
  }

  function Tag(stream: Stream): string {
    match stream
    case Mosi => "MOSI"
    case Miso => "MISO"
  }

  /**
   * The column title of the value column, left-aligned in nine characters:
   * the word, then spaces up to the ninth character.
   */
  function ColumnLabel(delta: bool): (r: string)
    ensures var title := if delta then "Delta" else "Timestamp";
      |r| == 9 && r[..|title|] == title && forall k :: |title| <= k < 9 ==> r[k] == ' '
  {
    var title := if delta then "Delta" else "Timestamp";
    PadRightShape(title, 9);
    PadRight(title, 9)
  }

  /** The five chunks written before the first pair. */
  function Header(mosiPath: string, misoPath: string, delta: bool): seq<string> {
    [ "# Merge of:\n",
      "# MOSI File: " + mosiPath + "\n",
      "# MISO File: " + misoPath + "\n",
      "\n",
      "---ID--- - Dir  - --------" + ColumnLabel(delta) + " (ns)--------  - --Data--\n\n" ]
  }

  /** One record of the report: id in 8 columns, the tag, the value in 31 columns, the payload. */
  function RecordLine(r: Record, stream: Stream, value: int): string {
    PadLeft(IntToString(r.transferId), 8) + (" - " + Tag(stream) + " - ")
      + PadLeft(IntToString(value), 31) + " - " + r.data + "\n"
  }

  /**
   * A number right-aligned in a field of width `w`: the field is exactly
   * `max(w, |digits|)` wide, ends with the digits, is spaces before them,
   * and reads back as that number.
   */
  lemma PaddedNumberReads(i: int, w: nat)
    ensures var digits, cell := IntToString(i), PadLeft(IntToString(i), w);
      |cell| == (if |digits| < w then w else |digits|) && |cell| >= w
      && cell[|cell| - |digits|..] == digits
      && (forall k :: 0 <= k < |cell| - |digits| ==> cell[k] == ' ')
    ensures ParseInt(Strip(PadLeft(IntToString(i), w))) == Some(i)
  {
    var digits := IntToString(i);
    var cell := PadLeft(digits, w);
    IntToStringShape(i);
    PadLeftShape(digits, w);
    var lead := cell[..|cell| - |digits|];
    assert cell == lead + digits + "";
    StripPadded(lead, digits, "");
    ParseIntRoundTrip(i);
  }

  /**
   * `row` is laid out in columns: the cell `a` (reading back as `id`), the
   * ten characters `mid`, the cell `b` (reading back as `value`), the delimiter " - ",
   * the payload `d` verbatim, and the closing newline.
   */
  predicate RowHasColumns(row: string, a: string, mid: string, b: string, d: string, id: int, value: int) {
    |mid| == 10 && |row| == |a| + 10 + |b| + 3 + |d| + 1
    && row[..|a|] == a && ParseInt(Strip(row[..|a|])) == Some(id) && row[|a|..|a| + 10] == mid
    && row[|a| + 10..|a| + 10 + |b|] == b && ParseInt(Strip(row[|a| + 10..|a| + 10 + |b|])) == Some(value)
    && row[|a| + 10 + |b|..|a| + 13 + |b|] == " - " && row[|a| + 13 + |b|..|row| - 1] == d
    && row[|row| - 1] == '\n'
  }

  /**
   * The columns of a record line read back as what was written: the id in a
   * field of at least 8 characters, the direction tag between " - "
   * delimiters, the value in a field of at least 31 characters, then the
   * payload verbatim up to the closing newline.
   */
  lemma RecordLineColumns(r: Record, stream: Stream, value: int)
    ensures var a, b := PadLeft(IntToString(r.transferId), 8), PadLeft(IntToString(value), 31);
      |a| >= 8 && |b| >= 31
      && RowHasColumns(RecordLine(r, stream, value), a, " - " + Tag(stream) + " - ", b, r.data, r.transferId, value)
  {
    var a, b := PadLeft(IntToString(r.transferId), 8), PadLeft(IntToString(value), 31);
    var mid := " - " + Tag(stream) + " - ";
    PaddedNumberReads(r.transferId, 8);
    PaddedNumberReads(value, 31);
    assert |mid| == 10;
    RowColumns(a, mid, b, r.data, r.transferId, value);
  }

  /** A row built as `a + mid + b + " - " + d + "\n"` with a ten-character `mid` has those columns. */
  lemma RowColumns(a: string, mid: string, b: string, d: string, id: int, value: int)
    requires |mid| == 10
    requires ParseInt(Strip(a)) == Some(id) && ParseInt(Strip(b)) == Some(value)
    ensures RowHasColumns(a + mid + b + " - " + d + "\n", a, mid, b, d, id, value)
  {
    var row := a + mid + b + " - " + d + "\n";
    assert row[..|a|] == a;
    assert row[|a| + 10..|a| + 10 + |b|] == b;
  }

  /**
   * The per-stream delta of a record: 0 at transfer id 0, otherwise the
   * distance from the stream's previous timestamp, which must exist.
   */
  function NextDelta(r: Record, lastTimestamp: Option<int>): Option<int> {
    if r.transferId == 0 then Some(0)
    else if lastTimestamp.None? then None
    else Some(r.timestamp - lastTimestamp.value)
  }

  /** The value column: the delta in delta mode, the absolute timestamp otherwise. */
  function Shown(delta: bool, d: int, r: Record): int {
    if delta then d else r.timestamp
  }

  /** The result of one turn of the loop: the three chunks it writes and the new last timestamps, or the error it raises. */
  datatype Step = Emit(rows: seq<string>, mosiTimestamp: int, misoTimestamp: int) | Stop(error: MergeError)

  /**
   * One turn of the loop on a MOSI line and a MISO line: parse both, derive
   * both deltas, and write the MOSI row, the MISO row and a blank line. The
   * checks are made in the source's order: MOSI parse, MISO parse, MOSI
   * delta, MISO delta.
   */
  function PairStep(delta: bool, mosiLine: string, misoLine: string,
                    lastMosi: Option<int>, lastMiso: Option<int>): Step {
    var mosiTransfer, misoTransfer := ParseLine(mosiLine), ParseLine(misoLine);
    if mosiTransfer.None? then Stop(ParseFailure(Mosi))
    else if misoTransfer.None? then Stop(ParseFailure(Miso))
    else
      var mt, st := mosiTransfer.value, misoTransfer.value;
      var mosiDelta, misoDelta := NextDelta(mt, lastMosi), NextDelta(st, lastMiso);
      if mosiDelta.None? then Stop(UnboundTimestamp(Mosi))
      else if misoDelta.None? then Stop(UnboundTimestamp(Miso))
      else
        Emit([ RecordLine(mt, Mosi, Shown(delta, mosiDelta.value, mt)),
               RecordLine(st, Miso, Shown(delta, misoDelta.value, st)),
               "\n" ],
             mt.timestamp, st.timestamp)
  }

  /**
   * The merge loop from line `i` of both exports on, with the last timestamp
   * seen in each stream (`None` while still unassigned): it stops cleanly
   * once either export is exhausted, and otherwise takes a turn.
   */
  function MergeFrom(delta: bool, mosi: seq<string>, miso: seq<string>, i: nat,
                     lastMosi: Option<int>, lastMiso: Option<int>): Outcome
    decreases |mosi| - i, 1
  {
    if |ReadLine(mosi, i)| == 0 || |ReadLine(miso, i)| == 0 then
      Outcome([], Finished)
    else
      TurnFrom(delta, mosi, miso, i, lastMosi, lastMiso)
  }

  /**
   * The merge from a turn at line `i` on: the turn's error ends it with
   * nothing written, otherwise its three chunks come before those of the
   * rest of the merge.
   */
  function TurnFrom(delta: bool, mosi: seq<string>, miso: seq<string>, i: nat,
                    lastMosi: Option<int>, lastMiso: Option<int>): Outcome
    requires i < |mosi|
    decreases |mosi| - i, 0
  {
    match PairStep(delta, mosi[i], ReadLine(miso, i), lastMosi, lastMiso)
    case Stop(e) => Outcome([], Aborted(e))
    case Emit(rows, mosiTimestamp, misoTimestamp) =>
      var rest := MergeFrom(delta, mosi, miso, i + 1, Some(mosiTimestamp), Some(misoTimestamp));
      Outcome(rows + rest.written, rest.status)
  }

  /**
   * The whole merge: the header line of each export is read and dropped, the
   * five header chunks are written, then the pairs from line 1 on.
   */
  function MergeOutcome(mosiPath: string, misoPath: string, mosi: seq<string>, miso: seq<string>,
                        delta: bool): (o: Outcome)
    ensures |o.written| >= 5 && o.written[..5] == Header(mosiPath, misoPath, delta)
  {
    var pairs := MergeFrom(delta, mosi, miso, 1, None, None);
    Outcome(Header(mosiPath, misoPath, delta) + pairs.written, pairs.status)
  }

  lemma AppendAssoc(a: seq<string>, b: seq<string>, c: seq<string>)
    ensures a + (b + c) == (a + b) + c
  {
  }

  /** A merge that has written `written` and goes on as `here` goes on as `next` once `here` writes `rows` first. */
  lemma ProgressAdvances(total: Outcome, written: seq<string>, here: Outcome, rows: seq<string>, next: Outcome)
    requires total == Outcome(written + here.written, here.status)
    requires here == Outcome(rows + next.written, next.status)
    ensures total == Outcome((written + rows) + next.written, next.status)
  {
    AppendAssoc(written, rows, next.written);
  }

  /** A merge that has written `written` and goes on as `here`, which writes nothing more, ends as `here` does. */
  lemma ProgressStops(total: Outcome, written: seq<string>, here: Outcome)
    requires total == Outcome(written + here.written, here.status) && here.written == []
    ensures total == Outcome(written, here.status)
  {
    assert written + [] == written;
  }

  /**
   * `merge_files`: the header line of each export is read and dropped, the
   * five header chunks are written, then the pairs from line 1 on.
   */
  method MergeFiles(mosiPath: string, misoPath: string, mosiLines: seq<string>, misoLines: seq<string>,
                    delta: bool) returns (written: seq<string>, status: Status)
    ensures Outcome(written, status) == MergeOutcome(mosiPath, misoPath, mosiLines, misoLines, delta)
  {
    written := Header(mosiPath, misoPath, delta);
    var pairs;
    pairs, status := MergePairs(delta, mosiLines, misoLines, 1);
    written := written + pairs;
  }

  /**
   * One turn of the loop of `merge_files` at line `cursor`: parse the two
   * current lines, derive the two deltas and produce the three chunks the
   * turn writes, with the timestamps that become the last ones. `error` is
   * the exception the turn raises instead, if any.
   */
  method MergeTurn(delta: bool, mosiLines: seq<string>, misoLines: seq<string>, cursor: nat,
                   lastMosiTimestamp: Option<int>, lastMisoTimestamp: Option<int>)
    returns (rows: seq<string>, mosiTimestamp: int, misoTimestamp: int, error: Option<MergeError>)
    requires cursor < |mosiLines|
    ensures var o := TurnFrom(delta, mosiLines, misoLines, cursor, lastMosiTimestamp, lastMisoTimestamp);
      error.Some? ==> o == Outcome([], Aborted(error.value))
    ensures var o := TurnFrom(delta, mosiLines, misoLines, cursor, lastMosiTimestamp, lastMisoTimestamp);
      var rest := MergeFrom(delta, mosiLines, misoLines, cursor + 1, Some(mosiTimestamp), Some(misoTimestamp));
      error.None? ==> o == Outcome(rows + rest.written, rest.status)
  {
    rows, mosiTimestamp, misoTimestamp := [], 0, 0;
    var mosiTransfer := ParseLine(mosiLines[cursor]);
    if mosiTransfer.None? {
      return rows, mosiTimestamp, misoTimestamp, Some(ParseFailure(Mosi));
    }
    var misoTransfer := ParseLine(ReadLine(misoLines, cursor));
    if misoTransfer.None? {
      return rows, mosiTimestamp, misoTimestamp, Some(ParseFailure(Miso));
    }
    var mt, st := mosiTransfer.value, misoTransfer.value;

    // The source's `if transfer_id == 0 ... else ts - last_ts`, where reading a
    // last timestamp that was never assigned raises.
    var mosiDelta, misoDelta := NextDelta(mt, lastMosiTimestamp), NextDelta(st, lastMisoTimestamp);
    if mosiDelta.None? {
      return rows, mosiTimestamp, misoTimestamp, Some(UnboundTimestamp(Mosi));
    }
    var lastMosiDelta := mosiDelta.value;
    if misoDelta.None? {
      return rows, mosiTimestamp, misoTimestamp, Some(UnboundTimestamp(Miso));
    }
    var lastMisoDelta := misoDelta.value;

    // The three `write` calls of the turn.
    rows := [ RecordLine(mt, Mosi, Shown(delta, lastMosiDelta, mt)),
              RecordLine(st, Miso, Shown(delta, lastMisoDelta, st)),
              "\n" ];
    mosiTimestamp, misoTimestamp := mt.timestamp, st.timestamp;
    error := None;
  }

  /**
   * The loop of `merge_files` from line `start` on: one line index for both
   * files, which are read in lockstep, the last timestamp of each stream, and
   * the chunks written so far. Returning
   * early stands for the exception that ends the source's loop; what was
   * written before it stays written.
   */
  method MergePairs(delta: bool, mosiLines: seq<string>, misoLines: seq<string>, start: nat)
    returns (written: seq<string>, status: Status)
    ensures Outcome(written, status) == MergeFrom(delta, mosiLines, misoLines, start, None, None)
  {
    var cursor := start;
    var mosiLine, misoLine := ReadLine(mosiLines, cursor), ReadLine(misoLines, cursor);
    written := [];
    var lastMosiTimestamp: Option<int> := None;
    var lastMisoTimestamp: Option<int> := None;
    while |mosiLine| > 0 && |misoLine| > 0
      invariant mosiLine == ReadLine(mosiLines, cursor) && misoLine == ReadLine(misoLines, cursor)
      invariant var rest := MergeFrom(delta, mosiLines, misoLines, cursor, lastMosiTimestamp, lastMisoTimestamp);
        MergeFrom(delta, mosiLines, misoLines, start, None, None) == Outcome(written + rest.written, rest.status)
      decreases |mosiLines| - cursor
    {
      ghost var here := MergeFrom(delta, mosiLines, misoLines, cursor, lastMosiTimestamp, lastMisoTimestamp);
      var rows, mosiTimestamp, misoTimestamp, error :=
        MergeTurn(delta, mosiLines, misoLines, cursor, lastMosiTimestamp, lastMisoTimestamp);
      if error.Some? {
        ProgressStops(MergeFrom(delta, mosiLines, misoLines, start, None, None), written, here);
        return written, Aborted(error.value);
      }
      ghost var before := written;
      written := written + rows;
      lastMosiTimestamp, lastMisoTimestamp := Some(mosiTimestamp), Some(misoTimestamp);
      cursor := cursor + 1;
      mosiLine, misoLine := ReadLine(mosiLines, cursor), ReadLine(misoLines, cursor);
      ProgressAdvances(MergeFrom(delta, mosiLines, misoLines, start, None, None), before, here, rows,
                       MergeFrom(delta, mosiLines, misoLines, cursor, lastMosiTimestamp, lastMisoTimestamp));
    }
    status := Finished;
  }
}
