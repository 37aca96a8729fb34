/**
 * One line of a DSView SPI transfer export, `Id,Time[ns],data`, read into a
 * transfer record (`parse_spi_transfer_line` and the `SPITransferRecord` tuple).
 */
module Records {
  import opened Wrappers
  import opened Text

  /** One decoded SPI transfer; the timestamp is already truncated to whole nanoseconds. */
  datatype Record = Record(transferId: int, timestamp: int, data: string)

  function Signed(negative: bool, magnitude: nat): int {
    if negative then -(magnitude as int) else magnitude
  }

  /** Python's `int(tok)` on a decimal literal: an optional sign, then digits. */
  function ParseInt(tok: string): Option<int> {
    if |tok| > 0 && (tok[0] == '-' || tok[0] == '+') then
      if IsDigits(tok[1..]) then Some(Signed(tok[0] == '-', DigitsValue(tok[1..]))) else None
    else if IsDigits(tok) then
      Some(DigitsValue(tok))
    else
      None
  }

  /**
   * `int(float(tok))` on a decimal literal: an optional sign, digits with an
   * optional `.digits` fraction (either side of the point may be empty, not
   * both). The exact decimal is truncated toward zero by dropping the
   * fraction; the binary64 rounding `float` applies first is not modelled.
   */
  function ParseTimestamp(tok: string): Option<int> {
    var signed := |tok| > 0 && (tok[0] == '-' || tok[0] == '+');
    var parts := Split(if signed then tok[1..] else tok, '.');
    if |parts| == 1 && IsDigits(parts[0]) then
      Some(Signed(signed && tok[0] == '-', DigitsValue(parts[0])))
    else if |parts| == 2 && AllDigits(parts[0]) && AllDigits(parts[1]) && |parts[0]| + |parts[1]| > 0 then
      Some(Signed(signed && tok[0] == '-', DigitsValue(parts[0])))
    else
      None
  }

  /**
   * An id is accepted exactly when it is a digit, or a sign with at least one
   * character after it, and every later character is a digit.
   */
  lemma ParseIntAccepts(tok: string)
    ensures ParseInt(tok).Some? <==>
      |tok| > 0 && (IsDigit(tok[0]) || ((tok[0] == '-' || tok[0] == '+') && |tok| >= 2))
      && forall k :: 1 <= k < |tok| ==> IsDigit(tok[k])
  {
    if |tok| > 0 && (tok[0] == '-' || tok[0] == '+') {
      assert forall k :: 1 <= k < |tok| ==> tok[k] == tok[1..][k - 1];
    }
  }

  /**
   * A decimal literal after its sign: digits, or exactly one point with
   * digits on either side of it, where one side may be empty but not both.
   */
  predicate DecimalBody(body: string) {
    IsDigits(body)
    || exists i :: 0 <= i < |body| && body[i] == '.' && AllDigits(body[..i]) && AllDigits(body[i + 1..]) && |body| >= 2
  }

  lemma NoPointInDigits(s: string)
    requires AllDigits(s)
    ensures '.' !in s
  {
  }

  /** The unsigned part of a time token. */
  function TimeBody(tok: string): string {
    if |tok| > 0 && (tok[0] == '-' || tok[0] == '+') then tok[1..] else tok
  }

  /** A time is accepted exactly when, after an optional sign, it is a `DecimalBody`. */
  lemma ParseTimestampAccepts(tok: string)
    ensures ParseTimestamp(tok).Some? <==> DecimalBody(TimeBody(tok))
  {
    var body := TimeBody(tok);
    if ParseTimestamp(tok).Some? {
      AcceptedTimeIsDecimal(tok);
    }
    if DecimalBody(body) {
      if IsDigits(body) {
        WholeBodyAccepted(tok);
      } else {
        var i :| 0 <= i < |body| && body[i] == '.' && AllDigits(body[..i]) && AllDigits(body[i + 1..]) && |body| >= 2;
        PointBodyAccepted(tok, i);
      }
    }
  }

  lemma AcceptedTimeIsDecimal(tok: string)
    requires ParseTimestamp(tok).Some?
    ensures DecimalBody(TimeBody(tok))
  {
    var body := TimeBody(tok);
    var parts := Split(body, '.');
    assert parts == Split(if |tok| > 0 && (tok[0] == '-' || tok[0] == '+') then tok[1..] else tok, '.');
    SplitShape(body, '.');
    if |parts| == 1 {
      assert body == parts[0];
    } else {
      assert parts == [parts[0], parts[1]];
      JoinTwo(parts[0], parts[1], '.');
      var i := |parts[0]|;
      assert body[i] == '.' && body[..i] == parts[0] && body[i + 1..] == parts[1];
    }
  }

  lemma WholeBodyAccepted(tok: string)
    requires IsDigits(TimeBody(tok))
    ensures ParseTimestamp(tok).Some?
  {
    var body := TimeBody(tok);
    NoPointInDigits(body);
    SplitJoin([body], '.');
    assert Split(body, '.') == [body];
  }

  lemma PointBodyAccepted(tok: string, i: nat)
    requires var body := TimeBody(tok);
      i < |body| && body[i] == '.' && AllDigits(body[..i]) && AllDigits(body[i + 1..]) && |body| >= 2
    ensures ParseTimestamp(tok).Some?
  {
    var body := TimeBody(tok);
    var x, y := body[..i], body[i + 1..];
    NoPointInDigits(x);
    NoPointInDigits(y);
    assert body == x + ['.'] + y;
    JoinTwo(x, y, '.');
    SplitJoin([x, y], '.');
    assert Split(body, '.') == [x, y];
  }

  /**
   * `parse_spi_transfer_line`: strip the line, split it on commas, and read
   * exactly three fields as id, truncated timestamp and verbatim payload.
   * Every way the source can raise on the literals modelled (wrong field
   * count, a non-numeric id or time) is `None`. The two limits of Python's
   * numbers are not modelled: a time past the largest binary64 value, which
   * makes `int(float(...))` raise `OverflowError`, and an id longer than the
   * interpreter's digit limit for `int()`.
   */
  function ParseLine(line: string): Option<Record> {
    var fields := Split(Strip(line), ',');
    if |fields| != 3 then
      None
    else
      match (ParseInt(fields[0]), ParseTimestamp(fields[1]))
      case (Some(id), Some(ts)) => Some(Record(id, ts, fields[2]))
      case _ => None
  }

  /**
   * A line that reads as a record has exactly three comma-separated fields
   * once stripped, and its payload is the third of them: comma-free and
   * taken verbatim from the end of the stripped line.
   */
  lemma ParseLineAccepts(line: string)
    requires ParseLine(line).Some?
    ensures var fields, r := Split(Strip(line), ','), ParseLine(line).value;
      |fields| == 3 && r.data == fields[2] && ',' !in r.data
      && ParseInt(fields[0]) == Some(r.transferId) && ParseTimestamp(fields[1]) == Some(r.timestamp)
    ensures var s, r := Strip(line), ParseLine(line).value;
      |r.data| <= |s| && r.data == s[|s| - |r.data|..]
  {
    var fields := Split(Strip(line), ',');
    SplitShape(Strip(line), ',');
    assert fields == [fields[0], fields[1], fields[2]];
    JoinThree(fields[0], fields[1], fields[2], ',');
    assert Strip(line) == (fields[0] + [','] + fields[1] + [',']) + fields[2];
  }

  /** A record as DSView exports it, with the given digits after the decimal point. */
  function ExportLine(r: Record, fraction: string): string {
    IntToString(r.transferId) + "," + IntToString(r.timestamp) + "." + fraction + "," + r.data
  }

  lemma ParseIntRoundTrip(i: int)
    ensures ParseInt(IntToString(i)) == Some(i)
  {
    var s := IntToString(i);
    NatToStringDigits(if i < 0 then -i else i);
    if i < 0 {
      assert s[1..] == NatToString(-i);
    }
  }

  /** Truncation toward zero: any fraction after the integer part is dropped, for either sign. */
  lemma ParseTimestampTruncates(t: int, fraction: string)
    requires AllDigits(fraction)
    ensures ParseTimestamp(IntToString(t) + "." + fraction) == Some(t)
  {
    var sign := if t < 0 then "-" else "";
    var digits := NatToString(if t < 0 then -t else t);
    NatToStringDigits(if t < 0 then -t else t);
    assert IntToString(t) == sign + digits;
    SignedPointTime(sign, digits, fraction);
  }

  /** `<sign><digits>.<fraction>` reads as the signed value of its integer digits. */
  lemma SignedPointTime(sign: string, digits: string, fraction: string)
    requires sign == "-" || sign == ""
    requires IsDigits(digits) && AllDigits(fraction)
    ensures ParseTimestamp(sign + digits + "." + fraction) == Some(Signed(sign == "-", DigitsValue(digits)))
  {
    var tok := sign + digits + "." + fraction;
    assert tok == sign + (digits + "." + fraction);
    if sign == "-" {
      assert tok[1..] == digits + "." + fraction;
    } else {
      assert tok == digits + "." + fraction;
    }
    ParseTimestampOfParts(tok, digits, fraction);
  }

  /** A time whose unsigned part is `x.y` reads as the signed value of its integer digits `x`. */
  lemma ParseTimestampOfParts(tok: string, x: string, y: string)
    requires IsDigits(x) && AllDigits(y) && TimeBody(tok) == x + "." + y
    ensures ParseTimestamp(tok) == Some(Signed(|tok| > 0 && tok[0] == '-', DigitsValue(x)))
  {
    NoPointInDigits(x);
    NoPointInDigits(y);
    JoinTwo(x, y, '.');
    SplitJoin([x, y], '.');
    assert Split(TimeBody(tok), '.') == [x, y];
  }

  lemma ParseTimestampWhole(t: int)
    ensures ParseTimestamp(IntToString(t)) == Some(t)
  {
    var tok := IntToString(t);
    var digits := NatToString(if t < 0 then -t else t);
    NatToStringDigits(if t < 0 then -t else t);
    if t < 0 {
      assert tok[1..] == digits;
    }
    SplitJoin([digits], '.');
  }

  /** A negative time above -1 truncates to 0, as `int(float("-0.7"))` does. */
  lemma NegativeFractionTruncatesToZero()
    ensures ParseTimestamp("-0.7") == Some(0)
  {
    JoinTwo("0", "7", '.');
    SplitJoin(["0", "7"], '.');
    assert "-0.7"[1..] == "0" + ['.'] + "7";
  }

  /** The time field of an export line holds no comma. */
  lemma TimeFieldHasNoComma(t: int, fraction: string)
    requires AllDigits(fraction)
    ensures ',' !in IntToString(t) + "." + fraction
  {
    var whole := IntToString(t);
    IntToStringShape(t);
    var ts := whole + "." + fraction;
    forall k | 0 <= k < |ts|
      ensures ts[k] != ','
    {
      if k < |whole| {
        assert ts[k] == whole[k];
      } else if k > |whole| {
        assert ts[k] == fraction[k - |whole| - 1];
      }
    }
  }

  /** An export line splits on commas into its three fields. */
  lemma ExportLineFields(r: Record, fraction: string)
    requires ',' !in r.data && AllDigits(fraction)
    ensures Split(ExportLine(r, fraction), ',')
         == [IntToString(r.transferId), IntToString(r.timestamp) + "." + fraction, r.data]
  {
    var id, ts := IntToString(r.transferId), IntToString(r.timestamp) + "." + fraction;
    TimeFieldHasNoComma(r.timestamp, fraction);
    IntToStringShape(r.transferId);
    JoinThree(id, ts, r.data, ',');
    assert ExportLine(r, fraction) == id + [','] + ts + [','] + r.data;
    SplitJoin([id, ts, r.data], ',');
  }

  /** An exported record, with any trailing newline, reads back as that record. */
  lemma ParseLineRoundTrip(r: Record, fraction: string, eol: string)
    requires ',' !in r.data && (r.data == [] || !IsWhitespace(r.data[|r.data| - 1]))
    requires AllDigits(fraction) && AllWhitespace(eol)
    ensures ParseLine(ExportLine(r, fraction) + eol) == Some(r)
  {
    var line := ExportLine(r, fraction);
    ExportLineStrips(r, fraction, eol);
    ExportLineFields(r, fraction);
    ParseIntRoundTrip(r.transferId);
    ParseTimestampTruncates(r.timestamp, fraction);
    ParseLineOfFields(line + eol, IntToString(r.transferId), IntToString(r.timestamp) + "." + fraction, r);
  }

  /** A line whose stripped fields are a readable id, a readable time and a payload reads as that record. */
  lemma ParseLineOfFields(line: string, id: string, time: string, r: Record)
    requires Split(Strip(line), ',') == [id, time, r.data]
    requires ParseInt(id) == Some(r.transferId) && ParseTimestamp(time) == Some(r.timestamp)
    ensures ParseLine(line) == Some(r)
  {
  }

  lemma ExportLineStrips(r: Record, fraction: string, eol: string)
    requires r.data == [] || !IsWhitespace(r.data[|r.data| - 1])
    requires AllWhitespace(eol)
    ensures Strip(ExportLine(r, fraction) + eol) == ExportLine(r, fraction)
  {
    var line := ExportLine(r, fraction);
    ExportLineBordered(r, fraction);
    assert "" + line + eol == line + eol;
    StripPadded("", line, eol);
  }

  lemma ExportLineBordered(r: Record, fraction: string)
    requires r.data == [] || !IsWhitespace(r.data[|r.data| - 1])
    ensures Bordered(ExportLine(r, fraction))
  {
    var line := ExportLine(r, fraction);
    var id := IntToString(r.transferId);
    IntToStringShape(r.transferId);
    assert line == id + ("," + IntToString(r.timestamp) + "." + fraction + "," + r.data);
    assert line[0] == id[0];
    assert line[|line| - 1] == if r.data == [] then ',' else r.data[|r.data| - 1];
  }
}
