/**
 * Worked examples from the input format of a DSView 1:SPI export: the two
 * header lines, a MOSI and a MISO line of the same transfer, and the pair
 * of report rows they give in absolute mode.
 */
module MergeExamples {
  import opened Wrappers
  import opened Text
  import opened Records
  import opened Roles
  import opened Merge

  const MosiHeader: string := "Id,Time[ns],1:SPI: MOSI transfer\n"
  const MisoHeader: string := "Id,Time[ns],1:SPI: MISO transfer\n"
  const BareHeader: string := "Id,Time[ns],Data\n"

  const SampleTime: string := "2149586100"
  const MosiPayload: string := "30 70 F0 00 00 00 00"
  const MisoPayload: string := "FF FF FF FF FF FF FF"

  /** `0,2149586100.00000000000000000000,30 70 F0 00 00 00 00`, with its newline. */
  const MosiLine: string := "0" + "," + SampleTime + "." + "00000000000000000000" + "," + MosiPayload + "\n"
  /** `0,2149586100.0,FF FF FF FF FF FF FF`, with its newline. */
  const MisoLine: string := "0" + "," + SampleTime + "." + "0" + "," + MisoPayload + "\n"

  /** The decimal rendering of the sample timestamp. */
  lemma SampleTimestampString()
    ensures IntToString(2149586100) == SampleTime
  {
    var s := SampleTime;
    assert DigitsValue(s[..1]) == 2;
    assert s[..2][..1] == s[..1];
    assert DigitsValue(s[..2]) == 21;
    assert s[..3][..2] == s[..2];
    assert DigitsValue(s[..3]) == 214;
    assert s[..4][..3] == s[..3];
    assert DigitsValue(s[..4]) == 2149;
    assert s[..5][..4] == s[..4];
    assert DigitsValue(s[..5]) == 21495;
    assert s[..6][..5] == s[..5];
    assert DigitsValue(s[..6]) == 214958;
    assert s[..7][..6] == s[..6];
    assert DigitsValue(s[..7]) == 2149586;
    assert s[..8][..7] == s[..7];
    assert DigitsValue(s[..8]) == 21495861;
    assert s[..9][..8] == s[..8];
    assert DigitsValue(s[..9]) == 214958610;
    assert s[..9] == s[..|s| - 1];
    assert DigitsValue(s) == 2149586100;
    NatToStringOfDigits(s);
  }

  /** The sample MOSI data line reads as transfer 0 at 2149586100 ns with its payload verbatim. */
  lemma SampleMosiLineParses()
    ensures ParseLine(MosiLine) == Some(Record(0, 2149586100, MosiPayload))
  {
    var r, fraction := Record(0, 2149586100, MosiPayload), "00000000000000000000";
    assert ',' !in r.data;
    assert AllDigits(fraction);
    ParseLineRoundTrip(r, fraction, "\n");
    SampleTimestampString();
    assert IntToString(0) == "0";
    assert ExportLine(r, fraction) + "\n" == MosiLine;
  }

  /** The sample MISO data line reads as transfer 0 at 2149586100 ns with its payload verbatim. */
  lemma SampleMisoLineParses()
    ensures ParseLine(MisoLine) == Some(Record(0, 2149586100, MisoPayload))
  {
    var r := Record(0, 2149586100, MisoPayload);
    SampleTimestampString();
    assert IntToString(0) == "0";
    assert ',' !in r.data;
    ParseLineRoundTrip(r, "0", "\n");
  }

  /** A data line with only two comma-separated fields does not parse. */
  lemma TwoFieldLineFails()
    ensures ParseLine("0,2149586100.0\n") == None
  {
    var s := "0,2149586100.0";
    assert "" + s + "\n" == "0,2149586100.0\n";
    assert Bordered(s);
    StripPadded("", s, "\n");
    assert "0" + [','] + "2149586100.0" == s;
    assert forall k :: 0 <= k < |s| && k != 1 ==> s[k] != ',';
    SplitJoin(["0", "2149586100.0"], ',');
    JoinTwo("0", "2149586100.0", ',');
  }

  /** A header naming the MOSI line is a MOSI header. */
  lemma MosiHeaderClassifies()
    ensures Classify(MosiHeader) == MosiData
  {
    assert OccursAt("MOSI", MosiHeader, 19);
    ClassifyOccurs(MosiHeader);
  }

  /** A header naming the MISO line, and not the MOSI line, is a MISO header. */
  lemma MisoHeaderClassifies()
    ensures Classify(MisoHeader) == MisoData
  {
    var h := MisoHeader;
    assert h[19..23] == "MISO";
    assert OccursAt("MISO", h, 19);
    assert forall k :: 0 <= k < |h| && h[k] == 'M' ==> k == 19;
    forall i: nat
      ensures !OccursAt("MOSI", h, i)
    {
      if i + 4 <= |h| {
        assert h[i..i + 4][0] == h[i] && h[i..i + 4][1] == h[i + 1];
      }
    }
    ClassifyOccurs(h);
  }

  /** A header naming neither data line leaves the file unclassified. */
  lemma BareHeaderUnclassified()
    ensures Classify(BareHeader) == Unclassified
  {
    var h := BareHeader;
    assert forall k :: 0 <= k < |h| ==> h[k] != 'M';
    forall i: nat
      ensures !OccursAt("MOSI", h, i) && !OccursAt("MISO", h, i)
    {
      if i + 4 <= |h| {
        assert h[i..i + 4][0] == h[i];
      }
    }
    ClassifyOccurs(h);
  }

  /** The report row of the sample MOSI record: id in 8 columns, timestamp in 31. */
  lemma SampleMosiRow()
    ensures RecordLine(Record(0, 2149586100, MosiPayload), Mosi, 2149586100)
         == "       0" + " - MOSI - " + Spaces(21) + SampleTime + " - " + MosiPayload + "\n"
  {
    SampleTimestampString();
    assert IntToString(0) == "0";
    assert Spaces(7) + "0" == "       0";
    assert " - " + Tag(Mosi) + " - " == " - MOSI - ";
  }

  /** The report row of the sample MISO record: id in 8 columns, timestamp in 31. */
  lemma SampleMisoRow()
    ensures RecordLine(Record(0, 2149586100, MisoPayload), Miso, 2149586100)
         == "       0" + " - MISO - " + Spaces(21) + SampleTime + " - " + MisoPayload + "\n"
  {
    SampleTimestampString();
    assert IntToString(0) == "0";
    assert Spaces(7) + "0" == "       0";
    assert " - " + Tag(Miso) + " - " == " - MISO - ";
  }

  /**
   * The sample exports merged in absolute mode: the header, then the MOSI
   * row, the MISO row and a blank line, and the merge finishes.
   */
  lemma SampleMergeAbsolute()
    ensures MergeOutcome("mosi.txt", "miso.txt", [MosiHeader, MosiLine], [MisoHeader, MisoLine], false)
         == Outcome(Header("mosi.txt", "miso.txt", false)
                    + [ "       0" + " - MOSI - " + Spaces(21) + SampleTime + " - " + MosiPayload + "\n",
                        "       0" + " - MISO - " + Spaces(21) + SampleTime + " - " + MisoPayload + "\n",
                        "\n" ],
                    Finished)
  {
    SampleMosiLineParses();
    SampleMisoLineParses();
    OnePairAbsolute("mosi.txt", "miso.txt", MosiHeader, MosiLine, MisoHeader, MisoLine,
                    Record(0, 2149586100, MosiPayload), Record(0, 2149586100, MisoPayload));
    SampleMosiRow();
    SampleMisoRow();
  }

  /** Two exports of one data line each, both with id 0, merge in absolute mode to one pair of rows. */
  lemma OnePairAbsolute(mosiPath: string, misoPath: string, mosiHeader: string, mosiLine: string,
                        misoHeader: string, misoLine: string, rm: Record, rs: Record)
    requires ParseLine(mosiLine) == Some(rm) && ParseLine(misoLine) == Some(rs)
    requires rm.transferId == 0 && rs.transferId == 0 && |mosiLine| > 0 && |misoLine| > 0
    ensures MergeOutcome(mosiPath, misoPath, [mosiHeader, mosiLine], [misoHeader, misoLine], false)
         == Outcome(Header(mosiPath, misoPath, false)
                    + [RecordLine(rm, Mosi, rm.timestamp), RecordLine(rs, Miso, rs.timestamp), "\n"],
                    Finished)
  {
    var mosi, miso := [mosiHeader, mosiLine], [misoHeader, misoLine];
    assert ReadLine(mosi, 1) == mosiLine && ReadLine(miso, 1) == misoLine;
    assert ReadLine(mosi, 2) == "";
    var rows := [RecordLine(rm, Mosi, rm.timestamp), RecordLine(rs, Miso, rs.timestamp), "\n"];
    assert PairStep(false, mosiLine, misoLine, None, None) == Emit(rows, rm.timestamp, rs.timestamp);
    assert MergeFrom(false, mosi, miso, 2, Some(rm.timestamp), Some(rs.timestamp)) == Outcome([], Finished);
    assert MergeFrom(false, mosi, miso, 1, None, None) == Outcome(rows + [], Finished);
    assert rows + [] == rows;
  }
}
