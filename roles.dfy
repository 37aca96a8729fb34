/**
 * `find_mosi_miso_files`: which export carries which SPI data line, decided
 * by a substring test on each file's first (header) line.
 */
module Roles {
  import opened Wrappers
  import opened Text

  datatype Role = MosiData | MisoData | Unclassified

  /** A candidate export: its path and the first line read from it. */
  datatype ExportFile = ExportFile(name: string, firstLine: string)

  /** The role of an export, from the data line its header line names. */
  function Classify(firstLine: string): Role {
    if Contains(firstLine, "MOSI") then MosiData
    else if Contains(firstLine, "MISO") then MisoData
    else Unclassified
  }

  /** `'MOSI'` is tested first, so a header naming both lines is a MOSI header. */
  lemma ClassifyOccurs(firstLine: string)
    ensures var r := Classify(firstLine);
      && (r == MosiData <==> Occurs("MOSI", firstLine))
      && (r == MisoData <==> !Occurs("MOSI", firstLine) && Occurs("MISO", firstLine))
      && (r == Unclassified <==> !Occurs("MOSI", firstLine) && !Occurs("MISO", firstLine))
  {
    ContainsOccurs(firstLine, "MOSI");
    ContainsOccurs(firstLine, "MISO");
  }

  /** The name of the last file of `files` classified as `role`, if any. */
  function LastOfRole(files: seq<ExportFile>, role: Role): Option<string>
  {
    if |files| == 0 then None
    else if Classify(files[|files| - 1].firstLine) == role then Some(files[|files| - 1].name)
    else LastOfRole(files[..|files| - 1], role)
  }

  /**
   * The loop of `find_mosi_miso_files`: each file overwrites the slot of its
   * role, so each slot ends up with the last file of that role, or `None`.
   */
  method FindMosiMisoFiles(files: seq<ExportFile>) returns (misoFile: Option<string>, mosiFile: Option<string>)
    ensures misoFile == LastOfRole(files, MisoData)
    ensures mosiFile == LastOfRole(files, MosiData)
  {
    misoFile, mosiFile := None, None;
    for i := 0 to |files|
      invariant misoFile == LastOfRole(files[..i], MisoData)
      invariant mosiFile == LastOfRole(files[..i], MosiData)
    {
      assert files[..i + 1][..i] == files[..i];
      var firstLine := files[i].firstLine;
      if Contains(firstLine, "MOSI") {
        mosiFile := Some(files[i].name);
      } else if Contains(firstLine, "MISO") {
        misoFile := Some(files[i].name);
      }
    }
    assert files[..|files|] == files;
  }

  /**
   * `LastOfRole` finds a file exactly when some file has the role, and what it
   * finds is a file of that role that no later file of the same role follows.
   */
  lemma {:induction false} LastOfRoleFinds(files: seq<ExportFile>, role: Role)
    ensures LastOfRole(files, role).Some? <==> exists i :: 0 <= i < |files| && Classify(files[i].firstLine) == role
    ensures LastOfRole(files, role).Some? ==>
      exists i :: 0 <= i < |files| && Classify(files[i].firstLine) == role
        && LastOfRole(files, role).value == files[i].name
        && forall j :: i < j < |files| ==> Classify(files[j].firstLine) != role
  {
    if |files| > 0 {
      var last := |files| - 1;
      var init := files[..last];
      LastOfRoleFinds(init, role);
      assert forall i :: 0 <= i < last ==> init[i] == files[i];
      if Classify(files[last].firstLine) == role {
        assert LastOfRole(files, role) == Some(files[last].name);
      } else if LastOfRole(init, role).Some? {
        var i :| 0 <= i < last && Classify(init[i].firstLine) == role
          && LastOfRole(init, role).value == init[i].name
          && forall j :: i < j < last ==> Classify(init[j].firstLine) != role;
        assert files[i] == init[i];
      } else {
        assert LastOfRole(files, role) == None;
      }
    }
  }
}
