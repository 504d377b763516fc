/** The console runner's `NadeoIni.Parse`: reads the last `UserSubDir=` and
    `UserDir=` values, with "TmForever" and null as defaults, and throws when
    neither key appears. The file's lines are the input. */
module ConsoleNadeoIni {
  import opened Common
  import opened IniLines

  const DefaultUserSubDir: string := "TmForever"
  const NoDirsMessage: string := "No UserSubDir or UserDir found."

  /** The parsed settings. */
  datatype NadeoIni = NadeoIni(userSubDir: string, userDir: Option<string>)

  /** `NadeoIni.Parse` over the lines of the file. */
  method Parse(lines: seq<string>) returns (r: Result<NadeoIni>)
    ensures r.Err? <==> LastValue(lines, UserSubDirKey).None? && LastValue(lines, UserDirKey).None?
    ensures r.Err? ==> r.msg == NoDirsMessage
    ensures r.Ok? ==> r.value.userSubDir == LastValue(lines, UserSubDirKey).GetOr(DefaultUserSubDir)
    ensures r.Ok? ==> r.value.userDir == LastValue(lines, UserDirKey)
  {
    var anyOfDirs := false;
    var userSubDir := DefaultUserSubDir;
    var userDir: Option<string> := None;
    for i := 0 to |lines|
      invariant anyOfDirs <==> LastValue(lines[..i], UserSubDirKey).Some? || LastValue(lines[..i], UserDirKey).Some?
      invariant userSubDir == LastValue(lines[..i], UserSubDirKey).GetOr(DefaultUserSubDir)
      invariant userDir == LastValue(lines[..i], UserDirKey)
    {
      var line := lines[i];
      assert lines[..i + 1] == lines[..i] + [line];
      LastValueStep(lines[..i], line, UserSubDirKey);
      LastValueStep(lines[..i], line, UserDirKey);
      if |line| == 0 || line[0] == '#' || line[0] == ';' || line[0] == '[' {
        continue;
      }
      if StartsWith(line, UserSubDirKey) {
        userSubDir := line[11..];
        anyOfDirs := true;
      }
      if StartsWith(line, UserDirKey) {
        userDir := Some(line[8..]);
        anyOfDirs := true;
      }
    }
    assert lines[..|lines|] == lines;
    if !anyOfDirs {
      return Err(NoDirsMessage);
    }
    return Ok(NadeoIni(userSubDir, userDir));
  }

  /** A file without any key line is rejected, whatever comments, sections
      or other settings it holds. */
  lemma NoKeyLineThrows(lines: seq<string>)
    requires forall i :: 0 <= i < |lines| ==> !StartsWith(lines[i], UserSubDirKey) && !StartsWith(lines[i], UserDirKey)
    ensures LastValue(lines, UserSubDirKey).None? && LastValue(lines, UserDirKey).None?
  {
    LastValueIsLastKeyLine(lines, UserSubDirKey);
    LastValueIsLastKeyLine(lines, UserDirKey);
  }
}
