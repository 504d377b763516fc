/** The command-line installer's `NadeoIni.Parse`: reads the last
    `UserSubDir=` and `UserDir=` values and resolves the user data directory,
    preferring a non-blank `UserDir` (with "{userdocs}" expanded) over
    "My Documents" combined with `UserSubDir`. The file's lines and the
    documents folder are the inputs. */
module CliNadeoIni {
  import opened Common
  import opened IniLines

  const DefaultUserSubDir: string := "TmForever"
  const UserDocsToken: string := "{userdocs}"
  const InvalidCombinationMessage: string := "Nadeo.ini contains invalid UserDir/UserSubDir combination."

  /** `s.Replace(pattern, replacement)`: every occurrence of `pattern`,
      scanning left to right without overlap, becomes `replacement`. */
  function ReplaceAll(s: string, pattern: string, replacement: string): (r: string)
    requires pattern != []
    ensures replacement == pattern ==> r == s
    ensures |replacement| == |pattern| ==> |r| == |s|
    decreases |s|
  {
    if |s| < |pattern| then s
    else if s[..|pattern|] == pattern then replacement + ReplaceAll(s[|pattern|..], pattern, replacement)
    else [s[0]] + ReplaceAll(s[1..], pattern, replacement)
  }

  /** `pattern` occurs in `s` at `i`. */
  predicate OccursAt(s: string, pattern: string, i: nat) {
    i + |pattern| <= |s| && s[i..i + |pattern|] == pattern
  }

  /** A string without the pattern comes back unchanged. */
  lemma {:induction false} ReplaceAllWithoutPattern(s: string, pattern: string, replacement: string)
    requires pattern != []
    requires forall i :: 0 <= i <= |s| ==> !OccursAt(s, pattern, i)
    ensures ReplaceAll(s, pattern, replacement) == s
    decreases |s|
  {
    if |s| >= |pattern| {
      assert !OccursAt(s, pattern, 0);
      assert s[0..|pattern|] == s[..|pattern|];
      forall i | 0 <= i <= |s[1..]| ensures !OccursAt(s[1..], pattern, i) {
        assert !OccursAt(s, pattern, i + 1);
        if i + |pattern| <= |s[1..]| {
          assert s[1..][i..i + |pattern|] == s[i + 1..i + 1 + |pattern|];
        }
      }
      ReplaceAllWithoutPattern(s[1..], pattern, replacement);
    }
  }

  /** A leading occurrence is replaced and the scan goes on after it. */
  lemma ReplaceAllLeading(pattern: string, rest: string, replacement: string)
    requires pattern != []
    ensures ReplaceAll(pattern + rest, pattern, replacement) == replacement + ReplaceAll(rest, pattern, replacement)
  {
    assert (pattern + rest)[..|pattern|] == pattern;
    assert (pattern + rest)[|pattern|..] == rest;
  }

  /** Where the pattern does not start the text, its first unit is copied. */
  lemma ReplaceAllCopiesFirst(s: string, pattern: string, replacement: string)
    requires pattern != [] && s != []
    requires !OccursAt(s, pattern, 0)
    ensures ReplaceAll(s, pattern, replacement) == [s[0]] + ReplaceAll(s[1..], pattern, replacement)
  {
    if |s| >= |pattern| {
      assert s[0..|pattern|] == s[..|pattern|];
    }
  }

  /** An occurrence in the text without its first unit is one a unit later. */
  lemma OccursAtShift(s: string, pattern: string, i: nat)
    requires s != []
    ensures OccursAt(s[1..], pattern, i) <==> OccursAt(s, pattern, i + 1)
  {
    if i + |pattern| <= |s[1..]| {
      assert s[1..][i..i + |pattern|] == s[i + 1..i + 1 + |pattern|];
    }
  }

  /** The leftmost occurrence is replaced and the scan resumes after it:
      text before it is copied, and the rest is replaced on its own. */
  lemma {:induction false} ReplaceAllSplit(a: string, pattern: string, b: string, replacement: string)
    requires pattern != []
    requires forall i :: 0 <= i < |a| ==> !OccursAt(a + pattern + b, pattern, i)
    ensures ReplaceAll(a + pattern + b, pattern, replacement) == a + replacement + ReplaceAll(b, pattern, replacement)
    decreases |a|
  {
    var s := a + pattern + b;
    if a == [] {
      assert s == pattern + b;
      ReplaceAllLeading(pattern, b, replacement);
    } else {
      var a' := a[1..];
      calc {
        ReplaceAll(s, pattern, replacement);
        == { ReplaceAllCopiesFirst(s, pattern, replacement); }
        [s[0]] + ReplaceAll(s[1..], pattern, replacement);
        == { assert s[1..] == a' + pattern + b; }
        [a[0]] + ReplaceAll(a' + pattern + b, pattern, replacement);
        == { forall i | 0 <= i < |a'| ensures !OccursAt(a' + pattern + b, pattern, i) {
               assert s[1..] == a' + pattern + b;
               OccursAtShift(s, pattern, i);
             }
             ReplaceAllSplit(a', pattern, b, replacement); }
        [a[0]] + (a' + replacement + ReplaceAll(b, pattern, replacement));
        == { assert [a[0]] + a' == a; }
        a + replacement + ReplaceAll(b, pattern, replacement);
      }
    }
  }

  /** The three-way choice of lines 34-45, given the values the loop ends
      with. */
  function ResolveUserDataDir(userSubDir: string, userDir: Option<string>, myDocs: string): (r: Result<string>)
    ensures r.Err? <==> IsNullOrWhiteSpace(userDir) && IsNullOrWhiteSpace(Some(userSubDir))
    ensures r.Err? ==> r.msg == InvalidCombinationMessage
    ensures r.Ok? && IsNullOrWhiteSpace(userDir) ==> r.value == Combine(myDocs, userSubDir)
  {
    if !IsNullOrWhiteSpace(userDir) then Ok(ReplaceAll(userDir.value, UserDocsToken, myDocs))
    else if !IsNullOrWhiteSpace(Some(userSubDir)) then Ok(Combine(myDocs, userSubDir))
    else Err(InvalidCombinationMessage)
  }

  /** What the parse computes from the lines of the file. */
  function UserDataDir(lines: seq<string>, myDocs: string): Result<string> {
    ResolveUserDataDir(LastValue(lines, UserSubDirKey).GetOr(DefaultUserSubDir), LastValue(lines, UserDirKey), myDocs)
  }

  /** `NadeoIni.Parse` over the lines of the file, with the documents folder
      as a parameter; the result is `UserDataDir`. */
  method Parse(lines: seq<string>, myDocs: string) returns (r: Result<string>)
    ensures r == UserDataDir(lines, myDocs)
  {
    var userSubDir := DefaultUserSubDir;
    var userDir: Option<string> := None;
    for i := 0 to |lines|
      invariant userSubDir == LastValue(lines[..i], UserSubDirKey).GetOr(DefaultUserSubDir)
      invariant userDir == LastValue(lines[..i], UserDirKey)
    {
      var line := lines[i];
      assert lines[..i + 1] == lines[..i] + [line];
      LastValueStep(lines[..i], line, UserSubDirKey);
      LastValueStep(lines[..i], line, UserDirKey);
      if |line| == 0 || line[0] == '#' || line[0] == ';' || line[0] == '[' {
        continue;
      }
      if StartsWith(line, UserSubDirKey) {
        userSubDir := line[11..];
      }
      if StartsWith(line, UserDirKey) {
        userDir := Some(line[8..]);
      }
    }
    assert lines[..|lines|] == lines;
    if !IsNullOrWhiteSpace(userDir) {
      r := Ok(ReplaceAll(userDir.value, UserDocsToken, myDocs));
    } else if !IsNullOrWhiteSpace(Some(userSubDir)) {
      r := Ok(Combine(myDocs, userSubDir));
    } else {
      r := Err(InvalidCombinationMessage);
    }
  }

  // ---------------------------------------------------------------------
  // Properties of the resolution
  // ---------------------------------------------------------------------

  /** A file without key lines is not an error: it resolves to "TmForever"
      under the documents folder. */
  lemma NoKeyLinesUseDefault(lines: seq<string>, myDocs: string)
    requires forall i :: 0 <= i < |lines| ==> !StartsWith(lines[i], UserSubDirKey) && !StartsWith(lines[i], UserDirKey)
    ensures UserDataDir(lines, myDocs) == Ok(Combine(myDocs, DefaultUserSubDir))
  {
    LastValueIsLastKeyLine(lines, UserSubDirKey);
    LastValueIsLastKeyLine(lines, UserDirKey);
    assert !IsWhiteSpace(DefaultUserSubDir[0]);
  }

  /** The parse throws exactly when `UserDir` is absent or blank and the
      last `UserSubDir=` line holds a blank value: the default "TmForever"
      never fails. */
  lemma InvalidCombinationExactly(lines: seq<string>, myDocs: string)
    ensures UserDataDir(lines, myDocs).Err? <==>
              IsNullOrWhiteSpace(LastValue(lines, UserDirKey)) &&
              LastValue(lines, UserSubDirKey).Some? && IsNullOrWhiteSpace(LastValue(lines, UserSubDirKey))
    ensures UserDataDir(lines, myDocs).Err? ==> UserDataDir(lines, myDocs).msg == InvalidCombinationMessage
  {
    assert !IsWhiteSpace(DefaultUserSubDir[0]);
  }

  /** The last `UserDir=` line wins when its value is not blank, whatever
      `UserSubDir` says: "{userdocs}" in it becomes the documents folder. */
  lemma UserDirTakesPrecedence(lines: seq<string>, i: nat, myDocs: string)
    requires i < |lines| && StartsWith(lines[i], UserDirKey)
    requires forall j :: i < j < |lines| ==> !StartsWith(lines[j], UserDirKey)
    requires !IsNullOrWhiteSpace(Some(lines[i][|UserDirKey|..]))
    ensures UserDataDir(lines, myDocs) == Ok(ReplaceAll(lines[i][|UserDirKey|..], UserDocsToken, myDocs))
  {
    LastValueIsLastKeyLine(lines, UserDirKey);
    var k :| 0 <= k < |lines| && StartsWith(lines[k], UserDirKey) &&
             LastValue(lines, UserDirKey).value == lines[k][|UserDirKey|..] &&
             forall j :: k < j < |lines| ==> !StartsWith(lines[j], UserDirKey);
    assert k == i;
  }

  /** A `UserDir` of "{userdocs}" followed by a path holding no '{' (as in
      "UserDir={userdocs}/TrackMania") resolves to that path under the
      documents folder. */
  lemma UserDocsPrefixExpands(rest: string, myDocs: string)
    requires '{' !in rest
    ensures UserDataDir([UserDirKey + UserDocsToken + rest], myDocs) == Ok(myDocs + rest)
  {
    var line := UserDirKey + UserDocsToken + rest;
    var lines: seq<string> := [line];
    assert lines[..0] == [];
    assert StartsWith(line, UserDirKey);
    assert line[|UserDirKey|..] == UserDocsToken + rest;
    assert !IsWhiteSpace(line[|UserDirKey|]);
    ReplaceAllLeading(UserDocsToken, rest, myDocs);
    forall i | 0 <= i <= |rest| ensures !OccursAt(rest, UserDocsToken, i) {
      if i + |UserDocsToken| <= |rest| {
        assert rest[i] in rest;
        assert rest[i..i + |UserDocsToken|][0] == rest[i];
      }
    }
    ReplaceAllWithoutPattern(rest, UserDocsToken, myDocs);
  }
}
