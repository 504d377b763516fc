/** The line rules the two `NadeoIni.Parse` versions share: comment and
    section lines are skipped, and a `Key=` line sets that key to the rest of
    the line, the last such line winning. */
module IniLines {
  import opened Common

  const UserSubDirKey: string := "UserSubDir="
  const UserDirKey: string := "UserDir="

  /** An empty line, or one that starts with '#', ';' or '['. */
  predicate IsSkipped(line: string) {
    |line| == 0 || line[0] == '#' || line[0] == ';' || line[0] == '['
  }

  /** The key lines a parse reacts to: not skipped, and starting with `key`. */
  predicate SetsKey(line: string, key: string) {
    !IsSkipped(line) && StartsWith(line, key)
  }

  /** The value the parse loop holds for `key` after `lines`: the text after
      the key on the last line that sets it, `None` when no line does. */
  function LastValue(lines: seq<string>, key: string): (r: Option<string>)
  {
    if lines == [] then None
    else
      var line := lines[|lines| - 1];
      if SetsKey(line, key) then Some(line[|key|..])
      else LastValue(lines[..|lines| - 1], key)
  }

  /** One step of the parse loop. */
  lemma LastValueStep(lines: seq<string>, line: string, key: string)
    ensures LastValue(lines + [line], key) ==
            if SetsKey(line, key) then Some(line[|key|..]) else LastValue(lines, key)
  {
    assert (lines + [line])[..|lines|] == lines;
  }

  /** The last line that starts with `key` decides; the skip rule never hides
      a key line, because neither key starts with '#', ';' or '['. */
  lemma {:induction false} LastValueIsLastKeyLine(lines: seq<string>, key: string)
    requires key == UserSubDirKey || key == UserDirKey
    ensures LastValue(lines, key).None? <==> forall i :: 0 <= i < |lines| ==> !StartsWith(lines[i], key)
    ensures LastValue(lines, key).Some? ==>
              exists i :: 0 <= i < |lines| && StartsWith(lines[i], key) &&
                          LastValue(lines, key).value == lines[i][|key|..] &&
                          forall j :: i < j < |lines| ==> !StartsWith(lines[j], key)
    decreases |lines|
  {
    if lines != [] {
      var n := |lines| - 1;
      var init := lines[..n];
      var line := lines[n];
      LastValueIsLastKeyLine(init, key);
      assert StartsWith(line, key) ==> line[0] == key[0];
      assert SetsKey(line, key) <==> StartsWith(line, key);
      if !StartsWith(line, key) {
        forall i | 0 <= i < n ensures lines[i] == init[i] {
        }
        if LastValue(init, key).Some? {
          var i :| 0 <= i < n && StartsWith(init[i], key) && LastValue(init, key).value == init[i][|key|..] &&
                   forall j :: i < j < n ==> !StartsWith(init[j], key);
          assert forall j :: i < j < |lines| ==> !StartsWith(lines[j], key);
        }
      }
    }
  }

  /** A key line is never mistaken for the other key. */
  lemma KeysAreExclusive(line: string)
    ensures !(StartsWith(line, UserSubDirKey) && StartsWith(line, UserDirKey))
  {
    if StartsWith(line, UserSubDirKey) {
      assert line[4] == 'S';
    }
  }
}
