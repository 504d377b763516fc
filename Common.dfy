/** Shared vocabulary: optional values, results carrying an exception message,
    and the few .NET string and path operations the rest of the model needs. */
module Common {

  /** A value that may be missing: `None` stands for a .NET `null`. */
  datatype Option<+T> = None | Some(value: T) {
    function GetOr(default: T): (r: T)
      ensures Some? ==> r == value
      ensures None? ==> r == default
    {
      match this
      case Some(v) => v
      case None => default
    }
  }

  /** The outcome of an operation that either returns a value or throws an
      exception whose message is `msg`. */
  datatype Result<+T> = Ok(value: T) | Err(msg: string)

  predicate StartsWith(s: string, prefix: string) {
    |prefix| <= |s| && s[..|prefix|] == prefix
  }

  predicate EndsWith(s: string, suffix: string) {
    |suffix| <= |s| && s[|s| - |suffix|..] == suffix
  }

  /** `char.IsWhiteSpace`: the Unicode space, line and paragraph separators
      together with U+0009..U+000D and U+0085. */
  predicate IsWhiteSpace(c: char) {
    || c == ' ' || ('\t' <= c <= '\r') || c == '\U{0085}' || c == '\U{00A0}'
    || c == '\U{1680}' || ('\U{2000}' <= c <= '\U{200A}') || c == '\U{2028}'
    || c == '\U{2029}' || c == '\U{202F}' || c == '\U{205F}' || c == '\U{3000}'
  }

  /** `string.IsNullOrWhiteSpace`: null and "" are blank, and one character
      that is not white space makes a string non-blank, while a string of
      white space only is blank. */
  function IsNullOrWhiteSpace(s: Option<string>): (r: bool)
    ensures s.None? ==> r
    ensures s == Some([]) ==> r
    ensures s.Some? && (exists i :: 0 <= i < |s.value| && !IsWhiteSpace(s.value[i])) ==> !r
    ensures s.Some? && (forall i :: 0 <= i < |s.value| ==> IsWhiteSpace(s.value[i])) ==> r
  {
    s.None? || forall i :: 0 <= i < |s.value| ==> IsWhiteSpace(s.value[i])
  }

  function LowerChar(c: char): (r: char)
    ensures 'A' <= c <= 'Z' ==> 'a' <= r <= 'z'
    ensures !('A' <= c <= 'Z') ==> r == c
  {
    if 'A' <= c <= 'Z' then (c as int + 32) as char else c
  }

  predicate HasNoUpper(s: string) {
    forall i :: 0 <= i < |s| ==> !('A' <= s[i] <= 'Z')
  }

  /** `ToLowerInvariant` restricted to ASCII letters. */
  function Lower(s: string): string {
    seq(|s|, i requires 0 <= i < |s| => LowerChar(s[i]))
  }

  /** Every upper-case ASCII letter becomes its lower-case letter, every
      other character is kept, and no upper-case letter is left. */
  lemma LowerMapsEachChar(s: string)
    ensures |Lower(s)| == |s| && HasNoUpper(Lower(s))
    ensures forall i :: 0 <= i < |s| ==> Lower(s)[i] == LowerChar(s[i])
  {
  }

  /** The directory separator of the model: paths use '/'. */
  const Separator: char := '/'

  /** `Path.Combine(path1, path2)` with '/' as the only separator. */
  function Combine(path1: string, path2: string): (r: string)
    ensures path1 == [] ==> r == path2
    ensures path2 == [] ==> r == path1
    ensures path2 != [] && path2[0] == Separator ==> r == path2
    ensures path1 != [] && path2 != [] && path2[0] != Separator && path1[|path1| - 1] == Separator
            ==> r == path1 + path2
    ensures path1 != [] && path2 != [] && path2[0] != Separator && path1[|path1| - 1] != Separator
            ==> r == path1 + [Separator] + path2
  {
    if path1 == [] then path2
    else if path2 == [] then path1
    else if path2[0] == Separator then path2
    else if path1[|path1| - 1] == Separator then path1 + path2
    else path1 + [Separator] + path2
  }

  /** `Path.GetFileName`: everything after the last separator. */
  function GetFileName(path: string): (r: string)
    ensures Separator !in r
    ensures |r| <= |path| && r == path[|path| - |r|..]
    ensures Separator !in path ==> r == path
    decreases |path|
  {
    if path == [] then []
    else if path[|path| - 1] == Separator then []
    else GetFileName(path[..|path| - 1]) + [path[|path| - 1]]
  }

  /** Whatever directory part precedes a base name, `GetFileName` discards it. */
  lemma {:induction false} GetFileNameDropsDirectory(dir: string, name: string)
    requires Separator !in name
    ensures GetFileName(dir + [Separator] + name) == name
    decreases |name|
  {
    if name == [] {
    } else {
      var init := name[..|name| - 1];
      assert dir + [Separator] + name == (dir + [Separator] + init) + [name[|name| - 1]];
      assert (dir + [Separator] + name)[..|dir + [Separator] + name| - 1] == dir + [Separator] + init;
      GetFileNameDropsDirectory(dir, init);
      assert init + [name[|name| - 1]] == name;
    }
  }
}
