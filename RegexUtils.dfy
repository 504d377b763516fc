/** `RegexUtils`: PascalCase to kebab-case through the pattern
    `(?<!^)([A-Z][a-z]|(?<=[a-z])[A-Z0-9])` replaced by "-$1", then trimmed
    and lower-cased; and the replacement of every UTF-16 code unit outside
    U+0000..U+00FF by '_'. Strings here are what .NET strings are: sequences
    of UTF-16 code units. */
module RegexUtils {

  /** A UTF-16 code unit, the element of a .NET string. */
  newtype CodeUnit = x: int | 0 <= x < 0x1_0000

  type Utf16String = seq<CodeUnit>

  const Hyphen: CodeUnit := 0x2D
  const Underscore: CodeUnit := 0x5F

  /** The UTF-16 encoding of a string of Unicode scalar values: one unit
      below U+10000, a surrogate pair above. */
  function EncodeChar(c: char): (units: Utf16String)
    ensures 1 <= |units| <= 2
  {
    if c as int < 0x1_0000 then [c as int as CodeUnit]
    else
      var v := c as int - 0x1_0000;
      [(0xD800 + v / 0x400) as CodeUnit, (0xDC00 + v % 0x400) as CodeUnit]
  }

  function Utf16(s: string): Utf16String {
    if s == [] then [] else EncodeChar(s[0]) + Utf16(s[1..])
  }

  // ---------------------------------------------------------------------
  // GetExtendedAsciiValid (lines 10-11 and 18-21)
  // ---------------------------------------------------------------------

  predicate IsLatin1(u: CodeUnit) {
    u <= 0xFF
  }

  /** Every unit the class `[^\u0000-\u00FF]` matches becomes "_". */
  function ExtendedAsciiValid(s: Utf16String): (r: Utf16String)
    ensures |r| == |s|
    ensures forall i :: 0 <= i < |s| ==> IsLatin1(r[i])
    ensures forall i :: 0 <= i < |s| && IsLatin1(s[i]) ==> r[i] == s[i]
    ensures forall i :: 0 <= i < |s| && !IsLatin1(s[i]) ==> r[i] == Underscore
  {
    if s == [] then []
    else (if IsLatin1(s[0]) then [s[0]] else [Underscore]) + ExtendedAsciiValid(s[1..])
  }

  /** Applying it twice is applying it once. */
  lemma ExtendedAsciiValidIdempotent(s: Utf16String)
    ensures ExtendedAsciiValid(ExtendedAsciiValid(s)) == ExtendedAsciiValid(s)
  {
    var r := ExtendedAsciiValid(s);
    var rr := ExtendedAsciiValid(r);
    assert forall i :: 0 <= i < |r| ==> rr[i] == r[i];
  }

  /** A string comes back unchanged exactly when it is all Latin-1. */
  lemma ExtendedAsciiValidFixedPoints(s: Utf16String)
    ensures ExtendedAsciiValid(s) == s <==> forall i :: 0 <= i < |s| ==> IsLatin1(s[i])
  {
    var r := ExtendedAsciiValid(s);
    if forall i :: 0 <= i < |s| ==> IsLatin1(s[i]) {
      assert forall i :: 0 <= i < |s| ==> r[i] == s[i];
    }
  }

  /** A character outside the Basic Multilingual Plane is two code units,
      and each becomes '_'. */
  lemma AstralCharGivesTwoUnderscores(c: char)
    requires c as int >= 0x1_0000
    ensures ExtendedAsciiValid(Utf16([c])) == [Underscore, Underscore]
  {
    assert Utf16([c]) == EncodeChar(c) + Utf16([]);
  }

  // ---------------------------------------------------------------------
  // PascalCaseToKebabCase (lines 7-8 and 13-16)
  // ---------------------------------------------------------------------

  predicate IsUpper(u: CodeUnit) { 0x41 <= u <= 0x5A }
  predicate IsLower(u: CodeUnit) { 0x61 <= u <= 0x7A }
  predicate IsDigit(u: CodeUnit) { 0x30 <= u <= 0x39 }

  /** The first alternative `[A-Z][a-z]` matches at `p`. */
  predicate UpperThenLower(s: Utf16String, p: nat) {
    p + 1 < |s| && IsUpper(s[p]) && IsLower(s[p + 1])
  }

  /** The second alternative `(?<=[a-z])[A-Z0-9]` matches at `p`. */
  predicate AfterLower(s: Utf16String, p: nat) {
    0 < p < |s| && IsLower(s[p - 1]) && (IsUpper(s[p]) || IsDigit(s[p]))
  }

  /** The per-position rule: a hyphen goes before position `i > 0` when an
      upper-case letter there is followed by a lower-case one, or when an
      upper-case letter or digit there follows a lower-case letter. */
  predicate HyphenBefore(s: Utf16String, i: nat) {
    i > 0 && (UpperThenLower(s, i) || AfterLower(s, i))
  }

  /** The input from `p` on with a hyphen inserted wherever the rule says. */
  function Hyphenated(s: Utf16String, p: nat): Utf16String
    decreases |s| - p
  {
    if p >= |s| then []
    else (if HyphenBefore(s, p) then [Hyphen, s[p]] else [s[p]]) + Hyphenated(s, p + 1)
  }

  /** `Regex.Replace` from position `p` on: where the pattern matches (never
      at the start, `(?<!^)`, and the first alternative first) the match is
      written after "-" and the scan resumes behind it; elsewhere the unit is
      copied. Lookbehind reads the input, not the output. The scan inserts
      exactly the hyphens of the per-position rule: skipping the second unit
      of a `[A-Z][a-z]` match loses nothing, as a lower-case letter never
      starts a match. */
  function ReplaceFrom(s: Utf16String, p: nat): (r: Utf16String)
    ensures r == Hyphenated(s, p)
    decreases |s| - p
  {
    if p >= |s| then []
    else if p > 0 && UpperThenLower(s, p) then
      assert !HyphenBefore(s, p + 1);
      assert Hyphenated(s, p + 1) == [s[p + 1]] + Hyphenated(s, p + 2);
      [Hyphen, s[p], s[p + 1]] + ReplaceFrom(s, p + 2)
    else if p > 0 && AfterLower(s, p) then [Hyphen, s[p]] + ReplaceFrom(s, p + 1)
    else [s[p]] + ReplaceFrom(s, p + 1)
  }

  predicate IsWhiteSpace(u: CodeUnit) {
    || u == 0x20 || (0x09 <= u <= 0x0D) || u == 0x85 || u == 0xA0 || u == 0x1680
    || (0x2000 <= u <= 0x200A) || u == 0x2028 || u == 0x2029 || u == 0x202F || u == 0x205F || u == 0x3000
  }

  function TrimStart(s: Utf16String): (r: Utf16String)
    ensures |r| <= |s| && r == s[|s| - |r|..]
    ensures r != [] ==> !IsWhiteSpace(r[0])
    ensures forall i :: 0 <= i < |s| - |r| ==> IsWhiteSpace(s[i])
  {
    if s != [] && IsWhiteSpace(s[0]) then TrimStart(s[1..]) else s
  }

  function TrimEnd(s: Utf16String): (r: Utf16String)
    ensures |r| <= |s| && r == s[..|r|]
    ensures r != [] ==> !IsWhiteSpace(r[|r| - 1])
    ensures forall i :: |r| <= i < |s| ==> IsWhiteSpace(s[i])
  {
    if s != [] && IsWhiteSpace(s[|s| - 1]) then TrimEnd(s[..|s| - 1]) else s
  }

  /** `string.Trim()`: the result neither starts nor ends with white space,
      is empty for blank input, and is the input itself when that has no
      white space at either end. */
  function Trim(s: Utf16String): (r: Utf16String)
    ensures |r| <= |s|
    ensures r != [] ==> !IsWhiteSpace(r[0]) && !IsWhiteSpace(r[|r| - 1])
    ensures (forall i :: 0 <= i < |s| ==> IsWhiteSpace(s[i])) ==> r == []
    ensures s != [] && !IsWhiteSpace(s[0]) && !IsWhiteSpace(s[|s| - 1]) ==> r == s
  {
    var t := TrimStart(s);
    assert t != [] ==> t[0] == s[|s| - |t|];
    assert s != [] && !IsWhiteSpace(s[0]) ==> t == s;
    TrimEnd(t)
  }

  function LowerUnit(u: CodeUnit): CodeUnit {
    if IsUpper(u) then u + 0x20 else u
  }

  /** `ToLower()` on ASCII letters: a unit-by-unit map. */
  function Lower(s: Utf16String): Utf16String {
    seq(|s|, i requires 0 <= i < |s| => LowerUnit(s[i]))
  }

  /** `PascalCaseToKebabCase`: the result holds no upper-case letter and
      neither starts nor ends with white space. */
  function PascalCaseToKebabCase(s: Utf16String): (r: Utf16String)
    ensures forall i :: 0 <= i < |r| ==> !IsUpper(r[i])
    ensures r != [] ==> !IsWhiteSpace(r[0]) && !IsWhiteSpace(r[|r| - 1])
  {
    var t := Trim(ReplaceFrom(s, 0));
    LowerKeepsEnds(t);
    Lower(t)
  }

  /** Lower-casing leaves no upper-case letter and turns no unit into white
      space. */
  lemma LowerKeepsEnds(t: Utf16String)
    ensures forall i :: 0 <= i < |Lower(t)| ==> !IsUpper(Lower(t)[i])
    ensures forall i :: 0 <= i < |t| ==> (IsWhiteSpace(Lower(t)[i]) <==> IsWhiteSpace(t[i]))
  {
  }

  // ---------------------------------------------------------------------
  // Properties of the kebab-case conversion
  // ---------------------------------------------------------------------

  /** The replacement never puts a hyphen first: the unit at the start is
      copied as it is. */
  lemma NoHyphenAtStart(s: Utf16String)
    requires s != []
    ensures ReplaceFrom(s, 0)[0] == s[0]
  {
  }

  /** The units other than hyphens, in order. */
  function WithoutHyphens(s: Utf16String): Utf16String {
    if s == [] then []
    else (if s[0] == Hyphen then [] else [s[0]]) + WithoutHyphens(s[1..])
  }

  lemma {:induction false} WithoutHyphensAppend(a: Utf16String, b: Utf16String)
    ensures WithoutHyphens(a + b) == WithoutHyphens(a) + WithoutHyphens(b)
    decreases |a|
  {
    if a != [] {
      assert (a + b)[1..] == a[1..] + b;
      WithoutHyphensAppend(a[1..], b);
    } else {
      assert a + b == b;
    }
  }

  /** Deleting the hyphens undoes the insertion. */
  lemma {:induction false} HyphenatedWithoutHyphens(s: Utf16String, p: nat)
    requires p <= |s|
    ensures WithoutHyphens(Hyphenated(s, p)) == WithoutHyphens(s[p..])
    decreases |s| - p
  {
    if p < |s| {
      HyphenatedWithoutHyphens(s, p + 1);
      var head := if HyphenBefore(s, p) then [Hyphen, s[p]] else [s[p]];
      WithoutHyphensAppend(head, Hyphenated(s, p + 1));
      assert s[p..] == [s[p]] + s[p + 1..];
      WithoutHyphensAppend([s[p]], s[p + 1..]);
    }
  }

  /** The hyphenated text ends with the last unit of the input. */
  lemma {:induction false} HyphenatedLast(s: Utf16String, p: nat)
    requires p < |s|
    ensures Hyphenated(s, p) != [] && Hyphenated(s, p)[|Hyphenated(s, p)| - 1] == s[|s| - 1]
    decreases |s| - p
  {
    if p + 1 < |s| {
      HyphenatedLast(s, p + 1);
    }
  }

  /** Lower-casing and hyphen deletion commute. */
  lemma {:induction false} LowerWithoutHyphens(s: Utf16String)
    ensures WithoutHyphens(Lower(s)) == Lower(WithoutHyphens(s))
    decreases |s|
  {
    if s != [] {
      LowerWithoutHyphens(s[1..]);
      assert Lower(s)[1..] == Lower(s[1..]);
      assert LowerUnit(s[0]) == Hyphen <==> s[0] == Hyphen;
      var rest := WithoutHyphens(s[1..]);
      if s[0] != Hyphen {
        assert ([s[0]] + rest)[1..] == rest;
      } else {
        assert WithoutHyphens(s) == rest;
      }
    }
  }

  /** Every hyphen is followed by a unit that is neither white space nor a
      hyphen. */
  predicate HyphensLeadWords(h: Utf16String) {
    forall i :: 0 <= i < |h| && h[i] == Hyphen ==>
      i + 1 < |h| && !IsWhiteSpace(h[i + 1]) && h[i + 1] != Hyphen
  }

  lemma HyphensLeadWordsSuffix(h: Utf16String, k: nat)
    requires HyphensLeadWords(h) && k <= |h|
    ensures HyphensLeadWords(h[k..])
  {
    forall i | 0 <= i < |h[k..]| && h[k..][i] == Hyphen
      ensures i + 1 < |h[k..]| && !IsWhiteSpace(h[k..][i + 1]) && h[k..][i + 1] != Hyphen
    {
      assert h[k + i] == Hyphen;
    }
  }

  /** A hyphen is only ever inserted before an upper-case letter or a digit. */
  lemma {:induction false} HyphenatedLeadsWords(s: Utf16String, p: nat)
    requires forall i :: 0 <= i < |s| ==> s[i] != Hyphen
    ensures HyphensLeadWords(Hyphenated(s, p))
    decreases |s| - p
  {
    if p < |s| {
      HyphenatedLeadsWords(s, p + 1);
      var rest := Hyphenated(s, p + 1);
      var head := if HyphenBefore(s, p) then [Hyphen, s[p]] else [s[p]];
      var h := head + rest;
      assert Hyphenated(s, p) == h;
      forall i | 0 <= i < |h| && h[i] == Hyphen
        ensures i + 1 < |h| && !IsWhiteSpace(h[i + 1]) && h[i + 1] != Hyphen
      {
        if i >= |head| {
          assert h[i] == rest[i - |head|];
          assert h[i + 1] == rest[i + 1 - |head|];
        }
      }
    }
  }

  /** Text that starts with a unit other than white space keeps its start. */
  lemma TrimStartKeeps(x: Utf16String)
    requires x != [] && !IsWhiteSpace(x[0])
    ensures TrimStart(x) == x
  {
  }

  /** One leading white-space unit is dropped. */
  lemma TrimStartDrops(w: CodeUnit, x: Utf16String)
    requires IsWhiteSpace(w)
    ensures TrimStart([w] + x) == TrimStart(x)
  {
    assert ([w] + x)[1..] == x;
  }

  /** Deleting the hyphens before or after removing leading white space
      gives the same text, when every hyphen leads a word. */
  lemma {:induction false} WithoutHyphensTrimStart(h: Utf16String)
    requires HyphensLeadWords(h)
    ensures WithoutHyphens(TrimStart(h)) == TrimStart(WithoutHyphens(h))
    decreases |h|
  {
    if h != [] {
      var rest := WithoutHyphens(h[1..]);
      if IsWhiteSpace(h[0]) {
        HyphensLeadWordsSuffix(h, 1);
        WithoutHyphensTrimStart(h[1..]);
        assert WithoutHyphens(h) == [h[0]] + rest;
        TrimStartDrops(h[0], rest);
      } else if h[0] == Hyphen {
        TrimStartKeeps(h);
        assert WithoutHyphens(h) == rest;
        assert h[1..][0] == h[1];
        assert rest == [h[1]] + WithoutHyphens(h[2..]) by {
          assert h[1..][1..] == h[2..];
        }
        TrimStartKeeps(rest);
      } else {
        TrimStartKeeps(h);
        assert WithoutHyphens(h) == [h[0]] + rest;
        TrimStartKeeps([h[0]] + rest);
      }
    }
  }

  /** The same for trailing white space. */
  lemma {:induction false} WithoutHyphensTrimEnd(h: Utf16String)
    requires HyphensLeadWords(h)
    ensures WithoutHyphens(TrimEnd(h)) == TrimEnd(WithoutHyphens(h))
    decreases |h|
  {
    if h != [] {
      var n := |h|;
      var a := h[..n - 1];
      var x := h[n - 1];
      assert h == a + [x];
      WithoutHyphensAppend(a, [x]);
      assert x != Hyphen;
      assert WithoutHyphens([x]) == [x] by {
        assert [x][1..] == [];
      }
      var w := WithoutHyphens(a);
      if IsWhiteSpace(x) {
        forall i | 0 <= i < |a| && a[i] == Hyphen
          ensures i + 1 < |a| && !IsWhiteSpace(a[i + 1]) && a[i + 1] != Hyphen
        {
          assert h[i] == Hyphen;
        }
        WithoutHyphensTrimEnd(a);
        assert (w + [x])[..|w|] == w;
      }
    }
  }

  /** Deleting the inserted hyphens of the kebab-case form gives the trimmed,
      lower-cased input, for input without hyphens of its own. */
  lemma KebabWithoutHyphensIsLower(s: Utf16String)
    requires forall i :: 0 <= i < |s| ==> s[i] != Hyphen
    ensures WithoutHyphens(PascalCaseToKebabCase(s)) == Lower(Trim(s))
  {
    var h := ReplaceFrom(s, 0);
    HyphenatedLeadsWords(s, 0);
    HyphenatedWithoutHyphens(s, 0);
    assert s[0..] == s;
    WithoutHyphensIdentity(s);
    var t := TrimStart(h);
    HyphensLeadWordsSuffix(h, |h| - |t|);
    WithoutHyphensTrimStart(h);
    WithoutHyphensTrimEnd(t);
    LowerWithoutHyphens(Trim(h));
  }

  lemma {:induction false} WithoutHyphensIdentity(s: Utf16String)
    requires forall i :: 0 <= i < |s| ==> s[i] != Hyphen
    ensures WithoutHyphens(s) == s
    decreases |s|
  {
    if s != [] {
      WithoutHyphensIdentity(s[1..]);
    }
  }

  /** Trimming drops a leading white-space unit in front of trimmed text. */
  lemma TrimDropsLeadingWhiteSpace(w: CodeUnit, t: Utf16String)
    requires IsWhiteSpace(w)
    requires t != [] && !IsWhiteSpace(t[0]) && !IsWhiteSpace(t[|t| - 1])
    ensures Trim([w] + t) == t
  {
    assert ([w] + t)[1..] == t;
  }

  /** White space in front of a capital lets a hyphen lead the result: " Ab"
      becomes "-ab". The start-of-string guard looks at the untrimmed input. */
  lemma LeadingSpaceGivesLeadingHyphen(w: CodeUnit, u: CodeUnit, l: CodeUnit)
    requires IsWhiteSpace(w) && IsUpper(u) && IsLower(l)
    ensures PascalCaseToKebabCase([w, u, l]) == [Hyphen, LowerUnit(u), l]
  {
    var rest := [Hyphen, u, l];
    ReplaceAfterLeadingUnit(w, u, l);
    TrimDropsLeadingWhiteSpace(w, rest);
    assert Lower(rest) == [LowerUnit(Hyphen)] + Lower([u, l]);
    assert Lower([u, l]) == [LowerUnit(u)] + Lower([l]);
  }

  lemma ReplaceAfterLeadingUnit(w: CodeUnit, u: CodeUnit, l: CodeUnit)
    requires IsUpper(u) && IsLower(l)
    ensures ReplaceFrom([w, u, l], 0) == [w] + [Hyphen, u, l]
  {
    var s := [w, u, l];
    assert UpperThenLower(s, 1);
    assert ReplaceFrom(s, 3) == [];
    assert ReplaceFrom(s, 1) == [Hyphen, u, l];
  }

  /** Where the rule puts no hyphen, the input is copied as it is. */
  lemma {:induction false} NoHyphensBetween(s: Utf16String, p: nat, q: nat)
    requires p <= q <= |s|
    requires forall i :: p <= i < q ==> !HyphenBefore(s, i)
    ensures Hyphenated(s, p) == s[p..q] + Hyphenated(s, q)
    decreases q - p
  {
    if p < q {
      NoHyphensBetween(s, p + 1, q);
      assert !HyphenBefore(s, p);
      assert Hyphenated(s, p) == [s[p]] + Hyphenated(s, p + 1);
      assert s[p..q] == [s[p]] + s[p + 1..q];
      assert [s[p]] + (s[p + 1..q] + Hyphenated(s, q)) == ([s[p]] + s[p + 1..q]) + Hyphenated(s, q);
    }
  }

  /** The hyphens of "DisplayBlockCount" from the 'C' on. */
  lemma DisplayBlockCountLast(s: Utf16String, h: Utf16String)
    requires s == [0x44, 0x69, 0x73, 0x70, 0x6c, 0x61, 0x79, 0x42, 0x6c, 0x6f, 0x63, 0x6b, 0x43, 0x6f, 0x75, 0x6e, 0x74]
    requires h == [0x44, 0x69, 0x73, 0x70, 0x6c, 0x61, 0x79, 0x2d, 0x42, 0x6c, 0x6f, 0x63, 0x6b, 0x2d, 0x43, 0x6f, 0x75, 0x6e, 0x74]
    ensures Hyphenated(s, 12) == h[13..]
  {
    NoHyphensBetween(s, 13, 17);
    assert s[13..17] == h[15..];
    assert HyphenBefore(s, 12);
  }

  /** The hyphens of "DisplayBlockCount" from the 'B' on. */
  lemma DisplayBlockCountTail(s: Utf16String, h: Utf16String)
    requires s == [0x44, 0x69, 0x73, 0x70, 0x6c, 0x61, 0x79, 0x42, 0x6c, 0x6f, 0x63, 0x6b, 0x43, 0x6f, 0x75, 0x6e, 0x74]
    requires h == [0x44, 0x69, 0x73, 0x70, 0x6c, 0x61, 0x79, 0x2d, 0x42, 0x6c, 0x6f, 0x63, 0x6b, 0x2d, 0x43, 0x6f, 0x75, 0x6e, 0x74]
    ensures Hyphenated(s, 7) == h[7..]
  {
    DisplayBlockCountLast(s, h);
    NoHyphensBetween(s, 8, 12);
    assert s[8..12] == h[9..13];
    assert HyphenBefore(s, 7);
  }

  /** "DisplayBlockCount" gets hyphens before 'B' and 'C' only. */
  lemma DisplayBlockCountHyphens(s: Utf16String, h: Utf16String)
    requires s == [0x44, 0x69, 0x73, 0x70, 0x6c, 0x61, 0x79, 0x42, 0x6c, 0x6f, 0x63, 0x6b, 0x43, 0x6f, 0x75, 0x6e, 0x74]
    requires h == [0x44, 0x69, 0x73, 0x70, 0x6c, 0x61, 0x79, 0x2d, 0x42, 0x6c, 0x6f, 0x63, 0x6b, 0x2d, 0x43, 0x6f, 0x75, 0x6e, 0x74]
    ensures Hyphenated(s, 0) == h
  {
    DisplayBlockCountTail(s, h);
    NoHyphensBetween(s, 0, 7);
    assert s[0..7] == h[..7];
  }

  lemma DisplayBlockCountLower(h: Utf16String, out: Utf16String)
    requires h == [0x44, 0x69, 0x73, 0x70, 0x6c, 0x61, 0x79, 0x2d, 0x42, 0x6c, 0x6f, 0x63, 0x6b, 0x2d, 0x43, 0x6f, 0x75, 0x6e, 0x74]
    requires out == [0x64, 0x69, 0x73, 0x70, 0x6c, 0x61, 0x79, 0x2d, 0x62, 0x6c, 0x6f, 0x63, 0x6b, 0x2d, 0x63, 0x6f, 0x75, 0x6e, 0x74]
    ensures Lower(h) == out
  {
  }

  /** "DisplayBlockCount" becomes "display-block-count". */
  lemma DisplayBlockCountExample(s: Utf16String, out: Utf16String)
    requires s == [0x44, 0x69, 0x73, 0x70, 0x6c, 0x61, 0x79, 0x42, 0x6c, 0x6f, 0x63, 0x6b, 0x43, 0x6f, 0x75, 0x6e, 0x74]
    requires out == [0x64, 0x69, 0x73, 0x70, 0x6c, 0x61, 0x79, 0x2d, 0x62, 0x6c, 0x6f, 0x63, 0x6b, 0x2d, 0x63, 0x6f, 0x75, 0x6e, 0x74]
    ensures PascalCaseToKebabCase(s) == out
  {
    var h: Utf16String := [0x44, 0x69, 0x73, 0x70, 0x6c, 0x61, 0x79, 0x2d, 0x42, 0x6c, 0x6f, 0x63, 0x6b, 0x2d, 0x43, 0x6f, 0x75, 0x6e, 0x74];
    DisplayBlockCountHyphens(s, h);
    DisplayBlockCountLower(h, out);
  }
}
