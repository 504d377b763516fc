/** `OutputSaver`: names and writes what a tool produced. A raw node is saved
    under a generated name; a `NodeFile<T>` record is saved under the output
    directory, with its own file name reduced to the base name or a generated
    name when it has none. The clock, the GUID generator and the extension
    registry are parameters; `Node.Save` becomes the returned effect. */
module OutputSaver {
  import opened Common
  import opened Artifacts

  // ---------------------------------------------------------------------
  // The timestamp, "yyyy-MM-dd_HH-mm-ss"
  // ---------------------------------------------------------------------

  /** The fields of a `DateTime` that the name format shows. */
  datatype DateTime = DateTime(year: nat, month: nat, day: nat, hour: nat, minute: nat, second: nat)

  /** The ranges a `DateTime` guarantees for its fields. */
  predicate ValidDateTime(t: DateTime) {
    && 1 <= t.year <= 9999 && 1 <= t.month <= 12 && 1 <= t.day <= 31
    && t.hour < 24 && t.minute < 60 && t.second < 60
  }

  function Pow10(w: nat): (r: nat)
    ensures r >= 1
  {
    if w == 0 then 1 else 10 * Pow10(w - 1)
  }

  predicate IsDigit(c: char) {
    '0' <= c <= '9'
  }

  function DigitChar(d: nat): (c: char)
    requires d < 10
    ensures IsDigit(c) && c as int - '0' as int == d
  {
    ('0' as int + d) as char
  }

  /** The last `w` decimal digits of `n`, zero-padded: the "yyyy" and "MM"
      style of a custom date format. */
  function Digits(n: nat, w: nat): (s: string)
    ensures |s| == w
    ensures forall i :: 0 <= i < w ==> IsDigit(s[i])
  {
    if w == 0 then [] else Digits(n / 10, w - 1) + [DigitChar(n % 10)]
  }

  function DigitOf(c: char): (d: nat)
    requires IsDigit(c)
    ensures d < 10
  {
    c as int - '0' as int
  }

  /** The number a run of decimal digits spells. */
  function DigitsValue(s: string): nat
    requires forall i :: 0 <= i < |s| ==> IsDigit(s[i])
  {
    if s == [] then 0
    else 10 * DigitsValue(s[..|s| - 1]) + DigitOf(s[|s| - 1])
  }

  lemma QuotientBound(n: nat, p: nat)
    requires n < 10 * p
    ensures n / 10 < p
  {
    assert 10 * (n / 10) <= n;
  }

  /** Reading the padded digits back gives the number, when it fits. */
  lemma {:induction false} DigitsRoundTrip(n: nat, w: nat)
    requires n < Pow10(w)
    ensures DigitsValue(Digits(n, w)) == n
  {
    if w > 0 {
      var s := Digits(n, w);
      assert s[..|s| - 1] == Digits(n / 10, w - 1);
      QuotientBound(n, Pow10(w - 1));
      DigitsRoundTrip(n / 10, w - 1);
    }
  }

  /** `DateTime.ToString("yyyy-MM-dd_HH-mm-ss")`. */
  function FormatStamp(t: DateTime): (s: string)
    ensures |s| == 19
    ensures s[4] == '-' && s[7] == '-' && s[10] == '_' && s[13] == '-' && s[16] == '-'
  {
    Digits(t.year, 4) + "-" + Digits(t.month, 2) + "-" + Digits(t.day, 2) + "_"
    + Digits(t.hour, 2) + "-" + Digits(t.minute, 2) + "-" + Digits(t.second, 2)
  }

  function DigitField(s: string, from: nat, to: nat): nat
    requires from <= to <= |s|
    requires forall i :: from <= i < to ==> IsDigit(s[i])
  {
    DigitsValue(s[from..to])
  }

  lemma StampFields(t: DateTime)
    ensures var s := FormatStamp(t);
            && s[0..4] == Digits(t.year, 4) && s[5..7] == Digits(t.month, 2) && s[8..10] == Digits(t.day, 2)
            && s[11..13] == Digits(t.hour, 2) && s[14..16] == Digits(t.minute, 2) && s[17..19] == Digits(t.second, 2)
  {
  }

  /** The timestamp format loses nothing: its fields can be read back. */
  lemma StampRoundTrip(t: DateTime)
    requires ValidDateTime(t)
    ensures var s := FormatStamp(t);
            DateTime(DigitField(s, 0, 4), DigitField(s, 5, 7), DigitField(s, 8, 10),
                     DigitField(s, 11, 13), DigitField(s, 14, 16), DigitField(s, 17, 19)) == t
  {
    StampFields(t);
    assert Pow10(2) == 100 && Pow10(4) == 10000;
    DigitsRoundTrip(t.year, 4);
    DigitsRoundTrip(t.month, 2);
    DigitsRoundTrip(t.day, 2);
    DigitsRoundTrip(t.hour, 2);
    DigitsRoundTrip(t.minute, 2);
    DigitsRoundTrip(t.second, 2);
  }

  // ---------------------------------------------------------------------
  // GenerateNodeFileName (lines 90-100)
  // ---------------------------------------------------------------------

  /** `NodeManager.GetGbxExtensions(classId)`: the registered extensions of a
      class, most preferred first. */
  type ExtensionRegistry = nat -> seq<string>

  const GbxSuffix: string := ".Gbx"
  const NullNodeMessage: string := "Value cannot be null. (Parameter 'node')"

  /** "{now}_{guid}", then "." and the first registered extension when there
      is one, then ".Gbx"; a null node throws `ArgumentNullException`. */
  function GenerateNodeFileName(node: Option<Node>, now: DateTime, guid: string, extensions: ExtensionRegistry)
    : (r: Result<string>)
    ensures r.Err? <==> node.None?
    ensures r.Err? ==> r.msg == NullNodeMessage
    ensures r.Ok? ==> StartsWith(r.value, FormatStamp(now) + "_" + guid) && EndsWith(r.value, GbxSuffix)
    ensures r.Ok? && extensions(node.value.classId) == [] ==>
              |r.value| == 19 + 1 + |guid| + |GbxSuffix|
    ensures r.Ok? && extensions(node.value.classId) != [] ==>
              var ext := extensions(node.value.classId)[0];
              |r.value| == 19 + 1 + |guid| + 1 + |ext| + |GbxSuffix| &&
              r.value[19 + 1 + |guid|..|r.value| - |GbxSuffix|] == "." + ext
  {
    match node
    case None => Err(NullNodeMessage)
    case Some(n) =>
      var exts := extensions(n.classId);
      var extension := if exts == [] then "" else "." + exts[0];
      Ok(FormatStamp(now) + "_" + guid + extension + GbxSuffix)
  }

  /** The name a non-null node gets. */
  function GeneratedName(node: Node, now: DateTime, guid: string, extensions: ExtensionRegistry): string {
    GenerateNodeFileName(Some(node), now, guid, extensions).value
  }

  /** Two names generated at the same moment for the same class differ when
      their GUIDs differ. */
  lemma GeneratedNamesDiffer(n: Node, now: DateTime, g1: string, g2: string, extensions: ExtensionRegistry)
    requires g1 != g2
    ensures GeneratedName(n, now, g1, extensions) != GeneratedName(n, now, g2, extensions)
  {
    var s1, s2 := GeneratedName(n, now, g1, extensions), GeneratedName(n, now, g2, extensions);
    assert s1[20..20 + |g1|] == g1;
    assert s2[20..20 + |g2|] == g2;
  }

  /** Without a separator in the GUID or in the extension, the generated name
      is already a base name. */
  lemma GeneratedNameIsBaseName(n: Node, now: DateTime, guid: string, extensions: ExtensionRegistry)
    requires Separator !in guid
    requires forall e :: e in extensions(n.classId) ==> Separator !in e
    ensures Separator !in GeneratedName(n, now, guid, extensions)
    ensures GetFileName(GeneratedName(n, now, guid, extensions)) == GeneratedName(n, now, guid, extensions)
  {
    var s := GeneratedName(n, now, guid, extensions);
    var stamp := FormatStamp(now);
    var exts := extensions(n.classId);
    var extension := if exts == [] then "" else "." + exts[0];
    assert s == stamp + "_" + guid + extension + GbxSuffix;
    forall i | 0 <= i < |stamp| ensures stamp[i] != Separator {
      assert stamp == Digits(now.year, 4) + "-" + Digits(now.month, 2) + "-" + Digits(now.day, 2) + "_"
        + Digits(now.hour, 2) + "-" + Digits(now.minute, 2) + "-" + Digits(now.second, 2);
    }
    if exts != [] {
      assert exts[0] in exts;
    }
  }

  // ---------------------------------------------------------------------
  // Output shapes and the NodeFile<T> record
  // ---------------------------------------------------------------------

  /** The value `PropertyInfo.GetValue` returns. */
  datatype Value = NodeValue(node: Node) | StringValue(s: string) | NullValue | OtherValue

  /** A tool's output object: a node, an instance of a generic type (its
      generic type definition and its public properties in declaration
      order), or anything else. */
  datatype Output =
    | NodeOutput(node: Node)
    | GenericOutput(definition: string, properties: seq<(string, Value)>)
    | OtherOutput

  const NodeFileDefinition: string := "NodeFile`1"
  const UnknownOutputMessage: string := "Unknown output type"

  /** `record NodeFile<T>(T Node, string? FileName = null)`. */
  datatype NodeFile = NodeFile(node: Option<Node>, fileName: Option<string>)

  /** A `NodeFile<T>` seen as an output object: its two public properties. */
  function NodeFileOutput(nf: NodeFile): (o: Output)
    ensures o.GenericOutput? && o.definition == NodeFileDefinition
  {
    var nodeValue := match nf.node case Some(n) => NodeValue(n) case None => NullValue;
    var nameValue := match nf.fileName case Some(s) => StringValue(s) case None => NullValue;
    GenericOutput(NodeFileDefinition, [("Node", nodeValue), ("FileName", nameValue)])
  }

  /** `value as Node`. */
  function AsNode(v: Value): Option<Node> {
    if v.NodeValue? then Some(v.node) else None
  }

  /** `value as string ?? ""`. */
  function AsStringOrEmpty(v: Value): string {
    if v.StringValue? then v.s else ""
  }

  /** The node the property loop ends with: the value of the last "Node"
      property, `null` when there is none. */
  function NodeProperty(props: seq<(string, Value)>): Option<Node> {
    if props == [] then None
    else if props[|props| - 1].0 == "Node" then AsNode(props[|props| - 1].1)
    else NodeProperty(props[..|props| - 1])
  }

  /** The file name the property loop ends with: the last "FileName"
      property as a string or "", `null` when there is none. */
  function FileNameProperty(props: seq<(string, Value)>): Option<string> {
    if props == [] then None
    else if props[|props| - 1].0 == "FileName" then Some(AsStringOrEmpty(props[|props| - 1].1))
    else FileNameProperty(props[..|props| - 1])
  }

  /** The property loop reads a `NodeFile` back: its node, and its file name
      with `null` turned into "". */
  lemma NodeFilePropertiesReadBack(nf: NodeFile)
    ensures NodeFileProperties(nf)
  {
    var props := NodeFileOutput(nf).properties;
    assert props[..1] == [props[0]];
    assert props[..1][..0] == [];
  }

  predicate NodeFileProperties(nf: NodeFile) {
    var props := NodeFileOutput(nf).properties;
    NodeProperty(props) == nf.node && FileNameProperty(props) == Some(nf.fileName.GetOr(""))
  }

  // ---------------------------------------------------------------------
  // Save, SaveGeneric and SaveNodeFile
  // ---------------------------------------------------------------------

  /** What saving does: writes `node` to `path`, or nothing. */
  datatype SaveEffect = Wrote(node: Node, path: string) | NothingSaved

  /** What `Save` does with an output, stated whole. */
  function SaveSpec(output: Output, outputPath: string, now: DateTime, guid: string, extensions: ExtensionRegistry)
    : Result<SaveEffect>
  {
    match output
    case NodeOutput(n) => Ok(Wrote(n, GeneratedName(n, now, guid, extensions)))
    case OtherOutput => Err(UnknownOutputMessage)
    case GenericOutput(definition, props) =>
      if definition != NodeFileDefinition then Err(UnknownOutputMessage)
      else
        var node := NodeProperty(props);
        var fileName := FileNameProperty(props);
        if node.None? then Ok(NothingSaved)
        else
          var name := if IsNullOrWhiteSpace(fileName) then GeneratedName(node.value, now, guid, extensions)
                      else fileName.value;
          Ok(Wrote(node.value, Combine(outputPath, GetFileName(name))))
  }

  /** The loop over `outputType.GetProperties()` (lines 58-69): the last
      "Node" and "FileName" properties decide. */
  method ReadNodeFileProperties(props: seq<(string, Value)>) returns (node: Option<Node>, fileName: Option<string>)
    ensures node == NodeProperty(props)
    ensures fileName == FileNameProperty(props)
  {
    node := None;
    fileName := None;
    for i := 0 to |props|
      invariant node == NodeProperty(props[..i])
      invariant fileName == FileNameProperty(props[..i])
    {
      assert props[..i + 1][..i] == props[..i];
      var (name, value) := props[i];
      if name == "Node" {
        node := AsNode(value);
      } else if name == "FileName" {
        fileName := Some(AsStringOrEmpty(value));
      }
    }
    assert props[..|props|] == props;
  }

  /** `SaveNodeFile` (lines 53-88). */
  method SaveNodeFile(props: seq<(string, Value)>, outputPath: string, now: DateTime, guid: string,
                      extensions: ExtensionRegistry)
    returns (effect: SaveEffect)
    ensures Ok(effect) == SaveSpec(GenericOutput(NodeFileDefinition, props), outputPath, now, guid, extensions)
  {
    var node, fileName := ReadNodeFileProperties(props);
    if node.None? {
      return NothingSaved;
    }
    var name: string;
    if IsNullOrWhiteSpace(fileName) {
      var generated := GenerateNodeFileName(node, now, guid, extensions);
      name := generated.value;
    } else {
      name := fileName.value;
    }
    effect := Wrote(node.value, Combine(outputPath, GetFileName(name)));
  }

  /** `Save` (lines 19-37) with `SaveGeneric` (lines 39-51). */
  method Save(output: Output, outputPath: string, now: DateTime, guid: string, extensions: ExtensionRegistry)
    returns (r: Result<SaveEffect>)
    ensures r == SaveSpec(output, outputPath, now, guid, extensions)
  {
    if output.GenericOutput? {
      if output.definition == NodeFileDefinition {
        var effect := SaveNodeFile(output.properties, outputPath, now, guid, extensions);
        r := Ok(effect);
      } else {
        r := Err(UnknownOutputMessage);
      }
      return;
    }
    match output {
      case NodeOutput(n) =>
        var name := GenerateNodeFileName(Some(n), now, guid, extensions);
        r := Ok(Wrote(n, name.value));
      case OtherOutput =>
        r := Err(UnknownOutputMessage);
    }
  }

  // ---------------------------------------------------------------------
  // Properties of saving
  // ---------------------------------------------------------------------

  /** Saving fails exactly for outputs that are neither a node nor a
      `NodeFile<T>`, and then with "Unknown output type". */
  lemma UnknownOutputFails(output: Output, outputPath: string, now: DateTime, guid: string, extensions: ExtensionRegistry)
    ensures SaveSpec(output, outputPath, now, guid, extensions).Err? <==>
              output.OtherOutput? || (output.GenericOutput? && output.definition != NodeFileDefinition)
    ensures SaveSpec(output, outputPath, now, guid, extensions).Err? ==>
              SaveSpec(output, outputPath, now, guid, extensions).msg == UnknownOutputMessage
  {
  }

  /** A raw node is written under the generated name alone: the output
      directory plays no part. */
  lemma RawNodeIgnoresOutputPath(n: Node, path1: string, path2: string, now: DateTime, guid: string,
                                 extensions: ExtensionRegistry)
    ensures SaveSpec(NodeOutput(n), path1, now, guid, extensions) ==
            SaveSpec(NodeOutput(n), path2, now, guid, extensions)
    ensures SaveSpec(NodeOutput(n), path1, now, guid, extensions) ==
            Ok(Wrote(n, GenerateNodeFileName(Some(n), now, guid, extensions).value))
  {
  }

  /** A `NodeFile` without a node saves nothing and does not throw. */
  lemma NullNodeSavesNothing(fileName: Option<string>, outputPath: string, now: DateTime, guid: string,
                             extensions: ExtensionRegistry)
    ensures SaveSpec(NodeFileOutput(NodeFile(None, fileName)), outputPath, now, guid, extensions) == Ok(NothingSaved)
  {
    NodeFilePropertiesReadBack(NodeFile(None, fileName));
  }

  /** A `NodeFile` whose name is null, empty or blank is written under the
      output directory with a generated name. */
  lemma BlankNameIsGenerated(n: Node, fileName: Option<string>, outputPath: string, now: DateTime, guid: string,
                             extensions: ExtensionRegistry)
    requires IsNullOrWhiteSpace(fileName)
    requires Separator !in guid
    requires forall e :: e in extensions(n.classId) ==> Separator !in e
    ensures SaveSpec(NodeFileOutput(NodeFile(Some(n), fileName)), outputPath, now, guid, extensions) ==
            Ok(Wrote(n, Combine(outputPath, GeneratedName(n, now, guid, extensions))))
  {
    NodeFilePropertiesReadBack(NodeFile(Some(n), fileName));
    GeneratedNameIsBaseName(n, now, guid, extensions);
  }

  /** A `NodeFile` with a name is written under the output directory with
      the base name of that name: any directory part is discarded. */
  lemma ExplicitNameKeepsBaseName(n: Node, dir: string, base: string, outputPath: string, now: DateTime,
                                  guid: string, extensions: ExtensionRegistry)
    requires Separator !in base
    ensures var name := dir + [Separator] + base;
            SaveSpec(NodeFileOutput(NodeFile(Some(n), Some(name))), outputPath, now, guid, extensions) ==
            Ok(Wrote(n, Combine(outputPath, base)))
  {
    var name := dir + [Separator] + base;
    NodeFilePropertiesReadBack(NodeFile(Some(n), Some(name)));
    assert name[|dir|] == Separator;
    assert !IsWhiteSpace(name[|dir|]);
    GetFileNameDropsDirectory(dir, base);
  }

  /** A `NodeFile` whose name is a non-blank base name without a separator
      is written under the output directory with exactly that name. */
  lemma PlainNameIsKept(n: Node, name: string, outputPath: string, now: DateTime, guid: string,
                        extensions: ExtensionRegistry)
    requires Separator !in name
    requires !IsNullOrWhiteSpace(Some(name))
    ensures SaveSpec(NodeFileOutput(NodeFile(Some(n), Some(name))), outputPath, now, guid, extensions) ==
            Ok(Wrote(n, Combine(outputPath, name)))
  {
    NodeFilePropertiesReadBack(NodeFile(Some(n), Some(name)));
  }

  /** "Maps/X/a.Map.Gbx" saved under "out" is written to "out/a.Map.Gbx". */
  lemma NestedNameExample(n: Node, now: DateTime, guid: string, extensions: ExtensionRegistry)
    ensures SaveSpec(NodeFileOutput(NodeFile(Some(n), Some("Maps/X/a.Map.Gbx"))), "out", now, guid, extensions) ==
            Ok(Wrote(n, "out/a.Map.Gbx"))
  {
    assert "Maps/X/a.Map.Gbx" == "Maps/X" + [Separator] + "a.Map.Gbx" by {}
    assert Separator !in "a.Map.Gbx" by {}
    assert Combine("out", "a.Map.Gbx") == "out/a.Map.Gbx" by {}
    ExplicitNameKeepsBaseName(n, "Maps/X", "a.Map.Gbx", "out", now, guid, extensions);
  }
}
