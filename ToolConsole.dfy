/** `ToolConsole<T>`: splits the command line into input files and options,
    picks the constructor whose parameters accept the parsed input nodes, and
    builds the table of `-c:` configuration override keys. */
module ToolConsole {
  import opened Common
  import opened Artifacts

  // ---------------------------------------------------------------------
  // Argument split (CreateAsync, lines 15 and 17)
  // ---------------------------------------------------------------------

  predicate IsOption(arg: string) {
    StartsWith(arg, "-")
  }

  /** `args.TakeWhile(arg => !arg.StartsWith("-"))`: the longest prefix of
      arguments that are not options. */
  function InputFiles(args: seq<string>): (files: seq<string>)
    ensures files <= args
    ensures forall i :: 0 <= i < |files| ==> !IsOption(files[i])
    ensures |files| < |args| ==> IsOption(args[|files|])
  {
    if args == [] || IsOption(args[0]) then []
    else [args[0]] + InputFiles(args[1..])
  }

  /** `args.Skip(inputFiles.Length)`: the input files put back in front of
      it give the command line, and it is empty or begins with an option. */
  function RemainingArgs(args: seq<string>): (rest: seq<string>)
    ensures InputFiles(args) + rest == args
    ensures rest == [] || IsOption(rest[0])
  {
    args[|InputFiles(args)|..]
  }

  // ---------------------------------------------------------------------
  // Constructor selection (GetSuitableConstructor)
  // ---------------------------------------------------------------------

  /** `expected.IsAssignableFrom(actual)`: supplied by the type system. */
  type Assignability = (Tag, Tag) -> bool

  /** The constructor takes exactly these arguments, position by position. */
  predicate Accepts(parameters: seq<Tag>, args: seq<Node>, isAssignableFrom: Assignability) {
    && |parameters| == |args|
    && forall i :: 0 <= i < |parameters| ==> isAssignableFrom(parameters[i], TypeOf(NodeObject(args[i])))
  }

  /** The first constructor, in declaration order, whose arity equals the
      number of arguments and whose every parameter accepts the argument at
      its position; `None` (null) when there is none. */
  method GetSuitableConstructor(ctors: seq<seq<Tag>>, ctorArgs: seq<Node>, isAssignableFrom: Assignability)
    returns (r: Option<nat>)
    ensures r.Some? ==> r.value < |ctors| && Accepts(ctors[r.value], ctorArgs, isAssignableFrom)
    ensures r.Some? ==> forall j :: 0 <= j < r.value ==> !Accepts(ctors[j], ctorArgs, isAssignableFrom)
    ensures r.None? <==> forall j :: 0 <= j < |ctors| ==> !Accepts(ctors[j], ctorArgs, isAssignableFrom)
  {
    for c := 0 to |ctors|
      invariant forall j :: 0 <= j < c ==> !Accepts(ctors[j], ctorArgs, isAssignableFrom)
    {
      var parameters := ctors[c];
      if |parameters| != |ctorArgs| {
        continue;
      }
      var isMatch := true;
      var i := 0;
      while i < |parameters|
        invariant 0 <= i <= |parameters|
        invariant isMatch <==> forall k :: 0 <= k < i ==> isAssignableFrom(parameters[k], TypeOf(NodeObject(ctorArgs[k])))
        invariant !isMatch ==> !Accepts(parameters, ctorArgs, isAssignableFrom)
        decreases |parameters| - i, if isMatch then 1 else 0
      {
        var expectedType := parameters[i];
        var actualType := TypeOf(NodeObject(ctorArgs[i]));
        if !isAssignableFrom(expectedType, actualType) {
          isMatch := false;
          break;
        }
        i := i + 1;
      }
      if isMatch {
        return Some(c);
      }
    }
    return None;
  }

  // ---------------------------------------------------------------------
  // Configuration override keys (GetConfigProps)
  // ---------------------------------------------------------------------

  /** A configuration type: its `Name` and the names of its public properties. */
  datatype ConfigType = ConfigType(name: string, properties: seq<string>)

  /** One of the tool type's interfaces: its `Name` (with the generic arity
      suffix, as in "IConfigurable`1") and its generic type arguments, empty
      when the interface is not generic. */
  datatype Interface = Interface(name: string, typeArguments: seq<ConfigType>)

  /** A property of a configuration type: the `PropertyInfo` a key maps to. */
  datatype Property = Property(owner: ConfigType, name: string)

  const ConfigurableName: string := "IConfigurable`1"

  predicate IsConfigurable(iface: Interface) {
    iface.name == ConfigurableName && iface.typeArguments != []
  }

  /** The configuration types: the type argument of every generic
      `IConfigurable`1` interface, in interface order. */
  function ConfigTypes(ifaces: seq<Interface>): (r: seq<ConfigType>)
    ensures |r| <= |ifaces|
    ensures forall t :: t in r ==> exists i :: i in ifaces && IsConfigurable(i) && i.typeArguments[0] == t
    ensures forall i :: i in ifaces && IsConfigurable(i) ==> i.typeArguments[0] in r
  {
    if ifaces == [] then []
    else
      var last := ifaces[|ifaces| - 1];
      ConfigTypes(ifaces[..|ifaces| - 1]) + (if IsConfigurable(last) then [last.typeArguments[0]] else [])
  }

  /** One interface contributes its type argument exactly when it is a
      generic `IConfigurable`1`. */
  lemma ConfigTypesOne(i: Interface)
    ensures ConfigTypes([i]) == if IsConfigurable(i) then [i.typeArguments[0]] else []
  {
    assert [i][..0] == [];
  }

  /** The configuration types of a list of interfaces are those of its
      parts, in order. */
  lemma {:induction false} ConfigTypesAppend(a: seq<Interface>, b: seq<Interface>)
    ensures ConfigTypes(a + b) == ConfigTypes(a) + ConfigTypes(b)
    decreases |b|
  {
    if b == [] {
      assert a + b == a;
    } else {
      var b' := b[..|b| - 1];
      assert (a + b)[..|a + b| - 1] == a + b';
      assert (a + b)[|a + b| - 1] == b[|b| - 1];
      ConfigTypesAppend(a, b');
    }
  }

  /** The properties of the configuration types, in the order the nested
      loops visit them. */
  function Entries(types: seq<ConfigType>): seq<Property> {
    if types == [] then []
    else
      var last := types[|types| - 1];
      Entries(types[..|types| - 1]) + PropertiesOf(last)
  }

  function PropertiesOf(t: ConfigType): (r: seq<Property>)
    ensures |r| == |t.properties|
    ensures forall i :: 0 <= i < |r| ==> r[i] == Property(t, t.properties[i])
  {
    seq(|t.properties|, i requires 0 <= i < |t.properties| => Property(t, t.properties[i]))
  }

  const KeyPrefix: string := "-c:"

  /** "-c:{property}" */
  function UnqualifiedKey(p: Property): string {
    KeyPrefix + Lower(p.name)
  }

  /** "-c:{config type}:{property}" */
  function QualifiedKey(p: Property): string {
    KeyPrefix + Lower(p.owner.name) + ":" + Lower(p.name)
  }

  function DuplicateKeyMessage(key: string): string {
    "An item with the same key has already been added. Key: " + key
  }

  /** The table after visiting `entries`: each entry first assigns its
      unqualified key (the indexer overwrites) and then adds its qualified key
      (`Add` throws on a key already present). */
  function BuildTable(entries: seq<Property>): Result<map<string, Property>> {
    if entries == [] then Ok(map[])
    else
      var prev := BuildTable(entries[..|entries| - 1]);
      if prev.Err? then prev
      else
        var p := entries[|entries| - 1];
        var table := prev.value[UnqualifiedKey(p) := p];
        if QualifiedKey(p) in table then Err(DuplicateKeyMessage(QualifiedKey(p)))
        else Ok(table[QualifiedKey(p) := p])
  }

  /** Lines 76-89: the type argument of each generic `IConfigurable`1`. */
  method CollectConfigTypes(ifaces: seq<Interface>) returns (configTypes: seq<ConfigType>)
    ensures configTypes == ConfigTypes(ifaces)
  {
    configTypes := [];
    for k := 0 to |ifaces|
      invariant configTypes == ConfigTypes(ifaces[..k])
    {
      assert ifaces[..k + 1][..k] == ifaces[..k];
      var iface := ifaces[k];
      if iface.name == ConfigurableName {
        if iface.typeArguments == [] {
          continue;
        }
        configTypes := configTypes + [iface.typeArguments[0]];
      }
    }
    assert ifaces[..|ifaces|] == ifaces;
  }

  /** One step of the nested loop of lines 93-102. */
  lemma BuildTableStep(visited: seq<Property>, table: map<string, Property>, prop: Property)
    requires BuildTable(visited) == Ok(table)
    ensures var t := table[UnqualifiedKey(prop) := prop];
            BuildTable(visited + [prop]) ==
              if QualifiedKey(prop) in t then Err(DuplicateKeyMessage(QualifiedKey(prop)))
              else Ok(t[QualifiedKey(prop) := prop])
  {
    assert (visited + [prop])[..|visited|] == visited;
  }

  /** One pass of the inner loop, with what a throw there means for the
      whole list. */
  lemma AddPropertyStep(visited: seq<Property>, props: seq<Property>, j: nat, table: map<string, Property>)
    requires j < |props| && BuildTable(visited + props[..j]) == Ok(table)
    ensures var prop := props[j];
            var t := table[UnqualifiedKey(prop) := prop];
            if QualifiedKey(prop) in t then BuildTable(visited + props) == Err(DuplicateKeyMessage(QualifiedKey(prop)))
            else BuildTable(visited + props[..j + 1]) == Ok(t[QualifiedKey(prop) := prop])
  {
    var prop := props[j];
    assert visited + props[..j + 1] == (visited + props[..j]) + [prop];
    BuildTableStep(visited + props[..j], table, prop);
    if QualifiedKey(prop) in table[UnqualifiedKey(prop) := prop] {
      assert visited + props[..j + 1] <= visited + props;
      AddFailureIsFinal(visited + props, visited + props[..j + 1]);
    }
  }

  /** The inner loop of lines 95-101: the keys of one configuration type's
      properties, added to the table built so far from `visited`. */
  method AddProperties(configType: ConfigType, configProps: map<string, Property>, ghost visited: seq<Property>)
    returns (r: Result<map<string, Property>>)
    requires BuildTable(visited) == Ok(configProps)
    ensures r == BuildTable(visited + PropertiesOf(configType))
  {
    var table := configProps;
    ghost var props := PropertiesOf(configType);
    assert visited + props[..0] == visited;
    for j := 0 to |configType.properties|
      invariant BuildTable(visited + props[..j]) == Ok(table)
    {
      var prop := Property(configType, configType.properties[j]);
      AddPropertyStep(visited, props, j, table);
      table := table[UnqualifiedKey(prop) := prop];
      var qualified := QualifiedKey(prop);
      if qualified in table {
        return Err(DuplicateKeyMessage(qualified));
      }
      table := table[qualified := prop];
    }
    assert props[..|configType.properties|] == props;
    r := Ok(table);
  }

  /** Lines 91-104: the keys of every property of every configuration type. */
  method FillConfigProps(configTypes: seq<ConfigType>) returns (r: Result<map<string, Property>>)
    ensures r == BuildTable(Entries(configTypes))
  {
    var configProps: map<string, Property> := map[];
    for c := 0 to |configTypes|
      invariant BuildTable(Entries(configTypes[..c])) == Ok(configProps)
    {
      assert configTypes[..c + 1][..c] == configTypes[..c];
      var added := AddProperties(configTypes[c], configProps, Entries(configTypes[..c]));
      if added.Err? {
        EntriesPrefix(configTypes, c + 1, |configTypes|);
        assert configTypes[..|configTypes|] == configTypes;
        AddFailureIsFinal(Entries(configTypes), Entries(configTypes[..c + 1]));
        return added;
      }
      configProps := added.value;
    }
    assert configTypes[..|configTypes|] == configTypes;
    r := Ok(configProps);
  }

  /** Collects the configuration types, then fills the key table. */
  method GetConfigProps(ifaces: seq<Interface>) returns (r: Result<map<string, Property>>)
    ensures r == BuildTable(Entries(ConfigTypes(ifaces)))
  {
    var configTypes := CollectConfigTypes(ifaces);
    r := FillConfigProps(configTypes);
  }

  /** Once `Add` has thrown, the remaining properties change nothing. */
  lemma {:induction false} AddFailureIsFinal(entries: seq<Property>, done: seq<Property>)
    requires done <= entries
    requires BuildTable(done).Err?
    ensures BuildTable(entries) == BuildTable(done)
    decreases |entries| - |done|
  {
    if |done| < |entries| {
      var next := entries[..|done| + 1];
      assert next[..|done|] == done;
      AddFailureIsFinal(entries, next);
    } else {
      assert done == entries;
    }
  }

  lemma {:induction false} EntriesPrefix(types: seq<ConfigType>, n: nat, m: nat)
    requires n <= m <= |types|
    ensures Entries(types[..n]) <= Entries(types[..m])
    decreases m - n
  {
    if n < m {
      assert types[..m][..m - 1] == types[..m - 1];
      EntriesPrefix(types, n, m - 1);
    }
  }

  // ---------------------------------------------------------------------
  // Properties of the key table
  // ---------------------------------------------------------------------

  /** Every key starts with "-c:" and has no upper-case letter. */
  lemma {:induction false} KeysAreLowerCaseOptions(entries: seq<Property>)
    requires BuildTable(entries).Ok?
    ensures forall k :: k in BuildTable(entries).value ==> StartsWith(k, KeyPrefix) && HasNoUpper(k)
    decreases |entries|
  {
    if entries != [] {
      var p := entries[|entries| - 1];
      KeysAreLowerCaseOptions(entries[..|entries| - 1]);
      LowerMapsEachChar(p.name);
      LowerMapsEachChar(p.owner.name);
      assert UnqualifiedKey(p)[..|KeyPrefix|] == KeyPrefix;
      assert QualifiedKey(p)[..|KeyPrefix|] == KeyPrefix;
    }
  }

  /** C# property names hold no ':', which keeps the two kinds of key apart. */
  predicate NoColonInNames(entries: seq<Property>) {
    forall i :: 0 <= i < |entries| ==> ':' !in entries[i].name
  }

  /** An unqualified key never equals a qualified one when property names hold no ':'. */
  lemma KeyKindsDiffer(p: Property, q: Property)
    requires ':' !in p.name
    ensures UnqualifiedKey(p) != QualifiedKey(q)
  {
    LowerMapsEachChar(p.name);
    LowerMapsEachChar(q.owner.name);
    var at := |KeyPrefix| + |Lower(q.owner.name)|;
    assert QualifiedKey(q)[at] == ':';
    if at < |UnqualifiedKey(p)| {
      assert UnqualifiedKey(p)[at] == LowerChar(p.name[at - |KeyPrefix|]);
      assert p.name[at - |KeyPrefix|] in p.name;
    }
  }

  /** Every key a list of properties can produce. */
  function AllKeys(entries: seq<Property>): set<string> {
    if entries == [] then {}
    else
      var p := entries[|entries| - 1];
      AllKeys(entries[..|entries| - 1]) + {UnqualifiedKey(p), QualifiedKey(p)}
  }

  /** A built table holds exactly the keys of the properties visited. */
  lemma {:induction false} TableKeys(entries: seq<Property>)
    requires BuildTable(entries).Ok?
    ensures BuildTable(entries).value.Keys == AllKeys(entries)
    decreases |entries|
  {
    if entries != [] {
      TableKeys(entries[..|entries| - 1]);
    }
  }

  lemma NoColonInPrefix(entries: seq<Property>, n: nat)
    requires n <= |entries| && NoColonInNames(entries)
    ensures NoColonInNames(entries[..n])
  {
    forall i | 0 <= i < n ensures ':' !in entries[..n][i].name {
      assert entries[..n][i] == entries[i];
    }
  }

  /** A qualified key is among the keys of `entries` only as the qualified key
      of one of them. */
  lemma {:induction false} QualifiedKeyAmong(entries: seq<Property>, q: Property)
    requires NoColonInNames(entries)
    ensures QualifiedKey(q) in AllKeys(entries) <==>
              exists i :: 0 <= i < |entries| && QualifiedKey(entries[i]) == QualifiedKey(q)
    decreases |entries|
  {
    if entries != [] {
      var n := |entries| - 1;
      var init := entries[..n];
      NoColonInPrefix(entries, n);
      QualifiedKeyAmong(init, q);
      KeyKindsDiffer(entries[n], q);
      if exists i :: 0 <= i < |init| && QualifiedKey(init[i]) == QualifiedKey(q) {
        var i :| 0 <= i < |init| && QualifiedKey(init[i]) == QualifiedKey(q);
        assert init[i] == entries[i];
      }
      if exists i :: 0 <= i < |entries| && QualifiedKey(entries[i]) == QualifiedKey(q) {
        var i :| 0 <= i < |entries| && QualifiedKey(entries[i]) == QualifiedKey(q);
        if i < n {
          assert init[i] == entries[i];
        }
      }
    }
  }

  /** In a built table every qualified key maps to its own property. */
  lemma {:induction false} QualifiedKeysMapToTheirProperty(entries: seq<Property>)
    requires BuildTable(entries).Ok? && NoColonInNames(entries)
    ensures forall i :: 0 <= i < |entries| ==>
              QualifiedKey(entries[i]) in BuildTable(entries).value &&
              BuildTable(entries).value[QualifiedKey(entries[i])] == entries[i]
    decreases |entries|
  {
    if entries != [] {
      var n := |entries| - 1;
      var init := entries[..n];
      var p := entries[n];
      NoColonInPrefix(entries, n);
      QualifiedKeysMapToTheirProperty(init);
      var t := BuildTable(entries).value;
      forall i | 0 <= i < n
        ensures QualifiedKey(entries[i]) in t && t[QualifiedKey(entries[i])] == entries[i]
      {
        assert entries[i] == init[i];
        KeyKindsDiffer(p, entries[i]);
      }
    }
  }

  /** In a built table an unqualified key maps to the last property with that
      lower-cased name: the indexer assignment of a later property wins. */
  lemma {:induction false} UnqualifiedKeyLastWins(entries: seq<Property>, i: nat)
    requires BuildTable(entries).Ok? && NoColonInNames(entries)
    requires i < |entries|
    requires forall j :: i < j < |entries| ==> UnqualifiedKey(entries[j]) != UnqualifiedKey(entries[i])
    ensures UnqualifiedKey(entries[i]) in BuildTable(entries).value
    ensures BuildTable(entries).value[UnqualifiedKey(entries[i])] == entries[i]
    decreases |entries|
  {
    var n := |entries| - 1;
    var p := entries[n];
    KeyKindsDiffer(entries[i], p);
    if i < n {
      var init := entries[..n];
      NoColonInPrefix(entries, n);
      assert entries[i] == init[i];
      forall j | i < j < |init| ensures UnqualifiedKey(init[j]) != UnqualifiedKey(init[i]) {
        assert init[j] == entries[j];
      }
      UnqualifiedKeyLastWins(init, i);
    }
  }

  /** One step of the fold: adding `p` to a table built without error throws
      exactly when an earlier property has the qualified key of `p`. */
  lemma AddThrowsOnRepeat(init: seq<Property>, p: Property)
    requires BuildTable(init).Ok? && NoColonInNames(init) && ':' !in p.name
    ensures BuildTable(init + [p]).Err? <==>
              exists i :: 0 <= i < |init| && QualifiedKey(init[i]) == QualifiedKey(p)
  {
    BuildTableStep(init, BuildTable(init).value, p);
    TableKeys(init);
    QualifiedKeyAmong(init, p);
    KeyKindsDiffer(p, p);
  }

  /** `Add` throws exactly when two properties share a qualified key (the
      same lower-cased type and property names). */
  lemma {:induction false} DuplicateQualifiedKeyThrows(entries: seq<Property>)
    requires NoColonInNames(entries)
    ensures BuildTable(entries).Err? <==>
              exists i, j :: 0 <= i < j < |entries| && QualifiedKey(entries[i]) == QualifiedKey(entries[j])
    decreases |entries|
  {
    if entries != [] {
      var n := |entries| - 1;
      var init := entries[..n];
      var p := entries[n];
      assert entries == init + [p];
      NoColonInPrefix(entries, n);
      DuplicateQualifiedKeyThrows(init);
      if BuildTable(init).Err? {
        AddFailureIsFinal(entries, init);
        var i, j :| 0 <= i < j < |init| && QualifiedKey(init[i]) == QualifiedKey(init[j]);
        assert init[i] == entries[i] && init[j] == entries[j];
      } else {
        AddThrowsOnRepeat(init, p);
        if BuildTable(entries).Err? {
          var i :| 0 <= i < |init| && QualifiedKey(init[i]) == QualifiedKey(p);
          assert init[i] == entries[i];
        } else {
          forall i, j | 0 <= i < j < |entries| ensures QualifiedKey(entries[i]) != QualifiedKey(entries[j]) {
            assert init[i] == entries[i];
            if j < n {
              assert init[j] == entries[j];
            }
          }
        }
      }
    }
  }

  /** `configProps.TryGetValue(arg.ToLowerInvariant(), ...)`: the property an
      option names, if any. */
  function FindConfigProp(arg: string, configProps: map<string, Property>): (r: Option<Property>)
    ensures r.Some? <==> Lower(arg) in configProps
    ensures r.Some? ==> r.value == configProps[Lower(arg)]
  {
    var argLower := Lower(arg);
    if argLower in configProps then Some(configProps[argLower]) else None
  }

  /** An option is found whatever its letter case: any argument that
      lower-cases to the unqualified key of the last property of that name,
      or to a qualified key, finds that property. */
  lemma OptionLookupIgnoresCase(entries: seq<Property>, i: nat, arg: string)
    requires BuildTable(entries).Ok? && NoColonInNames(entries)
    requires i < |entries|
    ensures Lower(arg) == QualifiedKey(entries[i]) ==>
              FindConfigProp(arg, BuildTable(entries).value) == Some(entries[i])
    ensures Lower(arg) == UnqualifiedKey(entries[i]) &&
            (forall j :: i < j < |entries| ==> UnqualifiedKey(entries[j]) != UnqualifiedKey(entries[i])) ==>
              FindConfigProp(arg, BuildTable(entries).value) == Some(entries[i])
  {
    QualifiedKeysMapToTheirProperty(entries);
    if Lower(arg) == UnqualifiedKey(entries[i]) &&
       (forall j :: i < j < |entries| ==> UnqualifiedKey(entries[j]) != UnqualifiedKey(entries[i])) {
      UnqualifiedKeyLastWins(entries, i);
    }
  }
}
