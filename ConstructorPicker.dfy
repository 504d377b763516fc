/** `ToolConstructorPicker`: loads the input files, groups the loaded objects
    by runtime type, and expands every public constructor of a tool into the
    argument lists it is invoked with.

    A constructor is modelled by the sequence of its parameter types
    (`Signature`); invoking it is modelled by the argument list it receives. */
module ConstructorPicker {
  import opened Common
  import opened Artifacts

  /** One input path as the runner sees it. `chars` is what the UTF-8
      `StreamReader` yields for the file, which is also the text
      `File.ReadAllText` returns; `bytes` is what `File.ReadAllBytes`
      returns. `Encoding.UTF8` replaces a malformed byte sequence by U+FFFD
      instead of throwing, so decoding always reaches the end of the file. */
  datatype InputFile = InputFile(path: string, chars: string, bytes: seq<Byte>)

  /** `GameBox.ParseNode`: the parsed node, or `None` when the parser returns null. */
  type Parser = InputFile -> Option<Node>

  type Signature = seq<Tag>
  type Arguments = seq<Artifact>
  type InputDictionary = map<Tag, seq<Artifact>>

  const BulkMessage: string := "Bulk input is supported with only one type of input."

  // ---------------------------------------------------------------------
  // Loading (GetFileObjectInstances, IsTextFile)
  // ---------------------------------------------------------------------

  /** A file is text when no decoded character is NUL. */
  predicate LooksLikeText(f: InputFile) {
    forall i :: 0 <= i < |f.chars| ==> f.chars[i] != '\0'
  }

  /** Reads characters until the end of the stream, answering false at the
      first NUL. */
  method IsTextFile(f: InputFile) returns (isText: bool)
    ensures isText <==> LooksLikeText(f)
    ensures !isText ==> exists i :: 0 <= i < |f.chars| && f.chars[i] == '\0'
  {
    var i := 0;
    while i < |f.chars|
      invariant 0 <= i <= |f.chars|
      invariant forall j :: 0 <= j < i ==> f.chars[j] != '\0'
    {
      if f.chars[i] == '\0' {
        return false;
      }
      i := i + 1;
    }
    isText := true;
  }

  /** The object one path is loaded as: a `TextFile` if it sniffs as text,
      otherwise the parsed node, otherwise a `BinFile` of its bytes. */
  function LoadFile(f: InputFile, parse: Parser): (a: Artifact)
    ensures a.TextFile? <==> LooksLikeText(f)
    ensures a.TextFile? ==> a.text == f.chars
    ensures a.NodeObject? <==> !LooksLikeText(f) && parse(f).Some?
    ensures a.NodeObject? ==> Some(a.node) == parse(f)
    ensures a.BinFile? ==> a.data == f.bytes
  {
    if LooksLikeText(f) then TextFile(f.chars)
    else match parse(f)
      case Some(node) => NodeObject(node)
      case None => BinFile(f.bytes)
  }

  /** Yields exactly one loaded object per path, in path order. */
  method GetFileObjectInstances(files: seq<InputFile>, parse: Parser) returns (objs: seq<Artifact>)
    ensures |objs| == |files|
    ensures forall i :: 0 <= i < |files| ==> objs[i] == LoadFile(files[i], parse)
  {
    objs := [];
    for i := 0 to |files|
      invariant |objs| == i
      invariant forall j :: 0 <= j < i ==> objs[j] == LoadFile(files[j], parse)
    {
      var file := files[i];
      var isText := IsTextFile(file);
      if isText {
        objs := objs + [TextFile(file.chars)];
        continue;
      }
      var node := parse(file);
      objs := objs + [if node.None? then BinFile(file.bytes) else NodeObject(node.value)];
    }
  }

  // ---------------------------------------------------------------------
  // Grouping by runtime type (CreateInputDictionaryFromFiles)
  // ---------------------------------------------------------------------

  /** The objects of exact runtime type `t`, in input order. */
  function OfType(objs: seq<Artifact>, t: Tag): (r: seq<Artifact>)
    ensures |r| <= |objs|
    ensures forall o :: o in r ==> o in objs && TypeOf(o) == t
    decreases |objs|
  {
    if objs == [] then []
    else
      var last := objs[|objs| - 1];
      OfType(objs[..|objs| - 1], t) + (if TypeOf(last) == t then [last] else [])
  }

  function TypesOf(objs: seq<Artifact>): set<Tag> {
    set o | o in objs :: TypeOf(o)
  }

  /** The dictionary the source builds: one entry per runtime type present. */
  function Grouped(objs: seq<Artifact>): InputDictionary {
    map t | t in TypesOf(objs) :: OfType(objs, t)
  }

  /** Builds the type-to-objects dictionary one object at a time. */
  method CreateInputDictionary(objs: seq<Artifact>) returns (dict: InputDictionary)
    ensures dict == Grouped(objs)
  {
    dict := map[];
    assert objs[..0] == [];
    for i := 0 to |objs|
      invariant dict == Grouped(objs[..i])
    {
      var obj := objs[i];
      var t := TypeOf(obj);
      GroupStep(objs, i, dict);
      if t in dict {
        dict := dict[t := dict[t] + [obj]];
      } else {
        dict := dict[t := [obj]];
      }
    }
    assert objs[..|objs|] == objs;
  }

  /** One step of the grouping loop: the object is appended to its group,
      which is created when the type is new. */
  lemma GroupStep(objs: seq<Artifact>, i: nat, dict: InputDictionary)
    requires i < |objs| && dict == Grouped(objs[..i])
    ensures var obj := objs[i];
            var t := TypeOf(obj);
            Grouped(objs[..i + 1]) == if t in dict then dict[t := dict[t] + [obj]] else dict[t := [obj]]
  {
    var obj := objs[i];
    var t := TypeOf(obj);
    GroupedSnoc(objs, i);
    if t !in dict {
      OfTypeAbsent(objs[..i], t);
      assert [obj] == OfType(objs[..i], t) + [obj];
    }
  }

  /** Adding one object to the input adds it at the end of its group. */
  lemma GroupedSnoc(objs: seq<Artifact>, i: nat)
    requires i < |objs|
    ensures var t := TypeOf(objs[i]);
            Grouped(objs[..i + 1]) == Grouped(objs[..i])[t := OfType(objs[..i], t) + [objs[i]]]
  {
    var init, next, obj := objs[..i], objs[..i + 1], objs[i];
    var t := TypeOf(obj);
    var m := Grouped(init)[t := OfType(init, t) + [obj]];
    TypesOfSnoc(objs, i);
    forall u | u in m
      ensures Grouped(next)[u] == m[u]
    {
      OfTypeSnoc(objs, i);
    }
  }

  lemma TypesOfSnoc(objs: seq<Artifact>, i: nat)
    requires i < |objs|
    ensures TypesOf(objs[..i + 1]) == TypesOf(objs[..i]) + {TypeOf(objs[i])}
  {
    assert objs[..i + 1] == objs[..i] + [objs[i]];
  }

  /** Adding one object extends its own group and leaves the others alone. */
  lemma OfTypeSnoc(objs: seq<Artifact>, i: nat)
    requires i < |objs|
    ensures forall t :: OfType(objs[..i + 1], t) ==
              OfType(objs[..i], t) + (if TypeOf(objs[i]) == t then [objs[i]] else [])
  {
    assert objs[..i + 1][..i] == objs[..i];
  }

  lemma {:induction false} OfTypeAbsent(objs: seq<Artifact>, t: Tag)
    requires t !in TypesOf(objs)
    ensures OfType(objs, t) == []
    decreases |objs|
  {
    if objs != [] {
      assert objs[..|objs| - 1] <= objs;
      OfTypeAbsent(objs[..|objs| - 1], t);
    }
  }

  /** Every loaded object lands in the group of its own type and in no other. */
  lemma {:induction false} OfTypeMembership(objs: seq<Artifact>, o: Artifact, t: Tag)
    requires o in objs
    ensures o in OfType(objs, t) <==> TypeOf(o) == t
    decreases |objs|
  {
    var init := objs[..|objs| - 1];
    var last := objs[|objs| - 1];
    assert objs == init + [last];
    if o != last {
      OfTypeMembership(init, o, t);
    }
  }

  /** No object is dropped or duplicated: each occurs in its group exactly as
      often as in the input, and not at all in other groups. */
  lemma {:induction false} OfTypeCount(objs: seq<Artifact>, o: Artifact, t: Tag)
    ensures multiset(OfType(objs, t))[o] == if TypeOf(o) == t then multiset(objs)[o] else 0
    decreases |objs|
  {
    if objs != [] {
      var init := objs[..|objs| - 1];
      assert objs == init + [objs[|objs| - 1]];
      OfTypeCount(init, o, t);
    }
  }

  /** Grouping keeps input order: the group of a concatenation is the
      concatenation of the groups. */
  lemma {:induction false} OfTypeAppend(a: seq<Artifact>, b: seq<Artifact>, t: Tag)
    ensures OfType(a + b, t) == OfType(a, t) + OfType(b, t)
    decreases |b|
  {
    if b != [] {
      var init := b[..|b| - 1];
      assert a + b == (a + init) + [b[|b| - 1]];
      assert (a + b)[..|a + b| - 1] == a + init;
      OfTypeAppend(a, init, t);
    } else {
      assert a + b == a;
    }
  }

  /** Groups are never empty, which makes the source's "No input for
      parameter" branch unreachable. */
  lemma GroupsNonEmpty(objs: seq<Artifact>, t: Tag)
    requires t in Grouped(objs)
    ensures |Grouped(objs)[t]| > 0
  {
    var o :| o in objs && TypeOf(o) == t;
    OfTypeMembership(objs, o, t);
  }

  // ---------------------------------------------------------------------
  // Expanding one constructor (reference definition)
  // ---------------------------------------------------------------------

  ghost predicate NonEmptyGroups(dict: InputDictionary) {
    forall t :: t in dict ==> |dict[t]| > 0
  }

  /** The type has more than one input: a parameter of it becomes the bulk parameter. */
  predicate IsMulti(dict: InputDictionary, t: Tag) {
    t in dict && |dict[t]| > 1
  }

  /** Index of the first parameter whose type has no group, or the arity. */
  function FirstMissing(sig: Signature, dict: InputDictionary): (m: nat)
    ensures m <= |sig|
    ensures forall i :: 0 <= i < m ==> sig[i] in dict
    ensures m < |sig| ==> sig[m] !in dict
    decreases |sig|
  {
    if sig == [] then 0
    else if sig[0] !in dict then 0
    else 1 + FirstMissing(sig[1..], dict)
  }

  /** The first parameter without inputs is the one the scan stops at. */
  lemma FirstMissingAt(sig: Signature, dict: InputDictionary, i: nat)
    requires i <= |sig|
    requires forall j :: 0 <= j < i ==> sig[j] in dict
    requires i < |sig| ==> sig[i] !in dict
    ensures FirstMissing(sig, dict) == i
  {
  }

  /** The indices below `n` of parameters whose type has several inputs, ascending. */
  function MultiIndices(sig: Signature, dict: InputDictionary, n: nat): seq<nat>
    requires n <= |sig|
  {
    if n == 0 then []
    else MultiIndices(sig, dict, n - 1) + (if IsMulti(dict, sig[n - 1]) then [n - 1] else [])
  }

  lemma MultiIndicesStep(sig: Signature, dict: InputDictionary, n: nat)
    requires n < |sig|
    ensures MultiIndices(sig, dict, n + 1) == MultiIndices(sig, dict, n) + (if IsMulti(dict, sig[n]) then [n] else [])
  {
  }

  lemma {:induction false} MultiIndicesSound(sig: Signature, dict: InputDictionary, n: nat)
    requires n <= |sig|
    ensures forall k :: 0 <= k < |MultiIndices(sig, dict, n)| ==>
              MultiIndices(sig, dict, n)[k] < n && IsMulti(dict, sig[MultiIndices(sig, dict, n)[k]])
  {
    if n > 0 {
      MultiIndicesSound(sig, dict, n - 1);
    }
  }

  /** What one constructor contributes. */
  datatype CtorOutcome =
    | Skipped                           // some parameter type has no input
    | Ambiguous                         // a second multi-input parameter: throws
    | Yields(instances: seq<Arguments>) // the argument lists it is invoked with

  /** The single instance of a constructor without a bulk parameter. */
  function SingleArguments(sig: Signature, dict: InputDictionary): (args: Arguments)
    requires NonEmptyGroups(dict)
    requires forall i :: 0 <= i < |sig| ==> sig[i] in dict
    ensures |args| == |sig|
    ensures forall i :: 0 <= i < |sig| ==> args[i] == dict[sig[i]][0]
  {
    seq(|sig|, i requires 0 <= i < |sig| => dict[sig[i]][0])
  }

  /** The instances of a constructor whose bulk parameter is `b`: one per input
      of that type, the other arguments fixed. */
  function BulkArguments(sig: Signature, dict: InputDictionary, b: nat): (xs: seq<Arguments>)
    requires NonEmptyGroups(dict)
    requires b < |sig|
    requires forall i :: 0 <= i < |sig| ==> sig[i] in dict
    ensures |xs| == |dict[sig[b]]|
    ensures forall k :: 0 <= k < |xs| ==>
              && |xs[k]| == |sig|
              && xs[k][b] == dict[sig[b]][k]
              && forall i :: 0 <= i < |sig| && i != b ==> xs[k][i] == dict[sig[i]][0]
  {
    var bulk := dict[sig[b]];
    var fixed := SingleArguments(sig, dict);
    seq(|bulk|, k requires 0 <= k < |bulk| => fixed[b := bulk[k]])
  }

  /** The parameter scan of lines 21-47 and the invocations of lines 50-65,
      stated declaratively: parameters are examined left to right up to the
      first one without inputs; a second multi-input parameter met before it
      throws; a missing type skips the constructor; otherwise one instance, or
      one per bulk input. */
  function CtorSpec(sig: Signature, dict: InputDictionary): CtorOutcome
    requires NonEmptyGroups(dict)
  {
    var m := FirstMissing(sig, dict);
    var multi := MultiIndices(sig, dict, m);
    if |multi| >= 2 then Ambiguous
    else if m < |sig| then Skipped
    else if multi == [] then Yields([SingleArguments(sig, dict)])
    else
      MultiIndicesSound(sig, dict, m);
      Yields(BulkArguments(sig, dict, multi[0]))
  }

  /** What the whole constructor list yields: `Expanded` when the enumeration
      completes, `Failed` with the instances yielded before the throw. */
  datatype Expansion =
    | Expanded(instances: seq<Arguments>)
    | Failed(msg: string, yielded: seq<Arguments>)

  /** One more constructor: nothing happens after a throw; otherwise the
      constructor's instances follow those already yielded, or it throws. */
  function Extend(prev: Expansion, outcome: CtorOutcome): Expansion {
    if prev.Failed? then prev
    else match outcome
      case Skipped => prev
      case Ambiguous => Failed(BulkMessage, prev.instances)
      case Yields(xs) => Expanded(prev.instances + xs)
  }

  function AllInstances(ctors: seq<Signature>, dict: InputDictionary): Expansion
    requires NonEmptyGroups(dict)
    decreases |ctors|
  {
    if ctors == [] then Expanded([])
    else Extend(AllInstances(ctors[..|ctors| - 1], dict), CtorSpec(ctors[|ctors| - 1], dict))
  }

  // ---------------------------------------------------------------------
  // The imperative expansion (CreateInstances)
  // ---------------------------------------------------------------------

  /** `ctor.Invoke(values)`: the argument list a constructor receives once
      every slot holds a value. */
  function Invoke(values: seq<Option<Artifact>>): (args: Arguments)
    requires forall i :: 0 <= i < |values| ==> values[i].Some?
    ensures |args| == |values|
    ensures forall i :: 0 <= i < |values| ==> Some(args[i]) == values[i]
  {
    seq(|values|, i requires 0 <= i < |values| => values[i].value)
  }

  lemma MultiIndicesPrefix(sig: Signature, dict: InputDictionary, n: nat, m: nat)
    requires n <= m <= |sig|
    ensures MultiIndices(sig, dict, n) <= MultiIndices(sig, dict, m)
    decreases m - n
  {
    if n < m {
      MultiIndicesPrefix(sig, dict, n, m - 1);
    }
  }

  /** Where the parameter scan of one constructor ends. */
  datatype ScanResult =
    | Invalid                                          // `invalidCtor` was set
    | SecondBulk                                       // the throw of line 41
    | Scanned(bulkParamIndex: Option<nat>, bulkParamList: seq<Artifact>)

  /** The loop of lines 21-48: fills the single-input slots of `values` and
      remembers the bulk parameter. */
  method ScanParameters(sig: Signature, dict: InputDictionary, values: array<Option<Artifact>>)
    returns (scan: ScanResult)
    requires NonEmptyGroups(dict)
    requires values.Length == |sig|
    modifies values
    ensures var m := FirstMissing(sig, dict);
            && (scan.Invalid? <==> m < |sig| && |MultiIndices(sig, dict, m)| <= 1)
            && (scan.SecondBulk? <==> |MultiIndices(sig, dict, m)| >= 2)
    ensures scan.Scanned? ==>
              && FirstMissing(sig, dict) == |sig|
              && MultiIndices(sig, dict, |sig|) ==
                   (if scan.bulkParamIndex.None? then [] else [scan.bulkParamIndex.value])
              && (scan.bulkParamIndex.Some? ==>
                    scan.bulkParamIndex.value < |sig| &&
                    scan.bulkParamList == dict[sig[scan.bulkParamIndex.value]])
              && forall j :: 0 <= j < |sig| && scan.bulkParamIndex != Some(j) ==>
                   values[j] == Some(dict[sig[j]][0])
  {
    var invalidCtor := false;
    var bulkParamIndex: Option<nat> := None;
    var bulkParamList: seq<Artifact> := [];

    var i := 0;
    while i < |sig| && !invalidCtor
      invariant 0 <= i <= |sig|
      invariant forall j :: 0 <= j < i ==> sig[j] in dict
      invariant invalidCtor ==> i < |sig| && sig[i] !in dict
      invariant MultiIndices(sig, dict, i) == if bulkParamIndex.None? then [] else [bulkParamIndex.value]
      invariant bulkParamIndex.Some? ==> bulkParamIndex.value < i && bulkParamList == dict[sig[bulkParamIndex.value]]
      invariant forall j :: 0 <= j < i && bulkParamIndex != Some(j) ==> values[j] == Some(dict[sig[j]][0])
      decreases |sig| - i, if invalidCtor then 0 else 1
    {
      var t := sig[i];
      if t !in dict {
        invalidCtor := true;
      } else {
        var inputList := dict[t];
        if |inputList| == 1 {
          MultiIndicesStep(sig, dict, i);
          values[i] := Some(inputList[0]);
        } else {
          if bulkParamIndex.Some? {
            MultiIndicesStep(sig, dict, i);
            assert FirstMissing(sig, dict) > i;
            MultiIndicesPrefix(sig, dict, i + 1, FirstMissing(sig, dict));
            return SecondBulk;
          }
          MultiIndicesStep(sig, dict, i);
          bulkParamIndex := Some(i);
          bulkParamList := inputList;
        }
        i := i + 1;
      }
    }
    FirstMissingAt(sig, dict, i);
    if invalidCtor {
      return Invalid;
    }
    return Scanned(bulkParamIndex, bulkParamList);
  }

  /** The loop of lines 61-65: writes each bulk input into the bulk slot of
      the reused argument array and invokes the constructor. */
  method InvokePerBulkInput(values: array<Option<Artifact>>, b: nat, bulkParamList: seq<Artifact>)
    returns (instances: seq<Arguments>)
    requires b < values.Length
    requires forall j :: 0 <= j < values.Length && j != b ==> values[j].Some?
    modifies values
    ensures |instances| == |bulkParamList|
    ensures forall k :: 0 <= k < |instances| ==>
              && |instances[k]| == values.Length
              && instances[k][b] == bulkParamList[k]
              && forall j :: 0 <= j < values.Length && j != b ==> Some(instances[k][j]) == old(values[j])
  {
    instances := [];
    for k := 0 to |bulkParamList|
      invariant |instances| == k
      invariant forall j :: 0 <= j < values.Length && j != b ==> values[j] == old(values[j])
      invariant forall l :: 0 <= l < k ==>
                  && |instances[l]| == values.Length
                  && instances[l][b] == bulkParamList[l]
                  && forall j :: 0 <= j < values.Length && j != b ==> Some(instances[l][j]) == old(values[j])
    {
      values[b] := Some(bulkParamList[k]);
      instances := instances + [Invoke(values[..])];
    }
  }

  /** Argument lists that agree slot by slot with the bulk expansion are it. */
  lemma BulkInstancesAre(sig: Signature, dict: InputDictionary, b: nat, instances: seq<Arguments>)
    requires NonEmptyGroups(dict)
    requires b < |sig|
    requires forall i :: 0 <= i < |sig| ==> sig[i] in dict
    requires |instances| == |dict[sig[b]]|
    requires forall k :: 0 <= k < |instances| ==>
               && |instances[k]| == |sig|
               && instances[k][b] == dict[sig[b]][k]
               && forall j :: 0 <= j < |sig| && j != b ==> instances[k][j] == dict[sig[j]][0]
    ensures instances == BulkArguments(sig, dict, b)
  {
    var expected := BulkArguments(sig, dict, b);
    forall k | 0 <= k < |instances| ensures instances[k] == expected[k] {
      assert forall j :: 0 <= j < |sig| ==> instances[k][j] == expected[k][j];
    }
  }

  /** How the end of the parameter scan decides the constructor's outcome. */
  lemma ScanDecides(sig: Signature, dict: InputDictionary, scan: ScanResult)
    requires NonEmptyGroups(dict)
    requires var m := FirstMissing(sig, dict);
             && (scan.Invalid? <==> m < |sig| && |MultiIndices(sig, dict, m)| <= 1)
             && (scan.SecondBulk? <==> |MultiIndices(sig, dict, m)| >= 2)
    requires scan.Scanned? ==>
               && FirstMissing(sig, dict) == |sig|
               && MultiIndices(sig, dict, |sig|) ==
                    (if scan.bulkParamIndex.None? then [] else [scan.bulkParamIndex.value])
    ensures scan.Invalid? ==> CtorSpec(sig, dict) == Skipped
    ensures scan.SecondBulk? ==> CtorSpec(sig, dict) == Ambiguous
    ensures scan.Scanned? ==> forall i :: 0 <= i < |sig| ==> sig[i] in dict
    ensures scan.Scanned? && scan.bulkParamIndex.None? ==>
              CtorSpec(sig, dict) == Yields([SingleArguments(sig, dict)])
    ensures scan.Scanned? && scan.bulkParamIndex.Some? ==>
              scan.bulkParamIndex.value < |sig| &&
              CtorSpec(sig, dict) == Yields(BulkArguments(sig, dict, scan.bulkParamIndex.value))
  {
    if scan.Scanned? && scan.bulkParamIndex.Some? {
      var b := scan.bulkParamIndex.value;
      MultiIndicesSound(sig, dict, |sig|);
      assert MultiIndices(sig, dict, |sig|)[0] == b;
      assert b < |sig|;
    }
  }

  /** Slots that all hold the first input of their type are the single instance. */
  lemma SingleInstanceIs(sig: Signature, dict: InputDictionary, values: seq<Option<Artifact>>)
    requires NonEmptyGroups(dict)
    requires forall i :: 0 <= i < |sig| ==> sig[i] in dict
    requires |values| == |sig|
    requires forall j :: 0 <= j < |sig| ==> values[j] == Some(dict[sig[j]][0])
    ensures Invoke(values) == SingleArguments(sig, dict)
  {
  }

  /** Expands one constructor: scans its parameters, then invokes it once, or
      once per bulk input with the one argument array rewritten in place. */
  method ExpandConstructor(sig: Signature, dict: InputDictionary) returns (outcome: CtorOutcome)
    requires NonEmptyGroups(dict)
    ensures outcome == CtorSpec(sig, dict)
  {
    var values := new Option<Artifact>[|sig|](_ => None);
    var scan := ScanParameters(sig, dict, values);
    ScanDecides(sig, dict, scan);
    match scan {
      case Invalid => return Skipped;
      case SecondBulk => return Ambiguous;
      case Scanned(None, _) =>
        SingleInstanceIs(sig, dict, values[..]);
        return Yields([Invoke(values[..])]);
      case Scanned(Some(b), bulkParamList) =>
        var instances := InvokePerBulkInput(values, b, bulkParamList);
        BulkInstancesAre(sig, dict, b, instances);
        return Yields(instances);
    }
  }

  /** Once the enumeration has thrown, later constructors change nothing. */
  lemma {:induction false} FailureIsFinal(ctors: seq<Signature>, dict: InputDictionary, k: nat)
    requires NonEmptyGroups(dict)
    requires k <= |ctors|
    requires AllInstances(ctors[..k], dict).Failed?
    ensures AllInstances(ctors, dict) == AllInstances(ctors[..k], dict)
    decreases |ctors| - k
  {
    if k < |ctors| {
      assert ctors[..k + 1][..k] == ctors[..k];
      FailureIsFinal(ctors, dict, k + 1);
    } else {
      assert ctors[..k] == ctors;
    }
  }

  /** The loop of lines 12-66: every constructor in declaration order, the
      instances of each following those of the previous ones, until one
      throws. */
  method ExpandAll(ctors: seq<Signature>, inputByType: InputDictionary) returns (r: Expansion)
    requires NonEmptyGroups(inputByType)
    ensures r == AllInstances(ctors, inputByType)
  {
    var yielded: seq<Arguments> := [];
    for c := 0 to |ctors|
      invariant AllInstances(ctors[..c], inputByType) == Expanded(yielded)
    {
      assert ctors[..c + 1][..c] == ctors[..c];
      var outcome := ExpandConstructor(ctors[c], inputByType);
      assert AllInstances(ctors[..c + 1], inputByType) == Extend(Expanded(yielded), outcome);
      match outcome {
        case Skipped =>
        case Ambiguous =>
          FailureIsFinal(ctors, inputByType, c + 1);
          return Failed(BulkMessage, yielded);
        case Yields(xs) =>
          yielded := yielded + xs;
      }
    }
    assert ctors[..|ctors|] == ctors;
    r := Expanded(yielded);
  }

  /** Loads the files, groups the objects and expands every constructor in
      declaration order. */
  method CreateInstances(ctors: seq<Signature>, files: seq<InputFile>, parse: Parser)
    returns (r: Expansion)
    ensures var objs := seq(|files|, i requires 0 <= i < |files| => LoadFile(files[i], parse));
            NonEmptyGroups(Grouped(objs)) && r == AllInstances(ctors, Grouped(objs))
  {
    var objs := GetFileObjectInstances(files, parse);
    assert objs == seq(|files|, i requires 0 <= i < |files| => LoadFile(files[i], parse));
    var inputByType := CreateInputDictionary(objs);
    assert inputByType == Grouped(objs);
    forall t | t in inputByType ensures |inputByType[t]| > 0 {
      GroupsNonEmpty(objs, t);
    }
    r := ExpandAll(ctors, inputByType);
  }

  // ---------------------------------------------------------------------
  // Properties of the expansion
  // ---------------------------------------------------------------------

  lemma {:induction false} MultiIndicesNone(sig: Signature, dict: InputDictionary, n: nat)
    requires n <= |sig|
    requires forall i :: 0 <= i < n ==> !IsMulti(dict, sig[i])
    ensures MultiIndices(sig, dict, n) == []
  {
    if n > 0 {
      MultiIndicesNone(sig, dict, n - 1);
    }
  }

  lemma {:induction false} MultiIndicesContains(sig: Signature, dict: InputDictionary, n: nat, a: nat)
    requires a < n <= |sig|
    requires IsMulti(dict, sig[a])
    ensures a in MultiIndices(sig, dict, n)
  {
    if a < n - 1 {
      MultiIndicesContains(sig, dict, n - 1, a);
    }
  }

  lemma {:induction false} MultiIndicesAtMostOne(sig: Signature, dict: InputDictionary, n: nat)
    requires n <= |sig|
    requires forall a, b :: 0 <= a < b < n && IsMulti(dict, sig[a]) ==> !IsMulti(dict, sig[b])
    ensures |MultiIndices(sig, dict, n)| <= 1
  {
    if n > 0 {
      if IsMulti(dict, sig[n - 1]) {
        MultiIndicesNone(sig, dict, n - 1);
      } else {
        MultiIndicesAtMostOne(sig, dict, n - 1);
      }
    }
  }

  /** A parameter type without inputs makes the constructor yield nothing and
      raise nothing, provided the scan does not meet two multi-input parameters
      before reaching it (then it throws first, see SecondBulkThrows). */
  lemma MissingTypeSkips(sig: Signature, dict: InputDictionary, j: nat)
    requires NonEmptyGroups(dict)
    requires j < |sig| && sig[j] !in dict
    requires forall a, b :: 0 <= a < b < j && IsMulti(dict, sig[a]) ==> !IsMulti(dict, sig[b])
    ensures CtorSpec(sig, dict) == Skipped
  {
    var m := FirstMissing(sig, dict);
    assert m <= j;
    MultiIndicesAtMostOne(sig, dict, j);
    MultiIndicesPrefix(sig, dict, m, j);
  }

  /** When every parameter type has exactly one input the constructor is
      invoked once; each parameter receives the one object of its type, so
      parameters of the same type receive the same object. A parameterless
      constructor is the case `sig == []`: one invocation with no arguments. */
  lemma AllSingleInputs(sig: Signature, dict: InputDictionary)
    requires NonEmptyGroups(dict)
    requires forall i :: 0 <= i < |sig| ==> sig[i] in dict && |dict[sig[i]]| == 1
    ensures CtorSpec(sig, dict).Yields? && |CtorSpec(sig, dict).instances| == 1
    ensures var args := CtorSpec(sig, dict).instances[0];
            && |args| == |sig|
            && (forall i :: 0 <= i < |sig| ==> dict[sig[i]] == [args[i]])
            && (forall i, j :: 0 <= i < |sig| && 0 <= j < |sig| && sig[i] == sig[j] ==> args[i] == args[j])
  {
    FirstMissingAt(sig, dict, |sig|);
    MultiIndicesNone(sig, dict, |sig|);
    var args := SingleArguments(sig, dict);
    forall i | 0 <= i < |sig| ensures dict[sig[i]] == [args[i]] {
      assert |dict[sig[i]]| == 1;
    }
  }

  /** With exactly one parameter `b` whose type has N > 1 inputs, the
      constructor is invoked N times: invocation k receives the k-th input of
      that type (in input order) at `b` and the same single objects elsewhere. */
  lemma OneBulkParameter(sig: Signature, dict: InputDictionary, b: nat)
    requires NonEmptyGroups(dict)
    requires b < |sig| && IsMulti(dict, sig[b])
    requires forall i :: 0 <= i < |sig| && i != b ==> sig[i] in dict && |dict[sig[i]]| == 1
    ensures CtorSpec(sig, dict).Yields?
    ensures var xs := CtorSpec(sig, dict).instances;
            && |xs| == |dict[sig[b]]| > 1
            && forall k :: 0 <= k < |xs| ==>
                 && |xs[k]| == |sig|
                 && xs[k][b] == dict[sig[b]][k]
                 && forall i :: 0 <= i < |sig| && i != b ==> dict[sig[i]] == [xs[k][i]]
  {
    FirstMissingAt(sig, dict, |sig|);
    MultiIndicesNone(sig, dict, b);
    MultiIndicesOnly(sig, dict, b, |sig|);
    var xs := BulkArguments(sig, dict, b);
    forall k, i | 0 <= k < |xs| && 0 <= i < |sig| && i != b ensures dict[sig[i]] == [xs[k][i]] {
      assert |dict[sig[i]]| == 1;
    }
  }

  lemma {:induction false} MultiIndicesOnly(sig: Signature, dict: InputDictionary, b: nat, n: nat)
    requires b < n <= |sig| && IsMulti(dict, sig[b])
    requires MultiIndices(sig, dict, b) == []
    requires forall i :: b < i < n ==> !IsMulti(dict, sig[i])
    ensures MultiIndices(sig, dict, n) == [b]
  {
    if n > b + 1 {
      MultiIndicesOnly(sig, dict, b, n - 1);
    }
  }

  /** A second parameter whose type has several inputs throws, even when it
      has the same type as the first (`[t, t]` with two inputs of `t`), and
      whatever the parameters after it are. */
  lemma SecondBulkThrows(sig: Signature, dict: InputDictionary, a: nat, b: nat)
    requires NonEmptyGroups(dict)
    requires a < b < |sig|
    requires IsMulti(dict, sig[a]) && IsMulti(dict, sig[b])
    requires forall i :: 0 <= i < b ==> sig[i] in dict
    ensures CtorSpec(sig, dict) == Ambiguous
  {
    var m := FirstMissing(sig, dict);
    assert m > b;
    MultiIndicesContains(sig, dict, b, a);
    assert |MultiIndices(sig, dict, b + 1)| >= 2;
    MultiIndicesPrefix(sig, dict, b + 1, m);
  }

  /** Sequencing of two enumerations: the second runs only when the first
      completes, and what it yields follows what the first yielded. */
  function Then(first: Expansion, second: Expansion): Expansion {
    match first
    case Failed(_, _) => first
    case Expanded(a) =>
      match second
      case Expanded(b) => Expanded(a + b)
      case Failed(msg, b) => Failed(msg, a + b)
  }

  /** Every constructor contributes, in declaration order: expanding a list
      of constructors is expanding its first part, then its second. */
  lemma {:induction false} AllInstancesAppend(c1: seq<Signature>, c2: seq<Signature>, dict: InputDictionary)
    requires NonEmptyGroups(dict)
    ensures AllInstances(c1 + c2, dict) == Then(AllInstances(c1, dict), AllInstances(c2, dict))
    decreases |c2|
  {
    if c2 == [] {
      assert c1 + c2 == c1;
    } else {
      var init := c2[..|c2| - 1];
      var last := c2[|c2| - 1];
      assert (c1 + c2)[..|c1 + c2| - 1] == c1 + init;
      assert (c1 + c2)[|c1 + c2| - 1] == last;
      AllInstancesAppend(c1, init, dict);
      ThenExtend(AllInstances(c1, dict), AllInstances(init, dict), CtorSpec(last, dict));
    }
  }

  lemma ThenExtend(first: Expansion, second: Expansion, outcome: CtorOutcome)
    ensures Then(first, Extend(second, outcome)) == Extend(Then(first, second), outcome)
  {
    if first.Expanded? && second.Expanded? && outcome.Yields? {
      assert first.instances + (second.instances + outcome.instances) ==
             (first.instances + second.instances) + outcome.instances;
    }
  }

  lemma {:induction false} FirstMissingIgnores(sig: Signature, dict: InputDictionary, t: Tag, xs: seq<Artifact>)
    requires t !in sig
    ensures FirstMissing(sig, dict[t := xs]) == FirstMissing(sig, dict)
    decreases |sig|
  {
    if sig != [] {
      FirstMissingIgnores(sig[1..], dict, t, xs);
    }
  }

  lemma {:induction false} MultiIndicesIgnores(sig: Signature, dict: InputDictionary, t: Tag, xs: seq<Artifact>, n: nat)
    requires n <= |sig| && t !in sig
    ensures MultiIndices(sig, dict[t := xs], n) == MultiIndices(sig, dict, n)
  {
    if n > 0 {
      MultiIndicesIgnores(sig, dict, t, xs, n - 1);
    }
  }

  lemma CtorSpecIgnores(sig: Signature, dict: InputDictionary, t: Tag, xs: seq<Artifact>)
    requires NonEmptyGroups(dict) && |xs| > 0
    requires t !in sig
    ensures CtorSpec(sig, dict[t := xs]) == CtorSpec(sig, dict)
  {
    var d := dict[t := xs];
    FirstMissingIgnores(sig, dict, t, xs);
    var m := FirstMissing(sig, dict);
    MultiIndicesIgnores(sig, dict, t, xs, m);
    if m == |sig| {
      assert SingleArguments(sig, d) == SingleArguments(sig, dict);
      var multi := MultiIndices(sig, dict, m);
      if |multi| == 1 {
        MultiIndicesSound(sig, dict, m);
        assert BulkArguments(sig, d, multi[0]) == BulkArguments(sig, dict, multi[0]);
      }
    }
  }

  /** Objects of a type that no constructor parameter mentions change
      nothing: they are neither required nor consumed. */
  lemma {:induction false} UnmentionedTypeIgnored(ctors: seq<Signature>, dict: InputDictionary, t: Tag, xs: seq<Artifact>)
    requires NonEmptyGroups(dict) && |xs| > 0
    requires forall i :: 0 <= i < |ctors| ==> t !in ctors[i]
    ensures AllInstances(ctors, dict[t := xs]) == AllInstances(ctors, dict)
    decreases |ctors|
  {
    if ctors != [] {
      var init := ctors[..|ctors| - 1];
      UnmentionedTypeIgnored(init, dict, t, xs);
      CtorSpecIgnores(ctors[|ctors| - 1], dict, t, xs);
    }
  }

  /** Inputs are not required to be consumed: with one A, one B and one C, a
      constructor taking (A, B) is invoked once with the A and the B, and the
      C is ignored rather than reported. */
  lemma ExtraInputIsNotReported(a: Node, b: Node, c: Node)
    requires a.className == "A" && b.className == "B" && c.className == "C"
    ensures var dict := map[NodeType("A") := [NodeObject(a)], NodeType("B") := [NodeObject(b)],
                            NodeType("C") := [NodeObject(c)]];
            AllInstances([[NodeType("A"), NodeType("B")]], dict) == Expanded([[NodeObject(a), NodeObject(b)]])
  {
    var dict := map[NodeType("A") := [NodeObject(a)], NodeType("B") := [NodeObject(b)],
                    NodeType("C") := [NodeObject(c)]];
    var sig := [NodeType("A"), NodeType("B")];
    AllSingleInputs(sig, dict);
    var ctors: seq<Signature> := [sig];
    assert ctors[..0] == [];
    var args := CtorSpec(sig, dict).instances[0];
    assert dict[sig[0]] == [args[0]] && dict[sig[1]] == [args[1]];
    assert args == [NodeObject(a), NodeObject(b)];
    assert CtorSpec(sig, dict) == Yields([args]);
  }
}
