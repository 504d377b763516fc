# gbx-tool-api core, modelled in Dafny

GbxToolAPI runs "tools" over Trackmania/ManiaPlanet GBX files. Its console runner works in four steps:

1. It loads each input path as a parsed node, a `TextFile` or a `BinFile`.
2. It groups the loaded objects by runtime type.
3. It expands every public constructor of the tool into the argument lists the constructor is invoked with. A type with several inputs makes its parameter a *bulk* parameter: the constructor is invoked once per input of that type.
4. It saves what the tools produce under generated or given file names.

Around that sit the parts of the runner that read `Nadeo.ini` (the console runner's and the command-line installer's versions), the `-c:` configuration-key table, the constructor match for parsed nodes, the ManiaPlanet chunk-range tests and two regex helpers.

The model has one module per source file, plus shared modules:

| module | models |
|---|---|
| `Common` | `Option`/`Result` (a `null`, an exception message), `IsNullOrWhiteSpace`, ASCII lower-casing, `Path.Combine` and `Path.GetFileName` with '/' as the separator |
| `Artifacts` | nodes, `TextFile`, `BinFile` and the runtime-type tag objects are grouped by |
| `ConstructorPicker` | `ToolConstructorPicker`: loading, grouping, constructor expansion |
| `ToolConsole` | the argument split, `GetSuitableConstructor`, `GetConfigProps` and the option lookup |
| `OutputSaver` | `Save`, `SaveGeneric`, `SaveNodeFile`, `GenerateNodeFileName`, and the `NodeFile<T>` record |
| `IniLines` | the line rules both `NadeoIni.Parse` versions share |
| `ConsoleNadeoIni`, `CliNadeoIni` | the two `NadeoIni.Parse` |
| `GameVersion` | the three `IsManiaPlanet` overloads |
| `RegexUtils` | `PascalCaseToKebabCase` and `GetExtendedAsciiValid` over UTF-16 code units |

Where the source changes state step by step, the model is a `method` with the source's loop, proved against a specification function:

- the grouping dictionary, built one object at a time, which gives what `GroupBy` and the copy loop of lines 73-83 produce;
- the parameter scan with its `invalidCtor`/`bulkParamIndex` flags;
- the reused argument array, an `array` rewritten in place for each bulk input;
- the constructor loop;
- the key-table loops;
- the property loop of `SaveNodeFile`;
- the two `Nadeo.ini` loops.

The lemmas then state what the source promises about those specification functions.

Reflection is replaced by explicit tables:

- a constructor is the sequence of its parameter type tags;
- a configuration type is its name and its property names;
- an interface is its name and its generic type arguments;
- assignability is a given relation.

Calls into other code and the host are parameters:

- `GameBox.ParseNode` is a function from an input file to an optional node;
- `NodeManager.GetGbxExtensions` is a function from a class id to extensions;
- `DateTime.Now` is a `DateTime` value and `Guid.NewGuid()` is a string;
- the documents folder is a string;
- the lines of `Nadeo.ini` are a sequence of strings;
- a file's decoded characters and bytes are fields of the input.

`Node.Save` becomes the returned `SaveEffect`.

## Model

| member | source | states |
|---|---|---|
| Common.GetFileName | Src/GbxToolAPI.Console/OutputSaver.cs:85 | the result is a suffix of the path with no separator in it, and a path without a separator is its own file name |
| Common.GetFileNameDropsDirectory | Src/GbxToolAPI.Console/OutputSaver.cs:85 | `GetFileName(dir + "/" + name)` is `name` for any directory part, which is the "discard of the path info" |
| Common.Combine | Src/GbxToolAPI.CLI/NadeoIni.cs:40 | an empty first part gives the second part and an empty second part the first; a second part starting with '/' replaces the first; a first part ending in '/' is joined without another; otherwise the parts are joined with one '/' |
| Common.IsNullOrWhiteSpace | Src/GbxToolAPI.CLI/NadeoIni.cs:34 | null, "" and a string of white space only are blank, and one character that is not white space makes a string non-blank |
| Common.LowerMapsEachChar | Src/GbxToolAPI.Console/ToolConsole.cs:29 | `Lower` keeps the length, turns each upper-case ASCII letter into its lower-case letter, keeps every other character, and leaves no upper-case letter |
| Artifacts.TypeOf | Src/GbxToolAPI.Console/ToolConstructorPicker.cs:73 | the runtime type is a node class exactly for parsed nodes; `TextFile` and `BinFile` have their own types |
| ConstructorPicker.IsTextFile | Src/GbxToolAPI.Console/ToolConstructorPicker.cs:104-123 | true exactly when no decoded character is NUL; false means a NUL was read |
| ConstructorPicker.LoadFile | Src/GbxToolAPI.Console/ToolConstructorPicker.cs:88-101 | a file is a `TextFile` with its text iff it sniffs as text; otherwise it is the parsed node when the parser returns one, otherwise a `BinFile` of its bytes |
| ConstructorPicker.GetFileObjectInstances | Src/GbxToolAPI.Console/ToolConstructorPicker.cs:88-102 | exactly one loaded object per path, in path order, each being `LoadFile` of its path |
| ConstructorPicker.OfType | Src/GbxToolAPI.Console/ToolConstructorPicker.cs:73-80 | a group holds only input objects of its own type, and no more objects than the input |
| ConstructorPicker.CreateInputDictionary | Src/GbxToolAPI.Console/ToolConstructorPicker.cs:69-86 | the dictionary built object by object has one key per type present, and each key maps to the objects of that type in input order |
| ConstructorPicker.GroupStep | Src/GbxToolAPI.Console/ToolConstructorPicker.cs:73-82 | adding the next object appends it to its group, which is created when its type is new; no other group changes |
| ConstructorPicker.OfTypeMembership | Src/GbxToolAPI.Console/ToolConstructorPicker.cs:73-82 | an input object is in the group of type t iff its runtime type is t, so it is in exactly one group |
| ConstructorPicker.OfTypeCount | Src/GbxToolAPI.Console/ToolConstructorPicker.cs:73-82 | each object occurs in its group as often as in the input and never in another group: nothing is dropped or duplicated |
| ConstructorPicker.OfTypeAppend | Src/GbxToolAPI.Console/ToolConstructorPicker.cs:73-82 | the group of a concatenation is the concatenation of the groups, so group order is input order |
| ConstructorPicker.GroupsNonEmpty | Src/GbxToolAPI.Console/ToolConstructorPicker.cs:33-34 | every group holds at least one object, so the `case <= 0` throw can never be reached |
| ConstructorPicker.FirstMissing | Src/GbxToolAPI.Console/ToolConstructorPicker.cs:21-29 | the index where the scan stops: every earlier parameter type has a group and the parameter there has none |
| ConstructorPicker.SingleArguments | Src/GbxToolAPI.Console/ToolConstructorPicker.cs:35-37 | each parameter receives the first (and, outside bulk mode, only) input of its type |
| ConstructorPicker.BulkArguments | Src/GbxToolAPI.Console/ToolConstructorPicker.cs:61-65 | one argument list per input of the bulk type: list k has the k-th input at the bulk slot and the single inputs elsewhere |
| ConstructorPicker.Invoke | Src/GbxToolAPI.Console/ToolConstructorPicker.cs:57 | the constructor receives the slot values of the argument array, in order |
| ConstructorPicker.ScanParameters | Src/GbxToolAPI.Console/ToolConstructorPicker.cs:21-48 | the scan sets `invalidCtor` iff it meets a parameter type with no group and fewer than two multi-input parameters before it; it throws iff it meets a second multi-input parameter first; otherwise it fills every non-bulk slot with the single input of its type and remembers the bulk index and list |
| ConstructorPicker.InvokePerBulkInput | Src/GbxToolAPI.Console/ToolConstructorPicker.cs:61-65 | with the argument array rewritten in place, invocation k sees the k-th bulk input at the bulk slot and the values the scan left elsewhere |
| ConstructorPicker.BulkInstancesAre | Src/GbxToolAPI.Console/ToolConstructorPicker.cs:61-65 | argument lists that agree slot by slot with the bulk expansion are that expansion |
| ConstructorPicker.ScanDecides | Src/GbxToolAPI.Console/ToolConstructorPicker.cs:21-59 | how the scan ends decides the outcome: an invalid constructor is skipped, a second bulk parameter throws, and otherwise it yields one or N instances |
| ConstructorPicker.ExpandConstructor | Src/GbxToolAPI.Console/ToolConstructorPicker.cs:14-65 | one constructor, expanded with a fresh argument array, gives exactly the declarative outcome `CtorSpec` |
| ConstructorPicker.FailureIsFinal | Src/GbxToolAPI.Console/ToolConstructorPicker.cs:41 | once a constructor has thrown, later constructors contribute nothing |
| ConstructorPicker.ExpandAll | Src/GbxToolAPI.Console/ToolConstructorPicker.cs:12-66 | the constructor loop yields `AllInstances`: every constructor's instances in declaration order, cut off with the bulk message at the first throw |
| ConstructorPicker.CreateInstances | Src/GbxToolAPI.Console/ToolConstructorPicker.cs:8-67 | loading, grouping and expansion together give `AllInstances` over the groups of the loaded objects, and those groups are never empty |
| ConstructorPicker.MissingTypeSkips | Src/GbxToolAPI.Console/ToolConstructorPicker.cs:25-29 | a parameter type without inputs makes the constructor yield nothing and throw nothing, unless two multi-input parameters come before it |
| ConstructorPicker.AllSingleInputs | Src/GbxToolAPI.Console/ToolConstructorPicker.cs:55-58 | when every parameter type has exactly one input, the constructor yields one instance; each parameter gets the object of its type, and same-typed parameters get the same object; a parameterless constructor yields one empty invocation |
| ConstructorPicker.OneBulkParameter | Src/GbxToolAPI.Console/ToolConstructorPicker.cs:38-46 | with exactly one parameter whose type has N > 1 inputs, the constructor yields N instances: instance k has the k-th input at that slot and the same single objects elsewhere |
| ConstructorPicker.SecondBulkThrows | Src/GbxToolAPI.Console/ToolConstructorPicker.cs:39-42 | a second multi-input parameter throws the bulk message, even when it has the first one's type and whatever comes after it |
| ConstructorPicker.AllInstancesAppend | Src/GbxToolAPI.Console/ToolConstructorPicker.cs:12-66 | expanding a constructor list is expanding its first part and then its second, so every valid constructor contributes in declaration order |
| ConstructorPicker.CtorSpecIgnores | Src/GbxToolAPI.Console/ToolConstructorPicker.cs:21-48 | a constructor's outcome does not depend on groups of types its parameters do not mention |
| ConstructorPicker.UnmentionedTypeIgnored | Src/GbxToolAPI.Console/ToolConstructorPicker.cs:12-66 | inputs of a type no constructor mentions change nothing: they are neither required nor reported |
| ConstructorPicker.ExtraInputIsNotReported | Src/GbxToolAPI.Console/ToolConstructorPicker.cs:8-67 | with one A, one B and one C, a constructor (A, B) is invoked once with the A and the B, and the C causes no error |
| ToolConsole.InputFiles | Src/GbxToolAPI.Console/ToolConsole.cs:15 | the input files are the longest prefix of the arguments with no element starting with "-" |
| ToolConsole.RemainingArgs | Src/GbxToolAPI.Console/ToolConsole.cs:17 | the input files followed by the remaining arguments are the command line, and the remaining arguments are empty or start with an option |
| ToolConsole.GetSuitableConstructor | Src/GbxToolAPI.Console/ToolConsole.cs:40-72 | returns the earliest constructor whose arity equals the argument count and whose every parameter accepts the argument at its position; returns null iff no constructor does |
| ToolConsole.ConfigTypes | Src/GbxToolAPI.Console/ToolConsole.cs:80-89 | every configuration type comes from a generic `IConfigurable`1` interface, and every such interface contributes its type argument |
| ToolConsole.ConfigTypesOne | Src/GbxToolAPI.Console/ToolConsole.cs:80-89 | one interface contributes its first type argument exactly when it is a generic `IConfigurable`1` |
| ToolConsole.ConfigTypesAppend | Src/GbxToolAPI.Console/ToolConsole.cs:78-90 | the configuration types of two lists of interfaces are those of the first followed by those of the second, so they come in interface order |
| ToolConsole.CollectConfigTypes | Src/GbxToolAPI.Console/ToolConsole.cs:76-89 | the interface loop collects `ConfigTypes`, in interface order |
| ToolConsole.PropertiesOf | Src/GbxToolAPI.Console/ToolConsole.cs:95 | one property per name of the configuration type, in order |
| ToolConsole.BuildTableStep | Src/GbxToolAPI.Console/ToolConsole.cs:97-100 | one property first overwrites its unqualified key, then throws if its qualified key is present and adds it otherwise |
| ToolConsole.AddPropertyStep | Src/GbxToolAPI.Console/ToolConsole.cs:95-101 | one pass of the inner loop either extends the table or makes the whole build throw with that key |
| ToolConsole.AddProperties | Src/GbxToolAPI.Console/ToolConsole.cs:95-101 | the inner loop gives the table built from the properties visited so far plus those of this type |
| ToolConsole.FillConfigProps | Src/GbxToolAPI.Console/ToolConsole.cs:91-104 | the nested loops give `BuildTable` over all properties of all configuration types, throwing at the first repeated qualified key |
| ToolConsole.GetConfigProps | Src/GbxToolAPI.Console/ToolConsole.cs:74-105 | the table is `BuildTable` over the properties of the types collected from the interfaces |
| ToolConsole.AddFailureIsFinal | Src/GbxToolAPI.Console/ToolConsole.cs:100 | once `Add` has thrown, the remaining properties change nothing |
| ToolConsole.KeysAreLowerCaseOptions | Src/GbxToolAPI.Console/ToolConsole.cs:97-100 | every key starts with "-c:" and has no upper-case letter |
| ToolConsole.KeyKindsDiffer | Src/GbxToolAPI.Console/ToolConsole.cs:99-100 | an unqualified key never equals a qualified key when property names hold no ':' |
| ToolConsole.TableKeys | Src/GbxToolAPI.Console/ToolConsole.cs:91-104 | a built table holds exactly the unqualified and qualified keys of the properties visited |
| ToolConsole.QualifiedKeyAmong | Src/GbxToolAPI.Console/ToolConsole.cs:100 | a qualified key is among the keys exactly when some visited property has that qualified key |
| ToolConsole.QualifiedKeysMapToTheirProperty | Src/GbxToolAPI.Console/ToolConsole.cs:100 | in a built table every property's qualified key maps to that property |
| ToolConsole.UnqualifiedKeyLastWins | Src/GbxToolAPI.Console/ToolConsole.cs:99 | an unqualified key maps to the last property with that lower-cased name, since the indexer overwrites |
| ToolConsole.AddThrowsOnRepeat | Src/GbxToolAPI.Console/ToolConsole.cs:100 | adding a property throws exactly when an earlier property has its qualified key |
| ToolConsole.DuplicateQualifiedKeyThrows | Src/GbxToolAPI.Console/ToolConsole.cs:100 | the table build throws iff two properties share a qualified key (same lower-cased type and property name) |
| ToolConsole.FindConfigProp | Src/GbxToolAPI.Console/ToolConsole.cs:29-31 | an argument finds a property iff its lower-cased form is a key, and then it finds the property stored under that key |
| ToolConsole.OptionLookupIgnoresCase | Src/GbxToolAPI.Console/ToolConsole.cs:29-31 | any argument that lower-cases to a property's qualified key finds that property; one that lower-cases to an unqualified key finds the last property of that name |
| OutputSaver.FormatStamp | Src/GbxToolAPI.Console/OutputSaver.cs:99 | "yyyy-MM-dd_HH-mm-ss" is 19 characters with '-' and '_' at the fixed positions |
| OutputSaver.DigitsRoundTrip | Src/GbxToolAPI.Console/OutputSaver.cs:99 | a zero-padded field read back as a number is the number, when it fits the width |
| OutputSaver.StampRoundTrip | Src/GbxToolAPI.Console/OutputSaver.cs:99 | every field of a valid date and time can be read back from the timestamp |
| OutputSaver.GenerateNodeFileName | Src/GbxToolAPI.Console/OutputSaver.cs:90-100 | null throws `ArgumentNullException` and nothing else does; the name starts with "{time}_{guid}" and ends with ".Gbx"; the segment between is "." plus the first registered extension, or nothing when no extension is registered |
| OutputSaver.GeneratedNamesDiffer | Src/GbxToolAPI.Console/OutputSaver.cs:99 | two names generated at the same moment for the same node with different GUIDs differ |
| OutputSaver.GeneratedNameIsBaseName | Src/GbxToolAPI.Console/OutputSaver.cs:99 | without a separator in the GUID or the extension, a generated name has no directory part |
| OutputSaver.NodeFileOutput | Src/GbxToolAPI/NodeFile.cs:5 | a `NodeFile<T>` is an instance of the generic `NodeFile`1` |
| OutputSaver.NodeFilePropertiesReadBack | Src/GbxToolAPI.Console/OutputSaver.cs:58-69 | the property loop reads a `NodeFile` back: its node, and its file name with null turned into "" |
| OutputSaver.ReadNodeFileProperties | Src/GbxToolAPI.Console/OutputSaver.cs:58-69 | the loop ends with the last "Node" property as a node and the last "FileName" property as a string or "", each null when absent |
| OutputSaver.SaveNodeFile | Src/GbxToolAPI.Console/OutputSaver.cs:53-88 | saving a `NodeFile` does what `SaveSpec` says for it |
| OutputSaver.Save | Src/GbxToolAPI.Console/OutputSaver.cs:19-51 | the dispatch over node, generic and other outputs does what `SaveSpec` says |
| OutputSaver.UnknownOutputFails | Src/GbxToolAPI.Console/OutputSaver.cs:23-50 | saving fails iff the output is neither a node nor a `NodeFile<T>`, and then with "Unknown output type" |
| OutputSaver.RawNodeIgnoresOutputPath | Src/GbxToolAPI.Console/OutputSaver.cs:31-32 | a raw node is written under the generated name alone; the output directory plays no part |
| OutputSaver.NullNodeSavesNothing | Src/GbxToolAPI.Console/OutputSaver.cs:71-74 | a `NodeFile` with a null node saves nothing and does not throw |
| OutputSaver.BlankNameIsGenerated | Src/GbxToolAPI.Console/OutputSaver.cs:76-85 | a `NodeFile` whose name is null, empty or blank is written in the output directory under a generated name |
| OutputSaver.ExplicitNameKeepsBaseName | Src/GbxToolAPI.Console/OutputSaver.cs:85 | a `NodeFile` whose name has a directory part is written in the output directory under that name's base name; the directory part is discarded |
| OutputSaver.PlainNameIsKept | Src/GbxToolAPI.Console/OutputSaver.cs:75-85 | a `NodeFile` whose name is non-blank and has no '/' is written in the output directory under exactly that name |
| OutputSaver.NestedNameExample | Src/GbxToolAPI.Console/OutputSaver.cs:85 | "Maps/X/a.Map.Gbx" saved under "out" is written to "out/a.Map.Gbx" |
| IniLines.LastValueStep | Src/GbxToolAPI.Console/NadeoIni.cs:16-34 | one more line changes a key's value only when it is a key line, and then to the text after the key |
| IniLines.LastValueIsLastKeyLine | Src/GbxToolAPI.Console/NadeoIni.cs:18-33 | a key has no value iff no line starts with it; otherwise its value is the text after the key on the last line starting with it, so the comment/section filter never hides a key line |
| IniLines.KeysAreExclusive | Src/GbxToolAPI.Console/NadeoIni.cs:23-33 | no line starts with both "UserSubDir=" and "UserDir=" |
| ConsoleNadeoIni.Parse | Src/GbxToolAPI.Console/NadeoIni.cs:10-46 | throws "No UserSubDir or UserDir found." iff neither key has a value; otherwise `UserSubDir` is the last value or "TmForever", and `UserDir` is the last value or null |
| ConsoleNadeoIni.NoKeyLineThrows | Src/GbxToolAPI.Console/NadeoIni.cs:36-39 | a file without key lines, whatever comments, sections or other settings it holds, leaves both keys unset, so the parse throws |
| CliNadeoIni.ReplaceAll | Src/GbxToolAPI.CLI/NadeoIni.cs:36 | `Replace` with the pattern itself changes nothing, and a replacement as long as the pattern keeps the length |
| CliNadeoIni.ReplaceAllSplit | Src/GbxToolAPI.CLI/NadeoIni.cs:36 | `Replace` copies the text before the leftmost occurrence, substitutes that occurrence and goes on with the text after it |
| CliNadeoIni.ReplaceAllWithoutPattern | Src/GbxToolAPI.CLI/NadeoIni.cs:36 | `Replace` leaves a string without the pattern unchanged |
| CliNadeoIni.ResolveUserDataDir | Src/GbxToolAPI.CLI/NadeoIni.cs:34-45 | the resolution throws the invalid-combination message iff both `UserDir` and `UserSubDir` are null or blank; with a blank `UserDir` it combines the documents folder with `UserSubDir` |
| CliNadeoIni.ReplaceAllLeading | Src/GbxToolAPI.CLI/NadeoIni.cs:36 | `Replace` substitutes a leading occurrence and goes on after it |
| CliNadeoIni.Parse | Src/GbxToolAPI.CLI/NadeoIni.cs:7-51 | the loop and the three-way branch compute `UserDataDir` from the last key values and the documents folder |
| CliNadeoIni.NoKeyLinesUseDefault | Src/GbxToolAPI.CLI/NadeoIni.cs:38-41 | a file without key lines resolves to "TmForever" under the documents folder, not to an error |
| CliNadeoIni.InvalidCombinationExactly | Src/GbxToolAPI.CLI/NadeoIni.cs:34-45 | the parse throws iff `UserDir` is absent or blank and `UserSubDir` was set explicitly to a blank value, and then with the invalid-combination message |
| CliNadeoIni.UserDirTakesPrecedence | Src/GbxToolAPI.CLI/NadeoIni.cs:34-37 | a non-blank last `UserDir` wins, with "{userdocs}" replaced, whatever `UserSubDir` says |
| CliNadeoIni.UserDocsPrefixExpands | Src/GbxToolAPI.CLI/NadeoIni.cs:36 | "UserDir={userdocs}" followed by a path without '{' resolves to that path under the documents folder |
| GameVersion.AnyInRange | Src/GbxToolAPI/GameVersion.cs:9 | true iff some chunk id lies in (lo, hi] |
| GameVersion.IsManiaPlanetReplay | Src/GbxToolAPI/GameVersion.cs:7-10 | a replay is ManiaPlanet iff one of its chunk ids lies in (0x03093015, 0x03093FFF] |
| GameVersion.IsManiaPlanetGhost | Src/GbxToolAPI/GameVersion.cs:12-15 | a ghost is ManiaPlanet iff one of its chunk ids lies in (0x03092019, 0x03092FFF] |
| GameVersion.IsManiaPlanetMap | Src/GbxToolAPI/GameVersion.cs:17-20 | a map is ManiaPlanet iff one of its chunk ids lies in (0x0304302A, 0x03043FFF] |
| GameVersion.AnyInRangeAppend | Src/GbxToolAPI/GameVersion.cs:7-20 | the test over a concatenation is the disjunction of the tests over the parts |
| GameVersion.MoreChunksStayManiaPlanet | Src/GbxToolAPI/GameVersion.cs:7-20 | adding chunks never turns a replay, ghost or map from ManiaPlanet into not ManiaPlanet |
| GameVersion.RangeBounds | Src/GbxToolAPI/GameVersion.cs:7-20 | for each of the three ranges the lower bound is excluded, the upper bound included, and the ids just outside fail |
| GameVersion.NoChunksIsNotManiaPlanet | Src/GbxToolAPI/GameVersion.cs:7-20 | an empty chunk list is not ManiaPlanet for any of the three |
| RegexUtils.ExtendedAsciiValid | Src/GbxToolAPI/RegexUtils.cs:18-21 | the length is kept; every unit above U+00FF becomes '_', every other unit is kept, and every unit of the result is at most U+00FF |
| RegexUtils.ExtendedAsciiValidIdempotent | Src/GbxToolAPI/RegexUtils.cs:18-21 | applying it twice is applying it once |
| RegexUtils.ExtendedAsciiValidFixedPoints | Src/GbxToolAPI/RegexUtils.cs:18-21 | a string comes back unchanged iff all its units are Latin-1 |
| RegexUtils.AstralCharGivesTwoUnderscores | Src/GbxToolAPI/RegexUtils.cs:10-11 | a character outside the Basic Multilingual Plane is two code units and becomes "__" |
| RegexUtils.ReplaceFrom | Src/GbxToolAPI/RegexUtils.cs:7-8 | the left-to-right regex replacement inserts '-' before position i > 0 exactly when an upper-case letter there is followed by a lower-case one, or an upper-case letter or digit there follows a lower-case letter, and copies every unit otherwise |
| RegexUtils.NoHyphenAtStart | Src/GbxToolAPI/RegexUtils.cs:7 | the replacement never puts a hyphen at position 0 |
| RegexUtils.NoHyphensBetween | Src/GbxToolAPI/RegexUtils.cs:7-8 | where the rule puts no hyphen, the input is copied unchanged |
| RegexUtils.HyphenatedWithoutHyphens | Src/GbxToolAPI/RegexUtils.cs:7-8 | deleting the hyphens undoes the insertion |
| RegexUtils.HyphenatedLast | Src/GbxToolAPI/RegexUtils.cs:7-8 | the hyphenated text ends with the last unit of the input |
| RegexUtils.TrimStart | Src/GbxToolAPI/RegexUtils.cs:15 | the result is a suffix of the input that does not start with white space, and every unit removed is white space |
| RegexUtils.TrimEnd | Src/GbxToolAPI/RegexUtils.cs:15 | the result is a prefix of the input that does not end with white space, and every unit removed is white space |
| RegexUtils.Trim | Src/GbxToolAPI/RegexUtils.cs:15 | `Trim` gives text that neither starts nor ends with white space, "" for blank input, and the input itself when it has no white space at either end |
| RegexUtils.LowerWithoutHyphens | Src/GbxToolAPI/RegexUtils.cs:15 | lower-casing and hyphen deletion commute |
| RegexUtils.PascalCaseToKebabCase | Src/GbxToolAPI/RegexUtils.cs:13-16 | the kebab-case form holds no upper-case letter and neither starts nor ends with white space |
| RegexUtils.KebabWithoutHyphensIsLower | Src/GbxToolAPI/RegexUtils.cs:13-16 | for input without hyphens of its own, deleting the hyphens of the kebab-case form gives the trimmed, lower-cased input: hyphens are inserted only before upper-case letters and digits, so trimming removes the same white space with or without them |
| RegexUtils.LeadingSpaceGivesLeadingHyphen | Src/GbxToolAPI/RegexUtils.cs:13-16 | white space before a capital lets a hyphen lead the result (" Ab" becomes "-ab"): the start guard looks at the untrimmed input |
| RegexUtils.DisplayBlockCountHyphens | Src/GbxToolAPI/RegexUtils.cs:7-8 | "DisplayBlockCount" gets hyphens before 'B' and 'C' only |
| RegexUtils.DisplayBlockCountExample | Src/GbxToolAPI/RegexUtils.cs:13-16 | "DisplayBlockCount" becomes "display-block-count" |

## How the constructor resolver behaves

`ToolConstructorPicker.cs` resolves constructors as follows:

- There is no "first matching constructor" rule: every constructor whose parameter types all have inputs contributes its instances, in declaration order (`AllInstancesAppend`).
- Inputs need not be consumed: a type no parameter mentions is ignored rather than reported (`UnmentionedTypeIgnored`, `ExtraInputIsNotReported`).
- A second bulk parameter throws during the scan, before later parameters are examined (`SecondBulkThrows`).
- There are no collection-typed parameter slots and no single-output mode: a parameter type with several inputs always splits into one invocation per input.

## Left out

- File and stream I/O: the UTF-8 `StreamReader` with its byte-order-mark detection, `ReadAllText`, `ReadAllBytes` and `ReadLines`. A file is given by its decoded characters and its bytes.
- The `DecoderFallbackException` handler of `IsTextFile` (lines 124-128) is not modelled: it cannot be reached. `Encoding.UTF8` replaces a malformed byte sequence with U+FFFD instead of throwing. So a file of the bytes FF 41, which is not valid UTF-8, decodes to U+FFFD followed by 'A' and loads as a `TextFile`, although the comments in `IsTextFile` call invalid UTF-8 binary.
- GBX.NET: parsing, `Node.Save` and the extension registry are parameters or returned effects, as above.
- The tool constructors, the GBX parser and `Node.Save` are taken never to throw. A tool constructor that throws inside `ctor.Invoke` (ToolConstructorPicker.cs:57, 64) surfaces as `TargetInvocationException` and ends the enumeration after the instances already yielded. A throw from `GameBox.ParseNode` (ToolConstructorPicker.cs:98) ends `CreateInstances` before any instance, and a throw from `Node.Save` (OutputSaver.cs:32, 85) ends `Save`. The model takes `ParseNode` to return null, not throw, for a binary file that is not GBX; GBX.NET is not part of this model.
- The clock, the GUID generator and the documents folder are parameters. A GUID is any string.
- Reflection is replaced by the explicit tables described above. .NET does not guarantee the order of `GetConstructors()`, `GetInterfaces()` or `GetProperties()`; the model takes each to be declaration order. `AllInstancesAppend` (the order of instances) and `UnqualifiedKeyLastWins` (which property an unqualified key keeps) depend on that order.
- `Path.Combine` and `Path.GetFileName` use '/' as the only separator; drive letters and the alternative separator are not modelled.
- `ToLower`, `ToLowerInvariant` and culture-sensitive `StartsWith` are modelled on ASCII only: only 'A'..'Z' change case. The current culture is taken to map ASCII case as the invariant culture does; under a culture such as tr-TR, `ToLower()` at RegexUtils.cs:15 turns 'I' into 'ı' (U+0131), which the model does not capture.
- The `yield` iterator's laziness is not modelled: the expansion is a sequence of argument lists plus an optional exception that ends it.
- The "Invalid constructor" throw when `Invoke` returns something that is not a `T` is not modelled. A tool constructor always returns a `T`.
- The `case <= 0` throw in `CreateInstances` is not a branch of the model: `GroupsNonEmpty` proves it unreachable.
- In `ToolConsole.CreateAsync`, the code around the modelled split and lookup is left out:
  - the node parse of every input file, which throws on an unparseable file (line 16);
  - the construction of the tool that is then discarded (lines 21-25);
  - the option loop's empty body (lines 27-35).
- `Console.WriteLine` and `Stopwatch` in `SaveNodeFile` are logging and timing only.
- `OutputSaver` stores the output's runtime type in a field (line 16), which `SaveGeneric` and `SaveNodeFile` read; `Save` reads the same type into a local (line 21). The model reads the kind of the output once, from the output itself.
- A null output makes the `OutputSaver` constructor throw `NullReferenceException` (line 16); the model's `Output` has no null case.
- ConstructorPicker.MissingTypeSkips: stated only when no two multi-input parameters come before the missing one, because otherwise the scan throws first (see `SecondBulkThrows`).
- RegexUtils.KebabWithoutHyphensIsLower: stated only for input without hyphens of its own, because deleting hyphens from the result also deletes the input's own.
- CliNadeoIni.UserDocsPrefixExpands: stated only for a rest of the path without '{', so that no second "{userdocs}" can occur in it.
- `Converters/Yml/Vec3Converter.cs`: float parsing and formatting through YamlDotNet.
- `AssetsManager.cs`: entry-assembly reflection, file I/O and YAML deserialisation.
- The SignalR hubs of the client, the server and the client tests: transport and async lifecycle only.
- `ToolComponentBase.cs` and `IDynamicScriptService.cs`: Blazor UI, local storage and script injection.
- The `DisplayBlockCount` sample tool: its logic rests on a foreign text formatter and the platform's invalid file-name characters.
- Data holders without logic: the game-installation and GitHub-release records, `ConsoleOptions`, the `Tool*Attribute` classes and `IConfigurable`. `TextFile`, `BinFile` and `NodeFile<T>` are plain datatypes of the model.
- `Tool.cs`: its static constructor only sets up LZO compression for the whole process.
