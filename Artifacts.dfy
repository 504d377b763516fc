/** The objects the console runner handles: parsed GBX nodes, the `TextFile`
    and `BinFile` wrappers for files that are not nodes, and the runtime type
    tag by which the runner groups and matches them. */
module Artifacts {

  type Byte = b: int | 0 <= b < 256

  /** A parsed GBX node. `className` is its runtime class (`CGameCtnChallenge`,
      ...), `classId` the GBX class id that the extension table is keyed by,
      and `handle` tells two nodes of the same class apart. */
  datatype Node = Node(className: string, classId: nat, handle: nat)

  /** An object produced by loading one input file. */
  datatype Artifact =
    | TextFile(text: string)
    | BinFile(data: seq<Byte>)
    | NodeObject(node: Node)

  /** A runtime type, compared by exact equality as `Type` keys are. */
  datatype Tag = TextFileType | BinFileType | NodeType(className: string)

  /** `obj.GetType()`. */
  function TypeOf(a: Artifact): (t: Tag)
    ensures t.NodeType? <==> a.NodeObject?
    ensures a.NodeObject? ==> t == NodeType(a.node.className)
    ensures a.TextFile? <==> t == TextFileType
    ensures a.BinFile? <==> t == BinFileType
  {
    match a
    case TextFile(_) => TextFileType
    case BinFile(_) => BinFileType
    case NodeObject(n) => NodeType(n.className)
  }
}
