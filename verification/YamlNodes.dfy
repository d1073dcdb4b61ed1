/** YAML documents: the events of a document and the node table built from them. */
module YamlNodes {
  import opened Basics

  datatype Event =
    | Alias(anchor: string)
    | Scalar(name: Option<string>, tag: Option<string>, text: string)
    | SequenceStart(name: Option<string>, tag: Option<string>)
    | SequenceEnd
    | MappingStart(name: Option<string>, tag: Option<string>)
    | MappingEnd
    | DocumentEnd

  /** A key with its value; the value is 0 until it is known. */
  datatype Pair = Pair(key: nat, val: nat)

  /** Nodes refer to each other by their place in the table, counted from 1. */
  datatype Node =
    | ScalarNode(tag: string, text: string)
    | SequenceNode(tag: string, items: seq<nat>)
    | MappingNode(tag: string, pairs: seq<Pair>)

  type Table = seq<Node>

  const SCALAR_TAG := "tag:yaml.org,2002:str"
  const SEQUENCE_TAG := "tag:yaml.org,2002:seq"
  const MAPPING_TAG := "tag:yaml.org,2002:map"

  /** A missing tag and "!" stand for the default. */
  function Defaulted(tag: Option<string>, default: string): (r: string)
    ensures default != "!" ==> r != "!"
  {
    if tag.None? || tag.value == "!" then default else tag.value
  }

  // ---------- events as trees ----------

  /** The events of one node. */
  datatype Tree =
    | AliasTree(anchor: string)
    | ScalarTree(name: Option<string>, tag: Option<string>, text: string)
    | SequenceTree(name: Option<string>, tag: Option<string>, kids: seq<Tree>)
    | MappingTree(name: Option<string>, tag: Option<string>, kids: seq<Tree>)

  function Events(t: Tree): seq<Event>
    decreases t, 1
  {
    match t
    case AliasTree(a) => [Alias(a)]
    case ScalarTree(a, tag, v) => [Scalar(a, tag, v)]
    case SequenceTree(a, tag, kids) => [SequenceStart(a, tag)] + EventsAll(kids) + [SequenceEnd]
    case MappingTree(a, tag, kids) => [MappingStart(a, tag)] + EventsAll(kids) + [MappingEnd]
  }

  function EventsAll(ts: seq<Tree>): seq<Event>
    decreases ts, 0
  {
    if ts == [] then [] else Events(ts[0]) + EventsAll(ts[1..])
  }

  /** Mappings hold keys and values in turn. */
  predicate Even(t: Tree)
    decreases t, 1
  {
    match t
    case SequenceTree(_, _, kids) => EvenAll(kids)
    case MappingTree(_, _, kids) => |kids| % 2 == 0 && EvenAll(kids)
    case _ => true
  }

  predicate EvenAll(ts: seq<Tree>)
    decreases ts, 0
  {
    ts == [] || (Even(ts[0]) && EvenAll(ts[1..]))
  }

  /** A document as the parser delivers it. */
  ghost predicate IsDocument(es: seq<Event>) {
    exists t :: Even(t) && es == Events(t) + [DocumentEnd]
  }

  // ---------- children ----------

  function Flat(pairs: seq<Pair>): (r: seq<nat>)
    ensures |r| == 2 * |pairs|
  {
    if pairs == [] then [] else [pairs[0].key, pairs[0].val] + Flat(pairs[1..])
  }

  function Kids(n: Node): seq<nat> {
    match n
    case ScalarNode(_, _) => []
    case SequenceNode(_, items) => items
    case MappingNode(_, pairs) => Flat(pairs)
  }

  /** Every reference is to a node of the table. */
  predicate Closed(nodes: Table) {
    forall i, j :: 0 <= i < |nodes| && 0 <= j < |Kids(nodes[i])| ==> 1 <= Kids(nodes[i])[j] <= |nodes|
  }

  function PairUp(ids: seq<nat>): (r: seq<Pair>)
    requires |ids| % 2 == 0
    ensures Flat(r) == ids
  {
    if ids == [] then [] else [Pair(ids[0], ids[1])] + PairUp(ids[2..])
  }

  lemma {:induction false} PairUpFlat(pairs: seq<Pair>)
    ensures PairUp(Flat(pairs)) == pairs
  {
    if pairs != [] {
      PairUpFlat(pairs[1..]);
      assert Flat(pairs)[2..] == Flat(pairs[1..]);
    }
  }
}
