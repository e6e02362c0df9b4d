/** The owned tree, where a tag decorates the node it wraps. */
module OwnedTree {
  import opened Common
  import Tree

  datatype Value =
    | Null
    | Bool(b: bool)
    | Number(n: Tree.Number)
    | String(s: string)
    | Sequence(items: seq<Value>)
    | Mapping(entries: seq<Entry>)
    | Tagged(tag: string, inner: Value)

  datatype Entry = Entry(key: string, value: Value)

  /** Parser nodes: a mapping and each of its keys count, a tag does not. */
  function Nodes(v: Value): nat
    decreases v
  {
    match v
    case Sequence(items) => 1 + NodesAll(items)
    case Mapping(entries) => 1 + NodesOfEntries(entries)
    case Tagged(_, inner) => Nodes(inner)
    case _ => 1
  }

  function NodesAll(items: seq<Value>): nat
    decreases items
  {
    if items == [] then 0 else NodesAll(Front(items)) + Nodes(Last(items))
  }

  function NodesOfEntries(entries: seq<Entry>): nat
    decreases entries
  {
    if entries == [] then 0 else NodesOfEntries(Front(entries)) + 1 + Nodes(Last(entries).value)
  }

  /** String and key bytes; a tag's own text does not count. */
  function Text(v: Value): nat
    decreases v
  {
    match v
    case String(s) => Utf8Len(s)
    case Sequence(items) => TextAll(items)
    case Mapping(entries) => TextOfEntries(entries)
    case Tagged(_, inner) => Text(inner)
    case _ => 0
  }

  function TextAll(items: seq<Value>): nat
    decreases items
  {
    if items == [] then 0 else TextAll(Front(items)) + Text(Last(items))
  }

  function TextOfEntries(entries: seq<Entry>): nat
    decreases entries
  {
    if entries == [] then 0
    else TextOfEntries(Front(entries)) + Utf8Len(Last(entries).key) + Text(Last(entries).value)
  }

  /** Collection nesting; a tag adds none. */
  function Height(v: Value): nat
    decreases v
  {
    match v
    case Sequence(items) => 1 + HeightAll(items)
    case Mapping(entries) => 1 + HeightOfEntries(entries)
    case Tagged(_, inner) => Height(inner)
    case _ => 0
  }

  function HeightAll(items: seq<Value>): nat
    decreases items
  {
    if items == [] then 0 else Max(HeightAll(Front(items)), Height(Last(items)))
  }

  function HeightOfEntries(entries: seq<Entry>): nat
    decreases entries
  {
    if entries == [] then 0 else Max(HeightOfEntries(Front(entries)), Height(Last(entries).value))
  }

  /** The value under `key`, if any. */
  function Get(entries: seq<Entry>, key: string): Option<Value>
    decreases |entries|
  {
    if entries == [] then None
    else if Last(entries).key == key then Some(Last(entries).value)
    else Get(Front(entries), key)
  }
}
