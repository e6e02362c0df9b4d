/** The tree of `BorrowedValue`, with a mapping as its entries in insertion order. */
module Tree {
  import opened Common

  datatype Number = Integer(i: int) | Unsigned(u: nat) | Float(bits: bv64)

  datatype Value =
    | Null
    | Bool(b: bool)
    | Number(n: Number)
    | String(s: string)
    | Sequence(items: seq<Value>)
    | Mapping(entries: seq<Entry>)
  {
    predicate IsScalar() { !Sequence? && !Mapping? }
  }

  datatype Entry = Entry(key: string, value: Value)

  /** Nodes an expansion materialises, mapping keys included. */
  function Nodes(v: Value): nat
    decreases v
  {
    match v
    case Sequence(items) => 1 + NodesAll(items)
    case Mapping(entries) => 1 + NodesOfEntries(entries)
    case _ => 1
  }

  function NodesAll(items: seq<Value>): nat
    decreases items
  {
    if items == [] then 0 else NodesAll(Front(items)) + Nodes(Last(items))
  }

  function NodesOfEntries(entries: seq<Entry>): nat
    decreases entries
  {
    if entries == [] then 0 else NodesOfEntries(Front(entries)) + 1 + Nodes(Last(entries).value)
  }

  /** String and key bytes of the tree. */
  function Text(v: Value): nat
    decreases v
  {
    match v
    case String(s) => Utf8Len(s)
    case Sequence(items) => TextAll(items)
    case Mapping(entries) => TextOfEntries(entries)
    case _ => 0
  }

  function TextAll(items: seq<Value>): nat
    decreases items
  {
    if items == [] then 0 else TextAll(Front(items)) + Text(Last(items))
  }

  function TextOfEntries(entries: seq<Entry>): nat
    decreases entries
  {
    if entries == [] then 0
    else TextOfEntries(Front(entries)) + Utf8Len(Last(entries).key) + Text(Last(entries).value)
  }

  /** Collection nesting: 0 for a scalar, 1 for a flat collection. */
  function Height(v: Value): nat
    decreases v
  {
    match v
    case Sequence(items) => 1 + HeightAll(items)
    case Mapping(entries) => 1 + HeightOfEntries(entries)
    case _ => 0
  }

  function HeightAll(items: seq<Value>): nat
    decreases items
  {
    if items == [] then 0 else Max(HeightAll(Front(items)), Height(Last(items)))
  }

  function HeightOfEntries(entries: seq<Entry>): nat
    decreases entries
  {
    if entries == [] then 0 else Max(HeightOfEntries(Front(entries)), Height(Last(entries).value))
  }

  /** The index of `key`, or the number of entries when it is absent. */
  function IndexOf(entries: seq<Entry>, key: string): (i: nat)
    ensures i <= |entries|
    ensures i < |entries| ==> entries[i].key == key
    ensures forall j :: 0 <= j < i ==> entries[j].key != key
  {
    if entries == [] then 0
    else if entries[0].key == key then 0
    else 1 + IndexOf(entries[1..], key)
  }

  predicate HasKey(entries: seq<Entry>, key: string) {
    IndexOf(entries, key) < |entries|
  }

  /** `IndexMap::insert`: an existing key keeps its place and takes the new value. */
  function Put(entries: seq<Entry>, key: string, value: Value): seq<Entry> {
    var i := IndexOf(entries, key);
    if i < |entries| then entries[i := Entry(key, value)] else entries + [Entry(key, value)]
  }

  ghost predicate DistinctKeys(entries: seq<Entry>) {
    forall i, j :: 0 <= i < j < |entries| ==> entries[i].key != entries[j].key
  }
}
