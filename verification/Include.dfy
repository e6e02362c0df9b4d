/** `!include` resolution as a function of the walk's counters. */
module Include {
  import opened Common
  import opened Errors
  import opened OwnedTree

  datatype Request = Request(spec: string, fromId: nat, depth: nat, maxBytes: nat)

  datatype Source = Source(name: string, bytes: string)

  /**
    * What the walk runs against. The resolver also sees how many sources came before, so that
    * it may be any stateful closure; the parser is told the nesting it may use.
    */
  datatype World = World(
    resolve: (Request, nat) -> Result<Source, Error>,
    parse: (string, nat) -> Result<Value, Error>,
    maxIncludeDepth: usize,
    maxIncludeSources: usize,
    maxTotalIncludeBytes: usize,
    maxDepth: usize,
    maxDocumentLength: usize,
    maxTotalScalarBytes: usize,
    maxNodes: usize
  )

  datatype Counters = Counters(visited: set<string>, nextId: nat, sources: usize, bytes: usize, scalarBytes: usize)

  /** How many includes deep, from which source, and inside how many collections of the final tree. */
  datatype At = At(includeDepth: nat, fromId: nat, treeDepth: nat)

  const INCLUDE := "!include"

  function Charge(w: World, s: Counters, source: Source): Result<Counters, Error> {
    var s1 := s.(sources := SatAdd(s.sources, 1));
    if s1.sources > w.maxIncludeSources then Err(Budget(MaxIncludeSources(w.maxIncludeSources, s1.sources)))
    else
      var s2 := s1.(bytes := SatAdd(s1.bytes, Utf8Len(source.bytes)));
      if s2.bytes > w.maxTotalIncludeBytes then Err(Budget(MaxIncludeBytes(w.maxTotalIncludeBytes, s2.bytes)))
      else if Utf8Len(source.bytes) > w.maxDocumentLength then Err(IncludeTooLong(source.name, w.maxDocumentLength))
      else Ok(s2)
  }

  /** `split_once('#')`. */
  function SplitFragment(spec: string): (string, Option<string>) {
    if spec == "" then ("", None)
    else if spec[0] == '#' then ("", Some(spec[1..]))
    else
      var (path, fragment) := SplitFragment(spec[1..]);
      ([spec[0]] + path, fragment)
  }

  function SelectFragment(included: Value, spec: string): Result<Value, Error> {
    var (path, fragment) := SplitFragment(spec);
    if fragment.None? then Ok(included)
    else if !included.Mapping? then Err(FragmentNeedsMapping(fragment.value, path))
    else
      var found := Get(included.entries, fragment.value);
      if found.None? then Err(FragmentNotFound(fragment.value, path)) else Ok(found.value)
  }

  predicate IsInclude(v: Value) { v.Tagged? && v.tag == INCLUDE }

  function Inner(at: At): At { at.(treeDepth := at.treeDepth + 1) }

  /** The included tree of `spec` before its own includes are resolved, with its identity. */
  function Fetch(w: World, spec: string, at: At, s: Counters): Result<(Value, string, Counters), Error> {
    if at.includeDepth + 1 > w.maxIncludeDepth then Err(RecursionLimitExceeded(at.includeDepth + 1))
    else
      var remaining := SatSub(w.maxTotalIncludeBytes, s.bytes);
      var request := Request(spec, at.fromId, at.includeDepth, Min(remaining, w.maxDocumentLength));
      var source :- w.resolve(request, s.sources);
      var s1 :- Charge(w, s, source);
      if source.name in s1.visited then Err(IncludeCycle(source.name))
      else
        var included :- w.parse(source.bytes, SatSub(w.maxDepth, at.treeDepth));
        var s2 := s1.(
          visited := s1.visited + {source.name},
          nextId := s1.nextId + 1,
          scalarBytes := SatAdd(s1.scalarBytes, Sat(Text(included))));
        if s2.scalarBytes > w.maxTotalScalarBytes then
          Err(Budget(MaxTotalScalarBytes(w.maxTotalScalarBytes, s2.scalarBytes)))
        else Ok((included, source.name, s2))
  }

  /** The include levels left: the outer measure of the walk, whatever the resolver answers. */
  function Left(w: World, at: At): nat { SatSub(w.maxIncludeDepth, at.includeDepth) }

  function Walk(w: World, v: Value, at: At, s: Counters): Result<(Value, Counters), Error>
    decreases Left(w, at), v, 1
  {
    if IsInclude(v) then
      if v.inner.String? then Load(w, v.inner.s, at, s.(scalarBytes := SatSub(s.scalarBytes, Utf8Len(v.inner.s))))
      else Err(IncludeSpecNotString)
    else
      match v
      case Tagged(tag, inner) =>
        var (inner1, s1) :- Walk(w, inner, at, s);
        Ok((Tagged(tag, inner1), s1))
      case Sequence(items) =>
        var (items1, s1) :- WalkItems(w, items, Inner(at), s);
        Ok((Sequence(items1), s1))
      case Mapping(entries) =>
        var (entries1, s1) :- WalkEntries(w, entries, Inner(at), s);
        Ok((Mapping(entries1), s1))
      case _ => Ok((v, s))
  }

  function WalkItems(w: World, items: seq<Value>, at: At, s: Counters): Result<(seq<Value>, Counters), Error>
    decreases Left(w, at), items, 0
  {
    if items == [] then Ok(([], s))
    else
      var (front, s1) :- WalkItems(w, Front(items), at, s);
      var (last, s2) :- Walk(w, Last(items), at, s1);
      Ok((front + [last], s2))
  }

  function WalkEntries(w: World, entries: seq<Entry>, at: At, s: Counters): Result<(seq<Entry>, Counters), Error>
    decreases Left(w, at), entries, 0
  {
    if entries == [] then Ok(([], s))
    else
      var (front, s1) :- WalkEntries(w, Front(entries), at, s);
      var (last, s2) :- Walk(w, Last(entries).value, at, s1);
      Ok((front + [Entry(Last(entries).key, last)], s2))
  }

  function Load(w: World, spec: string, at: At, s: Counters): Result<(Value, Counters), Error>
    decreases Left(w, at), spec, 0
  {
    var (included, identity, s1) :- Fetch(w, spec, at, s);
    var (resolved, s2) :- Walk(w, included, At(at.includeDepth + 1, s.nextId, at.treeDepth), s1);
    var result :- SelectFragment(resolved, spec);
    Ok((result, s2.(visited := s2.visited - {identity})))
  }
}
