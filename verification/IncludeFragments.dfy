/** Which nodes are includes, and which part of an included document a spec names. */
module IncludeFragments {
  import opened Common
  import opened Errors
  import opened OwnedTree
  import opened Include
  import IncludeMeaning

  // ----- the directive -----

  /** A node tagged `!include` is loaded by its text, whose bytes leave the account; any other tag is passed through. */
  lemma TaggedWalks(w: World, tag: string, inner: Value, at: At, s: Counters)
    ensures var r := Walk(w, Tagged(tag, inner), at, s);
      if tag != "!include" then
        var under := Walk(w, inner, at, s);
        if under.Err? then r == Err(under.error) else r == Ok((Tagged(tag, under.value.0), under.value.1))
      else if inner.String? then
        r == Load(w, inner.s, at, s.(scalarBytes :=
          if s.scalarBytes <= Utf8Len(inner.s) then 0 else s.scalarBytes - Utf8Len(inner.s)))
      else r == Err(IncludeSpecNotString)
  {
  }

  // ----- the fragment -----

  /** A spec is cut at its first `#`. */
  lemma {:induction false} CutAtFirstHash(path: string, fragment: string)
    requires '#' !in path
    ensures SplitFragment(path + ['#'] + fragment) == (path, Some(fragment))
    decreases |path|
  {
    var spec := path + ['#'] + fragment;
    if path == "" {
      assert spec[1..] == fragment;
    } else {
      CutAtFirstHash(path[1..], fragment);
      assert spec[1..] == path[1..] + ['#'] + fragment;
      assert [path[0]] + path[1..] == path;
    }
  }

  lemma {:induction false} NoHashNoCut(spec: string)
    requires '#' !in spec
    ensures SplitFragment(spec) == (spec, None)
    decreases |spec|
  {
    if spec != "" {
      NoHashNoCut(spec[1..]);
      assert [spec[0]] + spec[1..] == spec;
    }
  }

  /** The last entry with the key; in a mapping without repeated keys, the only one. */
  ghost predicate Holds(v: Value, key: string, i: nat) {
    && v.Mapping? && i < |v.entries| && v.entries[i].key == key
    && forall j :: i < j < |v.entries| ==> v.entries[j].key != key
  }

  ghost predicate Lacks(v: Value, key: string) {
    v.Mapping? && forall j :: 0 <= j < |v.entries| ==> v.entries[j].key != key
  }

  /** Of a mapping one or the other is true. */
  lemma {:induction false} HoldsOrLacks(v: Value, key: string, n: nat) returns (i: nat)
    requires v.Mapping? && n <= |v.entries|
    requires forall j :: n <= j < |v.entries| ==> v.entries[j].key != key
    ensures if i < |v.entries| then Holds(v, key, i) else Lacks(v, key)
    decreases n
  {
    if n == 0 {
      i := |v.entries|;
    } else if v.entries[n - 1].key == key {
      i := n - 1;
    } else {
      i := HoldsOrLacks(v, key, n - 1);
    }
  }

  /** `r` is what the fragment of `v` comes to: the value under that key, or the fault that says why there is none. */
  ghost predicate Selects<T>(v: Value, path: string, fragment: string, r: Result<T, Error>, value: T -> Value) {
    && (!v.Mapping? <==> r == Err(FragmentNeedsMapping(fragment, path)))
    && (Lacks(v, fragment) <==> r == Err(FragmentNotFound(fragment, path)))
    && (forall i: nat :: Holds(v, fragment, i) ==> r.Ok? && value(r.value) == v.entries[i].value)
  }

  lemma {:induction false} HeldIsFound(entries: seq<Entry>, key: string, i: nat)
    requires i < |entries| && entries[i].key == key
    requires forall j :: i < j < |entries| ==> entries[j].key != key
    ensures Get(entries, key) == Some(entries[i].value)
    decreases |entries|
  {
    if i < |entries| - 1 {
      HeldIsFound(Front(entries), key, i);
    }
  }

  lemma {:induction false} LackedIsNotFound(entries: seq<Entry>, key: string)
    requires forall j :: 0 <= j < |entries| ==> entries[j].key != key
    ensures Get(entries, key).None?
    decreases |entries|
  {
    if entries != [] {
      LackedIsNotFound(Front(entries), key);
    }
  }

  lemma FragmentSelects(v: Value, path: string, fragment: string)
    requires '#' !in path
    ensures Selects(v, path, fragment, SelectFragment(v, path + ['#'] + fragment), x => x)
  {
    CutAtFirstHash(path, fragment);
    if v.Mapping? {
      var held := HoldsOrLacks(v, fragment, |v.entries|);
    }
    if Lacks(v, fragment) {
      LackedIsNotFound(v.entries, fragment);
    }
    forall i: nat | Holds(v, fragment, i) ensures Get(v.entries, fragment) == Some(v.entries[i].value) {
      HeldIsFound(v.entries, fragment, i);
    }
  }

  // ----- one include -----

  /** The included document, its own includes resolved, before any fragment of it is taken. */
  function LoadWhole(w: World, spec: string, at: At, s: Counters): Result<(Value, Counters), Error> {
    var (included, identity, s1) :- Fetch(w, spec, at, s);
    var (resolved, s2) :- Walk(w, included, At(at.includeDepth + 1, s.nextId, at.treeDepth), s1);
    Ok((resolved, s2.(visited := s2.visited - {identity})))
  }

  /** Without a fragment an include is the whole document. */
  lemma WholeIsLoaded(w: World, spec: string, at: At, s: Counters)
    requires '#' !in spec
    ensures Load(w, spec, at, s) == LoadWhole(w, spec, at, s)
  {
    NoHashNoCut(spec);
  }

  /** With one it is the value under that key of the resolved document, or fails for that reason. */
  lemma FragmentIsLoaded(w: World, path: string, fragment: string, at: At, s: Counters)
    requires '#' !in path
    ensures var spec := path + ['#'] + fragment;
      var r, whole := Load(w, spec, at, s), LoadWhole(w, spec, at, s);
      if whole.Err? then r == Err(whole.error)
      else
        && Selects(whole.value.0, path, fragment, r, (x: (Value, Counters)) => x.0)
        && (r.Ok? ==> r.value.1 == whole.value.1)
  {
    var spec := path + ['#'] + fragment;
    var whole := LoadWhole(w, spec, at, s);
    if whole.Ok? {
      FragmentSelects(whole.value.0, path, fragment);
    }
  }

  /** So it is in the meaning of an include, where limits play no part. */
  lemma FragmentIsMeant(w: World, path: string, fragment: string, chain: set<string>, levels: nat, source: Source)
    requires '#' !in path && levels > 0
    requires IncludeMeaning.Answer(w, path + ['#'] + fragment) == Ok(source) && source.name !in chain
    requires w.parse(source.bytes, USIZE_MAX).Ok?
    ensures var r := IncludeMeaning.Expand(w, path + ['#'] + fragment, chain, levels);
      var tree := w.parse(source.bytes, USIZE_MAX).value;
      var resolved := IncludeMeaning.Substitute(w, tree, chain + {source.name}, levels - 1);
      if resolved.Err? then r == Err(resolved.error) else Selects(resolved.value, path, fragment, r, x => x)
  {
    var tree := w.parse(source.bytes, USIZE_MAX).value;
    var resolved := IncludeMeaning.Substitute(w, tree, chain + {source.name}, levels - 1);
    if resolved.Ok? {
      FragmentSelects(resolved.value, path, fragment);
    }
  }
}
