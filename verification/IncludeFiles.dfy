/** The resolver the library ships: files under a root, read one byte past what a request allows. */
module IncludeFiles {
  import opened Common
  import opened Errors
  import opened Include
  import IncludeLimits
  import IncludeMeaning

  /** A file as the root opens it: its name from the root, and its text. */
  datatype File = File(name: string, text: string)

  /** The first `limit` bytes; none when they end inside a character, which is no text. */
  function Take(text: string, limit: nat): Option<string> {
    if text == "" || limit == 0 then Some("")
    else if CharLen(text[0]) > limit then None
    else
      var rest := Take(text[1..], limit - CharLen(text[0]));
      if rest.None? then None else Some([text[0]] + rest.value)
  }

  /** `SafeFileResolver`: the path without its fragment names the file. */
  function Resolve(files: map<string, File>, r: Request): Result<Source, Error> {
    var path := SplitFragment(r.spec).0;
    if path !in files then Err(Rejected("cannot open " + path))
    else
      var read := Take(files[path].text, Min(r.maxBytes + 1, USIZE_MAX));
      if read.None? then Err(Rejected("cannot read " + path)) else Ok(Source(files[path].name, read.value))
  }

  /** A text within the limit is read whole; of a longer one, exactly the limit, or nothing. */
  lemma {:induction false} TakenWithin(text: string, limit: nat)
    ensures var read := Take(text, limit);
      if Utf8Len(text) <= limit then read == Some(text) else read.Some? ==> Utf8Len(read.value) == limit
  {
    if text != "" && limit > 0 && CharLen(text[0]) <= limit {
      var rest := text[1..];
      TakenWithin(rest, limit - CharLen(text[0]));
      assert text == [text[0]] + rest;
      var read := Take(rest, limit - CharLen(text[0]));
      if read.Some? {
        assert ([text[0]] + read.value)[1..] == read.value;
      }
    }
  }

  /** The world's resolver is this one, over files that fit in memory. */
  ghost predicate Reads(w: World, files: map<string, File>) {
    && (forall r: Request, n: nat {:trigger w.resolve(r, n)} :: w.resolve(r, n) == Resolve(files, r))
    && (forall path :: path in files ==> Utf8Len(files[path].text) <= USIZE_MAX)
  }

  /** The whole file when it is within the allowance; otherwise something longer than the allowance, or an error. */
  lemma ReadWithinAllowance(files: map<string, File>, r: Request)
    requires forall path :: path in files ==> Utf8Len(files[path].text) <= USIZE_MAX
    requires SplitFragment(r.spec).0 in files
    ensures var file := files[SplitFragment(r.spec).0];
      if Utf8Len(file.text) <= r.maxBytes then Resolve(files, r) == Ok(Source(file.name, file.text))
      else Resolve(files, r).Ok? ==> Utf8Len(Resolve(files, r).value.bytes) > r.maxBytes
  {
    TakenWithin(files[SplitFragment(r.spec).0].text, Min(r.maxBytes + 1, USIZE_MAX));
  }

  lemma ReadAlike(w: World, files: map<string, File>, r: Request, n: nat)
    requires Reads(w, files)
    ensures var a, answer := w.resolve(r, n), IncludeMeaning.Answer(w, r.spec);
      && (a.Ok? && Utf8Len(a.value.bytes) <= r.maxBytes ==> a == answer)
      && (a.Err? ==> IncludeMeaning.Outgrows(w, r) || a == answer)
  {
    var path := SplitFragment(r.spec).0;
    var whole := Request(r.spec, 0, 0, USIZE_MAX);
    assert w.resolve(whole, 0) == Resolve(files, whole);
    if path in files {
      ReadWithinAllowance(files, r);
      ReadWithinAllowance(files, whole);
    }
  }

  /** The shipped resolver meets everything the results on substitution and on limits ask of a resolver. */
  lemma FilesQualify(w: World, files: map<string, File>)
    requires Reads(w, files)
    ensures IncludeMeaning.ResolverFaithful(w) && IncludeMeaning.ResolverRefusesAlike(w)
    ensures IncludeLimits.AnswersWithinAllowance(w)
  {
    forall r: Request, n: nat {:trigger w.resolve(r, n)}
      ensures var a, answer := w.resolve(r, n), IncludeMeaning.Answer(w, r.spec);
        && (a.Ok? && Utf8Len(a.value.bytes) <= r.maxBytes ==> a == answer)
        && (a.Err? ==> IncludeMeaning.Outgrows(w, r) || a == answer)
    {
      ReadAlike(w, files, r, n);
    }
    forall r: Request, n: nat, m: nat |
      r.maxBytes <= m && w.resolve(r, n).Ok? && Utf8Len(w.resolve(r, n).value.bytes) <= r.maxBytes
      ensures w.resolve(r.(maxBytes := m), n) == w.resolve(r, n)
    {
      ReadWithinAllowance(files, r);
      ReadWithinAllowance(files, r.(maxBytes := m));
    }
  }

  // ----- an overrun that the walk never sees -----

  lemma PrefixLength(text: string, k: nat)
    requires 1 <= k <= |text|
    ensures Utf8Len(text[..k]) == CharLen(text[0]) + Utf8Len(text[1..][..k - 1])
  {
    assert text[..k][1..] == text[1..][..k - 1];
  }

  ghost predicate Splits(text: string, limit: nat) {
    forall k :: 0 <= k <= |text| ==> Utf8Len(text[..k]) != limit
  }

  /** Reading stops inside a character exactly when no prefix has the length of the limit. */
  lemma {:induction false} CutIsExact(text: string, limit: nat)
    ensures Take(text, limit).None? <==> Utf8Len(text) > limit && Splits(text, limit)
  {
    if text == "" || limit == 0 {
      assert Utf8Len(text[..0]) == 0;
    } else {
      var c, rest := CharLen(text[0]), text[1..];
      assert Utf8Len(text[..0]) == 0;
      forall k | 1 <= k <= |text| ensures Utf8Len(text[..k]) == c + Utf8Len(rest[..k - 1]) {
        PrefixLength(text, k);
      }
      if c <= limit {
        CutIsExact(rest, limit - c);
        if Splits(text, limit) {
          forall k | 0 <= k <= |rest| ensures Utf8Len(rest[..k]) != limit - c {
            assert Utf8Len(text[..k + 1]) != limit;
          }
        }
      }
    }
  }

  /**
    * For a file past the allowance, the walk sees the overrun, and reports a limit, if and only if
    * some prefix of the file is exactly one byte longer than the allowance.
    */
  lemma OverrunIsSeen(files: map<string, File>, r: Request)
    requires SplitFragment(r.spec).0 in files && r.maxBytes < USIZE_MAX
    requires Utf8Len(files[SplitFragment(r.spec).0].text) > r.maxBytes
    ensures var text := files[SplitFragment(r.spec).0].text;
      Resolve(files, r).Ok? <==> exists k :: 0 <= k <= |text| && Utf8Len(text[..k]) == r.maxBytes + 1
  {
    var text := files[SplitFragment(r.spec).0].text;
    CutIsExact(text, r.maxBytes + 1);
    assert text[..|text|] == text;
  }

  /** One character of two bytes. */
  const WIDE: string := [0xE9 as char]

  /** A file of one two-byte character, when not a byte may be read: unreadable, it says, not too long. */
  lemma OverrunIsHidden(name: string)
    ensures Resolve(map["a" := File(name, WIDE)], Request("a", 0, 0, 0)) == Err(Rejected("cannot read " + "a"))
  {
    assert CharLen(WIDE[0]) == 2;
    assert SplitFragment("").0 == "" && SplitFragment("a").0 == "a";
  }
}
