/** What a scalar comes to, as a value and as a key, case by case. */
module Scalars {
  import opened Common
  import opened Errors
  import opened Events
  import opened Metering
  import opened Tree
  import opened Machine
  import opened Syntax
  import opened Meaning
  import Builder

  /** The tag says that the scalar is a string: `str`, with one of the three handles of the core schema. */
  ghost predicate SaysString(tag: Option<Tag>) {
    tag in {Some(("!!", "str")), Some(("tag:yaml.org,2002:", "str")), Some(("!", "str"))}
  }

  /** Quoted or tagged, the text itself; otherwise what the resolution of plain scalars answers, unchanged. */
  ghost predicate MeansScalar(rules: Rules, text: string, style: Style, tag: Option<Tag>, v: Value) {
    var answer := rules.resolvePlain(text);
    if style == Quoted || SaysString(tag) || answer == PlainStr then v == String(text)
    else
      && (v == Null <==> answer == PlainNull)
      && (forall b :: v == Bool(b) <==> answer == PlainBool(b))
      && (forall n :: v == Number(n) <==> answer == PlainNumber(n))
      && v.IsScalar() && !v.String?
  }

  /** A scalar node has that value, always, and binds its own name to it and no other. */
  lemma ScalarMeans(rules: Rules, text: string, style: Style, name: Option<string>, tag: Option<Tag>, env: Env)
    ensures var r := Denote(rules, ScalarNode(text, style, name, tag), env);
      && r.Ok? && MeansScalar(rules, text, style, tag, r.value.0)
      && r.value.1 == if name.Some? then env[name.value := r.value.0] else env
  {
  }

  /** The document of one scalar loads as that value, unless a limit refuses. */
  lemma ScalarLoads(c: Config, text: string, style: Style, name: Option<string>, tag: Option<Tag>)
    ensures var r := Run(StepOf(c), START, SpellStream([ScalarNode(text, style, name, tag)]));
      if r.Ok? then r.value.result.Some? && MeansScalar(c.rules, text, style, tag, r.value.result.value)
      else r.error.IsLimit()
  {
    var doc := ScalarNode(text, style, name, tag);
    assert Front([doc]) == [] && Last([doc]) == doc;
    assert DenoteStream(c.rules, []) == Ok(None);
    LoadMeansStream(c, [doc]);
    ScalarMeans(c.rules, text, style, name, tag, map[]);
  }

  /** The value of a load is that of its last document, and null when there is none, unless a limit refuses. */
  lemma LoadedIsLast(c: Config, docs: seq<Node>)
    ensures var r, m := Builder.Loaded(c, SpellStream(docs)), DenoteStream(c.rules, docs);
      if r.Err? then r.error.IsLimit() || m == Err(r.error)
      else if docs == [] then r.value == Null
      else Denote(c.rules, Last(docs), map[]).Ok? && r.value == Denote(c.rules, Last(docs), map[]).value.0
  {
    LoadMeansStream(c, docs);
  }

  /** A scalar key is its text, in any style; a plain `<<` is one too, unless merges are rejected. */
  lemma KeyMeans(rules: Rules, text: string, style: Style, name: Option<string>, tag: Option<Tag>, env: Env)
    ensures DenoteKey(rules, ScalarKey(text, style, name, tag), env)
      == if rules.mergeKeys == RefuseMerge && style == Plain && text == ['<', '<'] then Err(MergeKeyRejected)
         else Ok(text)
  {
  }

  /** What a key alias stands for: the text of a scalar, written out. */
  lemma KeyAliasMeans(rules: Rules, name: string, env: Env)
    ensures var r := DenoteKey(rules, KeyAlias(name), env);
      && (name !in env ==> r == Err(UnknownAnchor(name)))
      && (name in env ==>
        && (forall s :: env[name] == String(s) ==> r == Ok(s))
        && (env[name] == Bool(true) ==> r == Ok("true"))
        && (env[name] == Bool(false) ==> r == Ok("false"))
        && (env[name] == Null ==> r == Ok("null"))
        && (forall n :: env[name] == Number(n) ==> r == Ok(rules.renderNumber(n)))
        && (env[name].Sequence? || env[name].Mapping? ==> r == Err(NonScalarAliasKey)))
  {
  }
}
