/** Sharing is written as sharing: one definition for each pointer, and an alias wherever it occurs again. */
module SharedOnce {
  import opened Common
  import opened AnchorNames
  import opened Tracking

  /** The definitions in what is written. */
  function Definitions(w: Written): nat
    decreases w
  {
    match w
    case SequenceText(items) => DefinitionsIn(items)
    case MappingText(fields) => DefinitionsInFields(fields)
    case Definition(_, inner) => 1 + Definitions(inner)
    case _ => 0
  }

  function DefinitionsIn(items: seq<Written>): nat
    decreases items
  {
    if items == [] then 0 else DefinitionsIn(Front(items)) + Definitions(Last(items))
  }

  function DefinitionsInFields(fields: seq<WrittenField>): nat
    decreases fields
  {
    if fields == [] then 0 else DefinitionsInFields(Front(fields)) + DefinitionsInField(Last(fields))
  }

  function DefinitionsInField(f: WrittenField): nat
    decreases f
  {
    Definitions(f.value)
  }

  /** From `t` to `state` pointers only join, `more` of them, and keep their ids. */
  ghost predicate Joined(t: Tracker, state: Tracked, more: nat) {
    && state.Some?
    && |state.value.seen| == |t.seen| + more
    && forall p :: p in t.seen ==> p in state.value.seen && state.value.seen[p] == t.seen[p]
  }

  /** What is written under tracking defines each pointer it adds to those seen, once, and no other. */
  lemma {:induction false} DefinedOnce(d: Data, t: Tracker)
    ensures var (w, s) := Emit(d, Some(t)); Joined(t, s, Definitions(w))
    decreases d
  {
    match d
    case List(items) => ItemsDefinedOnce(items, t);
    case Record(fields) => FieldsDefinedOnce(fields, t);
    case Strong(ptr, pointee) =>
      if ptr !in t.seen {
        var t1 := Track(Some(t), ptr).1.value;
        assert |t1.seen| == |t.seen| + 1 by {
          assert t1.seen.Keys == t.seen.Keys + {ptr};
          assert |t1.seen| == |t1.seen.Keys| && |t.seen| == |t.seen.Keys|;
        }
        DefinedOnce(pointee, t1);
      }
    case Weak(ptr, pointee) =>
      if ptr !in t.seen {
        DefinedOnce(pointee, t);
      }
    case _ =>
  }

  lemma {:induction false} ItemsDefinedOnce(items: seq<Data>, t: Tracker)
    ensures var (ws, s) := EmitAll(items, Some(t)); Joined(t, s, DefinitionsIn(ws))
    decreases items
  {
    if items != [] {
      ItemsDefinedOnce(Front(items), t);
      var (ws, s) := EmitAll(Front(items), Some(t));
      DefinedOnce(Last(items), s.value);
      var (w, _) := Emit(Last(items), s);
      assert Front(ws + [w]) == ws && Last(ws + [w]) == w;
    }
  }

  lemma {:induction false} FieldsDefinedOnce(fields: seq<Field>, t: Tracker)
    ensures var (fs, s) := EmitFields(fields, Some(t)); Joined(t, s, DefinitionsInFields(fs))
    decreases fields
  {
    if fields != [] {
      FieldsDefinedOnce(Front(fields), t);
      var (fs, s) := EmitFields(Front(fields), Some(t));
      FieldDefinedOnce(Last(fields), s.value);
      var (f, _) := EmitField(Last(fields), s);
      assert Front(fs + [f]) == fs && Last(fs + [f]) == f;
    }
  }

  lemma {:induction false} FieldDefinedOnce(f: Field, t: Tracker)
    ensures var (w, s) := EmitField(f, Some(t)); Joined(t, s, DefinitionsInField(w))
    decreases f
  {
    DefinedOnce(f.value, t);
  }

  /** The items up to `n` are written first, whatever follows. */
  lemma {:induction false} ItemIsWritten(items: seq<Data>, t: Tracker, i: nat)
    requires i < |items|
    ensures |EmitAll(items, Some(t)).0| == |items|
    ensures EmitAll(items, Some(t)).0[i] == Emit(items[i], EmitAll(items[..i], Some(t)).1).0
    decreases |items|
  {
    AllAreWritten(items, Some(t));
    AllAreWritten(Front(items), Some(t));
    if i < |items| - 1 {
      ItemIsWritten(Front(items), t, i);
      assert Front(items)[..i] == items[..i];
    } else {
      assert Front(items) == items[..i];
    }
  }

  lemma {:induction false} AllAreWritten(items: seq<Data>, state: Tracked)
    ensures |EmitAll(items, state).0| == |items|
  {
    if items != [] {
      AllAreWritten(Front(items), state);
    }
  }

  lemma {:induction false} StaysSeen(items: seq<Data>, t: Tracker, i: nat, j: nat)
    requires i <= j <= |items|
    ensures var s, s1 := EmitAll(items[..i], Some(t)).1, EmitAll(items[..j], Some(t)).1;
      s.Some? && s1.Some? && forall p :: p in s.value.seen ==> p in s1.value.seen && s1.value.seen[p] == s.value.seen[p]
    decreases j
  {
    ItemsDefinedOnce(items[..i], t);
    ItemsDefinedOnce(items[..j], t);
    if i < j {
      StaysSeen(items, t, i, j - 1);
      var upTo := items[..j];
      assert Front(upTo) == items[..j - 1];
      ItemsDefinedOnce(items[..j - 1], t);
      DefinedOnce(Last(upTo), EmitAll(items[..j - 1], Some(t)).1.value);
    }
  }

  /** An item that points where an earlier one does is an alias to the name that one carries. */
  lemma SharedItemsAreAliased(items: seq<Data>, t: Tracker, i: nat, j: nat)
    requires i < j < |items| && items[i].Strong? && (items[j].Strong? || items[j].Weak?) && items[i].ptr == items[j].ptr
    ensures var ws := EmitAll(items, Some(t)).0;
      && |ws| == |items| && ws[j].AliasText?
      && ((ws[i].Definition? && ws[i].name == ws[j].target) || ws[i] == ws[j])
  {
    var ptr := items[i].ptr;
    ItemIsWritten(items, t, i);
    ItemIsWritten(items, t, j);
    ItemsDefinedOnce(items[..i], t);
    var s := EmitAll(items[..i], Some(t)).1;
    var upTo := items[..i + 1];
    assert Front(upTo) == items[..i] && Last(upTo) == items[i];
    var s1 := EmitAll(upTo, Some(t)).1;
    assert s1 == Emit(items[i], s).1;
    if ptr !in s.value.seen {
      DefinedOnce(items[i].pointee, Track(s, ptr).1.value);
    }
    StaysSeen(items, t, i + 1, j);
  }
}
