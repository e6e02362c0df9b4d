/** The tracking state as the source has it, with the serializers that consult it. */
module SharedSerializer {
  import opened Common
  import opened Events
  import opened Syntax
  import opened AnchorNames
  import opened Tracking

  /** The tracking state of one thread and the serializers that consult it. */
  class SharedTracking {
    var state: Tracked

    constructor ()
      ensures state == None
    {
      state := None;
    }

    /** A scope installs a fresh state only when none is installed. */
    method Enter() returns (owns: bool)
      modifies this
      ensures owns == old(state).None?
      ensures state == if owns then Some(NONE_SEEN) else old(state)
    {
      owns := state.None?;
      if owns {
        state := Some(NONE_SEEN);
      }
    }

    method Drop(owns: bool)
      modifies this
      ensures state == if owns then None else old(state)
    {
      if owns {
        state := None;
      }
    }

    method Track(ptr: nat) returns (outcome: TrackOutcome)
      modifies this
      ensures (outcome, state) == Tracking.Track(old(state), ptr)
    {
      if state.None? {
        return NotActive;
      }
      var t := state.value;
      if ptr in t.seen {
        return Existing(t.seen[ptr]);
      }
      outcome := New(t.nextId);
      state := Some(Tracker(t.seen[ptr := t.nextId], Min(t.nextId + 1, U32_MAX)));
    }

    method Serialize(d: Data) returns (w: Written)
      modifies this
      ensures (w, state) == Emit(d, old(state))
      decreases d
    {
      match d
      case Leaf(text, style, tag) => w := ScalarText(text, style, tag);
      case List(items) =>
        var ws := [];
        for i := 0 to |items|
          invariant (ws, state) == EmitAll(items[..i], old(state))
        {
          assert Front(items[..i + 1]) == items[..i];
          var item := Serialize(items[i]);
          ws := ws + [item];
        }
        assert items[..|items|] == items;
        w := SequenceText(ws);
      case Record(fields) =>
        var fs := [];
        for i := 0 to |fields|
          invariant (fs, state) == EmitFields(fields[..i], old(state))
        {
          assert Front(fields[..i + 1]) == fields[..i];
          var f := SerializeField(fields[i]);
          fs := fs + [f];
        }
        assert fields[..|fields|] == fields;
        w := MappingText(fs);
      case Strong(ptr, pointee) =>
        var outcome := Track(ptr);
        match outcome {
          case NotActive => w := Serialize(pointee);
          case New(id) =>
            w := Serialize(pointee);
            w := Definition(FormatId(id), w);
          case Existing(id) => w := AliasText(FormatId(id));
        }
      case Weak(ptr, pointee) =>
        var id := Peek(state, ptr);
        if id.Some? {
          w := AliasText(FormatId(id.value));
        } else {
          w := Serialize(pointee);
        }
      case Dangling => w := ScalarText("null", Plain, None);
    }

    method SerializeField(f: Field) returns (w: WrittenField)
      modifies this
      ensures (w, state) == EmitField(f, old(state))
      decreases f
    {
      var value := Serialize(f.value);
      w := WrittenField(f.key, f.style, value);
    }

    /** `to_string_tracking_shared`: one scope around one value; no state survives it. */
    method SerializeShared(d: Data) returns (w: Written)
      modifies this
      ensures w == Emit(d, if old(state).None? then Some(NONE_SEEN) else old(state)).0
      ensures old(state).None? ==> state.None?
    {
      var owns := Enter();
      w := Serialize(d);
      Drop(owns);
    }
  }
}
