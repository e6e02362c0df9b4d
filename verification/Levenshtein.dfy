/** Edit distance, and the closest key to a mistyped one. */
module Levenshtein {
  import opened Common

  function Min(x: nat, y: nat): nat { if x <= y then x else y }

  function Cost(a: char, b: char): nat { if a != b then 1 else 0 }

  /** The recursive definition: the last character is dropped, added or matched. */
  function Distance(a: string, b: string): nat
    decreases |a| + |b|
  {
    if a == [] then |b|
    else if b == [] then |a|
    else Min(
      Min(Distance(Front(a), b) + 1, Distance(a, Front(b)) + 1),
      Distance(Front(a), Front(b)) + Cost(Last(a), Last(b)))
  }

  // ----- the two rows -----

  type Metric = (string, string) -> nat

  ghost predicate Recurs(dist: Metric, s: string, t: string)
    requires s != [] && t != []
  {
    dist(s, t) == Min(
      Min(dist(Front(s), t) + 1, dist(s, Front(t)) + 1), dist(Front(s), Front(t)) + Cost(Last(s), Last(t)))
  }

  ghost predicate IsDistance(dist: Metric) {
    && (forall t :: dist([], t) == |t|)
    && (forall s :: dist(s, []) == |s|)
    && (forall s, t :: s != [] && t != [] ==> Recurs(dist, s, t))
  }

  lemma DistanceRecurs()
    ensures IsDistance((s, t) => Distance(s, t))
  {
  }

  /** A row holds the distances from one prefix of `a` to the first prefixes of `b`. */
  ghost predicate Row(row: seq<nat>, dist: Metric, s: string, b: string, upTo: nat) {
    upTo <= |row| == |b| + 1 && forall j :: 0 <= j < upTo ==> row[j] == dist(s, b[..j])
  }

  lemma CellFollows(dist: Metric, a: string, b: string, i: nat, j: nat)
    requires IsDistance(dist) && i < |a| && j < |b|
    ensures dist(a[..i + 1], b[..j + 1]) == Min(
        Min(dist(a[..i], b[..j + 1]) + 1, dist(a[..i + 1], b[..j]) + 1), dist(a[..i], b[..j]) + Cost(a[i], b[j]))
  {
    var s, t := a[..i + 1], b[..j + 1];
    assert Front(s) == a[..i] && Front(t) == b[..j];
    assert Recurs(dist, s, t);
  }

  method EditDistance(a: string, b: string) returns (d: nat)
    ensures d == Distance(a, b)
  {
    DistanceRecurs();
    d := FillRows(a, b, (s, t) => Distance(s, t));
  }

  method FillRows(a: string, b: string, ghost dist: Metric) returns (d: nat)
    requires IsDistance(dist)
    ensures d == dist(a, b)
  {
    var prev := new nat[|b| + 1](j => j);
    var curr := new nat[|b| + 1](_ => 0);
    for i := 0 to |a|
      invariant prev != curr && prev.Length == |b| + 1 && curr.Length == |b| + 1
      invariant fresh(prev) && fresh(curr)
      invariant Row(prev[..], dist, a[..i], b, |b| + 1)
    {
      FillRow(a, b, i, prev, curr, dist);
      prev, curr := curr, prev;
    }
    assert a[..|a|] == a && b[..|b|] == b;
    d := prev[|b|];
    assert prev[..][|b|] == d;
  }

  /** The inner loop: the row of the next prefix of `a` from the row of this one. */
  method FillRow(a: string, b: string, i: nat, prev: array<nat>, curr: array<nat>, ghost dist: Metric)
    requires IsDistance(dist)
    requires i < |a| && prev != curr && curr.Length == |b| + 1
    requires Row(prev[..], dist, a[..i], b, |b| + 1)
    modifies curr
    ensures Row(curr[..], dist, a[..i + 1], b, |b| + 1)
  {
    curr[0] := i + 1;
    for j := 0 to |b|
      invariant prev[..] == old(prev[..])
      invariant Row(curr[..], dist, a[..i + 1], b, j + 1)
    {
      assert prev[..][j + 1] == prev[j + 1] && prev[..][j] == prev[j] && curr[..][j] == curr[j];
      CellFollows(dist, a, b, i, j);
      var cost := if a[i] != b[j] then 1 else 0;
      ghost var before := curr[..];
      curr[j + 1] := Min(Min(prev[j + 1] + 1, curr[j] + 1), prev[j] + cost);
      assert curr[..] == before[j + 1 := curr[j + 1]];
    }
  }

  // ----- a metric -----

  lemma {:induction false} Bounds(a: string, b: string)
    ensures |a| <= |b| + Distance(a, b) && |b| <= |a| + Distance(a, b)
    ensures Distance(a, b) <= |a| + |b|
    decreases |a| + |b|
  {
    if a != [] && b != [] {
      Bounds(Front(a), b);
      Bounds(a, Front(b));
      Bounds(Front(a), Front(b));
    }
  }

  lemma {:induction false} ZeroOnlyBetweenEquals(a: string, b: string)
    ensures Distance(a, b) == 0 <==> a == b
    decreases |a|
  {
    if a != [] && b != [] {
      ZeroOnlyBetweenEquals(Front(a), Front(b));
      assert a == Front(a) + [Last(a)] && b == Front(b) + [Last(b)];
    }
  }

  lemma {:induction false} Symmetry(a: string, b: string)
    ensures Distance(a, b) == Distance(b, a)
    decreases |a| + |b|
  {
    if a != [] && b != [] {
      Symmetry(Front(a), b);
      Symmetry(a, Front(b));
      Symmetry(Front(a), Front(b));
    }
  }

  lemma {:induction false} Triangle(a: string, b: string, c: string)
    ensures Distance(a, c) <= Distance(a, b) + Distance(b, c)
    decreases |a| + |b| + |c|
  {
    if a == [] {
      Bounds(b, c);
    } else if c == [] {
      Bounds(a, b);
    } else if b == [] {
      Bounds(a, c);
    } else {
      Triangle(Front(a), b, c);
      Triangle(a, b, Front(c));
      Triangle(a, Front(b), c);
      Triangle(a, Front(b), Front(c));
      Triangle(Front(a), Front(b), c);
      Triangle(Front(a), Front(b), Front(c));
    }
  }

  // ----- the least length of an edit script -----

  datatype Edit = Insert(at: nat, c: char) | Delete(at: nat) | Substitute(at: nat, c: char)

  function Apply(s: string, e: Edit): Option<string> {
    match e {
      case Insert(at, c) => if at <= |s| then Some(s[..at] + [c] + s[at..]) else None
      case Delete(at) => if at < |s| then Some(s[..at] + s[at + 1..]) else None
      case Substitute(at, c) => if at < |s| then Some(s[..at] + [c] + s[at + 1..]) else None
    }
  }

  function ApplyAll(s: string, script: seq<Edit>): Option<string>
    decreases |script|
  {
    if script == [] then Some(s)
    else
      match Apply(s, script[0])
      case None => None
      case Some(t) => ApplyAll(t, script[1..])
  }

  lemma {:induction false} CommonSuffix(x: string, y: string, z: string)
    ensures Distance(x + z, y + z) <= Distance(x, y)
    decreases |z|
  {
    if z == [] {
      assert x + z == x && y + z == y;
    } else {
      CommonSuffix(x, y, Front(z));
      assert Front(x + z) == x + Front(z) && Front(y + z) == y + Front(z);
    }
  }

  lemma OneMore(x: string, c: char, d: char)
    ensures Distance(x, x + [c]) <= 1 && Distance(x + [c], x) <= 1 && Distance(x + [c], x + [d]) <= 1
  {
    assert Front(x + [c]) == x && Front(x + [d]) == x;
    ZeroOnlyBetweenEquals(x, x);
  }

  lemma OneEditIsNear(s: string, e: Edit)
    requires Apply(s, e).Some?
    ensures Distance(s, Apply(s, e).value) <= 1
  {
    var x := s[..e.at];
    match e {
      case Insert(at, c) =>
        assert s == x + s[at..];
        OneMore(x, c, c);
        CommonSuffix(x, x + [c], s[at..]);
      case Delete(at) =>
        assert s == x + [s[at]] + s[at + 1..];
        OneMore(x, s[at], s[at]);
        CommonSuffix(x + [s[at]], x, s[at + 1..]);
      case Substitute(at, c) =>
        assert s == x + [s[at]] + s[at + 1..];
        OneMore(x, s[at], c);
        CommonSuffix(x + [s[at]], x + [c], s[at + 1..]);
    }
  }

  lemma {:induction false} NoScriptIsShorter(a: string, script: seq<Edit>)
    requires ApplyAll(a, script).Some?
    ensures Distance(a, ApplyAll(a, script).value) <= |script|
    decreases |script|
  {
    if script == [] {
      ZeroOnlyBetweenEquals(a, a);
    } else {
      var t := Apply(a, script[0]).value;
      OneEditIsNear(a, script[0]);
      NoScriptIsShorter(t, script[1..]);
      Triangle(a, t, ApplyAll(a, script).value);
    }
  }

  lemma EditBeforeSuffix(s: string, e: Edit, z: string)
    requires Apply(s, e).Some?
    ensures Apply(s + z, e) == Some(Apply(s, e).value + z)
  {
    var at := e.at;
    assert (s + z)[..at] == s[..at];
    match e {
      case Insert(_, c) => MoveSuffix(s[..at] + [c], s[at..], (s + z)[at..], z);
      case Delete(_) => MoveSuffix(s[..at], s[at + 1..], (s + z)[at + 1..], z);
      case Substitute(_, c) => MoveSuffix(s[..at] + [c], s[at + 1..], (s + z)[at + 1..], z);
    }
  }

  lemma MoveSuffix(x: string, y: string, yz: string, z: string)
    requires yz == y + z
    ensures x + yz == x + y + z
  {
  }

  lemma {:induction false} ScriptBeforeSuffix(s: string, script: seq<Edit>, z: string)
    requires ApplyAll(s, script).Some?
    ensures ApplyAll(s + z, script) == Some(ApplyAll(s, script).value + z)
    decreases |script|
  {
    if script != [] {
      EditBeforeSuffix(s, script[0], z);
      ScriptBeforeSuffix(Apply(s, script[0]).value, script[1..], z);
    }
  }

  lemma {:induction false} ScriptThenEdit(s: string, script: seq<Edit>, e: Edit)
    requires ApplyAll(s, script).Some?
    ensures ApplyAll(s, script + [e]) == Apply(ApplyAll(s, script).value, e)
    decreases |script|
  {
    if script == [] {
      assert script + [e] == [e] && [e][1..] == [];
    } else {
      ScriptThenEdit(Apply(s, script[0]).value, script[1..], e);
      assert (script + [e])[1..] == script[1..] + [e];
    }
  }

  lemma EditThenScript(s: string, e: Edit, t: string, script: seq<Edit>)
    requires !e.Insert? && e.at == |s| - 1
    requires t == if e.Delete? then s[..|s| - 1] else s[..|s| - 1] + [e.c]
    ensures ApplyAll(s, [e] + script) == ApplyAll(t, script)
  {
    assert s[|s|..] == [] && t + [] == t;
    assert ([e] + script)[1..] == script;
  }

  /** A script of the least length, read off the recursive definition. */
  lemma {:induction false} BestScript(a: string, b: string) returns (script: seq<Edit>)
    ensures ApplyAll(a, script) == Some(b) && |script| == Distance(a, b)
    decreases |a| + |b|
  {
    if a == [] && b == [] {
      script := [];
    } else if b == [] || (a != [] && Distance(a, b) == Distance(Front(a), b) + 1) {
      var rest := BestScript(Front(a), b);
      script := DeleteLast(a, rest);
    } else if a == [] || Distance(a, b) == Distance(a, Front(b)) + 1 {
      var rest := BestScript(a, Front(b));
      script := InsertLast(a, b, rest);
    } else {
      var rest := BestScript(Front(a), Front(b));
      script := MatchLast(a, b, rest);
    }
  }

  lemma InsertLast(a: string, b: string, rest: seq<Edit>) returns (script: seq<Edit>)
    requires b != [] && ApplyAll(a, rest) == Some(Front(b))
    ensures ApplyAll(a, script) == Some(b) && |script| == |rest| + 1
  {
    var e := Insert(|b| - 1, Last(b));
    ScriptThenEdit(a, rest, e);
    var s := Front(b);
    assert s[..|b| - 1] + [Last(b)] + s[|b| - 1..] == b;
    script := rest + [e];
  }

  lemma DeleteLast(a: string, rest: seq<Edit>) returns (script: seq<Edit>)
    requires a != [] && ApplyAll(Front(a), rest).Some?
    ensures ApplyAll(a, script) == ApplyAll(Front(a), rest) && |script| == |rest| + 1
  {
    EditThenScript(a, Delete(|a| - 1), Front(a), rest);
    script := [Delete(|a| - 1)] + rest;
  }

  lemma MatchLast(a: string, b: string, rest: seq<Edit>) returns (script: seq<Edit>)
    requires a != [] && b != [] && ApplyAll(Front(a), rest) == Some(Front(b))
    ensures ApplyAll(a, script) == Some(b) && |script| == |rest| + Cost(Last(a), Last(b))
  {
    ScriptBeforeSuffix(Front(a), rest, [Last(b)]);
    assert b == Front(b) + [Last(b)];
    if Last(a) == Last(b) {
      assert a == Front(a) + [Last(b)];
      script := rest;
    } else {
      var e := Substitute(|a| - 1, Last(b));
      EditThenScript(a, e, Front(a) + [Last(b)], rest);
      script := [e] + rest;
    }
  }

  ghost predicate Edits(a: string, b: string, script: seq<Edit>) { ApplyAll(a, script) == Some(b) }

  /** The distance is the least number of single-character edits that lead from `a` to `b`. */
  lemma DistanceIsLeast(a: string, b: string)
    ensures exists script :: Edits(a, b, script) && |script| == Distance(a, b)
    ensures forall script :: Edits(a, b, script) ==> |script| >= Distance(a, b)
  {
    var best := BestScript(a, b);
    assert Edits(a, b, best);
    forall script | Edits(a, b, script) ensures |script| >= Distance(a, b) {
      NoScriptIsShorter(a, script);
    }
  }

  // ----- suggestions -----

  const FARTHEST: nat := 3

  /** The first of the keys least far away among those near enough. */
  function Closest(keys: seq<string>, far: string -> nat): Option<(string, nat)> {
    if keys == [] then None
    else
      var before := Closest(Front(keys), far);
      var d := far(Last(keys));
      if d > FARTHEST || (before.Some? && before.value.1 <= d) then before else Some((Last(keys), d))
  }

  /** `keys` is `None` when the value is not a mapping. */
  function SuggestKey(keys: Option<seq<string>>, typo: string): Option<(string, nat)> {
    if keys.None? then None else Closest(keys.value, k => Distance(k, typo))
  }

  ghost predicate AllFar(keys: seq<string>, far: string -> nat) {
    forall j :: 0 <= j < |keys| ==> far(keys[j]) > 3
  }

  /** Least far of all, and strictly less far than those before it. */
  ghost predicate FirstNearest(keys: seq<string>, far: string -> nat, i: int) {
    && 0 <= i < |keys|
    && far(keys[i]) <= 3
    && (forall j :: 0 <= j < |keys| ==> far(keys[i]) <= far(keys[j]))
    && (forall j :: 0 <= j < i ==> far(keys[i]) < far(keys[j]))
  }

  lemma {:induction false} ClosestIsFirstNearest(keys: seq<string>, far: string -> nat) returns (i: int)
    ensures var r := Closest(keys, far);
      if r.None? then AllFar(keys, far) else FirstNearest(keys, far, i) && r.value == (keys[i], far(keys[i]))
    decreases |keys|
  {
    i := 0;
    if keys != [] {
      var front := Front(keys);
      i := ClosestIsFirstNearest(front, far);
      forall j | 0 <= j < |front| ensures keys[j] == front[j] {
      }
      if Closest(keys, far) != Closest(front, far) {
        i := |front|;
      }
    }
  }

  /** A suggestion is the first key of least distance; there is none exactly when every key is farther than 3. */
  lemma SuggestionIsFirstNearest(keys: seq<string>, typo: string)
    ensures var r, far := SuggestKey(Some(keys), typo), k => Distance(k, typo);
      if r.None? then AllFar(keys, far)
      else exists i :: FirstNearest(keys, far, i) && r.value == (keys[i], Distance(keys[i], typo))
  {
    var i := ClosestIsFirstNearest(keys, k => Distance(k, typo));
  }

  /** A key that is present is its own suggestion. */
  lemma PresentKeyIsItsOwnSuggestion(keys: seq<string>, i: nat)
    requires i < |keys|
    ensures SuggestKey(Some(keys), keys[i]) == Some((keys[i], 0))
  {
    var far := k => Distance(k, keys[i]);
    var n := ClosestIsFirstNearest(keys, far);
    ZeroOnlyBetweenEquals(keys[i], keys[i]);
    assert far(keys[i]) == 0;
    if Closest(keys, far).Some? {
      ZeroOnlyBetweenEquals(keys[n], keys[i]);
    }
  }
}
