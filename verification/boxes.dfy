/** Operations on the ordered list of text boxes that both editors perform:
    look-up by id (`Array.prototype.find`), deletion by id (`filter`), and the
    two ways of editing one field of "the box with this id" — every match
    (the React editor's `map`) or only the first match (script.js's `find`
    followed by mutation). */
module Boxes {
  import opened Wrappers
  import opened Types

  predicate HasId(s: seq<TextBox>, id: string) {
    exists i :: 0 <= i < |s| && s[i].id == id
  }

  /** No two boxes of the list share an id. */
  predicate UniqueIds(s: seq<TextBox>) {
    forall i, j :: 0 <= i < j < |s| ==> s[i].id != s[j].id
  }

  /** `a` is `b` with some elements left out, the rest in their original order. */
  predicate IsSubsequence<T(==)>(a: seq<T>, b: seq<T>)
    decreases |b|
  {
    if a == [] then true
    else if b == [] then false
    else (a[0] == b[0] && IsSubsequence(a[1..], b[1..])) || IsSubsequence(a, b[1..])
  }

  /** Position of the first box carrying `id`. */
  function FirstIndexOf(s: seq<TextBox>, id: string): (r: Option<nat>)
    ensures r.Some? ==> r.value < |s| && s[r.value].id == id
    ensures r.Some? ==> forall j :: 0 <= j < r.value ==> s[j].id != id
    ensures r.None? <==> !HasId(s, id)
  {
    if s == [] then None
    else if s[0].id == id then Some(0)
    else
      match FirstIndexOf(s[1..], id)
      case None =>
        assert forall i :: 1 <= i < |s| ==> s[i] == s[1..][i - 1];
        None
      case Some(k) => Some(k + 1)
  }

  /** `boxes.find((tb) => tb.id === id)`: the first box with that id. With
      unique ids it is the only one. */
  function FindById(s: seq<TextBox>, id: string): (r: Option<TextBox>)
    ensures r.None? <==> !HasId(s, id)
    ensures r.Some? ==> r.value in s && r.value.id == id
    ensures r.Some? && UniqueIds(s) ==> forall i :: 0 <= i < |s| && s[i].id == id ==> s[i] == r.value
  {
    match FirstIndexOf(s, id)
    case None => None
    case Some(k) => Some(s[k])
  }

  /** `boxes.filter((tb) => tb.id !== id)`. */
  function RemoveId(s: seq<TextBox>, id: string): (r: seq<TextBox>)
    ensures !HasId(r, id)
    ensures forall b :: b in r <==> b in s && b.id != id
    ensures IsSubsequence(r, s)
    ensures forall b :: multiset(r)[b] == if b.id == id then 0 else multiset(s)[b]
    ensures !HasId(s, id) ==> r == s
    ensures UniqueIds(s) ==> UniqueIds(r)
  {
    if s == [] then []
    else
      var rest := RemoveId(s[1..], id);
      StepCounts(s, id, rest);
      StepMembers(s, id, rest);
      StepSubsequence(s, id, rest);
      StepUnchanged(s, id, rest);
      StepUnique(s, id, rest);
      if s[0].id == id then rest else [s[0]] + rest
  }

  // The steps of `RemoveId`: dropping or keeping the head in front of the
  // filtered tail keeps each of its postconditions.

  lemma StepCounts(s: seq<TextBox>, id: string, rest: seq<TextBox>)
    requires s != []
    requires forall b :: multiset(rest)[b] == if b.id == id then 0 else multiset(s[1..])[b]
    ensures var r := if s[0].id == id then rest else [s[0]] + rest;
      forall b :: multiset(r)[b] == if b.id == id then 0 else multiset(s)[b]
  {
    assert s == [s[0]] + s[1..];
    assert multiset(s) == multiset{s[0]} + multiset(s[1..]);
    if s[0].id != id {
      assert multiset([s[0]] + rest) == multiset{s[0]} + multiset(rest);
    }
  }

  lemma StepMembers(s: seq<TextBox>, id: string, rest: seq<TextBox>)
    requires s != []
    requires forall b :: b in rest <==> b in s[1..] && b.id != id
    ensures var r := if s[0].id == id then rest else [s[0]] + rest;
      && (forall b :: b in r <==> b in s && b.id != id)
      && !HasId(r, id)
  {
    assert s == [s[0]] + s[1..];
    assert forall b :: b in s <==> b == s[0] || b in s[1..];
    var r := if s[0].id == id then rest else [s[0]] + rest;
    assert forall i :: 0 <= i < |r| ==> r[i] in r;
  }

  lemma StepSubsequence(s: seq<TextBox>, id: string, rest: seq<TextBox>)
    requires s != [] && IsSubsequence(rest, s[1..])
    ensures IsSubsequence(if s[0].id == id then rest else [s[0]] + rest, s)
  {
    if s[0].id != id {
      assert ([s[0]] + rest)[1..] == rest;
    }
  }

  lemma StepUnchanged(s: seq<TextBox>, id: string, rest: seq<TextBox>)
    requires s != [] && (!HasId(s[1..], id) ==> rest == s[1..])
    ensures !HasId(s, id) ==> (if s[0].id == id then rest else [s[0]] + rest) == s
  {
    if !HasId(s, id) {
      assert s[0].id != id;
      assert !HasId(s[1..], id) by {
        assert forall i :: 0 <= i < |s[1..]| ==> s[1..][i] == s[i + 1];
      }
      assert s == [s[0]] + s[1..];
    }
  }

  lemma StepUnique(s: seq<TextBox>, id: string, rest: seq<TextBox>)
    requires s != []
    requires UniqueIds(s[1..]) ==> UniqueIds(rest)
    requires forall b :: b in rest ==> b in s[1..]
    ensures UniqueIds(s) ==> UniqueIds(if s[0].id == id then rest else [s[0]] + rest)
  {
    if UniqueIds(s) {
      assert UniqueIds(s[1..]) by {
        assert forall i :: 0 <= i < |s[1..]| ==> s[1..][i] == s[i + 1];
      }
    }
    if UniqueIds(s) && s[0].id != id {
      var r := [s[0]] + rest;
      assert r[1..] == rest;
      forall j | 0 <= j < |rest| ensures rest[j].id != s[0].id {
        assert rest[j] in s[1..];
      }
    }
  }

  /** A change to one field of a box. */
  datatype Edit =
    | SetText(text: string)
    | SetFontSize(fontSize: real)
    | SetColor(color: string)
    | MoveTo(x: real, y: real)

  /** `{ ...tb, field: value }`: the edited field takes the new value and
      every other field, the id included, is kept. */
  function ApplyEdit(b: TextBox, e: Edit): (r: TextBox)
    ensures r.id == b.id && r.width == b.width && r.height == b.height
    ensures r.text == (if e.SetText? then e.text else b.text)
    ensures r.fontSize == (if e.SetFontSize? then e.fontSize else b.fontSize)
    ensures r.color == (if e.SetColor? then e.color else b.color)
    ensures (r.x, r.y) == (if e.MoveTo? then (e.x, e.y) else (b.x, b.y))
  {
    match e
    case SetText(t) => b.(text := t)
    case SetFontSize(f) => b.(fontSize := f)
    case SetColor(c) => b.(color := c)
    case MoveTo(x, y) => b.(x := x, y := y)
  }

  /** `boxes.map((tb) => tb.id === id ? { ...tb, field } : tb)`: every box
      with the id is edited, every other box is kept, in place. */
  function UpdateAll(s: seq<TextBox>, id: string, e: Edit): (r: seq<TextBox>)
    ensures |r| == |s|
    ensures forall i :: 0 <= i < |s| && s[i].id == id ==> r[i] == ApplyEdit(s[i], e)
    ensures forall i :: 0 <= i < |s| && s[i].id != id ==> r[i] == s[i]
    ensures forall i :: 0 <= i < |s| ==> r[i].id == s[i].id
    ensures !HasId(s, id) ==> r == s
  {
    if s == [] then []
    else
      var head := if s[0].id == id then ApplyEdit(s[0], e) else s[0];
      var rest := UpdateAll(s[1..], id, e);
      EditsEveryCons(s, id, e, rest);
      [head] + rest
  }

  /** `r` is `s` with every box carrying `id` edited and the others kept. */
  predicate EditsEvery(s: seq<TextBox>, id: string, e: Edit, r: seq<TextBox>) {
    && |r| == |s|
    && (forall i :: 0 <= i < |s| && s[i].id == id ==> r[i] == ApplyEdit(s[i], e))
    && (forall i :: 0 <= i < |s| && s[i].id != id ==> r[i] == s[i])
  }

  /** One step of `UpdateAll`: editing the head and prepending it to an
      edited tail edits the whole list. */
  lemma EditsEveryCons(s: seq<TextBox>, id: string, e: Edit, rest: seq<TextBox>)
    requires s != [] && EditsEvery(s[1..], id, e, rest)
    ensures EditsEvery(s, id, e, [if s[0].id == id then ApplyEdit(s[0], e) else s[0]] + rest)
  {
    var r := [if s[0].id == id then ApplyEdit(s[0], e) else s[0]] + rest;
    assert forall i :: 1 <= i < |s| ==> r[i] == rest[i - 1] && s[i] == s[1..][i - 1];
  }

  /** `const tb = boxes.find((tb) => tb.id === id); if (tb) tb.field = value;`:
      only the first box with the id is edited. */
  function UpdateFirst(s: seq<TextBox>, id: string, e: Edit): (r: seq<TextBox>)
    ensures |r| == |s|
    ensures FirstIndexOf(s, id).None? ==> r == s
    ensures FirstIndexOf(s, id).Some? ==>
      var k := FirstIndexOf(s, id).value; r == s[k := ApplyEdit(s[k], e)]
  {
    if s == [] then []
    else if s[0].id == id then [ApplyEdit(s[0], e)] + s[1..]
    else [s[0]] + UpdateFirst(s[1..], id, e)
  }

  /** With unique ids, editing the first match and editing every match are
      the same, so the two editors agree on field updates. */
  lemma UpdateFirstMatchesUpdateAll(s: seq<TextBox>, id: string, e: Edit)
    requires UniqueIds(s)
    ensures UpdateFirst(s, id, e) == UpdateAll(s, id, e)
  {
    var a := UpdateFirst(s, id, e);
    var b := UpdateAll(s, id, e);
    match FirstIndexOf(s, id)
    case None =>
    case Some(k) =>
      forall i | 0 <= i < |s| ensures a[i] == b[i] {
      }
  }

  /** Editing leaves every id in place, so look-ups by id find the same
      position before and after. */
  lemma {:induction false} FirstIndexAfterUpdate(s: seq<TextBox>, a: string, e: Edit, b: string)
    ensures FirstIndexOf(UpdateAll(s, a, e), b) == FirstIndexOf(s, b)
  {
    if s != [] {
      var u := UpdateAll(s, a, e);
      assert u[1..] == UpdateAll(s[1..], a, e);
      FirstIndexAfterUpdate(s[1..], a, e, b);
    }
  }

  /** Editing the boxes of one id leaves the look-up of another id alone,
      and the look-up of the same id returns the edited box. */
  lemma FindAfterUpdate(s: seq<TextBox>, a: string, e: Edit, b: string)
    ensures a != b ==> FindById(UpdateAll(s, a, e), b) == FindById(s, b)
    ensures FindById(UpdateAll(s, a, e), a) ==
      (if FindById(s, a).Some? then Some(ApplyEdit(FindById(s, a).value, e)) else None)
  {
    FirstIndexAfterUpdate(s, a, e, a);
    FirstIndexAfterUpdate(s, a, e, b);
  }
}
