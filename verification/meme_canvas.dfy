/** The scene logic of the React editor, components/MemeCanvas.tsx: one
    optional background image, its working canvas, the ordered text boxes,
    the selection, the drag gesture and the two style controls (font size and
    colour). Every handler is a pure transition; `Dispatch` runs a handler and
    then the two effects that write a changed control into the selected box. */
module MemeCanvas {
  import opened Wrappers
  import opened JsMath
  import opened JsString
  import opened Types
  import opened Boxes
  import opened Geometry

  const NoImageAlert: string := "Please upload an image first!"

  datatype Editor = Editor(
    image: Option<Image>,
    canvas: Size,
    boxes: seq<TextBox>,
    selected: Option<string>,
    dragging: bool,
    offset: Point,
    fontSize: real,
    textColor: string,
    cursor: Cursor)

  /** The state on mount: no image, the 300x150 buffer of a fresh HTML canvas,
      no boxes, no selection, controls at 40 and white, cursor "move". */
  const Initial: Editor :=
    Editor(None, Size(300, 150), [], None, false, Point(0.0, 0.0), DefaultFontSize, DefaultColor, Move)

  /** `if (selectedTextBoxId)`: a selection that is neither null nor "". */
  predicate Truthy(sel: Option<string>) {
    sel.Some? && sel.value != ""
  }

  /** The style controls show the selected box's style: every box carrying
      the (truthy) selected id has the controls' font size and colour. */
  predicate Synced(e: Editor) {
    Truthy(e.selected) ==>
      forall i :: 0 <= i < |e.boxes| && e.boxes[i].id == e.selected.value ==>
        e.boxes[i].fontSize == e.fontSize && e.boxes[i].color == e.textColor
  }

  // ---------------------------------------------------------------------
  // Handlers
  // ---------------------------------------------------------------------

  /** `img.onload`: the image is set and the working canvas sized to it;
      the boxes, the selection and the controls are untouched. */
  function ImageLoaded(e: Editor, img: Image): (r: Editor)
    ensures r.image == Some(img) && r.canvas == WorkingSize(img)
    ensures r.boxes == e.boxes && r.selected == e.selected
    ensures r.fontSize == e.fontSize && r.textColor == e.textColor
    ensures r == e.(image := r.image, canvas := r.canvas)
  {
    e.(image := Some(img), canvas := WorkingSize(img))
  }

  /** The one-time seeding from a stored meme: a non-empty list replaces the
      boxes and clears the selection; an empty list changes nothing. */
  function Hydrate(e: Editor, initial: seq<TextBox>): (r: Editor)
    ensures |initial| > 0 ==> r.boxes == initial && r.selected.None?
    ensures |initial| > 0 ==> r == e.(boxes := r.boxes, selected := r.selected)
    ensures |initial| == 0 ==> r == e
  {
    if |initial| > 0 then e.(boxes := initial, selected := None) else e
  }

  /** `addTextBox` with `id` as the fresh identifier. */
  function AddTextBox(e: Editor, id: string): (r: Editor)
    ensures e.image.None? ==> r == e
    ensures e.image.Some? ==>
      && |r.boxes| == |e.boxes| + 1
      && r.boxes[..|e.boxes|] == e.boxes
      && r.selected == Some(id)
      && r == e.(boxes := r.boxes, selected := r.selected)
    ensures e.image.Some? ==>
      var b := r.boxes[|e.boxes|];
      && b.id == id && b.text == NewBoxText
      && 2.0 * b.x == e.canvas.width as real && 2.0 * b.y == e.canvas.height as real
      && b.fontSize == e.fontSize && b.color == e.textColor
      && b.width == NewBoxWidth && b.height == NewBoxHeight
  {
    if e.image.None? then e
    else
      var b := TextBox(id, NewBoxText, e.canvas.width as real / 2.0, e.canvas.height as real / 2.0,
                       e.fontSize, e.textColor, NewBoxWidth, NewBoxHeight);
      e.(boxes := e.boxes + [b], selected := Some(id))
  }

  /** The alert `addTextBox` raises: exactly when there is no image. */
  function AddTextBoxAlert(e: Editor): (r: Option<string>)
    ensures r.Some? <==> e.image.None?
  {
    if e.image.None? then Some(NoImageAlert) else None
  }

  /** `deleteTextBox(id)`. */
  function DeleteTextBox(e: Editor, id: string): (r: Editor)
    ensures r.boxes == RemoveId(e.boxes, id)
    ensures e.selected == Some(id) ==>
      r.selected.None? && r.fontSize == DefaultFontSize && r.textColor == DefaultColor
    ensures e.selected != Some(id) ==>
      r.selected == e.selected && r.fontSize == e.fontSize && r.textColor == e.textColor
    ensures r.image == e.image && r.canvas == e.canvas && r.dragging == e.dragging
    ensures r == e.(boxes := r.boxes, selected := r.selected, fontSize := r.fontSize, textColor := r.textColor)
  {
    var r := e.(boxes := RemoveId(e.boxes, id));
    if e.selected == Some(id) then
      r.(selected := None, fontSize := DefaultFontSize, textColor := DefaultColor)
    else r
  }

  /** `selectTextBox(id)`: the selection is set even to an unknown id; the
      controls take the first matching box's size and colour (white when its
      colour is empty) and are untouched when no box matches. */
  function SelectTextBox(e: Editor, id: string): (r: Editor)
    ensures r.selected == Some(id) && r.boxes == e.boxes
    ensures FindById(e.boxes, id).Some? ==>
      && r.fontSize == FindById(e.boxes, id).value.fontSize
      && r.textColor == Or(FindById(e.boxes, id).value.color, DefaultColor)
    ensures FindById(e.boxes, id).None? ==> r.fontSize == e.fontSize && r.textColor == e.textColor
    ensures r == e.(selected := r.selected, fontSize := r.fontSize, textColor := r.textColor)
  {
    var r := e.(selected := Some(id));
    match FindById(e.boxes, id)
    case None => r
    case Some(b) => r.(fontSize := b.fontSize, textColor := Or(b.color, DefaultColor))
  }

  /** `updateTextBoxText(id, text)` from the list's input. */
  function EditText(e: Editor, id: string, text: string): (r: Editor)
    ensures r == e.(boxes := r.boxes) && |r.boxes| == |e.boxes|
    ensures forall i :: 0 <= i < |e.boxes| && e.boxes[i].id == id ==> r.boxes[i] == e.boxes[i].(text := text)
    ensures forall i :: 0 <= i < |e.boxes| && e.boxes[i].id != id ==> r.boxes[i] == e.boxes[i]
  {
    e.(boxes := UpdateAll(e.boxes, id, SetText(text)))
  }

  /** The range input: only the control changes here; the effect in
      `Commit` carries it into the selected box. */
  function FontSizeInput(e: Editor, size: real): (r: Editor)
    ensures r.fontSize == size
    ensures r.boxes == e.boxes && r.selected == e.selected && r.textColor == e.textColor
    ensures r == e.(fontSize := r.fontSize)
  {
    e.(fontSize := size)
  }

  /** The colour input, likewise. */
  function ColorInput(e: Editor, color: string): (r: Editor)
    ensures r.textColor == color
    ensures r.boxes == e.boxes && r.selected == e.selected && r.fontSize == e.fontSize
    ensures r == e.(textColor := r.textColor)
  {
    e.(textColor := color)
  }

  /** `handleMouseDown` at canvas point `p`: a hit starts a drag on the hit
      box, selects it, remembers the mouse's offset from its centre, and
      loads the first box with that id into the controls. */
  function PressAt(e: Editor, p: Point, measure: Measure): (r: Editor)
    requires e.image.Some?
    ensures BoxAtPoint(e.boxes, p, measure).None? ==> r == e
    ensures BoxAtPoint(e.boxes, p, measure).Some? ==>
      var b := BoxAtPoint(e.boxes, p, measure).value;
      && r.dragging && r.selected == Some(b.id) && r.cursor == Grabbing
      && r.offset == Point(p.x - b.x, p.y - b.y)
      && r.boxes == e.boxes
      && r.fontSize == FindById(e.boxes, b.id).value.fontSize
      && r.textColor == Or(FindById(e.boxes, b.id).value.color, DefaultColor)
      && r == e.(dragging := r.dragging, selected := r.selected, offset := r.offset,
                 cursor := r.cursor, fontSize := r.fontSize, textColor := r.textColor)
  {
    match BoxAtPoint(e.boxes, p, measure)
    case None => e
    case Some(b) =>
      assert HasId(e.boxes, b.id);
      var r := e.(dragging := true, selected := Some(b.id),
                  offset := Point(p.x - b.x, p.y - b.y), cursor := Grabbing);
      match FindById(e.boxes, b.id)
      case None => r
      case Some(f) => r.(fontSize := f.fontSize, textColor := Or(f.color, DefaultColor))
  }

  /** `handleMouseDown`: nothing without an image. */
  function MouseDown(e: Editor, client: Point, rect: DisplayRect, measure: Measure): (r: Editor)
    ensures e.image.None? ==> r == e
    ensures e.image.Some? ==> r == PressAt(e, ToCanvas(client, rect, e.canvas), measure)
    ensures r.boxes == e.boxes && r.image == e.image && r.canvas == e.canvas
    ensures e.image.Some? ==>
      (r.dragging <==> e.dragging || BoxAtPoint(e.boxes, ToCanvas(client, rect, e.canvas), measure).Some?)
  {
    if e.image.None? then e else PressAt(e, ToCanvas(client, rect, e.canvas), measure)
  }

  /** The margin kept around dragged text: `Math.max(8, Math.round(fontSize * 0.35))`. */
  function DragPadding(fontSize: real): (r: real)
    ensures r >= 8.0
    ensures r >= Round(fontSize * 0.35) as real
    ensures r == 8.0 || r == Round(fontSize * 0.35) as real
  {
    Max(8.0, Round(fontSize * 0.35) as real)
  }

  /** The width the drag clamp measures: bold text, as rendered. */
  function BoldWidth(b: TextBox, measure: Measure): real {
    measure(b.text, b.fontSize, true)
  }

  /** The proposed centre `target`, clamped so that the measured bold text
      plus the padding stays on the canvas. The left and top edges of the
      padded box are always kept on the canvas; the right and bottom edges
      are when the padded box fits, otherwise the centre sits at the minimum. */
  function DragClamp(b: TextBox, target: Point, canvas: Size, measure: Measure): (r: Point)
    ensures var w, pad := BoldWidth(b, measure), DragPadding(b.fontSize);
      && r.x - w / 2.0 - pad >= 0.0
      && (w + 2.0 * pad <= canvas.width as real ==> r.x + w / 2.0 + pad <= canvas.width as real)
      && (w + 2.0 * pad > canvas.width as real ==> r.x == w / 2.0 + pad)
      && (w / 2.0 + pad <= target.x <= canvas.width as real - w / 2.0 - pad ==> r.x == target.x)
    ensures var h, pad := b.fontSize, DragPadding(b.fontSize);
      && r.y - h / 2.0 - pad >= 0.0
      && (h + 2.0 * pad <= canvas.height as real ==> r.y + h / 2.0 + pad <= canvas.height as real)
      && (h + 2.0 * pad > canvas.height as real ==> r.y == h / 2.0 + pad)
      && (h / 2.0 + pad <= target.y <= canvas.height as real - h / 2.0 - pad ==> r.y == target.y)
  {
    var w := BoldWidth(b, measure);
    var h := b.fontSize;
    var pad := DragPadding(b.fontSize);
    Point(Clamp(target.x, w / 2.0 + pad, canvas.width as real - w / 2.0 - pad),
          Clamp(target.y, h / 2.0 + pad, canvas.height as real - h / 2.0 - pad))
  }

  /** `handleMouseMove` at canvas point `p`. During a drag, every box with
      the selected id moves to the clamped `p - offset`, clamped by the first
      such box's measurements. Otherwise only the cursor changes: "grab"
      over a box, "default" elsewhere. */
  function MoveTo(e: Editor, p: Point, measure: Measure): (r: Editor)
    ensures !(e.dragging && e.selected.Some?) ==>
      r == e.(cursor := if BoxAtPoint(e.boxes, p, measure).Some? then Grab else Default)
    ensures e.dragging && e.selected.Some? && FindById(e.boxes, e.selected.value).None? ==> r == e
    ensures e.dragging && e.selected.Some? && FindById(e.boxes, e.selected.value).Some? ==>
      var c := DragClamp(FindById(e.boxes, e.selected.value).value,
                         Point(p.x - e.offset.x, p.y - e.offset.y), e.canvas, measure);
      && r == e.(boxes := r.boxes) && |r.boxes| == |e.boxes|
      && (forall i :: 0 <= i < |e.boxes| && e.boxes[i].id == e.selected.value ==>
            r.boxes[i] == e.boxes[i].(x := c.x, y := c.y))
      && (forall i :: 0 <= i < |e.boxes| && e.boxes[i].id != e.selected.value ==>
            r.boxes[i] == e.boxes[i])
  {
    if e.dragging && e.selected.Some? then
      match FindById(e.boxes, e.selected.value)
      case None => e
      case Some(b) =>
        var c := DragClamp(b, Point(p.x - e.offset.x, p.y - e.offset.y), e.canvas, measure);
        e.(boxes := UpdateAll(e.boxes, e.selected.value, Boxes.MoveTo(c.x, c.y)))
    else
      e.(cursor := if BoxAtPoint(e.boxes, p, measure).Some? then Grab else Default)
  }

  /** `handleMouseMove`: nothing without an image. */
  function MouseMove(e: Editor, client: Point, rect: DisplayRect, measure: Measure): (r: Editor)
    ensures e.image.None? ==> r == e
    ensures e.image.Some? ==> r == MoveTo(e, ToCanvas(client, rect, e.canvas), measure)
    ensures r.image == e.image && r.canvas == e.canvas && r.selected == e.selected
    ensures r.dragging == e.dragging && r.fontSize == e.fontSize && r.textColor == e.textColor
    ensures |r.boxes| == |e.boxes|
  {
    if e.image.None? then e else MoveTo(e, ToCanvas(client, rect, e.canvas), measure)
  }

  /** `handleMouseUp`, also bound to mouse-leave and touch-end: a drag ends
      and the cursor returns to "move"; outside a drag nothing changes. */
  function MouseUp(e: Editor): (r: Editor)
    ensures !r.dragging
    ensures e.dragging ==> r == e.(dragging := false, cursor := Move)
    ensures !e.dragging ==> r == e
  {
    if e.dragging then e.(dragging := false, cursor := Move) else e
  }

  // ---------------------------------------------------------------------
  // Effects and dispatch
  // ---------------------------------------------------------------------

  /** The two effects that follow a handler's render: the font-size effect
      runs when the font size or the selected id changed, the colour effect
      when the colour or the selected id changed; each writes its control
      into every box with the selected id, if that id is truthy. */
  function Commit(before: Editor, after: Editor): (r: Editor)
    ensures r == after.(boxes := r.boxes) && |r.boxes| == |after.boxes|
  {
    var sel := after.selected;
    var b1 := if FontEffectRuns(before, after) then UpdateAll(after.boxes, sel.value, SetFontSize(after.fontSize)) else after.boxes;
    var b2 := if ColorEffectRuns(before, after) then UpdateAll(b1, sel.value, SetColor(after.textColor)) else b1;
    after.(boxes := b2)
  }

  predicate FontEffectRuns(before: Editor, after: Editor) {
    Truthy(after.selected) && (after.fontSize != before.fontSize || after.selected != before.selected)
  }

  predicate ColorEffectRuns(before: Editor, after: Editor) {
    Truthy(after.selected) && (after.textColor != before.textColor || after.selected != before.selected)
  }

  /** The effects touch only the font size and colour of boxes carrying the
      selected id. */
  lemma CommitFrame(before: Editor, after: Editor)
    ensures var r := Commit(before, after);
      forall i :: 0 <= i < |r.boxes| ==>
        var a, b := after.boxes[i], r.boxes[i];
        && b.id == a.id && b.text == a.text && b.x == a.x && b.y == a.y
        && b.width == a.width && b.height == a.height
        && (!(Truthy(after.selected) && a.id == after.selected.value) ==> b == a)
  {
  }

  /** A run effect leaves its control in every box with the selected id;
      an effect that does not run leaves that field of every box alone. */
  lemma CommitStyle(before: Editor, after: Editor)
    ensures var r := Commit(before, after);
      && (FontEffectRuns(before, after) ==>
            forall i :: 0 <= i < |r.boxes| && r.boxes[i].id == after.selected.value ==>
              r.boxes[i].fontSize == after.fontSize)
      && (!FontEffectRuns(before, after) ==>
            forall i :: 0 <= i < |r.boxes| ==> r.boxes[i].fontSize == after.boxes[i].fontSize)
      && (ColorEffectRuns(before, after) ==>
            forall i :: 0 <= i < |r.boxes| && r.boxes[i].id == after.selected.value ==>
              r.boxes[i].color == after.textColor)
      && (!ColorEffectRuns(before, after) ==>
            forall i :: 0 <= i < |r.boxes| ==> r.boxes[i].color == after.boxes[i].color)
  {
  }

  /** What the user or the browser does to the editor. Touch end and mouse
      leave arrive as `MouseUpEvent`; touch start and touch move, which
      re-dispatch a non-bubbling DOM mouse event, are not modelled. */
  datatype Event =
    | ImageLoadedEvent(img: Image)
    | HydrateEvent(initial: seq<TextBox>)
    | AddTextBoxEvent(id: string)
    | DeleteTextBoxEvent(id: string)
    | SelectTextBoxEvent(id: string)
    | EditTextEvent(id: string, text: string)
    | FontSizeInputEvent(size: real)
    | ColorInputEvent(color: string)
    | MouseDownEvent(client: Point, rect: DisplayRect)
    | MouseMoveEvent(client: Point, rect: DisplayRect)
    | MouseUpEvent

  function Handle(e: Editor, ev: Event, measure: Measure): Editor {
    match ev
    case ImageLoadedEvent(img) => ImageLoaded(e, img)
    case HydrateEvent(initial) => Hydrate(e, initial)
    case AddTextBoxEvent(id) => AddTextBox(e, id)
    case DeleteTextBoxEvent(id) => DeleteTextBox(e, id)
    case SelectTextBoxEvent(id) => SelectTextBox(e, id)
    case EditTextEvent(id, text) => EditText(e, id, text)
    case FontSizeInputEvent(size) => FontSizeInput(e, size)
    case ColorInputEvent(color) => ColorInput(e, color)
    case MouseDownEvent(client, rect) => MouseDown(e, client, rect, measure)
    case MouseMoveEvent(client, rect) => MouseMove(e, client, rect, measure)
    case MouseUpEvent => MouseUp(e)
  }

  /** One event: its handler, then the effects of the render that follows. */
  function Dispatch(e: Editor, ev: Event, measure: Measure): Editor {
    Commit(e, Handle(e, ev, measure))
  }

  // ---------------------------------------------------------------------
  // Laws
  // ---------------------------------------------------------------------

  /** Two lists of the same boxes, in place, with the same ids, font sizes
      and colours. */
  predicate SameStyles(s: seq<TextBox>, t: seq<TextBox>) {
    && |s| == |t|
    && forall i :: 0 <= i < |s| ==>
         s[i].id == t[i].id && s[i].fontSize == t[i].fontSize && s[i].color == t[i].color
  }

  /** Editing text or position keeps every id and style in place. */
  lemma UpdateKeepsStyles(s: seq<TextBox>, id: string, ed: Edit)
    requires ed.SetText? || ed.MoveTo?
    ensures SameStyles(s, UpdateAll(s, id, ed))
  {
  }

  /** A drag moves boxes without restyling them; a hover moves nothing. */
  lemma MoveToKeepsStyles(e: Editor, p: Point, measure: Measure)
    ensures SameStyles(e.boxes, MoveTo(e, p, measure).boxes)
  {
    var r := MoveTo(e, p, measure);
    if e.dragging && e.selected.Some? && FindById(e.boxes, e.selected.value).Some? {
      forall i | 0 <= i < |e.boxes|
        ensures r.boxes[i].id == e.boxes[i].id && r.boxes[i].fontSize == e.boxes[i].fontSize
        ensures r.boxes[i].color == e.boxes[i].color
      {
      }
    } else {
      assert r.boxes == e.boxes;
    }
  }

  /** Every handler either keeps all ids and styles in place, or is one of
      the three that change the list (seeding, adding, deleting). */
  lemma {:induction false} HandleStyles(e: Editor, ev: Event, measure: Measure)
    requires !ev.HydrateEvent? && !ev.AddTextBoxEvent? && !ev.DeleteTextBoxEvent?
    ensures SameStyles(e.boxes, Handle(e, ev, measure).boxes)
  {
    var a := Handle(e, ev, measure);
    match ev
    case EditTextEvent(id, text) =>
      assert a.boxes == UpdateAll(e.boxes, id, SetText(text));
      UpdateKeepsStyles(e.boxes, id, SetText(text));
    case MouseMoveEvent(client, rect) =>
      if e.image.Some? {
        var p := ToCanvas(client, rect, e.canvas);
        assert a == MoveTo(e, p, measure);
        MoveToKeepsStyles(e, p, measure);
      } else {
        assert a.boxes == e.boxes;
      }
    case MouseDownEvent(client, rect) =>
      if e.image.Some? {
        var p := ToCanvas(client, rect, e.canvas);
        assert a == PressAt(e, p, measure);
      }
      assert a.boxes == e.boxes;
    case ImageLoadedEvent(_) => assert a.boxes == e.boxes;
    case SelectTextBoxEvent(_) => assert a.boxes == e.boxes;
    case FontSizeInputEvent(_) => assert a.boxes == e.boxes;
    case ColorInputEvent(_) => assert a.boxes == e.boxes;
    case MouseUpEvent => assert a.boxes == e.boxes;
    case _ =>
  }

  /** A handler that keeps the selection keeps every selected box's font
      size (colour) unless it changed the font-size (colour) control. */
  lemma {:induction false} HandleKeepsStyle(e: Editor, ev: Event, measure: Measure)
    requires Synced(e)
    ensures var a := Handle(e, ev, measure);
      a.selected == e.selected && Truthy(a.selected) ==>
        forall i :: 0 <= i < |a.boxes| && a.boxes[i].id == a.selected.value ==>
          && (a.fontSize == e.fontSize ==> a.boxes[i].fontSize == a.fontSize)
          && (a.textColor == e.textColor ==> a.boxes[i].color == a.textColor)
  {
    var a := Handle(e, ev, measure);
    if a.selected == e.selected && Truthy(a.selected) {
      match ev
      case HydrateEvent(initial) =>
        assert a == Hydrate(e, initial);
      case AddTextBoxEvent(id) =>
        assert a == AddTextBox(e, id);
        AddKeepsSynced(e, id);
      case DeleteTextBoxEvent(id) =>
        assert a == DeleteTextBox(e, id);
        DeleteKeepsSynced(e, id);
      case _ =>
        HandleStyles(e, ev, measure);
    }
  }

  /** An added box carries the controls' style, so a kept selection stays
      synced. */
  lemma AddKeepsSynced(e: Editor, id: string)
    requires Synced(e)
    ensures var a := AddTextBox(e, id); a.selected == e.selected ==> Synced(a)
  {
    var a := AddTextBox(e, id);
    if e.image.Some? && a.selected == e.selected && Truthy(a.selected) {
      forall i | 0 <= i < |a.boxes| && a.boxes[i].id == a.selected.value
        ensures a.boxes[i].fontSize == a.fontSize && a.boxes[i].color == a.textColor
      {
        if i < |e.boxes| { assert a.boxes[i] == a.boxes[..|e.boxes|][i]; }
      }
    }
  }

  /** Deleting keeps only boxes that were there, so a kept selection stays
      synced. */
  lemma DeleteKeepsSynced(e: Editor, id: string)
    requires Synced(e)
    ensures Synced(DeleteTextBox(e, id))
  {
    var a := DeleteTextBox(e, id);
    if Truthy(a.selected) {
      forall i | 0 <= i < |a.boxes| && a.boxes[i].id == a.selected.value
        ensures a.boxes[i].fontSize == a.fontSize && a.boxes[i].color == a.textColor
      {
        assert a.boxes[i] in e.boxes;
        var j :| 0 <= j < |e.boxes| && e.boxes[j] == a.boxes[i];
      }
    }
  }

  /** The style controls always show the selected box's style: the mount
      state is synced, and every event keeps it so. */
  lemma {:induction false} DispatchKeepsSynced(e: Editor, ev: Event, measure: Measure)
    requires Synced(e)
    ensures Synced(Dispatch(e, ev, measure))
  {
    var a := Handle(e, ev, measure);
    CommitFrame(e, a);
    CommitStyle(e, a);
    HandleKeepsStyle(e, ev, measure);
  }

  lemma InitialIsSynced()
    ensures Synced(Initial) && UniqueIds(Initial.boxes) && !Initial.dragging
  {
  }

  /** Ids stay unique under every event, given that an added box's id is
      fresh and a seeded list has unique ids. */
  lemma {:induction false} DispatchKeepsIdsUnique(e: Editor, ev: Event, measure: Measure)
    requires UniqueIds(e.boxes)
    requires ev.AddTextBoxEvent? ==> !HasId(e.boxes, ev.id)
    requires ev.HydrateEvent? ==> UniqueIds(ev.initial)
    ensures UniqueIds(Dispatch(e, ev, measure).boxes)
  {
    var a := Handle(e, ev, measure);
    HandleKeepsIdsUnique(e, ev, measure);
    CommitFrame(e, a);
  }

  /** The handler alone keeps the ids unique; the effects never touch ids. */
  lemma HandleKeepsIdsUnique(e: Editor, ev: Event, measure: Measure)
    requires UniqueIds(e.boxes)
    requires ev.AddTextBoxEvent? ==> !HasId(e.boxes, ev.id)
    requires ev.HydrateEvent? ==> UniqueIds(ev.initial)
    ensures UniqueIds(Handle(e, ev, measure).boxes)
  {
    match ev
    case HydrateEvent(initial) =>
    case AddTextBoxEvent(id) =>
      AddKeepsIdsUnique(e, id);
    case DeleteTextBoxEvent(id) =>
      assert Handle(e, ev, measure).boxes == RemoveId(e.boxes, id);
    case _ =>
      HandleStyles(e, ev, measure);
  }

  /** Adding a box under a fresh id keeps the ids unique. */
  lemma AddKeepsIdsUnique(e: Editor, id: string)
    requires UniqueIds(e.boxes) && !HasId(e.boxes, id)
    ensures UniqueIds(AddTextBox(e, id).boxes)
  {
    var a := AddTextBox(e, id);
    if e.image.Some? {
      forall i, j | 0 <= i < j < |a.boxes| ensures a.boxes[i].id != a.boxes[j].id {
        assert a.boxes[i] == a.boxes[..|e.boxes|][i];
        if j < |e.boxes| { assert a.boxes[j] == a.boxes[..|e.boxes|][j]; }
      }
    }
  }

  lemma SelectDispatch(e: Editor, id: string, measure: Measure)
    ensures Dispatch(e, SelectTextBoxEvent(id), measure) == Commit(e, SelectTextBox(e, id))
  {
  }

  /** The effects do not change what `find` returns for an unselected id. */
  lemma CommitFindOther(before: Editor, after: Editor, b: string)
    requires after.selected.Some? && after.selected.value != b
    ensures FindById(Commit(before, after).boxes, b) == FindById(after.boxes, b)
  {
    var sel := after.selected.value;
    var b1 := if FontEffectRuns(before, after) then UpdateAll(after.boxes, sel, SetFontSize(after.fontSize)) else after.boxes;
    if FontEffectRuns(before, after) {
      FindAfterUpdate(after.boxes, sel, SetFontSize(after.fontSize), b);
    }
    assert FindById(b1, b) == FindById(after.boxes, b);
    if ColorEffectRuns(before, after) {
      FindAfterUpdate(b1, sel, SetColor(after.textColor), b);
      assert Commit(before, after).boxes == UpdateAll(b1, sel, SetColor(after.textColor));
    } else {
      assert Commit(before, after).boxes == b1;
    }
  }

  /** Writing a box's own font size back into it changes nothing `find` sees. */
  lemma FontStepKeeps(s: seq<TextBox>, id: string, x: TextBox)
    requires FindById(s, id) == Some(x)
    ensures FindById(UpdateAll(s, id, SetFontSize(x.fontSize)), id) == Some(x)
  {
    FindAfterUpdate(s, id, SetFontSize(x.fontSize), id);
    assert ApplyEdit(x, SetFontSize(x.fontSize)) == x;
  }

  /** Writing a box's shown colour into it keeps its font size and shown colour. */
  lemma ColorStepKeeps(s: seq<TextBox>, id: string, x: TextBox)
    requires FindById(s, id) == Some(x)
    ensures var f := FindById(UpdateAll(s, id, SetColor(Or(x.color, DefaultColor))), id);
      f.Some? && f.value.fontSize == x.fontSize && Or(f.value.color, DefaultColor) == Or(x.color, DefaultColor)
  {
    FindAfterUpdate(s, id, SetColor(Or(x.color, DefaultColor)), id);
  }

  /** When the controls already show the selected box's style, the effects
      leave that box's font size and shown colour as they were. */
  lemma CommitFindSelected(before: Editor, after: Editor, x: TextBox)
    requires after.selected.Some? && FindById(after.boxes, after.selected.value) == Some(x)
    requires after.fontSize == x.fontSize && after.textColor == Or(x.color, DefaultColor)
    ensures var f := FindById(Commit(before, after).boxes, after.selected.value);
      f.Some? && f.value.fontSize == x.fontSize && Or(f.value.color, DefaultColor) == Or(x.color, DefaultColor)
  {
    var sel := after.selected.value;
    var b1 := if FontEffectRuns(before, after) then UpdateAll(after.boxes, sel, SetFontSize(after.fontSize)) else after.boxes;
    if FontEffectRuns(before, after) {
      FontStepKeeps(after.boxes, sel, x);
    }
    assert FindById(b1, sel) == Some(x);
    if ColorEffectRuns(before, after) {
      ColorStepKeeps(b1, sel, x);
      assert Commit(before, after).boxes == UpdateAll(b1, sel, SetColor(after.textColor));
    } else {
      assert Commit(before, after).boxes == b1;
    }
  }

  /** Selecting `a` leaves the box `find` returns for another id `b` with the
      same font size and (shown) colour, and for `b == a` the loaded ones. */
  lemma SelectKeepsLookup(e: Editor, a: string, b: string, measure: Measure)
    requires HasId(e.boxes, b)
    ensures var e1 := Dispatch(e, SelectTextBoxEvent(a), measure);
      var f, second := FindById(e1.boxes, b), FindById(e.boxes, b).value;
      f.Some? && f.value.fontSize == second.fontSize
      && Or(f.value.color, DefaultColor) == Or(second.color, DefaultColor)
  {
    var a1 := SelectTextBox(e, a);
    SelectDispatch(e, a, measure);
    if a == b {
      CommitFindSelected(e, a1, FindById(e.boxes, b).value);
    } else {
      CommitFindOther(e, a1, b);
    }
  }

  /** Selecting a present id loads that box's style into the controls. */
  lemma SelectLoadsStyle(e: Editor, b: string, measure: Measure)
    requires FindById(e.boxes, b).Some?
    ensures var r := Dispatch(e, SelectTextBoxEvent(b), measure);
      && r.selected == Some(b)
      && r.fontSize == FindById(e.boxes, b).value.fontSize
      && r.textColor == Or(FindById(e.boxes, b).value.color, DefaultColor)
  {
    SelectDispatch(e, b, measure);
  }

  /** Selecting one box and then another leaves the controls showing the
      second box's font size and colour, not the first's. */
  lemma SecondSelectionWins(e: Editor, a: string, b: string, measure: Measure)
    requires HasId(e.boxes, b)
    ensures var e2 := Dispatch(Dispatch(e, SelectTextBoxEvent(a), measure), SelectTextBoxEvent(b), measure);
      var second := FindById(e.boxes, b).value;
      && e2.selected == Some(b)
      && e2.fontSize == second.fontSize
      && e2.textColor == Or(second.color, DefaultColor)
  {
    SelectKeepsLookup(e, a, b, measure);
    var e1 := Dispatch(e, SelectTextBoxEvent(a), measure);
    SelectLoadsStyle(e1, b, measure);
    var f := FindById(e1.boxes, b).value;
    assert Or(Or(f.color, DefaultColor), DefaultColor) == Or(f.color, DefaultColor);
  }

  /** Deleting the selected box clears the selection and resets the
      controls to 40 and white; the other boxes keep their order. */
  lemma DeleteSelectedResetsControls(e: Editor, id: string, measure: Measure)
    requires e.selected == Some(id)
    ensures var r := Dispatch(e, DeleteTextBoxEvent(id), measure);
      && r.selected.None? && r.fontSize == DefaultFontSize && r.textColor == DefaultColor
      && r.boxes == RemoveId(e.boxes, id) && !HasId(r.boxes, id)
      && IsSubsequence(r.boxes, e.boxes)
  {
  }

  /** Moving a control writes the new value into every box with the
      selected id and into no other box; with nothing selected the boxes are
      untouched and the value waits for the next added box. */
  lemma FontSizeControlWritesSelection(e: Editor, size: real, measure: Measure)
    requires Synced(e)
    ensures var r := Dispatch(e, FontSizeInputEvent(size), measure);
      && r.fontSize == size
      && (Truthy(e.selected) ==> r.boxes == UpdateAll(e.boxes, e.selected.value, SetFontSize(size)))
      && (!Truthy(e.selected) ==> r.boxes == e.boxes)
  {
    var r := Dispatch(e, FontSizeInputEvent(size), measure);
    if Truthy(e.selected) && size == e.fontSize {
      var u := UpdateAll(e.boxes, e.selected.value, SetFontSize(size));
      assert forall i :: 0 <= i < |u| ==> u[i] == e.boxes[i];
    }
  }

  /** The colour control, likewise. */
  lemma ColorControlWritesSelection(e: Editor, color: string, measure: Measure)
    requires Synced(e)
    ensures var r := Dispatch(e, ColorInputEvent(color), measure);
      && r.textColor == color
      && (Truthy(e.selected) ==> r.boxes == UpdateAll(e.boxes, e.selected.value, SetColor(color)))
      && (!Truthy(e.selected) ==> r.boxes == e.boxes)
  {
    var r := Dispatch(e, ColorInputEvent(color), measure);
    if Truthy(e.selected) && color == e.textColor {
      var u := UpdateAll(e.boxes, e.selected.value, SetColor(color));
      assert forall i :: 0 <= i < |u| ==> u[i] == e.boxes[i];
    }
  }

  /** Selecting a box whose colour is empty writes white into it: the
      controls load `color || "#ffffff"` and the colour effect then stores
      that value, although the selection itself changed no style. */
  lemma SelectingFillsEmptyColour(e: Editor, id: string, measure: Measure)
    requires id != "" && e.selected != Some(id)
    requires FindById(e.boxes, id).Some? && FindById(e.boxes, id).value.color == ""
    ensures var r := Dispatch(e, SelectTextBoxEvent(id), measure);
      forall i :: 0 <= i < |r.boxes| && r.boxes[i].id == id ==> r.boxes[i].color == DefaultColor
  {
    CommitStyle(e, SelectTextBox(e, id));
  }

  /** Without an image, adding a box raises the alert and changes nothing. */
  lemma AddWithoutImageIsRefused(e: Editor, id: string, measure: Measure)
    requires e.image.None?
    ensures Dispatch(e, AddTextBoxEvent(id), measure) == e
    ensures AddTextBoxAlert(e) == Some(NoImageAlert)
  {
  }

  /** The bold text of `b` plus its drag padding fits on the canvas. */
  predicate FitsCanvas(b: TextBox, canvas: Size, measure: Measure) {
    var pad := DragPadding(b.fontSize);
    && BoldWidth(b, measure) + 2.0 * pad <= canvas.width as real
    && b.fontSize + 2.0 * pad <= canvas.height as real
  }

  /** The bold text of `b` plus its drag padding lies on the canvas. */
  predicate PaddedBoxInside(b: TextBox, canvas: Size, measure: Measure) {
    var w, pad := BoldWidth(b, measure), DragPadding(b.fontSize);
    && 0.0 <= b.x - w / 2.0 - pad && b.x + w / 2.0 + pad <= canvas.width as real
    && 0.0 <= b.y - b.fontSize / 2.0 - pad && b.y + b.fontSize / 2.0 + pad <= canvas.height as real
  }

  /** A drag step moves only the dragged box, keeps its text and style, and
      when its padded text fits on the canvas it ends up wholly on it,
      wherever the mouse is. */
  lemma DragKeepsBoxOnCanvas(e: Editor, client: Point, rect: DisplayRect, k: nat, measure: Measure)
    requires e.image.Some? && e.dragging && e.selected.Some?
    requires UniqueIds(e.boxes) && k < |e.boxes| && e.boxes[k].id == e.selected.value
    ensures var r := Dispatch(e, MouseMoveEvent(client, rect), measure);
      && |r.boxes| == |e.boxes|
      && (forall i :: 0 <= i < |e.boxes| && i != k ==> r.boxes[i] == e.boxes[i])
      && r.boxes[k] == e.boxes[k].(x := r.boxes[k].x, y := r.boxes[k].y)
      && (FitsCanvas(e.boxes[k], e.canvas, measure) ==> PaddedBoxInside(r.boxes[k], e.canvas, measure))
  {
    var p := ToCanvas(client, rect, e.canvas);
    var a := MoveTo(e, p, measure);
    assert Handle(e, MouseMoveEvent(client, rect), measure) == a;
    assert FindById(e.boxes, e.selected.value) == Some(e.boxes[k]);
  }

  /** Dragging a 50-pixel box whose bold text measures 120 pixels to the
      corner point (5, 5) of an 800x600 canvas: the padding is
      `max(8, round(17.5)) = 18`, so the centre stops at (60 + 18, 25 + 18). */
  lemma DragToCornerExample(b: TextBox, measure: Measure)
    requires b.fontSize == 50.0 && measure(b.text, 50.0, true) == 120.0
    ensures DragClamp(b, Point(5.0, 5.0), Size(800, 600), measure) == Point(78.0, 43.0)
  {
    assert Round(50.0 * 0.35) == 18;
  }

  /** Outside a drag, moving the mouse only sets the cursor: "grab" over a
      box and "default" elsewhere. */
  lemma HoverSetsCursor(e: Editor, client: Point, rect: DisplayRect, measure: Measure)
    requires e.image.Some? && !e.dragging
    ensures var r := Dispatch(e, MouseMoveEvent(client, rect), measure);
      var p := ToCanvas(client, rect, e.canvas);
      && r == e.(cursor := r.cursor)
      && (r.cursor == Grab <==> exists j :: 0 <= j < |e.boxes| && Covers(e.boxes[j], p, measure))
      && (r.cursor == Default <==> forall j :: 0 <= j < |e.boxes| ==> !Covers(e.boxes[j], p, measure))
  {
  }

  /** A press on a box starts the drag with the topmost box under the
      mouse, selected, and its centre at the recorded offset. */
  lemma PressStartsDrag(e: Editor, client: Point, rect: DisplayRect, measure: Measure)
    requires e.image.Some?
    requires Topmost(e.boxes, ToCanvas(client, rect, e.canvas), measure).Some?
    ensures var r := Dispatch(e, MouseDownEvent(client, rect), measure);
      var p := ToCanvas(client, rect, e.canvas);
      var b := e.boxes[Topmost(e.boxes, p, measure).value];
      && r.dragging && r.cursor == Grabbing && r.selected == Some(b.id)
      && p.x - r.offset.x == b.x && p.y - r.offset.y == b.y
  {
  }
}
