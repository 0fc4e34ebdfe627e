/** The earlier vanilla-JavaScript editor, the `MemeGenerator` class of
    script.js. Same scene as the React editor, with three differences the
    model makes visible: field edits touch only the first box with an id,
    a drag clamps the centre alone to the canvas, and controls are written
    into the selection by the input handlers themselves. */
module MemeGenerator {
  import opened Wrappers
  import opened JsMath
  import opened JsString
  import opened Types
  import opened Boxes
  import opened Geometry

  const NoImageAlert: string := "Please upload an image first!"
  const RefusalAlert: string := "Please add an image and at least one text box before downloading!"

  /** The generator's fields plus the two DOM controls it reads and writes:
      the font-size slider and the colour picker. */
  datatype Generator = Generator(
    image: Option<Image>,
    canvas: Size,
    boxes: seq<TextBox>,
    selected: Option<string>,
    dragging: bool,
    offset: Point,
    slider: real,
    picker: string,
    cursor: Cursor)

  /** The constructor, with the page's canvas size and control values. The
      cursor starts as "move", the style the release handler restores. */
  function Start(canvas: Size, slider: real, picker: string): (g: Generator)
    ensures g.boxes == [] && g.selected.None? && !g.dragging && g.image.None?
    ensures g.canvas == canvas && g.slider == slider && g.picker == picker
    ensures g.offset == Point(0.0, 0.0) && g.cursor == Move
  {
    Generator(None, canvas, [], None, false, Point(0.0, 0.0), slider, picker, Move)
  }

  /** `img.onload` then `setupCanvas()`: the same fitting rule as the React
      editor; text and selection are untouched. */
  function LoadImage(g: Generator, img: Image): (r: Generator)
    ensures r.image == Some(img) && r.canvas == WorkingSize(img)
    ensures r.boxes == g.boxes && r.selected == g.selected
    ensures r == g.(image := r.image, canvas := r.canvas)
  {
    g.(image := Some(img), canvas := WorkingSize(img))
  }

  /** `addTextBox()` with `id` as the fresh identifier: pushes one box at the
      canvas centre with the slider's size and the picker's colour, and
      selects it; without an image nothing changes. */
  function AddTextBox(g: Generator, id: string): (r: Generator)
    ensures g.image.None? ==> r == g
    ensures g.image.Some? ==>
      && |r.boxes| == |g.boxes| + 1 && r.boxes[..|g.boxes|] == g.boxes
      && r.selected == Some(id)
      && r == g.(boxes := r.boxes, selected := r.selected)
    ensures g.image.Some? ==>
      var b := r.boxes[|g.boxes|];
      && b.id == id && b.text == NewBoxText
      && 2.0 * b.x == g.canvas.width as real && 2.0 * b.y == g.canvas.height as real
      && b.fontSize == g.slider && b.color == g.picker
  {
    if g.image.None? then g
    else
      var b := TextBox(id, NewBoxText, g.canvas.width as real / 2.0, g.canvas.height as real / 2.0,
                       g.slider, g.picker, NewBoxWidth, NewBoxHeight);
      g.(boxes := g.boxes + [b], selected := Some(id))
  }

  /** `deleteTextBox(id)`: filters the id out; when it was selected the
      selection clears and the slider and picker reset to 40 and white. */
  function DeleteTextBox(g: Generator, id: string): (r: Generator)
    ensures r.boxes == RemoveId(g.boxes, id)
    ensures g.selected == Some(id) ==>
      r.selected.None? && r.slider == DefaultFontSize && r.picker == DefaultColor
    ensures g.selected != Some(id) ==>
      r.selected == g.selected && r.slider == g.slider && r.picker == g.picker
    ensures r == g.(boxes := r.boxes, selected := r.selected, slider := r.slider, picker := r.picker)
  {
    var r := g.(boxes := RemoveId(g.boxes, id));
    if g.selected == Some(id) then r.(selected := None, slider := DefaultFontSize, picker := DefaultColor)
    else r
  }

  /** `selectTextBox(id)`: selection set; controls loaded from the first
      matching box, when there is one. */
  function SelectTextBox(g: Generator, id: string): (r: Generator)
    ensures r.selected == Some(id) && r.boxes == g.boxes
    ensures FindById(g.boxes, id).Some? ==>
      r.slider == FindById(g.boxes, id).value.fontSize
      && r.picker == Or(FindById(g.boxes, id).value.color, DefaultColor)
    ensures FindById(g.boxes, id).None? ==> r.slider == g.slider && r.picker == g.picker
    ensures r == g.(selected := r.selected, slider := r.slider, picker := r.picker)
  {
    var r := g.(selected := Some(id));
    match FindById(g.boxes, id)
    case None => r
    case Some(b) => r.(slider := b.fontSize, picker := Or(b.color, DefaultColor))
  }

  /** The slider's input listener: a selection (even "") receives the value
      through `updateTextBoxFontSize`, which edits the first matching box. */
  function SliderInput(g: Generator, size: real): (r: Generator)
    ensures r.slider == size
    ensures g.selected.None? ==> r.boxes == g.boxes
    ensures g.selected.Some? && FirstIndexOf(g.boxes, g.selected.value).None? ==> r.boxes == g.boxes
    ensures g.selected.Some? && FirstIndexOf(g.boxes, g.selected.value).Some? ==>
      var k := FirstIndexOf(g.boxes, g.selected.value).value;
      r.boxes == g.boxes[k := g.boxes[k].(fontSize := size)]
    ensures r == g.(slider := r.slider, boxes := r.boxes)
  {
    var r := g.(slider := size);
    if g.selected.Some? then r.(boxes := UpdateFirst(g.boxes, g.selected.value, SetFontSize(size))) else r
  }

  /** The colour picker's input listener, likewise. */
  function PickerInput(g: Generator, color: string): (r: Generator)
    ensures r.picker == color
    ensures g.selected.None? ==> r.boxes == g.boxes
    ensures g.selected.Some? && FirstIndexOf(g.boxes, g.selected.value).None? ==> r.boxes == g.boxes
    ensures g.selected.Some? && FirstIndexOf(g.boxes, g.selected.value).Some? ==>
      var k := FirstIndexOf(g.boxes, g.selected.value).value;
      r.boxes == g.boxes[k := g.boxes[k].(color := color)]
    ensures r == g.(picker := r.picker, boxes := r.boxes)
  {
    var r := g.(picker := color);
    if g.selected.Some? then r.(boxes := UpdateFirst(g.boxes, g.selected.value, SetColor(color))) else r
  }

  /** `updateTextBoxText(id, text)` from a list input. */
  function EditText(g: Generator, id: string, text: string): (r: Generator)
    ensures r == g.(boxes := r.boxes)
    ensures FirstIndexOf(g.boxes, id).None? ==> r.boxes == g.boxes
    ensures FirstIndexOf(g.boxes, id).Some? ==>
      var k := FirstIndexOf(g.boxes, id).value;
      r.boxes == g.boxes[k := g.boxes[k].(text := text)]
  {
    g.(boxes := UpdateFirst(g.boxes, id, SetText(text)))
  }

  /** `handleMouseDown`: a hit starts a drag, selects the hit box, records
      the offset, and loads the hit box's own style into the controls. */
  function MouseDown(g: Generator, client: Point, rect: DisplayRect, measure: Measure): (r: Generator)
    ensures g.image.None? ==> r == g
    ensures g.image.Some? && BoxAtPoint(g.boxes, ToCanvas(client, rect, g.canvas), measure).None? ==> r == g
    ensures g.image.Some? && BoxAtPoint(g.boxes, ToCanvas(client, rect, g.canvas), measure).Some? ==>
      var p := ToCanvas(client, rect, g.canvas);
      var b := BoxAtPoint(g.boxes, p, measure).value;
      && r.dragging && r.cursor == Grabbing && r.selected == Some(b.id)
      && r.offset == Point(p.x - b.x, p.y - b.y)
      && r.slider == b.fontSize && r.picker == Or(b.color, DefaultColor)
      && r.boxes == g.boxes
      && r == g.(dragging := r.dragging, selected := r.selected, offset := r.offset,
                 cursor := r.cursor, slider := r.slider, picker := r.picker)
  {
    if g.image.None? then g
    else
      var p := ToCanvas(client, rect, g.canvas);
      match BoxAtPoint(g.boxes, p, measure)
      case None => g
      case Some(b) =>
        g.(dragging := true, selected := Some(b.id), offset := Point(p.x - b.x, p.y - b.y),
           cursor := Grabbing, slider := b.fontSize, picker := Or(b.color, DefaultColor))
  }

  /** The drag clamp of script.js: the centre alone is kept in
      `[0, width] x [0, height]`; the text's extent is not considered. */
  function ClampCentre(target: Point, canvas: Size): (r: Point)
    ensures 0.0 <= r.x <= canvas.width as real && 0.0 <= r.y <= canvas.height as real
    ensures 0.0 <= target.x <= canvas.width as real ==> r.x == target.x
    ensures 0.0 <= target.y <= canvas.height as real ==> r.y == target.y
  {
    Point(Clamp(target.x, 0.0, canvas.width as real), Clamp(target.y, 0.0, canvas.height as real))
  }

  /** `handleMouseMove`: during a drag the first box with the selected id
      moves to the clamped `p - offset`; otherwise the cursor shows whether a
      box is under the mouse. */
  function MouseMove(g: Generator, client: Point, rect: DisplayRect, measure: Measure): (r: Generator)
    ensures g.image.None? ==> r == g
    ensures g.image.Some? && !(g.dragging && g.selected.Some?) ==>
      var p := ToCanvas(client, rect, g.canvas);
      r == g.(cursor := if BoxAtPoint(g.boxes, p, measure).Some? then Grab else Default)
    ensures g.image.Some? && g.dragging && g.selected.Some? ==>
      var p := ToCanvas(client, rect, g.canvas);
      var c := ClampCentre(Point(p.x - g.offset.x, p.y - g.offset.y), g.canvas);
      && r == g.(boxes := r.boxes)
      && (FirstIndexOf(g.boxes, g.selected.value).None? ==> r.boxes == g.boxes)
      && (FirstIndexOf(g.boxes, g.selected.value).Some? ==>
            var k := FirstIndexOf(g.boxes, g.selected.value).value;
            r.boxes == g.boxes[k := g.boxes[k].(x := c.x, y := c.y)])
  {
    if g.image.None? then g
    else
      var p := ToCanvas(client, rect, g.canvas);
      if g.dragging && g.selected.Some? then
        var c := ClampCentre(Point(p.x - g.offset.x, p.y - g.offset.y), g.canvas);
        g.(boxes := UpdateFirst(g.boxes, g.selected.value, Boxes.MoveTo(c.x, c.y)))
      else
        g.(cursor := if BoxAtPoint(g.boxes, p, measure).Some? then Grab else Default)
  }

  /** `handleMouseUp`, bound to mouse-up, mouse-leave and touch-end. */
  function MouseUp(g: Generator): (r: Generator)
    ensures !r.dragging
    ensures g.dragging ==> r == g.(dragging := false, cursor := Move)
    ensures !g.dragging ==> r == g
  {
    if g.dragging then g.(dragging := false, cursor := Move) else g
  }

  /** What `drawText` and `downloadMeme` draw for one box: text at the
      scaled centre in a scaled bold font, with a stroke 6 pixels wide before
      scaling, and (on screen, for the selection) a dashed outline. */
  datatype Stroke = Stroke(text: string, cx: real, cy: real, fontPx: real, lineWidth: real, fill: string, outlined: bool)

  function DrawScaled(b: TextBox, sx: real, sy: real, outlined: bool): (s: Stroke)
    ensures s.text == b.text && s.cx == b.x * sx && s.cy == b.y * sy && s.fontPx == b.fontSize * sx
    ensures s.lineWidth == 6.0 * sx
    ensures s.fill == Or(b.color, DefaultColor) && s.fill != ""
    ensures s.outlined == outlined
  {
    Stroke(b.text, b.x * sx, b.y * sy, b.fontSize * sx, 6.0 * sx, Or(b.color, DefaultColor), outlined)
  }

  /** `render()`: nothing without an image; otherwise every box in list
      order at scale 1, the selected one outlined. */
  function Render(g: Generator): (r: Option<seq<Stroke>>)
    ensures r.None? <==> g.image.None?
    ensures r.Some? ==> |r.value| == |g.boxes| && forall i :: 0 <= i < |g.boxes| ==>
      && r.value[i].cx == g.boxes[i].x && r.value[i].cy == g.boxes[i].y
      && r.value[i].fontPx == g.boxes[i].fontSize && r.value[i].lineWidth == 6.0
      && (r.value[i].outlined <==> g.selected == Some(g.boxes[i].id))
  {
    if g.image.None? then None
    else Some(seq(|g.boxes|, i requires 0 <= i < |g.boxes| =>
                DrawScaled(g.boxes[i], 1.0, 1.0, g.selected == Some(g.boxes[i].id))))
  }

  datatype Download =
    | Refused(alert: string)
    | Unbounded
    | Flattened(width: nat, height: nat, strokes: seq<Stroke>)

  /** `downloadMeme()`: refused without an image or without boxes;
      otherwise every box drawn at the image's native size. */
  function DownloadMeme(g: Generator): (r: Download)
    ensures r.Refused? <==> g.image.None? || |g.boxes| == 0
    ensures r.Refused? ==> r.alert == RefusalAlert
    ensures r.Unbounded? <==> g.image.Some? && |g.boxes| > 0 && (g.canvas.width == 0 || g.canvas.height == 0)
    ensures r.Flattened? ==>
      var sx := g.image.value.width as real / g.canvas.width as real;
      var sy := g.image.value.height as real / g.canvas.height as real;
      && r.width == g.image.value.width && r.height == g.image.value.height
      && |r.strokes| == |g.boxes|
      && forall i :: 0 <= i < |g.boxes| ==>
           r.strokes[i].cx == g.boxes[i].x * sx && r.strokes[i].cy == g.boxes[i].y * sy
           && r.strokes[i].fontPx == g.boxes[i].fontSize * sx && r.strokes[i].lineWidth == 6.0 * sx
           && !r.strokes[i].outlined
  {
    if g.image.None? || |g.boxes| == 0 then Refused(RefusalAlert)
    else if g.canvas.width == 0 || g.canvas.height == 0 then Unbounded
    else
      var sx := g.image.value.width as real / g.canvas.width as real;
      var sy := g.image.value.height as real / g.canvas.height as real;
      Flattened(g.image.value.width, g.image.value.height,
        seq(|g.boxes|, i requires 0 <= i < |g.boxes| => DrawScaled(g.boxes[i], sx, sy, false)))
  }

  /** The download is the on-screen picture scaled: same text and fill, the
      centre, font size and stroke multiplied by the scale factors, and no
      selection outline. */
  lemma DownloadScalesRender(g: Generator)
    requires DownloadMeme(g).Flattened?
    ensures var x, p := DownloadMeme(g), Render(g).value;
      var sx := g.image.value.width as real / g.canvas.width as real;
      var sy := g.image.value.height as real / g.canvas.height as real;
      forall i :: 0 <= i < |g.boxes| ==>
        && x.strokes[i].text == p[i].text && x.strokes[i].fill == p[i].fill
        && x.strokes[i].cx == p[i].cx * sx && x.strokes[i].cy == p[i].cy * sy
        && x.strokes[i].fontPx == p[i].fontPx * sx && x.strokes[i].lineWidth == p[i].lineWidth * sx
        && !x.strokes[i].outlined
  {
  }

  /** The generator's events, as its listeners receive them. */
  datatype Event =
    | ImageLoadedEvent(img: Image)
    | AddTextBoxEvent(id: string)
    | DeleteTextBoxEvent(id: string)
    | SelectTextBoxEvent(id: string)
    | EditTextEvent(id: string, text: string)
    | SliderInputEvent(size: real)
    | PickerInputEvent(color: string)
    | MouseDownEvent(client: Point, rect: DisplayRect)
    | MouseMoveEvent(client: Point, rect: DisplayRect)
    | MouseUpEvent

  function Dispatch(g: Generator, ev: Event, measure: Measure): Generator {
    match ev
    case ImageLoadedEvent(img) => LoadImage(g, img)
    case AddTextBoxEvent(id) => AddTextBox(g, id)
    case DeleteTextBoxEvent(id) => DeleteTextBox(g, id)
    case SelectTextBoxEvent(id) => SelectTextBox(g, id)
    case EditTextEvent(id, text) => EditText(g, id, text)
    case SliderInputEvent(size) => SliderInput(g, size)
    case PickerInputEvent(color) => PickerInput(g, color)
    case MouseDownEvent(client, rect) => MouseDown(g, client, rect, measure)
    case MouseMoveEvent(client, rect) => MouseMove(g, client, rect, measure)
    case MouseUpEvent => MouseUp(g)
  }

  /** Replacing one box by a box with the same id keeps the ids unique. */
  lemma SameIdUpdateUnique(s: seq<TextBox>, k: int, b: TextBox)
    requires UniqueIds(s) && 0 <= k < |s| && b.id == s[k].id
    ensures UniqueIds(s[k := b])
  {
  }

  /** A drag moves the first selected box and keeps the ids unique. */
  lemma MouseMoveKeepsUnique(g: Generator, client: Point, rect: DisplayRect, measure: Measure)
    requires UniqueIds(g.boxes)
    ensures UniqueIds(MouseMove(g, client, rect, measure).boxes)
  {
    if g.image.Some? && g.dragging && g.selected.Some? && FirstIndexOf(g.boxes, g.selected.value).Some? {
      var k := FirstIndexOf(g.boxes, g.selected.value).value;
      var p := ToCanvas(client, rect, g.canvas);
      var c := ClampCentre(Point(p.x - g.offset.x, p.y - g.offset.y), g.canvas);
      SameIdUpdateUnique(g.boxes, k, g.boxes[k].(x := c.x, y := c.y));
    }
  }

  /** The slider restyles the first selected box and keeps the ids unique. */
  lemma SliderInputKeepsUnique(g: Generator, size: real)
    requires UniqueIds(g.boxes)
    ensures UniqueIds(SliderInput(g, size).boxes)
  {
    if g.selected.Some? && FirstIndexOf(g.boxes, g.selected.value).Some? {
      var k := FirstIndexOf(g.boxes, g.selected.value).value;
      SameIdUpdateUnique(g.boxes, k, g.boxes[k].(fontSize := size));
    }
  }

  /** The picker recolours the first selected box and keeps the ids unique. */
  lemma PickerInputKeepsUnique(g: Generator, color: string)
    requires UniqueIds(g.boxes)
    ensures UniqueIds(PickerInput(g, color).boxes)
  {
    if g.selected.Some? && FirstIndexOf(g.boxes, g.selected.value).Some? {
      var k := FirstIndexOf(g.boxes, g.selected.value).value;
      SameIdUpdateUnique(g.boxes, k, g.boxes[k].(color := color));
    }
  }

  /** A list edit rewrites the first box with the id and keeps the ids unique. */
  lemma EditTextKeepsUnique(g: Generator, id: string, text: string)
    requires UniqueIds(g.boxes)
    ensures UniqueIds(EditText(g, id, text).boxes)
  {
    if FirstIndexOf(g.boxes, id).Some? {
      var k := FirstIndexOf(g.boxes, id).value;
      SameIdUpdateUnique(g.boxes, k, g.boxes[k].(text := text));
    }
  }

  /** Adding a box under a fresh id keeps the ids unique. */
  lemma AddKeepsUnique(g: Generator, id: string)
    requires UniqueIds(g.boxes) && !HasId(g.boxes, id)
    ensures UniqueIds(AddTextBox(g, id).boxes)
  {
    var r := AddTextBox(g, id);
    if g.image.Some? {
      forall i, j | 0 <= i < j < |r.boxes| ensures r.boxes[i].id != r.boxes[j].id {
        assert r.boxes[i] == r.boxes[..|g.boxes|][i];
        if j < |g.boxes| { assert r.boxes[j] == r.boxes[..|g.boxes|][j]; }
      }
    }
  }

  /** Ids stay unique under every event, given a fresh id for each added box. */
  lemma {:induction false} DispatchKeepsIdsUnique(g: Generator, ev: Event, measure: Measure)
    requires UniqueIds(g.boxes)
    requires ev.AddTextBoxEvent? ==> !HasId(g.boxes, ev.id)
    ensures UniqueIds(Dispatch(g, ev, measure).boxes)
  {
    match ev
    case AddTextBoxEvent(id) => AddKeepsUnique(g, id);
    case EditTextEvent(id, text) => EditTextKeepsUnique(g, id, text);
    case SliderInputEvent(size) => SliderInputKeepsUnique(g, size);
    case PickerInputEvent(color) => PickerInputKeepsUnique(g, color);
    case MouseMoveEvent(client, rect) => MouseMoveKeepsUnique(g, client, rect, measure);
    case _ =>
  }
}
