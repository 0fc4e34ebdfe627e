/** The geometry of the React editor's draw routine (components/MemeCanvas.tsx):
    the live preview on the working canvas and the flattened export at the
    image's native size, which runs the same per-box arithmetic with every
    quantity multiplied by `image.width / canvas.width` (vertically
    `image.height / canvas.height`). Pixels themselves are not modelled. */
module Renderer {
  import opened Wrappers
  import opened JsMath
  import opened JsString
  import opened Types
  import opened Geometry
  import opened MemeCanvas
  import Boxes

  datatype Rect = Rect(left: real, top: real, width: real, height: real)

  /** What the draw routine lays out for one box: the centre the text is
      aligned on, the bold font size, the measured width, the translucent
      backdrop, the stroke and shadow widths, the fill colour, and the dashed
      selection outline (preview only). */
  datatype Glyphs = Glyphs(
    text: string,
    cx: real,
    cy: real,
    fontPx: real,
    textWidth: real,
    padding: int,
    backdrop: Rect,
    stroke: int,
    shadowBlur: int,
    fill: string,
    outline: Option<Rect>)

  /** The backdrop's margin around the text: `Math.max(6, Math.round(f * 0.3))`. */
  function BackdropPadding(f: real): (r: int)
    ensures r >= 6 && r >= Round(f * 0.3)
    ensures r == 6 || r == Round(f * 0.3)
  {
    if Round(f * 0.3) > 6 then Round(f * 0.3) else 6
  }

  /** The black stroke's width: `Math.max(2, Math.round(f / 6))`. */
  function StrokeWidth(f: real): (r: int)
    ensures r >= 2 && r >= Round(f / 6.0)
    ensures r == 2 || r == Round(f / 6.0)
  {
    if Round(f / 6.0) > 2 then Round(f / 6.0) else 2
  }

  /** The shadow's blur: `Math.max(2, Math.round(f / 12))`. */
  function ShadowBlur(f: real): (r: int)
    ensures r >= 2 && r >= Round(f / 12.0)
    ensures r == 2 || r == Round(f / 12.0)
  {
    if Round(f / 12.0) > 2 then Round(f / 12.0) else 2
  }

  /** Draws `b` with scale factors `sx`, `sy`. The backdrop is centred on the
      text and exceeds the measured text by the padding on every side; the
      padding, stroke and blur follow the drawn font size. The dashed
      outline lies 5 pixels outside the text on every side. */
  function DrawBox(b: TextBox, sx: real, sy: real, measure: Measure, outlined: bool): (g: Glyphs)
    ensures g.text == b.text && g.cx == b.x * sx && g.cy == b.y * sy && g.fontPx == b.fontSize * sx
    ensures g.textWidth == measure(b.text, g.fontPx, true)
    ensures g.padding == BackdropPadding(g.fontPx)
    ensures g.stroke == StrokeWidth(g.fontPx) && g.shadowBlur == ShadowBlur(g.fontPx)
    ensures g.backdrop.left + g.backdrop.width / 2.0 == g.cx
    ensures g.backdrop.top + g.backdrop.height / 2.0 == g.cy
    ensures g.backdrop.width == g.textWidth + 2.0 * g.padding as real
    ensures g.backdrop.height == g.fontPx + 2.0 * g.padding as real
    ensures g.fill == Or(b.color, DefaultColor) && g.fill != ""
    ensures g.outline.Some? <==> outlined
    ensures outlined ==>
      && g.outline.value.left == g.cx - g.textWidth / 2.0 - 5.0
      && g.outline.value.top == g.cy - g.fontPx / 2.0 - 5.0
      && g.outline.value.width == g.textWidth + 10.0
      && g.outline.value.height == g.fontPx + 10.0
  {
    var fontPx := b.fontSize * sx;
    var cx := b.x * sx;
    var cy := b.y * sy;
    var w := measure(b.text, fontPx, true);
    var pad := BackdropPadding(fontPx) as real;
    Glyphs(
      b.text, cx, cy, fontPx, w, BackdropPadding(fontPx),
      Rect(cx - w / 2.0 - pad, cy - fontPx / 2.0 - pad, w + pad * 2.0, fontPx + pad * 2.0),
      StrokeWidth(fontPx), ShadowBlur(fontPx), Or(b.color, DefaultColor),
      if outlined then Some(Rect(cx - w / 2.0 - 5.0, cy - fontPx / 2.0 - 5.0, w + 10.0, fontPx + 10.0))
      else None)
  }

  /** `render()`: nothing is drawn without an image; otherwise each box in
      list order at scale 1, the selected one outlined. */
  function Preview(e: Editor, measure: Measure): (r: Option<seq<Glyphs>>)
    ensures r.None? <==> e.image.None?
    ensures r.Some? ==> |r.value| == |e.boxes|
    ensures r.Some? ==> forall i :: 0 <= i < |e.boxes| ==>
      && r.value[i].cx == e.boxes[i].x && r.value[i].cy == e.boxes[i].y
      && r.value[i].fontPx == e.boxes[i].fontSize
      && (r.value[i].outline.Some? <==> e.selected == Some(e.boxes[i].id))
  {
    if e.image.None? then None
    else Some(seq(|e.boxes|, i requires 0 <= i < |e.boxes| =>
                DrawBox(e.boxes[i], 1.0, 1.0, measure, e.selected == Some(e.boxes[i].id))))
  }

  /** The two export buttons, which differ only in their alert text and
      in what happens to the PNG. */
  datatype Purpose = Download | Post

  function RefusalAlert(purpose: Purpose): string {
    match purpose
    case Download => "Please add an image and at least one text box before downloading!"
    case Post => "Please add an image and at least one text box before posting!"
  }

  /** The outcome of `downloadMeme` / `createMemeImageUrl`: refused with an
      alert; a working side of 0 pixels, where the scale divides by zero
      and is not finite; or the flattened layout at the image's size. */
  datatype Export =
    | Refused(alert: string)
    | Unbounded
    | Flattened(width: nat, height: nat, glyphs: seq<Glyphs>)

  function ScaleX(e: Editor): (r: real)
    requires e.image.Some? && e.canvas.width > 0
    ensures r >= 0.0 && r * e.canvas.width as real == e.image.value.width as real
  {
    e.image.value.width as real / e.canvas.width as real
  }

  function ScaleY(e: Editor): (r: real)
    requires e.image.Some? && e.canvas.height > 0
    ensures r >= 0.0 && r * e.canvas.height as real == e.image.value.height as real
  {
    e.image.value.height as real / e.canvas.height as real
  }

  /** Flattening the scene. */
  function ExportMeme(e: Editor, purpose: Purpose, measure: Measure): (r: Export)
    ensures r.Refused? <==> e.image.None? || |e.boxes| == 0
    ensures r.Refused? ==> r.alert == RefusalAlert(purpose)
    ensures r.Unbounded? <==> e.image.Some? && |e.boxes| > 0 && (e.canvas.width == 0 || e.canvas.height == 0)
    ensures r.Flattened? ==>
      && r.width == e.image.value.width && r.height == e.image.value.height
      && |r.glyphs| == |e.boxes|
      && forall i :: 0 <= i < |r.glyphs| ==> r.glyphs[i].outline.None?
  {
    if e.image.None? || |e.boxes| == 0 then Refused(RefusalAlert(purpose))
    else if e.canvas.width == 0 || e.canvas.height == 0 then Unbounded
    else
      var sx, sy := ScaleX(e), ScaleY(e);
      Flattened(e.image.value.width, e.image.value.height,
        seq(|e.boxes|, i requires 0 <= i < |e.boxes| => DrawBox(e.boxes[i], sx, sy, measure, false)))
  }

  /** `x` is `p` drawn with scale factors `sx`, `sy`: the same text and
      fill, the centre and font size multiplied, and no selection outline. */
  predicate ScaledGlyph(x: Glyphs, p: Glyphs, sx: real, sy: real) {
    && x.text == p.text && x.fill == p.fill
    && x.cx == p.cx * sx && x.cy == p.cy * sy && x.fontPx == p.fontPx * sx
    && x.outline.None?
  }

  /** The export is the preview scaled: every box keeps its text and colour,
      its centre and font size are the preview's times the scale factors,
      and no selection outline is drawn. */
  lemma ExportScalesPreview(e: Editor, purpose: Purpose, measure: Measure)
    requires ExportMeme(e, purpose, measure).Flattened?
    ensures var x, p := ExportMeme(e, purpose, measure), Preview(e, measure).value;
      |x.glyphs| == |p| == |e.boxes|
      && forall i :: 0 <= i < |e.boxes| ==> ScaledGlyph(x.glyphs[i], p[i], ScaleX(e), ScaleY(e))
  {
    forall i | 0 <= i < |e.boxes|
      ensures ScaledGlyph(ExportMeme(e, purpose, measure).glyphs[i], Preview(e, measure).value[i], ScaleX(e), ScaleY(e))
    {
      ExportGlyph(e, purpose, measure, i);
      PreviewGlyph(e, measure, i);
      DrawBoxScales(e.boxes[i], ScaleX(e), ScaleY(e), measure, e.selected == Some(e.boxes[i].id));
    }
  }

  lemma ExportGlyph(e: Editor, purpose: Purpose, measure: Measure, i: nat)
    requires ExportMeme(e, purpose, measure).Flattened? && i < |e.boxes|
    ensures ExportMeme(e, purpose, measure).glyphs[i] == DrawBox(e.boxes[i], ScaleX(e), ScaleY(e), measure, false)
  {
  }

  lemma PreviewGlyph(e: Editor, measure: Measure, i: nat)
    requires e.image.Some? && i < |e.boxes|
    ensures Preview(e, measure).value[i] == DrawBox(e.boxes[i], 1.0, 1.0, measure, e.selected == Some(e.boxes[i].id))
  {
  }

  /** One box drawn with scale factors is the unscaled drawing scaled. */
  lemma DrawBoxScales(b: TextBox, sx: real, sy: real, measure: Measure, outlined: bool)
    ensures ScaledGlyph(DrawBox(b, sx, sy, measure, false), DrawBox(b, 1.0, 1.0, measure, outlined), sx, sy)
  {
  }

  /** An image that needed no downscaling exports exactly as previewed,
      without the selection outline. */
  lemma UnscaledExportIsPreview(e: Editor, purpose: Purpose, measure: Measure)
    requires ExportMeme(e, purpose, measure).Flattened?
    requires e.canvas == WorkingSize(e.image.value)
    requires e.image.value.width <= MaxWidth && e.image.value.height <= MaxHeight
    ensures var x, p := ExportMeme(e, purpose, measure), Preview(e, measure).value;
      forall i :: 0 <= i < |e.boxes| ==> x.glyphs[i] == p[i].(outline := None)
  {
    var img := e.image.value;
    assert e.canvas == Size(img.width, img.height);
    assert e.canvas.width > 0 && e.canvas.height > 0;
    var w, h := img.width as real, img.height as real;
    SelfRatio(w);
    SelfRatio(h);
    assert ScaleX(e) == w / w;
    assert ScaleY(e) == h / h;
  }

  lemma SelfRatio(w: real)
    requires w > 0.0
    ensures w / w == 1.0
  {
  }

  /** The editor of the worked example once "Hello" is set at size 50. */
  const HelloEdited: Editor :=
    Editor(Some(Image(1600, 1200)), Size(800, 600),
           [TextBox("1", "Hello", 400.0, 300.0, 50.0, DefaultColor, NewBoxWidth, NewBoxHeight)],
           Some("1"), false, Point(0.0, 0.0), 50.0, DefaultColor, Move)

  /** The worked example: a 1600x1200 image gets an 800x600 working canvas;
      a new box sits at (400, 300); editing its text to "Hello" and moving
      the size control to 50 gives `HelloEdited`. */
  lemma HelloExample(measure: Measure)
    ensures
      var e0 := Dispatch(Initial, ImageLoadedEvent(Image(1600, 1200)), measure);
      var e1 := Dispatch(e0, AddTextBoxEvent("1"), measure);
      var e2 := Dispatch(e1, EditTextEvent("1", "Hello"), measure);
      var e3 := Dispatch(e2, FontSizeInputEvent(50.0), measure);
      && e0.canvas == Size(800, 600)
      && e1.boxes == [TextBox("1", NewBoxText, 400.0, 300.0, 40.0, DefaultColor, NewBoxWidth, NewBoxHeight)]
      && e3 == HelloEdited
  {
    HelloLoads(measure);
    HelloAdds(measure);
    HelloTypes(measure);
    HelloSizes(measure);
  }

  /** Step one of the example: the image loads into an 800x600 canvas. */
  lemma HelloLoads(measure: Measure)
    ensures Dispatch(Initial, ImageLoadedEvent(Image(1600, 1200)), measure)
         == HelloEdited.(boxes := [], selected := None, fontSize := 40.0)
  {
    assert FitScale(1600, 1200) == 0.5;
    var a0 := ImageLoaded(Initial, Image(1600, 1200));
    assert Handle(Initial, ImageLoadedEvent(Image(1600, 1200)), measure) == a0;
  }

  /** Step two: the new box sits at the centre with the controls' style. */
  lemma HelloAdds(measure: Measure)
    ensures
      var e0 := HelloEdited.(boxes := [], selected := None, fontSize := 40.0);
      Dispatch(e0, AddTextBoxEvent("1"), measure)
        == e0.(boxes := [TextBox("1", NewBoxText, 400.0, 300.0, 40.0, DefaultColor, NewBoxWidth, NewBoxHeight)],
               selected := Some("1"))
  {
    var e0 := HelloEdited.(boxes := [], selected := None, fontSize := 40.0);
    var b := TextBox("1", NewBoxText, 400.0, 300.0, 40.0, DefaultColor, NewBoxWidth, NewBoxHeight);
    var a1 := AddTextBox(e0, "1");
    assert Handle(e0, AddTextBoxEvent("1"), measure) == a1;
    assert a1.boxes == [b];
    assert Boxes.UpdateAll([b], "1", Boxes.SetFontSize(40.0)) == [b];
    assert Boxes.UpdateAll([b], "1", Boxes.SetColor(DefaultColor)) == [b];
  }

  /** Step three: the list input sets the text; no effect follows. */
  lemma HelloTypes(measure: Measure)
    ensures
      var e1 := HelloEdited.(boxes := [TextBox("1", NewBoxText, 400.0, 300.0, 40.0, DefaultColor, NewBoxWidth, NewBoxHeight)],
                             fontSize := 40.0);
      Dispatch(e1, EditTextEvent("1", "Hello"), measure)
        == HelloEdited.(boxes := [TextBox("1", "Hello", 400.0, 300.0, 40.0, DefaultColor, NewBoxWidth, NewBoxHeight)],
                        fontSize := 40.0)
  {
    var e1 := HelloEdited.(boxes := [TextBox("1", NewBoxText, 400.0, 300.0, 40.0, DefaultColor, NewBoxWidth, NewBoxHeight)],
                           fontSize := 40.0);
    var a2 := EditText(e1, "1", "Hello");
    assert Handle(e1, EditTextEvent("1", "Hello"), measure) == a2;
    assert !FontEffectRuns(e1, a2) && !ColorEffectRuns(e1, a2);
  }

  /** Step four: the size control moves to 50 and the effect restyles the box. */
  lemma HelloSizes(measure: Measure)
    ensures
      var e2 := HelloEdited.(boxes := [TextBox("1", "Hello", 400.0, 300.0, 40.0, DefaultColor, NewBoxWidth, NewBoxHeight)],
                             fontSize := 40.0);
      Dispatch(e2, FontSizeInputEvent(50.0), measure) == HelloEdited
  {
    var e2 := HelloEdited.(boxes := [TextBox("1", "Hello", 400.0, 300.0, 40.0, DefaultColor, NewBoxWidth, NewBoxHeight)],
                           fontSize := 40.0);
    var a3 := FontSizeInput(e2, 50.0);
    assert Handle(e2, FontSizeInputEvent(50.0), measure) == a3;
    assert FontEffectRuns(e2, a3) && !ColorEffectRuns(e2, a3);
    assert Boxes.UpdateAll(e2.boxes, "1", Boxes.SetFontSize(50.0)) == HelloEdited.boxes;
  }

  /** Its export is 1600x1200 with "Hello" centred at (800, 600) in a
      100-pixel font. */
  lemma HelloExport(measure: Measure)
    ensures var x := ExportMeme(HelloEdited, Download, measure);
      && x.Flattened? && x.width == 1600 && x.height == 1200 && |x.glyphs| == 1
      && x.glyphs[0].text == "Hello"
      && x.glyphs[0].cx == 800.0 && x.glyphs[0].cy == 600.0
      && x.glyphs[0].fontPx == 100.0
  {
    assert ScaleX(HelloEdited) == 2.0 && ScaleY(HelloEdited) == 2.0;
    ExportGlyph(HelloEdited, Download, measure, 0);
  }
}
