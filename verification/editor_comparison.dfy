/** The two editors side by side: where the legacy generator of script.js
    and the React editor of MemeCanvas.tsx agree, and where they do not. */
module EditorComparison {
  import opened Wrappers
  import opened JsMath
  import opened Types
  import opened Boxes
  import opened Geometry
  import MemeCanvas
  import Renderer
  import MemeGenerator

  /** Near the left edge the clamps part ways: the legacy one lets the
      centre reach the edge, so the padded text box pokes off the canvas,
      while the React one keeps the padded box wholly to its right. */
  lemma ClampsDisagreeNearLeftEdge(b: TextBox, target: Point, canvas: Size, measure: Measure)
    requires target.x < MemeCanvas.DragPadding(b.fontSize)
    ensures var w, pad := MemeCanvas.BoldWidth(b, measure), MemeCanvas.DragPadding(b.fontSize);
      && MemeGenerator.ClampCentre(target, canvas).x - w / 2.0 - pad < 0.0
      && MemeCanvas.DragClamp(b, target, canvas, measure).x - w / 2.0 - pad >= 0.0
  {
    var w, pad := MemeCanvas.BoldWidth(b, measure), MemeCanvas.DragPadding(b.fontSize);
    var x := MemeGenerator.ClampCentre(target, canvas).x;
    assert x == Max(0.0, Min(target.x, canvas.width as real));
    assert x < pad;
  }

  /** Where the React clamp leaves a target alone, so does the legacy one:
      the two editors move a box identically away from the edges. */
  lemma ClampsAgreeAwayFromEdges(b: TextBox, target: Point, canvas: Size, measure: Measure)
    requires var w, pad := MemeCanvas.BoldWidth(b, measure), MemeCanvas.DragPadding(b.fontSize);
      && w / 2.0 + pad <= target.x <= canvas.width as real - w / 2.0 - pad
      && b.fontSize / 2.0 + pad <= target.y <= canvas.height as real - b.fontSize / 2.0 - pad
    requires b.fontSize >= 0.0
    ensures MemeGenerator.ClampCentre(target, canvas) == target
    ensures MemeCanvas.DragClamp(b, target, canvas, measure) == target
  {
  }

  /** The same scene in both editors. */
  predicate SameScene(e: MemeCanvas.Editor, g: MemeGenerator.Generator) {
    e.image == g.image && e.canvas == g.canvas && e.boxes == g.boxes
  }

  /** Both exports refuse, fail to scale and flatten in the same cases, and
      place every box's text at the same centre in the same font size and
      fill. What is drawn around the text differs: the legacy export strokes
      6 pixels times the scale and nothing else, while the React one strokes
      a width derived from the font size and also paints a translucent padded
      backdrop and a shadow, which the legacy export has no counterpart for. */
  lemma ExportsAgree(e: MemeCanvas.Editor, g: MemeGenerator.Generator, measure: Measure)
    requires SameScene(e, g)
    ensures var x, y := Renderer.ExportMeme(e, Renderer.Download, measure), MemeGenerator.DownloadMeme(g);
      && (x.Refused? <==> y.Refused?) && (x.Refused? ==> x.alert == y.alert)
      && (x.Unbounded? <==> y.Unbounded?)
      && (x.Flattened? <==> y.Flattened?)
    ensures var x, y := Renderer.ExportMeme(e, Renderer.Download, measure), MemeGenerator.DownloadMeme(g);
      x.Flattened? ==>
        && x.width == y.width && x.height == y.height && |x.glyphs| == |y.strokes|
        && forall i :: 0 <= i < |x.glyphs| ==>
             && x.glyphs[i].text == y.strokes[i].text
             && x.glyphs[i].cx == y.strokes[i].cx && x.glyphs[i].cy == y.strokes[i].cy
             && x.glyphs[i].fontPx == y.strokes[i].fontPx && x.glyphs[i].fill == y.strokes[i].fill
             && y.strokes[i].lineWidth == 6.0 * Renderer.ScaleX(e)
             && x.glyphs[i].stroke == Renderer.StrokeWidth(x.glyphs[i].fontPx)
  {
  }

  /** With unique ids, editing a box's text in either editor gives the same
      boxes: finding the first match and mapping over all matches coincide. */
  lemma TextEditsAgree(e: MemeCanvas.Editor, g: MemeGenerator.Generator, id: string, text: string, measure: Measure)
    requires SameScene(e, g) && UniqueIds(e.boxes)
    ensures MemeCanvas.Dispatch(e, MemeCanvas.EditTextEvent(id, text), measure).boxes
         == MemeGenerator.Dispatch(g, MemeGenerator.EditTextEvent(id, text), measure).boxes
  {
    UpdateFirstMatchesUpdateAll(e.boxes, id, SetText(text));
    EditTextRunsNoEffect(e, id, text, measure);
    LegacyEditText(g, id, text, measure);
  }

  lemma LegacyEditText(g: MemeGenerator.Generator, id: string, text: string, measure: Measure)
    ensures MemeGenerator.Dispatch(g, MemeGenerator.EditTextEvent(id, text), measure).boxes
         == UpdateFirst(g.boxes, id, SetText(text))
  {
    assert MemeGenerator.Dispatch(g, MemeGenerator.EditTextEvent(id, text), measure)
        == MemeGenerator.EditText(g, id, text);
  }

  /** With duplicate ids the editors diverge: the legacy generator edits only
      the first of two boxes sharing an id, the React editor both. */
  lemma DuplicateIdsDiverge(measure: Measure)
    ensures var b := TextBox("1", "a", 0.0, 0.0, 40.0, "#ffffff", 200.0, 40.0);
      var g := MemeGenerator.Start(Size(800, 600), 40.0, "#ffffff").(boxes := [b, b]);
      var e := MemeCanvas.Initial.(boxes := [b, b]);
      && MemeGenerator.Dispatch(g, MemeGenerator.EditTextEvent("1", "z"), measure).boxes == [b.(text := "z"), b]
      && MemeCanvas.Dispatch(e, MemeCanvas.EditTextEvent("1", "z"), measure).boxes == [b.(text := "z"), b.(text := "z")]
  {
    var b := TextBox("1", "a", 0.0, 0.0, 40.0, "#ffffff", 200.0, 40.0);
    var g := MemeGenerator.Start(Size(800, 600), 40.0, "#ffffff").(boxes := [b, b]);
    var e := MemeCanvas.Initial.(boxes := [b, b]);
    assert UpdateFirst([b, b], "1", SetText("z")) == [b.(text := "z"), b];
    assert UpdateAll([b, b], "1", SetText("z")) == [b.(text := "z"), b.(text := "z")];
    LegacyEditText(g, "1", "z", measure);
    EditTextRunsNoEffect(e, "1", "z", measure);
  }

  /** A text edit changes neither the selection nor the controls, so no
      effect follows it in the React editor. */
  lemma EditTextRunsNoEffect(e: MemeCanvas.Editor, id: string, text: string, measure: Measure)
    ensures MemeCanvas.Dispatch(e, MemeCanvas.EditTextEvent(id, text), measure).boxes
         == UpdateAll(e.boxes, id, SetText(text))
  {
    var a := MemeCanvas.EditText(e, id, text);
    assert MemeCanvas.Handle(e, MemeCanvas.EditTextEvent(id, text), measure) == a;
    assert !MemeCanvas.FontEffectRuns(e, a) && !MemeCanvas.ColorEffectRuns(e, a);
    assert MemeCanvas.Commit(e, a) == a;
  }
}
