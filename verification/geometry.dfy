/** The coordinate arithmetic the two editors share, written identically in
    components/MemeCanvas.tsx and script.js: sizing the working canvas to a
    loaded image, mapping a mouse position onto the canvas, and finding the
    text box under a point. */
module Geometry {
  import opened Wrappers
  import opened JsMath
  import opened Types

  const MaxWidth: nat := 800
  const MaxHeight: nat := 600

  /** A canvas pixel-buffer size. */
  datatype Size = Size(width: nat, height: nat)

  /** `Math.min(800 / w, 600 / h)`. A zero side divides to +Infinity in
      JavaScript and so never wins the minimum; the other side then decides. */
  function FitScale(w: nat, h: nat): (s: real)
    requires w > MaxWidth || h > MaxHeight
    ensures 0.0 < s < 1.0
    ensures s * w as real <= MaxWidth as real && s * h as real <= MaxHeight as real
    ensures s * w as real == MaxWidth as real || s * h as real == MaxHeight as real
  {
    if w == 0 then MaxHeight as real / h as real
    else if h == 0 then MaxWidth as real / w as real
    else
      var sw := MaxWidth as real / w as real;
      var sh := MaxHeight as real / h as real;
      assert sw * w as real == 800.0 && sh * h as real == 600.0;
      if sw <= sh then
        assert sw * h as real <= sh * h as real;
        sw
      else
        assert sh * w as real <= sw * w as real;
        sh
  }

  /** `setupCanvas`: the working canvas is the image size when it fits in
      800x600; otherwise both sides are multiplied by the fitting scale and
      truncated by the assignment to `canvas.width` / `canvas.height`. */
  function WorkingSize(img: Image): (r: Size)
    ensures img.width <= MaxWidth && img.height <= MaxHeight ==> r == Size(img.width, img.height)
    ensures r.width <= MaxWidth && r.height <= MaxHeight
    ensures r.width <= img.width && r.height <= img.height
    ensures (img.width > MaxWidth || img.height > MaxHeight) ==>
      r.width == MaxWidth || r.height == MaxHeight
  {
    if img.width <= MaxWidth && img.height <= MaxHeight then Size(img.width, img.height)
    else
      var s := FitScale(img.width, img.height);
      assert s * img.width as real <= img.width as real;
      assert s * img.height as real <= img.height as real;
      Size(Truncate(img.width as real * s), Truncate(img.height as real * s))
  }

  /** The part of the page the canvas element occupies
      (`getBoundingClientRect()`), in CSS pixels. */
  datatype ClientRect = ClientRect(left: real, top: real, width: real, height: real)

  /** A displayed canvas has a non-empty box on the page. */
  type DisplayRect = r: ClientRect | r.width > 0.0 && r.height > 0.0
    witness ClientRect(0.0, 0.0, 1.0, 1.0)

  /** The mouse position relative to the element, rescaled by
      `canvas.width / rect.width` (and likewise vertically). */
  function ToCanvas(client: Point, rect: DisplayRect, canvas: Size): (p: Point)
    ensures p.x * rect.width == (client.x - rect.left) * canvas.width as real
    ensures p.y * rect.height == (client.y - rect.top) * canvas.height as real
  {
    var scaleX := canvas.width as real / rect.width;
    var scaleY := canvas.height as real / rect.height;
    Point((client.x - rect.left) * scaleX, (client.y - rect.top) * scaleY)
  }

  /** A mouse position anywhere over the displayed element lands inside the canvas,
      and the element's corners land on the canvas corners. */
  lemma ToCanvasCoversCanvas(client: Point, rect: DisplayRect, canvas: Size)
    requires rect.left <= client.x <= rect.left + rect.width
    requires rect.top <= client.y <= rect.top + rect.height
    ensures var p := ToCanvas(client, rect, canvas);
      0.0 <= p.x <= canvas.width as real && 0.0 <= p.y <= canvas.height as real
    ensures client.x == rect.left + rect.width ==> ToCanvas(client, rect, canvas).x == canvas.width as real
    ensures client.y == rect.top + rect.height ==> ToCanvas(client, rect, canvas).y == canvas.height as real
  {
    var p := ToCanvas(client, rect, canvas);
    var cw, ch := canvas.width as real, canvas.height as real;
    assert p.x == (client.x - rect.left) * (cw / rect.width);
    assert p.y == (client.y - rect.top) * (ch / rect.height);
    ScaledWithin(client.x - rect.left, rect.width, cw);
    ScaledWithin(client.y - rect.top, rect.height, ch);
  }

  /** One axis of the mapping: an offset within the displayed extent `w`,
      times `c / w`, lies within the canvas extent `c`. */
  lemma ScaledWithin(d: real, w: real, c: real)
    requires 0.0 <= d <= w && w > 0.0 && c >= 0.0
    ensures 0.0 <= d * (c / w) <= c
    ensures d == w ==> d * (c / w) == c
  {
    var q := c / w;
    assert q >= 0.0;
    assert w * q == c;
    assert d * q <= w * q;
  }

  /** The width the hit test measures: the text in the box's font size,
      regular weight (the rendered text is bold). */
  function HitWidth(b: TextBox, measure: Measure): real {
    measure(b.text, b.fontSize, false)
  }

  /** The closed rectangle `[x - w/2, x + w/2] x [y - fontSize/2, y + fontSize/2]`
      contains `p`. */
  predicate Covers(b: TextBox, p: Point, measure: Measure) {
    var half := HitWidth(b, measure) / 2.0;
    && b.x - half <= p.x <= b.x + half
    && b.y - b.fontSize / 2.0 <= p.y <= b.y + b.fontSize / 2.0
  }

  /** The scan of `getTextBoxAtPoint` over positions `n - 1` down to `0`:
      the highest of them whose box covers `p`. */
  function TopmostBelow(boxes: seq<TextBox>, n: nat, p: Point, measure: Measure): (r: Option<nat>)
    requires n <= |boxes|
    ensures r.Some? ==> r.value < n && Covers(boxes[r.value], p, measure)
    ensures r.Some? ==> forall j :: r.value < j < n ==> !Covers(boxes[j], p, measure)
    ensures r.None? <==> forall j :: 0 <= j < n ==> !Covers(boxes[j], p, measure)
    decreases n
  {
    if n == 0 then None
    else if Covers(boxes[n - 1], p, measure) then Some(n - 1)
    else TopmostBelow(boxes, n - 1, p, measure)
  }

  /** Position of the box `getTextBoxAtPoint` returns: the last-added box
      covering `p`, if any. */
  function Topmost(boxes: seq<TextBox>, p: Point, measure: Measure): (r: Option<nat>)
    ensures r.Some? ==> r.value < |boxes| && Covers(boxes[r.value], p, measure)
    ensures r.Some? ==> forall j :: r.value < j < |boxes| ==> !Covers(boxes[j], p, measure)
    ensures r.None? <==> forall j :: 0 <= j < |boxes| ==> !Covers(boxes[j], p, measure)
  {
    TopmostBelow(boxes, |boxes|, p, measure)
  }

  /** `getTextBoxAtPoint(x, y)`: the box itself, or null. */
  function BoxAtPoint(boxes: seq<TextBox>, p: Point, measure: Measure): (r: Option<TextBox>)
    ensures r.Some? <==> exists j :: 0 <= j < |boxes| && Covers(boxes[j], p, measure)
    ensures r.Some? ==> r.value in boxes && Covers(r.value, p, measure)
  {
    match Topmost(boxes, p, measure)
    case None => None
    case Some(k) => Some(boxes[k])
  }

  /** Of two boxes that both cover the point, the later-added one is found:
      the earlier one never is. */
  lemma LaterBoxWins(boxes: seq<TextBox>, i: nat, j: nat, p: Point, measure: Measure)
    requires i < j < |boxes|
    requires Covers(boxes[i], p, measure) && Covers(boxes[j], p, measure)
    ensures Topmost(boxes, p, measure).Some?
    ensures Topmost(boxes, p, measure).value >= j
  {
  }
}
