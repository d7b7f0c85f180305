/**
 * The dashed outline shown on the node while a line, rectangle or ellipse is
 * being dragged. The outline is drawn on the node's own panel, so the stroke's
 * local points are moved back into panel space by the preview's anchor; the
 * drawing is clipped to the preview rectangle and bracketed by save and
 * restore, so the panel context is left as it was.
 */
module DrawingPreview {
  import opened Common
  import opened SketchNode
  import opened NodeUtils
  import opened DrawingTools

  const GhostStrokeStyle: string := "rgba(255,255,255,0.5)"
  const GhostDash: seq<int> := [5, 5]
  const DefaultGhostWidth: real := 2.0

  /** What drawGhostShape draws: a clip rectangle and, for a shape tool, one dashed outline. */
  datatype Ghost = Ghost(clip: Path, strokeStyle: string, lineWidth: real, dash: seq<int>, outline: Option<Path>)

  /** The panel position of the preview's top-left corner, with 512 for a missing canvas. */
  function Anchor(sizeW: real, sizeH: real, hasCanvas: bool, canvasW: int, canvasH: int): Point {
    PreviewOrigin(sizeW, sizeH, CanvasWidthOr512(hasCanvas, canvasW), CanvasHeightOr512(hasCanvas, canvasH))
  }

  /** The outline of the shape tool `tool` for a drag from `start` to `end`, in panel space. */
  function GhostOutline(tool: Value, start: Point, end: Point, anchor: Point): (p: Option<Path>)
    ensures p.Some? <==> IsShapeTool(tool)
    ensures tool == Str("line") ==> p.value.Segment?
    ensures tool == Str("rectangle") ==> p.value.Box?
    ensures tool == Str("ellipse") ==> p.value.Oval?
  {
    if tool == Str("line") then Some(Segment(start.Plus(anchor), end.Plus(anchor)))
    else if tool == Str("rectangle") then
      Some(Box(start.x + anchor.x, start.y + anchor.y, end.x - start.x, end.y - start.y))
    else if tool == Str("ellipse") then
      Some(Oval((start.x + end.x) / 2.0 + anchor.x, (start.y + end.y) / 2.0 + anchor.y,
                Abs(end.x - start.x) / 2.0, Abs(end.y - start.y) / 2.0))
    else None
  }

  /**
   * drawGhostShape: nothing without both endpoints; otherwise the preview
   * rectangle as the clip, a half-transparent white dashed stroke of the
   * stroke width (2 when it is zero) and the tool's outline.
   */
  function GhostShape(sizeW: real, sizeH: real, hasCanvas: bool, canvasW: int, canvasH: int,
                      lineStart: Option<Point>, lastPos: Option<Point>, strokeWidth: real, tool: Value): (g: Option<Ghost>)
    ensures g.None? <==> lineStart.None? || lastPos.None?
    ensures g.Some? ==>
      var a := Anchor(sizeW, sizeH, hasCanvas, canvasW, canvasH);
      && g.value.clip == Box(a.x, a.y, CanvasWidthOr512(hasCanvas, canvasW) as real, CanvasHeightOr512(hasCanvas, canvasH) as real)
      && g.value.strokeStyle == GhostStrokeStyle && g.value.dash == GhostDash
      && g.value.lineWidth == RealOr(strokeWidth, DefaultGhostWidth)
      && g.value.outline == GhostOutline(tool, lineStart.value, lastPos.value, a)
  {
    if lineStart.None? || lastPos.None? then None
    else
      var a := Anchor(sizeW, sizeH, hasCanvas, canvasW, canvasH);
      var cw, ch := CanvasWidthOr512(hasCanvas, canvasW), CanvasHeightOr512(hasCanvas, canvasH);
      Some(Ghost(Box(a.x, a.y, cw as real, ch as real), GhostStrokeStyle, RealOr(strokeWidth, DefaultGhostWidth),
                 GhostDash, GhostOutline(tool, lineStart.value, lastPos.value, a)))
  }

  /**
   * The anchor is exactly the offset the pointer handlers subtract: a ghost
   * endpoint mapped back through getPreviewLocalPos is the stroke's local
   * point, and a panel position mapped to local space and back through the
   * anchor is the position itself.
   */
  lemma GhostLineRoundTrip(sizeW: real, sizeH: real, canvasW: int, canvasH: int, start: Point, end: Point, pos: Point)
    ensures var a := Anchor(sizeW, sizeH, true, canvasW, canvasH);
      var p := GhostOutline(Str("line"), start, end, a).value;
      && GetPreviewLocalPos(sizeW, sizeH, canvasW, canvasH, p.from) == start
      && GetPreviewLocalPos(sizeW, sizeH, canvasW, canvasH, p.to) == end
      && GetPreviewLocalPos(sizeW, sizeH, canvasW, canvasH, pos).Plus(a) == pos
  {
  }

  /**
   * A local point is inside the preview exactly when its ghost image lies in
   * the ghost's clip rectangle, edges included.
   */
  lemma ClipIsPreview(sizeW: real, sizeH: real, canvasW: int, canvasH: int, local: Point)
    ensures var a := Anchor(sizeW, sizeH, true, canvasW, canvasH);
      var q := local.Plus(a);
      IsInsidePreview(true, canvasW, canvasH, local)
      <==> (a.x <= q.x <= a.x + canvasW as real && a.y <= q.y <= a.y + canvasH as real)
  {
    var a := Anchor(sizeW, sizeH, true, canvasW, canvasH);
    PreviewHitIsPanelRect(sizeW, sizeH, canvasW, canvasH, local.Plus(a));
    assert GetPreviewLocalPos(sizeW, sizeH, canvasW, canvasH, local.Plus(a)) == local;
  }

  /**
   * The ghost rectangle is not snapped: its corner is within half a pixel of
   * the committed rectangle's corner (moved by the anchor), and its size is
   * at most one pixel larger in each direction than the committed, floored size.
   */
  lemma GhostRectVsCommitted(start: Point, end: Point, a: Point)
    ensures var g := GhostOutline(Str("rectangle"), start, end, a).value;
      var c := RectPath(start, end);
      && -0.5 < c.x + a.x - g.x <= 0.5 && -0.5 < c.y + a.y - g.y <= 0.5
      && g.w - 1.0 < c.w <= g.w && g.h - 1.0 < c.h <= g.h
  {
  }

  /** The ghost ellipse is the committed ellipse moved by the anchor. */
  lemma GhostEllipseIsCommitted(start: Point, end: Point, a: Point)
    ensures var g := GhostOutline(Str("ellipse"), start, end, a).value;
      var c := EllipsePath(start, end);
      g == Oval(c.cx + a.x, c.cy + a.y, c.rx, c.ry)
  {
  }
}
