/**
 * The three shape tools that commit on release: a straight line, an
 * axis-aligned rectangle snapped to the pixel grid, and the ellipse inscribed
 * in the dragged box. Each tool brackets its context changes in save and
 * restore, so what it leaves behind is only the operations it issued.
 */
module DrawingTools {
  import opened Common
  import opened SketchNode

  /** `Math.floor` on a real, as a real. */
  function Floor(r: real): (f: real)
    ensures f <= r < f + 1.0
  {
    r.Floor as real
  }

  /** The path drawLine strokes. */
  function LinePath(start: Point, last: Point): Path {
    Segment(start, last)
  }

  /**
   * The rectangle drawRectangle builds: its corner is the start point's
   * pixel centre, its size the floored drag, which is negative when the drag
   * goes left or up.
   */
  function RectPath(start: Point, last: Point): (p: Path)
    ensures p.Box?
    ensures start.x - 0.5 < p.x <= start.x + 0.5 && start.y - 0.5 < p.y <= start.y + 0.5
    ensures last.x - start.x - 1.0 < p.w <= last.x - start.x
    ensures last.y - start.y - 1.0 < p.h <= last.y - start.y
  {
    Box(Floor(start.x) + 0.5, Floor(start.y) + 0.5, Floor(last.x - start.x), Floor(last.y - start.y))
  }

  /** The ellipse drawEllipse builds: its bounding box is exactly the box the two corners span. */
  function EllipsePath(start: Point, last: Point): (p: Path)
    ensures p.Oval? && p.rx >= 0.0 && p.ry >= 0.0
    ensures p.cx - p.rx == MinR(start.x, last.x) && p.cx + p.rx == MaxR(start.x, last.x)
    ensures p.cy - p.ry == MinR(start.y, last.y) && p.cy + p.ry == MaxR(start.y, last.y)
  {
    Oval((start.x + last.x) / 2.0, (start.y + last.y) / 2.0,
         Abs(last.x - start.x) / 2.0, Abs(last.y - start.y) / 2.0)
  }

  function MinR(a: real, b: real): real { if a < b then a else b }

  /**
   * The operations a closed shape issues: with filling, the line width is
   * set to 1 and the fill colour to the stroke colour before the fill, so the
   * stroke that follows is 1 wide as well; without, a single stroke.
   */
  function FillThenStroke(style: Ctx, path: Path, color: string, alpha: real, fill: bool): (ops: seq<DrawOp>)
    ensures |ops| == (if fill then 2 else 1)
    ensures ops[|ops| - 1] == Stroke(path, if fill then style.(lineWidth := 1.0, fillStyle := HexAlpha(color, alpha)) else style)
    ensures fill ==> ops[0] == Fill(path, ops[1].style) && ops[0].style.lineWidth == 1.0
  {
    if fill then
      var filled := style.(lineWidth := 1.0, fillStyle := HexAlpha(color, alpha));
      [Fill(path, filled), Stroke(path, filled)]
    else [Stroke(path, style)]
  }

  /** The context state drawLine strokes under. */
  function LineStyle(c: Ctx, color: string, alpha: real, width: real): Ctx {
    c.(globalAlpha := alpha, strokeStyle := HexAlpha(color, alpha), lineWidth := width, lineCap := RoundCap)
  }

  /** The context state drawRectangle starts its path under. */
  function RectStyle(c: Ctx, color: string, alpha: real, width: real): Ctx {
    c.(smoothing := false, globalAlpha := alpha, strokeStyle := HexAlpha(color, alpha), lineWidth := width,
       lineCap := ButtCap, lineJoin := MiterJoin)
  }

  /** The context state drawEllipse starts its path under (caps and joins are left as they were). */
  function EllipseStyle(c: Ctx, color: string, alpha: real, width: real): Ctx {
    c.(smoothing := false, globalAlpha := alpha, strokeStyle := HexAlpha(color, alpha), lineWidth := width)
  }

  /** Every operation of a committed rectangle is drawn at the given alpha and colour, square-cornered, unsmoothed, on the same box. */
  lemma RectangleOpsShape(c: Ctx, start: Point, last: Point, color: string, alpha: real, width: real, fill: bool)
    ensures var ops := FillThenStroke(RectStyle(c, color, alpha, width), RectPath(start, last), color, alpha, fill);
      forall k :: 0 <= k < |ops| ==>
        && ops[k].path == RectPath(start, last)
        && ops[k].style.globalAlpha == alpha && ops[k].style.strokeStyle == HexAlpha(color, alpha)
        && !ops[k].style.smoothing && ops[k].style.lineCap == ButtCap && ops[k].style.lineJoin == MiterJoin
        && ops[k].style.lineWidth == (if fill then 1.0 else width)
        && ops[k].style.composite == c.composite
  {
  }

  /** The same for a committed ellipse, whose caps and joins are those in force when it was committed. */
  lemma EllipseOpsShape(c: Ctx, start: Point, last: Point, color: string, alpha: real, width: real, fill: bool)
    ensures var ops := FillThenStroke(EllipseStyle(c, color, alpha, width), EllipsePath(start, last), color, alpha, fill);
      forall k :: 0 <= k < |ops| ==>
        && ops[k].path == EllipsePath(start, last)
        && ops[k].style.globalAlpha == alpha && ops[k].style.strokeStyle == HexAlpha(color, alpha)
        && !ops[k].style.smoothing && ops[k].style.lineCap == c.lineCap && ops[k].style.lineJoin == c.lineJoin
        && ops[k].style.lineWidth == (if fill then 1.0 else width)
  {
  }

  /** drawLine: one round-capped segment from the stroke's start to its last position. */
  method DrawLine(node: Node, color: string, alpha: real, width: real)
    requires node.lineStart.Some? && node.lastPos.Some?
    modifies node`ctx, node`saved, node`ops
    ensures node.ctx == old(node.ctx) && node.saved == old(node.saved)
    ensures node.ops == old(node.ops) +
      [Stroke(LinePath(node.lineStart.value, node.lastPos.value), LineStyle(old(node.ctx), color, alpha, width))]
  {
    node.SaveCtx();
    node.ctx := LineStyle(node.ctx, color, alpha, width);
    node.ops := node.ops + [Stroke(LinePath(node.lineStart.value, node.lastPos.value), node.ctx)];
    node.RestoreCtx();
    assert (old(node.saved) + [old(node.ctx)])[..|old(node.saved)|] == old(node.saved);
  }

  /** drawRectangle: the snapped box, filled first when asked. */
  method DrawRectangle(node: Node, color: string, alpha: real, width: real, shouldFill: bool)
    requires node.lineStart.Some? && node.lastPos.Some?
    modifies node`ctx, node`saved, node`ops
    ensures node.ctx == old(node.ctx) && node.saved == old(node.saved)
    ensures node.ops == old(node.ops) +
      FillThenStroke(RectStyle(old(node.ctx), color, alpha, width),
                     RectPath(node.lineStart.value, node.lastPos.value), color, alpha, shouldFill)
  {
    node.SaveCtx();
    node.ctx := RectStyle(node.ctx, color, alpha, width);
    var box := RectPath(node.lineStart.value, node.lastPos.value);
    DrawClosed(node, box, color, alpha, shouldFill);
    node.RestoreCtx();
    assert (old(node.saved) + [old(node.ctx)])[..|old(node.saved)|] == old(node.saved);
  }

  /** drawEllipse: the inscribed ellipse, filled first when asked. */
  method DrawEllipse(node: Node, color: string, alpha: real, width: real, shouldFill: bool)
    requires node.lineStart.Some? && node.lastPos.Some?
    modifies node`ctx, node`saved, node`ops
    ensures node.ctx == old(node.ctx) && node.saved == old(node.saved)
    ensures node.ops == old(node.ops) +
      FillThenStroke(EllipseStyle(old(node.ctx), color, alpha, width),
                     EllipsePath(node.lineStart.value, node.lastPos.value), color, alpha, shouldFill)
  {
    node.SaveCtx();
    node.ctx := EllipseStyle(node.ctx, color, alpha, width);
    var oval := EllipsePath(node.lineStart.value, node.lastPos.value);
    DrawClosed(node, oval, color, alpha, shouldFill);
    node.RestoreCtx();
    assert (old(node.saved) + [old(node.ctx)])[..|old(node.saved)|] == old(node.saved);
  }

  /** The shared tail of the two closed shapes: the optional fill, then the stroke. */
  method DrawClosed(node: Node, path: Path, color: string, alpha: real, shouldFill: bool)
    modifies node`ctx, node`ops
    ensures node.ops == old(node.ops) + FillThenStroke(old(node.ctx), path, color, alpha, shouldFill)
    ensures node.ctx == (if shouldFill then old(node.ctx).(lineWidth := 1.0, fillStyle := HexAlpha(color, alpha)) else old(node.ctx))
  {
    if shouldFill {
      node.ctx := node.ctx.(lineWidth := 1.0, fillStyle := HexAlpha(color, alpha));
      node.ops := node.ops + [Fill(path, node.ctx)];
    }
    node.ops := node.ops + [Stroke(path, node.ctx)];
  }
}
