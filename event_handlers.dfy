/**
 * The pointer state machine of the drawing canvas. A press inside the
 * preview starts a stroke (`isDrawing`, with `lineStart` and `lastPos` at the
 * press point) and captures the stroke's base width, colour and alpha; moves
 * paint freehand segments and advance `lastPos`; a release commits a line,
 * rectangle or ellipse and saves; leaving the node abandons the stroke and saves.
 *
 * The pointer event is reduced to the fields the handlers read: the panel
 * position, the `buttons` mask, whether the pointer is a pen, and its pressure
 * (`None` when the event carries none, which JavaScript turns into NaN).
 * The pressure multiplier is a parameter `k`.
 */
module EventHandlers {
  import opened Common
  import opened SketchNode
  import opened NodeUtils
  import opened DrawingTools

  /**
   * `e.pressure * K || 1.0`, forced to 1.0 for anything but a pen: the factor
   * is never zero, a pen with a non-zero product uses that product, and a
   * zero or missing pressure falls back to 1.0.
   */
  function PressureFactor(isPen: bool, pressure: Option<real>, k: real): (f: real)
    ensures f != 0.0
    ensures !isPen ==> f == 1.0
    ensures isPen && pressure.Some? && pressure.value * k != 0.0 ==> f == pressure.value * k
    ensures isPen && (pressure.None? || pressure.value * k == 0.0) ==> f == 1.0
  {
    if !isPen then 1.0
    else match pressure
      case None => 1.0
      case Some(p) => RealOr(p * k, 1.0)
  }

  /** The stroke state every handler keeps: a stroke in progress has both endpoints and a canvas. */
  predicate StrokeValid(node: Node)
    reads node
  {
    node.Valid() && (node.isDrawing ==> node.hasCanvas)
  }

  /** The context state after `ctx.restore()`, and the save stack left. */
  function Restored(c: Ctx, saved: seq<Ctx>): (r: (Ctx, seq<Ctx>))
    ensures saved == [] ==> r == (c, [])
    ensures saved != [] ==> r.1 + [r.0] == saved
  {
    if saved == [] then (c, []) else (saved[|saved| - 1], saved[..|saved| - 1])
  }

  /**
   * What a release commits for `tool`: one op for a line, the optional fill
   * and the stroke for a rectangle or ellipse, nothing for the freehand tool.
   */
  function CommitOps(tool: Value, c: Ctx, start: Point, last: Point, color: string, alpha: real, width: real,
                     fill: bool): (ops: seq<DrawOp>)
    ensures |ops| == 0 <==> !IsShapeTool(tool)
    ensures tool == Str("line") ==> ops == [Stroke(LinePath(start, last), LineStyle(c, color, alpha, width))]
    ensures tool == Str("rectangle") ==>
      ops == FillThenStroke(RectStyle(c, color, alpha, width), RectPath(start, last), color, alpha, fill)
    ensures tool == Str("ellipse") ==>
      ops == FillThenStroke(EllipseStyle(c, color, alpha, width), EllipsePath(start, last), color, alpha, fill)
  {
    if tool == Str("line") then [Stroke(LinePath(start, last), LineStyle(c, color, alpha, width))]
    else if tool == Str("rectangle") then
      FillThenStroke(RectStyle(c, color, alpha, width), RectPath(start, last), color, alpha, fill)
    else if tool == Str("ellipse") then
      FillThenStroke(EllipseStyle(c, color, alpha, width), EllipsePath(start, last), color, alpha, fill)
    else []
  }

  /** Every committed op is drawn at the stroke's base alpha, never at a pressure-scaled one. */
  lemma CommitUsesBaseAlpha(tool: Value, c: Ctx, start: Point, last: Point, color: string, alpha: real,
                            width: real, fill: bool)
    ensures var ops := CommitOps(tool, c, start, last, color, alpha, width, fill);
      forall i :: 0 <= i < |ops| ==>
        ops[i].style.globalAlpha == alpha && ops[i].style.strokeStyle == HexAlpha(color, alpha)
        && ops[i].style.lineWidth == (if fill && tool != Str("line") then 1.0 else width)
  {
    var ops := CommitOps(tool, c, start, last, color, alpha, width, fill);
    if tool == Str("rectangle") {
      RectangleOpsShape(c, start, last, color, alpha, width, fill);
    } else if tool == Str("ellipse") {
      EllipseOpsShape(c, start, last, color, alpha, width, fill);
    }
  }

  /** A base width or alpha scaled by a pressure factor. */
  function Scale(base: real, factor: real): real { base * factor }

  /** The context a stroke paints under once its width and alpha are known. */
  function PaintStyle(c: Ctx, color: string, alpha: real, width: real): Ctx {
    c.(globalAlpha := alpha, lineWidth := width, strokeStyle := HexAlpha(color, alpha))
  }

  /**
   * handleMouseDown. Outside the preview: false, and nothing changes. Inside:
   * the stroke starts at the press point, the base width, colour and alpha
   * are read from the widgets (2, `#ffffff` and 1.0 when falsy), the current
   * width and alpha are the bases times the pressure factor, and the context
   * is set up for a round-capped stroke; its `globalAlpha` is the unscaled
   * alpha. The freehand tool then saves the context and paints a dot at the
   * press point when the app canvas exists.
   */
  method MouseDown(node: Node, pos: Point, isPen: bool, pressure: Option<real>, k: real, appCanvas: bool)
    returns (handled: bool)
    requires StrokeValid(node) && node.hasCanvas
    modifies node`lineStart, node`lastPos, node`strokeWidth, node`strokeColor, node`brushAlpha,
             node`baseStrokeWidth, node`baseBrushAlpha, node`ctx, node`saved, node`ops, node`isDrawing
    ensures StrokeValid(node)
    ensures var local := GetPreviewLocalPos(node.sizeW, node.sizeH, node.width, node.height, pos);
      handled <==> IsInsidePreview(true, node.width, node.height, local)
    ensures !handled ==>
      && node.lineStart == old(node.lineStart) && node.lastPos == old(node.lastPos)
      && node.isDrawing == old(node.isDrawing) && node.ctx == old(node.ctx) && node.saved == old(node.saved)
      && node.ops == old(node.ops) && node.strokeWidth == old(node.strokeWidth)
      && node.brushAlpha == old(node.brushAlpha) && node.strokeColor == old(node.strokeColor)
      && node.baseStrokeWidth == old(node.baseStrokeWidth) && node.baseBrushAlpha == old(node.baseBrushAlpha)
    ensures handled ==>
      StrokeStarted(node, old(node.ctx), old(node.saved), old(node.ops),
                    GetPreviewLocalPos(node.sizeW, node.sizeH, node.width, node.height, pos),
                    PressureFactor(isPen, pressure, k), appCanvas)
  {
    var local := GetPreviewLocalPos(node.sizeW, node.sizeH, node.width, node.height, pos);
    if !IsInsidePreview(node.hasCanvas, node.width, node.height, local) {
      return false;
    }
    StartStroke(node, local, PressureFactor(isPen, pressure, k), appCanvas);
    return true;
  }

  /**
   * The state a press inside the preview at `local` leaves, from the context,
   * save stack and op log it found: the stroke has started at `local`; the
   * base width, colour and alpha are the widget values (2, `#ffffff` and 1.0
   * when falsy); the current width and alpha are the bases scaled by the
   * pressure factor `p`; the context is set up for a round-capped stroke in
   * the stroke colour at the scaled alpha, with the unscaled alpha as its
   * `globalAlpha`; and the freehand tool has saved that context and painted a
   * dot at `local` when the app canvas exists.
   */
  ghost predicate StrokeStarted(node: Node, c0: Ctx, saved0: seq<Ctx>, ops0: seq<DrawOp>, local: Point, p: real,
                                appCanvas: bool)
    reads node
  {
    var style := c0.(globalAlpha := node.baseBrushAlpha, composite := StrOr(node.blendMode, "source-over"),
                     strokeStyle := HexAlpha(node.strokeColor, node.brushAlpha),
                     lineWidth := node.strokeWidth, lineCap := RoundCap, lineJoin := RoundJoin);
    && node.isDrawing && node.lineStart == Some(local) && node.lastPos == Some(local)
    && node.baseStrokeWidth == NumOr(GetWidgetValue(node.widgets, "stroke_width", Nil), 2.0)
    && node.strokeColor == StrOr(GetWidgetValue(node.widgets, "color", Nil), "#ffffff")
    && node.baseBrushAlpha == NumOr(GetWidgetValue(node.widgets, "brush_alpha", Nil), 1.0)
    && node.strokeWidth == Scale(node.baseStrokeWidth, p) && node.brushAlpha == Scale(node.baseBrushAlpha, p)
    && node.ctx == style
    && (!IsShapeTool(node.tool) && appCanvas ==>
          node.saved == saved0 + [style] && node.ops == ops0 + [Stroke(Segment(local, local), style)])
    && (IsShapeTool(node.tool) || !appCanvas ==> node.saved == saved0 && node.ops == ops0)
  }

  /** handleMouseDown from line 19 on, once the press is known to be inside the preview. */
  method StartStroke(node: Node, local: Point, p: real, appCanvas: bool)
    requires node.Valid()
    modifies node`lineStart, node`lastPos, node`strokeWidth, node`strokeColor, node`brushAlpha,
             node`baseStrokeWidth, node`baseBrushAlpha, node`ctx, node`saved, node`ops, node`isDrawing
    ensures node.Valid()
    ensures StrokeStarted(node, old(node.ctx), old(node.saved), old(node.ops), local, p, appCanvas)
  {
    var width0 := NumOr(GetWidgetValue(node.widgets, "stroke_width", Nil), 2.0);
    var color := StrOr(GetWidgetValue(node.widgets, "color", Nil), "#ffffff");
    var alpha0 := NumOr(GetWidgetValue(node.widgets, "brush_alpha", Nil), 1.0);
    BeginStroke(node, local, width0, color, alpha0, p);
    if !IsShapeTool(node.tool) && appCanvas {
      node.SaveCtx();
      node.ops := node.ops + [Stroke(Segment(node.lastPos.value, local), node.ctx)];
    }
  }

  /**
   * The state changes of a press inside the preview, in the order the
   * handler makes them: endpoints, widget values, the unscaled alpha on the
   * context, the bases, the pressure scaling, then the rest of the context.
   */
  method BeginStroke(node: Node, local: Point, width0: real, color: string, alpha0: real, p: real)
    modifies node`lineStart, node`lastPos, node`strokeWidth, node`strokeColor, node`brushAlpha,
             node`baseStrokeWidth, node`baseBrushAlpha, node`ctx, node`isDrawing
    ensures node.isDrawing && node.lineStart == Some(local) && node.lastPos == Some(local)
    ensures node.baseStrokeWidth == width0 && node.strokeColor == color && node.baseBrushAlpha == alpha0
    ensures node.strokeWidth == Scale(width0, p) && node.brushAlpha == Scale(alpha0, p)
    ensures node.ctx == old(node.ctx).(globalAlpha := alpha0, composite := StrOr(node.blendMode, "source-over"),
                                       strokeStyle := HexAlpha(color, Scale(alpha0, p)), lineWidth := Scale(width0, p),
                                       lineCap := RoundCap, lineJoin := RoundJoin)
  {
    node.lineStart := Some(local);
    node.lastPos := Some(local);
    node.strokeWidth := width0;
    node.strokeColor := color;
    node.brushAlpha := alpha0;
    node.ctx := node.ctx.(globalAlpha := node.brushAlpha);
    node.baseStrokeWidth := node.strokeWidth;
    node.baseBrushAlpha := node.brushAlpha;
    node.strokeWidth := Scale(node.strokeWidth, p);
    node.brushAlpha := Scale(node.brushAlpha, p);
    node.ctx := node.ctx.(composite := StrOr(node.blendMode, "source-over"),
                          strokeStyle := HexAlpha(node.strokeColor, node.brushAlpha),
                          lineWidth := node.strokeWidth, lineCap := RoundCap, lineJoin := RoundJoin);
    node.isDrawing := true;
  }

  /**
   * handleMouseUp. The context is restored first, whatever the state. Not
   * drawing: false, `lastPos` cleared, nothing painted or saved. Drawing: the
   * tool's shape is committed from `lineStart` to `lastPos` with the stroke
   * colour, the base alpha and the press-time (pressure-scaled) width, filled
   * when `fill_shapes` is truthy; then one save, the stroke ends and `lastPos`
   * stays where it was.
   */
  method MouseUp(node: Node) returns (handled: bool)
    requires StrokeValid(node)
    modifies node`ctx, node`saved, node`ops, node`isDrawing, node`lastPos, node`saves
    ensures StrokeValid(node) && !node.isDrawing && handled == old(node.isDrawing)
    ensures (node.ctx, node.saved) == Restored(old(node.ctx), old(node.saved))
    ensures !old(node.isDrawing) ==>
      node.lastPos.None? && node.ops == old(node.ops) && node.saves == old(node.saves)
    ensures old(node.isDrawing) ==>
      && node.lastPos == old(node.lastPos) && node.saves == old(node.saves) + 1
      && node.ops == old(node.ops) +
           CommitOps(node.tool, Restored(old(node.ctx), old(node.saved)).0, node.lineStart.value, old(node.lastPos).value,
                     node.strokeColor, node.baseBrushAlpha, node.strokeWidth,
                     Truthy(GetWidgetValue(node.widgets, "fill_shapes", Nil)))
  {
    node.RestoreCtx();
    if !node.isDrawing {
      node.isDrawing := false;
      node.lastPos := None;
      return false;
    }
    var shouldFill := Truthy(GetWidgetValue(node.widgets, "fill_shapes", Nil));
    CommitShape(node, shouldFill);
    node.SendDrawingToBackend();
    node.isDrawing := false;
    return true;
  }

  /** The dispatch on the tool in handleMouseUp, with the stroke colour, base alpha and press-time width. */
  method CommitShape(node: Node, shouldFill: bool)
    requires node.lineStart.Some? && node.lastPos.Some?
    modifies node`ctx, node`saved, node`ops
    ensures node.ctx == old(node.ctx) && node.saved == old(node.saved)
    ensures node.ops == old(node.ops) + CommitOps(node.tool, old(node.ctx), node.lineStart.value, node.lastPos.value,
                                                  node.strokeColor, node.baseBrushAlpha, node.strokeWidth, shouldFill)
  {
    var tool := node.tool;
    var color := node.strokeColor;
    var alpha := node.baseBrushAlpha;
    var width := node.strokeWidth;
    if tool == Str("line") {
      DrawLine(node, color, alpha, width);
    } else if tool == Str("rectangle") {
      DrawRectangle(node, color, alpha, width, shouldFill);
    } else if tool == Str("ellipse") {
      DrawEllipse(node, color, alpha, width, shouldFill);
    }
  }

  /**
   * handleMouseMove. Not drawing: undefined (`None`), nothing changes. With
   * the primary button no longer down, the node's own mouse-up runs (its
   * interactive widgets first; `upConsumed` says one of them took the event,
   * in which case handleMouseUp is not reached) and the answer is false.
   * Otherwise the width and alpha are recomputed from the bases and this
   * event's pressure, the freehand tool paints a segment from `lastPos` to
   * the new point, and every tool moves `lastPos` there.
   */
  method MouseMove(node: Node, pos: Point, buttons: int, isPen: bool, pressure: Option<real>, k: real,
                   upConsumed: bool)
    returns (r: Option<bool>)
    requires StrokeValid(node)
    modifies node`ctx, node`saved, node`ops, node`isDrawing, node`lastPos, node`saves
    ensures StrokeValid(node)
    ensures r.None? <==> !old(node.isDrawing)
    ensures !old(node.isDrawing) ==>
      && node.ctx == old(node.ctx) && node.saved == old(node.saved) && node.ops == old(node.ops)
      && !node.isDrawing && node.lastPos == old(node.lastPos) && node.saves == old(node.saves)
    ensures old(node.isDrawing) && buttons != 1 ==> r == Some(false)
    ensures old(node.isDrawing) && buttons != 1 && upConsumed ==>
      && node.ctx == old(node.ctx) && node.saved == old(node.saved) && node.ops == old(node.ops)
      && node.isDrawing && node.lastPos == old(node.lastPos) && node.saves == old(node.saves)
    ensures old(node.isDrawing) && buttons != 1 && !upConsumed ==>
      && !node.isDrawing && node.lastPos == old(node.lastPos) && node.saves == old(node.saves) + 1
      && (node.ctx, node.saved) == Restored(old(node.ctx), old(node.saved))
      && node.ops == old(node.ops) +
           CommitOps(node.tool, Restored(old(node.ctx), old(node.saved)).0, node.lineStart.value, old(node.lastPos).value,
                     node.strokeColor, node.baseBrushAlpha, node.strokeWidth,
                     Truthy(GetWidgetValue(node.widgets, "fill_shapes", Nil)))
    ensures old(node.isDrawing) && buttons == 1 ==>
      var local := GetPreviewLocalPos(node.sizeW, node.sizeH, node.width, node.height, pos);
      var p := PressureFactor(isPen, pressure, k);
      var style := PaintStyle(old(node.ctx), node.strokeColor, Scale(node.baseBrushAlpha, p), Scale(node.baseStrokeWidth, p));
      && r == Some(true) && node.isDrawing && node.lastPos == Some(local)
      && node.ctx == style && node.saved == old(node.saved) && node.saves == old(node.saves)
      && (!IsShapeTool(node.tool) ==> node.ops == old(node.ops) + [Stroke(Segment(old(node.lastPos).value, local), style)])
      && (IsShapeTool(node.tool) ==> node.ops == old(node.ops))
  {
    if !node.isDrawing {
      return None;
    }
    var local := GetPreviewLocalPos(node.sizeW, node.sizeH, node.width, node.height, pos);
    if buttons != 1 {
      if !upConsumed {
        var _ := MouseUp(node);
      }
      return Some(false);
    }
    var p := PressureFactor(isPen, pressure, k);
    PaintMove(node, local, Scale(node.baseBrushAlpha, p), Scale(node.baseStrokeWidth, p));
    return Some(true);
  }

  /** The tail of a move with the button down: the context update, the freehand segment, the new `lastPos`. */
  method PaintMove(node: Node, local: Point, alpha: real, width: real)
    requires node.lastPos.Some?
    modifies node`ctx, node`ops, node`lastPos
    ensures node.ctx == PaintStyle(old(node.ctx), node.strokeColor, alpha, width) && node.lastPos == Some(local)
    ensures !IsShapeTool(node.tool) ==> node.ops == old(node.ops) + [Stroke(Segment(old(node.lastPos).value, local), node.ctx)]
    ensures IsShapeTool(node.tool) ==> node.ops == old(node.ops)
  {
    node.ctx := PaintStyle(node.ctx, node.strokeColor, alpha, width);
    if !IsShapeTool(node.tool) {
      node.ops := node.ops + [Stroke(Segment(node.lastPos.value, local), node.ctx)];
    }
    node.lastPos := Some(local);
  }

  /**
   * handleMouseLeave. Not drawing: nothing. Drawing: the context is
   * restored, the stroke is abandoned without committing a shape (`lastPos`
   * cleared), and the canvas is saved.
   */
  method MouseLeave(node: Node)
    requires StrokeValid(node)
    modifies node`ctx, node`saved, node`isDrawing, node`lastPos, node`saves
    ensures StrokeValid(node) && !node.isDrawing
    ensures !old(node.isDrawing) ==>
      node.ctx == old(node.ctx) && node.saved == old(node.saved) && node.lastPos == old(node.lastPos)
      && node.saves == old(node.saves)
    ensures old(node.isDrawing) ==>
      && (node.ctx, node.saved) == Restored(old(node.ctx), old(node.saved))
      && node.lastPos.None? && node.saves == old(node.saves) + 1
  {
    if !node.isDrawing {
      return;
    }
    node.RestoreCtx();
    node.isDrawing := false;
    node.lastPos := None;
    node.SendDrawingToBackend();
  }
}
