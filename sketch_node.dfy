/**
 * The state of one OlmSketch node: its off-screen drawing canvas (bitmap,
 * 2D context state and save stack), the LiteGraph node fields the extension
 * reads and writes (size, widgets, inputs), and the per-stroke fields the
 * pointer handlers maintain.
 *
 * Painting is not rasterised: every stroke or fill the extension issues on
 * the drawing context is appended to `ops` together with the context state it
 * was issued under. Operations that move whole images (crop, flip, rotate,
 * offset, invert, fill) act on the bitmap `pixels`.
 */
module SketchNode {
  import opened Common
  import opened Raster
  import opened Layouts

  datatype Cap = ButtCap | RoundCap
  datatype Join = MiterJoin | RoundJoin

  /**
   * A stroke or fill style: a CSS colour string, or the colour `hexToRgba`
   * builds from a hex colour and an alpha (that function is not part of this
   * model, so the pair is kept unevaluated).
   */
  datatype Paint = Css(color: string) | HexAlpha(hex: string, alpha: real)

  /** The drawing state of a 2D context that the extension touches. */
  datatype Ctx = Ctx(
    globalAlpha: real,
    composite: string,
    strokeStyle: Paint,
    fillStyle: Paint,
    lineWidth: real,
    lineCap: Cap,
    lineJoin: Join,
    smoothing: bool,
    filter: string)

  /** The state of a freshly created or freshly resized context. */
  const DefaultCtx := Ctx(1.0, "source-over", Css("#000000"), Css("#000000"), 1.0, ButtCap, MiterJoin, true, "none")

  datatype Path =
    | Segment(from: Point, to: Point)
    | Box(x: real, y: real, w: real, h: real)
    | Oval(cx: real, cy: real, rx: real, ry: real)

  datatype DrawOp = Stroke(path: Path, style: Ctx) | Fill(path: Path, style: Ctx)

  /** How a widget answers the node's size computation. */
  datatype SizeRule =
    | Buttons(layout: LayoutKind, elements: seq<Element>)   // an interactive widget's own computeSize
    | FixedSize(w: real, h: real)                           // a computeSize returning a constant
    | ComputedHeight(h: real)                               // a numeric computedHeight
    | DefaultHeight                                         // neither

  datatype Widget = Widget(name: string, value: Value, hidden: bool, size: SizeRule)

  datatype Input = Input(name: string)

  /** The three drawing tools that commit a shape on release (anything else paints freehand). */
  predicate IsShapeTool(tool: Value) {
    tool == Str("line") || tool == Str("rectangle") || tool == Str("ellipse")
  }

  class Node {
    // the drawing canvas and its 2D context
    var hasCanvas: bool
    var width: int
    var height: int
    var pixels: array2<Pixel>
    var ctx: Ctx
    var saved: seq<Ctx>
    var ops: seq<DrawOp>
    // bookkeeping
    var needsResize: bool
    var saves: nat           // calls of sendDrawingToBackend
    var backgroundColor: Value
    // the LiteGraph node
    var nodeType: string
    var id: int
    var sizeW: real
    var sizeH: real
    var collapsed: bool
    var widgets: seq<Widget>
    var inputs: Option<seq<Input>>
    // the stroke in progress
    var isDrawing: bool
    var lineStart: Option<Point>
    var lastPos: Option<Point>
    var strokeWidth: real
    var strokeColor: string
    var brushAlpha: real
    var baseStrokeWidth: real
    var baseBrushAlpha: real
    var tool: Value
    var blendMode: Value

    /** The bitmap matches the canvas size, and a stroke in progress has both of its endpoints. */
    predicate Valid()
      reads this
    {
      && pixels.Length0 == width && pixels.Length1 == height
      && width >= 1 && height >= 1
      && (isDrawing ==> lineStart.Some? && lastPos.Some?)
    }

    function Image(): Grid
      reads this, pixels
    {
      GridOf(pixels)
    }

    /**
     * onNodeCreated's initState and initCanvas: a `previewW`-by-`previewH`
     * canvas filled with the background colour (`#000000` when the
     * background is unset), no stroke in progress, no resize pending.
     */
    constructor(nodeType: string, id: int, widgets: seq<Widget>, inputs: Option<seq<Input>>,
                previewW: int, previewH: int, background: Value, toolValue: Value,
                cssColor: string -> Pixel)
      requires previewW >= 1 && previewH >= 1
      ensures Valid() && fresh(pixels)
      ensures hasCanvas && width == previewW && height == previewH
      ensures Image() == FillOver(Solid(previewW, previewH, Transparent), previewW, previewH,
                                  cssColor(StrOr(background, "#000000")))
      ensures ctx == DefaultCtx.(fillStyle := Css(StrOr(background, "#000000"))) && saved == [] && ops == []
      ensures !needsResize && saves == 0 && backgroundColor == background
      ensures this.nodeType == nodeType && this.id == id && this.widgets == widgets && this.inputs == inputs
      ensures !isDrawing && lastPos.None? && tool == toolValue
    {
      this.nodeType := nodeType;
      this.id := id;
      this.widgets := widgets;
      this.inputs := inputs;
      sizeW, sizeH := 0.0, 0.0;
      collapsed := false;
      hasCanvas := true;
      width, height := previewW, previewH;
      var fillColor := StrOr(background, "#000000");
      var a := NewBitmap(previewW, previewH);
      Blit(a, FillOver(GridOf(a), previewW, previewH, cssColor(fillColor)));
      pixels := a;
      ctx := DefaultCtx.(fillStyle := Css(fillColor));
      saved := [];
      ops := [];
      needsResize := false;
      saves := 0;
      backgroundColor := background;
      isDrawing := false;
      lineStart, lastPos := None, None;
      strokeWidth, strokeColor, brushAlpha := 0.0, "", 0.0;
      baseStrokeWidth, baseBrushAlpha := 0.0, 0.0;
      tool := toolValue;
      blendMode := Nil;
    }

    /**
     * `canvas.width = w; canvas.height = h`: assigning a canvas dimension,
     * even an unchanged one, clears the bitmap to transparent and resets the
     * context to its defaults with an empty save stack.
     */
    method SetCanvasSize(w: int, h: int)
      requires Valid() && w >= 1 && h >= 1
      modifies this`pixels, this`width, this`height, this`ctx, this`saved
      ensures Valid() && fresh(pixels)
      ensures width == w && height == h && Image() == Solid(w, h, Transparent)
      ensures ctx == DefaultCtx && saved == []
    {
      var a := NewBitmap(w, h);
      pixels := a;
      width, height := w, h;
      ctx := DefaultCtx;
      saved := [];
    }

    /** `ctx.save()`: pushes the current drawing state. */
    method SaveCtx()
      modifies this`saved
      ensures saved == old(saved) + [ctx]
    {
      saved := saved + [ctx];
    }

    /** `ctx.restore()`: pops the last saved state; with nothing saved it does nothing. */
    method RestoreCtx()
      modifies this`ctx, this`saved
      ensures old(saved) == [] ==> saved == [] && ctx == old(ctx)
      ensures old(saved) != [] ==> saved == old(saved)[..|old(saved)| - 1] && ctx == old(saved)[|old(saved)| - 1]
    {
      if saved != [] {
        ctx := saved[|saved| - 1];
        saved := saved[..|saved| - 1];
      }
    }

    /** `sendDrawingToBackend()`: one more save request is in flight; nothing on the node changes. */
    method SendDrawingToBackend()
      modifies this`saves
      ensures saves == old(saves) + 1
    {
      saves := saves + 1;
    }
  }
}
