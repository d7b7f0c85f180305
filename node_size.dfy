/**
 * The node's computeSize: a width wide enough for the canvas preview, and a
 * height made of a fixed header, the canvas, and the heights of the visible
 * widgets in order.
 */
module NodeSize {
  import opened Common
  import opened Layouts
  import opened SketchNode
  import opened NodeUtils
  import InteractiveWidgets

  const MinNodeWidth: int := 300
  const HeaderHeight: real := 120.0
  const DefaultWidgetHeight: real := 24.0

  /** `max(canvasWidth + PADDING_X, 300)`; PADDING_X is a constant of the extension, taken as a parameter. */
  function BaseWidth(hasCanvas: bool, canvasW: int, paddingX: int): (r: int)
    ensures r >= MinNodeWidth
    ensures r >= CanvasWidthOr512(hasCanvas, canvasW) + paddingX
    ensures r == MinNodeWidth || r == CanvasWidthOr512(hasCanvas, canvasW) + paddingX
  {
    MaxI(CanvasWidthOr512(hasCanvas, canvasW) + paddingX, MinNodeWidth)
  }

  /**
   * What one visible widget adds: a button widget its own computed height
   * for the given width, another widget with a computeSize the height it
   * returns, else its numeric computedHeight, else 24.
   */
  function WidgetHeight(w: Widget, availableWidth: real, nodeWidth: real): real {
    match w.size
    case Buttons(kind, els) => InteractiveWidgets.ComputeSize(kind, els, availableWidth, nodeWidth).1 as real
    case FixedSize(_, h) => h
    case ComputedHeight(h) => h
    case DefaultHeight => DefaultWidgetHeight
  }

  /** The heights of the visible widgets, summed in list order. */
  function VisibleHeight(ws: seq<Widget>, availableWidth: real, nodeWidth: real): real {
    if |ws| == 0 then 0.0
    else
      VisibleHeight(ws[..|ws| - 1], availableWidth, nodeWidth)
      + (if ws[|ws| - 1].hidden then 0.0 else WidgetHeight(ws[|ws| - 1], availableWidth, nodeWidth))
  }

  /** The pair computeSize returns for the node's current state. */
  function NodeWidth(hasCanvas: bool, canvasW: int, paddingX: int): real {
    BaseWidth(hasCanvas, canvasW, paddingX) as real
  }

  function NodeHeight(hasCanvas: bool, canvasW: int, canvasH: int, paddingX: int,
                      sizeW: real, widgets: seq<Widget>): real {
    var base := BaseWidth(hasCanvas, canvasW, paddingX) as real;
    HeaderHeight + CanvasHeightOr512(hasCanvas, canvasH) as real + VisibleHeight(widgets, RealOr(sizeW, base), sizeW)
  }

  /** computeSize: one pass over the visible widgets accumulating the total height. */
  method ComputeSize(node: Node, paddingX: int) returns (w: real, h: real)
    ensures w == NodeWidth(node.hasCanvas, node.width, paddingX)
    ensures h == NodeHeight(node.hasCanvas, node.width, node.height, paddingX, node.sizeW, node.widgets)
  {
    var canvasW := CanvasWidthOr512(node.hasCanvas, node.width);
    var canvasH := CanvasHeightOr512(node.hasCanvas, node.height);
    var baseWidth := MaxI(canvasW + paddingX, MinNodeWidth);
    var avail := RealOr(node.sizeW, baseWidth as real);
    var total := HeaderHeight + canvasH as real;
    var ws := node.widgets;
    var i := 0;
    while i < |ws|
      invariant 0 <= i <= |ws|
      invariant total == HeaderHeight + canvasH as real + VisibleHeight(ws[..i], avail, node.sizeW)
    {
      assert ws[..i + 1][..i] == ws[..i];
      if !ws[i].hidden {
        total := total + WidgetHeight(ws[i], avail, node.sizeW);
      }
      i := i + 1;
    }
    assert ws[..|ws|] == ws;
    w, h := baseWidth as real, total;
  }

  /** The height of two runs of widgets is the sum of their heights. */
  lemma {:induction false} VisibleHeightAppend(a: seq<Widget>, b: seq<Widget>, availableWidth: real, nodeWidth: real)
    ensures VisibleHeight(a + b, availableWidth, nodeWidth)
      == VisibleHeight(a, availableWidth, nodeWidth) + VisibleHeight(b, availableWidth, nodeWidth)
    decreases |b|
  {
    if |b| == 0 {
      assert a + b == a;
    } else {
      var b' := b[..|b| - 1];
      assert (a + b)[..|a + b| - 1] == a + b';
      assert (a + b)[|a + b| - 1] == b[|b| - 1];
      VisibleHeightAppend(a, b', availableWidth, nodeWidth);
    }
  }

  /** Hiding a visible widget takes exactly its own height off the total; hiding a hidden one changes nothing. */
  lemma HideOne(ws: seq<Widget>, i: int, availableWidth: real, nodeWidth: real)
    requires 0 <= i < |ws|
    ensures VisibleHeight(ws[i := ws[i].(hidden := true)], availableWidth, nodeWidth)
      == VisibleHeight(ws, availableWidth, nodeWidth)
         - (if ws[i].hidden then 0.0 else WidgetHeight(ws[i], availableWidth, nodeWidth))
  {
    var hs := ws[i := ws[i].(hidden := true)];
    assert ws == ws[..i] + [ws[i]] + ws[i + 1..];
    assert hs == ws[..i] + [hs[i]] + ws[i + 1..];
    VisibleHeightAppend(ws[..i] + [ws[i]], ws[i + 1..], availableWidth, nodeWidth);
    VisibleHeightAppend(ws[..i] + [hs[i]], ws[i + 1..], availableWidth, nodeWidth);
    VisibleHeightAppend(ws[..i], [ws[i]], availableWidth, nodeWidth);
    VisibleHeightAppend(ws[..i], [hs[i]], availableWidth, nodeWidth);
    assert [ws[i]][..0] == [] && [hs[i]][..0] == [];
  }

  /** With every widget hidden, the node is just the header above the canvas. */
  lemma {:induction false} AllHiddenHeight(ws: seq<Widget>, availableWidth: real, nodeWidth: real)
    requires forall j :: 0 <= j < |ws| ==> ws[j].hidden
    ensures VisibleHeight(ws, availableWidth, nodeWidth) == 0.0
  {
    if |ws| > 0 {
      AllHiddenHeight(ws[..|ws| - 1], availableWidth, nodeWidth);
    }
  }
}
