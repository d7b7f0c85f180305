/**
 * The node-level bookkeeping of the OlmSketch extension: the fixed widget
 * order, hiding the four internal widgets, removing their inputs, the
 * foreground pass (ghost outline and the pending-resize flag) and drawing a
 * loaded image onto the canvas.
 */
module OlmSketch {
  import opened Common
  import opened Raster
  import opened SketchNode
  import opened NodeUtils
  import opened NodeSize
  import opened CanvasUtils
  import opened DrawingPreview

  /** The order reorderWidgets puts the widgets in. */
  const WidgetOrder: seq<string> := [
    "drawing_version", "drawing_filename", "drawing_uid", "workflow_name", "save_directory", "filename",
    "width", "height", "multi_buttons", "crop_editor", "offset_controls", "blur_controls",
    "tool", "stroke_width", "fill_shapes", "color", "background", "brush_alpha", "Blend Mode"]

  /** The widgets (and inputs) that carry state for the backend and are not shown. */
  const InternalNames: seq<string> := ["drawing_version", "drawing_filename", "drawing_uid", "workflow_name"]

  /** For each name in turn, the first widget of that name, if there is one. */
  function Pick(names: seq<string>, ws: seq<Widget>): (r: seq<Widget>)
    ensures |r| <= |names|
  {
    if |names| == 0 then []
    else (match GetWidget(ws, names[0]) case None => [] case Some(w) => [w]) + Pick(names[1..], ws)
  }

  /** reorderWidgets: fewer than two widgets are left alone; otherwise the widgets named in the order, in that order. */
  function Reordered(ws: seq<Widget>): seq<Widget> {
    if |ws| < 2 then ws else Pick(WidgetOrder, ws)
  }

  method ReorderWidgets(node: Node)
    modifies node`widgets
    ensures node.widgets == Reordered(old(node.widgets))
  {
    if |node.widgets| < 2 {
      return;
    }
    node.widgets := Pick(WidgetOrder, node.widgets);
  }

  lemma GetWidgetCons(w: Widget, rest: seq<Widget>, n: string)
    ensures GetWidget([w] + rest, n) == if w.name == n then Some(w) else GetWidget(rest, n)
  {
    var s := [w] + rest;
    assert s[0] == w && s[1..] == rest;
  }

  /** Every picked widget is one of the given widgets and bears one of the names; every name that has a widget is picked. */
  lemma {:induction false} PickMembers(names: seq<string>, ws: seq<Widget>)
    ensures forall x :: x in Pick(names, ws) ==> x in ws && x.name in names
    ensures forall k :: 0 <= k < |names| && GetWidget(ws, names[k]).Some? ==> GetWidget(ws, names[k]).value in Pick(names, ws)
  {
    if |names| > 0 {
      PickMembers(names[1..], ws);
      assert names == [names[0]] + names[1..];
      forall k | 0 < k < |names| ensures names[k] == names[1..][k - 1] { }
    }
  }

  /** Looking a name up in the picked widgets finds what it finds in the original list, when the name is picked at all. */
  lemma {:induction false} GetFromPick(names: seq<string>, ws: seq<Widget>, n: string)
    ensures GetWidget(Pick(names, ws), n) == if n in names then GetWidget(ws, n) else None
  {
    if |names| == 0 {
      return;
    }
    var tail := names[1..];
    GetFromPick(tail, ws, n);
    assert names == [names[0]] + tail;
    match GetWidget(ws, names[0])
    case None =>
      assert Pick(names, ws) == Pick(tail, ws);
    case Some(w) =>
      assert Pick(names, ws) == [w] + Pick(tail, ws);
      GetWidgetCons(w, Pick(tail, ws), n);
  }

  /** Picking depends only on what each name looks up to. */
  lemma {:induction false} PickCongruent(names: seq<string>, a: seq<Widget>, b: seq<Widget>)
    requires forall k :: 0 <= k < |names| ==> GetWidget(a, names[k]) == GetWidget(b, names[k])
    ensures Pick(names, a) == Pick(names, b)
  {
    if |names| > 0 {
      assert GetWidget(a, names[0]) == GetWidget(b, names[0]);
      forall k | 0 <= k < |names[1..]| ensures GetWidget(a, names[1..][k]) == GetWidget(b, names[1..][k]) {
        assert names[1..][k] == names[k + 1];
      }
      PickCongruent(names[1..], a, b);
    }
  }

  /**
   * Reordering an already ordered list changes nothing, and every widget left
   * is one of the originals with a name from the order; each name of the order
   * keeps the widget it had.
   */
  lemma ReorderIdempotent(ws: seq<Widget>)
    ensures Reordered(Reordered(ws)) == Reordered(ws)
  {
    if |ws| >= 2 {
      var r := Pick(WidgetOrder, ws);
      if |r| >= 2 {
        forall k | 0 <= k < |WidgetOrder| ensures GetWidget(r, WidgetOrder[k]) == GetWidget(ws, WidgetOrder[k]) {
          GetFromPick(WidgetOrder, ws, WidgetOrder[k]);
        }
        PickCongruent(WidgetOrder, r, ws);
      }
    }
  }

  /** A widget whose name is not in the order is dropped; one whose name is, and that is the first of that name, is kept. */
  lemma ReorderKeepsNamed(ws: seq<Widget>, w: Widget)
    requires |ws| >= 2
    ensures w in Reordered(ws) ==> w in ws && w.name in WidgetOrder
    ensures w.name in WidgetOrder && GetWidget(ws, w.name) == Some(w) ==> w in Reordered(ws)
  {
    PickMembers(WidgetOrder, ws);
    if w.name in WidgetOrder {
      var k :| 0 <= k < |WidgetOrder| && WidgetOrder[k] == w.name;
    }
  }

  /** The widget list after hiding the first widget called `name`, if any, and giving it a zero size. */
  function HideWidget(ws: seq<Widget>, name: string): (r: seq<Widget>)
    ensures |r| == |ws|
  {
    match FindWidget(ws, name)
    case None => ws
    case Some(i) => ws[i := ws[i].(hidden := true, size := FixedSize(0.0, 0.0))]
  }

  /** Hiding each of `names` in turn. */
  function HideAll(ws: seq<Widget>, names: seq<string>): (r: seq<Widget>)
    ensures |r| == |ws|
  {
    if |names| == 0 then ws else HideWidget(HideAll(ws, names[..|names| - 1]), names[|names| - 1])
  }

  /** The widget at `i` is the first one called by one of `names`. */
  predicate HiddenBy(ws: seq<Widget>, names: seq<string>, i: nat) {
    |names| > 0 && (FindWidget(ws, names[|names| - 1]) == Some(i) || HiddenBy(ws, names[..|names| - 1], i))
  }

  lemma {:induction false} HiddenByName(ws: seq<Widget>, names: seq<string>, k: nat)
    requires k < |names| && FindWidget(ws, names[k]).Some?
    ensures HiddenBy(ws, names, FindWidget(ws, names[k]).value)
  {
    if k < |names| - 1 {
      HiddenByName(ws, names[..|names| - 1], k);
    }
  }

  /**
   * Hiding a list of names hides exactly the first widget of each name: those
   * become hidden with a zero size, every other widget stays as it was, and
   * names and values are never touched.
   */
  lemma {:induction false} HideAllEffect(ws: seq<Widget>, names: seq<string>)
    ensures var r := HideAll(ws, names);
      forall i :: 0 <= i < |ws| ==>
        r[i] == if HiddenBy(ws, names, i) then ws[i].(hidden := true, size := FixedSize(0.0, 0.0)) else ws[i]
  {
    if |names| > 0 {
      var front := names[..|names| - 1];
      HideAllEffect(ws, front);
      HideStep(ws, front, names[|names| - 1]);
      assert names[..|names| - 1] == front;
    }
  }

  lemma HideStep(ws: seq<Widget>, front: seq<string>, n: string)
    requires var prev := HideAll(ws, front);
      forall i :: 0 <= i < |ws| ==>
        prev[i] == if HiddenBy(ws, front, i) then ws[i].(hidden := true, size := FixedSize(0.0, 0.0)) else ws[i]
    ensures var r := HideWidget(HideAll(ws, front), n);
      forall i :: 0 <= i < |ws| ==>
        r[i] == if FindWidget(ws, n) == Some(i) || HiddenBy(ws, front, i) then ws[i].(hidden := true, size := FixedSize(0.0, 0.0)) else ws[i]
  {
    var prev := HideAll(ws, front);
    assert forall j :: 0 <= j < |ws| ==> prev[j].name == ws[j].name;
    NamesDecideFind(prev, ws, n);
  }

  /** hideInternalWidgets: the loop over the four internal names. */
  method HideInternalWidgets(node: Node)
    modifies node`widgets
    ensures node.widgets == HideAll(old(node.widgets), InternalNames)
  {
    var i := 0;
    while i < |InternalNames|
      invariant 0 <= i <= |InternalNames|
      invariant node.widgets == HideAll(old(node.widgets), InternalNames[..i])
    {
      assert InternalNames[..i + 1][..i] == InternalNames[..i];
      var name := InternalNames[i];
      var found := FindWidget(node.widgets, name);
      if found.Some? {
        var k := found.value;
        node.widgets := node.widgets[k := node.widgets[k].(hidden := true, size := FixedSize(0.0, 0.0))];
      }
      i := i + 1;
    }
    assert InternalNames[..|InternalNames|] == InternalNames;
  }

  /** After hiding, each internal widget that exists is hidden, and the node's size no longer counts it. */
  lemma InternalWidgetsHidden(ws: seq<Widget>, name: string)
    requires name in InternalNames && GetWidget(ws, name).Some?
    ensures var r := HideAll(ws, InternalNames);
      GetWidget(r, name).Some? && GetWidget(r, name).value.hidden
      && GetWidget(r, name).value.name == name && GetWidget(r, name).value.value == GetWidget(ws, name).value.value
  {
    var r := HideAll(ws, InternalNames);
    HideAllEffect(ws, InternalNames);
    assert forall j :: 0 <= j < |ws| ==> r[j].name == ws[j].name;
    NamesDecideFind(r, ws, name);
    var k :| 0 <= k < |InternalNames| && InternalNames[k] == name;
    HiddenByName(ws, InternalNames, k);
  }

  predicate IsInternalInput(input: Input) {
    input.name in InternalNames
  }

  /**
   * onAdded and onConfigure: the internal inputs are removed, when
   * removeInputs' guard allows; one whose removal throws (`removable` false)
   * stays.
   */
  method RemoveInternalInputs(node: Node, removable: Input -> bool)
    modifies node`inputs
    ensures !RemovalAllowed(node.nodeType, node.id, old(node.inputs)) ==> node.inputs == old(node.inputs)
    ensures RemovalAllowed(node.nodeType, node.id, old(node.inputs)) ==>
      node.inputs.Some? && forall x :: x in node.inputs.value <==>
        x in old(node.inputs).value && (!IsInternalInput(x) || !removable(x))
  {
    if RemovalAllowed(node.nodeType, node.id, node.inputs) {
      RemovedMembers(node.inputs.value, IsInternalInput, removable);
    }
    RemoveInputs(node, IsInternalInput, removable);
  }

  /**
   * onDrawForeground after the preview image: nothing when collapsed.
   * Otherwise the ghost outline is drawn exactly while a shape tool is
   * dragging, and a pending resize is consumed: the flag is cleared, and the
   * node takes its computed size only when the computed height differs from
   * its current height.
   */
  method OnDrawForeground(node: Node, paddingX: int) returns (drawn: Option<Ghost>)
    requires node.Valid()
    modifies node`needsResize, node`sizeW, node`sizeH
    ensures node.collapsed ==>
      drawn.None? && node.needsResize == old(node.needsResize)
      && node.sizeW == old(node.sizeW) && node.sizeH == old(node.sizeH)
    ensures !node.collapsed ==>
      && !node.needsResize
      && (drawn.Some? <==> IsShapeTool(node.tool) && node.isDrawing)
      && (drawn.Some? ==> drawn == GhostShape(old(node.sizeW), old(node.sizeH), node.hasCanvas, node.width, node.height,
                                              node.lineStart, node.lastPos, node.strokeWidth, node.tool))
    ensures !node.collapsed && old(node.needsResize)
            && NodeHeight(node.hasCanvas, node.width, node.height, paddingX, old(node.sizeW), node.widgets) != old(node.sizeH) ==>
      && node.sizeW == NodeWidth(node.hasCanvas, node.width, paddingX)
      && node.sizeH == NodeHeight(node.hasCanvas, node.width, node.height, paddingX, old(node.sizeW), node.widgets)
    ensures !(!node.collapsed && old(node.needsResize)
              && NodeHeight(node.hasCanvas, node.width, node.height, paddingX, old(node.sizeW), node.widgets) != old(node.sizeH)) ==>
      node.sizeW == old(node.sizeW) && node.sizeH == old(node.sizeH)
  {
    drawn := None;
    if node.collapsed {
      return;
    }
    if IsShapeTool(node.tool) && node.isDrawing {
      drawn := GhostShape(node.sizeW, node.sizeH, node.hasCanvas, node.width, node.height,
                          node.lineStart, node.lastPos, node.strokeWidth, node.tool);
    }
    if node.needsResize {
      node.needsResize := false;
      var w, h := ComputeSize(node, paddingX);
      if h != node.sizeH {
        node.sizeW, node.sizeH := w, h;
      }
    }
  }

  /**
   * renderImage: the canvas takes the image's size (which clears it and
   * resets the context), is filled with the background colour, the width and
   * height widgets are set to the image's size, the image is drawn over the
   * fill, the node takes its computed size and the drawing is saved.
   */
  method RenderImage(node: Node, img: Grid, iw: int, ih: int, paddingX: int, cssColor: string -> Pixel)
    requires node.Valid() && iw >= 1 && ih >= 1 && IsGrid(img, iw, ih)
    modifies node`pixels, node`width, node`height, node`ctx, node`saved, node`widgets, node`sizeW, node`sizeH, node`saves
    ensures node.Valid() && fresh(node.pixels)
    ensures var bg := StrOr(node.backgroundColor, "#000000");
      && node.width == iw && node.height == ih
      && node.Image() == DrawImageOver(FillOver(Solid(iw, ih, Transparent), iw, ih, cssColor(bg)), img, iw, ih)
      && node.ctx == DefaultCtx.(fillStyle := Css(bg)) && node.saved == []
    ensures node.widgets == SetValueIn(SetValueIn(old(node.widgets), "width", Num(iw as real)), "height", Num(ih as real))
    ensures node.sizeW == NodeWidth(node.hasCanvas, iw, paddingX)
    ensures node.sizeH == NodeHeight(node.hasCanvas, iw, ih, paddingX, old(node.sizeW), node.widgets)
    ensures node.saves == old(node.saves) + 1
  {
    ResizeAndLabel(node, iw, ih, cssColor);
    DrawAndSave(node, img, paddingX);
  }

  /** The canvas is resized and filled, then the width and height widgets take the image's size. */
  method ResizeAndLabel(node: Node, iw: int, ih: int, cssColor: string -> Pixel)
    requires node.Valid() && iw >= 1 && ih >= 1
    modifies node`pixels, node`width, node`height, node`ctx, node`saved, node`widgets
    ensures node.Valid() && fresh(node.pixels)
    ensures var bg := StrOr(node.backgroundColor, "#000000");
      && node.width == iw && node.height == ih
      && node.Image() == FillOver(Solid(iw, ih, Transparent), iw, ih, cssColor(bg))
      && node.ctx == DefaultCtx.(fillStyle := Css(bg)) && node.saved == []
    ensures node.widgets == SetValueIn(SetValueIn(old(node.widgets), "width", Num(iw as real)), "height", Num(ih as real))
  {
    ClearToBackground(node, iw, ih, cssColor);
    SetResolutionWidgets(node, iw, ih);
  }

  /** The image is drawn over the canvas, the node takes its computed size and the drawing is saved. */
  method DrawAndSave(node: Node, img: Grid, paddingX: int)
    requires node.Valid() && IsGrid(img, node.width, node.height)
    modifies node.pixels, node`sizeW, node`sizeH, node`saves
    ensures node.Valid()
    ensures node.Image() == DrawImageOver(old(node.Image()), img, node.width, node.height)
    ensures node.sizeW == NodeWidth(node.hasCanvas, node.width, paddingX)
    ensures node.sizeH == NodeHeight(node.hasCanvas, node.width, node.height, paddingX, old(node.sizeW), node.widgets)
    ensures node.saves == old(node.saves) + 1
  {
    DrawImage(node, img);
    FitAndSave(node, paddingX);
  }

  /** A guarded set of a defined value is the raw assignment. */
  lemma SetIsAssign(ws: seq<Widget>, name: string, v: Value)
    requires v != Nil
    ensures SetValueIn(ws, name, v) == AssignValue(ws, name, v)
  {
  }

  /** The first steps of renderImage: the canvas is resized, then filled with the background colour. */
  method ClearToBackground(node: Node, iw: int, ih: int, cssColor: string -> Pixel)
    requires node.Valid() && iw >= 1 && ih >= 1
    modifies node`pixels, node`width, node`height, node`ctx, node`saved
    ensures node.Valid() && fresh(node.pixels)
    ensures var bg := StrOr(node.backgroundColor, "#000000");
      && node.width == iw && node.height == ih
      && node.Image() == FillOver(Solid(iw, ih, Transparent), iw, ih, cssColor(bg))
      && node.ctx == DefaultCtx.(fillStyle := Css(bg)) && node.saved == []
  {
    node.SetCanvasSize(iw, ih);
    FillBackground(node, cssColor);
  }

  /** `drawImage(img, 0, 0)` of an image the size of the canvas. */
  method DrawImage(node: Node, img: Grid)
    requires node.Valid() && IsGrid(img, node.width, node.height)
    modifies node.pixels
    ensures node.Image() == DrawImageOver(old(node.Image()), img, node.width, node.height)
  {
    Blit(node.pixels, DrawImageOver(node.Image(), img, node.width, node.height));
  }

  /** `setWidgetValue(this, "width", img.width)` and the same for the height. */
  method SetResolutionWidgets(node: Node, iw: int, ih: int)
    modifies node`widgets
    ensures node.widgets == SetValueIn(SetValueIn(old(node.widgets), "width", Num(iw as real)), "height", Num(ih as real))
  {
    SetWidgetValue(node, "width", Num(iw as real));
    SetWidgetValue(node, "height", Num(ih as real));
  }

  /** `fillStyle = backgroundColor || "#000000"; fillRect(...)` over the whole canvas. */
  method FillBackground(node: Node, cssColor: string -> Pixel)
    requires node.Valid()
    modifies node`ctx, node.pixels
    ensures node.ctx == old(node.ctx).(fillStyle := Css(StrOr(node.backgroundColor, "#000000")))
    ensures node.Image() == FillOver(old(node.Image()), node.width, node.height, cssColor(StrOr(node.backgroundColor, "#000000")))
  {
    var bg := StrOr(node.backgroundColor, "#000000");
    node.ctx := node.ctx.(fillStyle := Css(bg));
    Blit(node.pixels, FillOver(node.Image(), node.width, node.height, cssColor(bg)));
  }

  /** Once an image is rendered, the width and height widgets read back its size (when they exist). */
  lemma RenderedResolution(ws: seq<Widget>, iw: int, ih: int)
    requires GetWidget(ws, "width").Some? && GetWidget(ws, "height").Some?
    ensures var r := SetValueIn(SetValueIn(ws, "width", Num(iw as real)), "height", Num(ih as real));
      GetWidgetValue(r, "width", Nil) == Num(iw as real) && GetWidgetValue(r, "height", Nil) == Num(ih as real)
  {
    SetIsAssign(ws, "width", Num(iw as real));
    SetIsAssign(SetValueIn(ws, "width", Num(iw as real)), "height", Num(ih as real));
    assert ResolutionWidgets(ws, iw, ih) == AssignValue(AssignValue(ws, "width", Num(iw as real)), "height", Num(ih as real));
    ResolutionReadBack(ws, iw, ih);
  }
}
