/**
 * The whole-image operations on a node's drawing canvas: resize, crop,
 * flip, quarter-turn rotation, colour inversion, reset to the background,
 * wrap-around offset and blur, together with the node's updateResolution
 * that resize and crop go through.
 *
 * Every operation that ends by calling sendDrawingToBackend increments
 * `saves`; those that save and restore the context state leave `ctx` and the
 * save stack as they were, which the frames below state by leaving `ctx` and
 * `saved` out of what the method may modify.
 */
module CanvasUtils {
  import opened Common
  import opened Arith
  import opened Raster
  import opened SketchNode
  import opened NodeUtils
  import opened NodeSize

  /** `widget.value = v` on the named widget; a missing widget is where the source throws. */
  function AssignValue(ws: seq<Widget>, name: string, v: Value): (r: seq<Widget>)
    ensures |r| == |ws|
    ensures FindWidget(ws, name).Some? ==>
      var i := FindWidget(ws, name).value;
      r == ws[i := ws[i].(value := v)] && FindWidget(r, name) == Some(i)
    ensures FindWidget(ws, name).None? ==> r == ws
  {
    match FindWidget(ws, name)
    case None => ws
    case Some(i) =>
      var r := ws[i := ws[i].(value := v)];
      assert forall j :: 0 <= j < i ==> r[j].name != name;
      FindFirst(r, name, i);
      r
  }

  /** The widget list after updateResolution: width first, then height, stopping at the first missing one. */
  function ResolutionWidgets(ws: seq<Widget>, w: int, h: int): seq<Widget> {
    if FindWidget(ws, "width").None? then ws
    else AssignValue(AssignValue(ws, "width", Num(w as real)), "height", Num(h as real))
  }

  /** updateResolution throws exactly when the width or height widget is missing. */
  predicate ResolutionThrows(ws: seq<Widget>) {
    FindWidget(ws, "width").None? || FindWidget(ws, "height").None?
  }

  /** When both widgets exist, they read back the new resolution afterwards. */
  lemma ResolutionReadBack(ws: seq<Widget>, w: int, h: int)
    requires !ResolutionThrows(ws)
    ensures GetWidgetValue(ResolutionWidgets(ws, w, h), "width", Nil) == Num(w as real)
    ensures GetWidgetValue(ResolutionWidgets(ws, w, h), "height", Nil) == Num(h as real)
  {
    var ws1 := AssignValue(ws, "width", Num(w as real));
    var i := FindWidget(ws, "width").value;
    var j := FindWidget(ws, "height").value;
    assert ws[j].name == "height";
    assert i != j;
    assert ws1[j] == ws[j];
    assert FindWidget(ws1, "height").Some?;
    var ws2 := AssignValue(ws1, "height", Num(h as real));
    var k := FindWidget(ws1, "height").value;
    assert ws1[k].name == "height";
    assert k != i;
    assert ws2[i] == ws1[i];
    assert forall m :: 0 <= m < i ==> ws2[m].name != "width";
    FindFirst(ws2, "width", i);
  }

  /**
   * resizeCanvas: with the size unchanged nothing happens at all. Otherwise
   * the canvas takes the new size (which resets the context), is filled with
   * the node's background colour (`#000000` when unset), has the old image,
   * stretched to the new size, drawn over it, is marked for a node resize and
   * is saved. The browser's stretched copy is the parameter `scaled`, and
   * `cssColor` is the colour a CSS colour string paints.
   */
  method ResizeCanvas(node: Node, w: int, h: int, scaled: Grid, cssColor: string -> Pixel)
    requires node.Valid() && node.hasCanvas && w >= 1 && h >= 1 && IsGrid(scaled, w, h)
    modifies node`pixels, node`width, node`height, node`ctx, node`saved, node`needsResize, node`saves
    ensures node.Valid()
    ensures old(node.width) == w && old(node.height) == h ==>
      && node.pixels == old(node.pixels) && node.width == w && node.height == h
      && node.ctx == old(node.ctx) && node.saved == old(node.saved)
      && node.needsResize == old(node.needsResize) && node.saves == old(node.saves)
    ensures !(old(node.width) == w && old(node.height) == h) ==>
      var bg := StrOr(node.backgroundColor, "#000000");
      && fresh(node.pixels) && node.width == w && node.height == h
      && node.Image() == DrawImageOver(FillOver(Solid(w, h, Transparent), w, h, cssColor(bg)), scaled, w, h)
      && node.ctx == DefaultCtx.(fillStyle := Css(bg)) && node.saved == []
      && node.needsResize && node.saves == old(node.saves) + 1
  {
    if node.width == w && node.height == h {
      return;
    }
    node.SetCanvasSize(w, h);
    var bg := StrOr(node.backgroundColor, "#000000");
    node.ctx := node.ctx.(fillStyle := Css(bg));
    var filled := FillOver(node.Image(), w, h, cssColor(bg));
    Blit(node.pixels, DrawImageOver(filled, scaled, w, h));
    node.needsResize := true;
    node.SendDrawingToBackend();
  }

  /**
   * updateResolution: writes the width and height widget values directly,
   * then resizes the canvas. A missing widget throws before anything else
   * happens (the width is written already when only the height is missing).
   */
  method UpdateResolution(node: Node, w: int, h: int, scaled: Grid, cssColor: string -> Pixel) returns (threw: bool)
    requires node.Valid() && node.hasCanvas && w >= 1 && h >= 1 && IsGrid(scaled, w, h)
    modifies node`widgets, node`pixels, node`width, node`height, node`ctx, node`saved, node`needsResize, node`saves
    ensures node.Valid()
    ensures threw == ResolutionThrows(old(node.widgets))
    ensures node.widgets == ResolutionWidgets(old(node.widgets), w, h)
    ensures threw || (old(node.width) == w && old(node.height) == h) ==>
      && node.pixels == old(node.pixels) && node.width == old(node.width) && node.height == old(node.height)
      && node.ctx == old(node.ctx) && node.saved == old(node.saved)
      && node.needsResize == old(node.needsResize) && node.saves == old(node.saves)
    ensures !threw && !(old(node.width) == w && old(node.height) == h) ==>
      var bg := StrOr(node.backgroundColor, "#000000");
      && fresh(node.pixels) && node.width == w && node.height == h
      && node.Image() == DrawImageOver(FillOver(Solid(w, h, Transparent), w, h, cssColor(bg)), scaled, w, h)
      && node.ctx == DefaultCtx.(fillStyle := Css(bg)) && node.saved == []
      && node.needsResize && node.saves == old(node.saves) + 1
  {
    if FindWidget(node.widgets, "width").None? {
      return true;
    }
    node.widgets := AssignValue(node.widgets, "width", Num(w as real));
    assert FindWidget(node.widgets, "height") == FindWidget(old(node.widgets), "height") by {
      HeightUnaffected(old(node.widgets), w);
    }
    if FindWidget(node.widgets, "height").None? {
      return true;
    }
    node.widgets := AssignValue(node.widgets, "height", Num(h as real));
    ResizeCanvas(node, w, h, scaled, cssColor);
    threw := false;
  }

  /** Writing the width widget does not move the height widget. */
  lemma HeightUnaffected(ws: seq<Widget>, w: int)
    ensures FindWidget(AssignValue(ws, "width", Num(w as real)), "height") == FindWidget(ws, "height")
  {
    var r := AssignValue(ws, "width", Num(w as real));
    assert forall j :: 0 <= j < |ws| ==> r[j].name == ws[j].name;
    NamesDecideFind(ws, r, "height");
  }

  lemma {:induction false} NamesDecideFind(a: seq<Widget>, b: seq<Widget>, name: string)
    requires |a| == |b| && forall j :: 0 <= j < |a| ==> a[j].name == b[j].name
    ensures FindWidget(a, name) == FindWidget(b, name)
  {
    if |a| > 0 {
      NamesDecideFind(a[1..], b[1..], name);
    }
  }

  /**
   * `canvas.width = w; canvas.height = h` followed by drawing a `w`-by-`h`
   * image onto the cleared canvas: the image becomes the canvas content and
   * the context is back at its defaults.
   */
  method ReplaceCanvas(node: Node, w: int, h: int, image: Grid)
    requires node.Valid() && w >= 1 && h >= 1 && IsGrid(image, w, h)
    modifies node`pixels, node`width, node`height, node`ctx, node`saved
    ensures node.Valid() && fresh(node.pixels)
    ensures node.width == w && node.height == h && node.Image() == image
    ensures node.ctx == DefaultCtx && node.saved == []
  {
    node.SetCanvasSize(w, h);
    Blit(node.pixels, image);
  }

  /** The size a crop leaves, or nothing when a margin pair eats the whole side. */
  function CropSize(w: int, h: int, left: int, right: int, top: int, bottom: int): (r: Option<(int, int)>)
    ensures r.Some? <==> w - left - right > 0 && h - top - bottom > 0
    ensures r.Some? ==> r.value.0 + left + right == w && r.value.1 + top + bottom == h
  {
    var nw, nh := w - left - right, h - top - bottom;
    if nw <= 0 || nh <= 0 then None else Some((nw, nh))
  }

  /**
   * applyCrop: when the margins leave a non-empty image, the canvas becomes
   * that sub-image (positions the source rectangle does not cover are
   * transparent), the context is reset by the resize, a node resize is
   * requested, updateResolution records the new size in the widgets (its own
   * resize has nothing left to do) and the drawing is saved unless
   * updateResolution threw. Otherwise nothing changes.
   */
  method ApplyCrop(node: Node, left: int, right: int, top: int, bottom: int, cssColor: string -> Pixel)
    returns (threw: bool)
    requires node.Valid() && node.hasCanvas
    modifies node`widgets, node`pixels, node`width, node`height, node`ctx, node`saved, node`needsResize, node`saves
    ensures node.Valid()
    ensures CropSize(old(node.width), old(node.height), left, right, top, bottom).None? ==>
      && !threw && node.widgets == old(node.widgets)
      && node.pixels == old(node.pixels) && node.width == old(node.width) && node.height == old(node.height)
      && node.ctx == old(node.ctx) && node.saved == old(node.saved)
      && node.needsResize == old(node.needsResize) && node.saves == old(node.saves)
    ensures CropSize(old(node.width), old(node.height), left, right, top, bottom).Some? ==>
      var (nw, nh) := CropSize(old(node.width), old(node.height), left, right, top, bottom).value;
      && fresh(node.pixels) && node.width == nw && node.height == nh
      && node.Image() == CropGrid(old(node.Image()), old(node.width), old(node.height), left, top, nw, nh)
      && node.ctx == DefaultCtx && node.saved == [] && node.needsResize
      && threw == ResolutionThrows(old(node.widgets))
      && node.widgets == ResolutionWidgets(old(node.widgets), nw, nh)
      && node.saves == old(node.saves) + (if threw then 0 else 1)
  {
    var size := CropSize(node.width, node.height, left, right, top, bottom);
    if size.None? {
      return false;
    }
    var (nw, nh) := size.value;
    threw := CropCanvas(node, left, top, nw, nh, cssColor);
  }

  /** applyCrop once the margins leave an `nw` by `nh` canvas. */
  method CropCanvas(node: Node, left: int, top: int, nw: int, nh: int, cssColor: string -> Pixel)
    returns (threw: bool)
    requires node.Valid() && node.hasCanvas && nw >= 1 && nh >= 1
    modifies node`widgets, node`pixels, node`width, node`height, node`ctx, node`saved, node`needsResize, node`saves
    ensures node.Valid()
    ensures && fresh(node.pixels) && node.width == nw && node.height == nh
      && node.Image() == CropGrid(old(node.Image()), old(node.width), old(node.height), left, top, nw, nh)
      && node.ctx == DefaultCtx && node.saved == [] && node.needsResize
      && threw == ResolutionThrows(old(node.widgets))
      && node.widgets == ResolutionWidgets(old(node.widgets), nw, nh)
      && node.saves == old(node.saves) + (if threw then 0 else 1)
  {
    ReplaceCanvas(node, nw, nh, CropGrid(node.Image(), node.width, node.height, left, top, nw, nh));
    node.needsResize := true;
    threw := UpdateResolution(node, nw, nh, node.Image(), cssColor);
    if threw {
      return;
    }
    node.SendDrawingToBackend();
  }

  /**
   * flipX: the mirrored copy is drawn over the canvas at full alpha with
   * source-over, without clearing the canvas first; the context state is
   * restored afterwards. On an opaque canvas this is the exact mirror image.
   */
  method FlipX(node: Node)
    requires node.Valid() && node.hasCanvas
    modifies node.pixels, node`saves
    ensures node.Image() == FlipXOverGrid(old(node.Image()), node.width, node.height)
    ensures Opaque(old(node.Image()), node.width, node.height) ==>
      node.Image() == FlipXGrid(old(node.Image()), node.width, node.height)
    ensures node.saves == old(node.saves) + 1
  {
    if Opaque(node.Image(), node.width, node.height) {
      FlipXOverOpaque(node.Image(), node.width, node.height);
    }
    Blit(node.pixels, FlipXOverGrid(node.Image(), node.width, node.height));
    node.SendDrawingToBackend();
  }

  /** flipY: as flipX, across the horizontal axis. */
  method FlipY(node: Node)
    requires node.Valid() && node.hasCanvas
    modifies node.pixels, node`saves
    ensures node.Image() == FlipYOverGrid(old(node.Image()), node.width, node.height)
    ensures Opaque(old(node.Image()), node.width, node.height) ==>
      node.Image() == FlipYGrid(old(node.Image()), node.width, node.height)
    ensures node.saves == old(node.saves) + 1
  {
    if Opaque(node.Image(), node.width, node.height) {
      FlipYOverOpaque(node.Image(), node.width, node.height);
    }
    Blit(node.pixels, FlipYOverGrid(node.Image(), node.width, node.height));
    node.SendDrawingToBackend();
  }

  /** `angleDegrees % 180 !== 0`: the turn swaps width and height. */
  predicate IsVertical(angle: int) {
    JsRem(angle, 180) != 0
  }

  /** The number of clockwise quarter turns a multiple of 90 degrees makes, in 0..3. */
  function QuarterTurns(angle: int): (q: nat)
    ensures q < 4
  {
    (angle / 90) % 4
  }

  /** For multiples of 90 degrees, the dimensions swap exactly when the quarter turns are odd. */
  lemma VerticalIffOddTurns(angle: int)
    requires angle % 90 == 0
    ensures IsVertical(angle) <==> QuarterTurns(angle) % 2 == 1
  {
    var k := angle / 90;
    assert angle == 90 * k;
    var q := k % 4;
    assert k == (k / 4) * 4 + q;
    var m := k / 4;
    if angle >= 0 {
      assert JsRem(angle, 180) == angle % 180;
    } else {
      assert JsRem(angle, 180) == -((-angle) % 180);
    }
    assert angle % 180 == 0 <==> q % 2 == 0 by {
      if q % 2 == 0 {
        assert angle == (2 * m + q / 2) * 180;
        DivModUnique(angle, 180, 2 * m + q / 2, 0);
      } else {
        assert angle == (2 * m + q / 2) * 180 + 90;
        DivModUnique(angle, 180, 2 * m + q / 2, 90);
      }
    }
    assert (-angle) % 180 == 0 <==> q % 2 == 0 by {
      if q % 2 == 0 {
        assert -angle == (-(2 * m + q / 2)) * 180;
        DivModUnique(-angle, 180, -(2 * m + q / 2), 0);
      } else {
        assert -angle == (-(2 * m + q / 2) - 1) * 180 + 90;
        DivModUnique(-angle, 180, -(2 * m + q / 2) - 1, 90);
      }
    }
  }

  /** The image rotate draws: the exact quarter turns for multiples of 90 degrees, the browser's rendering otherwise. */
  function TurnedImage(g: Grid, w: nat, h: nat, angle: int, turned: Grid): (r: Grid)
    requires IsGrid(g, w, h)
    requires IsGrid(turned, if IsVertical(angle) then h else w, if IsVertical(angle) then w else h)
    ensures IsGrid(r, if IsVertical(angle) then h else w, if IsVertical(angle) then w else h)
    ensures angle % 90 == 0 ==> r == RotateGrid(g, w, h, QuarterTurns(angle))
    ensures angle % 90 != 0 ==> r == turned
  {
    if angle % 90 == 0 then
      VerticalIffOddTurns(angle);
      RotateGrid(g, w, h, QuarterTurns(angle))
    else turned
  }

  /**
   * rotate: the canvas takes the turned size (swapped exactly when the angle
   * is not a multiple of 180), which resets the context, so the alpha and
   * composite it "restores" are the defaults. For multiples of 90 degrees
   * the image is the exact quarter turn; for any other angle the browser's
   * rotated rendering is the parameter `turned`. Then updateResolution runs,
   * the node takes its computed size, and the drawing is saved, unless
   * updateResolution threw.
   */
  method Rotate(node: Node, angle: int, turned: Grid, paddingX: int, cssColor: string -> Pixel)
    returns (threw: bool)
    requires node.Valid() && node.hasCanvas
    requires IsGrid(turned, if IsVertical(angle) then node.height else node.width,
                            if IsVertical(angle) then node.width else node.height)
    modifies node`widgets, node`pixels, node`width, node`height, node`ctx, node`saved,
             node`needsResize, node`saves, node`sizeW, node`sizeH
    ensures node.Valid() && fresh(node.pixels)
    ensures IsVertical(angle) ==> node.width == old(node.height) && node.height == old(node.width)
    ensures !IsVertical(angle) ==> node.width == old(node.width) && node.height == old(node.height)
    ensures node.Image() == TurnedImage(old(node.Image()), old(node.width), old(node.height), angle, turned)
    ensures node.ctx == DefaultCtx && node.saved == [] && node.needsResize == old(node.needsResize)
    ensures threw == ResolutionThrows(old(node.widgets))
    ensures node.widgets == ResolutionWidgets(old(node.widgets), node.width, node.height)
    ensures !threw ==>
      && node.sizeW == NodeWidth(true, node.width, paddingX)
      && node.sizeH == NodeHeight(true, node.width, node.height, paddingX, old(node.sizeW), node.widgets)
      && node.saves == old(node.saves) + 1
    ensures threw ==> node.sizeW == old(node.sizeW) && node.sizeH == old(node.sizeH) && node.saves == old(node.saves)
  {
    var w, h := node.width, node.height;
    var nw, nh := if IsVertical(angle) then h else w, if IsVertical(angle) then w else h;
    ReplaceCanvas(node, nw, nh, TurnedImage(node.Image(), w, h, angle, turned));
    threw := AdoptCanvasSize(node, paddingX, cssColor);
  }

  /**
   * The tail of rotate: `updateResolution(canvas.width, canvas.height)`,
   * whose resize finds nothing to do, then `setSize(computeSize())` and the
   * save, unless updateResolution threw.
   */
  method AdoptCanvasSize(node: Node, paddingX: int, cssColor: string -> Pixel) returns (threw: bool)
    requires node.Valid() && node.hasCanvas
    modifies node`widgets, node`pixels, node`width, node`height, node`ctx, node`saved,
             node`needsResize, node`saves, node`sizeW, node`sizeH
    ensures node.Valid()
    ensures node.pixels == old(node.pixels) && node.width == old(node.width) && node.height == old(node.height)
    ensures node.ctx == old(node.ctx) && node.saved == old(node.saved) && node.needsResize == old(node.needsResize)
    ensures threw == ResolutionThrows(old(node.widgets))
    ensures node.widgets == ResolutionWidgets(old(node.widgets), node.width, node.height)
    ensures !threw ==>
      && node.sizeW == NodeWidth(true, node.width, paddingX)
      && node.sizeH == NodeHeight(true, node.width, node.height, paddingX, old(node.sizeW), node.widgets)
      && node.saves == old(node.saves) + 1
    ensures threw ==> node.sizeW == old(node.sizeW) && node.sizeH == old(node.sizeH) && node.saves == old(node.saves)
  {
    threw := UpdateResolution(node, node.width, node.height, node.Image(), cssColor);
    if !threw {
      FitAndSave(node, paddingX);
    }
  }

  /** `node.setSize(node.computeSize())` followed by the save. */
  method FitAndSave(node: Node, paddingX: int)
    modifies node`sizeW, node`sizeH, node`saves
    ensures node.sizeW == NodeWidth(node.hasCanvas, node.width, paddingX)
    ensures node.sizeH == NodeHeight(node.hasCanvas, node.width, node.height, paddingX, old(node.sizeW), node.widgets)
    ensures node.saves == old(node.saves) + 1
  {
    var sw, sh := ComputeSize(node, paddingX);
    node.sizeW, node.sizeH := sw, sh;
    node.SendDrawingToBackend();
  }

  /** The invert loop: walks the flat RGBA bytes four at a time and inverts the three colour bytes of each pixel. */
  method InvertBytes(data: array<byte>)
    requires data.Length % 4 == 0
    modifies data
    ensures data[..] == InvertData(old(data[..]))
  {
    ghost var d := data[..];
    var i := 0;
    while i < data.Length
      invariant 0 <= i <= data.Length && i % 4 == 0
      invariant forall j :: 0 <= j < i ==> data[j] == InvertData(d)[j]
      invariant forall j :: i <= j < data.Length ==> data[j] == d[j]
    {
      ByteIndex(i / 4, 1);
      ByteIndex(i / 4, 2);
      ByteIndex(i / 4, 3);
      data[i] := 255 - data[i];
      data[i + 1] := 255 - data[i + 1];
      data[i + 2] := 255 - data[i + 2];
      i := i + 4;
    }
    assert data[..] == InvertData(d);
  }

  /**
   * invertColors: reads the image data, inverts the colour bytes in place,
   * writes the data back and saves. Alpha is untouched, so every pixel is
   * inverted and inverting twice restores the canvas.
   */
  method InvertColors(node: Node)
    requires node.Valid() && node.hasCanvas
    modifies node.pixels, node`saves
    ensures node.Image() == FromImageData(InvertData(ImageData(old(node.Image()), node.width, node.height)), node.width, node.height)
    ensures node.Image() == InvertGrid(old(node.Image()), node.width, node.height)
    ensures node.saves == old(node.saves) + 1
  {
    var w, h := node.width, node.height;
    var d := ImageData(node.Image(), w, h);
    var data := new byte[|d|](i requires 0 <= i < |d| => d[i]);
    assert data[..] == d;
    InvertBytes(data);
    InvertDataIsInvertGrid(node.Image(), w, h);
    Blit(node.pixels, FromImageData(data[..], w, h));
    node.SendDrawingToBackend();
  }

  /**
   * resetDrawingCanvas: fills the whole canvas with the background widget's
   * colour (`#000000` when it is unset or empty) at full alpha, restores the
   * context state and saves. An opaque background leaves a solid canvas.
   */
  method ResetDrawingCanvas(node: Node, cssColor: string -> Pixel)
    requires node.Valid() && node.hasCanvas
    modifies node.pixels, node`saves
    ensures var bg := cssColor(StrOr(GetWidgetValue(node.widgets, "background", Nil), "#000000"));
      && node.Image() == FillOver(old(node.Image()), node.width, node.height, bg)
      && (bg.a == 255 ==> node.Image() == Solid(node.width, node.height, bg))
    ensures node.saves == old(node.saves) + 1
  {
    var bg := cssColor(StrOr(GetWidgetValue(node.widgets, "background", Nil), "#000000"));
    if bg.a == 255 {
      FillOverOpaque(node.Image(), node.width, node.height, bg);
    }
    Blit(node.pixels, FillOver(node.Image(), node.width, node.height, bg));
    node.SendDrawingToBackend();
  }

  /**
   * offsetDrawingCanvasWrapped: without a canvas nothing happens. Otherwise
   * the image data is put onto a blank temporary canvas at the wrapped
   * offset and, where the offsets are positive, again one width to the left,
   * one height up, and both; the temporary canvas then replaces the drawing
   * and the drawing is saved. The result is the toroidal shift of the image.
   */
  method OffsetDrawingCanvasWrapped(node: Node, dx: int, dy: int)
    requires node.Valid()
    modifies node.pixels, node`saves
    ensures !node.hasCanvas ==> node.Image() == old(node.Image()) && node.saves == old(node.saves)
    ensures node.hasCanvas ==>
      var ox, oy := WrapOffset(dx, node.width), WrapOffset(dy, node.height);
      && node.Image() == WrappedPlacements(old(node.Image()), node.width, node.height, ox, oy)
      && node.Image() == OffsetGrid(old(node.Image()), node.width, node.height, ox, oy)
      && node.saves == old(node.saves) + 1
  {
    if !node.hasCanvas {
      return;
    }
    var w, h := node.width, node.height;
    var image := node.Image();
    var ox, oy := WrapOffset(dx, w), WrapOffset(dy, h);
    var temp := WrappedCopy(image, w, h, ox, oy);
    WrappedPlacementsAreOffset(image, w, h, ox, oy);
    Blit(node.pixels, GridOf(temp));
    node.SendDrawingToBackend();
  }

  /** The temporary canvas of offsetDrawingCanvasWrapped, after its up to four putImageData calls. */
  method WrappedCopy(image: Grid, w: nat, h: nat, ox: int, oy: int) returns (temp: array2<Pixel>)
    requires IsGrid(image, w, h)
    ensures fresh(temp) && temp.Length0 == w && temp.Length1 == h
    ensures GridOf(temp) == WrappedPlacements(image, w, h, ox, oy)
  {
    temp := NewBitmap(w, h);
    ghost var g0 := GridOf(temp);
    PutImageData(temp, image, ox, oy);
    ghost var g1 := GridOf(temp);
    PutImageDataIf(ox > 0, temp, image, ox - w, oy);
    ghost var g2 := GridOf(temp);
    PutImageDataIf(oy > 0, temp, image, ox, oy - h);
    ghost var g3 := GridOf(temp);
    PutImageDataIf(ox > 0 && oy > 0, temp, image, ox - w, oy - h);
    WrappedChain(image, w, h, ox, oy, g0, g1, g2, g3, GridOf(temp));
  }

  /** `if (c) tempCtx.putImageData(...)`. */
  method PutImageDataIf(c: bool, a: array2<Pixel>, src: Grid, dx: int, dy: int)
    requires IsGrid(src, a.Length0, a.Length1)
    modifies a
    ensures GridOf(a) == PutIf(c, old(GridOf(a)), src, a.Length0, a.Length1, dx, dy)
  {
    if c {
      PutImageData(a, src, dx, dy);
    }
  }

  /**
   * applyBlur: without a canvas nothing happens. Otherwise the canvas is
   * replaced by its blurred copy (the browser's filter output, the parameter
   * `blurred`), the filter, alpha and composite are restored, and the drawing
   * is saved.
   */
  method ApplyBlur(node: Node, radius: real, blurred: Grid)
    requires node.Valid() && IsGrid(blurred, node.width, node.height)
    modifies node.pixels, node`saves
    ensures !node.hasCanvas ==> node.Image() == old(node.Image()) && node.saves == old(node.saves)
    ensures node.hasCanvas ==> node.Image() == blurred && node.saves == old(node.saves) + 1
  {
    if !node.hasCanvas {
      return;
    }
    Blit(node.pixels, blurred);
    node.SendDrawingToBackend();
  }
}
