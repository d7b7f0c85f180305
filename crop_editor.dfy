/**
 * The crop editor: a row of five buttons, four that ask for a margin and one
 * that crops. The margins live in one record the buttons' actions overwrite;
 * each margin is clamped against the opposite one so that the two never add
 * up to more than the canvas side (512 when there is no canvas).
 *
 * The input and confirmation dialogs are not modelled: a margin dialog's
 * answer arrives as a `DialogAnswer`, the confirmation as a boolean.
 */
module CropEditor {
  import opened Common
  import opened Raster
  import opened Layouts
  import opened SketchNode
  import opened NodeUtils
  import opened CanvasUtils
  import opened InteractiveWidgets

  /** What the margin dialog hands back: nothing (cancelled), or the text `parseInt` read (`None` for NaN). */
  datatype DialogAnswer = Cancelled | Entered(parsed: Option<int>)

  /** `Math.max(0, parseInt(v, 10) || 0)`. */
  function Margin(parsed: Option<int>): (m: int)
    ensures m >= 0
    ensures parsed.Some? && parsed.value >= 0 ==> m == parsed.value
    ensures parsed.None? || parsed.value <= 0 ==> m == 0
  {
    MaxI(0, parsed.GetOr(0))
  }

  /** A margin clamped against the opposite margin on a side of length `max`. */
  function ClampMargin(value: int, opposite: int, max: int): (m: int)
    ensures m + opposite <= max
    ensures m <= value
    ensures value + opposite <= max ==> m == value
    ensures value + opposite > max ==> m + opposite == max
  {
    MinI(value, max - opposite)
  }

  /** A clamped margin is negative only when the opposite margin alone exceeds the side. */
  lemma ClampNonNegative(value: int, opposite: int, max: int)
    requires value >= 0
    ensures ClampMargin(value, opposite, max) >= 0 <==> opposite <= max
  {
  }

  /** The buttons: left, right, top and bottom margins, then Crop, all with an action. */
  const CropElements: seq<Element> :=
    [Element(50, true), Element(50, true), Element(50, true), Element(50, true), Element(60, true)]

  /** The crop editor's row spans 260 pixels and its buttons do not overlap. */
  lemma CropRowWidth()
    ensures var rs := SingleRowRects(CropElements, SingleRowSpacing);
      |rs| == 5 && rs[4].Right() == 260
      && forall i, j :: 0 <= i < j < 5 ==> rs[i].Right() <= rs[j].x
  {
    var rs := SingleRowRects(CropElements, SingleRowSpacing);
    assert PrefixWidth(CropElements, 1) == 50;
    assert PrefixWidth(CropElements, 2) == 100;
    assert PrefixWidth(CropElements, 3) == 150;
    assert PrefixWidth(CropElements, 4) == 200;
    forall i, j | 0 <= i < j < 5
      ensures rs[i].Right() <= rs[j].x
    {
      SingleRowDisjoint(CropElements, SingleRowSpacing, i, j);
    }
  }

  /** `cropData`: the four margins. */
  class CropData {
    var left: int
    var right: int
    var top: int
    var bottom: int

    /** Every margin starts at 0. */
    constructor()
      ensures left == 0 && right == 0 && top == 0 && bottom == 0
    {
      left, right, top, bottom := 0, 0, 0, 0;
    }

    /** The left button's dialog callback: a cancelled dialog changes nothing. */
    method SetLeft(answer: DialogAnswer, node: Node)
      modifies this`left
      ensures answer.Cancelled? ==> left == old(left)
      ensures answer.Entered? ==> left == ClampMargin(Margin(answer.parsed), right, MaxX(node)) && left + right <= MaxX(node)
    {
      if answer.Entered? {
        var value := Margin(answer.parsed);
        left := ClampMargin(value, right, MaxX(node));
      }
    }

    method SetRight(answer: DialogAnswer, node: Node)
      modifies this`right
      ensures answer.Cancelled? ==> right == old(right)
      ensures answer.Entered? ==> right == ClampMargin(Margin(answer.parsed), left, MaxX(node)) && left + right <= MaxX(node)
    {
      if answer.Entered? {
        var value := Margin(answer.parsed);
        right := ClampMargin(value, left, MaxX(node));
      }
    }

    method SetTop(answer: DialogAnswer, node: Node)
      modifies this`top
      ensures answer.Cancelled? ==> top == old(top)
      ensures answer.Entered? ==> top == ClampMargin(Margin(answer.parsed), bottom, MaxY(node)) && top + bottom <= MaxY(node)
    {
      if answer.Entered? {
        var value := Margin(answer.parsed);
        top := ClampMargin(value, bottom, MaxY(node));
      }
    }

    method SetBottom(answer: DialogAnswer, node: Node)
      modifies this`bottom
      ensures answer.Cancelled? ==> bottom == old(bottom)
      ensures answer.Entered? ==> bottom == ClampMargin(Margin(answer.parsed), top, MaxY(node)) && top + bottom <= MaxY(node)
    {
      if answer.Entered? {
        var value := Margin(answer.parsed);
        bottom := ClampMargin(value, top, MaxY(node));
      }
    }
  }

  /** The Crop button's guard: with a canvas, margins that leave no column or no row are refused. */
  predicate CropRefused(hasCanvas: bool, width: int, height: int, left: int, right: int, top: int, bottom: int) {
    hasCanvas && (left + right >= width || top + bottom >= height)
  }

  /** The button's guard and applyCrop's own check agree: on a canvas, a crop that passes the guard is never empty. */
  lemma GuardMatchesCrop(width: int, height: int, left: int, right: int, top: int, bottom: int)
    ensures !CropRefused(true, width, height, left, right, top, bottom)
            <==> CropSize(width, height, left, right, top, bottom).Some?
  {
  }

  datatype CropOutcome =
    | Refused                 // the "exceed canvas size" notice; nothing else happens
    | Declined                // the confirmation was answered no
    | NoCanvas                // confirmed without a canvas: applyCrop fails reading its width
    | Cropped(threw: bool)    // applyCrop ran; `threw` says its updateResolution call failed

  /**
   * The Crop button's action: refused by the guard, otherwise applyCrop with
   * the current margins once the user confirms.
   */
  method CropPressed(node: Node, data: CropData, confirmed: bool, cssColor: string -> Pixel)
    returns (outcome: CropOutcome)
    requires node.Valid()
    modifies node`widgets, node`pixels, node`width, node`height, node`ctx, node`saved, node`needsResize, node`saves
    ensures node.Valid()
    ensures outcome.Refused? <==>
      CropRefused(old(node.hasCanvas), old(node.width), old(node.height), data.left, data.right, data.top, data.bottom)
    ensures outcome.Declined? <==> !outcome.Refused? && !confirmed
    ensures outcome.NoCanvas? <==> !old(node.hasCanvas) && confirmed
    ensures !outcome.Cropped? ==>
      && node.widgets == old(node.widgets) && node.pixels == old(node.pixels)
      && node.width == old(node.width) && node.height == old(node.height)
      && node.ctx == old(node.ctx) && node.saved == old(node.saved)
      && node.needsResize == old(node.needsResize) && node.saves == old(node.saves)
    ensures outcome.Cropped? ==>
      var (nw, nh) := (old(node.width) - data.left - data.right, old(node.height) - data.top - data.bottom);
      && nw >= 1 && nh >= 1 && fresh(node.pixels) && node.width == nw && node.height == nh
      && node.Image() == CropGrid(old(node.Image()), old(node.width), old(node.height), data.left, data.top, nw, nh)
      && node.ctx == DefaultCtx && node.saved == [] && node.needsResize
      && outcome.threw == ResolutionThrows(old(node.widgets))
      && node.widgets == ResolutionWidgets(old(node.widgets), nw, nh)
      && node.saves == old(node.saves) + (if outcome.threw then 0 else 1)
  {
    if CropRefused(node.hasCanvas, node.width, node.height, data.left, data.right, data.top, data.bottom) {
      return Refused;
    }
    if !confirmed {
      return Declined;
    }
    if !node.hasCanvas {
      return NoCanvas;
    }
    GuardMatchesCrop(node.width, node.height, data.left, data.right, data.top, data.bottom);
    var threw := ApplyCrop(node, data.left, data.right, data.top, data.bottom, cssColor);
    return Cropped(threw);
  }

  /** `getMaxX`: the canvas width, or 512 without a canvas. */
  function MaxX(node: Node): int
    reads node
  {
    CanvasWidthOr512(node.hasCanvas, node.width)
  }

  function MaxY(node: Node): int
    reads node
  {
    CanvasHeightOr512(node.hasCanvas, node.height)
  }

  /**
   * After any sequence of margin edits on an unchanged canvas, both pairs of
   * margins fit the canvas, so the guard can only refuse when a pair uses up
   * the full side exactly.
   */
  lemma EditedMarginsFit(width: int, height: int, left: int, right: int, top: int, bottom: int)
    requires left + right <= width && top + bottom <= height
    ensures CropRefused(true, width, height, left, right, top, bottom) <==> left + right == width || top + bottom == height
  {
  }
}
