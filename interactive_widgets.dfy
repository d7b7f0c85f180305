/**
 * The node's custom button widgets: the height a button widget asks for,
 * the hit test of its drawn buttons, and its hover / press / click state
 * machine.
 */
module InteractiveWidgets {
  import opened Common
  import opened Arith
  import opened Layouts

  /** The width a button widget lays itself out in when nothing else is known. */
  const FallbackWidth: real := 200.0

  /** `rects.reduce((m, r) => max(m, r.y + r.h), 0)`: the lowest bottom edge, never below 0. */
  function MaxBottom(rects: seq<Rect>): (r: int)
    ensures r >= 0
    ensures forall i :: 0 <= i < |rects| ==> rects[i].Bottom() <= r
    ensures r == 0 || exists i :: 0 <= i < |rects| && rects[i].Bottom() == r
  {
    if |rects| == 0 then 0
    else
      var m := MaxBottom(rects[..|rects| - 1]);
      var b := rects[|rects| - 1].Bottom();
      if m < b then b else m
  }

  /** The width computeSize lays out in: `availableWidth || node.size?.[0] || 200`. */
  function SizeWidth(availableWidth: real, nodeWidth: real): real {
    RealOr(availableWidth, RealOr(nodeWidth, FallbackWidth))
  }

  /**
   * computeSize: the layout of the elements in the width less the horizontal
   * padding, with the vertical padding as spacing; the height is the lowest
   * bottom edge plus the vertical padding above and below.
   */
  function ComputeSize(kind: LayoutKind, els: seq<Element>, availableWidth: real, nodeWidth: real): (r: (real, int))
    ensures r.0 == SizeWidth(availableWidth, nodeWidth)
    ensures r.1 >= 2 * PaddingY
  {
    var width := SizeWidth(availableWidth, nodeWidth);
    var rects := Layout(kind, els, width - (2 * PaddingX) as real, PaddingY);
    (width, MaxBottom(rects) + 2 * PaddingY)
  }

  /** A single row of buttons is one button high plus the padding, whatever the width. */
  lemma SingleRowHeight(els: seq<Element>, availableWidth: real, nodeWidth: real)
    requires |els| > 0
    ensures ComputeSize(SingleRow, els, availableWidth, nodeWidth).1 == ButtonHeight + 2 * PaddingY
  {
    var rects := SingleRowRects(els, PaddingY);
    assert rects[0].Bottom() == ButtonHeight;
  }

  /** The grid of buttons ends at the bottom of the row holding the last element. */
  lemma MultiRowHeight(els: seq<Element>, availableWidth: real, nodeWidth: real)
    requires |els| > 0
    ensures var width := SizeWidth(availableWidth, nodeWidth);
      var m := MaxPerRow(width - (2 * PaddingX) as real, PaddingY);
      ComputeSize(MultiRow, els, availableWidth, nodeWidth).1
        == ((|els| - 1) / m) * (ButtonHeight + PaddingY) + ButtonHeight + 2 * PaddingY
  {
    var width := SizeWidth(availableWidth, nodeWidth);
    var inner := width - (2 * PaddingX) as real;
    var m := MaxPerRow(inner, PaddingY);
    var rects := MultiRowRects(els, inner, PaddingY);
    var last := |els| - 1;
    forall i | 0 <= i < |els|
      ensures rects[i].Bottom() <= rects[last].Bottom()
    {
      DivMonotone(i, last, m);
      MulMonotone(i / m, last / m, ButtonHeight + PaddingY);
    }
    var mb := MaxBottom(rects);
    assert mb == rects[last].Bottom();
  }

  lemma DivMonotone(i: int, j: int, m: int)
    requires 0 <= i <= j && m >= 1
    ensures i / m <= j / m
  {
    assert i >= (i / m) * m && j < (j / m) * m + m;
    if i / m > j / m {
      StepApart(j / m, i / m, m);
    }
  }

  lemma MulMonotone(a: int, b: int, d: int)
    requires a <= b && d >= 0
    ensures a * d <= b * d
  {
    MulNonNeg(b - a, d);
    assert b * d - a * d == (b - a) * d;
  }

  /** A drawn button contains a point, edges included; it is drawn `xPad` right of its layout position and `yOffset` down. */
  predicate Hits(rect: Rect, x: real, y: real, yOffset: real) {
    var absX := (rect.x + PaddingX) as real;
    var absY := rect.y as real + yOffset;
    x >= absX && x <= absX + rect.w as real && y >= absY && y <= absY + rect.h as real
  }

  /** The first button containing the point, or -1. */
  function HitIndex(rects: seq<Rect>, x: real, y: real, yOffset: real): (r: int)
    ensures -1 <= r < |rects|
    ensures r >= 0 ==> Hits(rects[r], x, y, yOffset)
    ensures r >= 0 ==> forall j :: 0 <= j < r ==> !Hits(rects[j], x, y, yOffset)
    ensures r == -1 <==> forall j :: 0 <= j < |rects| ==> !Hits(rects[j], x, y, yOffset)
  {
    if |rects| == 0 then -1
    else if Hits(rects[0], x, y, yOffset) then 0
    else
      var k := HitIndex(rects[1..], x, y, yOffset);
      if k == -1 then -1 else k + 1
  }

  datatype PointerEvent = PointerMove | PointerDown | PointerUp | PointerLeave | OtherPointerEvent

  class InteractiveWidget {
    var name: string
    var hoveredIndex: int
    var activeIndex: int
    var elements: seq<Element>
    var layout: LayoutKind
    var buttonRects: Option<seq<Rect>>   // `_buttonRects`, unset until the first draw
    var lastYOffset: real                // `_lastYOffset`

    /** Both indices are -1 or name an element, and the drawn buttons are one per element. */
    predicate Valid()
      reads this
    {
      && -1 <= hoveredIndex < |elements|
      && -1 <= activeIndex < |elements|
      && (buttonRects.Some? ==> |buttonRects.value| == |elements|)
    }

    /** createInteractiveWidget: nothing hovered, nothing pressed, nothing drawn yet. */
    constructor(name: string, elements: seq<Element>, layout: LayoutKind)
      ensures Valid()
      ensures this.name == name && this.elements == elements && this.layout == layout
      ensures hoveredIndex == -1 && activeIndex == -1 && buttonRects.None?
    {
      this.name := name;
      this.elements := elements;
      this.layout := layout;
      hoveredIndex, activeIndex := -1, -1;
      buttonRects := None;
      lastYOffset := 0.0;
    }

    /** draw: lays the buttons out in `width` less the padding and remembers where they went. */
    method Draw(width: real, yOffset: real)
      requires Valid()
      modifies this`buttonRects, this`lastYOffset
      ensures Valid()
      ensures lastYOffset == yOffset
      ensures buttonRects == Some(Layout(layout, elements, width - (2 * PaddingX) as real, PaddingY))
    {
      lastYOffset := yOffset;
      var rects := RunLayout(layout, elements, width - (2 * PaddingX) as real, PaddingY);
      buttonRects := Some(rects);
    }

    /** The hit-test loop of `mouse`: the first drawn button under the point, or -1. */
    method HitTest(rects: seq<Rect>, x: real, y: real) returns (hit: int)
      ensures hit == HitIndex(rects, x, y, lastYOffset)
    {
      hit := -1;
      var i := 0;
      while i < |rects|
        invariant 0 <= i <= |rects|
        invariant forall j :: 0 <= j < i ==> !Hits(rects[j], x, y, lastYOffset)
      {
        if Hits(rects[i], x, y, lastYOffset) {
          hit := i;
          break;
        }
        i := i + 1;
      }
    }

    /**
     * mouse: before the first draw nothing is handled and nothing changes.
     * Otherwise a move hovers the button under the pointer, a press makes it
     * active, a release fires the action of the button that was both pressed
     * and released on and clears the press, and leaving clears both. The event
     * is handled exactly when it is over a button.
     */
    method Mouse(ev: PointerEvent, x: real, y: real) returns (handled: bool, fired: Option<nat>)
      requires Valid()
      modifies this`hoveredIndex, this`activeIndex
      ensures Valid()
      ensures buttonRects.None? ==>
        !handled && fired.None? && hoveredIndex == old(hoveredIndex) && activeIndex == old(activeIndex)
      ensures buttonRects.Some? ==>
        var hit := HitIndex(buttonRects.value, x, y, lastYOffset);
        && handled == (hit != -1)
        && hoveredIndex == (if ev == PointerMove then hit else if ev == PointerLeave then -1 else old(hoveredIndex))
        && activeIndex == (if ev == PointerDown then hit else if ev == PointerUp || ev == PointerLeave then -1 else old(activeIndex))
        && fired == (if ev == PointerUp && old(activeIndex) == hit && hit != -1 && elements[hit].hasAction
                     then Some(hit) else None)
      ensures fired.Some? ==> fired.value < |elements| && elements[fired.value].hasAction
    {
      fired := None;
      if buttonRects.None? {
        return false, None;
      }
      var hit := HitTest(buttonRects.value, x, y);
      match ev {
      case PointerMove =>
        hoveredIndex := hit;
      case PointerDown =>
        activeIndex := hit;
      case PointerUp =>
        if activeIndex == hit && hit != -1 && elements[hit].hasAction {
          fired := Some(hit);
        }
        activeIndex := -1;
      case PointerLeave =>
        hoveredIndex := -1;
        activeIndex := -1;
      case OtherPointerEvent =>
      }
      handled := hit != -1;
    }
  }
}
