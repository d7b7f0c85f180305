/**
 * Button layouts for the node's interactive widgets: a single row whose
 * buttons carry their own widths, and a wrapping grid of equal buttons.
 * Both produce one rectangle per element, in element order, in coordinates
 * relative to the widget's padded origin.
 */
module Layouts {
  import opened Common
  import opened Arith

  const ButtonWidth: int := 120
  const ButtonHeight: int := 20
  const SingleRowSpacing: nat := 0
  const MultiRowSpacing: nat := 5
  /** The padding every interactive widget applies round its layout; the y padding is also the spacing it asks for. */
  const PaddingX: int := 10
  const PaddingY: nat := 5

  /** A button description; `width == 0` stands for an element without a width of its own. */
  datatype Element = Element(width: nat, hasAction: bool)

  datatype Rect = Rect(x: int, y: int, w: int, h: int) {
    function Right(): int { x + w }
    function Bottom(): int { y + h }
  }

  datatype LayoutKind = SingleRow | MultiRow

  /** `el.width || BUTTON_WIDTH`. */
  function ElementWidth(el: Element): (w: nat)
    ensures w > 0
  {
    if el.width != 0 then el.width else ButtonWidth
  }

  /** The total width of the first `i` elements. */
  function PrefixWidth(els: seq<Element>, i: nat): (r: nat)
    requires i <= |els|
  {
    if i == 0 then 0 else PrefixWidth(els, i - 1) + ElementWidth(els[i - 1])
  }

  /** The rectangles singleRowLayout produces. */
  function SingleRowRects(els: seq<Element>, spacing: nat): (r: seq<Rect>)
    ensures |r| == |els|
  {
    seq(|els|, i requires 0 <= i < |els| =>
      Rect(PrefixWidth(els, i) + i * spacing, 0, ElementWidth(els[i]), ButtonHeight))
  }

  /** `max(1, floor((width + spacing) / (BUTTON_WIDTH + spacing)))`. */
  function MaxPerRow(width: real, spacing: nat): (m: int)
    ensures m >= 1
  {
    MaxI(1, ((width + spacing as real) / (ButtonWidth + spacing) as real).Floor)
  }

  /** The rectangles multiRowLayout produces. */
  function MultiRowRects(els: seq<Element>, width: real, spacing: nat): (r: seq<Rect>)
    ensures |r| == |els|
  {
    var m := MaxPerRow(width, spacing);
    seq(|els|, i requires 0 <= i < |els| =>
      Rect((i % m) * (ButtonWidth + spacing), (i / m) * (ButtonHeight + spacing), ButtonWidth, ButtonHeight))
  }

  function Layout(kind: LayoutKind, els: seq<Element>, width: real, spacing: nat): (r: seq<Rect>)
    ensures |r| == |els|
  {
    match kind
    case SingleRow => SingleRowRects(els, spacing)
    case MultiRow => MultiRowRects(els, width, spacing)
  }

  /** singleRowLayout: walks the elements once, advancing `x` by each width plus the spacing. */
  method SingleRowLayout(els: seq<Element>, width: real, spacing: nat) returns (positions: seq<Rect>)
    ensures positions == SingleRowRects(els, spacing)
  {
    ghost var want := SingleRowRects(els, spacing);
    positions := [];
    var x := 0;
    var i := 0;
    while i < |els|
      invariant 0 <= i <= |els|
      invariant x == PrefixWidth(els, i) + i * spacing
      invariant positions == want[..i]
    {
      var w := ElementWidth(els[i]);
      assert (i + 1) * spacing == i * spacing + spacing;
      assert want[i] == Rect(x, 0, w, ButtonHeight);
      positions := positions + [Rect(x, 0, w, ButtonHeight)];
      assert want[..i + 1] == want[..i] + [want[i]];
      x := x + w + spacing;
      i := i + 1;
    }
    assert want[..|els|] == want;
  }

  /** multiRowLayout: places element `i` at column `i mod maxPerRow` of row `i div maxPerRow`. */
  method MultiRowLayout(els: seq<Element>, width: real, spacing: nat) returns (positions: seq<Rect>)
    ensures positions == MultiRowRects(els, width, spacing)
  {
    positions := [];
    var maxPerRow := MaxI(1, ((width + spacing as real) / (ButtonWidth + spacing) as real).Floor);
    var i := 0;
    while i < |els|
      invariant 0 <= i <= |els|
      invariant |positions| == i
      invariant forall j :: 0 <= j < i ==>
        positions[j] == Rect((j % maxPerRow) * (ButtonWidth + spacing), (j / maxPerRow) * (ButtonHeight + spacing), ButtonWidth, ButtonHeight)
    {
      var row := i / maxPerRow;
      var col := i % maxPerRow;
      positions := positions + [Rect(col * (ButtonWidth + spacing), row * (ButtonHeight + spacing), ButtonWidth, ButtonHeight)];
      i := i + 1;
    }
  }

  /** `config.layout(...)` for either kind. */
  method RunLayout(kind: LayoutKind, els: seq<Element>, width: real, spacing: nat) returns (positions: seq<Rect>)
    ensures positions == Layout(kind, els, width, spacing)
  {
    match kind
    case SingleRow => positions := SingleRowLayout(els, width, spacing);
    case MultiRow => positions := MultiRowLayout(els, width, spacing);
  }

  lemma {:induction false} PrefixWidthMonotone(els: seq<Element>, i: nat, j: nat)
    requires i <= j <= |els|
    ensures PrefixWidth(els, i) <= PrefixWidth(els, j)
    decreases j - i
  {
    if i < j {
      PrefixWidthMonotone(els, i, j - 1);
    }
  }

  /** Every single-row button sits on the top line with the standard height and the element's own width. */
  lemma SingleRowShape(els: seq<Element>, spacing: nat, i: int)
    requires 0 <= i < |els|
    ensures var r := SingleRowRects(els, spacing)[i];
      r.y == 0 && r.h == ButtonHeight && r.w == ElementWidth(els[i]) && r.x >= i * spacing
  {
  }

  /** Single-row buttons appear left to right and never overlap: each ends at least `spacing` before the next begins. */
  lemma SingleRowDisjoint(els: seq<Element>, spacing: nat, i: int, j: int)
    requires 0 <= i < j < |els|
    ensures SingleRowRects(els, spacing)[i].Right() + spacing <= SingleRowRects(els, spacing)[j].x
  {
    PrefixWidthMonotone(els, i + 1, j);
    assert j * spacing >= (i + 1) * spacing by {
      assert j * spacing - (i + 1) * spacing == (j - i - 1) * spacing;
      MulNonNeg(j - i - 1, spacing);
    }
  }

  /** When at least one button fits, every multi-row button lies within the available width. */
  lemma MultiRowFits(els: seq<Element>, width: real, spacing: nat, i: int)
    requires 0 <= i < |els| && width >= ButtonWidth as real
    ensures 0 <= MultiRowRects(els, width, spacing)[i].x
    ensures (MultiRowRects(els, width, spacing)[i].Right()) as real <= width
  {
    var m := MaxPerRow(width, spacing);
    var d := (ButtonWidth + spacing) as real;
    var q := (width + spacing as real) / d;
    assert q * d == width + spacing as real;
    assert q >= 1.0;
    assert m == q.Floor;
    assert (m as real) * d <= width + spacing as real by {
      assert m as real <= q;
    }
    var col := i % m;
    assert 0 <= col <= m - 1;
    var r := MultiRowRects(els, width, spacing)[i];
    assert r.x == col * (ButtonWidth + spacing);
    MulNonNeg(col, ButtonWidth + spacing);
    MulNonNeg(m - 1 - col, ButtonWidth + spacing);
    assert r.x + ButtonWidth == m * (ButtonWidth + spacing) - spacing - (m - 1 - col) * (ButtonWidth + spacing);
    assert ((m * (ButtonWidth + spacing)) as real) == (m as real) * d;
  }

  /** Two different multi-row buttons never overlap. */
  lemma MultiRowDisjoint(els: seq<Element>, width: real, spacing: nat, i: int, j: int)
    requires 0 <= i < |els| && 0 <= j < |els| && i != j
    ensures var a, b := MultiRowRects(els, width, spacing)[i], MultiRowRects(els, width, spacing)[j];
      a.Right() <= b.x || b.Right() <= a.x || a.Bottom() <= b.y || b.Bottom() <= a.y
  {
    var m := MaxPerRow(width, spacing);
    var a, b := MultiRowRects(els, width, spacing)[i], MultiRowRects(els, width, spacing)[j];
    if i % m == j % m {
      assert i / m != j / m by {
        assert i == (i / m) * m + i % m;
        assert j == (j / m) * m + j % m;
      }
      if i / m < j / m {
        StepApart(i / m, j / m, ButtonHeight + spacing);
      } else {
        StepApart(j / m, i / m, ButtonHeight + spacing);
      }
    } else if i % m < j % m {
      StepApart(i % m, j % m, ButtonWidth + spacing);
    } else {
      StepApart(j % m, i % m, ButtonWidth + spacing);
    }
  }

  lemma StepApart(p: int, q: int, d: int)
    requires p < q && d >= 0
    ensures p * d + d <= q * d
  {
    assert q * d - p * d - d == (q - p - 1) * d;
    MulNonNeg(q - p - 1, d);
  }
}
