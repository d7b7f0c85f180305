/**
 * The pixel model of the drawing canvas and the buffer-to-buffer maps that the
 * transform operations perform on it.
 *
 * A grid `g` is indexed as `g[x][y]` (column, then row) and is `w` columns by
 * `h` rows. The canvas's RGBA backing store, as `getImageData` exposes it, is a
 * flat byte sequence in row-major order: pixel `(x, y)` occupies bytes
 * `4 * (y * w + x) + c` for channels `c` = 0 (red), 1 (green), 2 (blue) and
 * 3 (alpha).
 */
module Raster {
  import opened Common
  import opened Arith

  newtype byte = x: int | 0 <= x < 256

  datatype Pixel = Pixel(r: byte, g: byte, b: byte, a: byte)

  /** The content of a freshly sized or cleared canvas. */
  const Transparent := Pixel(0, 0, 0, 0)

  type Grid = seq<seq<Pixel>>

  predicate IsGrid(g: Grid, w: nat, h: nat) {
    |g| == w && forall x :: 0 <= x < w ==> |g[x]| == h
  }

  predicate Opaque(g: Grid, w: nat, h: nat)
    requires IsGrid(g, w, h)
  {
    forall x, y :: 0 <= x < w && 0 <= y < h ==> g[x][y].a == 255
  }

  /** The pixels of a canvas whose backing store is the array `a`. */
  function GridOf(a: array2<Pixel>): (g: Grid)
    reads a
    ensures IsGrid(g, a.Length0, a.Length1)
  {
    seq(a.Length0, x requires 0 <= x < a.Length0 reads a =>
      seq(a.Length1, y requires 0 <= y < a.Length1 reads a => a[x, y]))
  }

  function Solid(w: nat, h: nat, p: Pixel): (g: Grid)
    ensures IsGrid(g, w, h)
  {
    seq(w, x => seq(h, y => p))
  }

  function Clamp(v: int): byte {
    if v < 0 then 0 else if 255 < v then 255 else v as byte
  }

  /**
   * Source-over compositing of `s` onto `d` at global alpha 1. The two exact
   * cases are the ones every statement of this model relies on: an opaque
   * source replaces the destination, a fully transparent one leaves it. The
   * partial-alpha branch is a floor-rounded, non-premultiplied approximation of
   * what a browser computes.
   */
  function Over(s: Pixel, d: Pixel): (r: Pixel)
    ensures s.a == 255 ==> r == s
    ensures s.a == 0 ==> r == d
  {
    if s.a == 255 then s
    else if s.a == 0 then d
    else
      var sa, da := s.a as int, d.a as int;
      Pixel(
        Clamp(Blend(s.r as int, d.r as int, sa, da)),
        Clamp(Blend(s.g as int, d.g as int, sa, da)),
        Clamp(Blend(s.b as int, d.b as int, sa, da)),
        Clamp(sa + da * (255 - sa) / 255))
  }

  /** One colour channel of the partial-alpha case of Over. */
  function Blend(sc: int, dc: int, sa: int, da: int): int
    requires 0 < sa <= 255 && 0 <= da
  {
    MulNonNeg(da, 255 - sa);
    (sc * sa + dc * da * (255 - sa) / 255) / (sa + da * (255 - sa) / 255)
  }

  /** Drawing a visible pixel onto a transparent one copies it exactly. */
  lemma OverTransparent(s: Pixel)
    requires s.a != 0
    ensures Over(s, Transparent) == s
  {
    if s.a != 255 {
      var sa := s.a as int;
      assert 0 * (255 - sa) / 255 == 0;
      BlendOntoNothing(s.r as int, sa);
      BlendOntoNothing(s.g as int, sa);
      BlendOntoNothing(s.b as int, sa);
    }
  }

  lemma BlendOntoNothing(c: int, sa: int)
    requires 0 < sa <= 255
    ensures Blend(c, 0, sa, 0) == c
  {
    assert 0 * 0 * (255 - sa) / 255 == 0;
    assert 0 * (255 - sa) / 255 == 0;
    DivModUnique(c * sa, sa, c, 0);
  }

  /** `fillRect` of the whole canvas with colour `p`, composited source-over. */
  function FillOver(g: Grid, w: nat, h: nat, p: Pixel): (r: Grid)
    requires IsGrid(g, w, h)
    ensures IsGrid(r, w, h)
  {
    seq(w, x requires 0 <= x < w => seq(h, y requires 0 <= y < h => Over(p, g[x][y])))
  }

  lemma {:induction false} FillOverOpaque(g: Grid, w: nat, h: nat, p: Pixel)
    requires IsGrid(g, w, h) && p.a == 255
    ensures FillOver(g, w, h, p) == Solid(w, h, p)
  {
    var r, s := FillOver(g, w, h, p), Solid(w, h, p);
    forall x | 0 <= x < w ensures r[x] == s[x] {
      forall y | 0 <= y < h ensures r[x][y] == s[x][y] {
        assert r[x][y] == Over(p, g[x][y]);
      }
    }
  }

  /** `drawImage(src, 0, 0)` of a same-sized image, composited source-over at global alpha 1. */
  function DrawImageOver(dst: Grid, src: Grid, w: nat, h: nat): (r: Grid)
    requires IsGrid(dst, w, h) && IsGrid(src, w, h)
    ensures IsGrid(r, w, h)
  {
    seq(w, x requires 0 <= x < w => seq(h, y requires 0 <= y < h => Over(src[x][y], dst[x][y])))
  }

  /** An opaque image drawn over anything replaces it. */
  lemma DrawImageOverOpaque(dst: Grid, src: Grid, w: nat, h: nat)
    requires IsGrid(dst, w, h) && IsGrid(src, w, h) && Opaque(src, w, h)
    ensures DrawImageOver(dst, src, w, h) == src
  {
    var r := DrawImageOver(dst, src, w, h);
    forall x | 0 <= x < w ensures r[x] == src[x] {
      forall y | 0 <= y < h ensures r[x][y] == src[x][y] {
        assert src[x][y].a == 255;
      }
    }
  }

  // ---------------------------------------------------------------- crop

  /**
   * The sub-image that `drawImage(canvas, left, top, nw, nh, 0, 0, nw, nh)`
   * copies onto a fresh `nw`-by-`nh` canvas: the source rectangle is clipped
   * to the image, so positions that fall outside it stay transparent.
   */
  function CropGrid(g: Grid, w: nat, h: nat, left: int, top: int, nw: nat, nh: nat): (r: Grid)
    requires IsGrid(g, w, h)
    ensures IsGrid(r, nw, nh)
  {
    seq(nw, x requires 0 <= x < nw => seq(nh, y requires 0 <= y < nh =>
      if 0 <= x + left < w && 0 <= y + top < h then g[x + left][y + top] else Transparent))
  }

  /** With non-negative margins whose sum stays inside the image, every cropped pixel comes from the original. */
  lemma CropGridAt(g: Grid, w: nat, h: nat, left: int, right: int, top: int, bottom: int, x: int, y: int)
    requires IsGrid(g, w, h)
    requires 0 <= left && 0 <= right && 0 <= top && 0 <= bottom
    requires left + right < w && top + bottom < h
    requires 0 <= x < w - left - right && 0 <= y < h - top - bottom
    ensures CropGrid(g, w, h, left, top, w - left - right, h - top - bottom)[x][y] == g[x + left][y + top]
  {
  }

  // ---------------------------------------------------------------- flips

  /** The exact mirror image across the vertical axis. */
  function FlipXGrid(g: Grid, w: nat, h: nat): (r: Grid)
    requires IsGrid(g, w, h)
    ensures IsGrid(r, w, h)
  {
    seq(w, x requires 0 <= x < w => seq(h, y requires 0 <= y < h => g[w - 1 - x][y]))
  }

  /** The exact mirror image across the horizontal axis. */
  function FlipYGrid(g: Grid, w: nat, h: nat): (r: Grid)
    requires IsGrid(g, w, h)
    ensures IsGrid(r, w, h)
  {
    seq(w, x requires 0 <= x < w => seq(h, y requires 0 <= y < h => g[x][h - 1 - y]))
  }

  /**
   * What flipX does as written: the mirrored copy is drawn source-over onto
   * the canvas WITHOUT clearing it first, so each pixel is the mirrored pixel
   * composited over the pixel that was already there.
   */
  function FlipXOverGrid(g: Grid, w: nat, h: nat): (r: Grid)
    requires IsGrid(g, w, h)
    ensures IsGrid(r, w, h)
  {
    seq(w, x requires 0 <= x < w => seq(h, y requires 0 <= y < h => Over(g[w - 1 - x][y], g[x][y])))
  }

  /** What flipY does as written (see FlipXOverGrid). */
  function FlipYOverGrid(g: Grid, w: nat, h: nat): (r: Grid)
    requires IsGrid(g, w, h)
    ensures IsGrid(r, w, h)
  {
    seq(w, x requires 0 <= x < w => seq(h, y requires 0 <= y < h => Over(g[x][h - 1 - y], g[x][y])))
  }

  lemma FlipXGridInvolution(g: Grid, w: nat, h: nat)
    requires IsGrid(g, w, h)
    ensures FlipXGrid(FlipXGrid(g, w, h), w, h) == g
  {
    var f := FlipXGrid(FlipXGrid(g, w, h), w, h);
    forall x | 0 <= x < w ensures f[x] == g[x] { }
  }

  lemma FlipYGridInvolution(g: Grid, w: nat, h: nat)
    requires IsGrid(g, w, h)
    ensures FlipYGrid(FlipYGrid(g, w, h), w, h) == g
  {
    var f := FlipYGrid(FlipYGrid(g, w, h), w, h);
    forall x | 0 <= x < w ensures f[x] == g[x] { }
  }

  /** On an opaque canvas the as-written flip is the exact mirror, and the mirror stays opaque. */
  lemma FlipXOverOpaque(g: Grid, w: nat, h: nat)
    requires IsGrid(g, w, h) && Opaque(g, w, h)
    ensures FlipXOverGrid(g, w, h) == FlipXGrid(g, w, h)
    ensures Opaque(FlipXGrid(g, w, h), w, h)
  {
    var a, b := FlipXOverGrid(g, w, h), FlipXGrid(g, w, h);
    forall x | 0 <= x < w ensures a[x] == b[x] {
      forall y | 0 <= y < h ensures a[x][y] == b[x][y] {
        assert g[w - 1 - x][y].a == 255;
      }
    }
  }

  lemma FlipYOverOpaque(g: Grid, w: nat, h: nat)
    requires IsGrid(g, w, h) && Opaque(g, w, h)
    ensures FlipYOverGrid(g, w, h) == FlipYGrid(g, w, h)
    ensures Opaque(FlipYGrid(g, w, h), w, h)
  {
    var a, b := FlipYOverGrid(g, w, h), FlipYGrid(g, w, h);
    forall x | 0 <= x < w ensures a[x] == b[x] {
      forall y | 0 <= y < h ensures a[x][y] == b[x][y] {
        assert g[x][h - 1 - y].a == 255;
      }
    }
  }

  /** Flipping an opaque canvas twice, as written, restores it. */
  lemma FlipXOverTwiceOpaque(g: Grid, w: nat, h: nat)
    requires IsGrid(g, w, h) && Opaque(g, w, h)
    ensures FlipXOverGrid(FlipXOverGrid(g, w, h), w, h) == g
  {
    FlipXOverOpaque(g, w, h);
    FlipXOverOpaque(FlipXGrid(g, w, h), w, h);
    FlipXGridInvolution(g, w, h);
  }

  lemma FlipYOverTwiceOpaque(g: Grid, w: nat, h: nat)
    requires IsGrid(g, w, h) && Opaque(g, w, h)
    ensures FlipYOverGrid(FlipYOverGrid(g, w, h), w, h) == g
  {
    FlipYOverOpaque(g, w, h);
    FlipYOverOpaque(FlipYGrid(g, w, h), w, h);
    FlipYGridInvolution(g, w, h);
  }

  const Red := Pixel(255, 0, 0, 255)

  /**
   * A two-pixel canvas, transparent on the left and opaque red on the right:
   * the as-written flipX turns it all red, which is neither its mirror image
   * nor undone by flipping again.
   */
  lemma FlipXOverNotMirror()
    ensures var g := [[Transparent], [Red]];
      && FlipXOverGrid(g, 2, 1) == [[Red], [Red]]
      && FlipXOverGrid(g, 2, 1) != FlipXGrid(g, 2, 1)
      && FlipXOverGrid(FlipXOverGrid(g, 2, 1), 2, 1) != g
  {
    var g := [[Transparent], [Red]];
    var f := FlipXOverGrid(g, 2, 1);
    assert f[0][0] == Over(Red, Transparent) == Red;
    assert f[1][0] == Over(Transparent, Red) == Red;
    assert f[0] == [Red] && f[1] == [Red];
    assert f == [[Red], [Red]];
    var ff := FlipXOverGrid(f, 2, 1);
    assert ff[0][0] == Red;
    assert FlipXGrid(g, 2, 1)[1][0] == Transparent;
  }

  /** The same canvas stood on end shows the defect of the as-written flipY. */
  lemma FlipYOverNotMirror()
    ensures var g := [[Transparent, Red]];
      && FlipYOverGrid(g, 1, 2) == [[Red, Red]]
      && FlipYOverGrid(g, 1, 2) != FlipYGrid(g, 1, 2)
  {
    var g := [[Transparent, Red]];
    var f := FlipYOverGrid(g, 1, 2);
    assert f[0][0] == Over(Red, Transparent) == Red;
    assert f[0][1] == Over(Transparent, Red) == Red;
    assert f[0] == [Red, Red];
    assert FlipYGrid(g, 1, 2)[0][1] == Transparent;
  }

  // ---------------------------------------------------------------- rotation

  /** A clockwise quarter turn (canvas y grows downwards): the result is `h` wide and `w` high. */
  function RotateCWGrid(g: Grid, w: nat, h: nat): (r: Grid)
    requires IsGrid(g, w, h)
    ensures IsGrid(r, h, w)
  {
    seq(h, x requires 0 <= x < h => seq(w, y requires 0 <= y < w => g[y][h - 1 - x]))
  }

  /** A half turn. */
  function Rotate180Grid(g: Grid, w: nat, h: nat): (r: Grid)
    requires IsGrid(g, w, h)
    ensures IsGrid(r, w, h)
  {
    seq(w, x requires 0 <= x < w => seq(h, y requires 0 <= y < h => g[w - 1 - x][h - 1 - y]))
  }

  /** `q` clockwise quarter turns, `q` in 0..3; odd `q` swaps the dimensions. */
  function RotateGrid(g: Grid, w: nat, h: nat, q: nat): (r: Grid)
    requires IsGrid(g, w, h) && q < 4
    ensures q % 2 == 0 ==> IsGrid(r, w, h)
    ensures q % 2 == 1 ==> IsGrid(r, h, w)
  {
    if q == 0 then g
    else if q == 1 then RotateCWGrid(g, w, h)
    else if q == 2 then Rotate180Grid(g, w, h)
    else RotateCWGrid(Rotate180Grid(g, w, h), w, h)
  }

  lemma RotateCWTwice(g: Grid, w: nat, h: nat)
    requires IsGrid(g, w, h)
    ensures RotateCWGrid(RotateCWGrid(g, w, h), h, w) == Rotate180Grid(g, w, h)
  {
    var a, b := RotateCWGrid(RotateCWGrid(g, w, h), h, w), Rotate180Grid(g, w, h);
    forall x | 0 <= x < w ensures a[x] == b[x] { }
  }

  lemma Rotate180Twice(g: Grid, w: nat, h: nat)
    requires IsGrid(g, w, h)
    ensures Rotate180Grid(Rotate180Grid(g, w, h), w, h) == g
  {
    var a := Rotate180Grid(Rotate180Grid(g, w, h), w, h);
    forall x | 0 <= x < w ensures a[x] == g[x] { }
  }

  /** Four clockwise quarter turns restore the canvas, dimensions and pixels. */
  lemma RotateCWFourTimes(g: Grid, w: nat, h: nat)
    requires IsGrid(g, w, h)
    ensures var r1 := RotateCWGrid(g, w, h);
      var r2 := RotateCWGrid(r1, h, w);
      var r3 := RotateCWGrid(r2, w, h);
      RotateCWGrid(r3, h, w) == g
  {
    var r1 := RotateCWGrid(g, w, h);
    var r2 := RotateCWGrid(r1, h, w);
    RotateCWTwice(g, w, h);
    assert r2 == Rotate180Grid(g, w, h);
    RotateCWTwice(r2, w, h);
    Rotate180Twice(g, w, h);
  }

  // ---------------------------------------------------------------- wrap-around offset

  /** `((d % n) + n) % n` with JavaScript's truncating remainder. */
  function WrapOffset(d: int, n: int): (r: int)
    requires n > 0
    ensures 0 <= r < n
  {
    JsRem(JsRem(d, n) + n, n)
  }

  /** The JavaScript expression computes the mathematical residue of `d` modulo `n`. */
  lemma WrapOffsetIsMod(d: int, n: int)
    requires n > 0
    ensures WrapOffset(d, n) == d % n
  {
    var t := JsRem(d, n);
    if d >= 0 {
      assert t == d % n;
      assert t + n == 1 * n + t;
      ModShift(1, n, t);
      DivModUnique(t, n, 0, t);
    } else {
      var m := (-d) % n;
      assert t == -m;
      assert -d == ((-d) / n) * n + m;
      assert d == (-((-d) / n) - 1) * n + (n - m);
      if m == 0 {
        assert d == (-((-d) / n)) * n + 0;
        DivModUnique(d, n, -((-d) / n), 0);
        DivModUnique(n, n, 1, 0);
      } else {
        DivModUnique(d, n, -((-d) / n) - 1, n - m);
        DivModUnique(n - m, n, 0, n - m);
      }
    }
  }

  /** The image data written with its top-left corner at `(dx, dy)`, clipped to the canvas. */
  function PutGrid(dst: Grid, src: Grid, w: nat, h: nat, dx: int, dy: int): (r: Grid)
    requires IsGrid(dst, w, h) && IsGrid(src, w, h)
    ensures IsGrid(r, w, h)
  {
    seq(w, x requires 0 <= x < w => seq(h, y requires 0 <= y < h =>
      if 0 <= x - dx < w && 0 <= y - dy < h then src[x - dx][y - dy] else dst[x][y]))
  }

  /** The toroidal shift: content moves by `(ox, oy)` and re-enters at the opposite edge. */
  function OffsetGrid(g: Grid, w: nat, h: nat, ox: int, oy: int): (r: Grid)
    requires IsGrid(g, w, h) && w > 0 && h > 0
    ensures IsGrid(r, w, h)
  {
    seq(w, x requires 0 <= x < w => seq(h, y requires 0 <= y < h => g[(x - ox) % w][(y - oy) % h]))
  }

  /**
   * The four placements offsetDrawingCanvasWrapped makes on its blank
   * temporary canvas: at `(ox, oy)`, and also at `(ox - w, oy)`,
   * `(ox, oy - h)`, `(ox - w, oy - h)` when the corresponding offsets are
   * positive.
   */
  function WrappedPlacements(g: Grid, w: nat, h: nat, ox: int, oy: int): (r: Grid)
    requires IsGrid(g, w, h)
    ensures IsGrid(r, w, h)
  {
    var t1 := PutGrid(Solid(w, h, Transparent), g, w, h, ox, oy);
    var t2 := PutIf(ox > 0, t1, g, w, h, ox - w, oy);
    var t3 := PutIf(oy > 0, t2, g, w, h, ox, oy - h);
    PutIf(ox > 0 && oy > 0, t3, g, w, h, ox - w, oy - h)
  }

  /** Four placements made one after the other onto a blank grid are the wrapped placements. */
  lemma WrappedChain(g: Grid, w: nat, h: nat, ox: int, oy: int, g0: Grid, g1: Grid, g2: Grid, g3: Grid, g4: Grid)
    requires IsGrid(g, w, h) && g0 == Solid(w, h, Transparent)
    requires g1 == PutGrid(g0, g, w, h, ox, oy)
    requires g2 == PutIf(ox > 0, g1, g, w, h, ox - w, oy)
    requires g3 == PutIf(oy > 0, g2, g, w, h, ox, oy - h)
    requires g4 == PutIf(ox > 0 && oy > 0, g3, g, w, h, ox - w, oy - h)
    ensures g4 == WrappedPlacements(g, w, h, ox, oy)
  {
  }

  /** A placement made only when `c` holds. */
  function PutIf(c: bool, dst: Grid, src: Grid, w: nat, h: nat, dx: int, dy: int): (r: Grid)
    requires IsGrid(dst, w, h) && IsGrid(src, w, h)
    ensures IsGrid(r, w, h)
  {
    if c then PutGrid(dst, src, w, h, dx, dy) else dst
  }

  /** The four clipped placements tile the canvas seamlessly: together they are the toroidal shift. */
  lemma WrappedPlacementsAreOffset(g: Grid, w: nat, h: nat, ox: int, oy: int)
    requires IsGrid(g, w, h) && 0 <= ox < w && 0 <= oy < h
    ensures WrappedPlacements(g, w, h, ox, oy) == OffsetGrid(g, w, h, ox, oy)
  {
    var t := WrappedPlacements(g, w, h, ox, oy);
    var o := OffsetGrid(g, w, h, ox, oy);
    forall x | 0 <= x < w ensures t[x] == o[x] {
      forall y | 0 <= y < h ensures t[x][y] == o[x][y] {
        WrappedPlacementAt(g, w, h, ox, oy, x, y);
      }
    }
  }

  lemma WrappedPlacementAt(g: Grid, w: nat, h: nat, ox: int, oy: int, x: int, y: int)
    requires IsGrid(g, w, h) && 0 <= ox < w && 0 <= oy < h && 0 <= x < w && 0 <= y < h
    ensures WrappedPlacements(g, w, h, ox, oy)[x][y] == OffsetGrid(g, w, h, ox, oy)[x][y]
  {
    OffsetSource(g, w, h, ox, oy, x, y);
    var t1 := PutGrid(Solid(w, h, Transparent), g, w, h, ox, oy);
    var t2 := PutIf(ox > 0, t1, g, w, h, ox - w, oy);
    var t3 := PutIf(oy > 0, t2, g, w, h, ox, oy - h);
    PutGridAt(Solid(w, h, Transparent), g, w, h, ox, oy, x, y);
    PutIfAt(ox > 0, t1, g, w, h, ox - w, oy, x, y);
    PutIfAt(oy > 0, t2, g, w, h, ox, oy - h, x, y);
    PutIfAt(ox > 0 && oy > 0, t3, g, w, h, ox - w, oy - h, x, y);
  }

  lemma PutIfAt(c: bool, dst: Grid, src: Grid, w: nat, h: nat, dx: int, dy: int, x: int, y: int)
    requires IsGrid(dst, w, h) && IsGrid(src, w, h) && 0 <= x < w && 0 <= y < h
    ensures PutIf(c, dst, src, w, h, dx, dy)[x][y] ==
      if c && 0 <= x - dx < w && 0 <= y - dy < h then src[x - dx][y - dy] else dst[x][y]
  {
  }

  lemma PutGridAt(dst: Grid, src: Grid, w: nat, h: nat, dx: int, dy: int, x: int, y: int)
    requires IsGrid(dst, w, h) && IsGrid(src, w, h) && 0 <= x < w && 0 <= y < h
    ensures PutGrid(dst, src, w, h, dx, dy)[x][y] ==
      if 0 <= x - dx < w && 0 <= y - dy < h then src[x - dx][y - dy] else dst[x][y]
  {
  }

  lemma OffsetSource(g: Grid, w: nat, h: nat, ox: int, oy: int, x: int, y: int)
    requires IsGrid(g, w, h) && 0 <= ox < w && 0 <= oy < h && 0 <= x < w && 0 <= y < h
    ensures OffsetGrid(g, w, h, ox, oy)[x][y] ==
      g[if x >= ox then x - ox else x - ox + w][if y >= oy then y - oy else y - oy + h]
  {
    if x >= ox { DivModUnique(x - ox, w, 0, x - ox); } else { DivModUnique(x - ox, w, -1, x - ox + w); }
    if y >= oy { DivModUnique(y - oy, h, 0, y - oy); } else { DivModUnique(y - oy, h, -1, y - oy + h); }
  }

  /** Every source pixel lands `(ox, oy)` further on, modulo the canvas size. */
  lemma OffsetGridAt(g: Grid, w: nat, h: nat, ox: int, oy: int, x: int, y: int)
    requires IsGrid(g, w, h) && w > 0 && h > 0 && 0 <= x < w && 0 <= y < h
    ensures OffsetGrid(g, w, h, ox, oy)[(x + ox) % w][(y + oy) % h] == g[x][y]
  {
    ModSubLeft(x + ox, ox, w);
    ModSubLeft(y + oy, oy, h);
    DivModUnique(x, w, 0, x);
    DivModUnique(y, h, 0, y);
  }

  /** Shifting by offsets whose sums are multiples of the size restores the canvas. */
  lemma OffsetGridInverse(g: Grid, w: nat, h: nat, ox: int, oy: int, ox2: int, oy2: int)
    requires IsGrid(g, w, h) && w > 0 && h > 0
    requires (ox + ox2) % w == 0 && (oy + oy2) % h == 0
    ensures OffsetGrid(OffsetGrid(g, w, h, ox, oy), w, h, ox2, oy2) == g
  {
    var once := OffsetGrid(g, w, h, ox, oy);
    var twice := OffsetGrid(once, w, h, ox2, oy2);
    forall x | 0 <= x < w ensures twice[x] == g[x] {
      forall y | 0 <= y < h ensures twice[x][y] == g[x][y] {
        ModSubLeft(x - ox2, ox, w);
        ModSubLeft(y - oy2, oy, h);
        ShiftBack(x, ox + ox2, w);
        ShiftBack(y, oy + oy2, h);
        assert x - ox2 - ox == x - (ox + ox2);
        assert y - oy2 - oy == y - (oy + oy2);
      }
    }
  }

  lemma ShiftBack(x: int, s: int, w: int)
    requires w > 0 && 0 <= x < w && s % w == 0
    ensures (x - s) % w == x
  {
    assert s == (s / w) * w;
    assert x - s == (-(s / w)) * w + x;
    DivModUnique(x - s, w, -(s / w), x);
  }

  /** Offsetting by `(dx, dy)` and then by `(-dx, -dy)` restores the canvas. */
  lemma WrapOffsetRoundTrip(g: Grid, w: nat, h: nat, dx: int, dy: int)
    requires IsGrid(g, w, h) && w > 0 && h > 0
    ensures OffsetGrid(OffsetGrid(g, w, h, WrapOffset(dx, w), WrapOffset(dy, h)), w, h,
                       WrapOffset(-dx, w), WrapOffset(-dy, h)) == g
  {
    WrapOffsetIsMod(dx, w);
    WrapOffsetIsMod(-dx, w);
    WrapOffsetIsMod(dy, h);
    WrapOffsetIsMod(-dy, h);
    SumOfResidues(dx, w);
    SumOfResidues(dy, h);
    OffsetGridInverse(g, w, h, WrapOffset(dx, w), WrapOffset(dy, h), WrapOffset(-dx, w), WrapOffset(-dy, h));
  }

  lemma SumOfResidues(d: int, n: int)
    requires n > 0
    ensures (d % n + (-d) % n) % n == 0
  {
    assert d == (d / n) * n + d % n;
    assert -d == ((-d) / n) * n + (-d) % n;
    var s := d % n + (-d) % n;
    assert s == (-(d / n) - (-d) / n) * n;
    ModShift(-(d / n) - (-d) / n, n, 0);
  }

  // ---------------------------------------------------------------- colour inversion

  function InvertPixel(p: Pixel): (q: Pixel)
    ensures q.a == p.a
  {
    Pixel(255 - p.r, 255 - p.g, 255 - p.b, p.a)
  }

  function InvertGrid(g: Grid, w: nat, h: nat): (r: Grid)
    requires IsGrid(g, w, h)
    ensures IsGrid(r, w, h)
  {
    seq(w, x requires 0 <= x < w => seq(h, y requires 0 <= y < h => InvertPixel(g[x][y])))
  }

  lemma InvertGridInvolution(g: Grid, w: nat, h: nat)
    requires IsGrid(g, w, h)
    ensures InvertGrid(InvertGrid(g, w, h), w, h) == g
  {
    var a := InvertGrid(InvertGrid(g, w, h), w, h);
    forall x | 0 <= x < w ensures a[x] == g[x] { }
  }

  function Channel(p: Pixel, c: int): byte {
    if c == 0 then p.r else if c == 1 then p.g else if c == 2 then p.b else p.a
  }

  /** The bytes `getImageData(0, 0, w, h).data` holds for the grid `g`. */
  function ImageData(g: Grid, w: nat, h: nat): (d: seq<byte>)
    requires IsGrid(g, w, h) && w > 0
    ensures |d| == 4 * (w * h)
  {
    seq(4 * (w * h), i requires 0 <= i < 4 * (w * h) =>
      FlatIndexInverse(i / 4, w, h);
      Channel(g[(i / 4) % w][(i / 4) / w], i % 4))
  }

  /** The grid that `putImageData(data, 0, 0)` leaves on a `w`-by-`h` canvas. */
  function FromImageData(d: seq<byte>, w: nat, h: nat): (g: Grid)
    requires |d| == 4 * (w * h)
    ensures IsGrid(g, w, h)
  {
    seq(w, x requires 0 <= x < w => seq(h, y requires 0 <= y < h =>
      FlatIndex(x, y, w, h);
      var k := y * w + x;
      Pixel(d[4 * k], d[4 * k + 1], d[4 * k + 2], d[4 * k + 3])))
  }

  /** The invert loop's effect on the flat bytes: colour bytes become `255 - v`, every fourth (alpha) byte is kept. */
  function InvertData(d: seq<byte>): (r: seq<byte>)
    ensures |r| == |d|
  {
    seq(|d|, i requires 0 <= i < |d| => if i % 4 == 3 then d[i] else 255 - d[i])
  }

  /** Reading the pixels out and writing them back changes nothing. */
  lemma ImageDataRoundTrip(g: Grid, w: nat, h: nat)
    requires IsGrid(g, w, h) && w > 0
    ensures FromImageData(ImageData(g, w, h), w, h) == g
  {
    var r := FromImageData(ImageData(g, w, h), w, h);
    forall x | 0 <= x < w ensures r[x] == g[x] {
      forall y | 0 <= y < h ensures r[x][y] == g[x][y] {
        PixelBytes(g, w, h, x, y);
      }
    }
  }

  /** Inverting the flat bytes inverts every pixel of the grid. */
  lemma InvertDataIsInvertGrid(g: Grid, w: nat, h: nat)
    requires IsGrid(g, w, h) && w > 0
    ensures FromImageData(InvertData(ImageData(g, w, h)), w, h) == InvertGrid(g, w, h)
  {
    var r := FromImageData(InvertData(ImageData(g, w, h)), w, h);
    var s := InvertGrid(g, w, h);
    forall x | 0 <= x < w ensures r[x] == s[x] {
      forall y | 0 <= y < h ensures r[x][y] == s[x][y] {
        InvertedPixel(g, w, h, x, y);
      }
    }
  }

  lemma InvertedPixel(g: Grid, w: nat, h: nat, x: int, y: int)
    requires IsGrid(g, w, h) && w > 0 && 0 <= x < w && 0 <= y < h
    ensures FromImageData(InvertData(ImageData(g, w, h)), w, h)[x][y] == InvertGrid(g, w, h)[x][y]
  {
    var d := ImageData(g, w, h);
    PixelBytes(g, w, h, x, y);
    FromImageDataAt(InvertData(d), w, h, x, y);
    InvertAt(d, y * w + x);
  }

  /** The bytes of pixel `k` after inverting: three colour bytes flipped, alpha kept. */
  lemma InvertAt(d: seq<byte>, k: nat)
    requires 4 * k + 3 < |d|
    ensures var e := InvertData(d);
      && e[4 * k] == 255 - d[4 * k] && e[4 * k + 1] == 255 - d[4 * k + 1]
      && e[4 * k + 2] == 255 - d[4 * k + 2] && e[4 * k + 3] == d[4 * k + 3]
  {
    ByteIndex(k, 0);
    ByteIndex(k, 1);
    ByteIndex(k, 2);
    ByteIndex(k, 3);
  }

  /** The pixel `putImageData` reads for column `x` and row `y`. */
  lemma FromImageDataAt(d: seq<byte>, w: nat, h: nat, x: int, y: int)
    requires |d| == 4 * (w * h) && 0 <= x < w && 0 <= y < h
    ensures var k := y * w + x;
      && 0 <= k && 4 * k + 3 < |d|
      && FromImageData(d, w, h)[x][y] == Pixel(d[4 * k], d[4 * k + 1], d[4 * k + 2], d[4 * k + 3])
  {
    FlatIndex(x, y, w, h);
  }

  lemma PixelBytes(g: Grid, w: nat, h: nat, x: int, y: int)
    requires IsGrid(g, w, h) && w > 0 && 0 <= x < w && 0 <= y < h
    ensures var k := y * w + x; var d := ImageData(g, w, h);
      0 <= 4 * k && 4 * k + 3 < |d|
      && d[4 * k] == g[x][y].r && d[4 * k + 1] == g[x][y].g
      && d[4 * k + 2] == g[x][y].b && d[4 * k + 3] == g[x][y].a
      && (4 * k) % 4 == 0 && (4 * k + 1) % 4 == 1 && (4 * k + 2) % 4 == 2 && (4 * k + 3) % 4 == 3
  {
    var k := y * w + x;
    FlatIndex(x, y, w, h);
    ByteIndex(k, 0);
    ByteIndex(k, 1);
    ByteIndex(k, 2);
    ByteIndex(k, 3);
  }

  // ---------------------------------------------------------------- the backing store

  /** Overwrites the whole backing store with `g` (a clear followed by an opaque-safe copy). */
  method Blit(a: array2<Pixel>, g: Grid)
    requires IsGrid(g, a.Length0, a.Length1)
    modifies a
    ensures GridOf(a) == g
  {
    forall x, y | 0 <= x < a.Length0 && 0 <= y < a.Length1 {
      a[x, y] := g[x][y];
    }
    ghost var after := GridOf(a);
    forall x | 0 <= x < a.Length0 ensures after[x] == g[x] { }
  }

  /** `putImageData(src, dx, dy)`: pixels are replaced, not composited, and writes outside the canvas are dropped. */
  method PutImageData(a: array2<Pixel>, src: Grid, dx: int, dy: int)
    requires IsGrid(src, a.Length0, a.Length1)
    modifies a
    ensures GridOf(a) == PutGrid(old(GridOf(a)), src, a.Length0, a.Length1, dx, dy)
  {
    ghost var before := GridOf(a);
    var w, h := a.Length0, a.Length1;
    forall x, y | 0 <= x < w && 0 <= y < h && 0 <= x - dx < w && 0 <= y - dy < h {
      a[x, y] := src[x - dx][y - dy];
    }
    ghost var after := GridOf(a);
    ghost var want := PutGrid(before, src, w, h, dx, dy);
    forall x | 0 <= x < w ensures after[x] == want[x] { }
  }

  /** A fresh `w`-by-`h` backing store, transparent throughout. */
  method NewBitmap(w: nat, h: nat) returns (a: array2<Pixel>)
    ensures fresh(a) && a.Length0 == w && a.Length1 == h
    ensures GridOf(a) == Solid(w, h, Transparent)
  {
    a := new Pixel[w, h]((x, y) => Transparent);
    ghost var blank := GridOf(a);
    forall x | 0 <= x < w ensures blank[x] == Solid(w, h, Transparent)[x] { }
  }
}
