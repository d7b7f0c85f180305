/**
 * Integer facts behind the pixel-index arithmetic of the canvas model: the
 * uniqueness of Euclidean division, shifting by a multiple of the modulus,
 * and the row-major layout `k == y * w + x` of an RGBA buffer.
 */
module Arith {

  lemma MulStep(d: int, w: int)
    requires w > 0
    ensures d >= 1 ==> d * w >= w
    ensures d <= -1 ==> d * w <= -w
  {
    if d >= 1 {
      assert d * w == (d - 1) * w + w;
      MulNonNeg(d - 1, w);
    } else if d <= -1 {
      assert d * w == (d + 1) * w - w;
      MulNonNeg(-(d + 1), w);
      assert (d + 1) * w == -((-(d + 1)) * w);
    }
  }

  lemma MulNonNeg(a: int, b: int)
    requires a >= 0 && b >= 0
    ensures a * b >= 0
  {
  }

  /** Quotient and remainder are determined by `a == q * w + r, 0 <= r < w`. */
  lemma DivModUnique(a: int, w: int, q: int, r: int)
    requires w > 0 && a == q * w + r && 0 <= r < w
    ensures a / w == q && a % w == r
  {
    var q0, r0 := a / w, a % w;
    assert a == q0 * w + r0;
    assert (q - q0) * w == r0 - r;
    MulStep(q - q0, w);
  }

  /** Adding a multiple of the modulus does not change the remainder. */
  lemma ModShift(k: int, w: int, c: int)
    requires w > 0
    ensures (k * w + c) % w == c % w
  {
    assert c == (c / w) * w + c % w;
    assert k * w + c == (k + c / w) * w + c % w;
    DivModUnique(k * w + c, w, k + c / w, c % w);
  }

  /** `(a % w - b) % w == (a - b) % w`: taking a remainder early is harmless. */
  lemma ModSubLeft(a: int, b: int, w: int)
    requires w > 0
    ensures (a % w - b) % w == (a - b) % w
  {
    assert a - b == (a / w) * w + (a % w - b);
    ModShift(a / w, w, a % w - b);
  }

  /** A column `x` and row `y` inside a `w`-by-`h` grid give a row-major index inside it. */
  lemma FlatIndex(x: int, y: int, w: int, h: int)
    requires 0 <= x < w && 0 <= y < h
    ensures 0 <= y * w + x < w * h
    ensures (y * w + x) / w == y && (y * w + x) % w == x
  {
    MulNonNeg(y, w);
    assert (h - 1 - y) * w >= 0 by { MulNonNeg(h - 1 - y, w); }
    assert y * w + w <= h * w by {
      assert h * w == y * w + w + (h - 1 - y) * w;
    }
    DivModUnique(y * w + x, w, y, x);
  }

  /** A row-major index inside a `w`-by-`h` grid decodes to a column and row inside it. */
  lemma FlatIndexInverse(k: int, w: int, h: int)
    requires w > 0 && 0 <= k < w * h
    ensures 0 <= k / w < h && 0 <= k % w < w
    ensures k == (k / w) * w + k % w
  {
    var q := k / w;
    assert k == q * w + k % w;
    if q < 0 {
      MulStep(q, w);
    }
  }

  /** The four bytes of pixel `k` sit at `4 * k + c`. */
  lemma ByteIndex(k: int, c: int)
    requires 0 <= c < 4
    ensures (4 * k + c) / 4 == k && (4 * k + c) % 4 == c
  {
    DivModUnique(4 * k + c, 4, k, c);
  }
}
