/**
 This module models the coordinate normalisation of the tag recorder
 (tagger.py, `save_coordinates`): a raw pixel coordinate `v` along an image
 axis of `extent` pixels becomes the whole percentage `int((v / extent) * 100)`.
 Python's `int()` on a float truncates toward zero, which for negative values
 is not the floor. Floating-point rounding is not modelled: values are reals.
 */
module Normalize {

  /** An image dimension in pixels; images are never empty. */
  type Extent = n: int | n > 0 witness 1

  /** Python's `int()` applied to a number: the integer part, rounding toward zero. */
  function Trunc(x: real): (n: int)
    ensures 0.0 <= x ==> n as real <= x < n as real + 1.0
    ensures x < 0.0 ==> n as real - 1.0 < x <= n as real
  {
    if x >= 0.0 then x.Floor else -((-x).Floor)
  }

  /** The percentage of `extent` covered by `v`, truncated to a whole number. */
  function Norm(v: real, extent: Extent): int {
    Trunc((v / extent as real) * 100.0)
  }

  /**
   What `Norm` computes, without division: the whole number `n` with
   `n * extent <= 100 * v < (n + 1) * extent` for non-negative `v`, and the
   mirror-image bracket, rounding toward zero, for negative `v`.
   */
  lemma NormBracket(v: real, extent: Extent)
    ensures var n := Norm(v, extent);
      0.0 <= v ==> (n * extent) as real <= 100.0 * v < ((n + 1) * extent) as real
    ensures var n := Norm(v, extent);
      v < 0.0 ==> ((n - 1) * extent) as real < 100.0 * v <= (n * extent) as real
  {
    ScaleBracket(v, extent as real, Norm(v, extent));
  }

  /** Multiplying the bracket around `(v / e) * 100` through by `e > 0`. */
  lemma ScaleBracket(v: real, e: real, n: int)
    requires e > 0.0
    requires 0.0 <= v ==> n as real <= (v / e) * 100.0 < n as real + 1.0
    requires v < 0.0 ==> n as real - 1.0 < (v / e) * 100.0 <= n as real
    ensures 0.0 <= v ==> (n as real) * e <= 100.0 * v < (n as real + 1.0) * e
    ensures v < 0.0 ==> (n as real - 1.0) * e < 100.0 * v <= (n as real) * e
  {
    var q := (v / e) * 100.0;
    assert q * e == 100.0 * v;
    if 0.0 <= v {
      Scale(q, n as real, n as real + 1.0, e, 100.0 * v);
    } else {
      Scale(q, n as real - 1.0, n as real, e, 100.0 * v);
    }
  }

  /** Multiplying `lo <= q < hi` (or `lo < q <= hi`) through by `e > 0`, where `q * e == x`. */
  lemma Scale(q: real, lo: real, hi: real, e: real, x: real)
    requires e > 0.0 && q * e == x
    ensures lo <= q < hi ==> lo * e <= x < hi * e
    ensures lo < q <= hi ==> lo * e < x <= hi * e
  {
  }

  /** Truncation never decreases when its argument grows. */
  lemma TruncMonotone(x: real, y: real)
    requires x <= y
    ensures Trunc(x) <= Trunc(y)
  {
  }

  /** A coordinate inside the image, 0 <= v <= extent, normalises into [0, 100]. */
  lemma NormRange(v: real, extent: Extent)
    requires 0.0 <= v <= extent as real
    ensures 0 <= Norm(v, extent) <= 100
  {
  }

  /** The near edge maps to 0 and the far edge to exactly 100. */
  lemma NormEndpoints(extent: Extent)
    ensures Norm(0.0, extent) == 0
    ensures Norm(extent as real, extent) == 100
  {
    var e := extent as real;
    assert e / e == 1.0;
  }

  /** Normalisation is monotone non-decreasing in the coordinate. */
  lemma NormMonotone(v: real, w: real, extent: Extent)
    requires v <= w
    ensures Norm(v, extent) <= Norm(w, extent)
  {
    var e := extent as real;
    assert v / e <= w / e;
    TruncMonotone((v / e) * 100.0, (w / e) * 100.0);
  }

  /**
   A coordinate less than one percent of the extent below zero still
   normalises to 0, because `int()` truncates toward zero; a floor would give -1.
   Matplotlib reports positions down to -0.5 pixel at the left and top edges
   of a displayed image, so presses there can fall in this case for any
   extent; the whole strip from -0.5 up to 0 falls in it once the extent
   exceeds 50 pixels (at exactly 50, -0.5 itself normalises to -1).
   */
  lemma NormTruncatesTowardZero(v: real, extent: Extent)
    requires -(extent as real) < 100.0 * v < 0.0
    ensures Norm(v, extent) == 0
    ensures ((v / extent as real) * 100.0).Floor == -1
  {
    var e := extent as real;
    var q := (v / e) * 100.0;
    assert q * e == 100.0 * v;
    if q <= -1.0 {
      MulMono(q, -1.0, e);
      assert false;
    }
    if q >= 0.0 {
      MulMono(0.0, q, e);
      assert false;
    }
  }

  /** Multiplying `a <= b` through by `e > 0`. */
  lemma MulMono(a: real, b: real, e: real)
    requires a <= b && e > 0.0
    ensures a * e <= b * e
  {
  }
}
