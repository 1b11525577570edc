/** Intersection-over-union of two rectangles, as used by non-max suppression. */
module Geometry {
  import opened Types

  function Max(a: real, b: real): real { if a >= b then a else b }
  function Min(a: real, b: real): real { if a <= b then a else b }

  /** The signed area (right - left) * (bottom - top); it is positive for a
      box whose two sides are both reversed. */
  function Area(r: Rect): real {
    (r.right - r.left) * (r.bottom - r.top)
  }

  /** The clamped overlap width and height of a and b. */
  function OverlapWidth(a: Rect, b: Rect): real {
    Max(Min(a.right, b.right) - Max(a.left, b.left), 0.0)
  }

  function OverlapHeight(a: Rect, b: Rect): real {
    Max(Min(a.bottom, b.bottom) - Max(a.top, b.top), 0.0)
  }

  /** Area of the intersection rectangle; never negative, because each side
      is clamped at zero before multiplying. */
  function IntersectionArea(a: Rect, b: Rect): (r: real)
    ensures r >= 0.0
  {
    OverlapHeight(a, b) * OverlapWidth(a, b)
  }

  /** The intersection of a and b is no larger than either area, whenever
      that area is positive. */
  lemma IntersectionWithin(a: Rect, b: Rect)
    requires Area(a) > 0.0 && Area(b) > 0.0
    ensures IntersectionArea(a, b) <= Area(a)
    ensures IntersectionArea(a, b) <= Area(b)
  {
    WithinOne(a, b);
    WithinOne(b, a);
    assert OverlapWidth(a, b) == OverlapWidth(b, a);
    assert OverlapHeight(a, b) == OverlapHeight(b, a);
  }

  lemma WithinOne(a: Rect, b: Rect)
    requires Area(a) > 0.0
    ensures IntersectionArea(a, b) <= Area(a)
  {
    var w, h := a.right - a.left, a.bottom - a.top;
    var ow, oh := OverlapWidth(a, b), OverlapHeight(a, b);
    if w > 0.0 && h > 0.0 {
      assert ow <= w && oh <= h;
      calc {
        oh * ow;
      <= { assert oh * ow <= h * ow; }
        h * ow;
      <= { assert h * ow <= h * w; }
        h * w;
      }
    } else {
      // a positive product of two non-positive sides: both are negative,
      // so the overlap width is clamped to zero
      if w >= 0.0 {
        if h <= 0.0 { assert w * h <= 0.0 by { NonPositiveProduct(w, h); } }
        else { assert w * h <= 0.0 by { NonPositiveProduct(h, w); } assert w == 0.0; }
      }
      assert ow == 0.0;
    }
  }

  lemma NonPositiveProduct(x: real, y: real)
    requires x >= 0.0 && y <= 0.0
    ensures x * y <= 0.0
  {
    assert x * (-y) >= 0.0;
  }

  lemma RatioInUnit(n: real, d: real)
    requires 0.0 <= n <= d && d > 0.0
    ensures 0.0 <= n / d <= 1.0
  {
    assert n / d * d == n;
  }

  /** Computes intersection-over-union; a rectangle whose area is not
      positive overlaps nothing. */
  function Iou(a: Rect, b: Rect): (r: real)
    ensures Area(a) <= 0.0 || Area(b) <= 0.0 ==> r == 0.0
    ensures 0.0 <= r <= 1.0
  {
    if Area(a) <= 0.0 then 0.0
    else if Area(b) <= 0.0 then 0.0
    else
      IntersectionWithin(a, b);
      RatioInUnit(IntersectionArea(a, b), Area(a) + Area(b) - IntersectionArea(a, b));
      IntersectionArea(a, b) / (Area(a) + Area(b) - IntersectionArea(a, b))
  }

  /** A properly oriented box overlaps itself completely. */
  lemma IouIdentical(a: Rect)
    requires a.right > a.left && a.bottom > a.top
    ensures Iou(a, a) == 1.0
  {
    var w, h := a.right - a.left, a.bottom - a.top;
    assert OverlapWidth(a, a) == w && OverlapHeight(a, a) == h;
    assert Area(a) > 0.0 by { assert w * h > 0.0 by { assert w * h > 0.0 * h; } }
    assert IntersectionArea(a, a) == Area(a);
  }

  lemma NoOverlapZero(a: Rect, b: Rect)
    requires OverlapWidth(a, b) == 0.0 || OverlapHeight(a, b) == 0.0
    ensures Iou(a, b) == 0.0
  {
    assert IntersectionArea(a, b) == 0.0;
  }

  /** Boxes separated horizontally or vertically have IOU zero. */
  lemma IouDisjoint(a: Rect, b: Rect)
    requires a.right <= b.left || b.right <= a.left || a.bottom <= b.top || b.bottom <= a.top
    ensures Iou(a, b) == 0.0
  {
    NoOverlapZero(a, b);
  }

  /** A box with a reversed or empty side has IOU zero with every box, even
      when both sides are reversed and its signed area is positive. */
  lemma IouMisoriented(a: Rect, b: Rect)
    requires a.right <= a.left || a.bottom <= a.top
    ensures Iou(a, b) == 0.0
    ensures Iou(b, a) == 0.0
  {
    NoOverlapZero(a, b);
    NoOverlapZero(b, a);
  }
}
