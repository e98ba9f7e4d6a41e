/**
 * Box geometry of the line assembler (BV/test5.py): four-point detector boxes,
 * their axis-aligned hulls, crop boxes clamped to the image and padded, the
 * vertical overlap ratio and the spacing test between neighbouring tokens.
 * Coordinates are exact reals; Python's `int()` of a float is `Trunc`.
 */
module Geometry {
  import opened Ordering

  datatype Point = Point(x: real, y: real)

  /** A detected text region: four corners, not necessarily axis-aligned. */
  datatype Quad = Quad(p0: Point, p1: Point, p2: Point, p3: Point)

  /** An axis-aligned box `(x1, y1, x2, y2)` in image coordinates. */
  datatype ABox = ABox(x1: real, y1: real, x2: real, y2: real)

  /** An integer pixel box `(x1, y1, x2, y2)` used to crop the image. */
  datatype PixelBox = PixelBox(x1: int, y1: int, x2: int, y2: int)

  function Xs(q: Quad): seq<real> { [q.p0.x, q.p1.x, q.p2.x, q.p3.x] }

  function Ys(q: Quad): seq<real> { [q.p0.y, q.p1.y, q.p2.y, q.p3.y] }

  /** Python's `int(x)` for a float: rounds toward zero. */
  function Trunc(x: real): (n: int)
    ensures x >= 0.0 ==> 0 <= n && n as real <= x < n as real + 1.0
    ensures x < 0.0 ==> n <= 0 && n as real - 1.0 < x <= n as real
  {
    if x >= 0.0 then x.Floor else -((-x).Floor)
  }

  /** Truncation is monotone, so the least truncated coordinate is the truncated least one. */
  lemma TruncMonotone(a: real, b: real)
    requires a <= b
    ensures Trunc(a) <= Trunc(b)
  {
  }

  /** `_quad_to_abbox`: the hull of the four corners. */
  function QuadToABox(q: Quad): (r: ABox)
    ensures r.x1 <= r.x2 && r.y1 <= r.y2
  {
    ABox(Min(Xs(q)), Min(Ys(q)), Max(Xs(q)), Max(Ys(q)))
  }

  /** The axis box is the tightest box around the four corners: each side touches a corner. */
  lemma QuadToABoxIsHull(q: Quad)
    ensures var r := QuadToABox(q);
            && r.x1 in Xs(q) && r.x2 in Xs(q) && r.y1 in Ys(q) && r.y2 in Ys(q)
            && forall i :: 0 <= i < 4 ==> r.x1 <= Xs(q)[i] <= r.x2 && r.y1 <= Ys(q)[i] <= r.y2
  {
  }

  function MaxInt(a: int, b: int): int { if a >= b then a else b }

  function MinInt(a: int, b: int): int { if a <= b then a else b }

  /**
   * `_quad_to_bbox`: truncated hull, each side clamped on its own, the low
   * sides to 0 and the high sides to `w - 1` / `h - 1`.
   */
  function QuadToBBox(q: Quad, w: int, h: int): (r: PixelBox)
    ensures 0 <= r.x1 && 0 <= r.y1 && r.x2 <= w - 1 && r.y2 <= h - 1
    ensures 0 <= Trunc(Min(Xs(q))) && Trunc(Max(Xs(q))) <= w - 1 ==>
              r.x1 == Trunc(Min(Xs(q))) <= r.x2 == Trunc(Max(Xs(q)))
    ensures 0 <= Trunc(Min(Ys(q))) && Trunc(Max(Ys(q))) <= h - 1 ==>
              r.y1 == Trunc(Min(Ys(q))) <= r.y2 == Trunc(Max(Ys(q)))
  {
    TruncMonotone(Min(Xs(q)), Max(Xs(q)));
    TruncMonotone(Min(Ys(q)), Max(Ys(q)));
    PixelBox(MaxInt(Trunc(Min(Xs(q))), 0), MaxInt(Trunc(Min(Ys(q))), 0),
             MinInt(Trunc(Max(Xs(q))), w - 1), MinInt(Trunc(Max(Ys(q))), h - 1))
  }

  /** A box lying wholly to the right of the image comes out with `x1 > x2`. */
  lemma QuadToBBoxCanInvert()
    ensures var q := Quad(Point(150.0, 10.0), Point(170.0, 10.0), Point(170.0, 20.0), Point(150.0, 20.0));
            var r := QuadToBBox(q, 100, 100);
            r.x1 == 150 && r.x2 == 99 && r.x1 > r.x2
  {
    var q := Quad(Point(150.0, 10.0), Point(170.0, 10.0), Point(170.0, 20.0), Point(150.0, 20.0));
    assert Min(Xs(q)) == 150.0;
    assert Max(Xs(q)) == 170.0;
  }

  /** The box lies in `[0, w-1] x [0, h-1]` and is not inverted. */
  predicate InsideImage(b: PixelBox, w: int, h: int)
  {
    0 <= b.x1 <= b.x2 <= w - 1 && 0 <= b.y1 <= b.y2 <= h - 1
  }

  /**
   * `pad_bbox_xyxy`: widen each side by `int(max(1, width) * padX)` (and
   * likewise vertically), then clamp to the image. The result never leaves
   * `[0, w-1] x [0, h-1]` on its clamped sides; with non-negative ratios a box
   * inside the image stays inside and is contained in the padded one.
   */
  function PadBox(b: PixelBox, w: int, h: int, padY: real, padX: real): (r: PixelBox)
    ensures 0 <= r.x1 && 0 <= r.y1 && r.x2 <= w - 1 && r.y2 <= h - 1
    ensures 0.0 <= padX && 0.0 <= padY && InsideImage(b, w, h) ==>
              InsideImage(r, w, h) && r.x1 <= b.x1 && b.x2 <= r.x2 && r.y1 <= b.y1 && b.y2 <= r.y2
  {
    var bw := MaxInt(1, b.x2 - b.x1);
    var bh := MaxInt(1, b.y2 - b.y1);
    var px := Trunc(bw as real * padX);
    var py := Trunc(bh as real * padY);
    PixelBox(MaxInt(0, b.x1 - px), MaxInt(0, b.y1 - py), MinInt(w - 1, b.x2 + px), MinInt(h - 1, b.y2 + py))
  }

  /** The padding ratios the assembler uses. */
  const PadYRatio: real := 0.12
  const PadXRatio: real := 0.06

  /** The box's y-extent is not inverted. */
  predicate YOrdered(b: ABox) { b.y1 <= b.y2 }

  /**
   * `_vertical_iou`: intersection over union of the two y-intervals, with
   * `1e-6` added to the union. It lies in `[0, 1)` and is 0 exactly when the
   * intervals do not overlap.
   */
  function VerticalIou(a: ABox, b: ABox): (r: real)
    requires YOrdered(a) && YOrdered(b)
    ensures 0.0 <= r < 1.0
    ensures r == 0.0 <==> (if a.y2 <= b.y2 then a.y2 else b.y2) <= (if a.y1 >= b.y1 then a.y1 else b.y1)
  {
    var top := if a.y1 >= b.y1 then a.y1 else b.y1;
    var bottom := if a.y2 <= b.y2 then a.y2 else b.y2;
    var inter := if bottom - top > 0.0 then bottom - top else 0.0;
    var union := (a.y2 - a.y1) + (b.y2 - b.y1) - inter + 0.000001;
    assert inter <= a.y2 - a.y1 && inter <= b.y2 - b.y1;
    assert 0.0 <= inter < union;
    inter / union
  }

  /** The overlap ratio does not depend on the order of its arguments. */
  lemma VerticalIouSymmetric(a: ABox, b: ABox)
    requires YOrdered(a) && YOrdered(b)
    ensures VerticalIou(a, b) == VerticalIou(b, a)
  {
  }

  /** The overlap ratio reads only the y-coordinates. */
  lemma VerticalIouIgnoresX(a: ABox, b: ABox, ax1: real, ax2: real, bx1: real, bx2: real)
    requires YOrdered(a) && YOrdered(b)
    ensures VerticalIou(a, b) == VerticalIou(ABox(ax1, a.y1, ax2, a.y2), ABox(bx1, b.y1, bx2, b.y2))
  {
  }

  /**
   * `_need_space`: a space goes before `cur` when the horizontal gap after
   * `prev` exceeds a quarter of the pair's mean height (at least 1).
   */
  function NeedSpace(prev: ABox, cur: ABox): (r: bool)
    ensures cur.x1 <= prev.x2 ==> !r
    ensures cur.x1 > prev.x2 ==>
              (r <==> cur.x1 - prev.x2 > 0.25 * MaxReal(1.0, ((prev.y2 - prev.y1) + (cur.y2 - cur.y1)) / 2.0))
  {
    var gap := MaxReal(0.0, cur.x1 - prev.x2);
    var h := MaxReal(1.0, (prev.y2 - prev.y1 + cur.y2 - cur.y1) / 2.0);
    gap > 0.25 * h
  }

  function MaxReal(a: real, b: real): real { if a >= b then a else b }

  /** Moving the current box further right never removes a space. */
  lemma NeedSpaceMonotone(prev: ABox, cur: ABox, shift: real)
    requires shift >= 0.0
    requires NeedSpace(prev, cur)
    ensures NeedSpace(prev, ABox(cur.x1 + shift, cur.y1, cur.x2 + shift, cur.y2))
  {
  }
}
