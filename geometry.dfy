/**
 * Shared geometric values and the small pure helpers of target_detection.py:
 * points, ellipses as OpenCV describes them ((centre), (axes), rotation),
 * `clamp`, `grow_ellipse`, the aspect-ratio gate used on every refit, and the
 * truncation that Python's `int()` applies to a float.
 */
module Geometry {

  /** A point with real coordinates (ellipse centres, sheet fractions). */
  datatype Point = Point(x: real, y: real)

  /** An integer pixel location (contour vertices, impact centres). */
  datatype Pixel = Pixel(x: int, y: int)

  /** An ellipse as `cv2.fitEllipse` returns it: centre, the two axis lengths, rotation in degrees. */
  datatype Ellipse = Ellipse(center: Point, radii: Point, rotation: real)

  function Min(a: real, b: real): real { if a <= b then a else b }
  function Max(a: real, b: real): real { if a >= b then a else b }

  /**
   * `clamp(value, min_value, max_value) = max(min_value, min(value, max_value))`.
   * The source's defaults are -1.0 and 1.0; callers pass them explicitly here.
   * No order between the bounds is demanded: with lo > hi the lower bound wins.
   */
  function Clamp(value: real, lo: real, hi: real): (r: real)
    ensures lo <= hi ==> lo <= r <= hi
    ensures lo <= value <= hi ==> r == value
    ensures value < lo ==> r == lo
    ensures lo <= hi < value ==> r == hi
    ensures hi < lo ==> r == lo
  {
    Max(lo, Min(value, hi))
  }

  /** `grow_ellipse`: both axes scaled by `factor`, centre and rotation kept. */
  function GrowEllipse(e: Ellipse, factor: real): (r: Ellipse)
    ensures r.center == e.center && r.rotation == e.rotation
    ensures factor > 0.0 && e.radii.x > 0.0 ==> (r.radii.x > e.radii.x <==> factor > 1.0)
    ensures factor > 0.0 && e.radii.y > 0.0 ==> (r.radii.y > e.radii.y <==> factor > 1.0)
    ensures r.radii.x * e.radii.y == r.radii.y * e.radii.x
  {
    Ellipse(e.center, Point(e.radii.x * factor, e.radii.y * factor), e.rotation)
  }

  /**
   * The refit gate at target_detection.py:354 and :366: a refit is rejected when
   * its first axis is below 0.7 times or above 1.3 times its second axis.
   */
  predicate AspectOk(e: Ellipse) {
    !(e.radii.x < e.radii.y * 0.7 || e.radii.x > e.radii.y * 1.3)
  }

  /** Growing twice is growing once by the product of the factors. */
  lemma GrowComposes(e: Ellipse, a: real, b: real)
    ensures GrowEllipse(GrowEllipse(e, a), b) == GrowEllipse(e, a * b)
  {
    assert e.radii.x * a * b == e.radii.x * (a * b);
    assert e.radii.y * a * b == e.radii.y * (a * b);
  }

  /** Growing by 1 changes nothing. */
  lemma GrowByOne(e: Ellipse)
    ensures GrowEllipse(e, 1.0) == e
  {
  }

  /** The rings drawn around a target are grown copies, so a positive factor keeps the aspect gate's verdict. */
  lemma GrowKeepsAspect(e: Ellipse, factor: real)
    requires factor > 0.0
    ensures AspectOk(GrowEllipse(e, factor)) <==> AspectOk(e)
  {
    var rx, ry := e.radii.x, e.radii.y;
    var g := GrowEllipse(e, factor);
    ScaledBound(rx, ry, 0.7, factor, g.radii.x, g.radii.y);
    ScaledBound(rx, ry, 1.3, factor, g.radii.x, g.radii.y);
  }

  /** Comparing `x = a * f` against `y * c` with `y = b * f` and `f` positive is comparing `a` against `b * c`. */
  lemma ScaledBound(a: real, b: real, c: real, f: real, x: real, y: real)
    requires f > 0.0 && x == a * f && y == b * f
    ensures x < y * c <==> a < b * c
    ensures x > y * c <==> a > b * c
  {
    assert y * c == (b * c) * f;
    MulPositiveMonotone(a, b * c, f);
    MulPositiveMonotone(b * c, a, f);
  }

  /** With a positive second axis, the gate accepts exactly the axis ratios from 0.7 to 1.3. */
  lemma AspectRatio(e: Ellipse)
    requires e.radii.y > 0.0
    ensures AspectOk(e) <==> 0.7 <= e.radii.x / e.radii.y <= 1.3
  {
    var rx, ry := e.radii.x, e.radii.y;
    RatioBound(rx, ry, 0.7, rx / ry);
    RatioBound(rx, ry, 1.3, rx / ry);
  }

  /** For a positive `b`, comparing the ratio `q = a / b` against `c` is comparing `a` against `b * c`. */
  lemma RatioBound(a: real, b: real, c: real, q: real)
    requires b > 0.0 && q == a / b
    ensures q < c <==> a < b * c
    ensures q > c <==> a > b * c
  {
    assert q * b == a;
    assert c * b == b * c;
    MulPositiveMonotone(q, c, b);
    MulPositiveMonotone(c, q, b);
  }

  /**
   * The gate compares the first axis to the second, not the smaller to the
   * larger: swapping the two axes can change its verdict.
   */
  lemma AxisOrderMatters()
    ensures exists e: Ellipse ::
      AspectOk(e) && !AspectOk(Ellipse(e.center, Point(e.radii.y, e.radii.x), e.rotation))
  {
    var e := Ellipse(Point(0.0, 0.0), Point(0.7, 1.0), 0.0);
    assert AspectOk(e);
    assert !AspectOk(Ellipse(e.center, Point(e.radii.y, e.radii.x), e.rotation));
  }

  lemma MulPositiveMonotone(a: real, b: real, f: real)
    requires f > 0.0
    ensures a * f < b * f <==> a < b
  {
    if a < b {
      assert (b - a) * f > 0.0;
    } else {
      assert (a - b) * f >= 0.0;
    }
  }

  /** Python's `int()` of a float: truncation toward zero. */
  function Trunc(r: real): (n: int)
    ensures r >= 0.0 ==> 0.0 <= n as real <= r < n as real + 1.0
    ensures r < 0.0 ==> n as real - 1.0 < r <= n as real <= 0.0
  {
    if r >= 0.0 then r.Floor else -((-r).Floor)
  }

  /** Truncating a value in [0, n] stays in [0, n]. */
  lemma TruncWithin(r: real, n: int)
    requires 0.0 <= r <= n as real
    ensures 0 <= Trunc(r) <= n
  {
    assert Trunc(r) == r.Floor;
  }

  /** An integral value is its own truncation. */
  lemma TruncOfInt(n: int)
    ensures Trunc(n as real) == n
  {
  }
}
