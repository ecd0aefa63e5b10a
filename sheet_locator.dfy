/**
 * Locating the sheet: the choice of the quadrilateral contour the rectification
 * is built from (`get_biggest_valid_contour`), and the conversions between
 * pixel vertices and frame fractions (`coordinates_to_percentage`,
 * `percentage_to_coordinates`) that carry the corners from the fixed detection
 * resolution back to the photograph's own resolution.
 */
module SheetLocator {
  import opened Wrappers
  import opened Geometry
  import Zones

  /** A polygon as `approxPolyDP` returns it: its integer vertices in order. */
  type Polygon = seq<Pixel>

  /** Area of the detection frame, `PICTURE_SIZE_SHEET_DETECTION * PICTURE_SIZE_SHEET_DETECTION`. */
  const FrameArea: real := (Zones.PictureSize * Zones.PictureSize) as real

  /** Twice the signed shoelace sum over the edges from vertex `i` on (closing edge included). */
  function CrossSum(p: Polygon, i: nat): int
    requires i <= |p|
    decreases |p| - i
  {
    if i == |p| then 0
    else
      var a, b := p[i], p[(i + 1) % |p|];
      a.x * b.y - b.x * a.y + CrossSum(p, i + 1)
  }

  /** `cv2.contourArea` of a polygon with integer vertices: the unsigned shoelace area, exactly. */
  function Area(p: Polygon): real {
    var s := CrossSum(p, 0);
    (if s < 0 then -s else s) as real / 2.0
  }

  /**
   * The three filters a candidate must pass: exactly four vertices, every
   * corner angle within [70, 110] degrees (`anglesOk`, computed with `acos` in
   * the source), and an area between 10% and 90% of the frame.
   */
  predicate Passes(q: Polygon, anglesOk: Polygon -> bool) {
    |q| == 4 && anglesOk(q) && !(Area(q) / FrameArea < 0.1 || Area(q) / FrameArea > 0.9)
  }

  /**
   * Among the first `n` contours, candidate `k` passes, no passing candidate is
   * larger, and every later passing candidate is strictly smaller (so `k` is the
   * last of the equally largest ones).
   */
  ghost predicate BiggestAmong(contours: seq<Polygon>, approx: Polygon -> Polygon, anglesOk: Polygon -> bool, n: int, k: int)
    requires 0 <= n <= |contours|
  {
    && 0 <= k < n
    && Passes(approx(contours[k]), anglesOk)
    && (forall j :: 0 <= j < n && Passes(approx(contours[j]), anglesOk) ==> Area(approx(contours[j])) <= Area(approx(contours[k])))
    && (forall j :: k < j < n && Passes(approx(contours[j]), anglesOk) ==> Area(approx(contours[j])) < Area(approx(contours[k])))
  }

  /**
   * `get_biggest_valid_contour`. `approx` stands for
   * `approxPolyDP(contour, 0.01 * arcLength(contour))`. A candidate is skipped
   * only when it is strictly smaller than the best so far, so a later candidate
   * of equal area replaces the earlier one.
   */
  method BiggestValidContour(contours: seq<Polygon>, approx: Polygon -> Polygon, anglesOk: Polygon -> bool)
    returns (r: Option<Polygon>)
    ensures r.None? <==> forall k :: 0 <= k < |contours| ==> !Passes(approx(contours[k]), anglesOk)
    ensures r.Some? ==> exists k :: BiggestAmong(contours, approx, anglesOk, |contours|, k) && r.value == approx(contours[k])
  {
    var biggest: Option<Polygon> := None;
    var biggestArea: real := 0.0;
    ghost var best := -1;
    var i := 0;
    while i < |contours|
      invariant 0 <= i <= |contours|
      invariant -1 <= best < i
      invariant best == -1 <==> biggest.None?
      invariant best == -1 ==> biggestArea == 0.0 && forall j :: 0 <= j < i ==> !Passes(approx(contours[j]), anglesOk)
      invariant best >= 0 ==> BiggestAmong(contours, approx, anglesOk, i, best)
      invariant best >= 0 ==> biggest == Some(approx(contours[best])) && biggestArea == Area(approx(contours[best]))
    {
      var candidate := approx(contours[i]);
      if |candidate| != 4 || Area(candidate) < biggestArea {
        i := i + 1;
        continue;
      }
      if !anglesOk(candidate) {
        i := i + 1;
        continue;
      }
      var area := Area(candidate);
      if area / FrameArea < 0.1 || area / FrameArea > 0.9 {
        i := i + 1;
        continue;
      }
      biggest := Some(candidate);
      biggestArea := area;
      best := i;
      i := i + 1;
    }
    r := biggest;
  }

  /** One vertex as a fraction of the frame (`coordinate / width`, true division). */
  function ToFraction(c: Pixel, width: int, height: int): Point
    requires width != 0 && height != 0
  {
    Point(c.x as real / width as real, c.y as real / height as real)
  }

  /** One fraction back to a pixel of a `width` by `height` frame; `int()` truncates. */
  function ToPixel(p: Point, width: int, height: int): Pixel {
    Pixel(Trunc(p.x * width as real), Trunc(p.y * height as real))
  }

  /** `coordinates_to_percentage`: same length, same order, each vertex divided by the frame size. */
  method CoordinatesToPercentage(coordinates: seq<Pixel>, width: int, height: int) returns (fractions: seq<Point>)
    requires width != 0 && height != 0
    ensures |fractions| == |coordinates|
    ensures forall k :: 0 <= k < |coordinates| ==> fractions[k] == ToFraction(coordinates[k], width, height)
  {
    fractions := [];
    for i := 0 to |coordinates|
      invariant |fractions| == i
      invariant forall k :: 0 <= k < i ==> fractions[k] == ToFraction(coordinates[k], width, height)
    {
      fractions := fractions + [Point(coordinates[i].x as real / width as real, coordinates[i].y as real / height as real)];
    }
  }

  /** `percentage_to_coordinates`: same length, same order, each fraction scaled and truncated. */
  method PercentageToCoordinates(fractions: seq<Point>, width: int, height: int) returns (coordinates: seq<Pixel>)
    ensures |coordinates| == |fractions|
    ensures forall k :: 0 <= k < |fractions| ==> coordinates[k] == ToPixel(fractions[k], width, height)
  {
    coordinates := [];
    for i := 0 to |fractions|
      invariant |coordinates| == i
      invariant forall k :: 0 <= k < i ==> coordinates[k] == ToPixel(fractions[k], width, height)
    {
      coordinates := coordinates + [ToPixel(fractions[i], width, height)];
    }
  }

  /** Converting to fractions and back at the same resolution returns the vertex (in exact arithmetic). */
  lemma FractionRoundTrip(c: Pixel, width: int, height: int)
    requires width != 0 && height != 0
    ensures ToPixel(ToFraction(c, width, height), width, height) == c
  {
    var w, h := width as real, height as real;
    assert c.x as real / w * w == c.x as real;
    assert c.y as real / h * h == c.y as real;
    TruncOfInt(c.x);
    TruncOfInt(c.y);
  }

  /** A vertex inside the frame becomes a fraction in [0, 1]. */
  lemma FractionInUnit(c: Pixel, width: int, height: int)
    requires width > 0 && height > 0
    requires 0 <= c.x <= width && 0 <= c.y <= height
    ensures var f := ToFraction(c, width, height); 0.0 <= f.x <= 1.0 && 0.0 <= f.y <= 1.0
  {
    DivideWithin(c.x as real, width as real);
    DivideWithin(c.y as real, height as real);
  }

  /** A fraction in [0, 1] becomes a pixel inside the frame. */
  lemma PixelInFrame(p: Point, width: int, height: int)
    requires width > 0 && height > 0
    requires 0.0 <= p.x <= 1.0 && 0.0 <= p.y <= 1.0
    ensures var q := ToPixel(p, width, height); 0 <= q.x <= width && 0 <= q.y <= height
  {
    TruncScaled(p.x, width);
    TruncScaled(p.y, height);
  }

  lemma TruncScaled(a: real, n: int)
    requires n > 0 && 0.0 <= a <= 1.0
    ensures 0 <= Trunc(a * n as real) <= n
  {
    ScaleWithin(a, n as real);
    TruncWithin(a * n as real, n);
  }

  lemma DivideWithin(a: real, w: real)
    requires w > 0.0 && 0.0 <= a <= w
    ensures 0.0 <= a / w <= 1.0
  {
    assert a / w * w == a;
  }

  lemma ScaleWithin(a: real, w: real)
    requires w > 0.0 && 0.0 <= a <= 1.0
    ensures 0.0 <= a * w <= w
  {
    assert (1.0 - a) * w >= 0.0;
  }

  /**
   * `get_sheet_coordinates` after segmentation: no mask (`contours` is None) or
   * no passing candidate gives None; otherwise the four vertices of the chosen
   * candidate as fractions of the detection frame.
   */
  method SheetCoordinates(contours: Option<seq<Polygon>>, approx: Polygon -> Polygon, anglesOk: Polygon -> bool)
    returns (r: Option<seq<Point>>)
    ensures r.None? <==> contours.None? || forall k :: 0 <= k < |contours.value| ==> !Passes(approx(contours.value[k]), anglesOk)
    ensures r.Some? ==> |r.value| == 4 && exists k ::
      && BiggestAmong(contours.value, approx, anglesOk, |contours.value|, k)
      && forall v :: 0 <= v < 4 ==> r.value[v] == ToFraction(approx(contours.value[k])[v], Zones.PictureSize, Zones.PictureSize)
  {
    if contours.None? {
      return None;
    }
    var biggest := BiggestValidContour(contours.value, approx, anglesOk);
    if biggest.None? {
      return None;
    }
    var corners := biggest.value;
    var fractions := CoordinatesToPercentage([corners[0], corners[1], corners[2], corners[3]], Zones.PictureSize, Zones.PictureSize);
    r := Some(fractions);
  }
}
