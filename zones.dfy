/**
 * The five target zones of the canonical sheet: the crop each zone's ring is
 * searched in (`get_crop_coordinates`), the per-zone refinement in the fixed
 * zone order (`get_targets_ellipse`), and the translation of crop-local ellipse
 * centres into sheet coordinates (`target_coordinates_to_sheet_coordinates`).
 *
 * A crop's `x1`/`x2` are ROW bounds and `y1`/`y2` COLUMN bounds: the crop is
 * taken as `sheet[x1:x2, y1:y2]`. An ellipse centre's `x` is a column and its
 * `y` a row, so a crop starting at row `x1` and column `y1` shifts a centre by
 * `(y1, x1)`.
 */
module Zones {
  import opened Wrappers
  import opened Geometry

  datatype Zone = TopLeft | TopRight | BottomLeft | BottomRight | Center | Undefined

  predicate IsQuadrant(z: Zone) {
    z == TopLeft || z == TopRight || z == BottomLeft || z == BottomRight
  }

  /** `PICTURE_SIZE_SHEET_DETECTION`: side of the rectified canonical sheet. */
  const PictureSize: nat := 1000

  /** The order in which `get_targets_ellipse` inserts the zones into its dictionary. */
  const TargetOrder: seq<Zone> := [TopLeft, TopRight, Center, BottomLeft, BottomRight]

  /** The crop dictionary `{'x1', 'x2', 'y1', 'y2'}`: rows `x1..x2`, columns `y1..y2`, half-open. */
  datatype Crop = Crop(x1: int, x2: int, y1: int, y2: int)

  predicate Contains(c: Crop, row: int, col: int) {
    c.x1 <= row < c.x2 && c.y1 <= col < c.y2
  }

  /**
   * Reference table of the crops. `width`/`height` are as the source names them
   * (`height, width, _ = image.shape`); note that the row bounds come from
   * `width` and the column bounds from `height`, which agree on the square sheet.
   */
  function CropOf(width: nat, height: nat, z: Zone): Crop {
    match z
    case TopLeft => Crop(0, width / 2, 0, height / 2)
    case TopRight => Crop(0, width / 2, height / 2, height)
    case BottomLeft => Crop(width / 2, width, 0, height / 2)
    case BottomRight => Crop(width / 2, width, height / 2, height)
    case Center => Crop(width / 4, width - width / 4, height / 4, height - height / 4)
    case Undefined => Crop(0, width, 0, height)
  }

  /** `get_crop_coordinates`: the full frame, narrowed branch by branch. */
  method GetCropCoordinates(width: nat, height: nat, z: Zone) returns (c: Crop)
    ensures c == CropOf(width, height, z)
  {
    var x1, x2, y1, y2 := 0, width, 0, height;
    if z in [BottomLeft, BottomRight] {
      x1 := width / 2;
    }
    if z in [TopRight, BottomRight] {
      y1 := height / 2;
    }
    if z in [TopLeft, TopRight] {
      x2 := width / 2;
    }
    if z in [TopLeft, BottomLeft] {
      y2 := height / 2;
    }
    if z == Center {
      x1, y1 := width / 4, height / 4;
      x2, y2 := width - x1, height - y1;
    }
    c := Crop(x1, x2, y1, y2);
  }

  /** Every crop lies within the frame and is well ordered. */
  lemma CropWithinFrame(width: nat, height: nat, z: Zone)
    ensures var c := CropOf(width, height, z);
      0 <= c.x1 <= c.x2 <= width && 0 <= c.y1 <= c.y2 <= height
  {
  }

  /** The CENTER crop is the middle half of both axes, symmetric about the middle. */
  lemma CenterCropSymmetric(width: nat, height: nat)
    ensures var c := CropOf(width, height, Center);
      c.x1 == width / 4 && c.y1 == height / 4 && c.x1 + c.x2 == width && c.y1 + c.y2 == height
  {
  }

  /** Each quadrant is bounded by the frame's edges and its floor-halves; UNDEFINED keeps the full frame. */
  lemma QuadrantBounds(width: nat, height: nat, z: Zone)
    requires IsQuadrant(z)
    ensures var c := CropOf(width, height, z);
      (c.x1 == 0 && c.x2 == width / 2) || (c.x1 == width / 2 && c.x2 == width)
    ensures var c := CropOf(width, height, z);
      (c.y1 == 0 && c.y2 == height / 2) || (c.y1 == height / 2 && c.y2 == height)
    ensures CropOf(width, height, Undefined) == Crop(0, width, 0, height)
  {
  }

  /** The four quadrants tile the frame: every pixel lies in exactly one of them. */
  lemma QuadrantsTile(width: nat, height: nat, row: int, col: int)
    requires 0 <= row < width && 0 <= col < height
    ensures exists z :: IsQuadrant(z) && Contains(CropOf(width, height, z), row, col)
    ensures forall z1, z2 ::
      IsQuadrant(z1) && IsQuadrant(z2) &&
      Contains(CropOf(width, height, z1), row, col) && Contains(CropOf(width, height, z2), row, col)
      ==> z1 == z2
  {
    var z := if row < width / 2 then (if col < height / 2 then TopLeft else TopRight)
             else (if col < height / 2 then BottomLeft else BottomRight);
    assert Contains(CropOf(width, height, z), row, col);
  }

  /** The entries of the zone-to-ellipse dictionary, in insertion order. */
  datatype ZoneEllipse = ZoneEllipse(zone: Zone, ellipse: Ellipse)

  function KeysOf(t: seq<ZoneEllipse>): (zs: seq<Zone>)
    ensures |zs| == |t|
    ensures forall k :: 0 <= k < |t| ==> zs[k] == t[k].zone
  {
    seq(|t|, k requires 0 <= k < |t| => t[k].zone)
  }

  /**
   * Offset the sheet translation adds to a crop-local centre, or None for a key
   * it has no branch for (UNDEFINED), which it then drops.
   */
  function SheetOffset(z: Zone): Option<Point> {
    match z
    case TopLeft => Some(Point(0.0, 0.0))
    case BottomLeft => Some(Point(0.0, (PictureSize / 2) as real))
    case TopRight => Some(Point((PictureSize / 2) as real, 0.0))
    case BottomRight => Some(Point((PictureSize / 2) as real, (PictureSize / 2) as real))
    case Center => Some(Point((PictureSize / 4) as real, (PictureSize / 4) as real))
    case Undefined => None
  }

  /** Centre moved by `off`; axes and rotation untouched. */
  function Shift(e: Ellipse, off: Point): Ellipse {
    Ellipse(Point(e.center.x + off.x, e.center.y + off.y), e.radii, e.rotation)
  }

  /** Reference definition of the translated dictionary: a filter-map in insertion order. */
  function SheetTargets(t: seq<ZoneEllipse>): seq<ZoneEllipse>
    decreases |t|
  {
    if t == [] then []
    else
      var front, last := SheetTargets(t[..|t| - 1]), t[|t| - 1];
      match SheetOffset(last.zone)
      case None => front
      case Some(off) => front + [ZoneEllipse(last.zone, Shift(last.ellipse, off))]
  }

  /** `target_coordinates_to_sheet_coordinates`: one branch per zone, as the source writes them. */
  method TargetsToSheet(ellipses: seq<ZoneEllipse>) returns (sheet: seq<ZoneEllipse>)
    ensures sheet == SheetTargets(ellipses)
  {
    sheet := [];
    var i := 0;
    while i < |ellipses|
      invariant 0 <= i <= |ellipses|
      invariant sheet == SheetTargets(ellipses[..i])
    {
      var key, value := ellipses[i].zone, ellipses[i].ellipse;
      var c := value.center;
      assert ellipses[..i + 1][..i] == ellipses[..i];
      if key == TopLeft {
        sheet := sheet + [ZoneEllipse(key, Ellipse(c, value.radii, value.rotation))];
      } else if key == BottomLeft {
        sheet := sheet + [ZoneEllipse(key, Ellipse(Point(c.x, c.y + (PictureSize / 2) as real), value.radii, value.rotation))];
      } else if key == TopRight {
        sheet := sheet + [ZoneEllipse(key, Ellipse(Point(c.x + (PictureSize / 2) as real, c.y), value.radii, value.rotation))];
      } else if key == BottomRight {
        sheet := sheet + [ZoneEllipse(key, Ellipse(Point(c.x + (PictureSize / 2) as real, c.y + (PictureSize / 2) as real), value.radii, value.rotation))];
      } else if key == Center {
        sheet := sheet + [ZoneEllipse(key, Ellipse(Point(c.x + (PictureSize / 4) as real, c.y + (PictureSize / 4) as real), value.radii, value.rotation))];
      }
      i := i + 1;
    }
    assert ellipses[..i] == ellipses;
  }

  /** On the canonical sheet, each offset is the zone's crop origin: column start on x, row start on y. */
  lemma OffsetIsCropOrigin(z: Zone)
    requires z != Undefined
    ensures var c := CropOf(PictureSize, PictureSize, z);
      SheetOffset(z) == Some(Point(c.y1 as real, c.x1 as real))
  {
  }

  /** Zones with UNDEFINED removed, order kept. */
  function WithoutUndefined(zs: seq<Zone>): (r: seq<Zone>)
    decreases |zs|
  {
    if zs == [] then []
    else
      var front := WithoutUndefined(zs[..|zs| - 1]);
      if zs[|zs| - 1] == Undefined then front else front + [zs[|zs| - 1]]
  }

  /** The translated dictionary has the input's keys, UNDEFINED dropped, in the same order. */
  lemma {:induction false} SheetTargetsZones(t: seq<ZoneEllipse>)
    ensures KeysOf(SheetTargets(t)) == WithoutUndefined(KeysOf(t))
    decreases |t|
  {
    if t != [] {
      var front := t[..|t| - 1];
      SheetTargetsZones(front);
      assert KeysOf(t)[..|t| - 1] == KeysOf(front);
      assert KeysOf(t)[|t| - 1] == t[|t| - 1].zone;
    }
  }

  /** A zone survives the filter exactly when it was present and is not UNDEFINED. */
  lemma {:induction false} WithoutUndefinedMembers(zs: seq<Zone>, z: Zone)
    ensures z in WithoutUndefined(zs) <==> z in zs && z != Undefined
    decreases |zs|
  {
    if zs != [] {
      var front := zs[..|zs| - 1];
      WithoutUndefinedMembers(front, z);
      assert zs == front + [zs[|zs| - 1]];
    }
  }

  /**
   * Every entry of the translated dictionary is an input entry with a real zone,
   * its centre moved by that zone's offset and its axes and rotation unchanged;
   * and every input entry with a real zone appears so translated.
   */
  lemma {:induction false} SheetTargetsEntries(t: seq<ZoneEllipse>)
    ensures forall y :: y in SheetTargets(t) ==>
      y.zone != Undefined &&
      exists k :: 0 <= k < |t| && t[k].zone == y.zone && y.ellipse == Shift(t[k].ellipse, SheetOffset(y.zone).value)
    ensures forall k :: 0 <= k < |t| && t[k].zone != Undefined ==>
      ZoneEllipse(t[k].zone, Shift(t[k].ellipse, SheetOffset(t[k].zone).value)) in SheetTargets(t)
    decreases |t|
  {
    if t != [] {
      var front := t[..|t| - 1];
      SheetTargetsEntries(front);
      forall y | y in SheetTargets(t)
        ensures y.zone != Undefined &&
          exists k :: 0 <= k < |t| && t[k].zone == y.zone && y.ellipse == Shift(t[k].ellipse, SheetOffset(y.zone).value)
      {
        if y in SheetTargets(front) {
          var k :| 0 <= k < |front| && front[k].zone == y.zone && y.ellipse == Shift(front[k].ellipse, SheetOffset(y.zone).value);
          assert t[k] == front[k];
        } else {
          assert t[|t| - 1].zone == y.zone;
        }
      }
      forall k | 0 <= k < |t| && t[k].zone != Undefined
        ensures ZoneEllipse(t[k].zone, Shift(t[k].ellipse, SheetOffset(t[k].zone).value)) in SheetTargets(t)
      {
        if k < |t| - 1 {
          assert t[k] == front[k];
        }
      }
    }
  }

  /** The five real zones all survive the translation. */
  lemma SheetTargetsKeepsZones(t: seq<ZoneEllipse>)
    requires forall z :: z in TargetOrder ==> z in KeysOf(t)
    ensures forall z :: z in TargetOrder ==> z in KeysOf(SheetTargets(t))
    ensures Undefined !in KeysOf(SheetTargets(t))
  {
    SheetTargetsZones(t);
    forall z | z in TargetOrder ensures z in KeysOf(SheetTargets(t)) {
      WithoutUndefinedMembers(KeysOf(t), z);
    }
    WithoutUndefinedMembers(KeysOf(t), Undefined);
  }

  /** Zone `k` of `TargetOrder` is the first whose refinement fails, with error `e`. */
  ghost predicate FirstFailure<E>(refine: Crop -> Result<Ellipse, E>, k: int, e: E) {
    && 0 <= k < |TargetOrder|
    && refine(CropOf(PictureSize, PictureSize, TargetOrder[k])) == Failure(e)
    && forall j :: 0 <= j < k ==> refine(CropOf(PictureSize, PictureSize, TargetOrder[j])).Success?
  }

  /**
   * `get_targets_ellipse`: crop the canonical sheet for each zone in
   * `TargetOrder` and refine its ring; the first failing zone aborts the whole
   * dictionary. The refinement of a crop's pixels is the parameter `refine`.
   */
  method TargetsEllipse<E>(refine: Crop -> Result<Ellipse, E>) returns (r: Result<seq<ZoneEllipse>, E>)
    ensures r.Success? <==> forall k :: 0 <= k < |TargetOrder| ==> refine(CropOf(PictureSize, PictureSize, TargetOrder[k])).Success?
    ensures r.Success? ==> KeysOf(r.value) == TargetOrder
    ensures r.Success? ==> forall k :: 0 <= k < |TargetOrder| ==>
      r.value[k].ellipse == refine(CropOf(PictureSize, PictureSize, TargetOrder[k])).value
    ensures r.Failure? ==> exists k :: FirstFailure(refine, k, r.error)
  {
    var ellipses: seq<ZoneEllipse> := [];
    var i := 0;
    while i < |TargetOrder|
      invariant 0 <= i <= |TargetOrder|
      invariant |ellipses| == i
      invariant forall k :: 0 <= k < i ==> refine(CropOf(PictureSize, PictureSize, TargetOrder[k])).Success?
      invariant forall k :: 0 <= k < i ==>
        ellipses[k] == ZoneEllipse(TargetOrder[k], refine(CropOf(PictureSize, PictureSize, TargetOrder[k])).value)
    {
      var zone := TargetOrder[i];
      var crop := GetCropCoordinates(PictureSize, PictureSize, zone);
      var ring := refine(crop);
      if ring.Failure? {
        assert FirstFailure(refine, i, ring.error);
        return Failure(ring.error);
      }
      ellipses := ellipses + [ZoneEllipse(zone, ring.value)];
      i := i + 1;
    }
    r := Success(ellipses);
  }
}
