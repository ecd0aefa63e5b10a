/**
 * Scoring the impacts on the canonical sheet (`draw_and_get_impacts_points`):
 * each impact goes to the zone whose ellipse centre is nearest, with ties to
 * the zone met first in the dictionary's order; that zone's ellipse gives the
 * physical distance, the distance the score, and one `Impact` record is
 * appended per impact. An empty zone dictionary is an error.
 */
module ScoreEngine {
  import opened Wrappers
  import opened Geometry
  import opened Zones
  import opened Scoring

  /** `ValueError('Aucune zone trouvée')`. */
  datatype ScoreError = NoZoneFound

  /** The `Impact` record. */
  datatype Impact = Impact(distance: int, score: int, zone: Zone, angle: real, amount: int)

  /**
   * Square of `get_distance`. The square root is monotone, so comparing squares
   * selects the same zone and breaks the same ties.
   */
  function SquaredDistance(p: Pixel, c: Point): (d: real)
    ensures d >= 0.0
  {
    var dx, dy := p.x as real - c.x, p.y as real - c.y;
    dx * dx + dy * dy
  }

  function CentreDistance(p: Pixel, t: seq<ZoneEllipse>, k: int): real
    requires 0 <= k < |t|
  {
    SquaredDistance(p, t[k].ellipse.center)
  }

  /** Entry `k` is nearest to `p`, and every earlier entry is strictly farther. */
  ghost predicate IsFirstNearest(p: Pixel, t: seq<ZoneEllipse>, k: int) {
    && 0 <= k < |t|
    && (forall j :: 0 <= j < |t| ==> CentreDistance(p, t, k) <= CentreDistance(p, t, j))
    && (forall j :: 0 <= j < k ==> CentreDistance(p, t, j) > CentreDistance(p, t, k))
  }

  /**
   * The inner loop of `draw_and_get_impacts_points`: a strict `>` argmin over
   * the entries in order. `min_distance = float('inf')` is represented by None,
   * which every finite distance beats.
   */
  method NearestZone(p: Pixel, targets: seq<ZoneEllipse>) returns (r: Result<Zone, ScoreError>)
    ensures r.Failure? <==> targets == []
    ensures r.Success? ==> exists k :: IsFirstNearest(p, targets, k) && targets[k].zone == r.value
  {
    var minDistance: Option<real> := None;
    var closestZone: Option<Zone> := None;
    ghost var best := -1;
    for i := 0 to |targets|
      invariant -1 <= best < i || (i == 0 && best == -1)
      invariant best == -1 <==> i == 0
      invariant best == -1 <==> closestZone.None?
      invariant best == -1 <==> minDistance.None?
      invariant best >= 0 ==> closestZone == Some(targets[best].zone) && minDistance == Some(CentreDistance(p, targets, best))
      invariant best >= 0 ==> forall j :: 0 <= j < i ==> CentreDistance(p, targets, best) <= CentreDistance(p, targets, j)
      invariant best >= 0 ==> forall j :: 0 <= j < best ==> CentreDistance(p, targets, j) > CentreDistance(p, targets, best)
    {
      var distance := SquaredDistance(p, targets[i].ellipse.center);
      if minDistance.None? || minDistance.value > distance {
        minDistance := Some(distance);
        closestZone := Some(targets[i].zone);
        best := i;
      }
    }
    if closestZone.None? {
      return Failure(NoZoneFound);
    }
    assert IsFirstNearest(p, targets, best);
    r := Success(closestZone.value);
  }

  /** The contract of NearestZone determines a single entry. */
  lemma FirstNearestUnique(p: Pixel, t: seq<ZoneEllipse>, k1: int, k2: int)
    requires IsFirstNearest(p, t, k1) && IsFirstNearest(p, t, k2)
    ensures k1 == k2
  {
    // Each is at most the other, so neither can be strictly farther.
    assert CentreDistance(p, t, k1) == CentreDistance(p, t, k2);
  }

  /** Two entries tied at the minimum distance: the later one is never chosen. */
  lemma TieGoesToEarlier(p: Pixel, t: seq<ZoneEllipse>, k: int, a: int, b: int)
    requires IsFirstNearest(p, t, k)
    requires 0 <= a < b < |t| && CentreDistance(p, t, a) == CentreDistance(p, t, b)
    requires forall j :: 0 <= j < |t| ==> CentreDistance(p, t, a) <= CentreDistance(p, t, j)
    ensures k <= a
  {
  }

  /** `targets_ellipsis[zone]`: the first entry with that key. */
  function Lookup(t: seq<ZoneEllipse>, z: Zone): (r: Option<Ellipse>)
    ensures r.Some? ==> ZoneEllipse(z, r.value) in t
    ensures r.None? ==> forall k :: 0 <= k < |t| ==> t[k].zone != z
  {
    if t == [] then None
    else if t[0].zone == z then Some(t[0].ellipse)
    else Lookup(t[1..], z)
  }

  /** Dictionary keys are distinct. */
  ghost predicate DistinctZones(t: seq<ZoneEllipse>) {
    forall i, j :: 0 <= i < j < |t| ==> t[i].zone != t[j].zone
  }

  /** With distinct keys, looking up an entry's key gives that entry's ellipse. */
  lemma {:induction false} LookupEntry(t: seq<ZoneEllipse>, k: int)
    requires DistinctZones(t) && 0 <= k < |t|
    ensures Lookup(t, t[k].zone) == Some(t[k].ellipse)
  {
    if k > 0 {
      assert t[0].zone != t[k].zone;
      assert t[1..][k - 1] == t[k];
      LookupEntry(t[1..], k - 1);
    }
  }

  /**
   * The dictionary scored against is the translation of the one
   * `get_targets_ellipse` builds: keys TOP_LEFT, TOP_RIGHT, CENTER,
   * BOTTOM_LEFT, BOTTOM_RIGHT in that order. The translation keeps that order,
   * so the keys are distinct, none is UNDEFINED and the dictionary is never
   * empty (`ImpactsPoints` then cannot fail).
   */
  lemma SheetDictionaryShape(v: seq<ZoneEllipse>)
    requires KeysOf(v) == TargetOrder
    ensures KeysOf(SheetTargets(v)) == TargetOrder
    ensures |SheetTargets(v)| == |TargetOrder|
    ensures DistinctZones(SheetTargets(v))
    ensures Undefined !in KeysOf(SheetTargets(v))
  {
    SheetTargetsZones(v);
    var o := TargetOrder;
    assert WithoutUndefined(o[..1]) == o[..1];
    assert WithoutUndefined(o[..2]) == o[..2] by { assert o[..2][..1] == o[..1]; }
    assert WithoutUndefined(o[..3]) == o[..3] by { assert o[..3][..2] == o[..2]; }
    assert WithoutUndefined(o[..4]) == o[..4] by { assert o[..4][..3] == o[..3]; }
    assert WithoutUndefined(o) == o by { assert o[..4] == o[..|o| - 1]; }
    var keys := KeysOf(SheetTargets(v));
    forall i, j | 0 <= i < j < |SheetTargets(v)|
      ensures SheetTargets(v)[i].zone != SheetTargets(v)[j].zone
    {
      assert keys[i] == SheetTargets(v)[i].zone && keys[j] == SheetTargets(v)[j].zone;
    }
  }

  /**
   * What an appended record says about impact `p`: its zone is that of the
   * first nearest centre, its distance is the physical distance `measure`
   * computes against that zone's ellipse (`get_real_distance` with the border
   * point), its score is `Score` of that distance, its angle the bearing of the
   * impact to the centre (`to_degrees(atan2(...))`) plus 180, and its amount 1.
   */
  ghost predicate ScoredAs(p: Pixel, targets: seq<ZoneEllipse>, measure: (Pixel, Ellipse) -> int,
                           bearing: (Pixel, Point) -> real, imp: Impact)
  {
    && (exists k :: IsFirstNearest(p, targets, k) && targets[k].zone == imp.zone)
    && Lookup(targets, imp.zone).Some?
    && var e := Lookup(targets, imp.zone).value;
    && imp.distance == measure(p, e)
    && imp.score == Score(imp.distance)
    && imp.angle == bearing(p, e.center) + 180.0
    && imp.amount == 1
  }

  /**
   * `draw_and_get_impacts_points` without the drawing: one record appended to
   * `points` per impact, in order; the first impact met with an empty zone
   * dictionary raises, so no list is produced.
   */
  method ImpactsPoints(impacts: seq<Pixel>, points: seq<Impact>, targets: seq<ZoneEllipse>,
                       measure: (Pixel, Ellipse) -> int, bearing: (Pixel, Point) -> real)
    returns (r: Result<seq<Impact>, ScoreError>)
    ensures r.Failure? <==> targets == [] && impacts != []
    ensures r.Success? ==> |r.value| == |points| + |impacts| && r.value[..|points|] == points
    ensures r.Success? ==> forall m :: 0 <= m < |impacts| ==> ScoredAs(impacts[m], targets, measure, bearing, r.value[|points| + m])
  {
    var out := points;
    for i := 0 to |impacts|
      invariant |out| == |points| + i && out[..|points|] == points
      invariant forall m :: 0 <= m < i ==> ScoredAs(impacts[m], targets, measure, bearing, out[|points| + m])
      invariant i > 0 ==> targets != []
    {
      var impact := impacts[i];
      var closest := NearestZone(impact, targets);
      if closest.Failure? {
        return Failure(closest.error);
      }
      var zone := closest.value;
      var e := Lookup(targets, zone);
      assert e.Some?;
      var realDistance := measure(impact, e.value);
      var score := GetScore(realDistance);
      var record := Impact(realDistance, score, zone, bearing(impact, e.value.center) + 180.0, 1);
      assert ScoredAs(impact, targets, measure, bearing, record);
      out := out + [record];
    }
    r := Success(out);
  }

  /** Every recorded score is 0 or between 411 and 570, and is 0 exactly beyond 48 mm. */
  lemma ScoredImpactBounds(p: Pixel, targets: seq<ZoneEllipse>, measure: (Pixel, Ellipse) -> int,
                           bearing: (Pixel, Point) -> real, imp: Impact)
    requires ScoredAs(p, targets, measure, bearing, imp)
    ensures imp.score == 0 || 411 <= imp.score <= 570
    ensures imp.score == 0 <==> imp.distance > MaxImpactDistance
  {
    ScoreRange(imp.distance);
  }

  /**
   * On the translated sheet dictionary (no UNDEFINED key, distinct keys), a
   * record's distance is measured against the ellipse of the very entry chosen
   * as nearest, and its zone is a real zone.
   */
  lemma ScoredAgainstChosenEntry(p: Pixel, targets: seq<ZoneEllipse>, measure: (Pixel, Ellipse) -> int,
                                 bearing: (Pixel, Point) -> real, imp: Impact)
    requires DistinctZones(targets) && Undefined !in KeysOf(targets)
    requires ScoredAs(p, targets, measure, bearing, imp)
    ensures imp.zone != Undefined
    ensures exists k :: IsFirstNearest(p, targets, k) && targets[k].zone == imp.zone && imp.distance == measure(p, targets[k].ellipse)
  {
    var k :| IsFirstNearest(p, targets, k) && targets[k].zone == imp.zone;
    LookupEntry(targets, k);
    assert targets[k].zone in KeysOf(targets);
  }
}
