/**
 * `get_score`: the step function from a rounded physical distance (mm) to a score.
 * Six points are lost for each of the first five millimetres, three for each
 * millimetre after that, and anything past 48 mm scores nothing.
 */
module Scoring {

  /** `maximum_impact_distance` in `get_score`. */
  const MaxImpactDistance: int := 48
  const PerfectScore: int := 570

  function MinInt(a: int, b: int): int { if a <= b then a else b }
  function MaxInt(a: int, b: int): int { if a >= b then a else b }

  /** The closed form the two loops compute. */
  function Score(d: int): int {
    if d > MaxImpactDistance then 0
    else
      var m := MaxInt(0, d);
      PerfectScore - 6 * MinInt(m, 5) - 3 * MaxInt(0, m - 5)
  }

  /**
   * The source's loops, including Python's loop-variable semantics: `i` keeps
   * the last value the first `for` gave it (4 after five full rounds, the
   * round it broke in otherwise), and the second loop runs over `range(i, 48)`.
   */
  method GetScore(distance: int) returns (score: int)
    ensures score == Score(distance)
  {
    score := PerfectScore;
    var i := 0;
    var d := distance;
    if d > MaxImpactDistance {
      return 0;
    }
    // for i in range(5)
    var k := 0;
    while k < 5
      invariant 0 <= k <= 5
      invariant d == distance - k && score == PerfectScore - 6 * k
      invariant k == 0 || distance >= k
      invariant i == (if k == 0 then 0 else k - 1)
    {
      i := k;
      if d <= 0 {
        break;
      }
      score := score - 6;
      d := d - 1;
      k := k + 1;
    }
    assert d <= 0 || (k == 5 && i == 4);
    ghost var d1, s1 := d, score;
    // for i in range(i, 48)
    k := i;
    while k < MaxImpactDistance
      invariant i <= k <= MaxImpactDistance
      invariant d == d1 - (k - i) && score == s1 - 3 * (k - i)
      invariant k == i || k - i <= d1
    {
      if d <= 0 {
        break;
      }
      score := score - 3;
      d := d - 1;
      k := k + 1;
    }
    // The 44 rounds of the second loop always suffice: the distance is used up.
    assert d <= 0;
  }

  /** A farther impact never scores more. */
  lemma ScoreNonIncreasing(d1: int, d2: int)
    requires d1 <= d2
    ensures Score(d2) <= Score(d1)
  {
  }

  /** Every score is 0 or lies between the 48 mm score and the perfect score. */
  lemma ScoreRange(d: int)
    ensures Score(d) == 0 || 411 <= Score(d) <= PerfectScore
    ensures Score(d) == 0 <==> d > MaxImpactDistance
  {
  }

  /** The boundary values at 0, 5, 10, 48 and 49 mm. */
  lemma ScoreBoundaries()
    ensures Score(0) == 570 && Score(5) == 540 && Score(10) == 525
    ensures Score(48) == 411 && Score(49) == 0
    ensures forall d :: d <= 0 ==> Score(d) == PerfectScore
  {
  }
}
