/**
 * `get_target_ellipse`: fitting the printed ring of one zone crop. The working
 * mask is the dark-ink mask cut to the region-of-interest disc with the impact
 * marks removed; it is cleaned by morphology, fitted, and then refined in 5
 * fill rounds (`close | (E ^ close)`, E the filled current ellipse) and 5 trim
 * rounds (`close & E`), each followed by a refit that must pass the aspect gate.
 * The initial fit is not put through the gate.
 *
 * Rasterising, morphology and the contour search with `fitEllipse` are pixel
 * algorithms of OpenCV; they are the parameters bundled in `RingOps`.
 */
module EllipseRefiner {
  import opened Wrappers
  import opened Geometry
  import opened Masks

  /**
   * The two ways a refinement stops early. NoContour: `max()` of an empty
   * contour list raises `ValueError` (a `fitEllipse` on too few points, which
   * raises `cv2.error`, is folded in here). InvalidRingGeometry: the explicit
   * `ValueError` of the aspect-ratio gate.
   */
  datatype RingError = NoContour | InvalidRingGeometry

  datatype RingOps = RingOps(
    /** pixel (i, j) of `MORPH_OPEN(MORPH_CLOSE(m))` with the round kernel */
    clean: (Mask, int, int) -> bool,
    /** largest external contour by area, then `fitEllipse`; None when there is none to fit */
    fit: Mask -> Option<Ellipse>,
    /** whether pixel (i, j) is painted by a filled `cv2.ellipse` of the ellipse */
    inside: (Ellipse, int, int) -> bool)

  const FillRounds: nat := 5
  const TotalRounds: nat := 10

  // ---------------------------------------------------------------------------
  // Round control, independent of how a mask is represented

  /**
   * The outcome of rounds `round` to 9: each round rewrites the mask with
   * `step`, refits it, fails on a missing contour or on a refit outside the
   * aspect gate, and otherwise hands the refit to the next round.
   */
  function Drive<M>(step: (M, Ellipse, nat) -> M, fit: M -> Option<Ellipse>, close: M, e: Ellipse, round: nat)
    : Result<Ellipse, RingError>
    requires round <= TotalRounds
    decreases TotalRounds - round
  {
    if round == TotalRounds then Success(e)
    else
      var next := step(close, e, round);
      match fit(next)
      case None => Failure(NoContour)
      case Some(refit) =>
        if !AspectOk(refit) then Failure(InvalidRingGeometry)
        else Drive(step, fit, next, refit, round + 1)
  }

  /** The refits of rounds `round` to 9 with the aspect gate switched off, up to the first missing contour. */
  function Trace<M>(step: (M, Ellipse, nat) -> M, fit: M -> Option<Ellipse>, close: M, e: Ellipse, round: nat)
    : seq<Ellipse>
    requires round <= TotalRounds
    decreases TotalRounds - round
  {
    if round == TotalRounds then []
    else
      var next := step(close, e, round);
      match fit(next)
      case None => []
      case Some(refit) => [refit] + Trace(step, fit, next, refit, round + 1)
  }

  /** At most one refit per remaining round. */
  lemma {:induction false} TraceBounded<M>(step: (M, Ellipse, nat) -> M, fit: M -> Option<Ellipse>, close: M, e: Ellipse, round: nat)
    requires round <= TotalRounds
    decreases TotalRounds - round
    ensures |Trace(step, fit, close, e, round)| <= TotalRounds - round
  {
    if round < TotalRounds {
      var next := step(close, e, round);
      if fit(next).Some? {
        TraceBounded(step, fit, next, fit(next).value, round + 1);
      }
    }
  }

  /** Success exactly when every remaining round refits and passes the gate; the result is the last refit. */
  lemma {:induction false} DriveSuccess<M>(step: (M, Ellipse, nat) -> M, fit: M -> Option<Ellipse>, close: M, e: Ellipse, round: nat)
    requires round <= TotalRounds
    decreases TotalRounds - round
    ensures var r, t := Drive(step, fit, close, e, round), Trace(step, fit, close, e, round);
      r.Success? <==> |t| == TotalRounds - round && forall k :: 0 <= k < |t| ==> AspectOk(t[k])
    ensures var r, t := Drive(step, fit, close, e, round), Trace(step, fit, close, e, round);
      r.Success? ==> r.value == if t == [] then e else t[|t| - 1]
  {
    if round < TotalRounds {
      var next := step(close, e, round);
      if fit(next).Some? {
        var refit := fit(next).value;
        DriveSuccess(step, fit, next, refit, round + 1);
        var tail := Trace(step, fit, next, refit, round + 1);
        var t := Trace(step, fit, close, e, round);
        assert t == [refit] + tail;
        assert forall k :: 0 < k < |t| ==> t[k] == tail[k - 1];
        assert forall k :: 0 <= k < |tail| ==> tail[k] == t[k + 1];
        if !AspectOk(refit) {
          assert !AspectOk(t[0]);
        }
      }
    }
  }

  /** The aspect-ratio failure happens exactly when some refit fails the gate. */
  lemma {:induction false} DriveInvalid<M>(step: (M, Ellipse, nat) -> M, fit: M -> Option<Ellipse>, close: M, e: Ellipse, round: nat)
    requires round <= TotalRounds
    decreases TotalRounds - round
    ensures var r, t := Drive(step, fit, close, e, round), Trace(step, fit, close, e, round);
      r == Failure(InvalidRingGeometry) <==> exists k :: 0 <= k < |t| && !AspectOk(t[k])
  {
    var r, t := Drive(step, fit, close, e, round), Trace(step, fit, close, e, round);
    if round < TotalRounds {
      var next := step(close, e, round);
      if fit(next).Some? {
        var refit := fit(next).value;
        assert fit(next) == Some(refit);
        DriveInvalid(step, fit, next, refit, round + 1);
        var tail := Trace(step, fit, next, refit, round + 1);
        assert t == [refit] + tail;
        if !AspectOk(refit) {
          assert r == Failure(InvalidRingGeometry);
          assert t[0] == refit;
          assert exists k :: 0 <= k < |t| && !AspectOk(t[k]);
          assert r == Drive(step, fit, close, e, round);
          assert t == Trace(step, fit, close, e, round);
          assert (r == Failure(InvalidRingGeometry)) <==> exists k :: 0 <= k < |t| && !AspectOk(t[k]);
        } else {
          assert r == Drive(step, fit, next, refit, round + 1);
          forall k | 0 <= k < |t| && !AspectOk(t[k])
            ensures 0 <= k - 1 < |tail| && !AspectOk(tail[k - 1])
          {
            assert t[k] == tail[k - 1];
          }
          forall k | 0 <= k < |tail| && !AspectOk(tail[k])
            ensures !AspectOk(t[k + 1])
          {
            assert t[k + 1] == tail[k];
          }
        }
      } else {
        assert r == Failure(NoContour) && t == [];
      }
    } else {
      assert r == Success(e) && t == [];
    }
  }

  /** A mask that every step leaves alone and that refits to a valid `e` is returned as `e`. */
  lemma {:induction false} DriveFixed<M>(step: (M, Ellipse, nat) -> M, fit: M -> Option<Ellipse>, m: M, e: Ellipse, round: nat)
    requires round <= TotalRounds
    requires forall k: nat :: round <= k < TotalRounds ==> step(m, e, k) == m
    requires fit(m) == Some(e) && AspectOk(e)
    decreases TotalRounds - round
    ensures Drive(step, fit, m, e, round) == Success(e)
  {
    if round < TotalRounds {
      assert step(m, e, round) == m;
      DriveFixed(step, fit, m, e, round + 1);
    }
  }

  // ---------------------------------------------------------------------------
  // The mask steps of the source

  /** The filled ellipse E on a blank `rows` by `cols` mask (`np.zeros` + `cv2.ellipse(..., -1)`). */
  function Raster(ops: RingOps, rows: nat, cols: nat, e: Ellipse): (m: Mask)
    ensures Shaped(m, rows, cols)
  {
    seq(rows, i => seq(cols, j => ops.inside(e, i, j)))
  }

  /** The morphologically cleaned working mask. */
  function Cleaned(ops: RingOps, rows: nat, cols: nat, working: Mask): (m: Mask)
    ensures Shaped(m, rows, cols)
  {
    seq(rows, i => seq(cols, j => ops.clean(working, i, j)))
  }

  /** A fill round's mask: `close | (E ^ close)`. */
  function Fill(ops: RingOps, rows: nat, cols: nat, close: Mask, e: Ellipse): (m: Mask)
    requires Shaped(close, rows, cols)
    ensures Shaped(m, rows, cols)
  {
    var disc := Raster(ops, rows, cols, e);
    Or(close, Xor(disc, close))
  }

  /** A trim round's mask: `close & E`. */
  function Trim(ops: RingOps, rows: nat, cols: nat, close: Mask, e: Ellipse): (m: Mask)
    requires Shaped(close, rows, cols)
    ensures Shaped(m, rows, cols)
  {
    And(close, Raster(ops, rows, cols, e))
  }

  /** Rounds 0 to 4 fill, rounds 5 to 9 trim. */
  function RoundStep(ops: RingOps, rows: nat, cols: nat): (Mask, Ellipse, nat) -> Mask {
    (close: Mask, e: Ellipse, round: nat) =>
      if !Shaped(close, rows, cols) then close
      else if round < FillRounds then Fill(ops, rows, cols, close, e)
      else Trim(ops, rows, cols, close, e)
  }

  /** The refinement rounds on masks. */
  function Refine(ops: RingOps, rows: nat, cols: nat, close: Mask, e: Ellipse, round: nat): Result<Ellipse, RingError>
    requires round <= TotalRounds
  {
    Drive(RoundStep(ops, rows, cols), ops.fit, close, e, round)
  }

  /** Their refits with the gate switched off. */
  function Refits(ops: RingOps, rows: nat, cols: nat, close: Mask, e: Ellipse, round: nat): seq<Ellipse>
    requires round <= TotalRounds
  {
    Trace(RoundStep(ops, rows, cols), ops.fit, close, e, round)
  }

  /** Reference definition of the whole of `get_target_ellipse` on mask values. */
  function RingEllipse(ops: RingOps, rows: nat, cols: nat, value: Mask, disc: Mask, impacts: Mask): Result<Ellipse, RingError>
    requires Shaped(value, rows, cols) && Shaped(disc, rows, cols) && Shaped(impacts, rows, cols)
  {
    var working := And(And(value, disc), Not(impacts));
    var close := Cleaned(ops, rows, cols, working);
    match ops.fit(close)
    case None => Failure(NoContour)
    case Some(e) => Refine(ops, rows, cols, close, e, 0)
  }

  /**
   * The refinement runs at most ten refits; it fails with InvalidRingGeometry
   * exactly when one of them fails the aspect gate, with NoContour exactly when
   * a mask runs out of contours before that, and otherwise returns the tenth refit.
   */
  lemma RefineOutcome(ops: RingOps, rows: nat, cols: nat, close: Mask, e: Ellipse, round: nat)
    requires round <= TotalRounds
    ensures var t := Refits(ops, rows, cols, close, e, round); |t| <= TotalRounds - round
    ensures var r, t := Refine(ops, rows, cols, close, e, round), Refits(ops, rows, cols, close, e, round);
      r.Success? <==> |t| == TotalRounds - round && forall k :: 0 <= k < |t| ==> AspectOk(t[k])
    ensures var r, t := Refine(ops, rows, cols, close, e, round), Refits(ops, rows, cols, close, e, round);
      r.Success? ==> r.value == if t == [] then e else t[|t| - 1]
    ensures var r, t := Refine(ops, rows, cols, close, e, round), Refits(ops, rows, cols, close, e, round);
      r == Failure(InvalidRingGeometry) <==> exists k :: 0 <= k < |t| && !AspectOk(t[k])
    ensures var r, t := Refine(ops, rows, cols, close, e, round), Refits(ops, rows, cols, close, e, round);
      r == Failure(NoContour) <==> |t| < TotalRounds - round && forall k :: 0 <= k < |t| ==> AspectOk(t[k])
  {
    var step := RoundStep(ops, rows, cols);
    TraceBounded(step, ops.fit, close, e, round);
    DriveSuccess(step, ops.fit, close, e, round);
    DriveInvalid(step, ops.fit, close, e, round);
    var r := Refine(ops, rows, cols, close, e, round);
    assert r.Success? || r == Failure(NoContour) || r == Failure(InvalidRingGeometry) by {
      if r.Failure? {
        match r.error
        case NoContour =>
        case InvalidRingGeometry =>
      }
    }
  }

  /** A successful refinement returns an ellipse that passes the aspect gate. */
  lemma RingEllipseValid(ops: RingOps, rows: nat, cols: nat, value: Mask, disc: Mask, impacts: Mask)
    requires Shaped(value, rows, cols) && Shaped(disc, rows, cols) && Shaped(impacts, rows, cols)
    ensures var r := RingEllipse(ops, rows, cols, value, disc, impacts); r.Success? ==> AspectOk(r.value)
  {
    var working := And(And(value, disc), Not(impacts));
    var close := Cleaned(ops, rows, cols, working);
    match ops.fit(close)
    case None =>
    case Some(e) =>
      RefineOutcome(ops, rows, cols, close, e, 0);
  }

  /**
   * Idempotence at convergence: when the mask already is the filled ellipse and
   * refitting it gives back that ellipse, which passes the gate, every remaining
   * round keeps both and the refinement returns the same ellipse.
   */
  lemma ConvergedIsFixed(ops: RingOps, rows: nat, cols: nat, e: Ellipse, round: nat)
    requires round <= TotalRounds
    requires ops.fit(Raster(ops, rows, cols, e)) == Some(e) && AspectOk(e)
    ensures Refine(ops, rows, cols, Raster(ops, rows, cols, e), e, round) == Success(e)
  {
    var m := Raster(ops, rows, cols, e);
    var step := RoundStep(ops, rows, cols);
    StepsFixRaster(m);
    forall k: nat | round <= k < TotalRounds ensures step(m, e, k) == m {
      if k < FillRounds {
        assert step(m, e, k) == Fill(ops, rows, cols, m, e);
      } else {
        assert step(m, e, k) == Trim(ops, rows, cols, m, e);
      }
    }
    DriveFixed(step, ops.fit, m, e, round);
  }

  // ---------------------------------------------------------------------------
  // The buffers

  /** One fill round on buffers: rasterise E on a new blank buffer, XOR, OR into a new `close`. */
  method FillRound(close: array2<bool>, e: Ellipse, ops: RingOps) returns (next: array2<bool>)
    ensures fresh(next) && next.Length0 == close.Length0 && next.Length1 == close.Length1
    ensures Snapshot(next) == Fill(ops, close.Length0, close.Length1, Snapshot(close), e)
  {
    var rows, cols := close.Length0, close.Length1;
    var filled := TabulateBuffer(rows, cols, (i, j) => ops.inside(e, i, j));
    MaskExt(Snapshot(filled), Raster(ops, rows, cols, e));
    var xor := XorOf(filled, close);
    next := OrOf(close, xor);
  }

  /** One trim round on buffers: rasterise E on a new blank buffer and AND it into `close` in place. */
  method TrimRound(close: array2<bool>, e: Ellipse, ops: RingOps)
    modifies close
    ensures Snapshot(close) == Trim(ops, close.Length0, close.Length1, old(Snapshot(close)), e)
  {
    var rows, cols := close.Length0, close.Length1;
    var filled := TabulateBuffer(rows, cols, (i, j) => ops.inside(e, i, j));
    MaskExt(Snapshot(filled), Raster(ops, rows, cols, e));
    AndInPlace(close, filled);
  }

  /** The working mask: `valueMask` narrowed in place to the disc, then with the impact marks removed. */
  method Prepare(valueMask: array2<bool>, disc: array2<bool>, impacts: array2<bool>)
    requires valueMask != disc && valueMask != impacts
    requires disc.Length0 == valueMask.Length0 && disc.Length1 == valueMask.Length1
    requires impacts.Length0 == valueMask.Length0 && impacts.Length1 == valueMask.Length1
    modifies valueMask
    ensures Snapshot(valueMask) == And(And(old(Snapshot(valueMask)), Snapshot(disc)), Not(Snapshot(impacts)))
  {
    AndInPlace(valueMask, disc);
    var notImpacts := NotOf(impacts);
    AndInPlace(valueMask, notImpacts);
  }

  /**
   * The five fill rounds on buffers, starting from `close0` and the fit `e0`.
   * Either a round stops the refinement with `stop`, which is then the outcome
   * of the whole refinement, or the mask and fit after round 4 are returned,
   * from which the remaining rounds give that same outcome.
   */
  method FillPhase(close0: array2<bool>, e0: Ellipse, ops: RingOps)
    returns (close: array2<bool>, e: Ellipse, stop: Option<RingError>)
    ensures fresh(close) || close == close0
    ensures close.Length0 == close0.Length0 && close.Length1 == close0.Length1
    ensures var rows, cols := close0.Length0, close0.Length1;
      stop.Some? ==> Refine(ops, rows, cols, Snapshot(close0), e0, 0) == Failure(stop.value)
    ensures var rows, cols := close0.Length0, close0.Length1;
      stop.None? ==> Refine(ops, rows, cols, Snapshot(close0), e0, 0) == Refine(ops, rows, cols, Snapshot(close), e, FillRounds)
  {
    var rows, cols := close0.Length0, close0.Length1;
    ghost var step := RoundStep(ops, rows, cols);
    ghost var goal := Refine(ops, rows, cols, Snapshot(close0), e0, 0);
    close, e := close0, e0;
    for k := 0 to FillRounds
      invariant fresh(close) || close == close0
      invariant close.Length0 == rows && close.Length1 == cols
      invariant Drive(step, ops.fit, Snapshot(close), e, k) == goal
    {
      ghost var before := Snapshot(close);
      close := FillRound(close, e, ops);
      assert Snapshot(close) == step(before, e, k);
      var fitted := ops.fit(Snapshot(close));
      if fitted.None? {
        return close, e, Some(NoContour);
      }
      e := fitted.value;
      if !AspectOk(e) {
        return close, e, Some(InvalidRingGeometry);
      }
    }
    stop := None;
  }

  /** The five trim rounds on buffers, `close` narrowed in place: the outcome of rounds 5 to 9. */
  method TrimPhase(close: array2<bool>, e0: Ellipse, ops: RingOps) returns (r: Result<Ellipse, RingError>)
    modifies close
    ensures r == Refine(ops, close.Length0, close.Length1, old(Snapshot(close)), e0, FillRounds)
  {
    var rows, cols := close.Length0, close.Length1;
    ghost var step := RoundStep(ops, rows, cols);
    ghost var goal := Refine(ops, rows, cols, Snapshot(close), e0, FillRounds);
    var e := e0;
    for k := 0 to TotalRounds - FillRounds
      invariant Drive(step, ops.fit, Snapshot(close), e, FillRounds + k) == goal
    {
      ghost var before := Snapshot(close);
      TrimRound(close, e, ops);
      assert Snapshot(close) == step(before, e, FillRounds + k);
      var fitted := ops.fit(Snapshot(close));
      if fitted.None? {
        return Failure(NoContour);
      }
      e := fitted.value;
      if !AspectOk(e) {
        return Failure(InvalidRingGeometry);
      }
    }
    r := Success(e);
  }

  /**
   * `get_target_ellipse` on buffers. `valueMask` is the `inRange` result,
   * `disc` the filled region-of-interest circle and `impacts` the impact mask;
   * the first is narrowed in place, the other two are only read.
   */
  method TargetEllipse(valueMask: array2<bool>, disc: array2<bool>, impacts: array2<bool>, ops: RingOps)
    returns (r: Result<Ellipse, RingError>)
    requires valueMask != disc && valueMask != impacts
    requires disc.Length0 == valueMask.Length0 && disc.Length1 == valueMask.Length1
    requires impacts.Length0 == valueMask.Length0 && impacts.Length1 == valueMask.Length1
    modifies valueMask
    ensures Snapshot(valueMask) == And(And(old(Snapshot(valueMask)), Snapshot(disc)), Not(Snapshot(impacts)))
    ensures r == RingEllipse(ops, valueMask.Length0, valueMask.Length1, old(Snapshot(valueMask)), Snapshot(disc), Snapshot(impacts))
  {
    var rows, cols := valueMask.Length0, valueMask.Length1;
    ghost var goal := RingEllipse(ops, rows, cols, Snapshot(valueMask), Snapshot(disc), Snapshot(impacts));
    Prepare(valueMask, disc, impacts);
    var working := Snapshot(valueMask);
    var close := TabulateBuffer(rows, cols, (i, j) => ops.clean(working, i, j));
    MaskExt(Snapshot(close), Cleaned(ops, rows, cols, working));
    var fitted := ops.fit(Snapshot(close));
    if fitted.None? {
      return Failure(NoContour);
    }
    assert goal == Refine(ops, rows, cols, Snapshot(close), fitted.value, 0);
    var filled, e, stop := FillPhase(close, fitted.value, ops);
    if stop.Some? {
      return Failure(stop.value);
    }
    r := TrimPhase(filled, e, ops);
  }
}
