# Target detection core, modelled in Dafny

This project models the exact, sequential logic inside `target_detection.py`. That module takes a photograph of a shooting sheet with five targets and returns one scored `Impact` per hole. The model covers these steps:

- **Locating the sheet.** Among the candidate contours, keep the largest quadrilateral that passes three filters: four vertices, corner angles between 70° and 110°, and 10%–90% of the frame area. Convert its corners to frame fractions and back to pixels.
- **Cropping the zones.** Crop the rectified 1000×1000 sheet into the zones TOP_LEFT, TOP_RIGHT, CENTER, BOTTOM_LEFT and BOTTOM_RIGHT.
- **Refining each ring.** Cut the ink mask to a disc and remove the impact marks, both in place. Then run 5 fill rounds (`close | (E ^ close)`) and 5 trim rounds (`close & E`). Every refit must pass the 0.7–1.3 aspect gate.
- **Translating to the sheet.** Move the crop-local ellipse centres into sheet coordinates.
- **Scoring the impacts.** Each impact goes to the nearest zone centre, with ties going to the earlier zone. Its rounded millimetre distance becomes a score of 570 minus 6 per mm for the first 5 mm, minus 3 per mm after that, and 0 beyond 48 mm.

Modules, one per file:

| module | file | contents |
|---|---|---|
| `Wrappers` | wrappers.dfy | `Option`, `Result` |
| `Geometry` | geometry.dfy | points, ellipses, `clamp`, `grow_ellipse`, the aspect gate, `int()` truncation |
| `Scoring` | scoring.dfy | `get_score` |
| `Zones` | zones.dfy | crops, zone order, the sheet translation, the per-zone refinement driver |
| `SheetLocator` | sheet_locator.dfy | contour selection, fraction conversions |
| `Masks` | masks.dfy | mask values, mask buffers (`array2<bool>`), the bitwise operations |
| `EllipseRefiner` | ellipse_refiner.dfy | `get_target_ellipse` |
| `ScoreEngine` | score_engine.dfy | nearest-zone choice and `Impact` records |

Form of the model:

- **Loops stay loops.** The source's loops are methods with the same loops: the two counting loops of `get_score`, the contour scan, the zone argmin, the list and dictionary builders, and the 5 + 5 refinement rounds. Each method is proved equal to a reference function, or to stated properties, over its inputs.
- **Masks are buffers.** They are `array2<bool>`. `bitwise_and` with a destination updates its first argument in place. `bitwise_not`, `bitwise_or`, `bitwise_xor` and a filled ellipse on `np.zeros` return new buffers, as OpenCV does without a destination.
- **Pixel algorithms are parameters.** The model does not include OpenCV's pixel algorithms. They appear as function parameters:
  - polygon approximation;
  - the `acos` corner-angle test;
  - morphology;
  - ellipse rasterisation;
  - the largest contour with `fitEllipse`;
  - the physical distance `get_real_distance`;
  - the bearing `to_degrees(atan2(...))`.
- **The zone dictionary is an ordered list.** A Python `dict` keyed by zone becomes a list of (zone, ellipse) entries in insertion order, because iteration order decides ties.
- **Numbers.** Centres, fractions and areas are exact `real`. Python's `int()` of a float is modelled as truncation toward zero (`Geometry.Trunc`).

Notes on the code:

- **The initial fit is not gated.** The initial `fitEllipse` (target_detection.py:344) is not gated; only the ten refits (:354, :366) are.
- **Crop axes.** `get_crop_coordinates` takes the row bounds `x1`/`x2` from `width` and the column bounds `y1`/`y2` from `height` (:237-250), yet slices `[x1:x2, y1:y2]` (:258). `Zones.CropOf` keeps this as written. It only matters for non-square frames; the crops are always taken on the square canonical sheet.
- **Disc shape.** The region-of-interest disc buffer is allocated with shape `(cols, rows)`, i.e. transposed (:317). `EllipseRefiner.TargetEllipse` requires the disc to have the mask's own dimensions. That is the same thing for the square crops the code produces.

## Model

| member | source | states |
|---|---|---|
| Scoring.GetScore | target_detection.py:99-115 | The two `for` loops, with Python's leftover `i` (4 after a full first loop, so the second loop covers `range(4, 48)`), compute exactly `Score`: 0 beyond 48 mm, otherwise 570 − 6·min(d,5) − 3·max(0,d−5) for d clamped at 0. The second loop always reaches distance 0. |
| Scoring.ScoreRange | target_detection.py:99-115 | Every score is 0 or in [411, 570]. It is 0 exactly when the distance exceeds 48. |
| Scoring.ScoreNonIncreasing | target_detection.py:99-115 | A larger distance never gives a larger score. |
| Scoring.ScoreBoundaries | target_detection.py:99-115 | score(0) = 570, score(5) = 540, score(10) = 525, score(48) = 411, score(49) = 0. Every d ≤ 0 scores 570. |
| Zones.GetCropCoordinates | target_detection.py:236-252 | The source's chain of `if`s yields the crop table `CropOf`. |
| Zones.CropWithinFrame | target_detection.py:236-252 | Every zone's crop satisfies 0 ≤ x1 ≤ x2 ≤ width and 0 ≤ y1 ≤ y2 ≤ height. |
| Zones.CenterCropSymmetric | target_detection.py:248-250 | The CENTER crop starts at ⌊width/4⌋ and ⌊height/4⌋, with x1 + x2 = width and y1 + y2 = height. |
| Zones.QuadrantBounds | target_detection.py:237-247 | Quadrant bounds are 0, ⌊width/2⌋ and width on rows, and 0, ⌊height/2⌋ and height on columns. UNDEFINED keeps the full frame. |
| Zones.QuadrantsTile | target_detection.py:237-247 | Every pixel of the frame lies in exactly one of the four quadrant crops. |
| Zones.TargetsToSheet | target_detection.py:380-398 | The branch-per-key loop builds exactly `SheetTargets`: entries in input order, each centre shifted by its zone's offset, UNDEFINED entries dropped. |
| Zones.OffsetIsCropOrigin | target_detection.py:380-398 | On the 1000×1000 sheet, each zone's offset is its crop's origin from :240-250. The crop's column start `y1` is added to the centre's x and its row start `x1` to the centre's y. |
| Zones.SheetTargetsZones | target_detection.py:380-398 | The translated dictionary's keys are the input keys in the same order, with UNDEFINED removed. |
| Zones.SheetTargetsEntries | target_detection.py:380-398 | Each translated entry comes from an input entry of the same real zone, with the centre shifted by the zone's offset and the axes and rotation unchanged. Conversely, every input entry with a real zone appears, translated. |
| Zones.SheetTargetsKeepsZones | target_detection.py:380-398 | When all five zones are present, all five survive the translation and UNDEFINED is absent. |
| Zones.WithoutUndefinedMembers | target_detection.py:381-397 | A key survives the translation exactly when it was present and is not UNDEFINED. |
| Zones.TargetsEllipse | target_detection.py:371-377 | The result succeeds exactly when every zone's ring refinement succeeds. It then has the keys TOP_LEFT, TOP_RIGHT, CENTER, BOTTOM_LEFT, BOTTOM_RIGHT in that order, each holding the refinement of its own crop. Otherwise the error is that of the first failing zone in that order. |
| ScoreEngine.NearestZone | target_detection.py:427-438 | Failure exactly when the dictionary is empty. Otherwise the zone of an entry whose centre is at most as far as every other, with every earlier entry strictly farther, so equal distances go to the earliest entry. |
| ScoreEngine.TieGoesToEarlier | target_detection.py:431-435 | With two entries tied at the minimal distance, the chosen entry is never after the first of them. |
| ScoreEngine.FirstNearestUnique | target_detection.py:427-438 | The contract of `NearestZone` determines a single entry. |
| ScoreEngine.Lookup | target_detection.py:440 | `targets_ellipsis[zone]` returns an ellipse stored under that key. A missing key means no entry has it. |
| ScoreEngine.LookupEntry | target_detection.py:440 | With distinct keys, looking up an entry's key returns that entry's ellipse. |
| ScoreEngine.SheetDictionaryShape | target_detection.py:371-398 | A dictionary with the keys of `get_targets_ellipse` (:372), once translated, has the same five keys in the same order: distinct, none UNDEFINED, never empty. |
| ScoreEngine.ImpactsPoints | target_detection.py:426-479 | The result fails exactly when there is an impact and the dictionary is empty. Otherwise `points` is extended by one record per impact, in order, and nothing else changes. Each record holds the nearest zone, the distance measured against that zone's ellipse, `Score` of that distance, the bearing plus 180, and amount 1. |
| ScoreEngine.ScoredImpactBounds | target_detection.py:466-479 | Every recorded score is 0 or in [411, 570]. It is 0 exactly when the recorded distance exceeds 48. |
| ScoreEngine.ScoredAgainstChosenEntry | target_detection.py:427-479 | On the translated dictionary, a record's zone is a real zone. Its distance is measured against the ellipse of the very entry chosen as nearest. |
| SheetLocator.BiggestValidContour | target_detection.py:151-172 | None exactly when no candidate passes all three filters: 4 vertices, angles accepted, area fraction in [0.1, 0.9]. Otherwise a passing candidate at least as large as every other passing one and strictly larger than every later one, so equal maxima go to the last. |
| SheetLocator.SheetCoordinates | target_detection.py:182-203 | None when segmentation gives no mask or no candidate passes. Otherwise four fractions, the vertices of the chosen candidate divided by 1000. |
| SheetLocator.CoordinatesToPercentage | target_detection.py:175-179 | Same length and order. Each vertex is divided by width and height. |
| SheetLocator.PercentageToCoordinates | target_detection.py:212-216 | Same length and order. Each fraction is scaled by width and height and truncated by `int()`. |
| SheetLocator.FractionRoundTrip | target_detection.py:175-216 | Converting a vertex to fractions and back at the same resolution returns the vertex, in exact arithmetic. |
| SheetLocator.FractionInUnit | target_detection.py:175-179 | A vertex inside the frame becomes fractions in [0, 1]. |
| SheetLocator.PixelInFrame | target_detection.py:212-216 | Fractions in [0, 1] become a pixel inside the frame (0 ≤ x ≤ width, 0 ≤ y ≤ height). |
| Masks.PreparedMask | target_detection.py:335-339 | After the two in-place ANDs, the working mask lies inside the disc, shares no pixel with the impact mask, and only lost pixels. |
| Masks.FillIsUnion | target_detection.py:346-350 | `close \| (E ^ close)` equals `close \| E`. It keeps every pixel of `close` and covers all of E. |
| Masks.TrimShrinks | target_detection.py:357-360 | `close & E` adds no pixel, lies inside E, and applied again with the same E changes nothing. |
| Masks.AndInPlace | target_detection.py:335 | `bitwise_and(dst, src, dst)`: `dst` becomes the pixelwise AND of its old value and `src`. |
| EllipseRefiner.RefineOutcome | target_detection.py:345-368 | At most ten refits are made. The result succeeds exactly when all of them exist and pass the aspect gate, and then returns the last. It fails with the aspect error exactly when some refit fails the gate. It fails for lack of a contour exactly when the masks run out of contours first. |
| EllipseRefiner.RingEllipseValid | target_detection.py:316-368 | An ellipse returned by the whole procedure passes the aspect gate. |
| EllipseRefiner.ConvergedIsFixed | target_detection.py:345-368 | Suppose the mask already is the filled ellipse and refitting it gives back that ellipse, which passes the gate. Then every remaining round keeps both. |
| EllipseRefiner.TargetEllipse | target_detection.py:316-368 | On buffers there are two effects. The value mask is narrowed in place to `value & disc & ~impacts`. The result equals the reference `RingEllipse` on the input masks: clean, fit, 5 fill rounds and 5 trim rounds, each refit gated, the initial fit not. |
| EllipseRefiner.FillPhase | target_detection.py:345-355 | The five fill rounds on buffers either stop with the error the whole refinement ends in, or hand on a mask and fit from which rounds 5 to 9 give the same outcome. |
| EllipseRefiner.TrimPhase | target_detection.py:356-368 | The five trim rounds, narrowing `close` in place, give exactly the outcome of rounds 5 to 9 of the reference refinement. |
| Geometry.AspectRatio | target_detection.py:354 | With a positive second axis, a refit passes the gate exactly when its first-to-second axis ratio lies in [0.7, 1.3]. |
| Geometry.AxisOrderMatters | target_detection.py:354 | The gate compares the first axis with the second, not the smaller with the larger: for axes (0.7, 1.0) it accepts, and for the swapped axes it rejects. |
| Geometry.Clamp | target_detection.py:147-148 | Within ordered bounds the result lies between them. It is the value itself when in range, and the crossed bound when out of range. With crossed bounds the lower bound wins. |
| Geometry.GrowEllipse | target_detection.py:77-79 | Centre and rotation are kept. For a positive factor, each positive axis grows exactly when the factor exceeds 1, and the ratio of the two axes is kept. |
| Geometry.GrowComposes | target_detection.py:77-79 | Growing by a and then by b is growing by a·b. |
| Geometry.GrowKeepsAspect | target_detection.py:77-79 | Growing by a positive factor keeps the aspect gate's verdict. |
| Geometry.Trunc | target_detection.py:213-215 | `int()` of a float truncates toward zero: the result is within 1 of the value, on the side toward 0. |

## Left out

- The YOLOSeg segmentation network and its ONNX model load (target_detection.py:9, :39, :184). They are a foreign black box. `SheetLocator.SheetCoordinates` takes its outcome (no mask, or the mask's contours) as input.
- The OpenCV algorithms are foreign library code. The refinement and contour selection take them as function parameters:
  - resize;
  - `findContours`;
  - `approxPolyDP`/`arcLength`;
  - HSV conversion;
  - `inRange`;
  - `minMaxLoc`;
  - morphology;
  - `fitEllipse`;
  - ellipse and circle rasterisation.
- The `acos` corner-angle computation (target_detection.py:158-163) is a parameter (`anglesOk`). Real trigonometry is outside the model.
- The geometry helpers are also outside the model:
  - `rotate_point`, `get_point_on_ellipse`, `get_angle`, `to_radians`, `to_degrees`;
  - the angle arithmetic at :440-452;
  - `get_real_distance`, which uses a square root, float division and round-half-even.

  `ScoreEngine.ImpactsPoints` takes the distance and the bearing as the parameters `measure` and `bearing`.
- `get_sheet_picture` (:219-232) is not modelled: perspective transform and warp. Only its corner conversion, `PercentageToCoordinates`, is.
- The mask inputs of `get_target_ellipse` are taken as inputs: the ink threshold `(max - min) / 1.5` with `uint8` casting (:321-333), the `inRange` mask, the drawn region-of-interest disc, and `get_impacts_mask`/`get_impacts_coordinates` (:261-298).
- Floating point is not modelled. The aspect gate, the area fraction, the fractions and the round trip use exact reals. IEEE rounding can differ at the boundaries.
- `SheetLocator.FractionRoundTrip` holds in exact arithmetic only. With floats, `int(c / w * w)` can come out as `c - 1`.
- Drawing and annotation are not modelled:
  - `draw_cross_at_coordinates`, `draw_sheet_detection_contour`, `draw_targets`;
  - the `putText` calls in `draw_and_get_impacts_points`;
  - the debug ellipse drawn on `mat_copy` at :365.

  They only paint pixels of the output picture.
- PNG encoding and base64 transport in `process_image`, its glue code, and the `KMP_DUPLICATE_LIB_OK` environment setting are not modelled: they are I/O and configuration.
- The unused helpers `get_color_mask`, `enhance_image_for_edge_detection` and `get_edges` are not modelled: they are OpenCV wrappers that nothing in the core calls.
- ScoreEngine.ImpactsPoints: when the dictionary is empty, the source raises after the caller's `points` list was already extended by any earlier records. The model returns only the error, because the caller discards `points` in that case. An empty dictionary fails on the first impact, so no record precedes it in practice.
- EllipseRefiner.TargetEllipse: it requires the disc buffer to have the mask's dimensions, rather than modelling the transposed allocation at :317. The two coincide on the square crops the code produces.
