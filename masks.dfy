/**
 * Binary masks of the ring refinement. A mask buffer is an `array2<bool>`
 * (OpenCV's 0/255 `uint8` image, one cell per pixel, row-major); `Mask` is the
 * value a buffer holds at one moment, and `Snapshot` reads it. The buffer
 * operations are the ones `get_target_ellipse` calls: `bitwise_and` with a
 * destination (in place), and `bitwise_not`, `bitwise_or`, `bitwise_xor` and a
 * filled `cv2.ellipse` on `np.zeros`, which return a new buffer.
 */
module Masks {

  type Mask = seq<seq<bool>>

  predicate SameShape(a: Mask, b: Mask) {
    |a| == |b| && forall i :: 0 <= i < |a| ==> |a[i]| == |b[i]|
  }

  predicate Shaped(m: Mask, rows: nat, cols: nat) {
    |m| == rows && forall i :: 0 <= i < rows ==> |m[i]| == cols
  }

  /** The mask whose pixel (i, j) is `f(i, j)`. */
  function Tabulate(rows: nat, cols: nat, f: (int, int) -> bool): (m: Mask)
    ensures Shaped(m, rows, cols)
    ensures forall i, j :: 0 <= i < rows && 0 <= j < cols ==> m[i][j] == f(i, j)
  {
    seq(rows, i => seq(cols, j => f(i, j)))
  }

  function And(a: Mask, b: Mask): (r: Mask)
    requires SameShape(a, b)
    ensures SameShape(r, a)
  {
    seq(|a|, i requires 0 <= i < |a| => seq(|a[i]|, j requires 0 <= j < |a[i]| => a[i][j] && b[i][j]))
  }

  function Or(a: Mask, b: Mask): (r: Mask)
    requires SameShape(a, b)
    ensures SameShape(r, a)
  {
    seq(|a|, i requires 0 <= i < |a| => seq(|a[i]|, j requires 0 <= j < |a[i]| => a[i][j] || b[i][j]))
  }

  function Xor(a: Mask, b: Mask): (r: Mask)
    requires SameShape(a, b)
    ensures SameShape(r, a)
  {
    seq(|a|, i requires 0 <= i < |a| => seq(|a[i]|, j requires 0 <= j < |a[i]| => a[i][j] != b[i][j]))
  }

  function Not(a: Mask): (r: Mask)
    ensures SameShape(r, a)
  {
    seq(|a|, i requires 0 <= i < |a| => seq(|a[i]|, j requires 0 <= j < |a[i]| => !a[i][j]))
  }

  /** Every pixel set in `a` is set in `b`. */
  predicate Subset(a: Mask, b: Mask)
    requires SameShape(a, b)
  {
    forall i, j :: 0 <= i < |a| && 0 <= j < |a[i]| ==> a[i][j] ==> b[i][j]
  }

  /** No pixel is set in both. */
  predicate Disjoint(a: Mask, b: Mask)
    requires SameShape(a, b)
  {
    forall i, j :: 0 <= i < |a| && 0 <= j < |a[i]| ==> !(a[i][j] && b[i][j])
  }

  /**
   * The working mask after `bitwise_and(value_mask, circle, value_mask)` and
   * `bitwise_and(value_mask, bitwise_not(impacts), value_mask)` lies inside the
   * region-of-interest disc, avoids every impact pixel and only loses pixels.
   */
  lemma PreparedMask(value: Mask, disc: Mask, impacts: Mask)
    requires SameShape(value, disc) && SameShape(value, impacts)
    ensures var w := And(And(value, disc), Not(impacts));
      Subset(w, disc) && Disjoint(w, impacts) && Subset(w, value)
  {
  }

  /**
   * The fill step `close | (E ^ close)` is the union `close | E`: it never
   * removes a pixel and covers the whole filled ellipse E.
   */
  lemma FillIsUnion(close: Mask, e: Mask)
    requires SameShape(close, e)
    ensures Or(close, Xor(e, close)) == Or(close, e)
    ensures Subset(close, Or(close, Xor(e, close))) && Subset(e, Or(close, Xor(e, close)))
  {
    var l, r := Or(close, Xor(e, close)), Or(close, e);
    assert |l| == |r|;
    forall i | 0 <= i < |l| ensures l[i] == r[i] {
      assert |l[i]| == |r[i]|;
    }
  }

  /** The trim step `close & E` never adds a pixel, stays inside E, and repeating it changes nothing. */
  lemma TrimShrinks(close: Mask, e: Mask)
    requires SameShape(close, e)
    ensures Subset(And(close, e), close) && Subset(And(close, e), e)
    ensures And(And(close, e), e) == And(close, e)
  {
    var t := And(close, e);
    var l := And(t, e);
    assert |l| == |t|;
    forall i | 0 <= i < |l| ensures l[i] == t[i] {
      assert |l[i]| == |t[i]|;
    }
  }

  /** A mask that already equals the filled ellipse is left unchanged by both steps. */
  lemma StepsFixRaster(m: Mask)
    ensures Or(m, Xor(m, m)) == m && And(m, m) == m
  {
    var f, t := Or(m, Xor(m, m)), And(m, m);
    assert |f| == |m| && |t| == |m|;
    forall i | 0 <= i < |m| ensures f[i] == m[i] && t[i] == m[i] {
      assert |f[i]| == |m[i]| && |t[i]| == |m[i]|;
    }
  }

  /** The value a buffer holds. */
  function Snapshot(a: array2<bool>): (m: Mask)
    reads a
    ensures Shaped(m, a.Length0, a.Length1)
    ensures forall i, j :: 0 <= i < a.Length0 && 0 <= j < a.Length1 ==> m[i][j] == a[i, j]
  {
    seq(a.Length0, i requires 0 <= i < a.Length0 reads a =>
      seq(a.Length1, j requires 0 <= j < a.Length1 reads a => a[i, j]))
  }

  /** Two masks of one shape that agree on every pixel are equal. */
  lemma MaskExt(a: Mask, b: Mask)
    requires SameShape(a, b)
    requires forall i, j :: 0 <= i < |a| && 0 <= j < |a[i]| ==> a[i][j] == b[i][j]
    ensures a == b
  {
    forall i | 0 <= i < |a| ensures a[i] == b[i] {
      assert |a[i]| == |b[i]|;
    }
  }

  /** `cv2.bitwise_and(dst, src, dst)`: `dst` becomes `dst & src`, in place. */
  method AndInPlace(dst: array2<bool>, src: array2<bool>)
    requires dst != src
    requires dst.Length0 == src.Length0 && dst.Length1 == src.Length1
    modifies dst
    ensures Snapshot(dst) == And(old(Snapshot(dst)), Snapshot(src))
  {
    ghost var before := Snapshot(dst);
    forall i, j | 0 <= i < dst.Length0 && 0 <= j < dst.Length1 {
      dst[i, j] := dst[i, j] && src[i, j];
    }
    MaskExt(Snapshot(dst), And(before, Snapshot(src)));
  }

  /** `cv2.bitwise_not(a)`: a new buffer. */
  method NotOf(a: array2<bool>) returns (r: array2<bool>)
    ensures fresh(r) && r.Length0 == a.Length0 && r.Length1 == a.Length1
    ensures Snapshot(r) == Not(Snapshot(a))
  {
    r := new bool[a.Length0, a.Length1]((i, j) reads a => if 0 <= i < a.Length0 && 0 <= j < a.Length1 then !a[i, j] else false);
    MaskExt(Snapshot(r), Not(Snapshot(a)));
  }

  /** `cv2.bitwise_or(a, b)`: a new buffer. */
  method OrOf(a: array2<bool>, b: array2<bool>) returns (r: array2<bool>)
    requires a.Length0 == b.Length0 && a.Length1 == b.Length1
    ensures fresh(r) && r.Length0 == a.Length0 && r.Length1 == a.Length1
    ensures Snapshot(r) == Or(Snapshot(a), Snapshot(b))
  {
    r := new bool[a.Length0, a.Length1]((i, j) reads a, b =>
      if 0 <= i < a.Length0 && 0 <= j < a.Length1 then a[i, j] || b[i, j] else false);
    MaskExt(Snapshot(r), Or(Snapshot(a), Snapshot(b)));
  }

  /** `cv2.bitwise_xor(a, b)`: a new buffer. */
  method XorOf(a: array2<bool>, b: array2<bool>) returns (r: array2<bool>)
    requires a.Length0 == b.Length0 && a.Length1 == b.Length1
    ensures fresh(r) && r.Length0 == a.Length0 && r.Length1 == a.Length1
    ensures Snapshot(r) == Xor(Snapshot(a), Snapshot(b))
  {
    r := new bool[a.Length0, a.Length1]((i, j) reads a, b =>
      if 0 <= i < a.Length0 && 0 <= j < a.Length1 then a[i, j] != b[i, j] else false);
    MaskExt(Snapshot(r), Xor(Snapshot(a), Snapshot(b)));
  }

  /** A new `rows` by `cols` buffer whose pixel (i, j) is `f(i, j)` (a filled drawing, a morphology result). */
  method TabulateBuffer(rows: nat, cols: nat, f: (int, int) -> bool) returns (r: array2<bool>)
    ensures fresh(r) && r.Length0 == rows && r.Length1 == cols
    ensures Snapshot(r) == Tabulate(rows, cols, f)
  {
    r := new bool[rows, cols]((i, j) => f(i, j));
    MaskExt(Snapshot(r), Tabulate(rows, cols, f));
  }
}
