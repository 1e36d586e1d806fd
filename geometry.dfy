/**
 * Points, the homogeneous transform into the ego frame, centroids, the
 * closeness test of `np.allclose`, and the numeric routines of foreign
 * libraries, which the model takes as parameters.
 */
module Geometry {

  /** A map-frame or ego-frame point, one row of an N x 3 waypoint array. */
  datatype Point3 = Point3(x: real, y: real, z: real)

  /** A planar point, such as a lane's crop centre. */
  datatype XY = XY(x: real, y: real)

  function Sub(a: Point3, b: Point3): (d: Point3)
    ensures Add(d, b) == a
  {
    Point3(a.x - b.x, a.y - b.y, a.z - b.z)
  }

  function Add(a: Point3, b: Point3): Point3
  {
    Point3(a.x + b.x, a.y + b.y, a.z + b.z)
  }

  const Origin: Point3 := Point3(0.0, 0.0, 0.0)

  /**
   * Numeric routines the converter calls but which belong to other
   * libraries. Each is an arbitrary function of the right shape; the model
   * relies on no property of them except where a lemma states one as a
   * hypothesis.
   *   norm      - `np.linalg.norm` of a 3-vector
   *   interp1d  - `interp1d(xs, ys, kind="linear")` evaluated at one abscissa
   *   lineLen   - shapely `LineString(line).length`
   *   along     - shapely `LineString(line).interpolate(d)`
   *   toFloat   - Python's `float` applied to an attribute string
   */
  datatype Numerics = Numerics(
    norm: Point3 -> real,
    interp1d: (seq<real>, seq<real>, real) -> real,
    lineLen: seq<Point3> -> real,
    along: (seq<Point3>, real) -> Point3,
    toFloat: string -> real)

  /** A Euclidean norm never goes negative. */
  ghost predicate NormNonnegative(f: Numerics)
  {
    forall v :: f.norm(v) >= 0.0
  }

  // ---------------------------------------------------------------------
  // np.allclose with its default tolerances

  const RelTol: real := 0.00001
  const AbsTol: real := 0.00000001

  function Abs(r: real): (a: real)
    ensures a >= 0.0 && (a == r || a == -r)
  {
    if r < 0.0 then -r else r
  }

  /** `|a - b| <= atol + rtol * |b|`, the test `np.allclose(a, b)` applies per component. */
  predicate CloseReal(a: real, b: real)
  {
    Abs(a - b) <= AbsTol + RelTol * Abs(b)
  }

  predicate AllClose(a: Point3, b: Point3)
  {
    CloseReal(a.x, b.x) && CloseReal(a.y, b.y) && CloseReal(a.z, b.z)
  }

  /** Every point is close to itself, so a repaired endpoint passes the test. */
  lemma AllCloseReflexive(p: Point3)
    ensures AllClose(p, p)
  {
  }

  // ---------------------------------------------------------------------
  // The homogeneous 4x4 transform into the ego frame

  /** A row-major 4x4 matrix, as `inv_transform_matrix_4x4`. */
  type Matrix4 = seq<seq<real>>

  predicate IsMatrix4(m: Matrix4)
  {
    |m| == 4 && forall i :: 0 <= i < 4 ==> |m[i]| == 4
  }

  /** Row `i` of `m` applied to the homogeneous point `[x, y, z, w]`. */
  function RowDot(m: Matrix4, i: nat, p: Point3, w: real): real
    requires IsMatrix4(m) && i < 4
  {
    m[i][0] * p.x + m[i][1] * p.y + m[i][2] * p.z + m[i][3] * w
  }

  /**
   * The first three rows of `m @ [x, y, z, 1]`: the transformed point, as
   * `(inv_transform_matrix_4x4 @ points_4xN)[:3, :]` computes it per column.
   */
  function Apply(m: Matrix4, p: Point3): Point3
    requires IsMatrix4(m)
  {
    Point3(RowDot(m, 0, p, 1.0), RowDot(m, 1, p, 1.0), RowDot(m, 2, p, 1.0))
  }

  /** The linear part of `m` applied to a direction `[x, y, z, 0]`. */
  function ApplyLinear(m: Matrix4, v: Point3): Point3
    requires IsMatrix4(m)
  {
    Point3(RowDot(m, 0, v, 0.0), RowDot(m, 1, v, 0.0), RowDot(m, 2, v, 0.0))
  }

  /**
   * The difference of two transformed points is the linear part applied to
   * their map-frame difference: the translation cancels, which is why a
   * boundary offset taken after the transform does not depend on where the
   * ego vehicle is, only on how it is oriented.
   */
  lemma OffsetIgnoresTranslation(m: Matrix4, a: Point3, b: Point3)
    requires IsMatrix4(m)
    ensures Sub(Apply(m, a), Apply(m, b)) == ApplyLinear(m, Sub(a, b))
  {
    RowDotDiff(m, 0, a, b);
    RowDotDiff(m, 1, a, b);
    RowDotDiff(m, 2, a, b);
  }

  lemma RowDotDiff(m: Matrix4, i: nat, a: Point3, b: Point3)
    requires IsMatrix4(m) && i < 4
    ensures RowDot(m, i, a, 1.0) - RowDot(m, i, b, 1.0) == RowDot(m, i, Sub(a, b), 0.0)
  {
    var r := m[i];
    assert r[0] * a.x - r[0] * b.x == r[0] * (a.x - b.x);
    assert r[1] * a.y - r[1] * b.y == r[1] * (a.y - b.y);
    assert r[2] * a.z - r[2] * b.z == r[2] * (a.z - b.z);
    assert r[3] * 0.0 == 0.0;
  }

  // ---------------------------------------------------------------------
  // Centroid of a polyline's xy, as `np.mean(points[:, 0:2], axis=0)`

  function SumX(ps: seq<Point3>): real
  {
    if ps == [] then 0.0 else SumX(ps[..|ps| - 1]) + ps[|ps| - 1].x
  }

  function SumY(ps: seq<Point3>): real
  {
    if ps == [] then 0.0 else SumY(ps[..|ps| - 1]) + ps[|ps| - 1].y
  }

  function MeanXY(ps: seq<Point3>): XY
    requires |ps| > 0
  {
    XY(SumX(ps) / (|ps| as real), SumY(ps) / (|ps| as real))
  }

  /** All points of `ps` lie in the box `[lo, hi]` on both axes. */
  predicate InBox(ps: seq<Point3>, lo: XY, hi: XY)
  {
    forall i :: 0 <= i < |ps| ==> lo.x <= ps[i].x <= hi.x && lo.y <= ps[i].y <= hi.y
  }

  /** `n` copies of `a` added up. */
  function Times(n: nat, a: real): real
  {
    if n == 0 then 0.0 else Times(n - 1, a) + a
  }

  lemma {:induction false} TimesIsProduct(n: nat, a: real)
    ensures Times(n, a) == (n as real) * a
  {
    if n > 0 {
      TimesIsProduct(n - 1, a);
      MulSucc((n - 1) as real, a);
    }
  }

  lemma MulSucc(k: real, a: real)
    ensures (k + 1.0) * a == k * a + a
  {
  }

  lemma {:induction false} SumBounds(ps: seq<Point3>, lo: XY, hi: XY)
    requires InBox(ps, lo, hi)
    ensures Times(|ps|, lo.x) <= SumX(ps) <= Times(|ps|, hi.x)
    ensures Times(|ps|, lo.y) <= SumY(ps) <= Times(|ps|, hi.y)
  {
    if ps != [] {
      InBoxPrefix(ps, lo, hi);
      SumBounds(ps[..|ps| - 1], lo, hi);
    }
  }

  lemma InBoxPrefix(ps: seq<Point3>, lo: XY, hi: XY)
    requires ps != [] && InBox(ps, lo, hi)
    ensures InBox(ps[..|ps| - 1], lo, hi)
    ensures lo.x <= ps[|ps| - 1].x <= hi.x && lo.y <= ps[|ps| - 1].y <= hi.y
  {
    var init := ps[..|ps| - 1];
    forall i | 0 <= i < |init| ensures lo.x <= init[i].x <= hi.x && lo.y <= init[i].y <= hi.y {
      assert init[i] == ps[i];
    }
  }

  /**
   * The centroid of a polyline lies in every axis-aligned box that holds the
   * polyline, so cropping by the centroid never keeps a lane that lies wholly
   * on one side of the crop window's edge.
   */
  lemma MeanInBox(ps: seq<Point3>, lo: XY, hi: XY)
    requires |ps| > 0 && InBox(ps, lo, hi)
    ensures lo.x <= MeanXY(ps).x <= hi.x && lo.y <= MeanXY(ps).y <= hi.y
  {
    SumBounds(ps, lo, hi);
    MeanBounds(SumX(ps), |ps|, lo.x, hi.x);
    MeanBounds(SumY(ps), |ps|, lo.y, hi.y);
  }

  lemma MeanBounds(sum: real, count: nat, lo: real, hi: real)
    requires count > 0 && Times(count, lo) <= sum <= Times(count, hi)
    ensures lo <= sum / (count as real) <= hi
  {
    TimesIsProduct(count, lo);
    TimesIsProduct(count, hi);
    DivBounds(sum, count as real, lo, hi);
  }

  lemma DivBounds(s: real, n: real, lo: real, hi: real)
    requires n > 0.0 && n * lo <= s <= n * hi
    ensures lo <= s / n <= hi
  {
    assert s / n * n == s;
  }
}
