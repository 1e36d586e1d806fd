/**
 * Arc-length resampling of polylines: `_interpolate_lane`, which samples a
 * polyline every 0.5 m along its length and repairs the two endpoints, and
 * `_interpolate_points`, which places a fixed number of points evenly along
 * a polyline.
 */
module Resample {
  import opened Geometry

  // ---------------------------------------------------------------------
  // Cumulative arc length

  /** The distance along `w` from its first point to its point `i`. */
  function ArcLengthTo(f: Numerics, w: seq<Point3>, i: nat): real
    requires i < |w|
  {
    if i == 0 then 0.0 else ArcLengthTo(f, w, i - 1) + f.norm(Sub(w[i], w[i - 1]))
  }

  /** The array `distances` of `_interpolate_lane`: one cumulative length per input point. */
  function ArcLengths(f: Numerics, w: seq<Point3>): (d: seq<real>)
    ensures |d| == |w|
  {
    seq(|w|, i requires 0 <= i < |w| => ArcLengthTo(f, w, i))
  }

  /** With a non-negative norm, the cumulative length never decreases. */
  lemma {:induction false} ArcLengthMonotone(f: Numerics, w: seq<Point3>, i: nat, j: nat)
    requires NormNonnegative(f)
    requires i <= j < |w|
    ensures 0.0 <= ArcLengthTo(f, w, i) <= ArcLengthTo(f, w, j)
    decreases j
  {
    if j > 0 {
      if i < j {
        ArcLengthMonotone(f, w, i, j - 1);
      } else {
        ArcLengthMonotone(f, w, 0, j - 1);
      }
      assert f.norm(Sub(w[j], w[j - 1])) >= 0.0;
    }
  }

  // ---------------------------------------------------------------------
  // Sample distances: np.arange(0, total, 0.5) followed by total

  /** The `i`-th multiple of 0.5, as `np.arange(0, stop, 0.5)` computes its element `i`. */
  function HalfStep(i: nat): real
  {
    0.5 * (i as real)
  }

  /** The number of elements of `np.arange(0, stop, 0.5)`: the multiples of 0.5 below `stop`. */
  function HalfStepCount(stop: real): (n: nat)
    ensures forall i: nat :: i < n <==> HalfStep(i) < stop
  {
    if stop <= 0.0 then 0
    else
      var t := 2.0 * stop;
      var fl := t.Floor;
      if fl as real == t then fl else fl + 1
  }

  function Arange(stop: real): (a: seq<real>)
    ensures |a| == HalfStepCount(stop)
    ensures forall i :: 0 <= i < |a| ==> a[i] == HalfStep(i) && a[i] < stop
  {
    seq(HalfStepCount(stop), i requires 0 <= i => HalfStep(i))
  }

  /** The arc lengths at which `_interpolate_lane` samples a polyline of length `total`. */
  function SampleDistances(total: real): seq<real>
  {
    Arange(total) + [total]
  }

  /**
   * For a non-negative total the sample distances start at 0, end at the
   * total, run strictly upwards, and step by exactly 0.5 everywhere except
   * into the last one, which is at most 0.5 beyond the one before it.
   */
  lemma SampleDistancesShape(total: real)
    requires total >= 0.0
    ensures var s := SampleDistances(total);
      && s[0] == 0.0
      && s[|s| - 1] == total
      && (forall i, j :: 0 <= i < j < |s| ==> s[i] < s[j])
      && (forall i :: 0 <= i < |s| - 2 ==> s[i + 1] - s[i] == 0.5)
      && (|s| >= 2 ==> 0.0 < s[|s| - 1] - s[|s| - 2] <= 0.5)
  {
    var s := SampleDistances(total);
    var n := HalfStepCount(total);
    if n > 0 {
      assert s[0] == HalfStep(0) == 0.0;
      assert !(HalfStep(n) < total);
    } else {
      assert !(HalfStep(0) < total);
    }
  }

  /** The polyline has at least two sample distances exactly when it has positive length. */
  lemma SampleCountPositiveLength(total: real)
    requires total >= 0.0
    ensures |SampleDistances(total)| >= 2 <==> total > 0.0
  {
    assert total > 0.0 ==> HalfStep(0) < total;
  }

  // ---------------------------------------------------------------------
  // Resampling and endpoint repair

  function Xs(w: seq<Point3>): (r: seq<real>)
    ensures |r| == |w| && forall i :: 0 <= i < |w| ==> r[i] == w[i].x
  {
    seq(|w|, i requires 0 <= i < |w| => w[i].x)
  }

  function Ys(w: seq<Point3>): (r: seq<real>)
    ensures |r| == |w| && forall i :: 0 <= i < |w| ==> r[i] == w[i].y
  {
    seq(|w|, i requires 0 <= i < |w| => w[i].y)
  }

  function Zs(w: seq<Point3>): (r: seq<real>)
    ensures |r| == |w| && forall i :: 0 <= i < |w| ==> r[i] == w[i].z
  {
    seq(|w|, i requires 0 <= i < |w| => w[i].z)
  }

  /** `w` interpolated axis by axis at the arc lengths `at`, against the knots `dist`. */
  function InterpolateAt(f: Numerics, dist: seq<real>, w: seq<Point3>, at: seq<real>): (r: seq<Point3>)
    ensures |r| == |at|
  {
    seq(|at|, k requires 0 <= k < |at| =>
      Point3(f.interp1d(dist, Xs(w), at[k]), f.interp1d(dist, Ys(w), at[k]), f.interp1d(dist, Zs(w), at[k])))
  }

  /**
   * Put back the input's first and last points where the samples drifted
   * from them: prepend the first point unless the first sample is close to
   * it, then append the last point unless the (new) last sample is close to it.
   */
  function RepairEndpoints(samples: seq<Point3>, w: seq<Point3>): seq<Point3>
    requires |samples| > 0 && |w| > 0
  {
    var head := if !AllClose(samples[0], w[0]) then [w[0]] + samples else samples;
    if !AllClose(head[|head| - 1], w[|w| - 1]) then head + [w[|w| - 1]] else head
  }

  /** What `_interpolate_lane` returns for the waypoints `w`. */
  function ResampleLane(f: Numerics, w: seq<Point3>): seq<Point3>
    requires |w| >= 2
  {
    var dist := ArcLengths(f, w);
    RepairEndpoints(InterpolateAt(f, dist, w, SampleDistances(dist[|w| - 1])), w)
  }

  /**
   * The repaired sequence is the samples, in order and unchanged, with at
   * most the input's first point in front and its last point behind; its
   * first and last points are close to the input's, and each is either the
   * input's endpoint exactly or the sample that was already close to it.
   */
  lemma RepairKeepsSamples(samples: seq<Point3>, w: seq<Point3>)
    requires |samples| > 0 && |w| > 0
    ensures var r := RepairEndpoints(samples, w);
      && (exists pre: seq<Point3>, post: seq<Point3> ::
            && (pre == [] || pre == [w[0]])
            && (post == [] || post == [w[|w| - 1]])
            && r == pre + samples + post)
      && AllClose(r[0], w[0])
      && AllClose(r[|r| - 1], w[|w| - 1])
      && (r[0] == w[0] || r[0] == samples[0])
      && (r[|r| - 1] == w[|w| - 1] || r[|r| - 1] == samples[|samples| - 1])
  {
    var r := RepairEndpoints(samples, w);
    var pre: seq<Point3> := if !AllClose(samples[0], w[0]) then [w[0]] else [];
    var head := pre + samples;
    var post: seq<Point3> := if !AllClose(head[|head| - 1], w[|w| - 1]) then [w[|w| - 1]] else [];
    assert r == pre + samples + post;
    AllCloseReflexive(w[0]);
    AllCloseReflexive(w[|w| - 1]);
  }

  /** The loop of `_interpolate_lane` that fills `distances` with the cumulative arc lengths. */
  method CumulativeDistances(f: Numerics, waypoints: seq<Point3>) returns (d: seq<real>)
    requires |waypoints| >= 1
    ensures d == ArcLengths(f, waypoints)
    ensures d[0] == 0.0
  {
    var n := |waypoints|;
    var distances := new real[n](_ => 0.0);
    for i := 1 to n
      invariant forall k :: 0 <= k < i ==> distances[k] == ArcLengthTo(f, waypoints, k)
    {
      ghost var prev := distances[..i];
      distances[i] := distances[i - 1] + f.norm(Sub(waypoints[i], waypoints[i - 1]));
      assert distances[i] == ArcLengthTo(f, waypoints, i);
      assert distances[..i] == prev;
    }
    d := distances[..];
    assert forall k :: 0 <= k < n ==> d[k] == ArcLengthTo(f, waypoints, k);
  }

  /**
   * `_interpolate_lane`: fill the cumulative distances, sample every 0.5 m
   * and at the total length, interpolate each axis, and repair the endpoints.
   * The result is `ResampleLane`, and it begins and ends within the
   * `allclose` tolerance of the input's endpoints.
   */
  method InterpolateLane(f: Numerics, waypoints: seq<Point3>) returns (r: seq<Point3>)
    requires |waypoints| >= 2
    ensures r == ResampleLane(f, waypoints)
    ensures |r| >= 1
    ensures AllClose(r[0], waypoints[0])
    ensures AllClose(r[|r| - 1], waypoints[|waypoints| - 1])
  {
    var n := |waypoints|;
    var distances := CumulativeDistances(f, waypoints);
    ghost var dist := ArcLengths(f, waypoints);
    var newDistances := Arange(distances[n - 1]) + [distances[n - 1]];
    assert newDistances == SampleDistances(dist[n - 1]);
    var newWaypoints := InterpolateAt(f, distances, waypoints, newDistances);
    ghost var samples := newWaypoints;
    assert samples == InterpolateAt(f, dist, waypoints, SampleDistances(dist[n - 1]));
    if !AllClose(newWaypoints[0], waypoints[0]) {
      newWaypoints := [waypoints[0]] + newWaypoints;
    }
    if !AllClose(newWaypoints[|newWaypoints| - 1], waypoints[n - 1]) {
      newWaypoints := newWaypoints + [waypoints[n - 1]];
    }
    r := newWaypoints;
    assert r == RepairEndpoints(samples, waypoints);
    RepairKeepsSamples(samples, waypoints);
  }

  /**
   * The resampled polyline of a polyline of positive length has at least
   * two points, and at least one more than the 0.5 m steps that fit in it.
   */
  lemma ResampleLaneCount(f: Numerics, w: seq<Point3>)
    requires |w| >= 2 && NormNonnegative(f)
    ensures var total := ArcLengthTo(f, w, |w| - 1);
      && total >= 0.0
      && |ResampleLane(f, w)| >= HalfStepCount(total) + 1
      && (total > 0.0 ==> |ResampleLane(f, w)| >= 2)
  {
    var dist := ArcLengths(f, w);
    var total := ArcLengthTo(f, w, |w| - 1);
    ArcLengthMonotone(f, w, 0, |w| - 1);
    SampleCountPositiveLength(total);
    var samples := InterpolateAt(f, dist, w, SampleDistances(dist[|w| - 1]));
    RepairKeepsSamples(samples, w);
  }

  // ---------------------------------------------------------------------
  // _interpolate_points: a fixed number of points, evenly spaced

  /** `np.linspace(start, stop, n)`: `n` evenly spaced values, the last exactly `stop`. */
  function Linspace(start: real, stop: real, n: nat): (s: seq<real>)
    ensures |s| == n
    ensures n >= 1 ==> s[0] == start
    ensures n >= 2 ==> s[n - 1] == stop
  {
    if n == 1 then
      [start]
    else
      var step := (stop - start) / ((n - 1) as real);
      seq(n, i requires 0 <= i < n => if i == n - 1 then stop else start + (i as real) * step)
  }

  /** For `n >= 2` the values step by the same amount, `(stop - start) / (n - 1)`. */
  lemma LinspaceEvenSteps(start: real, stop: real, n: nat, i: nat)
    requires n >= 2 && i + 1 < n
    ensures Linspace(start, stop, n)[i + 1] - Linspace(start, stop, n)[i]
         == (stop - start) / ((n - 1) as real)
  {
    var step := (stop - start) / ((n - 1) as real);
    MulSucc(i as real, step);
    if i + 1 == n - 1 {
      StepsSpan(stop - start, (n - 1) as real);
    }
  }

  /** `d` steps of `delta / d` span `delta`. */
  lemma StepsSpan(delta: real, d: real)
    requires d > 0.0
    ensures d * (delta / d) == delta
  {
  }

  /** `_interpolate_points(line, n)`: the points `n` equal steps apart along `line`, both ends included. */
  function InterpolatePoints(f: Numerics, line: seq<Point3>, n: nat): (r: seq<Point3>)
    requires |line| >= 2 && n >= 1
    ensures |r| == n
  {
    var at := Linspace(0.0, f.lineLen(line), n);
    seq(n, k requires 0 <= k < n => f.along(line, at[k]))
  }

  /**
   * When the line's `interpolate` returns the line's endpoints at distance 0
   * and at its length, as shapely's does, the fixed-count resampling keeps
   * the first and last points.
   */
  lemma InterpolatePointsKeepsEnds(f: Numerics, line: seq<Point3>, n: nat)
    requires |line| >= 2 && n >= 2
    requires f.along(line, 0.0) == line[0]
    requires f.along(line, f.lineLen(line)) == line[|line| - 1]
    ensures InterpolatePoints(f, line, n)[0] == line[0]
    ensures InterpolatePoints(f, line, n)[n - 1] == line[|line| - 1]
  {
  }
}
