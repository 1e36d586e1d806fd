/**
 * The per-frame lane input of the planner: each lane segment is cropped
 * around the ego position, moved into the ego frame and flattened into
 * 12-column rows (`process_segment`); the kept segments are sorted by the
 * distance of their first point, truncated and zero-padded into fixed-size
 * tensors (`create_lane_tensor`).
 */
module LaneTensor {
  import opened Wrappers
  import opened Geometry
  import opened Attributes
  import opened StableSort
  import opened StaticMapModel

  /** The crop window is widened by this factor around `mask_range`. */
  const MaskMargin: real := 1.1

  /** The columns of one row: xy, diff xy, left offset xy, right offset xy, four light slots. */
  const RowWidth: nat := 12

  /** The slots of the traffic-light vector, in the order (green, yellow, red, unknown). */
  const GreenSlot: nat := 0
  const YellowSlot: nat := 1
  const RedSlot: nat := 2
  const UnknownSlot: nat := 3

  /** The recognised colour codes of a traffic-light element. */
  const RedCode: int := 1
  const AmberCode: int := 2
  const GreenCode: int := 3
  const WhiteCode: int := 4

  /** What `process_segment` returns for a segment it keeps: the rows and the speed limit in m/s. */
  datatype Processed = Processed(lineData: seq<seq<real>>, speedMps: real)

  /** The crop test: the centre lies strictly inside the open square of half-width `maskRange * 1.1`. */
  predicate Inside(c: XY, centerX: real, centerY: real, maskRange: real)
  {
    && c.x > centerX - maskRange * MaskMargin
    && c.x < centerX + maskRange * MaskMargin
    && c.y > centerY - maskRange * MaskMargin
    && c.y < centerY + maskRange * MaskMargin
  }

  /**
   * What `process_segment` needs of a segment: a crop centre and a first
   * bound on each side always; and, when the segment is kept, a non-empty
   * centreline, bounds of the same length (so that the row-wise subtraction
   * and the concatenation line up) and a speed limit to convert.
   */
  predicate Processable(s: LaneSegment, centerX: real, centerY: real, maskRange: real)
  {
    && s.center.Some?
    && |s.leftBoundaries| >= 1 && |s.rightBoundaries| >= 1
    && (Inside(s.center.value, centerX, centerY, maskRange) ==>
          var n := |s.polyline.waypoints|;
          && n >= 1
          && |s.leftBoundaries[0].polyline.waypoints| == n
          && |s.rightBoundaries[0].polyline.waypoints| == n
          && s.speedLimitMph.Some?)
  }

  // ---------------------------------------------------------------------
  // The traffic-light vector

  /**
   * The slot the lane's lights set: unknown when the lane has no light or
   * its first light is not recognised; otherwise by the first light's
   * colour code; none at all for a code outside 1..4.
   */
  function LightSlot(lights: seq<int>, recognition: map<int, int>): Option<nat>
  {
    if lights == [] || lights[0] !in recognition then Some(UnknownSlot)
    else
      var color := recognition[lights[0]];
      if color == RedCode then Some(RedSlot)
      else if color == AmberCode then Some(YellowSlot)
      else if color == GreenCode then Some(GreenSlot)
      else if color == WhiteCode then Some(UnknownSlot)
      else None
  }

  /** The four-slot vector with a 1 in `slot`, if any, and 0 elsewhere. */
  function OneHot(slot: Option<nat>): (v: seq<real>)
    ensures |v| == 4
  {
    seq(4, k => if slot == Some(k) then 1.0 else 0.0)
  }

  function TrafficLightOf(lights: seq<int>, recognition: map<int, int>): seq<real>
  {
    OneHot(LightSlot(lights, recognition))
  }

  /** The traffic-light block of `process_segment`, which sets single slots of a zeroed list. */
  method TrafficLightVector(lights: seq<int>, recognition: map<int, int>) returns (v: array<real>)
    ensures fresh(v) && v[..] == TrafficLightOf(lights, recognition)
  {
    v := new real[4](_ => 0.0);
    if |lights| == 0 {
      v := new real[4] [0.0, 0.0, 0.0, 1.0];
    } else {
      var lightId := lights[0];
      if lightId in recognition {
        var color := recognition[lightId];
        if color == RedCode {
          v[RedSlot] := 1.0;
        } else if color == AmberCode {
          v[YellowSlot] := 1.0;
        } else if color == GreenCode {
          v[GreenSlot] := 1.0;
        } else if color == WhiteCode {
          v[UnknownSlot] := 1.0;
        }
      } else {
        v[UnknownSlot] := 1.0;
      }
    }
    assert v[..] == TrafficLightOf(lights, recognition);
  }

  /**
   * The vector is one-hot or all zero: four entries, each 0 or 1, at most
   * one of them 1, and all zero exactly when the first light is recognised
   * with a code outside 1..4.
   */
  lemma TrafficLightOneHot(lights: seq<int>, recognition: map<int, int>)
    ensures var v := TrafficLightOf(lights, recognition);
      && |v| == 4
      && (forall k :: 0 <= k < 4 ==> v[k] == 0.0 || v[k] == 1.0)
      && (forall j, k :: 0 <= j < k < 4 ==> v[j] == 0.0 || v[k] == 0.0)
      && ((forall k :: 0 <= k < 4 ==> v[k] == 0.0) <==>
            lights != [] && lights[0] in recognition && !(1 <= recognition[lights[0]] <= 4))
  {
    var v := TrafficLightOf(lights, recognition);
    var slot := LightSlot(lights, recognition);
    if slot.Some? {
      assert slot.value < 4;
      assert v[slot.value] == 1.0;
    }
  }

  /** The source's vectors, case by case, in the order (green, yellow, red, unknown). */
  lemma TrafficLightCases(lights: seq<int>, recognition: map<int, int>)
    ensures lights == [] ==> TrafficLightOf(lights, recognition) == [0.0, 0.0, 0.0, 1.0]
    ensures lights != [] && lights[0] !in recognition ==>
      TrafficLightOf(lights, recognition) == [0.0, 0.0, 0.0, 1.0]
    ensures lights != [] && lights[0] in recognition ==>
      var color := recognition[lights[0]];
      && (color == RedCode ==> TrafficLightOf(lights, recognition) == [0.0, 0.0, 1.0, 0.0])
      && (color == AmberCode ==> TrafficLightOf(lights, recognition) == [0.0, 1.0, 0.0, 0.0])
      && (color == GreenCode ==> TrafficLightOf(lights, recognition) == [1.0, 0.0, 0.0, 0.0])
      && (color == WhiteCode ==> TrafficLightOf(lights, recognition) == [0.0, 0.0, 0.0, 1.0])
  {
  }

  /** Only the first light is consulted. */
  lemma OnlyFirstLight(lights: seq<int>, recognition: map<int, int>)
    requires lights != []
    ensures TrafficLightOf(lights, recognition) == TrafficLightOf([lights[0]], recognition)
  {
  }

  // ---------------------------------------------------------------------
  // The rows of one segment

  /** Every point of `ps` moved into the ego frame. */
  function Transformed(m: Matrix4, ps: seq<Point3>): (r: seq<Point3>)
    requires IsMatrix4(m)
    ensures |r| == |ps|
  {
    seq(|ps|, i requires 0 <= i < |ps| => Apply(m, ps[i]))
  }

  /**
   * The first differences `c[i+1] - c[i]` of a non-empty centreline,
   * followed by a zero row.
   */
  function Diffs(cs: seq<Point3>): (d: seq<Point3>)
    requires |cs| >= 1
    ensures |d| == |cs|
  {
    seq(|cs|, i requires 0 <= i < |cs| => if i + 1 < |cs| then Sub(cs[i + 1], cs[i]) else Origin)
  }

  /** Each boundary point relative to the centre point of the same index. */
  function Offsets(bs: seq<Point3>, cs: seq<Point3>): (o: seq<Point3>)
    requires |bs| == |cs|
    ensures |o| == |cs|
  {
    seq(|cs|, i requires 0 <= i < |cs| => Sub(bs[i], cs[i]))
  }

  /** `np.concatenate` of the xy columns of the four arrays and the tiled light vector. */
  function Rows(c: seq<Point3>, d: seq<Point3>, l: seq<Point3>, r: seq<Point3>, light: seq<real>): (rows: seq<seq<real>>)
    requires |d| == |c| && |l| == |c| && |r| == |c|
    ensures |rows| == |c|
  {
    seq(|c|, i requires 0 <= i < |c| => Row(c[i], d[i], l[i], r[i], light))
  }

  /** One row: the xy of the centre point, the diff, the two offsets, then the light vector. */
  function Row(c: Point3, d: Point3, l: Point3, r: Point3, light: seq<real>): (row: seq<real>)
    ensures |row| == 8 + |light| && row[8..] == light
    ensures row[0] == c.x && row[1] == c.y && row[2] == d.x && row[3] == d.y
    ensures row[4] == l.x && row[5] == l.y && row[6] == r.x && row[7] == r.y
  {
    [c.x, c.y, d.x, d.y, l.x, l.y, r.x, r.y] + light
  }

  /** What `process_segment` returns for segment `s`. */
  function ProcessSpec(s: LaneSegment, m: Matrix4, centerX: real, centerY: real, maskRange: real,
                       recognition: map<int, int>): Option<Processed>
    requires IsMatrix4(m) && Processable(s, centerX, centerY, maskRange)
  {
    if !Inside(s.center.value, centerX, centerY, maskRange) then None
    else
      var c := Transformed(m, s.polyline.waypoints);
      var l := Offsets(Transformed(m, s.leftBoundaries[0].polyline.waypoints), c);
      var r := Offsets(Transformed(m, s.rightBoundaries[0].polyline.waypoints), c);
      var light := TrafficLightOf(s.trafficLights, recognition);
      Some(Processed(Rows(c, Diffs(c), l, r, light), s.speedLimitMph.value * MphToMps))
  }

  /** The segment is dropped exactly when its centre is outside the crop window. */
  lemma ProcessDropsOutside(s: LaneSegment, m: Matrix4, centerX: real, centerY: real, maskRange: real,
                            recognition: map<int, int>)
    requires IsMatrix4(m) && Processable(s, centerX, centerY, maskRange)
    ensures ProcessSpec(s, m, centerX, centerY, maskRange, recognition).None? <==>
      || s.center.value.x <= centerX - maskRange * MaskMargin
      || s.center.value.x >= centerX + maskRange * MaskMargin
      || s.center.value.y <= centerY - maskRange * MaskMargin
      || s.center.value.y >= centerY + maskRange * MaskMargin
  {
  }

  /**
   * A kept segment has one 12-column row per centre point. Row i starts with
   * the ego-frame centre point; its left and right columns, added to the
   * centre columns, give the ego-frame boundary points of index i, and they
   * equal the linear part of the transform applied to the map-frame offset,
   * so they do not depend on the ego position; the speed is the mph limit
   * times 0.44704.
   */
  lemma ProcessedGeometry(s: LaneSegment, m: Matrix4, centerX: real, centerY: real, maskRange: real,
                          recognition: map<int, int>, i: nat)
    requires IsMatrix4(m) && Processable(s, centerX, centerY, maskRange)
    requires Inside(s.center.value, centerX, centerY, maskRange)
    requires i < |s.polyline.waypoints|
    ensures var p := ProcessSpec(s, m, centerX, centerY, maskRange, recognition).value;
      var c := s.polyline.waypoints[i];
      var l := s.leftBoundaries[0].polyline.waypoints[i];
      var r := s.rightBoundaries[0].polyline.waypoints[i];
      && |p.lineData| == |s.polyline.waypoints|
      && |p.lineData[i]| == RowWidth
      && p.lineData[i][0] == Apply(m, c).x && p.lineData[i][1] == Apply(m, c).y
      && p.lineData[i][4] + p.lineData[i][0] == Apply(m, l).x
      && p.lineData[i][5] + p.lineData[i][1] == Apply(m, l).y
      && p.lineData[i][6] + p.lineData[i][0] == Apply(m, r).x
      && p.lineData[i][7] + p.lineData[i][1] == Apply(m, r).y
      && p.lineData[i][4] == ApplyLinear(m, Sub(l, c)).x && p.lineData[i][5] == ApplyLinear(m, Sub(l, c)).y
      && p.lineData[i][6] == ApplyLinear(m, Sub(r, c)).x && p.lineData[i][7] == ApplyLinear(m, Sub(r, c)).y
      && p.speedMps == s.speedLimitMph.value * MphToMps
  {
    var c := s.polyline.waypoints[i];
    var l := s.leftBoundaries[0].polyline.waypoints[i];
    var r := s.rightBoundaries[0].polyline.waypoints[i];
    OffsetIgnoresTranslation(m, l, c);
    OffsetIgnoresTranslation(m, r, c);
  }

  /**
   * The diff columns of each row are the next row's xy minus its own, and
   * the last row's diff columns are zero.
   */
  lemma ProcessedDiffs(s: LaneSegment, m: Matrix4, centerX: real, centerY: real, maskRange: real,
                       recognition: map<int, int>)
    requires IsMatrix4(m) && Processable(s, centerX, centerY, maskRange)
    requires Inside(s.center.value, centerX, centerY, maskRange)
    ensures var rows := ProcessSpec(s, m, centerX, centerY, maskRange, recognition).value.lineData;
      && |rows| >= 1
      && (forall i :: 0 <= i < |rows| ==> |rows[i]| == RowWidth)
      && (forall i :: 0 <= i < |rows| - 1 ==>
            rows[i][2] == rows[i + 1][0] - rows[i][0] && rows[i][3] == rows[i + 1][1] - rows[i][1])
      && rows[|rows| - 1][2] == 0.0 && rows[|rows| - 1][3] == 0.0
  {
    var c := Transformed(m, s.polyline.waypoints);
    var l := Offsets(Transformed(m, s.leftBoundaries[0].polyline.waypoints), c);
    var r := Offsets(Transformed(m, s.rightBoundaries[0].polyline.waypoints), c);
    RowsDiffs(c, l, r, TrafficLightOf(s.trafficLights, recognition));
  }

  /** The diff columns of `Rows` over any centre points, with a four-slot light vector. */
  lemma RowsDiffs(c: seq<Point3>, l: seq<Point3>, r: seq<Point3>, light: seq<real>)
    requires |c| >= 1 && |l| == |c| && |r| == |c| && |light| == 4
    ensures var rows := Rows(c, Diffs(c), l, r, light);
      && (forall i :: 0 <= i < |rows| ==> |rows[i]| == RowWidth)
      && (forall i :: 0 <= i < |rows| - 1 ==>
            rows[i][2] == rows[i + 1][0] - rows[i][0] && rows[i][3] == rows[i + 1][1] - rows[i][1])
      && rows[|rows| - 1][2] == 0.0 && rows[|rows| - 1][3] == 0.0
  {
    var rows := Rows(c, Diffs(c), l, r, light);
    forall i | 0 <= i < |c|
      ensures |rows[i]| == RowWidth
      ensures i < |c| - 1 ==>
        rows[i][2] == rows[i + 1][0] - rows[i][0] && rows[i][3] == rows[i + 1][1] - rows[i][1]
      ensures i == |c| - 1 ==> rows[i][2] == 0.0 && rows[i][3] == 0.0
    {
      RowDiffAt(c, l, r, light, i);
    }
  }

  /** Row i of `Rows` over the first differences, in terms of the centre points. */
  lemma RowDiffAt(c: seq<Point3>, l: seq<Point3>, r: seq<Point3>, light: seq<real>, i: nat)
    requires i < |c| && |l| == |c| && |r| == |c| && |light| == 4
    ensures var rows := Rows(c, Diffs(c), l, r, light);
      && |rows[i]| == RowWidth
      && rows[i][0] == c[i].x && rows[i][1] == c[i].y
      && (i < |c| - 1 ==> rows[i][2] == c[i + 1].x - c[i].x && rows[i][3] == c[i + 1].y - c[i].y)
      && (i == |c| - 1 ==> rows[i][2] == 0.0 && rows[i][3] == 0.0)
  {
    var d := Diffs(c);
    assert Rows(c, d, l, r, light)[i] == Row(c[i], d[i], l[i], r[i], light);
  }

  /** The same traffic-light vector is tiled onto every row. */
  lemma ProcessedLights(s: LaneSegment, m: Matrix4, centerX: real, centerY: real, maskRange: real,
                        recognition: map<int, int>)
    requires IsMatrix4(m) && Processable(s, centerX, centerY, maskRange)
    requires Inside(s.center.value, centerX, centerY, maskRange)
    ensures var rows := ProcessSpec(s, m, centerX, centerY, maskRange, recognition).value.lineData;
      forall i :: 0 <= i < |rows| ==> rows[i][8..] == TrafficLightOf(s.trafficLights, recognition)
  {
  }

  /** `inv_transform_matrix_4x4 @ points_4xN`, point by point, into a new array. */
  method TransformPoints(m: Matrix4, ps: seq<Point3>) returns (a: array<Point3>)
    requires IsMatrix4(m)
    ensures fresh(a) && a[..] == Transformed(m, ps)
  {
    a := new Point3[|ps|](_ => Origin);
    for i := 0 to |ps|
      invariant forall j :: 0 <= j < i ==> a[j] == Apply(m, ps[j])
    {
      a[i] := Apply(m, ps[i]);
    }
  }

  /** `b -= c`: each point of `b` made relative to the point of `c` at the same index. */
  method SubtractInPlace(b: array<Point3>, c: array<Point3>)
    requires b.Length == c.Length && b != c
    modifies b
    ensures b[..] == Offsets(old(b[..]), c[..])
  {
    for i := 0 to b.Length
      invariant forall j :: 0 <= j < i ==> b[j] == Sub(old(b[j]), c[j])
      invariant forall j :: i <= j < b.Length ==> b[j] == old(b[j])
    {
      b[i] := Sub(b[i], c[i]);
    }
  }

  /**
   * `c[1:] - c[:-1]` with a zero row inserted at the end. An empty array has
   * no differences, so the inserted zero row is the whole result.
   */
  method Differences(c: array<Point3>) returns (d: array<Point3>)
    ensures fresh(d)
    ensures c.Length == 0 ==> d[..] == [Origin]
    ensures c.Length >= 1 ==> d[..] == Diffs(c[..])
  {
    if c.Length == 0 {
      d := new Point3[1](_ => Origin);
      return;
    }
    d := new Point3[c.Length](_ => Origin);
    for i := 0 to c.Length - 1
      invariant forall j :: 0 <= j < i ==> d[j] == Sub(c[j + 1], c[j])
      invariant forall j :: i <= j < c.Length ==> d[j] == Origin
    {
      d[i] := Sub(c[i + 1], c[i]);
    }
  }

  /**
   * `process_segment`: the crop test, the transform of the three polylines,
   * the in-place boundary offsets, the differences, the light vector and the
   * speed conversion. The segment itself is a value and is not changed.
   */
  method ProcessSegment(s: LaneSegment, m: Matrix4, centerX: real, centerY: real, maskRange: real,
                        recognition: map<int, int>) returns (r: Option<Processed>)
    requires IsMatrix4(m) && Processable(s, centerX, centerY, maskRange)
    ensures r == ProcessSpec(s, m, centerX, centerY, maskRange, recognition)
  {
    var centerlines := s.polyline.waypoints;
    var leftBoundaries := s.leftBoundaries[0].polyline.waypoints;
    var rightBoundaries := s.rightBoundaries[0].polyline.waypoints;
    var center := s.center.value;
    var inside := center.x > centerX - maskRange * MaskMargin
      && center.x < centerX + maskRange * MaskMargin
      && center.y > centerY - maskRange * MaskMargin
      && center.y < centerY + maskRange * MaskMargin;
    if !inside {
      return None;
    }
    var centerEgo := TransformPoints(m, centerlines);
    var leftEgo := TransformPoints(m, leftBoundaries);
    var rightEgo := TransformPoints(m, rightBoundaries);
    SubtractInPlace(leftEgo, centerEgo);
    SubtractInPlace(rightEgo, centerEgo);
    var diffCenterlines := Differences(centerEgo);
    var trafficLight := TrafficLightVector(s.trafficLights, recognition);
    var lineData := Rows(centerEgo[..], diffCenterlines[..], leftEgo[..], rightEgo[..], trafficLight[..]);
    r := Some(Processed(lineData, s.speedLimitMph.value * MphToMps));
  }

  // ---------------------------------------------------------------------
  // Selection and packing

  /** The number of points of every kept lane, and so the rows of a lane slot. */
  const PointsPerLane: nat := FixedPointCount

  /**
   * The sort key: the squared xy distance of the first row's point from the
   * ego origin. The source sorts by the distance itself; squaring is
   * monotone on distances, so the order, ties included, is the same. The
   * `0.0` fallback stands for nothing in the source: every kept result has
   * a first row of 12 columns (`ProcessedDiffs`), so it is never taken.
   */
  function Key(p: Processed): real
  {
    if |p.lineData| > 0 && |p.lineData[0]| >= 2
    then p.lineData[0][0] * p.lineData[0][0] + p.lineData[0][1] * p.lineData[0][1]
    else 0.0
  }

  /**
   * The key of a kept segment is the squared xy distance from the ego
   * origin of its first centre point in the ego frame.
   */
  lemma KeyIsFirstPointDistance(s: LaneSegment, m: Matrix4, centerX: real, centerY: real, maskRange: real,
                                recognition: map<int, int>)
    requires IsMatrix4(m) && Processable(s, centerX, centerY, maskRange)
    requires Inside(s.center.value, centerX, centerY, maskRange)
    ensures var first := Apply(m, s.polyline.waypoints[0]);
      Key(ProcessSpec(s, m, centerX, centerY, maskRange, recognition).value) == first.x * first.x + first.y * first.y
  {
    ProcessedGeometry(s, m, centerX, centerY, maskRange, recognition, 0);
  }

  predicate AllProcessable(segs: seq<LaneSegment>, centerX: real, centerY: real, maskRange: real)
  {
    forall i :: 0 <= i < |segs| ==> Processable(segs[i], centerX, centerY, maskRange)
  }

  /** `result_list` after the segments `segs` have been processed in order. */
  function Survivors(segs: seq<LaneSegment>, m: Matrix4, centerX: real, centerY: real, maskRange: real,
                     recognition: map<int, int>): seq<Processed>
    requires IsMatrix4(m) && AllProcessable(segs, centerX, centerY, maskRange)
  {
    if segs == [] then []
    else
      var prev := Survivors(segs[..|segs| - 1], m, centerX, centerY, maskRange, recognition);
      match ProcessSpec(segs[|segs| - 1], m, centerX, centerY, maskRange, recognition)
      case None => prev
      case Some(p) => prev + [p]
  }

  function Min(a: nat, b: nat): nat
  {
    if a <= b then a else b
  }

  /** The kept results, stably sorted by key and truncated to `numSegments`. */
  function Selected(segs: seq<LaneSegment>, m: Matrix4, centerX: real, centerY: real, maskRange: real,
                    recognition: map<int, int>, numSegments: nat): seq<Processed>
    requires IsMatrix4(m) && AllProcessable(segs, centerX, centerY, maskRange)
  {
    var sorted := SortBy(Survivors(segs, m, centerX, centerY, maskRange, recognition), Key);
    SortByPermutes(Survivors(segs, m, centerX, centerY, maskRange, recognition), Key);
    sorted[..Min(numSegments, |sorted|)]
  }

  /**
   * The results kept are exactly those of the in-window segments, in
   * segment order: each in-window segment contributes its result, and each
   * result comes from an in-window segment.
   */
  lemma SurvivorsAreInWindow(segs: seq<LaneSegment>, m: Matrix4, centerX: real, centerY: real,
                             maskRange: real, recognition: map<int, int>)
    requires IsMatrix4(m) && AllProcessable(segs, centerX, centerY, maskRange)
    ensures var kept := Survivors(segs, m, centerX, centerY, maskRange, recognition);
      && (forall p :: p in kept ==> exists i ::
            && 0 <= i < |segs| && Inside(segs[i].center.value, centerX, centerY, maskRange)
            && ProcessSpec(segs[i], m, centerX, centerY, maskRange, recognition) == Some(p))
      && (forall i :: 0 <= i < |segs| && Inside(segs[i].center.value, centerX, centerY, maskRange) ==>
            ProcessSpec(segs[i], m, centerX, centerY, maskRange, recognition).value in kept)
  {
    SurvivorsFromWindow(segs, m, centerX, centerY, maskRange, recognition);
    WindowSurvives(segs, m, centerX, centerY, maskRange, recognition);
  }

  /** `AllProcessable` holds of every prefix. */
  lemma ProcessablePrefix(segs: seq<LaneSegment>, n: nat, centerX: real, centerY: real, maskRange: real)
    requires n <= |segs| && AllProcessable(segs, centerX, centerY, maskRange)
    ensures AllProcessable(segs[..n], centerX, centerY, maskRange)
  {
    forall i | 0 <= i < n ensures Processable(segs[..n][i], centerX, centerY, maskRange) {
      assert segs[..n][i] == segs[i];
    }
  }

  /** Each kept result is the result of some in-window segment. */
  lemma {:induction false} SurvivorsFromWindow(segs: seq<LaneSegment>, m: Matrix4, centerX: real, centerY: real,
                                               maskRange: real, recognition: map<int, int>)
    requires IsMatrix4(m) && AllProcessable(segs, centerX, centerY, maskRange)
    ensures forall p :: p in Survivors(segs, m, centerX, centerY, maskRange, recognition) ==> exists i ::
      && 0 <= i < |segs| && Inside(segs[i].center.value, centerX, centerY, maskRange)
      && ProcessSpec(segs[i], m, centerX, centerY, maskRange, recognition) == Some(p)
  {
    if segs != [] {
      var init := segs[..|segs| - 1];
      ProcessablePrefix(segs, |segs| - 1, centerX, centerY, maskRange);
      SurvivorsFromWindow(init, m, centerX, centerY, maskRange, recognition);
      var prev := Survivors(init, m, centerX, centerY, maskRange, recognition);
      forall p | p in Survivors(segs, m, centerX, centerY, maskRange, recognition)
        ensures exists i ::
          && 0 <= i < |segs| && Inside(segs[i].center.value, centerX, centerY, maskRange)
          && ProcessSpec(segs[i], m, centerX, centerY, maskRange, recognition) == Some(p)
      {
        if p in prev {
          var i :| 0 <= i < |init| && Inside(init[i].center.value, centerX, centerY, maskRange)
            && ProcessSpec(init[i], m, centerX, centerY, maskRange, recognition) == Some(p);
          assert init[i] == segs[i];
        } else {
          assert ProcessSpec(segs[|segs| - 1], m, centerX, centerY, maskRange, recognition) == Some(p);
        }
      }
    }
  }

  /** Each in-window segment's result is kept. */
  lemma {:induction false} WindowSurvives(segs: seq<LaneSegment>, m: Matrix4, centerX: real, centerY: real,
                                          maskRange: real, recognition: map<int, int>)
    requires IsMatrix4(m) && AllProcessable(segs, centerX, centerY, maskRange)
    ensures forall i :: 0 <= i < |segs| && Inside(segs[i].center.value, centerX, centerY, maskRange) ==>
      ProcessSpec(segs[i], m, centerX, centerY, maskRange, recognition).value
        in Survivors(segs, m, centerX, centerY, maskRange, recognition)
  {
    if segs != [] {
      var init := segs[..|segs| - 1];
      ProcessablePrefix(segs, |segs| - 1, centerX, centerY, maskRange);
      WindowSurvives(init, m, centerX, centerY, maskRange, recognition);
      var kept := Survivors(segs, m, centerX, centerY, maskRange, recognition);
      forall i | 0 <= i < |segs| && Inside(segs[i].center.value, centerX, centerY, maskRange)
        ensures ProcessSpec(segs[i], m, centerX, centerY, maskRange, recognition).value in kept
      {
        if i < |init| {
          assert init[i] == segs[i];
        }
      }
    }
  }

  /** Every kept result has one row per point of its lane: 20 when the lanes were fixed. */
  lemma {:induction false} SurvivorsShape(segs: seq<LaneSegment>, m: Matrix4, centerX: real, centerY: real,
                                          maskRange: real, recognition: map<int, int>)
    requires IsMatrix4(m) && AllProcessable(segs, centerX, centerY, maskRange)
    requires forall i :: 0 <= i < |segs| && Inside(segs[i].center.value, centerX, centerY, maskRange) ==>
      |segs[i].polyline.waypoints| == PointsPerLane
    ensures forall p :: p in Survivors(segs, m, centerX, centerY, maskRange, recognition) ==>
      LaneShaped(p.lineData)
  {
    if segs != [] {
      var init := segs[..|segs| - 1];
      assert forall i :: 0 <= i < |init| ==> init[i] == segs[i];
      SurvivorsShape(init, m, centerX, centerY, maskRange, recognition);
      var s := segs[|segs| - 1];
      if Inside(s.center.value, centerX, centerY, maskRange) {
        ProcessedDiffs(s, m, centerX, centerY, maskRange, recognition);
      }
    }
  }

  /** A 20 x 12 block of rows, the shape of one lane slot of the tensor. */
  predicate LaneShaped(rows: seq<seq<real>>)
  {
    |rows| == PointsPerLane && forall i :: 0 <= i < |rows| ==> |rows[i]| == RowWidth
  }

  /**
   * The selection holds min(numSegments, kept) results, ordered by
   * ascending key, drawn from the kept results without repetition, and no
   * kept result left out is nearer than a selected one.
   */
  lemma SelectedNearest(segs: seq<LaneSegment>, m: Matrix4, centerX: real, centerY: real, maskRange: real,
                        recognition: map<int, int>, numSegments: nat)
    requires IsMatrix4(m) && AllProcessable(segs, centerX, centerY, maskRange)
    ensures var kept := Survivors(segs, m, centerX, centerY, maskRange, recognition);
      var sel := Selected(segs, m, centerX, centerY, maskRange, recognition, numSegments);
      && |sel| == Min(numSegments, |kept|)
      && SortedBy(sel, Key)
      && multiset(sel) <= multiset(kept)
      && (forall p, q :: p in multiset(kept) - multiset(sel) && q in sel ==> Key(q) <= Key(p))
  {
    var kept := Survivors(segs, m, centerX, centerY, maskRange, recognition);
    SortedTake(kept, Key, numSegments);
  }

  /**
   * Ties keep the input order: for every key value, the selected results of
   * that key are the first ones of that key among the kept results, in the
   * order the segments were given.
   */
  lemma SelectedStable(segs: seq<LaneSegment>, m: Matrix4, centerX: real, centerY: real, maskRange: real,
                       recognition: map<int, int>, numSegments: nat, k: real)
    requires IsMatrix4(m) && AllProcessable(segs, centerX, centerY, maskRange)
    ensures var kept := Survivors(segs, m, centerX, centerY, maskRange, recognition);
      var sel := Selected(segs, m, centerX, centerY, maskRange, recognition, numSegments);
      WithKey(sel, Key, k) <= WithKey(kept, Key, k)
  {
    var kept := Survivors(segs, m, centerX, centerY, maskRange, recognition);
    var sorted := SortBy(kept, Key);
    SortByPermutes(kept, Key);
    SortByStable(kept, Key, k);
    var n := Min(numSegments, |sorted|);
    assert sorted == sorted[..n] + sorted[n..];
    WithKeyAppend(sorted[..n], sorted[n..], Key, k);
  }

  /** An unused lane slot: 20 rows of 12 zeros. */
  const ZeroLane: seq<seq<real>> := seq(PointsPerLane, _ => seq(RowWidth, _ => 0.0))

  /** The `lanes_tensor` slots: the selected rows, then zero slots up to `numSegments`. */
  function PackedLanes(sel: seq<Processed>, numSegments: nat): seq<seq<seq<real>>>
    requires |sel| <= numSegments
  {
    seq(numSegments, i requires 0 <= i < numSegments => if i < |sel| then sel[i].lineData else ZeroLane)
  }

  /** The `lanes_speed_limit` slots: the selected speeds in m/s, then zeros. */
  function PackedSpeeds(sel: seq<Processed>, numSegments: nat): seq<real>
    requires |sel| <= numSegments
  {
    seq(numSegments, i requires 0 <= i < numSegments => if i < |sel| then sel[i].speedMps else 0.0)
  }

  /** The `lanes_has_speed_limit` slots: true for a filled slot, false for padding. */
  function PackedHas(sel: seq<Processed>, numSegments: nat): seq<bool>
    requires |sel| <= numSegments
  {
    seq(numSegments, i requires 0 <= i < numSegments => i < |sel|)
  }

  /**
   * The packed tensors: `numSegments` lane slots of 20 x 12 each; the first
   * min(numSegments, kept) are the selected lanes, nearest first, each with
   * its speed limit in m/s and the flag set; the rest are zero with speed 0
   * and the flag clear.
   */
  lemma PackedShape(segs: seq<LaneSegment>, m: Matrix4, centerX: real, centerY: real, maskRange: real,
                    recognition: map<int, int>, numSegments: nat)
    requires IsMatrix4(m) && AllProcessable(segs, centerX, centerY, maskRange)
    requires forall i :: 0 <= i < |segs| && Inside(segs[i].center.value, centerX, centerY, maskRange) ==>
      |segs[i].polyline.waypoints| == PointsPerLane
    ensures var kept := Survivors(segs, m, centerX, centerY, maskRange, recognition);
      var sel := Selected(segs, m, centerX, centerY, maskRange, recognition, numSegments);
      var lanes := PackedLanes(sel, numSegments);
      var speeds := PackedSpeeds(sel, numSegments);
      var has := PackedHas(sel, numSegments);
      && |lanes| == numSegments && |speeds| == numSegments && |has| == numSegments
      && (forall i :: 0 <= i < numSegments ==> LaneShaped(lanes[i]))
      && (forall i :: 0 <= i < numSegments ==> (has[i] <==> i < |kept|))
      && (forall i :: 0 <= i < numSegments && !has[i] ==> lanes[i] == ZeroLane && speeds[i] == 0.0)
      && (forall i :: 0 <= i < numSegments && has[i] ==> sel[i] in kept)
  {
    SelectedShaped(segs, m, centerX, centerY, maskRange, recognition, numSegments);
  }

  /** Each selected result is a kept one, 20 x 12 when the lanes were fixed. */
  lemma SelectedShaped(segs: seq<LaneSegment>, m: Matrix4, centerX: real, centerY: real, maskRange: real,
                       recognition: map<int, int>, numSegments: nat)
    requires IsMatrix4(m) && AllProcessable(segs, centerX, centerY, maskRange)
    requires forall i :: 0 <= i < |segs| && Inside(segs[i].center.value, centerX, centerY, maskRange) ==>
      |segs[i].polyline.waypoints| == PointsPerLane
    ensures var kept := Survivors(segs, m, centerX, centerY, maskRange, recognition);
      var sel := Selected(segs, m, centerX, centerY, maskRange, recognition, numSegments);
      && |sel| == Min(numSegments, |kept|)
      && forall i :: 0 <= i < |sel| ==> sel[i] in kept && LaneShaped(sel[i].lineData)
  {
    var kept := Survivors(segs, m, centerX, centerY, maskRange, recognition);
    var sel := Selected(segs, m, centerX, centerY, maskRange, recognition, numSegments);
    SelectedNearest(segs, m, centerX, centerY, maskRange, recognition, numSegments);
    SurvivorsShape(segs, m, centerX, centerY, maskRange, recognition);
    forall i | 0 <= i < |sel|
      ensures sel[i] in kept
    {
      assert sel[i] in multiset(sel);
    }
  }

  /**
   * Segments that went through `_fix_point_num` meet the packing's shape
   * requirement: every selected result has 20 rows of 12 columns.
   */
  lemma FixedLanesPackable(segs: seq<LaneSegment>, m: Matrix4, centerX: real, centerY: real, maskRange: real,
                           recognition: map<int, int>, numSegments: nat)
    requires IsMatrix4(m) && AllProcessable(segs, centerX, centerY, maskRange)
    requires forall i :: 0 <= i < |segs| ==> HasFixedPoints(segs[i])
    ensures var sel := Selected(segs, m, centerX, centerY, maskRange, recognition, numSegments);
      forall i :: 0 <= i < |sel| ==> |sel[i].lineData| == PointsPerLane && LaneShaped(sel[i].lineData)
  {
    SelectedShaped(segs, m, centerX, centerY, maskRange, recognition, numSegments);
  }

  /**
   * A lane after the point-count fix has a crop centre, a bound on each
   * side and bounds as long as its centreline, so the only part of
   * `Processable` it can miss is the speed limit of an in-window lane.
   */
  lemma FixedLaneProcessable(s: LaneSegment, centerX: real, centerY: real, maskRange: real)
    requires HasFixedPoints(s)
    ensures Processable(s, centerX, centerY, maskRange) <==>
      (Inside(s.center.value, centerX, centerY, maskRange) ==> s.speedLimitMph.Some?)
  {
  }

  /** The first loop of `create_lane_tensor`, which collects the results of the kept segments. */
  method ProcessAll(segs: seq<LaneSegment>, m: Matrix4, centerX: real, centerY: real, maskRange: real,
                    recognition: map<int, int>) returns (resultList: seq<Processed>)
    requires IsMatrix4(m) && AllProcessable(segs, centerX, centerY, maskRange)
    ensures resultList == Survivors(segs, m, centerX, centerY, maskRange, recognition)
  {
    resultList := [];
    for i := 0 to |segs|
      invariant resultList == Survivors(segs[..i], m, centerX, centerY, maskRange, recognition)
    {
      assert segs[..i + 1][..i] == segs[..i];
      var currData := ProcessSegment(segs[i], m, centerX, centerY, maskRange, recognition);
      if currData.Some? {
        resultList := resultList + [currData.value];
      }
    }
    assert segs[..|segs|] == segs;
  }

  /** The zero-initialised tensors of `create_lane_tensor`, `numSegments` slots each. */
  method Zeros(numSegments: nat) returns (lanes: array<seq<seq<real>>>, speeds: array<real>, has: array<bool>)
    ensures fresh(lanes) && fresh(speeds) && fresh(has)
    ensures lanes.Length == numSegments && speeds.Length == numSegments && has.Length == numSegments
    ensures forall j :: 0 <= j < numSegments ==> lanes[j] == ZeroLane && speeds[j] == 0.0 && !has[j]
  {
    lanes := new seq<seq<real>>[numSegments](_ => ZeroLane);
    speeds := new real[numSegments](_ => 0.0);
    has := new bool[numSegments](_ => false);
  }

  /** The zeroed tensors of `create_lane_tensor` and its second loop, which fills their first slots. */
  method Pack(selected: seq<Processed>, numSegments: nat)
    returns (lanes: array<seq<seq<real>>>, speeds: array<real>, has: array<bool>)
    requires |selected| <= numSegments
    ensures fresh(lanes) && fresh(speeds) && fresh(has)
    ensures lanes[..] == PackedLanes(selected, numSegments)
    ensures speeds[..] == PackedSpeeds(selected, numSegments)
    ensures has[..] == PackedHas(selected, numSegments)
  {
    lanes, speeds, has := Zeros(numSegments);
    for i := 0 to |selected|
      invariant forall j :: 0 <= j < numSegments ==> lanes[j] == if j < i then selected[j].lineData else ZeroLane
      invariant forall j :: 0 <= j < numSegments ==> speeds[j] == if j < i then selected[j].speedMps else 0.0
      invariant forall j :: 0 <= j < numSegments ==> has[j] == (j < i)
    {
      lanes[i] := selected[i].lineData;
      speeds[i] := selected[i].speedMps;
      has[i] := true;
    }
    assert forall j :: 0 <= j < numSegments ==> lanes[j] == PackedLanes(selected, numSegments)[j];
    assert forall j :: 0 <= j < numSegments ==> speeds[j] == PackedSpeeds(selected, numSegments)[j];
  }

  /**
   * `create_lane_tensor`: process every segment, keep the in-window ones,
   * sort them by the distance of their first point, keep the nearest
   * `numSegments`, and write them into zeroed tensors of `numSegments` slots.
   */
  method CreateLaneTensor(segs: seq<LaneSegment>, m: Matrix4, centerX: real, centerY: real, maskRange: real,
                          recognition: map<int, int>, numSegments: nat)
    returns (lanes: array<seq<seq<real>>>, speeds: array<real>, has: array<bool>)
    requires IsMatrix4(m) && AllProcessable(segs, centerX, centerY, maskRange)
    requires var sel := Selected(segs, m, centerX, centerY, maskRange, recognition, numSegments);
      forall i :: 0 <= i < |sel| ==> |sel[i].lineData| == PointsPerLane
    ensures fresh(lanes) && fresh(speeds) && fresh(has)
    ensures var sel := Selected(segs, m, centerX, centerY, maskRange, recognition, numSegments);
      && |sel| <= numSegments
      && lanes[..] == PackedLanes(sel, numSegments)
      && speeds[..] == PackedSpeeds(sel, numSegments)
      && has[..] == PackedHas(sel, numSegments)
  {
    var resultList := ProcessAll(segs, m, centerX, centerY, maskRange, recognition);
    var sorted := SortBy(resultList, Key);
    SortByPermutes(resultList, Key);
    var selected := sorted[..Min(numSegments, |sorted|)];

    lanes, speeds, has := Pack(selected, numSegments);
  }
}
