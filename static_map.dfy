/**
 * The static map and its construction from a lanelet map (`convert_lanelet`
 * and `_fix_point_num`): lanelets of a lane subtype become lane segments,
 * crosswalk lanelets become crosswalk segments, every other lanelet is
 * skipped, and road-edge and road-line linestrings that no lane claims as a
 * bound become orphan boundary segments. Afterwards every lane's centreline
 * and bounds are resampled to exactly 20 points and its crop centre is set.
 */
module StaticMapModel {
  import opened Wrappers
  import opened Geometry
  import opened Attributes
  import opened Resample

  /** The number of points every lane polyline has once the map is built. */
  const FixedPointCount: nat := 20

  datatype Polyline = Polyline(polylineType: MapType, waypoints: seq<Point3>)

  datatype BoundarySegment = BoundarySegment(id: int, polyline: Polyline)

  datatype CrosswalkSegment = CrosswalkSegment(id: int, polygon: Polyline)

  /**
   * A lane: its centreline, its bounds (lists that hold one segment each),
   * its neighbour ids, its speed limit in mph when the map gives one, the
   * ids of its traffic-light regulatory elements, and the crop centre, which
   * is set when the point counts are fixed.
   */
  datatype LaneSegment = LaneSegment(
    id: int,
    polyline: Polyline,
    isIntersection: bool,
    leftBoundaries: seq<BoundarySegment>,
    rightBoundaries: seq<BoundarySegment>,
    leftNeighborIds: seq<int>,
    rightNeighborIds: seq<int>,
    speedLimitMph: Option<real>,
    trafficLights: seq<int>,
    center: Option<XY>)

  /** The layers of a loaded lanelet map, in iteration order, and its routing graph. */
  datatype LaneletMap = LaneletMap(
    lanelets: seq<Lanelet>,
    linestrings: seq<LineString>,
    routing: RoutingGraph)

  // ---------------------------------------------------------------------
  // What one primitive becomes

  /** `_get_boundary_segment`: the linestring's id, its boundary type, and its points resampled. */
  function BoundarySegmentOf(cfg: Config, f: Numerics, ls: LineString): BoundarySegment
    requires cfg.Valid() && |ls.points| >= 2
  {
    BoundarySegment(ls.id, Polyline(GetBoundaryType(cfg, ls), ResampleLane(f, ls.points)))
  }

  method GetBoundarySegment(cfg: Config, f: Numerics, ls: LineString) returns (b: BoundarySegment)
    requires cfg.Valid() && |ls.points| >= 2
    ensures b == BoundarySegmentOf(cfg, f, ls)
    ensures b.id == ls.id && b.polyline.polylineType == GetBoundaryType(cfg, ls)
  {
    var boundaryType := GetBoundaryType(cfg, ls);
    var waypoints := InterpolateLane(f, ls.points);
    b := BoundarySegment(ls.id, Polyline(boundaryType, waypoints));
  }

  predicate IsLaneLanelet(cfg: Config, l: Lanelet)
  {
    GetLaneletSubtype(l) in cfg.lane
  }

  predicate IsCrosswalkLanelet(cfg: Config, l: Lanelet)
  {
    !IsLaneLanelet(cfg, l) && GetLaneletSubtype(l) == "crosswalk"
  }

  /** The polylines of a lane lanelet can be resampled. */
  predicate LanePolylinesReady(l: Lanelet)
  {
    |l.centerline| >= 2 && |l.leftBound.points| >= 2 && |l.rightBound.points| >= 2
  }

  /** The lane segment built for a lane lanelet, before its point counts are fixed. */
  function LaneSegmentOf(cfg: Config, f: Numerics, g: RoutingGraph, l: Lanelet): LaneSegment
    requires cfg.Valid() && IsLaneLanelet(cfg, l) && LanePolylinesReady(l)
  {
    var neighbors := GetLeftAndRightNeighborIds(l, g);
    LaneSegment(
      l.id,
      Polyline(cfg.mapping[GetLaneletSubtype(l)], ResampleLane(f, l.centerline)),
      IsIntersection(l),
      [BoundarySegmentOf(cfg, f, l.leftBound)],
      [BoundarySegmentOf(cfg, f, l.rightBound)],
      neighbors.0,
      neighbors.1,
      GetSpeedLimitMph(f, l),
      l.trafficLights,
      None)
  }

  /**
   * A lane segment built from a lanelet keeps the lanelet's id, has exactly
   * one left and one right boundary, which are the lanelet's bounds, has at
   * most one neighbour id per side, carries a speed limit exactly when the
   * lanelet has one, and is an intersection lane exactly when the lanelet
   * has a turn direction.
   */
  lemma LaneSegmentOfShape(cfg: Config, f: Numerics, g: RoutingGraph, l: Lanelet)
    requires cfg.Valid() && IsLaneLanelet(cfg, l) && LanePolylinesReady(l)
    ensures var s := LaneSegmentOf(cfg, f, g, l);
      && s.id == l.id
      && |s.leftBoundaries| == 1 && s.leftBoundaries[0].id == l.leftBound.id
      && |s.rightBoundaries| == 1 && s.rightBoundaries[0].id == l.rightBound.id
      && |s.leftNeighborIds| <= 1 && |s.rightNeighborIds| <= 1
      && (s.speedLimitMph.Some? <==> "speed_limit" in l.attrs)
      && (s.isIntersection <==> "turn_direction" in l.attrs)
      && s.center.None?
  {
  }

  function CrosswalkSegmentOf(cfg: Config, f: Numerics, l: Lanelet): CrosswalkSegment
    requires cfg.Valid() && |l.polygon| >= 2
  {
    CrosswalkSegment(l.id, Polyline(cfg.mapping["crosswalk"], ResampleLane(f, l.polygon)))
  }

  // ---------------------------------------------------------------------
  // What the whole layer becomes

  /**
   * What the converter needs of a lanelet it keeps: resamplable polylines,
   * and, for a lane, resampled polylines of at least two points, since the
   * fixed-count resampling builds a shapely line from them.
   */
  predicate LaneletReady(cfg: Config, f: Numerics, l: Lanelet)
  {
    && (IsLaneLanelet(cfg, l) ==>
          && LanePolylinesReady(l)
          && |ResampleLane(f, l.centerline)| >= 2
          && |ResampleLane(f, l.leftBound.points)| >= 2
          && |ResampleLane(f, l.rightBound.points)| >= 2)
    && (IsCrosswalkLanelet(cfg, l) ==> |l.polygon| >= 2)
  }

  predicate AllReady(cfg: Config, f: Numerics, ls: seq<Lanelet>)
  {
    forall l :: l in ls ==> LaneletReady(cfg, f, l)
  }

  lemma AllReadyPrefix(cfg: Config, f: Numerics, ls: seq<Lanelet>, k: nat)
    requires AllReady(cfg, f, ls) && k <= |ls|
    ensures AllReady(cfg, f, ls[..k])
  {
    forall l | l in ls[..k] ensures LaneletReady(cfg, f, l) {
      var i :| 0 <= i < k && ls[..k][i] == l;
      assert ls[i] == l;
    }
  }

  /** The `lane_segments` dict after the lanelets `ls` have been visited in order. */
  function LanesOf(cfg: Config, f: Numerics, g: RoutingGraph, ls: seq<Lanelet>): (lanes: map<int, LaneSegment>)
    requires cfg.Valid() && AllReady(cfg, f, ls)
    ensures forall id :: id in lanes ==> WellFormedLane(id, lanes[id]) && Fixable(lanes[id])
  {
    if ls == [] then map[]
    else
      var l := ls[|ls| - 1];
      assert l in ls && LaneletReady(cfg, f, l);
      AllReadyPrefix(cfg, f, ls, |ls| - 1);
      var prev := LanesOf(cfg, f, g, ls[..|ls| - 1]);
      if IsLaneLanelet(cfg, l) then prev[l.id := LaneSegmentOf(cfg, f, g, l)] else prev
  }

  /** The `crosswalk_segments` dict after the lanelets `ls` have been visited in order. */
  function CrosswalksOf(cfg: Config, f: Numerics, ls: seq<Lanelet>): map<int, CrosswalkSegment>
    requires cfg.Valid() && AllReady(cfg, f, ls)
  {
    if ls == [] then map[]
    else
      var l := ls[|ls| - 1];
      assert l in ls && LaneletReady(cfg, f, l);
      AllReadyPrefix(cfg, f, ls, |ls| - 1);
      var prev := CrosswalksOf(cfg, f, ls[..|ls| - 1]);
      if IsCrosswalkLanelet(cfg, l) then prev[l.id := CrosswalkSegmentOf(cfg, f, l)] else prev
  }

  /** The `taken_boundary_ids` list: the left and right bound ids of each lane, in visiting order. */
  function TakenIds(cfg: Config, ls: seq<Lanelet>): seq<int>
  {
    if ls == [] then []
    else
      var l := ls[|ls| - 1];
      TakenIds(cfg, ls[..|ls| - 1]) + (if IsLaneLanelet(cfg, l) then [l.leftBound.id, l.rightBound.id] else [])
  }

  /**
   * The key order of the `lane_segments` dict after the lanelets `ls` have
   * been visited: each lane id where it was first inserted, since storing
   * under a key already present keeps the key's place.
   */
  function LaneOrderOf(cfg: Config, ls: seq<Lanelet>): seq<int>
  {
    if ls == [] then []
    else
      var l := ls[|ls| - 1];
      var prev := LaneOrderOf(cfg, ls[..|ls| - 1]);
      prev + (if IsLaneLanelet(cfg, l) && l.id !in prev then [l.id] else [])
  }

  predicate Distinct(s: seq<int>)
  {
    forall i, j :: 0 <= i < j < |s| ==> s[i] != s[j]
  }

  /** A linestring becomes an orphan boundary when it is a road edge or road line and no lane took it. */
  predicate IsOrphanCandidate(cfg: Config, ls: LineString, taken: seq<int>)
  {
    var t := GetLinestringType(ls);
    (t in cfg.roadEdge || t in cfg.roadLine) && ls.id !in taken
  }

  predicate OrphansReady(cfg: Config, lines: seq<LineString>, taken: seq<int>)
  {
    forall ls :: ls in lines && IsOrphanCandidate(cfg, ls, taken) ==> |ls.points| >= 2
  }

  lemma OrphansReadyPrefix(cfg: Config, lines: seq<LineString>, taken: seq<int>, k: nat)
    requires OrphansReady(cfg, lines, taken) && k <= |lines|
    ensures OrphansReady(cfg, lines[..k], taken)
  {
    forall ls | ls in lines[..k] && IsOrphanCandidate(cfg, ls, taken) ensures |ls.points| >= 2 {
      var i :| 0 <= i < k && lines[..k][i] == ls;
      assert lines[i] == ls;
    }
  }

  /** The `boundary_segments` dict after the linestrings `lines` have been visited in order. */
  function OrphansOf(cfg: Config, f: Numerics, lines: seq<LineString>, taken: seq<int>): map<int, BoundarySegment>
    requires cfg.Valid() && OrphansReady(cfg, lines, taken)
  {
    if lines == [] then map[]
    else
      var ls := lines[|lines| - 1];
      OrphansReadyPrefix(cfg, lines, taken, |lines| - 1);
      var prev := OrphansOf(cfg, f, lines[..|lines| - 1], taken);
      if IsOrphanCandidate(cfg, ls, taken) then prev[ls.id := BoundarySegmentOf(cfg, f, ls)] else prev
  }

  // ---------------------------------------------------------------------
  // Properties of the construction

  /** The lane dict holds exactly the ids of the lane lanelets. */
  lemma {:induction false} LanesOfKeys(cfg: Config, f: Numerics, g: RoutingGraph, ls: seq<Lanelet>)
    requires cfg.Valid() && AllReady(cfg, f, ls)
    ensures forall id :: id in LanesOf(cfg, f, g, ls) <==>
      exists l :: l in ls && l.id == id && IsLaneLanelet(cfg, l)
  {
    if ls != [] {
      var init := ls[..|ls| - 1];
      var l := ls[|ls| - 1];
      AllReadyPrefix(cfg, f, ls, |ls| - 1);
      LanesOfKeys(cfg, f, g, init);
      assert ls == init + [l];
      var prev := LanesOf(cfg, f, g, init);
      var lanes := LanesOf(cfg, f, g, ls);
      assert l in ls;
      LaneletStep(cfg, f, g, init, l);
      forall id | id in lanes
        ensures exists l' :: l' in ls && l'.id == id && IsLaneLanelet(cfg, l')
      {
        if IsLaneLanelet(cfg, l) && l.id == id {
          assert l in ls;
        } else {
          assert id in prev;
          var l' :| l' in init && l'.id == id && IsLaneLanelet(cfg, l');
          assert l' in ls;
        }
      }
      forall l' | l' in ls && IsLaneLanelet(cfg, l')
        ensures l'.id in lanes
      {
        if l' != l {
          assert l' in init;
          assert l'.id in prev;
        }
      }
    }
  }

  /**
   * The entry of each lane id is the lane segment built from a lane lanelet
   * of that id.
   */
  lemma {:induction false} LanesOfValues(cfg: Config, f: Numerics, g: RoutingGraph, ls: seq<Lanelet>, id: int)
    requires cfg.Valid() && AllReady(cfg, f, ls)
    requires id in LanesOf(cfg, f, g, ls)
    ensures exists l ::
      && l in ls && l.id == id && IsLaneLanelet(cfg, l) && LanePolylinesReady(l)
      && LanesOf(cfg, f, g, ls)[id] == LaneSegmentOf(cfg, f, g, l)
  {
    var init := ls[..|ls| - 1];
    var l := ls[|ls| - 1];
    assert l in ls && LaneletReady(cfg, f, l);
    AllReadyPrefix(cfg, f, ls, |ls| - 1);
    if IsLaneLanelet(cfg, l) && l.id == id {
      assert LanesOf(cfg, f, g, ls)[id] == LaneSegmentOf(cfg, f, g, l);
    } else {
      LanesOfValues(cfg, f, g, init, id);
      var l' :| l' in init && l'.id == id && IsLaneLanelet(cfg, l') && LanePolylinesReady(l')
        && LanesOf(cfg, f, g, init)[id] == LaneSegmentOf(cfg, f, g, l');
      assert l' in ls;
    }
  }

  /** The crosswalk dict holds exactly the ids of crosswalk lanelets that are not lanes. */
  lemma {:induction false} CrosswalksOfEntries(cfg: Config, f: Numerics, ls: seq<Lanelet>)
    requires cfg.Valid() && AllReady(cfg, f, ls)
    ensures forall id :: id in CrosswalksOf(cfg, f, ls) <==>
      exists l :: l in ls && l.id == id && IsCrosswalkLanelet(cfg, l)
  {
    if ls != [] {
      var init := ls[..|ls| - 1];
      var l := ls[|ls| - 1];
      AllReadyPrefix(cfg, f, ls, |ls| - 1);
      CrosswalksOfEntries(cfg, f, init);
      assert ls == init + [l];
      assert forall x :: x in ls <==> x in init || x == l;
    }
  }

  /** The key order lists every lane id exactly once. */
  lemma {:induction false} LaneOrderOfKeys(cfg: Config, f: Numerics, g: RoutingGraph, ls: seq<Lanelet>)
    requires cfg.Valid() && AllReady(cfg, f, ls)
    ensures forall id :: id in LaneOrderOf(cfg, ls) <==> id in LanesOf(cfg, f, g, ls)
    ensures Distinct(LaneOrderOf(cfg, ls))
  {
    if ls != [] {
      var init := ls[..|ls| - 1];
      AllReadyPrefix(cfg, f, ls, |ls| - 1);
      LaneOrderOfKeys(cfg, f, g, init);
    }
  }

  /** An id is taken exactly when it is the left or right bound id of some lane lanelet. */
  lemma {:induction false} TakenIdsContents(cfg: Config, ls: seq<Lanelet>)
    ensures forall id :: id in TakenIds(cfg, ls) <==>
      exists l :: l in ls && IsLaneLanelet(cfg, l) && (id == l.leftBound.id || id == l.rightBound.id)
  {
    if ls != [] {
      var init := ls[..|ls| - 1];
      var l := ls[|ls| - 1];
      TakenIdsContents(cfg, init);
      assert ls == init + [l];
      assert forall x :: x in ls <==> x in init || x == l;
    }
  }

  /**
   * The orphan dict holds exactly the ids of road-edge or road-line
   * linestrings that no lane took.
   */
  lemma {:induction false} OrphansOfKeys(cfg: Config, f: Numerics, lines: seq<LineString>, taken: seq<int>)
    requires cfg.Valid() && OrphansReady(cfg, lines, taken)
    ensures forall id :: id in OrphansOf(cfg, f, lines, taken) <==>
      exists ls :: ls in lines && ls.id == id && IsOrphanCandidate(cfg, ls, taken)
    ensures forall id :: id in OrphansOf(cfg, f, lines, taken) ==> id !in taken
  {
    if lines != [] {
      var init := lines[..|lines| - 1];
      var ls := lines[|lines| - 1];
      OrphansReadyPrefix(cfg, lines, taken, |lines| - 1);
      OrphansOfKeys(cfg, f, init, taken);
      assert lines == init + [ls];
      forall id ensures id in OrphansOf(cfg, f, lines, taken) <==>
        exists x :: x in lines && x.id == id && IsOrphanCandidate(cfg, x, taken)
      {
        if id in OrphansOf(cfg, f, lines, taken) && !(IsOrphanCandidate(cfg, ls, taken) && ls.id == id) {
          assert id in OrphansOf(cfg, f, init, taken);
          var x :| x in init && x.id == id && IsOrphanCandidate(cfg, x, taken);
          assert x in lines;
        }
        if exists x :: x in lines && x.id == id && IsOrphanCandidate(cfg, x, taken) {
          var x :| x in lines && x.id == id && IsOrphanCandidate(cfg, x, taken);
          if x != ls {
            assert x in init;
          }
        }
      }
    }
  }

  /** Each orphan entry is the boundary segment built from a linestring of that id. */
  lemma {:induction false} OrphansOfValues(cfg: Config, f: Numerics, lines: seq<LineString>, taken: seq<int>, id: int)
    requires cfg.Valid() && OrphansReady(cfg, lines, taken)
    requires id in OrphansOf(cfg, f, lines, taken)
    ensures exists ls ::
      && ls in lines && ls.id == id && IsOrphanCandidate(cfg, ls, taken) && |ls.points| >= 2
      && OrphansOf(cfg, f, lines, taken)[id] == BoundarySegmentOf(cfg, f, ls)
  {
    var init := lines[..|lines| - 1];
    var ls := lines[|lines| - 1];
    assert ls in lines;
    OrphansReadyPrefix(cfg, lines, taken, |lines| - 1);
    if IsOrphanCandidate(cfg, ls, taken) && ls.id == id {
      assert OrphansOf(cfg, f, lines, taken)[id] == BoundarySegmentOf(cfg, f, ls);
    } else {
      OrphansOfValues(cfg, f, init, taken, id);
      var x :| x in init && x.id == id && IsOrphanCandidate(cfg, x, taken) && |x.points| >= 2
        && OrphansOf(cfg, f, init, taken)[id] == BoundarySegmentOf(cfg, f, x);
      assert x in lines;
    }
  }

  /**
   * Boundary deduplication: no bound of a lane reappears as an orphan
   * boundary, and every lane has exactly one left and one right boundary.
   */
  lemma BoundsNotOrphaned(cfg: Config, f: Numerics, lm: LaneletMap)
    requires cfg.Valid() && AllReady(cfg, f, lm.lanelets)
    requires OrphansReady(cfg, lm.linestrings, TakenIds(cfg, lm.lanelets))
    ensures var lanes := LanesOf(cfg, f, lm.routing, lm.lanelets);
      var orphans := OrphansOf(cfg, f, lm.linestrings, TakenIds(cfg, lm.lanelets));
      forall id :: id in lanes ==>
        && |lanes[id].leftBoundaries| == 1 && |lanes[id].rightBoundaries| == 1
        && lanes[id].leftBoundaries[0].id !in orphans
        && lanes[id].rightBoundaries[0].id !in orphans
  {
    var taken := TakenIds(cfg, lm.lanelets);
    var lanes := LanesOf(cfg, f, lm.routing, lm.lanelets);
    var orphans := OrphansOf(cfg, f, lm.linestrings, taken);
    TakenIdsContents(cfg, lm.lanelets);
    OrphansOfKeys(cfg, f, lm.linestrings, taken);
    forall id | id in lanes
      ensures |lanes[id].leftBoundaries| == 1 && |lanes[id].rightBoundaries| == 1
      ensures lanes[id].leftBoundaries[0].id !in orphans && lanes[id].rightBoundaries[0].id !in orphans
    {
      LanesOfValues(cfg, f, lm.routing, lm.lanelets, id);
      var l :| l in lm.lanelets && IsLaneLanelet(cfg, l) && LanePolylinesReady(l)
        && lanes[id] == LaneSegmentOf(cfg, f, lm.routing, l);
      LaneSegmentOfShape(cfg, f, lm.routing, l);
      assert l.leftBound.id in taken && l.rightBound.id in taken;
    }
  }

  // ---------------------------------------------------------------------
  // Fixing the point counts

  /** What `_fix_point_num` needs of a lane: one bound per side and polylines shapely accepts. */
  predicate Fixable(s: LaneSegment)
  {
    && |s.polyline.waypoints| >= 2
    && |s.leftBoundaries| >= 1 && |s.leftBoundaries[0].polyline.waypoints| >= 2
    && |s.rightBoundaries| >= 1 && |s.rightBoundaries[0].polyline.waypoints| >= 2
  }

  function WithWaypoints(b: BoundarySegment, w: seq<Point3>): BoundarySegment
  {
    b.(polyline := b.polyline.(waypoints := w))
  }

  /** A lane after `_fix_point_num`. */
  function Fixed(f: Numerics, s: LaneSegment): LaneSegment
    requires Fixable(s)
  {
    var c := s.polyline.waypoints;
    var lb := s.leftBoundaries[0];
    var rb := s.rightBoundaries[0];
    s.(polyline := s.polyline.(waypoints := InterpolatePoints(f, c, FixedPointCount)),
       leftBoundaries := s.leftBoundaries[0 := WithWaypoints(lb, InterpolatePoints(f, lb.polyline.waypoints, FixedPointCount))],
       rightBoundaries := s.rightBoundaries[0 := WithWaypoints(rb, InterpolatePoints(f, rb.polyline.waypoints, FixedPointCount))],
       center := Some(MeanXY(c)))
  }

  function FixAll(f: Numerics, lanes: map<int, LaneSegment>): map<int, LaneSegment>
    requires forall id :: id in lanes ==> Fixable(lanes[id])
  {
    map id | id in lanes :: Fixed(f, lanes[id])
  }

  /** The lane is fully resampled: 20 points on its centreline and first bounds, and a crop centre. */
  predicate HasFixedPoints(s: LaneSegment)
  {
    && |s.polyline.waypoints| == FixedPointCount
    && |s.leftBoundaries| >= 1 && |s.leftBoundaries[0].polyline.waypoints| == FixedPointCount
    && |s.rightBoundaries| >= 1 && |s.rightBoundaries[0].polyline.waypoints| == FixedPointCount
    && s.center.Some?
  }

  /**
   * After the fix, the centreline and both bounds have exactly 20 points,
   * the crop centre is the mean xy of the centreline as it was BEFORE the
   * fix, so it lies in every box that held that centreline, and nothing
   * else about the lane changes (ids, types, flags, neighbours, speed limit,
   * traffic lights, number of bounds).
   */
  lemma FixedLane(f: Numerics, s: LaneSegment, lo: XY, hi: XY)
    requires Fixable(s)
    ensures var t := Fixed(f, s);
      && HasFixedPoints(t)
      && t.center == Some(MeanXY(s.polyline.waypoints))
      && (InBox(s.polyline.waypoints, lo, hi) ==>
            lo.x <= t.center.value.x <= hi.x && lo.y <= t.center.value.y <= hi.y)
      && t.id == s.id && t.polyline.polylineType == s.polyline.polylineType
      && t.isIntersection == s.isIntersection
      && t.leftNeighborIds == s.leftNeighborIds && t.rightNeighborIds == s.rightNeighborIds
      && t.speedLimitMph == s.speedLimitMph && t.trafficLights == s.trafficLights
      && |t.leftBoundaries| == |s.leftBoundaries| && |t.rightBoundaries| == |s.rightBoundaries|
      && t.leftBoundaries[0].id == s.leftBoundaries[0].id
      && t.rightBoundaries[0].id == s.rightBoundaries[0].id
      && t.leftBoundaries[0].polyline.polylineType == s.leftBoundaries[0].polyline.polylineType
      && t.rightBoundaries[0].polyline.polylineType == s.rightBoundaries[0].polyline.polylineType
  {
    if InBox(s.polyline.waypoints, lo, hi) {
      MeanInBox(s.polyline.waypoints, lo, hi);
    }
  }

  /** A lane keyed by its own id, with exactly one bound per side and at most one neighbour per side. */
  predicate WellFormedLane(id: int, s: LaneSegment)
  {
    && s.id == id
    && |s.leftBoundaries| == 1 && |s.rightBoundaries| == 1
    && |s.leftNeighborIds| <= 1 && |s.rightNeighborIds| <= 1
  }

  /** The body of `_fix_point_num`'s loop for one lane. */
  method FixLane(f: Numerics, segment: LaneSegment) returns (fixed: LaneSegment)
    requires Fixable(segment)
    ensures fixed == Fixed(f, segment)
  {
    var centerlines := segment.polyline.waypoints;
    var leftBoundary := segment.leftBoundaries[0];
    var rightBoundary := segment.rightBoundaries[0];

    var newCenterlines := InterpolatePoints(f, centerlines, FixedPointCount);
    var newLeft := InterpolatePoints(f, leftBoundary.polyline.waypoints, FixedPointCount);
    var newRight := InterpolatePoints(f, rightBoundary.polyline.waypoints, FixedPointCount);
    var center := MeanXY(centerlines);
    fixed := segment.(
      polyline := segment.polyline.(waypoints := newCenterlines),
      leftBoundaries := segment.leftBoundaries[0 := WithWaypoints(leftBoundary, newLeft)],
      rightBoundaries := segment.rightBoundaries[0 := WithWaypoints(rightBoundary, newRight)],
      center := Some(center));
  }

  /** The lane dict and its key order: each lane id once, and each lane well formed under its own id. */
  ghost predicate ValidLanes(lanes: map<int, LaneSegment>, order: seq<int>)
  {
    && (forall id :: id in lanes <==> id in order) && Distinct(order)
    && forall id :: id in lanes ==> WellFormedLane(id, lanes[id])
  }

  /**
   * `AWMLStaticMap`: the three segment dicts. The methods update the dicts
   * in place; the segments are values, so a lane is updated by storing its
   * new value under its id. `laneOrder` is the lane dict's key order, which
   * is the order its loops visit the lanes in.
   */
  class StaticMap {
    var laneSegments: map<int, LaneSegment>
    var laneOrder: seq<int>
    var crosswalkSegments: map<int, CrosswalkSegment>
    var boundarySegments: map<int, BoundarySegment>

    /** The class invariant: ordered keys, and every lane well formed under its own id. */
    ghost predicate Valid()
      reads this
    {
      ValidLanes(laneSegments, laneOrder)
    }

    constructor (lanes: map<int, LaneSegment>, order: seq<int>, crosswalks: map<int, CrosswalkSegment>,
                 boundaries: map<int, BoundarySegment>)
      ensures Valid() <==> ValidLanes(lanes, order)
      ensures laneSegments == lanes && laneOrder == order
      ensures crosswalkSegments == crosswalks && boundarySegments == boundaries
    {
      laneSegments := lanes;
      laneOrder := order;
      crosswalkSegments := crosswalks;
      boundarySegments := boundaries;
    }

    /**
     * `_fix_point_num`: every lane's centreline and first bounds are
     * resampled to 20 points and its crop centre set from the centreline
     * read before it was replaced; crosswalks and orphan boundaries are left
     * as they are.
     */
    method FixPointNum(f: Numerics)
      requires Valid()
      requires forall id :: id in laneSegments ==> Fixable(laneSegments[id])
      modifies this
      ensures Valid()
      ensures forall id :: id in laneSegments ==> HasFixedPoints(laneSegments[id])
      ensures laneSegments == FixAll(f, old(laneSegments))
      ensures laneOrder == old(laneOrder)
      ensures crosswalkSegments == old(crosswalkSegments)
      ensures boundarySegments == old(boundarySegments)
    {
      ghost var before := laneSegments;
      var lanes := laneSegments;
      var order := laneOrder;
      for k := 0 to |order|
        invariant FixedUpTo(f, before, order, lanes, k)
        invariant unchanged(this)
      {
        var segmentId := order[k];
        FixStep(f, before, order, lanes, k);
        var segment := FixLane(f, lanes[segmentId]);
        lanes := lanes[segmentId := segment];
      }
      FixDone(f, before, order, lanes);
      FixKeepsValid(f, before, order);
      laneSegments := lanes;
    }
  }

  /**
   * The state of the `_fix_point_num` loop after k lanes of `order`: the
   * same keys, the first k lanes fixed and the rest as they were.
   */
  ghost predicate FixedUpTo(f: Numerics, before: map<int, LaneSegment>, order: seq<int>,
                            lanes: map<int, LaneSegment>, k: nat)
  {
    && (forall id :: id in before <==> id in order) && Distinct(order)
    && (forall j :: 0 <= j < |order| ==> order[j] in before)
    && lanes.Keys == before.Keys && k <= |order|
    && (forall id :: id in before ==> Fixable(before[id]))
    && (forall j :: 0 <= j < k ==> lanes[order[j]] == Fixed(f, before[order[j]]))
    && (forall j :: k <= j < |order| ==> lanes[order[j]] == before[order[j]])
  }

  /** Fixing lane k of `order` advances the loop state by one lane. */
  lemma FixStep(f: Numerics, before: map<int, LaneSegment>, order: seq<int>, lanes: map<int, LaneSegment>, k: nat)
    requires FixedUpTo(f, before, order, lanes, k) && k < |order|
    ensures order[k] in lanes && lanes[order[k]] == before[order[k]] && Fixable(lanes[order[k]])
    ensures FixedUpTo(f, before, order, lanes[order[k] := Fixed(f, lanes[order[k]])], k + 1)
  {
    assert order[k] in before && lanes[order[k]] == before[order[k]];
    assert forall id :: id in before ==> Fixable(before[id]);
    var next := lanes[order[k] := Fixed(f, lanes[order[k]])];
    assert next.Keys == before.Keys;
    forall j | 0 <= j < k + 1
      ensures next[order[j]] == Fixed(f, before[order[j]])
    {
      if j < k {
        assert order[j] != order[k];
      }
    }
    forall j | k + 1 <= j < |order|
      ensures next[order[j]] == before[order[j]]
    {
      assert order[j] != order[k];
    }
  }

  /** Once every lane of `order` is fixed, the map is `FixAll` of the one before the loop. */
  lemma FixDone(f: Numerics, before: map<int, LaneSegment>, order: seq<int>, lanes: map<int, LaneSegment>)
    requires FixedUpTo(f, before, order, lanes, |order|)
    ensures lanes == FixAll(f, before)
  {
    forall id | id in lanes
      ensures lanes[id] == FixAll(f, before)[id]
    {
      assert id in order;
      var j :| 0 <= j < |order| && order[j] == id;
    }
  }

  /** Fixing the point counts keeps every lane well formed and gives it 20-point polylines and a centre. */
  lemma FixAllShape(f: Numerics, lanes: map<int, LaneSegment>)
    requires forall id :: id in lanes ==> Fixable(lanes[id]) && WellFormedLane(id, lanes[id])
    ensures forall id :: id in FixAll(f, lanes) <==> id in lanes
    ensures forall id :: id in FixAll(f, lanes) ==>
      WellFormedLane(id, FixAll(f, lanes)[id]) && HasFixedPoints(FixAll(f, lanes)[id])
  {
    forall id | id in lanes
      ensures WellFormedLane(id, FixAll(f, lanes)[id]) && HasFixedPoints(FixAll(f, lanes)[id])
    {
      FixedLane(f, lanes[id], XY(0.0, 0.0), XY(0.0, 0.0));
    }
  }

  /** Fixing the point counts keeps the lane dict valid against the same key order. */
  lemma FixKeepsValid(f: Numerics, lanes: map<int, LaneSegment>, order: seq<int>)
    requires ValidLanes(lanes, order) && forall id :: id in lanes ==> Fixable(lanes[id])
    ensures ValidLanes(FixAll(f, lanes), order)
    ensures forall id :: id in FixAll(f, lanes) ==> HasFixedPoints(FixAll(f, lanes)[id])
  {
    FixAllShape(f, lanes);
  }

  /** What `convert_lanelet` needs of the map it converts. */
  predicate Convertible(cfg: Config, f: Numerics, lm: LaneletMap)
  {
    && cfg.Valid()
    && AllReady(cfg, f, lm.lanelets)
    && OrphansReady(cfg, lm.linestrings, TakenIds(cfg, lm.lanelets))
  }

  /** Visiting one more lanelet updates the three collections as the loop body does. */
  lemma LaneletStep(cfg: Config, f: Numerics, g: RoutingGraph, ls: seq<Lanelet>, l: Lanelet)
    requires cfg.Valid() && AllReady(cfg, f, ls) && LaneletReady(cfg, f, l)
    ensures AllReady(cfg, f, ls + [l])
    ensures LanesOf(cfg, f, g, ls + [l])
         == if IsLaneLanelet(cfg, l) then LanesOf(cfg, f, g, ls)[l.id := LaneSegmentOf(cfg, f, g, l)]
            else LanesOf(cfg, f, g, ls)
    ensures CrosswalksOf(cfg, f, ls + [l])
         == if IsCrosswalkLanelet(cfg, l) then CrosswalksOf(cfg, f, ls)[l.id := CrosswalkSegmentOf(cfg, f, l)]
            else CrosswalksOf(cfg, f, ls)
    ensures TakenIds(cfg, ls + [l])
         == TakenIds(cfg, ls) + if IsLaneLanelet(cfg, l) then [l.leftBound.id, l.rightBound.id] else []
    ensures LaneOrderOf(cfg, ls + [l])
         == LaneOrderOf(cfg, ls) + if IsLaneLanelet(cfg, l) && l.id !in LaneOrderOf(cfg, ls) then [l.id] else []
  {
    assert (ls + [l])[..|ls|] == ls;
  }

  /** The body of `convert_lanelet`'s branch for a lane lanelet, which builds its lane segment. */
  method BuildLaneSegment(cfg: Config, f: Numerics, g: RoutingGraph, lanelet: Lanelet) returns (segment: LaneSegment)
    requires cfg.Valid() && IsLaneLanelet(cfg, lanelet) && LanePolylinesReady(lanelet)
    ensures segment == LaneSegmentOf(cfg, f, g, lanelet)
    ensures segment.id == lanelet.id
    ensures |segment.leftBoundaries| == 1 && segment.leftBoundaries[0].id == lanelet.leftBound.id
    ensures |segment.rightBoundaries| == 1 && segment.rightBoundaries[0].id == lanelet.rightBound.id
  {
    var laneletSubtype := GetLaneletSubtype(lanelet);
    var laneType := cfg.mapping[laneletSubtype];
    var laneWaypoints := InterpolateLane(f, lanelet.centerline);
    var lanePolyline := Polyline(laneType, laneWaypoints);
    var isIntersection := IsIntersection(lanelet);
    var neighborIds := GetLeftAndRightNeighborIds(lanelet, g);
    var speedLimitMph := GetSpeedLimitMph(f, lanelet);
    var bounds := GetLeftAndRightLinestring(lanelet);
    var leftBoundary := GetBoundarySegment(cfg, f, bounds.0);
    var rightBoundary := GetBoundarySegment(cfg, f, bounds.1);
    segment := LaneSegment(
      lanelet.id, lanePolyline, isIntersection, [leftBoundary], [rightBoundary],
      neighborIds.0, neighborIds.1, speedLimitMph, lanelet.trafficLights, None);
  }

  /**
   * The loop of `convert_lanelet` over the lanelet layer: lane lanelets
   * become lane segments and hand their two bound ids to the taken list,
   * crosswalk lanelets become crosswalk segments, and the rest are skipped.
   */
  method ConvertLanelets(cfg: Config, f: Numerics, lanelets: seq<Lanelet>, g: RoutingGraph)
    returns (laneSegments: map<int, LaneSegment>, crosswalkSegments: map<int, CrosswalkSegment>,
             takenBoundaryIds: seq<int>, laneOrder: seq<int>)
    requires cfg.Valid() && AllReady(cfg, f, lanelets)
    ensures laneSegments == LanesOf(cfg, f, g, lanelets)
    ensures laneOrder == LaneOrderOf(cfg, lanelets)
    ensures crosswalkSegments == CrosswalksOf(cfg, f, lanelets)
    ensures takenBoundaryIds == TakenIds(cfg, lanelets)
  {
    laneSegments, crosswalkSegments, takenBoundaryIds, laneOrder := map[], map[], [], [];
    for i := 0 to |lanelets|
      invariant AllReady(cfg, f, lanelets[..i])
      invariant laneSegments == LanesOf(cfg, f, g, lanelets[..i])
      invariant laneOrder == LaneOrderOf(cfg, lanelets[..i])
      invariant forall id :: id in laneOrder <==> id in laneSegments
      invariant crosswalkSegments == CrosswalksOf(cfg, f, lanelets[..i])
      invariant takenBoundaryIds == TakenIds(cfg, lanelets[..i])
    {
      var lanelet := lanelets[i];
      assert lanelets[..i + 1] == lanelets[..i] + [lanelet];
      assert lanelet in lanelets && LaneletReady(cfg, f, lanelet);
      LaneletStep(cfg, f, g, lanelets[..i], lanelet);
      LaneOrderOfKeys(cfg, f, g, lanelets[..i + 1]);
      var laneletSubtype := GetLaneletSubtype(lanelet);
      if laneletSubtype in cfg.lane {
        var segment := BuildLaneSegment(cfg, f, g, lanelet);
        takenBoundaryIds := takenBoundaryIds + [lanelet.leftBound.id, lanelet.rightBound.id];
        if lanelet.id !in laneSegments {
          laneOrder := laneOrder + [lanelet.id];
        }
        laneSegments := laneSegments[lanelet.id := segment];
      } else if laneletSubtype == "crosswalk" {
        var waypoints := InterpolateLane(f, lanelet.polygon);
        var polygon := Polyline(cfg.mapping[laneletSubtype], waypoints);
        crosswalkSegments := crosswalkSegments[lanelet.id := CrosswalkSegment(lanelet.id, polygon)];
      }
    }
    assert lanelets[..|lanelets|] == lanelets;
  }

  /**
   * The loop of `convert_lanelet` over the linestring layer: a road-edge or
   * road-line linestring whose id is not taken becomes an orphan boundary.
   */
  method CollectOrphanBoundaries(cfg: Config, f: Numerics, lines: seq<LineString>, taken: seq<int>)
    returns (boundarySegments: map<int, BoundarySegment>)
    requires cfg.Valid() && OrphansReady(cfg, lines, taken)
    ensures boundarySegments == OrphansOf(cfg, f, lines, taken)
  {
    boundarySegments := map[];
    for j := 0 to |lines|
      invariant OrphansReady(cfg, lines[..j], taken)
      invariant boundarySegments == OrphansOf(cfg, f, lines[..j], taken)
    {
      var linestring := lines[j];
      assert lines[..j + 1] == lines[..j] + [linestring];
      assert lines[..j + 1][..j] == lines[..j];
      OrphansReadyPrefix(cfg, lines, taken, j + 1);
      var typeName := GetLinestringType(linestring);
      if (typeName in cfg.roadEdge || typeName in cfg.roadLine) && linestring.id !in taken {
        assert linestring in lines;
        var b := GetBoundarySegment(cfg, f, linestring);
        boundarySegments := boundarySegments[linestring.id := b];
      }
    }
    assert lines[..|lines|] == lines;
  }

  /**
   * `convert_lanelet`, after the map has been loaded: build the lane and
   * crosswalk segments, then the orphan boundaries, then fix the point counts.
   */
  method ConvertLanelet(cfg: Config, f: Numerics, lm: LaneletMap) returns (m: StaticMap)
    requires Convertible(cfg, f, lm)
    ensures fresh(m) && m.Valid()
    ensures m.laneSegments == FixAll(f, LanesOf(cfg, f, lm.routing, lm.lanelets))
    ensures m.laneOrder == LaneOrderOf(cfg, lm.lanelets)
    ensures m.crosswalkSegments == CrosswalksOf(cfg, f, lm.lanelets)
    ensures m.boundarySegments == OrphansOf(cfg, f, lm.linestrings, TakenIds(cfg, lm.lanelets))
    ensures forall id :: id in m.laneSegments ==> HasFixedPoints(m.laneSegments[id])
  {
    var laneSegments, crosswalkSegments, takenBoundaryIds, laneOrder := ConvertLanelets(cfg, f, lm.lanelets, lm.routing);
    var boundarySegments := CollectOrphanBoundaries(cfg, f, lm.linestrings, takenBoundaryIds);
    LaneOrderOfKeys(cfg, f, lm.routing, lm.lanelets);
    m := new StaticMap(laneSegments, laneOrder, crosswalkSegments, boundarySegments);
    m.FixPointNum(f);
  }
}
