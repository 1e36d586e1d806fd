/**
 * The lanelet map primitives the converter reads, and its pure helpers:
 * attribute getters that default to the empty string, the linestring
 * classifiers, the boundary-type classifier, the speed limit in miles per
 * hour, the intersection flag and the neighbour ids.
 */
module Attributes {
  import opened Wrappers
  import opened Geometry

  /** A primitive's string-keyed attributes. */
  type Attrs = map<string, string>

  /**
   * A member of the map-type enumeration. Its values and the table that
   * maps type names to it are configuration; only `Unknown` is named by the
   * converter itself.
   */
  datatype MapType = Unknown | Tagged(tag: nat)

  /**
   * The converter's configuration constants: the lanelet subtypes that are
   * lanes, the linestring types that are road edges, the linestring
   * subtypes that are road lines, and the type-name table.
   */
  datatype Config = Config(
    lane: set<string>,
    roadEdge: set<string>,
    roadLine: set<string>,
    mapping: map<string, MapType>)
  {
    /** Every name the converter looks up in the table is present in it. */
    predicate Valid()
    {
      && lane <= mapping.Keys
      && roadEdge <= mapping.Keys
      && roadLine <= mapping.Keys
      && "crosswalk" in mapping
    }
  }

  /** A 3-D linestring of the map, with its id and attributes. */
  datatype LineString = LineString(id: int, attrs: Attrs, points: seq<Point3>)

  /**
   * A lanelet of the map: its id and attributes, its centreline and its
   * closed polygon as point lists, its left and right bounds, and the ids of
   * the traffic-light regulatory elements it refers to, in order.
   */
  datatype Lanelet = Lanelet(
    id: int,
    attrs: Attrs,
    centerline: seq<Point3>,
    polygon: seq<Point3>,
    leftBound: LineString,
    rightBound: LineString,
    trafficLights: seq<int>)

  /** The value of `key`, or "" when the attribute is absent. */
  function AttrOrEmpty(attrs: Attrs, key: string): (v: string)
    ensures key in attrs ==> v == attrs[key]
    ensures key !in attrs ==> v == ""
  {
    if key in attrs then attrs[key] else ""
  }

  function GetLaneletSubtype(l: Lanelet): (v: string)
    ensures "subtype" in l.attrs ==> v == l.attrs["subtype"]
    ensures "subtype" !in l.attrs ==> v == ""
  {
    AttrOrEmpty(l.attrs, "subtype")
  }

  function GetLinestringType(ls: LineString): (v: string)
    ensures "type" in ls.attrs ==> v == ls.attrs["type"]
    ensures "type" !in ls.attrs ==> v == ""
  {
    AttrOrEmpty(ls.attrs, "type")
  }

  function GetLinestringSubtype(ls: LineString): (v: string)
    ensures "subtype" in ls.attrs ==> v == ls.attrs["subtype"]
    ensures "subtype" !in ls.attrs ==> v == ""
  {
    AttrOrEmpty(ls.attrs, "subtype")
  }

  predicate IsVirtualLinestring(lineType: string, lineSubtype: string)
  {
    lineType == "virtual" && lineSubtype == ""
  }

  /** Only the type decides; the subtype is accepted and ignored. */
  predicate IsRoadEdgeLinestring(cfg: Config, lineType: string, lineSubtype: string)
  {
    lineType in cfg.roadEdge
  }

  /** Only the subtype decides; the type is accepted and ignored. */
  predicate IsRoadLineLinestring(cfg: Config, lineType: string, lineSubtype: string)
  {
    lineSubtype in cfg.roadLine
  }

  /**
   * The boundary type of a linestring, by the first test that holds:
   * virtual, then road edge by type, then road line by subtype, else
   * unknown.
   */
  function GetBoundaryType(cfg: Config, ls: LineString): MapType
    requires cfg.Valid()
  {
    var t := GetLinestringType(ls);
    var st := GetLinestringSubtype(ls);
    if IsVirtualLinestring(t, st) then Unknown
    else if IsRoadEdgeLinestring(cfg, t, st) then cfg.mapping[t]
    else if IsRoadLineLinestring(cfg, t, st) then cfg.mapping[st]
    else Unknown
  }

  /**
   * The boundary type is the table entry of the linestring's type or of its
   * subtype, or else `Unknown`. The virtual test comes first; a non-virtual
   * linestring takes its type's entry when the type is a road edge, else its
   * subtype's entry when the subtype is a road line, else `Unknown`.
   */
  lemma BoundaryTypeSource(cfg: Config, ls: LineString)
    requires cfg.Valid()
    ensures var t, st := GetLinestringType(ls), GetLinestringSubtype(ls);
      var r := GetBoundaryType(cfg, ls);
      && (r == Unknown || (t in cfg.mapping && r == cfg.mapping[t]) || (st in cfg.mapping && r == cfg.mapping[st]))
      && (!IsVirtualLinestring(t, st) && (t in cfg.roadEdge || st in cfg.roadLine) ==>
            r == if t in cfg.roadEdge then cfg.mapping[t] else cfg.mapping[st])
      && (IsVirtualLinestring(t, st) || (t !in cfg.roadEdge && st !in cfg.roadLine) ==> r == Unknown)
  {
  }

  /**
   * When the table maps no name to `Unknown`, the boundary type is `Unknown`
   * exactly when the linestring is virtual, or its type is not a road edge
   * and its subtype not a road line.
   */
  lemma UnknownExactlyWhenUnmatched(cfg: Config, ls: LineString)
    requires cfg.Valid() && Unknown !in cfg.mapping.Values
    ensures var t, st := GetLinestringType(ls), GetLinestringSubtype(ls);
      GetBoundaryType(cfg, ls) == Unknown <==>
        IsVirtualLinestring(t, st) || (t !in cfg.roadEdge && st !in cfg.roadLine)
  {
    var t, st := GetLinestringType(ls), GetLinestringSubtype(ls);
    if !IsVirtualLinestring(t, st) && t in cfg.roadEdge {
      assert cfg.mapping[t] in cfg.mapping.Values;
    } else if !IsVirtualLinestring(t, st) && st in cfg.roadLine {
      assert cfg.mapping[st] in cfg.mapping.Values;
    }
  }

  /**
   * A virtual linestring whose subtype reads as "" (absent, or present and
   * empty) is `Unknown` even when "virtual" is a road-edge type.
   */
  lemma VirtualWinsOverRoadEdge(cfg: Config, ls: LineString)
    requires cfg.Valid()
    requires GetLinestringType(ls) == "virtual" && GetLinestringSubtype(ls) == ""
    ensures GetBoundaryType(cfg, ls) == Unknown
  {
  }

  /** When both the type is a road edge and the subtype a road line, the type wins. */
  lemma RoadEdgeWinsOverRoadLine(cfg: Config, ls: LineString)
    requires cfg.Valid()
    requires GetLinestringType(ls) in cfg.roadEdge && GetLinestringSubtype(ls) in cfg.roadLine
    requires !IsVirtualLinestring(GetLinestringType(ls), GetLinestringSubtype(ls))
    ensures GetBoundaryType(cfg, ls) == cfg.mapping[GetLinestringType(ls)]
  {
  }

  /**
   * A linestring without attributes reads as type "" and subtype "", so it
   * is `Unknown` unless the configuration lists "" as a road edge or road line.
   */
  lemma NoAttributesBoundaryType(cfg: Config, id: int, points: seq<Point3>)
    requires cfg.Valid() && "" !in cfg.roadEdge && "" !in cfg.roadLine
    ensures GetBoundaryType(cfg, LineString(id, map[], points)) == Unknown
  {
  }

  // ---------------------------------------------------------------------
  // Speed limit, intersection flag, neighbours

  /** The kilometres-per-hour to miles-per-hour factor the converter uses. */
  const KphToMph: real := 0.621371

  /** The miles-per-hour to metres-per-second factor the converter uses. */
  const MphToMps: real := 0.44704

  /** The speed limit in mph, present exactly when the lanelet has a "speed_limit" attribute. */
  function GetSpeedLimitMph(f: Numerics, l: Lanelet): (r: Option<real>)
    ensures r.Some? <==> "speed_limit" in l.attrs
    ensures r.Some? ==> r.value == f.toFloat(l.attrs["speed_limit"]) * KphToMph
  {
    if "speed_limit" in l.attrs then Some(f.toFloat(l.attrs["speed_limit"]) * KphToMph)
    else None
  }

  /**
   * Converting kph to mph here and mph to m/s when the lane is packed
   * never overshoots the exact conversion kph / 3.6, and falls short of it
   * by at most one part in a million of that speed.
   */
  lemma SpeedConversionNearExact(kph: real)
    requires kph >= 0.0
    ensures var mps := kph * KphToMph * MphToMps;
      kph / 3.6 - kph / 3600000.0 <= mps <= kph / 3.6
  {
  }

  function GetLeftAndRightLinestring(l: Lanelet): (bounds: (LineString, LineString))
    ensures bounds.0 == l.leftBound && bounds.1 == l.rightBound
  {
    (l.leftBound, l.rightBound)
  }

  /** A lanelet is an intersection lanelet exactly when it has a "turn_direction" attribute. */
  predicate IsIntersection(l: Lanelet)
  {
    "turn_direction" in l.attrs
  }

  /**
   * The routing graph's lane-change relation: the id of the left and of the
   * right neighbour of a lanelet, where it has one.
   */
  datatype RoutingGraph = RoutingGraph(left: map<int, int>, right: map<int, int>)

  /**
   * The neighbour ids as lists of at most one entry: the neighbour's id when
   * the routing graph has one on that side, and no entry otherwise.
   */
  function GetLeftAndRightNeighborIds(l: Lanelet, g: RoutingGraph): (ids: (seq<int>, seq<int>))
    ensures |ids.0| <= 1 && |ids.1| <= 1
    ensures ids.0 == [] <==> l.id !in g.left
    ensures ids.1 == [] <==> l.id !in g.right
    ensures ids.0 != [] ==> ids.0[0] == g.left[l.id]
    ensures ids.1 != [] ==> ids.1[0] == g.right[l.id]
  {
    var left := if l.id in g.left then [g.left[l.id]] else [];
    var right := if l.id in g.right then [g.right[l.id]] else [];
    (left, right)
  }
}
