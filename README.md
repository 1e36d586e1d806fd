# Lanelet map to lane tensor converter

This project is a Dafny model of the diffusion planner's lanelet converter, the code that turns a lanelet map into the planner's lane input. It covers five steps:

- **Classifying map primitives.** Attribute getters default to the empty string. A boundary-type classifier applies a fixed precedence. There are also the intersection flag, the speed limit and the neighbour ids.
- **Building the static map.** Lane lanelets become lane segments and crosswalk lanelets become crosswalk segments. Road-edge and road-line linestrings that no lane claims as a bound become orphan boundaries.
- **Resampling polylines.** Every polyline is first sampled every 0.5 m along its length, with its endpoints repaired. Each lane's centreline and bounds are then resampled to exactly 20 points, and the lane gets a crop centre.
- **Building one segment's rows.** A segment outside the crop window is dropped. Otherwise its polylines are moved into the ego frame, and each point becomes a 12-column row: xy, first difference, left and right boundary offsets, and a one-hot traffic-light vector. The speed limit is converted to m/s.
- **Packing.** The kept segments are stable-sorted by the distance of their first point, truncated to `num_segments`, and zero-padded into fixed-size tensors.

Modules:

- `Wrappers`: `Option`.
- `Geometry`: points, the 4x4 homogeneous transform, centroids, the `np.allclose` test, and the bundle of foreign numeric routines.
- `StableSort`: Python's `sorted` with a key.
- `Attributes`: the getters and classifiers.
- `Resample`: `_interpolate_lane` and `_interpolate_points`.
- `StaticMapModel`: `convert_lanelet` and `_fix_point_num`. `StaticMap` is a class whose segment dicts are map fields. `FixPointNum` builds the fixed lane dict in a local map and replaces the field with it once the loop ends.
- `LaneTensor`: `process_segment` and `create_lane_tensor`.

The imperative parts are methods with loops. Each method is proved equal to a specification function, and the properties are proved about those functions:

- filling the distance array;
- the two dict-building loops;
- the in-place fix of the point counts;
- the in-place boundary subtraction;
- the slot writes of the traffic-light list;
- the two loops of `create_lane_tensor`.

Configuration and foreign code are parameters:

- `Config` holds `T4_LANE`, `T4_ROADEDGE`, `T4_ROADLINE` and `MAP_TYPE_MAPPING`. Their contents are not part of this model.
- `Numerics` holds `np.linalg.norm`, scipy `interp1d`, shapely `length` and `interpolate`, and `float`.
- `RoutingGraph` is the lane-change relation as two id maps.

Three behaviours of the code worth stating outright, which the model keeps:

- An unrecognised traffic-light colour code leaves all four slots of the light vector zero (`lanelet_converter.py:501-511`).
- A polyline of zero length, or of one point, goes straight to scipy `interp1d` and shapely `LineString` (`lanelet_converter.py:297-329`, `35-43`). The model requires what those calls need: at least two points for each.
- The orphan-boundary test checks the linestring's **type** against both the road-edge and the road-line sets; it does not look at the subtype (`lanelet_converter.py:410-413`).

## Model

| member | source | states |
|---|---|---|
| `Geometry.OffsetIgnoresTranslation` | ros_ws/src/diffusion_planner_ros/diffusion_planner_ros/lanelet2_utils/lanelet_converter.py:470-485 | A boundary point minus its centre point after the homogeneous transform equals the transform's linear part applied to their map-frame difference, so the offset columns do not depend on the translation. |
| `Geometry.MeanInBox` | ros_ws/src/diffusion_planner_ros/diffusion_planner_ros/lanelet2_utils/lanelet_converter.py:444 | The crop centre (mean xy of a centreline) lies inside every axis-aligned box that holds the centreline. |
| `StableSort.SortByPermutes` | ros_ws/src/diffusion_planner_ros/diffusion_planner_ros/lanelet2_utils/lanelet_converter.py:556 | The sort returns a permutation of its input (same multiset, same length). |
| `StableSort.SortBySorted` | ros_ws/src/diffusion_planner_ros/diffusion_planner_ros/lanelet2_utils/lanelet_converter.py:556 | The sort returns its input in ascending key order. |
| `StableSort.SortByStable` | ros_ws/src/diffusion_planner_ros/diffusion_planner_ros/lanelet2_utils/lanelet_converter.py:556 | The sort is stable: for each key value, the elements with that key keep their input order. |
| `StableSort.SortedTake` | ros_ws/src/diffusion_planner_ros/diffusion_planner_ros/lanelet2_utils/lanelet_converter.py:556-557 | Keeping the first n of the sorted list gives min(n, len) elements, in ascending key order, drawn from the input without repetition, and no element left out has a smaller key than one kept. |
| `Attributes.GetLaneletSubtype` | ros_ws/src/diffusion_planner_ros/diffusion_planner_ros/lanelet2_utils/lanelet_converter.py:65-80 | The lanelet's "subtype" attribute when present, and "" when it is absent. |
| `Attributes.GetLinestringType` | ros_ws/src/diffusion_planner_ros/diffusion_planner_ros/lanelet2_utils/lanelet_converter.py:83-98 | The linestring's "type" attribute when present, and "" when it is absent. |
| `Attributes.GetLinestringSubtype` | ros_ws/src/diffusion_planner_ros/diffusion_planner_ros/lanelet2_utils/lanelet_converter.py:101-116 | The linestring's "subtype" attribute when present, and "" when it is absent. |
| `Attributes.BoundaryTypeSource` | ros_ws/src/diffusion_planner_ros/diffusion_planner_ros/lanelet2_utils/lanelet_converter.py:175-199 | The boundary type is a table entry of the type or the subtype, or UNKNOWN. The virtual test comes first: a virtual line is UNKNOWN. A non-virtual line takes the type's entry when the type is a road edge, else the subtype's entry when the subtype is a road line, else UNKNOWN. |
| `Attributes.UnknownExactlyWhenUnmatched` | ros_ws/src/diffusion_planner_ros/diffusion_planner_ros/lanelet2_utils/lanelet_converter.py:187-199 | When the table maps no name to UNKNOWN, the result is UNKNOWN exactly when the line is virtual, or its type is not a road edge and its subtype not a road line. |
| `Attributes.VirtualWinsOverRoadEdge` | ros_ws/src/diffusion_planner_ros/diffusion_planner_ros/lanelet2_utils/lanelet_converter.py:119-132 | Type "virtual" whose subtype reads as "" (absent or empty) is UNKNOWN, even when "virtual" is listed as a road-edge type. |
| `Attributes.RoadEdgeWinsOverRoadLine` | ros_ws/src/diffusion_planner_ros/diffusion_planner_ros/lanelet2_utils/lanelet_converter.py:189-194 | For a line that is not virtual, whose type is a road edge and whose subtype is a road line, the type's entry wins. A virtual line stays UNKNOWN even then, because the virtual test comes first. |
| `Attributes.NoAttributesBoundaryType` | ros_ws/src/diffusion_planner_ros/diffusion_planner_ros/lanelet2_utils/lanelet_converter.py:187-199 | A linestring with no attributes is UNKNOWN unless "" is configured as a road edge or road line. |
| `Attributes.GetSpeedLimitMph` | ros_ws/src/diffusion_planner_ros/diffusion_planner_ros/lanelet2_utils/lanelet_converter.py:222-239 | Present exactly when the lanelet has "speed_limit", and then float(value) x 0.621371. |
| `Attributes.SpeedConversionNearExact` | ros_ws/src/diffusion_planner_ros/diffusion_planner_ros/lanelet2_utils/lanelet_converter.py:234-237 | kph x 0.621371 x 0.44704 is at most the exact kph / 3.6, and falls short of it by at most one part in a million of kph / 3.6. |
| `Attributes.GetLeftAndRightLinestring` | ros_ws/src/diffusion_planner_ros/diffusion_planner_ros/lanelet2_utils/lanelet_converter.py:242-256 | The lanelet's left bound and right bound, in that order. |
| `Attributes.GetLeftAndRightNeighborIds` | ros_ws/src/diffusion_planner_ros/diffusion_planner_ros/lanelet2_utils/lanelet_converter.py:274-294 | Each side is a list of 0 or 1 ids. It is empty exactly when the routing graph has no neighbour on that side, and otherwise holds that neighbour's id. |
| `Resample.ArcLengthMonotone` | ros_ws/src/diffusion_planner_ros/diffusion_planner_ros/lanelet2_utils/lanelet_converter.py:298-303 | With a non-negative norm, the cumulative distances start at 0 and never decrease. |
| `Resample.HalfStepCount` | ros_ws/src/diffusion_planner_ros/diffusion_planner_ros/lanelet2_utils/lanelet_converter.py:306 | np.arange(0, stop, 0.5) has exactly the multiples of 0.5 that are below stop. |
| `Resample.Arange` | ros_ws/src/diffusion_planner_ros/diffusion_planner_ros/lanelet2_utils/lanelet_converter.py:306 | Element i is 0.5 x i and lies below stop. The length is the number of such multiples. |
| `Resample.SampleDistancesShape` | ros_ws/src/diffusion_planner_ros/diffusion_planner_ros/lanelet2_utils/lanelet_converter.py:305-309 | For a non-negative total, the sample distances start at 0, end at the total, and increase strictly. Every step is 0.5 except the last, which is in (0, 0.5]. |
| `Resample.SampleCountPositiveLength` | ros_ws/src/diffusion_planner_ros/diffusion_planner_ros/lanelet2_utils/lanelet_converter.py:305-309 | There are at least two sample distances exactly when the total length is positive. |
| `Resample.RepairKeepsSamples` | ros_ws/src/diffusion_planner_ros/diffusion_planner_ros/lanelet2_utils/lanelet_converter.py:321-328 | The repaired output is the samples, unchanged and in order, with at most the first input point prepended and at most the last appended. Its first and last points are allclose to the input's, and each is the input endpoint or the original sample. |
| `Resample.CumulativeDistances` | ros_ws/src/diffusion_planner_ros/diffusion_planner_ros/lanelet2_utils/lanelet_converter.py:298-303 | The loop fills distances[i] with the cumulative arc length up to point i, with distances[0] = 0. |
| `Resample.InterpolateLane` | ros_ws/src/diffusion_planner_ros/diffusion_planner_ros/lanelet2_utils/lanelet_converter.py:297-329 | The result equals `ResampleLane`, is non-empty, and begins and ends allclose to the input's endpoints. |
| `Resample.ResampleLaneCount` | ros_ws/src/diffusion_planner_ros/diffusion_planner_ros/lanelet2_utils/lanelet_converter.py:305-329 | The output has at least one more point than the 0.5 m steps below the total length, and at least two points when the length is positive. |
| `Resample.Linspace` | ros_ws/src/diffusion_planner_ros/diffusion_planner_ros/lanelet2_utils/lanelet_converter.py:40 | np.linspace(start, stop, n) has n values, the first is start and, for n >= 2, the last is stop. |
| `Resample.LinspaceEvenSteps` | ros_ws/src/diffusion_planner_ros/diffusion_planner_ros/lanelet2_utils/lanelet_converter.py:40 | Consecutive linspace values differ by (stop - start) / (n - 1). |
| `Resample.InterpolatePoints` | ros_ws/src/diffusion_planner_ros/diffusion_planner_ros/lanelet2_utils/lanelet_converter.py:35-43 | _interpolate_points(line, n) returns exactly n points, for n >= 1 (with n = 0 the code's `np.concatenate` of nothing raises). |
| `Resample.InterpolatePointsKeepsEnds` | ros_ws/src/diffusion_planner_ros/diffusion_planner_ros/lanelet2_utils/lanelet_converter.py:35-43 | When the line's interpolate returns its endpoints at distance 0 and at its length, the first and last of the n points are the line's endpoints. |
| `StaticMapModel.GetBoundarySegment` | ros_ws/src/diffusion_planner_ros/diffusion_planner_ros/lanelet2_utils/lanelet_converter.py:202-219 | The boundary segment keeps the linestring's id, takes its boundary type, and has the linestring's points resampled. |
| `StaticMapModel.LaneSegmentOfShape` | ros_ws/src/diffusion_planner_ros/diffusion_planner_ros/lanelet2_utils/lanelet_converter.py:366-395 | A lane segment keeps the lanelet id and has exactly one left and one right boundary (the lanelet's bounds). It has at most one neighbour id per side, a speed limit exactly when the lanelet has one, the intersection flag exactly when it has "turn_direction", and no centre yet. |
| `StaticMapModel.BuildLaneSegment` | ros_ws/src/diffusion_planner_ros/diffusion_planner_ros/lanelet2_utils/lanelet_converter.py:366-395 | The lane branch builds `LaneSegmentOf` of the lanelet, with the lanelet id and its two bound ids. |
| `StaticMapModel.LanesOf` | ros_ws/src/diffusion_planner_ros/diffusion_planner_ros/lanelet2_utils/lanelet_converter.py:354-406 | Every entry of the lane dict is keyed by its own id and has one bound per side and at most one neighbour per side. |
| `StaticMapModel.LanesOfKeys` | ros_ws/src/diffusion_planner_ros/diffusion_planner_ros/lanelet2_utils/lanelet_converter.py:362-394 | An id is a key of the lane dict exactly when some lanelet with that id has a lane subtype. |
| `StaticMapModel.LanesOfValues` | ros_ws/src/diffusion_planner_ros/diffusion_planner_ros/lanelet2_utils/lanelet_converter.py:385-395 | Each lane entry is the segment built from a lane lanelet of that id. |
| `StaticMapModel.CrosswalksOfEntries` | ros_ws/src/diffusion_planner_ros/diffusion_planner_ros/lanelet2_utils/lanelet_converter.py:396-403 | An id is a key of the crosswalk dict exactly when some lanelet with that id is a crosswalk and not a lane. |
| `StaticMapModel.LaneOrderOfKeys` | ros_ws/src/diffusion_planner_ros/diffusion_planner_ros/lanelet2_utils/lanelet_converter.py:385-394 | The lane dict's key order lists each lane id exactly once. |
| `StaticMapModel.TakenIdsContents` | ros_ws/src/diffusion_planner_ros/diffusion_planner_ros/lanelet2_utils/lanelet_converter.py:383 | An id is taken exactly when it is the left or right bound id of some lane lanelet. |
| `StaticMapModel.OrphansOfKeys` | ros_ws/src/diffusion_planner_ros/diffusion_planner_ros/lanelet2_utils/lanelet_converter.py:408-414 | A linestring id is an orphan boundary exactly when some linestring with that id has a type in the road-edge or road-line set and is not taken. No orphan id is taken. |
| `StaticMapModel.OrphansOfValues` | ros_ws/src/diffusion_planner_ros/diffusion_planner_ros/lanelet2_utils/lanelet_converter.py:408-414 | Each orphan entry is the boundary segment built from a qualifying linestring of that id. |
| `StaticMapModel.BoundsNotOrphaned` | ros_ws/src/diffusion_planner_ros/diffusion_planner_ros/lanelet2_utils/lanelet_converter.py:383-414 | Boundary dedup: every lane has exactly one left and one right boundary, and neither bound id is an orphan boundary. |
| `StaticMapModel.FixedLane` | ros_ws/src/diffusion_planner_ros/diffusion_planner_ros/lanelet2_utils/lanelet_converter.py:428-445 | After the fix, a lane has 20-point centre and bound polylines, and its centre is the mean xy of the pre-fix centreline, so it lies in any box holding that centreline. Ids, the polyline types of the centreline and of both bounds, flags, neighbours, speed, lights and bound counts are unchanged. |
| `StaticMapModel.FixLane` | ros_ws/src/diffusion_planner_ros/diffusion_planner_ros/lanelet2_utils/lanelet_converter.py:429-444 | The loop body yields `Fixed` of the lane: 20-point polylines and the pre-fix centroid (see `FixedLane`). |
| `StaticMapModel.StaticMap.constructor` | ros_ws/src/diffusion_planner_ros/diffusion_planner_ros/lanelet2_utils/lanelet_converter.py:418-423 | The map holds the given lane, crosswalk and orphan-boundary dicts, and satisfies the class invariant `Valid` exactly when the lane dict and its key order do (`ValidLanes`). |
| `StaticMapModel.StaticMap.FixPointNum` | ros_ws/src/diffusion_planner_ros/diffusion_planner_ros/lanelet2_utils/lanelet_converter.py:428-445 | Every lane is replaced by its fixed form, in place, and ends with 20-point polylines and a centre. The class invariant `Valid` is kept. The key order, crosswalks and orphan boundaries are unchanged. |
| `StaticMapModel.FixStep` | ros_ws/src/diffusion_planner_ros/diffusion_planner_ros/lanelet2_utils/lanelet_converter.py:429-444 | Fixing the lane at position k of the key order fixes that lane and leaves every other lane as it was, so the loop state advances from k to k + 1 lanes fixed. |
| `StaticMapModel.FixDone` | ros_ws/src/diffusion_planner_ros/diffusion_planner_ros/lanelet2_utils/lanelet_converter.py:429-444 | Once every key in the key order has been visited, the lane dict is the fixed form of the dict before the loop. |
| `StaticMapModel.FixAllShape` | ros_ws/src/diffusion_planner_ros/diffusion_planner_ros/lanelet2_utils/lanelet_converter.py:428-442 | Fixing keeps every lane well formed and gives each one 20-point polylines and a centre. |
| `StaticMapModel.FixKeepsValid` | ros_ws/src/diffusion_planner_ros/diffusion_planner_ros/lanelet2_utils/lanelet_converter.py:428-445 | Fixing every lane keeps the lane dict valid against its unchanged key order and gives each lane 20-point polylines and a centre. |
| `StaticMapModel.ConvertLanelets` | ros_ws/src/diffusion_planner_ros/diffusion_planner_ros/lanelet2_utils/lanelet_converter.py:354-406 | The lanelet loop builds exactly the lane dict, its key order, the crosswalk dict and the taken-id list: `LanesOf`, `LaneOrderOf`, `CrosswalksOf` and `TakenIds` of the lanelets. |
| `StaticMapModel.CollectOrphanBoundaries` | ros_ws/src/diffusion_planner_ros/diffusion_planner_ros/lanelet2_utils/lanelet_converter.py:408-414 | The linestring loop builds exactly the orphan-boundary dict `OrphansOf` of the linestrings and the taken ids. |
| `StaticMapModel.ConvertLanelet` | ros_ws/src/diffusion_planner_ros/diffusion_planner_ros/lanelet2_utils/lanelet_converter.py:349-425 | The map is valid; its lanes are the fixed lane dict, with 20 points and a centre each; its lane key order is the first-insertion order of the lane ids (`LaneOrderOf`), which is the order in which iterating the dict yields the lanes; its crosswalks and orphan boundaries are `CrosswalksOf` and `OrphansOf`. |
| `LaneTensor.TrafficLightVector` | ros_ws/src/diffusion_planner_ros/diffusion_planner_ros/lanelet2_utils/lanelet_converter.py:490-512 | The slot writes produce `TrafficLightOf`, the one-hot vector whose properties `TrafficLightOneHot` and `TrafficLightCases` state. |
| `LaneTensor.TrafficLightOneHot` | ros_ws/src/diffusion_planner_ros/diffusion_planner_ros/lanelet2_utils/lanelet_converter.py:490-512 | The vector has four 0/1 entries with at most one 1. It is all zero exactly when the first light is recognised with a code outside 1..4. |
| `LaneTensor.TrafficLightCases` | ros_ws/src/diffusion_planner_ros/diffusion_planner_ros/lanelet2_utils/lanelet_converter.py:490-511 | No lights, or an unrecognised first id, gives [0,0,0,1]. Codes 1, 2, 3 and 4 give the red, yellow, green and unknown slots respectively. |
| `LaneTensor.OnlyFirstLight` | ros_ws/src/diffusion_planner_ros/diffusion_planner_ros/lanelet2_utils/lanelet_converter.py:493-498 | Only the first light of the lane is consulted. |
| `LaneTensor.ProcessDropsOutside` | ros_ws/src/diffusion_planner_ros/diffusion_planner_ros/lanelet2_utils/lanelet_converter.py:460-467 | The segment is dropped exactly when its centre is on or beyond one of the four sides of the 1.1 x mask_range square. |
| `LaneTensor.ProcessedGeometry` | ros_ws/src/diffusion_planner_ros/diffusion_planner_ros/lanelet2_utils/lanelet_converter.py:470-526 | Row i holds the transformed centre point xy, and its left/right columns plus the centre give the transformed bound points of index i. These columns are the linear part applied to the map-frame offset. The speed is mph x 0.44704. |
| `LaneTensor.ProcessedDiffs` | ros_ws/src/diffusion_planner_ros/diffusion_planner_ros/lanelet2_utils/lanelet_converter.py:487-488 | Every row has 12 columns. The diff columns are the next row's xy minus this row's, and the last row's diff is zero. |
| `LaneTensor.RowsDiffs` | ros_ws/src/diffusion_planner_ros/diffusion_planner_ros/lanelet2_utils/lanelet_converter.py:487-488 | For any centre points and a four-slot light vector, the rows have 12 columns, row i's diff columns are row i+1's xy minus row i's, and the last row's diff is zero. |
| `LaneTensor.ProcessedLights` | ros_ws/src/diffusion_planner_ros/diffusion_planner_ros/lanelet2_utils/lanelet_converter.py:512-523 | The same traffic-light vector is tiled onto every row. |
| `LaneTensor.TransformPoints` | ros_ws/src/diffusion_planner_ros/diffusion_planner_ros/lanelet2_utils/lanelet_converter.py:470-482 | The new array holds each point moved into the ego frame. |
| `LaneTensor.SubtractInPlace` | ros_ws/src/diffusion_planner_ros/diffusion_planner_ros/lanelet2_utils/lanelet_converter.py:484-485 | After the in-place subtraction, each boundary point is relative to the centre point of the same index. |
| `LaneTensor.Differences` | ros_ws/src/diffusion_planner_ros/diffusion_planner_ros/lanelet2_utils/lanelet_converter.py:487-488 | For a non-empty array, the new array holds c[i+1] - c[i] followed by a zero row. An empty array gives one zero row, which is what `np.insert` makes of an empty diff. |
| `LaneTensor.ProcessSegment` | ros_ws/src/diffusion_planner_ros/diffusion_planner_ros/lanelet2_utils/lanelet_converter.py:448-528 | process_segment returns exactly `ProcessSpec`: None outside the window, otherwise the rows and the speed in m/s. |
| `LaneTensor.KeyIsFirstPointDistance` | ros_ws/src/diffusion_planner_ros/diffusion_planner_ros/lanelet2_utils/lanelet_converter.py:556 | The sort key of a kept segment is the squared xy distance of its first ego-frame centre point. |
| `LaneTensor.SurvivorsAreInWindow` | ros_ws/src/diffusion_planner_ros/diffusion_planner_ros/lanelet2_utils/lanelet_converter.py:541-553 | Every kept result comes from an in-window segment, and every in-window segment's result is kept. |
| `LaneTensor.SurvivorsShape` | ros_ws/src/diffusion_planner_ros/diffusion_planner_ros/lanelet2_utils/lanelet_converter.py:559-571 | When in-window lanes have 20 points, every kept result is a 20 x 12 block. |
| `LaneTensor.SelectedNearest` | ros_ws/src/diffusion_planner_ros/diffusion_planner_ros/lanelet2_utils/lanelet_converter.py:555-557 | The selection has min(num_segments, kept) results drawn from the kept ones, in ascending key order, and no result left out is nearer than a selected one. |
| `LaneTensor.SelectedStable` | ros_ws/src/diffusion_planner_ros/diffusion_planner_ros/lanelet2_utils/lanelet_converter.py:556-557 | Ties keep input order: for each key, the selected results with that key are a prefix of the kept results with that key. |
| `LaneTensor.PackedShape` | ros_ws/src/diffusion_planner_ros/diffusion_planner_ros/lanelet2_utils/lanelet_converter.py:559-574 | There are num_segments slots of 20 x 12 each. A slot is flagged exactly when it is filled; unflagged slots are zero with speed 0; filled slots hold kept results. |
| `LaneTensor.SelectedShaped` | ros_ws/src/diffusion_planner_ros/diffusion_planner_ros/lanelet2_utils/lanelet_converter.py:555-571 | When in-window lanes have 20 points, the selection has min(num_segments, kept) results, each a kept result of 20 x 12 rows. |
| `LaneTensor.Zeros` | ros_ws/src/diffusion_planner_ros/diffusion_planner_ros/lanelet2_utils/lanelet_converter.py:559-567 | Fresh tensors of num_segments slots: every lane slot zero, every speed 0 and every flag false. |
| `LaneTensor.FixedLanesPackable` | ros_ws/src/diffusion_planner_ros/diffusion_planner_ros/lanelet2_utils/lanelet_converter.py:428-442 | When every segment has the 20-point polylines `_fix_point_num` gives it, every selected result has 20 rows of 12 columns, so the packing's shape requirement holds for the converter's own lanes. |
| `LaneTensor.FixedLaneProcessable` | ros_ws/src/diffusion_planner_ros/diffusion_planner_ros/lanelet2_utils/lanelet_converter.py:428-467 | A lane after `_fix_point_num` has a crop centre, a bound on each side and bounds as long as its 20-point centreline. So it meets the preconditions of `process_segment`, except for the speed limit of an in-window lane. |
| `LaneTensor.ProcessAll` | ros_ws/src/diffusion_planner_ros/diffusion_planner_ros/lanelet2_utils/lanelet_converter.py:541-553 | The first loop collects exactly the kept results, in segment order. |
| `LaneTensor.Pack` | ros_ws/src/diffusion_planner_ros/diffusion_planner_ros/lanelet2_utils/lanelet_converter.py:559-574 | Fresh zeroed tensors whose first slots are filled with the selected rows and speeds, with the flag set on those slots and clear elsewhere. |
| `LaneTensor.CreateLaneTensor` | ros_ws/src/diffusion_planner_ros/diffusion_planner_ros/lanelet2_utils/lanelet_converter.py:531-576 | The three tensors are the packing of the stable, key-sorted and truncated in-window results. |

## Left out

- Loading the map is not modelled: `_load_osm`, the MGRS projection, and building the routing graph and traffic rules. The loaded layers and the lane-change relation are parameters (`LaneletMap`, `RoutingGraph`).
- `uuid(filename, digit=16)` and `map_id`: the implementing module is not part of this model.
- The `traffic_lights` collection loop over regulatory elements is not modelled; its result is never used. A lane's traffic lights are the ids of its regulatory elements (`Lanelet.trafficLights`).
- The multi-light warning `print` is not modelled; it is a side effect only.
- `Geometry.Numerics`: shapely `LineString.length` and `interpolate`, scipy `interp1d`, `np.linalg.norm` and `float` are arbitrary functions. Only their shapes and the hypotheses stated in lemmas are assumed. `float` is total here, so the ValueError that `float(...)` raises on a malformed "speed_limit" value is not modelled.
- Floating point is not modelled: the model computes in exact reals, not float32 or float64. `np.allclose` uses its default tolerances on reals.
- `LaneTensor.Key`: the sort key is the squared xy norm of the first point, not the norm. The square root is strictly monotone on non-negative values, so the order is the same, ties included.
- `LaneTensor.CreateLaneTensor`: the leading batch dimension of size 1, the float32/bool dtypes and device placement are not modelled. The three tensors are arrays of `num_segments` slots.
- `LaneTensor.CreateLaneTensor`: requires that every selected result has 20 rows. This excludes one-row results, which the torch slot assignment would broadcast over all 20 rows, and which only a one-point lane produces; `_fix_point_num` never produces one (`LaneTensor.FixedLanesPackable`). Results of any other row count make the assignment raise.
- `LaneTensor.Processable`: a kept segment must have a speed limit, because `None * 0.44704` raises before the later `assert speed_limit is not None` is reached. So the "has speed limit" flag is true for every filled slot.
- `LaneTensor.Processable`: a segment must have a crop centre and at least one bound on each side, and a kept segment at least one centreline point. This excludes exactly the inputs on which the code raises: `segment.center[0]` on None, `left_boundaries[0]` or `right_boundaries[0]` on an empty list, and, for an empty centreline, the concatenation of a one-row diff column with zero-row columns. Lanes that have been through `_fix_point_num` always meet these (`LaneTensor.FixedLaneProcessable`).
- `LaneTensor.Processable`: a kept segment's bounds must have as many points as its centreline. This excludes exactly the inputs on which the code raises: with a one-point centreline and longer bounds, `np.concatenate` fails on columns of different lengths, and with a one-point bound and a longer centreline the in-place `-=` fails.
- `StaticMapModel.StaticMap`: segments are values stored in the dicts, so the aliasing of segment objects between the dicts and callers is not modelled. An in-place update of a lane is storing its new value under its id.
- `StaticMapModel.StaticMap.FixPointNum`: the dict is visited in its key order, `laneOrder`, which is insertion order. Each lane's result does not depend on the others, so the order does not affect the final state.
- `StaticMapModel.LanesOf`: when two lane lanelets share an id, the later one wins, as a dict assignment does. The key keeps its first position.
- `StaticMapModel.Convertible`: the model requires what the foreign calls need, and the code does not check it:
  - every kept lanelet's polylines have at least two points;
  - each resampled lane polyline has at least two points, because shapely needs them in `_fix_point_num`;
  - the configuration tables hold every name that is looked up.
