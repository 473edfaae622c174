# timeshape core, modelled in Dafny

timeshape maps a latitude/longitude to the IANA time zone(s) whose polygon
contains it. This project models its core and proves properties about it.

- **Index of the timeshape module** (`TimeshapeIndex`, `index.dfy`):
  - `build` turns protobuf features into a store of (zone, polygon) slots and a quadtree of their envelopes. Only polygons inside the requested boundaries are kept. A multipolygon becomes one slot per part. Features whose zone id is not recognised are skipped and reported.
  - `query` returns every zone containing a point, in candidate order.
  - `queryPolyline` cuts a path into spans of points that lie in the same zones. Its specification is in `Polyline` (`polyline.dfy`).
- **Index of the core module** (`CoreIndex`, `core_index.dfy`), the older variant:
  - all parts of a multipolygon are merged into one polygon;
  - a feature is kept when its envelope lies in the box;
  - an unknown zone aborts the whole build;
  - `query` answers the first matching zone only.
- **The two engines** (`TimeshapeEngine`, `engine.dfy`; `CoreEngine`, `core_engine.dfy`): they validate the bounding box before any feature is read, build the index over `Envelope(minLon, minLat, maxLon, maxLat)`, and delegate the queries.
- **The bounding-box validator** (`Validation`, `validation.dfy`), identical in both engines: six rules checked in a fixed order, every violation collected, and one message joined with single spaces.
- **The data builder** (`Builder`, `builder.dfy`): converts GeoJSON features into the protobuf features the engines load.

Shared pieces:
- `geometry.dfy`: ESRI points, polygons, envelopes, and the store entry.
- `proto.dfy`: the protobuf schema.
- `wrappers.dfy`: Option and Result. A thrown exception is a `Failure`.

Foreign library calls are parameters of the operations that need them:
- `contains`: point-in-polygon, GeometryEngine.contains on a point.
- `within`: GeometryEngine.contains(boundaries, polygon).
- `known`: whether ZoneId.of accepts a name.
- `fmt`: the `%f` rendering of a coordinate.
- `slots`: the quadtree's answer to a query, as the list of slot ids it reports.

Some behaviours of the code are easy to miss, and the model states them as the code has them:
- A polyline span keeps growing while *every* zone of its set still contains the next point. Two neighbouring spans can therefore carry the same zone set (`Polyline.AdjacentSpansMayRepeatZones`). A candidate that starts to contain the point as well does not close the span (`Polyline.JoiningCandidateKeepsSpan`).
- Uncovered points after the last covered point of a polyline emit no span (`Polyline.DescribesShape`). The spans then do not reach the end of the path, and the last end index is less than 2(n-1)+1 for a path of n points. The example in the javadoc of `queryPolyline` (timeshape/src/main/java/net/iakovlev/timeshape/TimeZoneEngine.java:110-122) has every point in a zone, so it ends at 2(n-1)+1.
- In the timeshape module's `build`, the first property is read outside the `try`. A feature without properties therefore escapes `build` (`TimeshapeIndex.BuildError.MissingProperty`) and is not listed as an unknown zone.

## Model

| member | source | states |
|---|---|---|
| Geometry.Bbox | timeshape/src/main/java/net/iakovlev/timeshape/Index.java:166 | the envelope is empty exactly when there is no vertex, holds every vertex, and each side is attained by some vertex |
| Geometry.BoxContainsBbox | core/src/main/java/net/iakovlev/timeshape/Index.java:78-79 | a box contains the envelope of some points exactly when there is a point and every point lies in the box |
| Geometry.Envelopes | timeshape/src/main/java/net/iakovlev/timeshape/Index.java:166-168 | the quadtree holds, for slot k, the envelope of the polygon stored at slot k |
| Geometry.RingPath | timeshape/src/main/java/net/iakovlev/timeshape/Index.java:126-127 | the path of a ring has one point per position, in order, with x = lon and y = lat |
| Geometry.PolygonPaths | timeshape/src/main/java/net/iakovlev/timeshape/Index.java:121-130 | buildPoly fails exactly when some ring is empty (`lp.get(0)`); otherwise path k is the path of ring k |
| Geometry.ContainingMembers | timeshape/src/main/java/net/iakovlev/timeshape/Index.java:51-52 | the filter keeps exactly the candidates whose polygon contains the point |
| Geometry.ContainingHead | core/src/main/java/net/iakovlev/timeshape/Index.java:45-50 | the first entry kept by the filter is the earliest candidate containing the point |
| Geometry.Zones | timeshape/src/main/java/net/iakovlev/timeshape/Index.java:40-42 | getKnownZoneIds (both index variants): one zone id per stored entry, in slot order, duplicates included |
| Geometry.Candidates | timeshape/src/main/java/net/iakovlev/timeshape/Index.java:47-50 | candidate k is the entry stored at the k-th slot id the quadtree reports |
| Polyline.DescribesExactly | timeshape/src/main/java/net/iakovlev/timeshape/Index.java:80-118 | a span list meets the declarative description of the sweep (gap spans, runs, nothing after the last covered point) exactly when it is the computed decomposition |
| Polyline.DescribesEnds | timeshape/src/main/java/net/iakovlev/timeshape/Index.java:103-112 | every end index is odd (2l+1 for a point l of the path), the end indexes strictly increase, and there are never more spans than points |
| Polyline.DescribesShape | timeshape/src/main/java/net/iakovlev/timeshape/Index.java:88-104 | no span exactly when no point is covered; the last span is non-empty and ends at the last covered point, so trailing uncovered points yield nothing; an empty span is always followed by a non-empty one |
| Polyline.SegmentsReachCoveredEnd | timeshape/src/main/java/net/iakovlev/timeshape/Index.java:107-108 | when the last point is covered, the last span ends at flat index 2(n-1)+1 |
| Polyline.DescribesCoveredStart | timeshape/src/main/java/net/iakovlev/timeshape/Index.java:90-95 | a covered point opens a span with a non-empty zone set |
| Polyline.RunCovered | timeshape/src/main/java/net/iakovlev/timeshape/Index.java:106 | every point taken into a span is covered |
| Polyline.ZoneSetMembers | timeshape/src/main/java/net/iakovlev/timeshape/Index.java:108 | a span's zone set holds exactly the zones of the entries it was made from |
| Polyline.AdjacentSpansMayRepeatZones | timeshape/src/main/java/net/iakovlev/timeshape/Index.java:106-113 | two polygons of one zone, each containing one of two points, give two spans with the same zone set |
| Polyline.JoiningCandidateKeepsSpan | timeshape/src/main/java/net/iakovlev/timeshape/Index.java:106 | a candidate that starts to contain the next point does not close the open span |
| TimeshapeIndex.PartsOf | timeshape/src/main/java/net/iakovlev/timeshape/Index.java:139-141 | the lazily mapped parts: the polygons before the first part with an empty ring, and whether that part threw |
| TimeshapeIndex.Build | timeshape/src/main/java/net/iakovlev/timeshape/Index.java:147-186 | the loop over features computes exactly the specified store, quadtree and list of unknown zones |
| TimeshapeIndex.InsertWithin | timeshape/src/main/java/net/iakovlev/timeshape/Index.java:160-173 | the polygons inside the boundaries are appended in order, each with its envelope under the next consecutive slot id |
| TimeshapeIndex.StoredEntriesSound | timeshape/src/main/java/net/iakovlev/timeshape/Index.java:156-173 | every stored entry has a known zone, lies within the boundaries, and is a polygon of a feature of that zone |
| TimeshapeIndex.StoredEntriesComplete | timeshape/src/main/java/net/iakovlev/timeshape/Index.java:156-173 | every polygon of a feature with a known zone that lies within the boundaries is stored |
| TimeshapeIndex.KeptSound | timeshape/src/main/java/net/iakovlev/timeshape/Index.java:164-172 | a kept entry carries the feature's zone and one of its polygons within the boundaries |
| TimeshapeIndex.KeptComplete | timeshape/src/main/java/net/iakovlev/timeshape/Index.java:164-172 | every polygon within the boundaries is kept |
| TimeshapeIndex.KeptAllWithin | timeshape/src/main/java/net/iakovlev/timeshape/Index.java:164-169 | when every polygon is within the boundaries, polygon k becomes entry k, so the slot ids follow the stream order |
| TimeshapeIndex.MultiPolygonEntries | timeshape/src/main/java/net/iakovlev/timeshape/Index.java:139-141 | a well-formed multipolygon of a known zone yields one polygon per part, in order, all of that zone |
| TimeshapeIndex.MalformedPartKeepsEarlierParts | timeshape/src/main/java/net/iakovlev/timeshape/Index.java:139-141 | when part j has an empty ring, the stream fails after delivering exactly the parts before j |
| TimeshapeIndex.UnknownNamesExactly | timeshape/src/main/java/net/iakovlev/timeshape/Index.java:157-176 | unknownZones holds exactly the names of the features whose zone is unknown or whose geometry throws |
| TimeshapeIndex.BuildInvariant | timeshape/src/main/java/net/iakovlev/timeshape/Index.java:147-186 | build succeeds exactly when every feature has a first property; the quadtree then pairs every slot with its envelope, and every slot holds a known zone within the boundaries |
| TimeshapeIndex.Query | timeshape/src/main/java/net/iakovlev/timeshape/Index.java:44-56 | the loop over the candidates returns the zones of the containing ones, in candidate order |
| TimeshapeIndex.QueryExactly | timeshape/src/main/java/net/iakovlev/timeshape/Index.java:44-56 | a zone is in the answer exactly when some candidate of that zone contains the point |
| TimeshapeIndex.QueryFindsAll | timeshape/src/main/java/net/iakovlev/timeshape/Index.java:47-53 | when the quadtree reports a superset of the true matches, every stored entry containing the point contributes its zone |
| TimeshapeIndex.QueryKeepsSlotOrder | timeshape/src/main/java/net/iakovlev/timeshape/Index.java:48-53 | when every candidate contains the point, the answer is the candidates' zones in quadtree order, so several zones are possible |
| TimeshapeIndex.PathPoints | timeshape/src/main/java/net/iakovlev/timeshape/Index.java:61-65 | floor(len/2) points; point k has x = line[2k+1] (longitude) and y = line[2k] (latitude); an odd trailing value is ignored |
| TimeshapeIndex.LinePoints | timeshape/src/main/java/net/iakovlev/timeshape/Index.java:61-65 | the loop stepping by two builds exactly those points |
| TimeshapeIndex.GatherCandidates | timeshape/src/main/java/net/iakovlev/timeshape/Index.java:72-78 | the candidates gathered for the whole path are the entries at the reported slot ids |
| TimeshapeIndex.Sweep | timeshape/src/main/java/net/iakovlev/timeshape/Index.java:80-118 | the while loop over (index, currentEntry, lastWasEmpty) terminates and emits exactly the specified decomposition |
| TimeshapeIndex.QueryPolyline | timeshape/src/main/java/net/iakovlev/timeshape/Index.java:58-119 | fails exactly when there are fewer than two values (`points.get(0)`); otherwise returns the decomposition of the path's points |
| CoreIndex.AppendRings | core/src/main/java/net/iakovlev/timeshape/Index.java:55-62 | the loop appends one path per ring, in order, and fails at an empty ring |
| CoreIndex.BuildShape | core/src/main/java/net/iakovlev/timeshape/Index.java:70-77 | the polygon assembled for a feature: a polygon's rings, all parts of a multipolygon merged, or an empty polygon for another geometry |
| CoreIndex.MergedPathsFails | core/src/main/java/net/iakovlev/timeshape/Index.java:76 | a part with an empty ring makes the merge fail |
| CoreIndex.MergedPathsSucceeds | core/src/main/java/net/iakovlev/timeshape/Index.java:76 | the merge succeeds exactly when every ring of every part is non-empty |
| CoreIndex.MergedShapeOfOnePart | core/src/main/java/net/iakovlev/timeshape/Index.java:71-76 | a multipolygon of one part gives the same polygon as that part alone |
| CoreIndex.CoreBuild | core/src/main/java/net/iakovlev/timeshape/Index.java:64-86 | the loop over features computes exactly the specified store or the first error |
| CoreIndex.CoreBuildAborts | core/src/main/java/net/iakovlev/timeshape/Index.java:82 | the first feature that raises an error ends the whole build with that error |
| CoreIndex.CoreBuildSucceeds | core/src/main/java/net/iakovlev/timeshape/Index.java:69-84 | build succeeds exactly when no feature raises an error |
| CoreIndex.FeatureStepMeaning | core/src/main/java/net/iakovlev/timeshape/Index.java:70-83 | a feature is stored exactly when its polygon has a vertex and all vertices lie in the box; the first property and ZoneId.of are only read then |
| CoreIndex.NoGeometrySkipped | core/src/main/java/net/iakovlev/timeshape/Index.java:70-79 | a feature with neither geometry gets an empty polygon, is not rejected, and is not stored |
| CoreIndex.CoreBuildInvariant | core/src/main/java/net/iakovlev/timeshape/Index.java:64-86 | at most one entry per feature; the quadtree pairs every slot with its envelope; every entry is a known zone whose envelope lies in the box |
| CoreIndex.FirstMatchAt | core/src/main/java/net/iakovlev/timeshape/Index.java:45-52 | the answer is candidate k when k contains the point and no earlier one does, and nothing when none does |
| CoreIndex.CoreQuery | core/src/main/java/net/iakovlev/timeshape/Index.java:42-53 | the loop with early return answers the zone of the first containing candidate, or nothing |
| CoreIndex.FirstMatchMeaning | core/src/main/java/net/iakovlev/timeshape/Index.java:42-53 | nothing exactly when no candidate contains the point; otherwise the earliest containing candidate |
| CoreIndex.FirstMatchIsHead | core/src/main/java/net/iakovlev/timeshape/Index.java:42-53 | the first match is the head of the list of all matches |
| Validation.Rank | timeshape/src/main/java/net/iakovlev/timeshape/TimeZoneEngine.java:41-58 | each rule has its fixed place in the checking order |
| Validation.ValidateCoordinates | timeshape/src/main/java/net/iakovlev/timeshape/TimeZoneEngine.java:39-62 | the six checks in a row produce exactly the specified outcome: success, or failure with the joined texts of the violated rules |
| Validation.ErrorsAfterPrefix | timeshape/src/main/java/net/iakovlev/timeshape/TimeZoneEngine.java:40-58 | after the k-th check the error list holds the texts of the violated rules among the first k, in order |
| Validation.ErrorsAfterAll | timeshape/src/main/java/net/iakovlev/timeshape/TimeZoneEngine.java:59-61 | the method throws exactly when the error list is non-empty, with the list joined by spaces |
| Validation.ViolationsExactly | timeshape/src/main/java/net/iakovlev/timeshape/TimeZoneEngine.java:41-58 | every violated rule is reported and only those, each once, in checking order |
| Validation.RulesInCheckOrder | timeshape/src/main/java/net/iakovlev/timeshape/TimeZoneEngine.java:41-58 | minLat range, maxLat range, minLon range, maxLon range, latitude order, longitude order |
| Validation.ValidIff | timeshape/src/main/java/net/iakovlev/timeshape/TimeZoneEngine.java:28-31 | validation passes exactly when -90 <= minLat <= maxLat <= 90 and -180 <= minLon <= maxLon <= 180 (inclusive limits, equal bounds allowed) |
| Validation.JoinShape | timeshape/src/main/java/net/iakovlev/timeshape/TimeZoneEngine.java:60 | the message is one text alone, or the earlier texts joined, one space and the last text; its length is the texts' total length plus one space per neighbouring pair |
| Validation.JoinAppend | timeshape/src/main/java/net/iakovlev/timeshape/TimeZoneEngine.java:60 | joining two non-empty lists of texts gives the two joined halves with one space between, so every neighbouring pair of texts is separated by exactly one space |
| Validation.ViolationsUnrolled | timeshape/src/main/java/net/iakovlev/timeshape/TimeZoneEngine.java:41-58 | the violations, check by check in source order |
| Validation.MinLatitudeOutOfRange | core/src/test/java/net/iakovlev/timeshape/test/TimeZoneEngineCoordinatesValidationTest.java:13-19 | (-100, 0, 0, 0) breaks only the minimum-latitude rule, with that rule's message |
| Validation.MaxLongitudeOutOfRange | core/src/test/java/net/iakovlev/timeshape/test/TimeZoneEngineCoordinatesValidationTest.java:36-43 | (0, 0, 0, 190) breaks only the maximum-longitude rule, with that rule's message |
| Validation.InconsistentLatitudes | core/src/test/java/net/iakovlev/timeshape/test/TimeZoneEngineCoordinatesValidationTest.java:44-51 | (0, 0, -1, 0) breaks only the latitude-order rule |
| Validation.MultipleErrors | core/src/test/java/net/iakovlev/timeshape/test/TimeZoneEngineCoordinatesValidationTest.java:60-67 | (0, 0, -1, -1) breaks both order rules, latitude first, and the two texts are joined by one space |
| TimeshapeEngine.Boundaries | timeshape/src/main/java/net/iakovlev/timeshape/TimeZoneEngine.java:217 | the envelope takes longitudes as x and latitudes as y |
| TimeshapeEngine.Initialize | timeshape/src/main/java/net/iakovlev/timeshape/TimeZoneEngine.java:193-224 | validation first, then build over Envelope(minLon, minLat, maxLon, maxLat) |
| TimeshapeEngine.InitializeWorld | timeshape/src/main/java/net/iakovlev/timeshape/TimeZoneEngine.java:142-154 | the default overloads use -90, -180, 90, 180 |
| TimeshapeEngine.ValidateBeforeLoad | timeshape/src/main/java/net/iakovlev/timeshape/TimeZoneEngine.java:199-201 | an invalid box fails with the validator's message whatever the archive holds |
| TimeshapeEngine.InitializeSucceeds | timeshape/src/main/java/net/iakovlev/timeshape/TimeZoneEngine.java:193-224 | initialisation succeeds exactly when the box is valid and every feature has a first property; the engine then holds only known zones within the box |
| TimeshapeEngine.WorldIsValid | timeshape/src/main/java/net/iakovlev/timeshape/TimeZoneEngine.java:152-154 | the whole-world box passes validation, so the default initialisation fails only when build does |
| TimeshapeEngine.QueryAll | timeshape/src/main/java/net/iakovlev/timeshape/TimeZoneEngine.java:92-94 | queryAll answers what the index's query answers |
| TimeshapeEngine.Head | timeshape/src/main/java/net/iakovlev/timeshape/TimeZoneEngine.java:107 | nothing exactly for the empty list, otherwise its first element |
| TimeshapeEngine.Query | timeshape/src/main/java/net/iakovlev/timeshape/TimeZoneEngine.java:105-108 | query answers the first zone of queryAll's list, or nothing |
| TimeshapeEngine.QueryIsFirstMatch | timeshape/src/main/java/net/iakovlev/timeshape/TimeZoneEngine.java:105-108 | on the same store and candidates, query answers what the core module's first-match query answers |
| TimeshapeEngine.QueryEmptyIff | timeshape/src/main/java/net/iakovlev/timeshape/TimeZoneEngine.java:105-108 | query answers nothing exactly when no candidate contains the point |
| TimeshapeEngine.QueryPolyline | timeshape/src/main/java/net/iakovlev/timeshape/TimeZoneEngine.java:123-125 | queryPolyline answers the index's decomposition, failing exactly on fewer than two values |
| CoreEngine.Initialize | core/src/main/java/net/iakovlev/timeshape/TimeZoneEngine.java:141-172 | validation first, then the core build over Envelope2D(minLon, minLat, maxLon, maxLat) |
| CoreEngine.InitializeWorld | core/src/main/java/net/iakovlev/timeshape/TimeZoneEngine.java:131-133 | the default overload uses -90, -180, 90, 180 |
| CoreEngine.ValidateBeforeLoad | core/src/main/java/net/iakovlev/timeshape/TimeZoneEngine.java:142-145 | an invalid box fails with the validator's message before the resource is opened |
| CoreEngine.InitializeSucceeds | core/src/main/java/net/iakovlev/timeshape/TimeZoneEngine.java:141-172 | success exactly when the box is valid and the core build raises nothing; every entry is then a known zone inside the box |
| CoreEngine.Query | core/src/main/java/net/iakovlev/timeshape/TimeZoneEngine.java:96-98 | query answers the index's first match |
| Builder.ToLineString | builder/src/main/java/net/iakovlev/timeshape/Builder.java:12-19 | one protobuf position per GeoJSON position, in order, latitude to lat and longitude to lon |
| Builder.ToLineStrings | builder/src/main/java/net/iakovlev/timeshape/Builder.java:26 | the rings are converted one by one, in order |
| Builder.FromLineString | builder/src/main/java/net/iakovlev/timeshape/Builder.java:12-19 | the reverse mapping, from (lat, lon) back to a GeoJSON position |
| Builder.FromPolygon | builder/src/main/java/net/iakovlev/timeshape/Builder.java:21-28 | the reverse mapping of a polygon, ring by ring |
| Builder.LineStringRoundTrip | builder/src/main/java/net/iakovlev/timeshape/Builder.java:12-19 | converting a ring loses nothing: converting back gives the ring |
| Builder.PolygonRoundTrip | builder/src/main/java/net/iakovlev/timeshape/Builder.java:21-28 | a polygon converts exactly when it has a ring; ring 0 stays the exterior ring and the holes keep their order |
| Builder.PolygonsExactly | builder/src/main/java/net/iakovlev/timeshape/Builder.java:30-34 | a multipolygon converts exactly when every part has a ring; part k becomes polygon k |
| Builder.FeatureConverts | builder/src/main/java/net/iakovlev/timeshape/Builder.java:39-59 | a feature converts exactly when it has a tzid and a polygon or multipolygon with rings; its only property is then ("tzid", value) |
| Builder.BuildProtoExactly | builder/src/main/java/net/iakovlev/timeshape/Builder.java:36-62 | one output feature per input feature, in order; otherwise the error of the first feature that fails |
| Builder.OutputIsLoadable | builder/src/main/java/net/iakovlev/timeshape/Builder.java:39-41 | every output feature is named by its tzid, so neither index build stops on a missing property |
| Builder.RingBecomesPath | builder/src/main/java/net/iakovlev/timeshape/Builder.java:15-16 | a converted ring becomes an ESRI path whose x is the GeoJSON longitude and whose y is the latitude |

## Left out

- Reading the tar/zstd archive or the bundled resource, and the protobuf parsing, are I/O. The features are an input list.
- The capacity hints 449 and 456 only size an ArrayList, so they are not modelled.
- Logging is left out. The unknown zones the timeshape build logs are returned as a value instead.
- The quadtree's internals are left out: construction, depth 8, iteration, and `getElement`. A query takes the slot ids the quadtree reports as input.
- GeometryEngine.contains and OperatorContains.accelerateGeometry are left out. Containment is a parameter, and the `accelerate` flag has no effect on the result.
- ZoneId.of is the `known` predicate, and a zone id is modelled as its name. Normalisation of zone ids is left out.
- Coordinates are reals. Narrowing to float in the builder, double rounding and NaN are not modelled.
- An empty polygon is assumed to have an empty envelope with NaN sides, so no box contains it. The ESRI library is not part of this model.
- Validation.Text: the `%f` rendering of a coordinate is the parameter `fmt`. Only the fixed parts of each message are stated.
- Builder.ToFeature: a GeoJSON Polygon with no rings is assumed to throw in org.geojson's `getExteriorRing`. It is reported with the same error as `poly.get(0)`. The org.geojson library is not part of this model.
- Builder.ToFeature: a `"tzid"` key whose value is null makes `toString()` throw (builder/src/main/java/net/iakovlev/timeshape/Builder.java:39). A `map<string, string>` has no null value, so the model has no such input and converts every present tzid.
- Builder.ToFeature: property values are given as the strings their `toString()` yields, and altitudes are dropped because they are never read.
- The core engine's `query(double[])` and `query1` to `query3` are not modelled. They call index methods that core/src/main/java/net/iakovlev/timeshape/Index.java does not define.
- SameZoneSegment is not modelled. The timeshape module's SameZoneSpan is modelled as a zone set and an end index.
- The earliest variant of the engine and index under src/main is not modelled.
