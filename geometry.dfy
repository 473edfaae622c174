/**
 * The ESRI geometry the index works with, as values: points, polygons given
 * by their paths, axis-aligned boxes and envelopes, and the zone store entry
 * (zone id, polygon) that both index variants keep per slot.
 *
 * Point containment (GeometryEngine.contains on a point) is a foreign library
 * call and stays abstract: every operation that needs it takes it as a
 * parameter `contains`.
 */
module Geometry {
  import opened Wrappers
  import Proto

  /** An ESRI point: x is the longitude, y the latitude. */
  datatype Point = Point(x: real, y: real)

  type Path = seq<Point>

  /** An ESRI polygon, given by its paths in the order they were started. */
  datatype Shape = Shape(paths: seq<Path>)

  /** An axis-aligned box (ESRI Envelope / Envelope2D): x is longitude, y latitude. */
  datatype Box = Box(xmin: real, ymin: real, xmax: real, ymax: real)

  /** An envelope as queryEnvelope2D reports it; None is the empty envelope of a shape without vertices. */
  type Envelope = Option<Box>

  /** One slot of the zone store: the zone id and one polygon of that zone. */
  datatype Entry = Entry(zone: string, geometry: Shape)

  /**
   * The state both index classes hold: zoneIds[k] is the entry stored under
   * slot k, and quadTree[k] the envelope the quadtree was given for slot k.
   */
  datatype ZoneStore = ZoneStore(zoneIds: seq<Entry>, quadTree: seq<Envelope>)

  predicate InBox(b: Box, p: Point) {
    b.xmin <= p.x <= b.xmax && b.ymin <= p.y <= b.ymax
  }

  function Min(a: real, b: real): real { if a <= b then a else b }

  function Max(a: real, b: real): real { if a <= b then b else a }

  /** The bounding box of a list of points: the smallest box holding all of them. */
  function Bbox(pts: seq<Point>): (env: Envelope)
    ensures env.None? <==> pts == []
    ensures env.Some? ==> forall p :: p in pts ==> InBox(env.value, p)
    ensures env.Some? ==> exists p :: p in pts && p.x == env.value.xmin
    ensures env.Some? ==> exists p :: p in pts && p.x == env.value.xmax
    ensures env.Some? ==> exists p :: p in pts && p.y == env.value.ymin
    ensures env.Some? ==> exists p :: p in pts && p.y == env.value.ymax
  {
    if pts == [] then None
    else
      var p := pts[0];
      assert pts == [p] + pts[1..];
      match Bbox(pts[1..])
      case None => Some(Box(p.x, p.y, p.x, p.y))
      case Some(b) =>
        Some(Box(Min(p.x, b.xmin), Min(p.y, b.ymin), Max(p.x, b.xmax), Max(p.y, b.ymax)))
  }

  /** All vertices of a shape, path after path. */
  function Vertices(s: Shape): seq<Point> {
    Flatten(s.paths)
  }

  function Flatten(paths: seq<Path>): seq<Point> {
    if paths == [] then [] else paths[0] + Flatten(paths[1..])
  }

  /** Polygon.queryEnvelope2D. */
  function EnvelopeOf(s: Shape): Envelope {
    Bbox(Vertices(s))
  }

  /** The envelopes of a list of entries, slot by slot. */
  function Envelopes(entries: seq<Entry>): (r: seq<Envelope>)
    ensures |r| == |entries| && forall k :: 0 <= k < |entries| ==> r[k] == EnvelopeOf(entries[k].geometry)
  {
    if entries == [] then [] else Envelopes(entries[..|entries| - 1]) + [EnvelopeOf(entries[|entries| - 1].geometry)]
  }

  /**
   * Envelope2D.contains(Envelope2D): every side of `env` lies within `b`.
   * The empty envelope has NaN sides, so every comparison with it is false.
   */
  predicate BoxContains(b: Box, env: Envelope) {
    env.Some? &&
    b.xmin <= env.value.xmin && env.value.xmax <= b.xmax &&
    b.ymin <= env.value.ymin && env.value.ymax <= b.ymax
  }

  /** A box contains the envelope of a list of points exactly when the list is non-empty and every point lies in the box. */
  lemma BoxContainsBbox(b: Box, pts: seq<Point>)
    ensures BoxContains(b, Bbox(pts)) <==> pts != [] && forall p :: p in pts ==> InBox(b, p)
  {
    var env := Bbox(pts);
    if pts != [] && forall p :: p in pts ==> InBox(b, p) {
      var px :| px in pts && px.x == env.value.xmin;
      var qx :| qx in pts && qx.x == env.value.xmax;
      var py :| py in pts && py.y == env.value.ymin;
      var qy :| qy in pts && qy.y == env.value.ymax;
      assert InBox(b, px) && InBox(b, qx) && InBox(b, py) && InBox(b, qy);
    }
  }

  /** The path an ESRI polygon gets for one ring: startPath at the first position, lineTo the rest, x = lon, y = lat. */
  function RingPath(ring: Proto.LineString): (path: Path)
    ensures |path| == |ring.coordinates|
    ensures forall k :: 0 <= k < |path| ==>
      path[k] == Point(ring.coordinates[k].lon, ring.coordinates[k].lat)
    decreases |ring.coordinates|
  {
    var cs := ring.coordinates;
    if cs == [] then []
    else [Point(cs[0].lon, cs[0].lat)] + RingPath(Proto.LineString(cs[1..]))
  }

  /**
   * The paths buildPoly appends for a protobuf polygon, ring by ring; None when
   * some ring is empty, where `lp.get(0)` throws.
   */
  function PolygonPaths(rings: seq<Proto.LineString>): (r: Option<seq<Path>>)
    ensures r.Some? <==> forall k :: 0 <= k < |rings| ==> rings[k].coordinates != []
    ensures r.Some? ==> |r.value| == |rings| && forall k :: 0 <= k < |rings| ==> r.value[k] == RingPath(rings[k])
  {
    if rings == [] then Some([])
    else if rings[0].coordinates == [] then None
    else match PolygonPaths(rings[1..])
      case None =>
        assert exists k :: 1 <= k < |rings| && rings[k].coordinates == [];
        None
      case Some(rest) => Some([RingPath(rings[0])] + rest)
  }

  /** buildPoly of the newer index: a fresh polygon holding one path per ring. */
  function BuildPoly(p: Proto.Polygon): Option<Shape> {
    match PolygonPaths(p.coordinates)
    case None => None
    case Some(paths) => Some(Shape(paths))
  }

  /** The entries among `cands` whose geometry contains `p`, in candidate order. */
  function Containing(cands: seq<Entry>, p: Point, contains: (Shape, Point) -> bool): (r: seq<Entry>)
    ensures |r| <= |cands|
  {
    if cands == [] then []
    else
      var init := cands[..|cands| - 1];
      var last := cands[|cands| - 1];
      assert cands == init + [last];
      Containing(init, p, contains) + (if contains(last.geometry, p) then [last] else [])
  }

  /** Containing keeps exactly the candidates whose geometry contains the point. */
  lemma {:induction false} ContainingMembers(cands: seq<Entry>, p: Point, contains: (Shape, Point) -> bool)
    ensures forall e :: e in Containing(cands, p, contains) <==> e in cands && contains(e.geometry, p)
  {
    if cands != [] {
      var init := cands[..|cands| - 1];
      assert cands == init + [cands[|cands| - 1]];
      ContainingMembers(init, p, contains);
    }
  }

  /** The zone ids of a list of entries, in order (getKnownZoneIds of both index classes). */
  function Zones(s: seq<Entry>): (r: seq<string>)
    ensures |r| == |s| && forall k :: 0 <= k < |s| ==> r[k] == s[k].zone
  {
    if s == [] then [] else Zones(s[..|s| - 1]) + [s[|s| - 1].zone]
  }

  /** The entries stored at the given slots (quadTree.getElement followed by zoneIds.get). */
  function Candidates(store: seq<Entry>, slots: seq<nat>): (r: seq<Entry>)
    requires forall k :: 0 <= k < |slots| ==> slots[k] < |store|
    ensures |r| == |slots| && forall k :: 0 <= k < |slots| ==> r[k] == store[slots[k]]
  {
    seq(|slots|, k requires 0 <= k < |slots| => store[slots[k]])
  }

  /** The first element of Containing is the earliest candidate that contains the point. */
  lemma {:induction false} ContainingHead(cands: seq<Entry>, p: Point, contains: (Shape, Point) -> bool, k: nat)
    requires k < |cands| && contains(cands[k].geometry, p)
    requires forall j :: 0 <= j < k ==> !contains(cands[j].geometry, p)
    ensures Containing(cands, p, contains) != [] && Containing(cands, p, contains)[0] == cands[k]
    decreases |cands|
  {
    var init := cands[..|cands| - 1];
    if k < |cands| - 1 {
      ContainingHead(init, p, contains, k);
    } else {
      ContainingMembers(init, p, contains);
    }
  }
}
