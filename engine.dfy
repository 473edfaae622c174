/**
 * The engine of the timeshape module (class TimeZoneEngine): initialisation
 * validates the requested bounding box before a single feature is read, then
 * builds the index over that box; the queries delegate to the index.
 *
 * The features the archive holds are the parameter `fs` (reading the archive
 * is I/O); `within`, `known`, `contains` and `fmt` are the foreign calls
 * described with the index and the validator.
 */
module TimeshapeEngine {
  import opened Wrappers
  import opened Geometry
  import opened Polyline
  import Proto
  import Validation
  import TimeshapeIndex
  import CoreIndex

  /** Why initialize throws: IllegalArgumentException from validation, or a failure escaping build. */
  datatype InitError = InvalidCoordinates(message: string) | BuildFailed(error: TimeshapeIndex.BuildError)

  /** A TimeZoneEngine holds nothing but its index, which never changes after initialisation. */
  datatype Engine = Engine(index: ZoneStore)

  /** The box an engine keeps zones from: an ESRI Envelope takes (xmin, ymin, xmax, ymax), i.e. longitudes first. */
  function Boundaries(minLat: real, minLon: real, maxLat: real, maxLon: real): (b: Box)
    ensures InBox(b, Point(minLon, minLat)) <==> minLat <= maxLat && minLon <= maxLon
    ensures forall p :: InBox(b, p) <==> minLon <= p.x <= maxLon && minLat <= p.y <= maxLat
  {
    Box(minLon, minLat, maxLon, maxLat)
  }

  /** What initialize(minLat, minLon, maxLat, maxLon, accelerate, archive) returns. */
  function InitSpec(minLat: real, minLon: real, maxLat: real, maxLon: real, fs: seq<Proto.Feature>,
                    within: (Box, Shape) -> bool, known: string -> bool, fmt: real -> string): Result<Engine, InitError>
  {
    match Validation.ValidationOutcome(minLat, minLon, maxLat, maxLon, fmt)
    case Failure(message) => Failure(InvalidCoordinates(message))
    case Success(_) =>
      match TimeshapeIndex.BuildSpec(fs, Boundaries(minLat, minLon, maxLat, maxLon), within, known)
      case Failure(e) => Failure(BuildFailed(e))
      case Success(built) => Success(Engine(built.index))
  }

  /** TimeZoneEngine.initialize with a bounding box: validate, then build over Envelope(minLon, minLat, maxLon, maxLat). */
  method Initialize(minLat: real, minLon: real, maxLat: real, maxLon: real, accelerate: bool, fs: seq<Proto.Feature>,
                    within: (Box, Shape) -> bool, known: string -> bool, fmt: real -> string)
    returns (r: Result<Engine, InitError>)
    ensures r == InitSpec(minLat, minLon, maxLat, maxLon, fs, within, known, fmt)
  {
    var checked := Validation.ValidateCoordinates(minLat, minLon, maxLat, maxLon, fmt);
    if checked.Failure? {
      return Failure(InvalidCoordinates(checked.error));
    }
    var built := TimeshapeIndex.Build(fs, Boundaries(minLat, minLon, maxLat, maxLon), accelerate, within, known);
    if built.Failure? {
      return Failure(BuildFailed(built.error));
    }
    return Success(Engine(built.value.index));
  }

  /** initialize() and initialize(accelerate): the whole world, -90 to 90 and -180 to 180. */
  method InitializeWorld(accelerate: bool, fs: seq<Proto.Feature>,
                         within: (Box, Shape) -> bool, known: string -> bool, fmt: real -> string)
    returns (r: Result<Engine, InitError>)
    ensures r == InitSpec(Validation.MIN_LAT, Validation.MIN_LON, Validation.MAX_LAT, Validation.MAX_LON, fs, within, known, fmt)
  {
    r := Initialize(Validation.MIN_LAT, Validation.MIN_LON, Validation.MAX_LAT, Validation.MAX_LON, accelerate, fs, within, known, fmt);
  }

  /**
   * Validation comes first: an invalid box fails with the validator's message
   * whatever the archive holds, so no feature is ever read.
   */
  lemma ValidateBeforeLoad(minLat: real, minLon: real, maxLat: real, maxLon: real, fs1: seq<Proto.Feature>, fs2: seq<Proto.Feature>,
                           within: (Box, Shape) -> bool, known: string -> bool, fmt: real -> string)
    requires Validation.ValidationOutcome(minLat, minLon, maxLat, maxLon, fmt).Failure?
    ensures InitSpec(minLat, minLon, maxLat, maxLon, fs1, within, known, fmt) ==
            InitSpec(minLat, minLon, maxLat, maxLon, fs2, within, known, fmt) ==
            Failure(InvalidCoordinates(Validation.ValidationOutcome(minLat, minLon, maxLat, maxLon, fmt).error))
  {
  }

  /**
   * Initialisation succeeds exactly when the box is valid and every feature
   * has a first property; the engine then holds only known zones whose
   * polygons lie within the box, each paired with its envelope.
   */
  lemma InitializeSucceeds(minLat: real, minLon: real, maxLat: real, maxLon: real, fs: seq<Proto.Feature>,
                           within: (Box, Shape) -> bool, known: string -> bool, fmt: real -> string)
    ensures InitSpec(minLat, minLon, maxLat, maxLon, fs, within, known, fmt).Success? <==>
      Validation.MIN_LAT <= minLat <= maxLat <= Validation.MAX_LAT &&
      Validation.MIN_LON <= minLon <= maxLon <= Validation.MAX_LON &&
      TimeshapeIndex.AllNamed(fs)
    ensures InitSpec(minLat, minLon, maxLat, maxLon, fs, within, known, fmt).Success? ==>
      var index := InitSpec(minLat, minLon, maxLat, maxLon, fs, within, known, fmt).value.index;
      && |index.quadTree| == |index.zoneIds|
      && (forall k :: 0 <= k < |index.zoneIds| ==>
            known(index.zoneIds[k].zone) && within(Box(minLon, minLat, maxLon, maxLat), index.zoneIds[k].geometry))
  {
    Validation.ValidIff(minLat, minLon, maxLat, maxLon, fmt);
    TimeshapeIndex.BuildInvariant(fs, Boundaries(minLat, minLon, maxLat, maxLon), within, known);
  }

  /** The whole-world box passes validation, so the default initialisation fails only when build does. */
  lemma WorldIsValid(fs: seq<Proto.Feature>, within: (Box, Shape) -> bool, known: string -> bool, fmt: real -> string)
    ensures Validation.ValidationOutcome(Validation.MIN_LAT, Validation.MIN_LON, Validation.MAX_LAT, Validation.MAX_LON, fmt).Success?
    ensures InitSpec(Validation.MIN_LAT, Validation.MIN_LON, Validation.MAX_LAT, Validation.MAX_LON, fs, within, known, fmt).Success?
            <==> TimeshapeIndex.AllNamed(fs)
  {
    Validation.ValidIff(Validation.MIN_LAT, Validation.MIN_LON, Validation.MAX_LAT, Validation.MAX_LON, fmt);
    TimeshapeIndex.BuildInvariant(fs, Boundaries(Validation.MIN_LAT, Validation.MIN_LON, Validation.MAX_LAT, Validation.MAX_LON), within, known);
  }

  // ---- queries ----

  /** queryAll: every zone whose polygon contains the point, in candidate order. */
  method QueryAll(engine: Engine, latitude: real, longitude: real, slots: seq<nat>, contains: (Shape, Point) -> bool)
    returns (zones: seq<string>)
    requires forall k :: 0 <= k < |slots| ==> slots[k] < |engine.index.zoneIds|
    ensures zones == TimeshapeIndex.QueryZones(engine.index, latitude, longitude, slots, contains)
  {
    zones := TimeshapeIndex.Query(engine.index, latitude, longitude, slots, contains);
  }

  /** The first element of a list, or nothing when it is empty. */
  function Head(zones: seq<string>): (r: Option<string>)
    ensures r.None? <==> zones == []
    ensures r.Some? ==> r.value == zones[0]
  {
    if |zones| > 0 then Some(zones[0]) else None
  }

  /** query: the first zone queryAll finds, or nothing. */
  method Query(engine: Engine, latitude: real, longitude: real, slots: seq<nat>, contains: (Shape, Point) -> bool)
    returns (zone: Option<string>)
    requires forall k :: 0 <= k < |slots| ==> slots[k] < |engine.index.zoneIds|
    ensures zone == Head(TimeshapeIndex.QueryZones(engine.index, latitude, longitude, slots, contains))
  {
    var result := TimeshapeIndex.Query(engine.index, latitude, longitude, slots, contains);
    zone := if |result| > 0 then Some(result[0]) else None;
  }

  /**
   * On the same store and candidates, query answers what the core module's
   * index answers: the zone of the earliest candidate containing the point,
   * or nothing when no candidate contains it.
   */
  lemma QueryIsFirstMatch(engine: Engine, latitude: real, longitude: real, slots: seq<nat>, contains: (Shape, Point) -> bool)
    requires forall k :: 0 <= k < |slots| ==> slots[k] < |engine.index.zoneIds|
    ensures Head(TimeshapeIndex.QueryZones(engine.index, latitude, longitude, slots, contains)) ==
            CoreIndex.FirstZone(engine.index, latitude, longitude, slots, contains)
  {
    var cands := Candidates(engine.index.zoneIds, slots);
    var p := Point(longitude, latitude);
    CoreIndex.FirstMatchIsHead(cands, p, contains);
  }

  /** query finds nothing exactly when no candidate contains the point. */
  lemma QueryEmptyIff(engine: Engine, latitude: real, longitude: real, slots: seq<nat>, contains: (Shape, Point) -> bool)
    requires forall k :: 0 <= k < |slots| ==> slots[k] < |engine.index.zoneIds|
    ensures Head(TimeshapeIndex.QueryZones(engine.index, latitude, longitude, slots, contains)).None? <==>
      forall k :: 0 <= k < |slots| ==> !contains(engine.index.zoneIds[slots[k]].geometry, Point(longitude, latitude))
  {
    TimeshapeIndex.QueryExactly(engine.index, latitude, longitude, slots, contains);
    var zones := TimeshapeIndex.QueryZones(engine.index, latitude, longitude, slots, contains);
    var p := Point(longitude, latitude);
    forall k | 0 <= k < |slots| && contains(engine.index.zoneIds[slots[k]].geometry, p)
      ensures engine.index.zoneIds[slots[k]].zone in zones
    {
    }
    if zones != [] {
      assert zones[0] in zones;
    }
  }

  /** queryPolyline delegates to the index. */
  method QueryPolyline(engine: Engine, line: seq<real>, slots: seq<nat>, contains: (Shape, Point) -> bool)
    returns (r: Result<seq<Span>, TimeshapeIndex.PolylineError>)
    requires forall k :: 0 <= k < |slots| ==> slots[k] < |engine.index.zoneIds|
    ensures r.Failure? <==> |line| < 2
    ensures r.Success? ==> r.value == Segments(TimeshapeIndex.PathPoints(line), Candidates(engine.index.zoneIds, slots), contains, 0)
  {
    r := TimeshapeIndex.QueryPolyline(engine.index, line, slots, contains);
  }
}
