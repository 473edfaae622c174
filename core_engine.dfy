/**
 * The engine of the core module (class TimeZoneEngine there): the same
 * validator, run before the bundled resource is opened, then the core
 * module's index built over the box; a point query answers one zone at most.
 *
 * The features of the bundled resource are the parameter `fs`.
 */
module CoreEngine {
  import opened Wrappers
  import opened Geometry
  import Proto
  import Validation
  import CoreIndex

  /** Why initialize throws: IllegalArgumentException from validation, or a failure escaping build. */
  datatype InitError = InvalidCoordinates(message: string) | BuildFailed(error: CoreIndex.CoreError)

  /** The engine holds nothing but its index. */
  datatype Engine = Engine(index: ZoneStore)

  /** What initialize(minLat, minLon, maxLat, maxLon) returns; the box is an Envelope2D(minLon, minLat, maxLon, maxLat). */
  function InitSpec(minLat: real, minLon: real, maxLat: real, maxLon: real, fs: seq<Proto.Feature>,
                    known: string -> bool, fmt: real -> string): Result<Engine, InitError>
  {
    match Validation.ValidationOutcome(minLat, minLon, maxLat, maxLon, fmt)
    case Failure(message) => Failure(InvalidCoordinates(message))
    case Success(_) =>
      match CoreIndex.CoreBuildSpec(fs, Box(minLon, minLat, maxLon, maxLat), known)
      case Failure(e) => Failure(BuildFailed(e))
      case Success(store) => Success(Engine(store))
  }

  /** TimeZoneEngine.initialize with a bounding box. */
  method Initialize(minLat: real, minLon: real, maxLat: real, maxLon: real, fs: seq<Proto.Feature>,
                    known: string -> bool, fmt: real -> string)
    returns (r: Result<Engine, InitError>)
    ensures r == InitSpec(minLat, minLon, maxLat, maxLon, fs, known, fmt)
  {
    var checked := Validation.ValidateCoordinates(minLat, minLon, maxLat, maxLon, fmt);
    if checked.Failure? {
      return Failure(InvalidCoordinates(checked.error));
    }
    var built := CoreIndex.CoreBuild(fs, Box(minLon, minLat, maxLon, maxLat), known);
    if built.Failure? {
      return Failure(BuildFailed(built.error));
    }
    return Success(Engine(built.value));
  }

  /** initialize(): the whole world. */
  method InitializeWorld(fs: seq<Proto.Feature>, known: string -> bool, fmt: real -> string)
    returns (r: Result<Engine, InitError>)
    ensures r == InitSpec(Validation.MIN_LAT, Validation.MIN_LON, Validation.MAX_LAT, Validation.MAX_LON, fs, known, fmt)
  {
    r := Initialize(Validation.MIN_LAT, Validation.MIN_LON, Validation.MAX_LAT, Validation.MAX_LON, fs, known, fmt);
  }

  /** An invalid box fails with the validator's message whatever the resource holds: validation runs before it is opened. */
  lemma ValidateBeforeLoad(minLat: real, minLon: real, maxLat: real, maxLon: real, fs1: seq<Proto.Feature>, fs2: seq<Proto.Feature>,
                           known: string -> bool, fmt: real -> string)
    requires Validation.ValidationOutcome(minLat, minLon, maxLat, maxLon, fmt).Failure?
    ensures InitSpec(minLat, minLon, maxLat, maxLon, fs1, known, fmt) ==
            InitSpec(minLat, minLon, maxLat, maxLon, fs2, known, fmt) ==
            Failure(InvalidCoordinates(Validation.ValidationOutcome(minLat, minLon, maxLat, maxLon, fmt).error))
  {
  }

  /**
   * Initialisation succeeds exactly when the box is valid and the build meets
   * no malformed ring, missing property or unknown zone; every stored entry is
   * then a known zone whose polygon's envelope lies in the box.
   */
  lemma InitializeSucceeds(minLat: real, minLon: real, maxLat: real, maxLon: real, fs: seq<Proto.Feature>,
                           known: string -> bool, fmt: real -> string)
    ensures InitSpec(minLat, minLon, maxLat, maxLon, fs, known, fmt).Success? <==>
      Validation.MIN_LAT <= minLat <= maxLat <= Validation.MAX_LAT &&
      Validation.MIN_LON <= minLon <= maxLon <= Validation.MAX_LON &&
      CoreIndex.CoreBuildSpec(fs, Box(minLon, minLat, maxLon, maxLat), known).Success?
    ensures InitSpec(minLat, minLon, maxLat, maxLon, fs, known, fmt).Success? ==>
      var index := InitSpec(minLat, minLon, maxLat, maxLon, fs, known, fmt).value.index;
      && |index.zoneIds| <= |fs|
      && (forall k :: 0 <= k < |index.zoneIds| ==>
            known(index.zoneIds[k].zone) && BoxContains(Box(minLon, minLat, maxLon, maxLat), EnvelopeOf(index.zoneIds[k].geometry)))
  {
    Validation.ValidIff(minLat, minLon, maxLat, maxLon, fmt);
    CoreIndex.CoreBuildInvariant(fs, Box(minLon, minLat, maxLon, maxLat), known);
  }

  /** query: the zone of the earliest candidate whose polygon contains the point. */
  method Query(engine: Engine, latitude: real, longitude: real, slots: seq<nat>, contains: (Shape, Point) -> bool)
    returns (zone: Option<string>)
    requires forall k :: 0 <= k < |slots| ==> slots[k] < |engine.index.zoneIds|
    ensures zone == CoreIndex.FirstZone(engine.index, latitude, longitude, slots, contains)
  {
    zone := CoreIndex.CoreQuery(engine.index, latitude, longitude, slots, contains);
  }
}
