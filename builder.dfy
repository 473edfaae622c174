/**
 * The data builder (class Builder): GeoJSON time-zone features, as the
 * org.geojson reader presents them, converted into the protobuf features the
 * engines load. Every conversion is an order-preserving map: feature by
 * feature, part by part, ring by ring, position by position.
 */
module Builder {
  import opened Wrappers
  import Proto
  import Geometry
  import TimeshapeIndex
  import CoreIndex

  /** A GeoJSON position; its altitude is never read. */
  datatype LngLatAlt = LngLatAlt(longitude: real, latitude: real)

  type Ring = seq<LngLatAlt>

  /** The geometry of a GeoJSON feature: ring 0 of a polygon is its exterior ring, the rest are holes. */
  datatype GeoJsonGeometry =
    | GeoPolygon(rings: seq<Ring>)
    | GeoMultiPolygon(polygons: seq<seq<Ring>>)
    | OtherGeometry

  /** A GeoJSON feature; each property value is given as the string its toString() yields. */
  datatype GeoJsonFeature = GeoJsonFeature(properties: map<string, string>, geometry: GeoJsonGeometry)

  /**
   * Why buildProto throws: the feature has no "tzid" property (toString on
   * null), a polygon has no ring (poly.get(0)), or the geometry is of another
   * kind ("not implemented").
   */
  datatype ConversionError = MissingTzid | EmptyPolygon | NotImplemented

  /** geoJsonCoordinatesToProtoLineString: every position becomes (lat, lon), in order. */
  function ToLineString(ring: Ring): (r: Proto.LineString)
    ensures |r.coordinates| == |ring|
    ensures forall k :: 0 <= k < |ring| ==> r.coordinates[k] == Proto.Position(ring[k].latitude, ring[k].longitude)
  {
    if ring == [] then Proto.LineString([])
    else Proto.LineString([Proto.Position(ring[0].latitude, ring[0].longitude)] + ToLineString(ring[1..]).coordinates)
  }

  /** The rings in order, each converted. */
  function ToLineStrings(rings: seq<Ring>): (r: seq<Proto.LineString>)
    ensures |r| == |rings|
    ensures forall k :: 0 <= k < |rings| ==> r[k] == ToLineString(rings[k])
  {
    if rings == [] then [] else [ToLineString(rings[0])] + ToLineStrings(rings[1..])
  }

  /** geoJsonPolygonToProtoPolygon: the exterior ring first, then the holes in their order. */
  function ToPolygon(poly: seq<Ring>): Result<Proto.Polygon, ConversionError> {
    if poly == [] then Failure(EmptyPolygon)
    else Success(Proto.Polygon([ToLineString(poly[0])] + ToLineStrings(poly[1..])))
  }

  /** geoJsonMultiPolygonToProtoMultiPolygon: one protobuf polygon per part, in order; the first part without rings throws. */
  function ToPolygons(parts: seq<seq<Ring>>): Result<seq<Proto.Polygon>, ConversionError> {
    if parts == [] then Success([])
    else match ToPolygon(parts[0])
      case Failure(e) => Failure(e)
      case Success(p) =>
        match ToPolygons(parts[1..])
        case Failure(e) => Failure(e)
        case Success(rest) => Success([p] + rest)
  }

  /** One feature of buildProto's loop: the "tzid" property first, then the geometry. */
  function ToFeature(f: GeoJsonFeature): Result<Proto.Feature, ConversionError> {
    if "tzid" !in f.properties then Failure(MissingTzid)
    else
      var properties := [Proto.Property("tzid", f.properties["tzid"])];
      match f.geometry
      case GeoPolygon(rings) =>
        (match ToPolygon(rings)
         case Failure(e) => Failure(e)
         case Success(p) => Success(Proto.Feature(properties, Proto.PolygonGeometry(p))))
      case GeoMultiPolygon(parts) =>
        (match ToPolygons(parts)
         case Failure(e) => Failure(e)
         case Success(ps) => Success(Proto.Feature(properties, Proto.MultiPolygonGeometry(Proto.MultiPolygon(ps)))))
      case OtherGeometry => Failure(NotImplemented)
  }

  /** buildProto: the features in order; the first feature that throws ends the conversion. */
  function BuildProto(fs: seq<GeoJsonFeature>): Result<seq<Proto.Feature>, ConversionError> {
    if fs == [] then Success([])
    else match ToFeature(fs[0])
      case Failure(e) => Failure(e)
      case Success(p) =>
        match BuildProto(fs[1..])
        case Failure(e) => Failure(e)
        case Success(rest) => Success([p] + rest)
  }

  // ---- the reverse direction ----

  /** The GeoJSON ring a protobuf line string came from. */
  function FromLineString(ls: Proto.LineString): (ring: Ring)
    ensures |ring| == |ls.coordinates|
    ensures forall k :: 0 <= k < |ring| ==> ring[k] == LngLatAlt(ls.coordinates[k].lon, ls.coordinates[k].lat)
  {
    seq(|ls.coordinates|, k requires 0 <= k < |ls.coordinates| => LngLatAlt(ls.coordinates[k].lon, ls.coordinates[k].lat))
  }

  /** The GeoJSON rings a protobuf polygon came from. */
  function FromPolygon(p: Proto.Polygon): (rings: seq<Ring>)
    ensures |rings| == |p.coordinates|
    ensures forall k :: 0 <= k < |rings| ==> rings[k] == FromLineString(p.coordinates[k])
  {
    seq(|p.coordinates|, k requires 0 <= k < |p.coordinates| => FromLineString(p.coordinates[k]))
  }

  // ---- properties ----

  /** Converting a ring loses nothing: latitude goes to lat and longitude to lon, one to one. */
  lemma LineStringRoundTrip(ring: Ring)
    ensures FromLineString(ToLineString(ring)) == ring
  {
  }

  /** A polygon with at least one ring converts, keeping every ring in its place: exterior first, holes after. */
  lemma {:induction false} PolygonRoundTrip(poly: seq<Ring>)
    ensures ToPolygon(poly).Failure? <==> poly == []
    ensures ToPolygon(poly).Success? ==> FromPolygon(ToPolygon(poly).value) == poly
    ensures ToPolygon(poly).Success? ==>
      var rings := ToPolygon(poly).value.coordinates;
      |rings| == |poly| && forall k :: 0 <= k < |poly| ==> rings[k] == ToLineString(poly[k])
  {
    if poly != [] {
      var rings := ToPolygon(poly).value.coordinates;
      forall k | 0 <= k < |poly|
        ensures rings[k] == ToLineString(poly[k])
      {
        if k > 0 {
          assert rings[k] == ToLineStrings(poly[1..])[k - 1];
        }
      }
      forall k | 0 <= k < |poly|
        ensures FromPolygon(ToPolygon(poly).value)[k] == poly[k]
      {
        LineStringRoundTrip(poly[k]);
      }
    }
  }

  /** A multipolygon converts exactly when every part has a ring; then part k becomes polygon k. */
  lemma {:induction false} PolygonsExactly(parts: seq<seq<Ring>>)
    ensures ToPolygons(parts).Success? <==> forall k :: 0 <= k < |parts| ==> parts[k] != []
    ensures ToPolygons(parts).Success? ==>
      |ToPolygons(parts).value| == |parts| &&
      forall k :: 0 <= k < |parts| ==> ToPolygons(parts).value[k] == ToPolygon(parts[k]).value
    ensures ToPolygons(parts).Failure? ==> ToPolygons(parts).error == EmptyPolygon
  {
    if parts != [] {
      PolygonsExactly(parts[1..]);
      PolygonRoundTrip(parts[0]);
      if ToPolygons(parts).Success? {
        var ps := ToPolygons(parts).value;
        forall k | 0 <= k < |parts|
          ensures parts[k] != [] && ps[k] == ToPolygon(parts[k]).value
        {
          if k > 0 {
            assert parts[k] == parts[1..][k - 1];
          }
        }
      } else if parts[0] != [] {
        var j :| 0 <= j < |parts[1..]| && parts[1..][j] == [];
        assert parts[j + 1] == [];
      }
    }
  }

  /** A feature converts exactly when it has a "tzid" and a polygon or multipolygon whose every polygon has a ring. */
  lemma FeatureConverts(f: GeoJsonFeature)
    ensures ToFeature(f).Success? <==>
      && "tzid" in f.properties
      && match f.geometry
         case GeoPolygon(rings) => rings != []
         case GeoMultiPolygon(parts) => forall k :: 0 <= k < |parts| ==> parts[k] != []
         case OtherGeometry => false
    ensures ToFeature(f).Success? ==>
      ToFeature(f).value.properties == [Proto.Property("tzid", f.properties["tzid"])] &&
      !ToFeature(f).value.geometry.NoGeometry?
  {
    match f.geometry
    case GeoPolygon(rings) => PolygonRoundTrip(rings);
    case GeoMultiPolygon(parts) => PolygonsExactly(parts);
    case OtherGeometry =>
  }

  /** One output feature per input feature, in order; otherwise the error of the first feature that fails. */
  lemma {:induction false} BuildProtoExactly(fs: seq<GeoJsonFeature>)
    ensures BuildProto(fs).Success? <==> forall k :: 0 <= k < |fs| ==> ToFeature(fs[k]).Success?
    ensures BuildProto(fs).Success? ==>
      |BuildProto(fs).value| == |fs| &&
      forall k :: 0 <= k < |fs| ==> BuildProto(fs).value[k] == ToFeature(fs[k]).value
    ensures BuildProto(fs).Failure? ==>
      exists j :: 0 <= j < |fs| && ToFeature(fs[j]).Failure? && BuildProto(fs).error == ToFeature(fs[j]).error &&
        forall k :: 0 <= k < j ==> ToFeature(fs[k]).Success?
  {
    if fs != [] {
      BuildProtoExactly(fs[1..]);
      if ToFeature(fs[0]).Success? {
        if BuildProto(fs).Success? {
          var out := BuildProto(fs).value;
          forall k | 0 <= k < |fs|
            ensures ToFeature(fs[k]).Success? && out[k] == ToFeature(fs[k]).value
          {
            if k > 0 {
              assert fs[k] == fs[1..][k - 1];
            }
          }
        } else {
          var j :| 0 <= j < |fs[1..]| && ToFeature(fs[1..][j]).Failure? && BuildProto(fs[1..]).error == ToFeature(fs[1..][j]).error &&
            forall k :: 0 <= k < j ==> ToFeature(fs[1..][k]).Success?;
          forall k | 0 <= k < j + 1
            ensures ToFeature(fs[k]).Success?
          {
            if k > 0 {
              assert fs[k] == fs[1..][k - 1];
            }
          }
          assert fs[j + 1] == fs[1..][j];
        }
      }
    }
  }

  /**
   * The converted features are what both indexes expect: each has a first
   * property, whose value is the feature's "tzid", so neither build stops on
   * a missing property, and none lacks a geometry.
   */
  lemma OutputIsLoadable(fs: seq<GeoJsonFeature>)
    requires BuildProto(fs).Success?
    ensures |BuildProto(fs).value| == |fs| && forall k :: 0 <= k < |fs| ==> "tzid" in fs[k].properties
    ensures TimeshapeIndex.AllNamed(BuildProto(fs).value)
    ensures forall k :: 0 <= k < |fs| ==>
      TimeshapeIndex.Name(BuildProto(fs).value[k]) == fs[k].properties["tzid"] &&
      !BuildProto(fs).value[k].geometry.NoGeometry?
    ensures forall k, b, known :: 0 <= k < |fs| ==>
      CoreIndex.FeatureStep(BuildProto(fs).value[k], b, known) != Failure(CoreIndex.MissingProperty)
  {
    BuildProtoExactly(fs);
    forall k | 0 <= k < |fs|
      ensures BuildProto(fs).value[k].properties == [Proto.Property("tzid", fs[k].properties["tzid"])]
      ensures !BuildProto(fs).value[k].geometry.NoGeometry?
    {
      FeatureConverts(fs[k]);
    }
    forall k | 0 <= k < |fs|
      ensures "tzid" in fs[k].properties
    {
      FeatureConverts(fs[k]);
    }
  }

  /** A converted ring becomes an ESRI path with x the GeoJSON longitude and y the latitude. */
  lemma RingBecomesPath(ring: Ring)
    ensures |Geometry.RingPath(ToLineString(ring))| == |ring|
    ensures forall k :: 0 <= k < |ring| ==>
      Geometry.RingPath(ToLineString(ring))[k] == Geometry.Point(ring[k].longitude, ring[k].latitude)
  {
  }
}
