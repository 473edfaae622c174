/**
 * The protobuf schema the data archive is stored in (the generated class
 * Geojson): a feature carries a list of properties, the first being
 * ("tzid", zone name), and a polygon or multipolygon geometry whose rings are
 * lists of (lat, lon) positions. Coordinates are modelled as reals.
 */
module Proto {

  datatype Position = Position(lat: real, lon: real)

  datatype LineString = LineString(coordinates: seq<Position>)

  /** Ring 0 is the exterior ring, the others are holes. */
  datatype Polygon = Polygon(coordinates: seq<LineString>)

  datatype MultiPolygon = MultiPolygon(coordinates: seq<Polygon>)

  /** The oneof of the schema; NoGeometry is a feature whose geometry has neither case set. */
  datatype Geometry =
    | PolygonGeometry(polygon: Polygon)
    | MultiPolygonGeometry(multiPolygon: MultiPolygon)
    | NoGeometry

  datatype Property = Property(key: string, valueString: string)

  datatype Feature = Feature(properties: seq<Property>, geometry: Geometry)
}
