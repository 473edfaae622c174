/**
 * The index of the core module (core/.../Index.java): every feature becomes
 * at most one polygon, made by merging the rings of all its parts; a feature
 * is stored when that polygon's envelope lies inside the boundaries, and the
 * point query returns the first candidate that contains the point.
 *
 * Unlike the newer index, nothing is caught here: an empty ring, a missing
 * first property or a zone name ZoneId.of rejects ends the whole build.
 * `known` says whether ZoneId.of accepts a name and `contains` is
 * GeometryEngine.contains on a point; `slots` is the quadtree's answer, as in
 * the newer index.
 */
module CoreIndex {
  import opened Wrappers
  import opened Geometry
  import Proto

  // ---- build ----

  /** The exception that escapes build: an empty ring (lp.get(0)), a missing first property, an unknown zone id. */
  datatype CoreError = MalformedRing | MissingProperty | UnknownZone

  /** The paths of several protobuf polygons appended to one ESRI polygon, part after part; None when a ring is empty. */
  function MergedPaths(parts: seq<Proto.Polygon>): Option<seq<Path>> {
    if parts == [] then Some([])
    else match MergedPaths(parts[..|parts| - 1])
      case None => None
      case Some(ps) =>
        match PolygonPaths(parts[|parts| - 1].coordinates)
        case None => None
        case Some(qs) => Some(ps + qs)
  }

  /** The polygon build makes for a feature; a feature with neither case set gets an empty polygon. */
  function MergedShape(g: Proto.Geometry): Option<Shape> {
    match g
    case PolygonGeometry(p) => BuildPoly(p)
    case MultiPolygonGeometry(mp) =>
      (match MergedPaths(mp.coordinates)
       case None => None
       case Some(ps) => Some(Shape(ps)))
    case NoGeometry => Some(Shape([]))
  }

  /**
   * What one feature contributes: the error it raises, or the entry it adds
   * (None when its envelope is not inside the boundaries). The first property
   * and the zone id are read only for a feature that is stored.
   */
  function FeatureStep(f: Proto.Feature, boundaries: Box, known: string -> bool): Result<Option<Entry>, CoreError> {
    match MergedShape(f.geometry)
    case None => Failure(MalformedRing)
    case Some(s) =>
      if !BoxContains(boundaries, EnvelopeOf(s)) then Success(None)
      else if f.properties == [] then Failure(MissingProperty)
      else if !known(f.properties[0].valueString) then Failure(UnknownZone)
      else Success(Some(Entry(f.properties[0].valueString, s)))
  }

  /** The store build returns for a list of features, or the error of the first feature that raises one. */
  function CoreBuildSpec(fs: seq<Proto.Feature>, boundaries: Box, known: string -> bool): Result<ZoneStore, CoreError> {
    if fs == [] then Success(ZoneStore([], []))
    else match CoreBuildSpec(fs[..|fs| - 1], boundaries, known)
      case Failure(e) => Failure(e)
      case Success(st) =>
        match FeatureStep(fs[|fs| - 1], boundaries, known)
        case Failure(e) => Failure(e)
        case Success(None) => Success(st)
        case Success(Some(entry)) =>
          Success(ZoneStore(st.zoneIds + [entry], st.quadTree + [EnvelopeOf(entry.geometry)]))
  }

  /** buildPoly(from, poly): appends one path per ring of `from` to `paths`, stopping at the first empty ring. */
  method AppendRings(paths: seq<Path>, from: Proto.Polygon) returns (r: Option<seq<Path>>)
    ensures r.None? <==> PolygonPaths(from.coordinates).None?
    ensures r.Some? ==> r.value == paths + PolygonPaths(from.coordinates).value
  {
    var rings := from.coordinates;
    var acc := paths;
    for i := 0 to |rings|
      invariant forall k :: 0 <= k < i ==> rings[k].coordinates != []
      invariant |acc| == |paths| + i
      invariant acc[..|paths|] == paths
      invariant forall k :: 0 <= k < i ==> acc[|paths| + k] == RingPath(rings[k])
    {
      if rings[i].coordinates == [] {
        return None;
      }
      acc := acc + [RingPath(rings[i])];
    }
    var ps := PolygonPaths(rings).value;
    assert acc == paths + ps;
    return Some(acc);
  }

  /** The polygon build fills for one feature: the polygon case, or every part of a multipolygon in order. */
  method BuildShape(g: Proto.Geometry) returns (r: Option<Shape>)
    ensures r == MergedShape(g)
  {
    match g {
      case PolygonGeometry(p) =>
        var paths := AppendRings([], p);
        if paths.None? {
          return None;
        }
        assert paths.value == PolygonPaths(p.coordinates).value;
        return Some(Shape(paths.value));
      case MultiPolygonGeometry(mp) =>
        var parts := mp.coordinates;
        var paths: seq<Path> := [];
        for i := 0 to |parts|
          invariant MergedPaths(parts[..i]) == Some(paths)
        {
          assert parts[..i + 1][..i] == parts[..i];
          var next := AppendRings(paths, parts[i]);
          if next.None? {
            MergedPathsFails(parts, i);
            return None;
          }
          paths := next.value;
        }
        assert parts[..|parts|] == parts;
        return Some(Shape(paths));
      case NoGeometry =>
        return Some(Shape([]));
    }
  }

  /** Once a part has an empty ring, merging it or any longer list of parts fails. */
  lemma {:induction false} MergedPathsFails(parts: seq<Proto.Polygon>, i: nat)
    requires i < |parts| && PolygonPaths(parts[i].coordinates).None?
    ensures MergedPaths(parts).None?
    decreases |parts|
  {
    var init := parts[..|parts| - 1];
    if i < |parts| - 1 {
      assert init[i] == parts[i];
      MergedPathsFails(init, i);
    }
  }

  /** Merging succeeds exactly when every part can be built, that is when no ring of any part is empty. */
  lemma {:induction false} MergedPathsSucceeds(parts: seq<Proto.Polygon>)
    ensures MergedPaths(parts).Some? <==>
      forall k, j :: 0 <= k < |parts| && 0 <= j < |parts[k].coordinates| ==> parts[k].coordinates[j].coordinates != []
  {
    if parts != [] {
      var init := parts[..|parts| - 1];
      MergedPathsSucceeds(init);
      assert forall k :: 0 <= k < |init| ==> init[k] == parts[k];
    }
  }

  /** Index.build of the core module. */
  method CoreBuild(fs: seq<Proto.Feature>, boundaries: Box, known: string -> bool) returns (r: Result<ZoneStore, CoreError>)
    ensures r == CoreBuildSpec(fs, boundaries, known)
  {
    var zoneIds: seq<Entry> := [];
    var quadTree: seq<Envelope> := [];
    for i := 0 to |fs|
      invariant CoreBuildSpec(fs[..i], boundaries, known) == Success(ZoneStore(zoneIds, quadTree))
    {
      var f := fs[i];
      assert fs[..i + 1][..i] == fs[..i];
      var polygon := BuildShape(f.geometry);
      if polygon.None? {
        CoreBuildAborts(fs, boundaries, known, i);
        return Failure(MalformedRing);
      }
      var env := EnvelopeOf(polygon.value);
      if BoxContains(boundaries, env) {
        if f.properties == [] {
          CoreBuildAborts(fs, boundaries, known, i);
          return Failure(MissingProperty);
        }
        var name := f.properties[0].valueString;
        if !known(name) {
          CoreBuildAborts(fs, boundaries, known, i);
          return Failure(UnknownZone);
        }
        quadTree := quadTree + [env];
        zoneIds := zoneIds + [Entry(name, polygon.value)];
      }
    }
    assert fs[..|fs|] == fs;
    return Success(ZoneStore(zoneIds, quadTree));
  }

  // ---- what build guarantees ----

  /** Once a feature raises an error after error-free predecessors, the build returns that error. */
  lemma {:induction false} CoreBuildAborts(fs: seq<Proto.Feature>, boundaries: Box, known: string -> bool, i: nat)
    requires i < |fs|
    requires CoreBuildSpec(fs[..i], boundaries, known).Success?
    requires FeatureStep(fs[i], boundaries, known).Failure?
    ensures CoreBuildSpec(fs, boundaries, known) == Failure(FeatureStep(fs[i], boundaries, known).error)
    decreases |fs|
  {
    var init := fs[..|fs| - 1];
    if i < |fs| - 1 {
      assert init[..i] == fs[..i];
      assert init[i] == fs[i];
      CoreBuildAborts(init, boundaries, known, i);
    } else {
      assert init == fs[..i];
    }
  }

  /** The build succeeds exactly when no feature raises an error. */
  lemma {:induction false} CoreBuildSucceeds(fs: seq<Proto.Feature>, boundaries: Box, known: string -> bool)
    ensures CoreBuildSpec(fs, boundaries, known).Success? <==>
      forall k :: 0 <= k < |fs| ==> FeatureStep(fs[k], boundaries, known).Success?
  {
    if fs != [] {
      var init := fs[..|fs| - 1];
      CoreBuildSucceeds(init, boundaries, known);
      CoreBuildStep(fs, boundaries, known);
      if CoreBuildSpec(fs, boundaries, known).Success? {
        forall k | 0 <= k < |fs|
          ensures FeatureStep(fs[k], boundaries, known).Success?
        {
          if k < |init| {
            assert init[k] == fs[k];
            assert FeatureStep(init[k], boundaries, known).Success?;
          } else {
            assert k == |fs| - 1;
          }
        }
      } else if CoreBuildSpec(init, boundaries, known).Failure? {
        var k :| 0 <= k < |init| && FeatureStep(init[k], boundaries, known).Failure?;
        assert init[k] == fs[k];
      }
    }
  }

  /** The build of a non-empty list succeeds when the build of all but the last feature does and the last feature raises nothing. */
  lemma CoreBuildStep(fs: seq<Proto.Feature>, boundaries: Box, known: string -> bool)
    requires fs != []
    ensures CoreBuildSpec(fs, boundaries, known).Success? <==>
      CoreBuildSpec(fs[..|fs| - 1], boundaries, known).Success? && FeatureStep(fs[|fs| - 1], boundaries, known).Success?
  {
  }

  /**
   * A feature raises an error exactly when a ring is empty, or when its
   * polygon is stored but the first property is missing or names a zone
   * ZoneId.of rejects; a feature stored is one whose polygon has a vertex and
   * all vertices inside the boundaries.
   */
  lemma FeatureStepMeaning(f: Proto.Feature, boundaries: Box, known: string -> bool)
    ensures MergedShape(f.geometry).None? ==> FeatureStep(f, boundaries, known) == Failure(MalformedRing)
    ensures MergedShape(f.geometry).Some? ==>
      var s := MergedShape(f.geometry).value;
      var inside := Vertices(s) != [] && forall p :: p in Vertices(s) ==> InBox(boundaries, p);
      && (!inside ==> FeatureStep(f, boundaries, known) == Success(None))
      && (inside && f.properties == [] ==> FeatureStep(f, boundaries, known) == Failure(MissingProperty))
      && (inside && f.properties != [] && !known(f.properties[0].valueString) ==>
            FeatureStep(f, boundaries, known) == Failure(UnknownZone))
      && (inside && f.properties != [] && known(f.properties[0].valueString) ==>
            FeatureStep(f, boundaries, known) == Success(Some(Entry(f.properties[0].valueString, s))))
  {
    if MergedShape(f.geometry).Some? {
      BoxContainsBbox(boundaries, Vertices(MergedShape(f.geometry).value));
    }
  }

  /** A feature without geometry gets an empty polygon whose empty envelope is never inside the boundaries: it is skipped, and its properties are never read. */
  lemma NoGeometrySkipped(f: Proto.Feature, boundaries: Box, known: string -> bool)
    requires f.geometry.NoGeometry?
    ensures FeatureStep(f, boundaries, known) == Success(None)
  {
    BoxContainsBbox(boundaries, Vertices(Shape([])));
  }

  /**
   * A successful build stores at most one entry per feature, keeps slot k
   * paired with entry k's envelope, and every entry has a recognised zone and
   * an envelope inside the boundaries.
   */
  lemma {:induction false} CoreBuildInvariant(fs: seq<Proto.Feature>, boundaries: Box, known: string -> bool)
    ensures CoreBuildSpec(fs, boundaries, known).Success? ==>
      var st := CoreBuildSpec(fs, boundaries, known).value;
      && |st.zoneIds| <= |fs|
      && |st.quadTree| == |st.zoneIds|
      && (forall k :: 0 <= k < |st.zoneIds| ==> st.quadTree[k] == EnvelopeOf(st.zoneIds[k].geometry))
      && (forall k :: 0 <= k < |st.zoneIds| ==> known(st.zoneIds[k].zone) && BoxContains(boundaries, st.quadTree[k]))
  {
    if fs != [] {
      CoreBuildInvariant(fs[..|fs| - 1], boundaries, known);
    }
  }

  /** A single polygon is built the same way by both index variants, and a multipolygon of one part merges to that part's polygon. */
  lemma MergedShapeOfOnePart(p: Proto.Polygon)
    ensures MergedShape(Proto.PolygonGeometry(p)) == BuildPoly(p)
    ensures MergedShape(Proto.MultiPolygonGeometry(Proto.MultiPolygon([p]))) == BuildPoly(p)
  {
    var parts := [p];
    assert parts[..|parts| - 1] == [];
    assert MergedPaths(parts[..|parts| - 1]) == Some([]);
    assert parts[|parts| - 1] == p;
    if PolygonPaths(p.coordinates).Some? {
      assert [] + PolygonPaths(p.coordinates).value == PolygonPaths(p.coordinates).value;
    }
  }

  // ---- point query ----

  /** The first candidate, in quadtree order, that contains the point. */
  function FirstMatch(cands: seq<Entry>, p: Point, contains: (Shape, Point) -> bool): Option<Entry> {
    if cands == [] then None
    else if contains(cands[0].geometry, p) then Some(cands[0])
    else FirstMatch(cands[1..], p, contains)
  }

  /** What Index.query of the core module returns. */
  function FirstZone(index: ZoneStore, latitude: real, longitude: real, slots: seq<nat>, contains: (Shape, Point) -> bool): Option<string>
    requires forall k :: 0 <= k < |slots| ==> slots[k] < |index.zoneIds|
  {
    match FirstMatch(Candidates(index.zoneIds, slots), Point(longitude, latitude), contains)
    case None => None
    case Some(e) => Some(e.zone)
  }

  /** FirstMatch finds candidate k when k contains the point and no earlier one does, and nothing when none does. */
  lemma {:induction false} FirstMatchAt(cands: seq<Entry>, p: Point, contains: (Shape, Point) -> bool, k: nat)
    requires k <= |cands|
    requires forall j :: 0 <= j < k ==> !contains(cands[j].geometry, p)
    ensures k < |cands| && contains(cands[k].geometry, p) ==> FirstMatch(cands, p, contains) == Some(cands[k])
    ensures k == |cands| ==> FirstMatch(cands, p, contains) == None
    decreases k
  {
    if k > 0 {
      FirstMatchAt(cands[1..], p, contains, k - 1);
    }
  }

  /** Index.query: returns at the first candidate that contains the point. */
  method CoreQuery(index: ZoneStore, latitude: real, longitude: real, slots: seq<nat>, contains: (Shape, Point) -> bool)
    returns (result: Option<string>)
    requires forall k :: 0 <= k < |slots| ==> slots[k] < |index.zoneIds|
    ensures result == FirstZone(index, latitude, longitude, slots, contains)
  {
    var point := Point(longitude, latitude);
    ghost var cands := Candidates(index.zoneIds, slots);
    for i := 0 to |slots|
      invariant forall j :: 0 <= j < i ==> !contains(cands[j].geometry, point)
    {
      var element := slots[i];
      var entry := index.zoneIds[element];
      if contains(entry.geometry, point) {
        FirstMatchAt(cands, point, contains, i);
        return Some(entry.zone);
      }
    }
    FirstMatchAt(cands, point, contains, |slots|);
    return None;
  }

  /** FirstMatch is the earliest candidate containing the point, and None exactly when no candidate contains it. */
  lemma {:induction false} FirstMatchMeaning(cands: seq<Entry>, p: Point, contains: (Shape, Point) -> bool)
    ensures FirstMatch(cands, p, contains).None? <==> forall k :: 0 <= k < |cands| ==> !contains(cands[k].geometry, p)
    ensures FirstMatch(cands, p, contains).Some? ==>
      exists k :: 0 <= k < |cands| && cands[k] == FirstMatch(cands, p, contains).value && contains(cands[k].geometry, p) &&
        forall j :: 0 <= j < k ==> !contains(cands[j].geometry, p)
    decreases |cands|
  {
    if cands != [] && !contains(cands[0].geometry, p) {
      var tail := cands[1..];
      FirstMatchMeaning(tail, p, contains);
      if FirstMatch(tail, p, contains).Some? {
        var k :| 0 <= k < |tail| && tail[k] == FirstMatch(tail, p, contains).value && contains(tail[k].geometry, p) &&
          forall j :: 0 <= j < k ==> !contains(tail[j].geometry, p);
        assert cands[k + 1] == tail[k];
        assert forall j :: 1 <= j < k + 1 ==> cands[j] == tail[j - 1];
      }
    }
  }

  /**
   * The core query answers with the first zone the newer index's query would
   * list for the same candidates, and with nothing when that list is empty.
   */
  lemma FirstMatchIsHead(cands: seq<Entry>, p: Point, contains: (Shape, Point) -> bool)
    ensures FirstMatch(cands, p, contains).None? <==> Containing(cands, p, contains) == []
    ensures FirstMatch(cands, p, contains).Some? ==>
      Containing(cands, p, contains) != [] && FirstMatch(cands, p, contains).value == Containing(cands, p, contains)[0]
  {
    FirstMatchMeaning(cands, p, contains);
    ContainingMembers(cands, p, contains);
    if FirstMatch(cands, p, contains).Some? {
      var k :| 0 <= k < |cands| && cands[k] == FirstMatch(cands, p, contains).value && contains(cands[k].geometry, p) &&
        forall j :: 0 <= j < k ==> !contains(cands[j].geometry, p);
      ContainingHead(cands, p, contains, k);
    }
  }
}
