/**
 * The index of the timeshape module (class Index): building it from protobuf
 * features, the point query that returns every matching zone, and the
 * polyline query that splits a path into same-zone spans.
 *
 * Foreign calls stay abstract parameters: `contains` is
 * GeometryEngine.contains on a point, `within` is GeometryEngine.contains of
 * the boundaries and a polygon, and `known` says whether ZoneId.of accepts a
 * name. The quadtree's answer to a query is the list `slots` of slot ids it
 * reports; every slot id it holds was handed out by build, so each one is
 * below the number of stored entries.
 */
module TimeshapeIndex {
  import opened Wrappers
  import opened Geometry
  import opened Polyline
  import Proto

  // ---- build ----

  /**
   * Why build gives up: the first property of a feature is read outside the
   * try block, so a feature without properties escapes build.
   */
  datatype BuildError = MissingProperty

  /** The index build returns, and the names it logs as not recognised, in input order. */
  datatype Built = Built(index: ZoneStore, unknownZones: seq<string>)

  /**
   * The polygons getPolygons streams for a feature, up to the first one
   * buildPoly cannot build, and whether the stream threw.
   */
  datatype Polygons = Polygons(shapes: seq<Shape>, failed: bool)

  /**
   * The lazily mapped stream of a multipolygon's parts: the parts before the
   * first one with an empty ring are built (and consumed by the caller) before
   * that part throws.
   */
  function PartsOf(parts: seq<Proto.Polygon>): (r: Polygons)
    ensures |r.shapes| <= |parts|
    ensures forall k :: 0 <= k < |r.shapes| ==> BuildPoly(parts[k]) == Some(r.shapes[k])
    ensures r.failed ==> |r.shapes| < |parts| && BuildPoly(parts[|r.shapes|]).None?
    ensures !r.failed ==> |r.shapes| == |parts|
  {
    if parts == [] then Polygons([], false)
    else match BuildPoly(parts[0])
      case None => Polygons([], true)
      case Some(s) =>
        var rest := PartsOf(parts[1..]);
        assert forall k :: 0 <= k < |rest.shapes| ==> parts[1..][k] == parts[k + 1];
        Polygons([s] + rest.shapes, rest.failed)
  }

  /**
   * getPolygons: a polygon is built eagerly (Stream.of), so a bad ring throws
   * before anything is streamed; a multipolygon streams its parts; any other
   * geometry throws "Unknown geometry type".
   */
  function GetPolygons(f: Proto.Feature): Polygons {
    match f.geometry
    case PolygonGeometry(p) =>
      (match BuildPoly(p)
       case None => Polygons([], true)
       case Some(s) => Polygons([s], false))
    case MultiPolygonGeometry(mp) => PartsOf(mp.coordinates)
    case NoGeometry => Polygons([], true)
  }

  /** The zone name of a feature: the value of its first property. */
  function Name(f: Proto.Feature): string
    requires f.properties != []
  {
    f.properties[0].valueString
  }

  /** The entries made from the polygons that lie within the boundaries, in stream order. */
  function Kept(name: string, shapes: seq<Shape>, boundaries: Box, within: (Box, Shape) -> bool): (r: seq<Entry>)
    ensures |r| <= |shapes|
  {
    if shapes == [] then []
    else
      var last := shapes[|shapes| - 1];
      Kept(name, shapes[..|shapes| - 1], boundaries, within) + (if within(boundaries, last) then [Entry(name, last)] else [])
  }

  /** The entries one feature adds: none when its zone is unknown. */
  function FeatureEntries(f: Proto.Feature, boundaries: Box, within: (Box, Shape) -> bool, known: string -> bool): seq<Entry>
    requires f.properties != []
  {
    if known(Name(f)) then Kept(Name(f), GetPolygons(f).shapes, boundaries, within) else []
  }

  /** A feature lands in unknownZones when ZoneId.of rejects its name or getPolygons throws. */
  predicate Rejected(f: Proto.Feature, known: string -> bool)
    requires f.properties != []
  {
    !known(Name(f)) || GetPolygons(f).failed
  }

  predicate AllNamed(fs: seq<Proto.Feature>) {
    forall k :: 0 <= k < |fs| ==> fs[k].properties != []
  }

  /** The entries of all features, feature after feature. */
  function StoredEntries(fs: seq<Proto.Feature>, boundaries: Box, within: (Box, Shape) -> bool, known: string -> bool): seq<Entry>
    requires AllNamed(fs)
  {
    if fs == [] then []
    else
      StoredEntries(fs[..|fs| - 1], boundaries, within, known)
      + FeatureEntries(fs[|fs| - 1], boundaries, within, known)
  }

  /** The names of the rejected features, in input order. */
  function UnknownNames(fs: seq<Proto.Feature>, known: string -> bool): seq<string>
    requires AllNamed(fs)
  {
    if fs == [] then []
    else
      var f := fs[|fs| - 1];
      UnknownNames(fs[..|fs| - 1], known) + (if Rejected(f, known) then [Name(f)] else [])
  }

  /** What build produces for a list of features. */
  function BuildSpec(fs: seq<Proto.Feature>, boundaries: Box, within: (Box, Shape) -> bool, known: string -> bool): Result<Built, BuildError> {
    if AllNamed(fs) then
      var entries := StoredEntries(fs, boundaries, within, known);
      Success(Built(ZoneStore(entries, Envelopes(entries)), UnknownNames(fs, known)))
    else Failure(MissingProperty)
  }

  /**
   * Index.build: features are taken in order; slot ids are handed out by a
   * counter only to polygons inside the boundaries. `accelerate` only warms
   * a cache of the containment operator and has no effect on the result.
   */
  method Build(fs: seq<Proto.Feature>, boundaries: Box, accelerate: bool,
               within: (Box, Shape) -> bool, known: string -> bool)
    returns (r: Result<Built, BuildError>)
    ensures r == BuildSpec(fs, boundaries, within, known)
  {
    var zoneIds: seq<Entry> := [];
    var quadTree: seq<Envelope> := [];
    var unknownZones: seq<string> := [];
    var next: nat := 0;
    for i := 0 to |fs|
      invariant AllNamed(fs[..i])
      invariant zoneIds == StoredEntries(fs[..i], boundaries, within, known)
      invariant quadTree == Envelopes(zoneIds)
      invariant unknownZones == UnknownNames(fs[..i], known)
      invariant next == |zoneIds|
    {
      var f := fs[i];
      if f.properties == [] {
        assert !AllNamed(fs) by { assert fs[i].properties == []; }
        return Failure(MissingProperty);
      }
      BuildStep(fs, i, boundaries, within, known);
      var zoneIdName := f.properties[0].valueString;
      if !known(zoneIdName) {
        unknownZones := unknownZones + [zoneIdName];
      } else {
        var polygons := GetPolygons(f);
        zoneIds, quadTree, next := InsertWithin(zoneIds, quadTree, next, zoneIdName, polygons.shapes, boundaries, within);
        if polygons.failed {
          unknownZones := unknownZones + [zoneIdName];
        }
      }
    }
    assert fs[..|fs|] == fs;
    r := Success(Built(ZoneStore(zoneIds, quadTree), unknownZones));
  }

  /**
   * The forEach over a feature's polygons: each polygon inside the boundaries
   * takes the next slot id, goes into the quadtree with its envelope, and is
   * stored under that slot.
   */
  method InsertWithin(zoneIds: seq<Entry>, quadTree: seq<Envelope>, next: nat, zoneIdName: string,
                      polygons: seq<Shape>, boundaries: Box, within: (Box, Shape) -> bool)
    returns (zoneIds': seq<Entry>, quadTree': seq<Envelope>, next': nat)
    requires quadTree == Envelopes(zoneIds) && next == |zoneIds|
    ensures zoneIds' == zoneIds + Kept(zoneIdName, polygons, boundaries, within)
    ensures quadTree' == Envelopes(zoneIds') && next' == |zoneIds'|
  {
    zoneIds', quadTree', next' := zoneIds, quadTree, next;
    for j := 0 to |polygons|
      invariant zoneIds' == zoneIds + Kept(zoneIdName, polygons[..j], boundaries, within)
      invariant quadTree' == Envelopes(zoneIds') && next' == |zoneIds'|
    {
      var polygon := polygons[j];
      KeptStep(zoneIdName, polygons, j, boundaries, within);
      if within(boundaries, polygon) {
        var env := EnvelopeOf(polygon);
        var index := next';
        assert index == |zoneIds'|;
        next' := next' + 1;
        EnvelopesSnoc(zoneIds', Entry(zoneIdName, polygon));
        AppendAssoc(zoneIds, Kept(zoneIdName, polygons[..j], boundaries, within), [Entry(zoneIdName, polygon)]);
        quadTree' := quadTree' + [env];
        zoneIds' := zoneIds' + [Entry(zoneIdName, polygon)];
      }
    }
    assert polygons[..|polygons|] == polygons;
  }

  /** What one more feature adds to the stored entries and to the unknown names. */
  lemma BuildStep(fs: seq<Proto.Feature>, i: nat, boundaries: Box, within: (Box, Shape) -> bool, known: string -> bool)
    requires i < |fs| && AllNamed(fs[..i]) && fs[i].properties != []
    ensures AllNamed(fs[..i + 1])
    ensures StoredEntries(fs[..i + 1], boundaries, within, known)
      == StoredEntries(fs[..i], boundaries, within, known) + FeatureEntries(fs[i], boundaries, within, known)
    ensures UnknownNames(fs[..i + 1], known)
      == UnknownNames(fs[..i], known) + (if Rejected(fs[i], known) then [Name(fs[i])] else [])
  {
    assert fs[..i + 1][..i] == fs[..i];
  }

  lemma KeptStep(name: string, shapes: seq<Shape>, j: nat, boundaries: Box, within: (Box, Shape) -> bool)
    requires j < |shapes|
    ensures Kept(name, shapes[..j + 1], boundaries, within)
      == Kept(name, shapes[..j], boundaries, within) + (if within(boundaries, shapes[j]) then [Entry(name, shapes[j])] else [])
  {
    assert shapes[..j + 1][..j] == shapes[..j];
  }

  lemma AppendAssoc<T>(a: seq<T>, b: seq<T>, c: seq<T>)
    ensures (a + b) + c == a + (b + c)
  {
  }

  lemma EnvelopesSnoc(entries: seq<Entry>, e: Entry)
    ensures Envelopes(entries + [e]) == Envelopes(entries) + [EnvelopeOf(e.geometry)]
  {
    assert (entries + [e])[..|entries|] == entries;
  }

  // ---- what build keeps and what it rejects ----

  /** Every stored entry has a recognised zone and a polygon inside the boundaries, and came from a feature of that name. */
  lemma {:induction false} StoredEntriesSound(fs: seq<Proto.Feature>, boundaries: Box, within: (Box, Shape) -> bool, known: string -> bool)
    requires AllNamed(fs)
    ensures forall e :: e in StoredEntries(fs, boundaries, within, known) ==>
      known(e.zone) && within(boundaries, e.geometry) &&
      exists k :: 0 <= k < |fs| && Name(fs[k]) == e.zone && e.geometry in GetPolygons(fs[k]).shapes
  {
    if fs != [] {
      var init := fs[..|fs| - 1];
      var f := fs[|fs| - 1];
      assert AllNamed(init);
      StoredEntriesSound(init, boundaries, within, known);
      if known(Name(f)) {
        KeptSound(Name(f), GetPolygons(f).shapes, boundaries, within);
      }
      forall e | e in StoredEntries(fs, boundaries, within, known)
        ensures exists k :: 0 <= k < |fs| && Name(fs[k]) == e.zone && e.geometry in GetPolygons(fs[k]).shapes
      {
        if e in StoredEntries(init, boundaries, within, known) {
          var k :| 0 <= k < |init| && Name(init[k]) == e.zone && e.geometry in GetPolygons(init[k]).shapes;
          assert fs[k] == init[k];
        } else {
          assert fs[|fs| - 1] == f;
        }
      }
    }
  }

  /** Every polygon of a recognised feature that lies inside the boundaries is stored under the feature's name. */
  lemma {:induction false} StoredEntriesComplete(fs: seq<Proto.Feature>, boundaries: Box, within: (Box, Shape) -> bool, known: string -> bool)
    requires AllNamed(fs)
    ensures forall k, s :: 0 <= k < |fs| && known(Name(fs[k])) && s in GetPolygons(fs[k]).shapes && within(boundaries, s) ==>
      Entry(Name(fs[k]), s) in StoredEntries(fs, boundaries, within, known)
  {
    if fs != [] {
      var init := fs[..|fs| - 1];
      var f := fs[|fs| - 1];
      assert AllNamed(init);
      StoredEntriesComplete(init, boundaries, within, known);
      KeptComplete(Name(f), GetPolygons(f).shapes, boundaries, within);
      forall k, s | 0 <= k < |fs| && known(Name(fs[k])) && s in GetPolygons(fs[k]).shapes && within(boundaries, s)
        ensures Entry(Name(fs[k]), s) in StoredEntries(fs, boundaries, within, known)
      {
        if k < |fs| - 1 {
          assert fs[k] == init[k];
        }
      }
    }
  }

  lemma {:induction false} KeptSound(name: string, shapes: seq<Shape>, boundaries: Box, within: (Box, Shape) -> bool)
    ensures forall e :: e in Kept(name, shapes, boundaries, within) ==>
      e.zone == name && e.geometry in shapes && within(boundaries, e.geometry)
  {
    if shapes != [] {
      var init := shapes[..|shapes| - 1];
      KeptSound(name, init, boundaries, within);
      assert shapes == init + [shapes[|shapes| - 1]];
    }
  }

  lemma {:induction false} KeptComplete(name: string, shapes: seq<Shape>, boundaries: Box, within: (Box, Shape) -> bool)
    ensures forall s :: s in shapes && within(boundaries, s) ==> Entry(name, s) in Kept(name, shapes, boundaries, within)
  {
    if shapes != [] {
      var init := shapes[..|shapes| - 1];
      KeptComplete(name, init, boundaries, within);
      assert shapes == init + [shapes[|shapes| - 1]];
    }
  }

  /** When every polygon lies inside the boundaries, each one gets its own entry, in order. */
  lemma {:induction false} KeptAllWithin(name: string, shapes: seq<Shape>, boundaries: Box, within: (Box, Shape) -> bool)
    requires forall k :: 0 <= k < |shapes| ==> within(boundaries, shapes[k])
    ensures |Kept(name, shapes, boundaries, within)| == |shapes|
    ensures forall k :: 0 <= k < |shapes| ==> Kept(name, shapes, boundaries, within)[k] == Entry(name, shapes[k])
  {
    if shapes != [] {
      KeptAllWithin(name, shapes[..|shapes| - 1], boundaries, within);
    }
  }

  /**
   * A recognised multipolygon whose parts are all well formed and inside the
   * boundaries yields one entry per part, in order, all with the feature's
   * zone, and its name is not reported.
   */
  lemma MultiPolygonEntries(f: Proto.Feature, boundaries: Box, within: (Box, Shape) -> bool, known: string -> bool)
    requires f.properties != [] && known(Name(f)) && f.geometry.MultiPolygonGeometry?
    requires forall k :: 0 <= k < |f.geometry.multiPolygon.coordinates| ==>
      var part := BuildPoly(f.geometry.multiPolygon.coordinates[k]);
      part.Some? && within(boundaries, part.value)
    ensures !Rejected(f, known)
    ensures var parts := f.geometry.multiPolygon.coordinates;
      |FeatureEntries(f, boundaries, within, known)| == |parts| &&
      forall k :: 0 <= k < |parts| ==>
        FeatureEntries(f, boundaries, within, known)[k] == Entry(Name(f), BuildPoly(parts[k]).value)
  {
    var parts := f.geometry.multiPolygon.coordinates;
    var r := PartsOf(parts);
    assert !r.failed;
    KeptAllWithin(Name(f), r.shapes, boundaries, within);
  }

  /**
   * Because the parts of a multipolygon are streamed lazily, the parts before
   * the first malformed one are still stored, and then the name is reported
   * as not recognised.
   */
  lemma MalformedPartKeepsEarlierParts(f: Proto.Feature, j: nat)
    requires f.geometry.MultiPolygonGeometry?
    requires j < |f.geometry.multiPolygon.coordinates|
    requires BuildPoly(f.geometry.multiPolygon.coordinates[j]).None?
    requires forall k :: 0 <= k < j ==> BuildPoly(f.geometry.multiPolygon.coordinates[k]).Some?
    ensures GetPolygons(f).failed
    ensures |GetPolygons(f).shapes| == j
    ensures forall k :: 0 <= k < j ==> GetPolygons(f).shapes[k] == BuildPoly(f.geometry.multiPolygon.coordinates[k]).value
  {
    var parts := f.geometry.multiPolygon.coordinates;
    var r := PartsOf(parts);
    assert |r.shapes| <= j;
    assert |r.shapes| >= j;
  }

  /**
   * The names build reports are those of the rejected features: each reported
   * name belongs to a feature whose zone is unknown or whose geometry could
   * not be built, and every such feature is reported.
   */
  lemma {:induction false} UnknownNamesExactly(fs: seq<Proto.Feature>, known: string -> bool)
    requires AllNamed(fs)
    ensures forall n :: n in UnknownNames(fs, known) ==>
      exists k :: 0 <= k < |fs| && Rejected(fs[k], known) && Name(fs[k]) == n
    ensures forall k :: 0 <= k < |fs| && Rejected(fs[k], known) ==> Name(fs[k]) in UnknownNames(fs, known)
  {
    if fs != [] {
      var init := fs[..|fs| - 1];
      assert AllNamed(init);
      UnknownNamesExactly(init, known);
      forall n | n in UnknownNames(fs, known)
        ensures exists k :: 0 <= k < |fs| && Rejected(fs[k], known) && Name(fs[k]) == n
      {
        if n in UnknownNames(init, known) {
          var k :| 0 <= k < |init| && Rejected(init[k], known) && Name(init[k]) == n;
          assert fs[k] == init[k];
        } else {
          assert Rejected(fs[|fs| - 1], known) && Name(fs[|fs| - 1]) == n;
        }
      }
      forall k | 0 <= k < |fs| && Rejected(fs[k], known)
        ensures Name(fs[k]) in UnknownNames(fs, known)
      {
        if k < |fs| - 1 {
          assert fs[k] == init[k];
        }
      }
    }
  }

  /**
   * A successful build pairs slot k with entry k and its envelope, and stores
   * only recognised zones with polygons inside the boundaries.
   */
  lemma BuildInvariant(fs: seq<Proto.Feature>, boundaries: Box, within: (Box, Shape) -> bool, known: string -> bool)
    ensures BuildSpec(fs, boundaries, within, known).Success? <==> AllNamed(fs)
    ensures BuildSpec(fs, boundaries, within, known).Success? ==>
      var index := BuildSpec(fs, boundaries, within, known).value.index;
      && |index.quadTree| == |index.zoneIds|
      && (forall k :: 0 <= k < |index.zoneIds| ==> index.quadTree[k] == EnvelopeOf(index.zoneIds[k].geometry))
      && (forall k :: 0 <= k < |index.zoneIds| ==>
            known(index.zoneIds[k].zone) && within(boundaries, index.zoneIds[k].geometry))
  {
    if AllNamed(fs) {
      StoredEntriesSound(fs, boundaries, within, known);
      var zs := StoredEntries(fs, boundaries, within, known);
      assert forall k :: 0 <= k < |zs| ==> zs[k] in zs;
    }
  }

  // ---- point query ----

  /** The zones of the candidates, in the order the quadtree reports them, whose geometry contains the point. */
  function QueryZones(index: ZoneStore, latitude: real, longitude: real, slots: seq<nat>, contains: (Shape, Point) -> bool): seq<string>
    requires forall k :: 0 <= k < |slots| ==> slots[k] < |index.zoneIds|
  {
    Zones(Containing(Candidates(index.zoneIds, slots), Point(longitude, latitude), contains))
  }

  /** Index.query: every candidate is tested and each match adds its zone. */
  method Query(index: ZoneStore, latitude: real, longitude: real, slots: seq<nat>, contains: (Shape, Point) -> bool)
    returns (result: seq<string>)
    requires forall k :: 0 <= k < |slots| ==> slots[k] < |index.zoneIds|
    ensures result == QueryZones(index, latitude, longitude, slots, contains)
  {
    var point := Point(longitude, latitude);
    result := [];
    for i := 0 to |slots|
      invariant result == Zones(Containing(Candidates(index.zoneIds, slots[..i]), point, contains))
    {
      var element := slots[i];
      var entry := index.zoneIds[element];
      QueryStep(index.zoneIds, slots, i, point, contains);
      if contains(entry.geometry, point) {
        result := result + [entry.zone];
      }
    }
    assert slots[..|slots|] == slots;
  }

  /** Testing one more candidate adds its zone exactly when its polygon contains the point. */
  lemma QueryStep(store: seq<Entry>, slots: seq<nat>, i: nat, p: Point, contains: (Shape, Point) -> bool)
    requires i < |slots| && forall k :: 0 <= k < |slots| ==> slots[k] < |store|
    ensures Zones(Containing(Candidates(store, slots[..i + 1]), p, contains)) ==
      Zones(Containing(Candidates(store, slots[..i]), p, contains))
      + (if contains(store[slots[i]].geometry, p) then [store[slots[i]].zone] else [])
  {
    var entry := store[slots[i]];
    CandidatesSnoc(store, slots, i);
    ContainingSnoc(Candidates(store, slots[..i]), entry, p, contains);
    if contains(entry.geometry, p) {
      ZonesSnoc(Containing(Candidates(store, slots[..i]), p, contains), entry);
    } else {
      assert Containing(Candidates(store, slots[..i]), p, contains) + [] == Containing(Candidates(store, slots[..i]), p, contains);
    }
  }

  lemma CandidatesSnoc(store: seq<Entry>, slots: seq<nat>, i: nat)
    requires i < |slots| && forall k :: 0 <= k < |slots| ==> slots[k] < |store|
    ensures Candidates(store, slots[..i + 1]) == Candidates(store, slots[..i]) + [store[slots[i]]]
  {
  }

  lemma ContainingSnoc(cands: seq<Entry>, e: Entry, p: Point, contains: (Shape, Point) -> bool)
    ensures Containing(cands + [e], p, contains) ==
      Containing(cands, p, contains) + (if contains(e.geometry, p) then [e] else [])
  {
    assert (cands + [e])[..|cands|] == cands;
  }

  lemma ZonesSnoc(s: seq<Entry>, e: Entry)
    ensures Zones(s + [e]) == Zones(s) + [e.zone]
  {
    assert (s + [e])[..|s|] == s;
  }

  /**
   * The point query is sound and complete over the quadtree's candidates: a
   * zone is reported exactly when some reported slot holds a polygon of that
   * zone containing the point.
   */
  lemma QueryExactly(index: ZoneStore, latitude: real, longitude: real, slots: seq<nat>, contains: (Shape, Point) -> bool)
    requires forall k :: 0 <= k < |slots| ==> slots[k] < |index.zoneIds|
    ensures forall z :: z in QueryZones(index, latitude, longitude, slots, contains) <==>
      exists k :: 0 <= k < |slots| && index.zoneIds[slots[k]].zone == z &&
        contains(index.zoneIds[slots[k]].geometry, Point(longitude, latitude))
  {
    var p := Point(longitude, latitude);
    var cands := Candidates(index.zoneIds, slots);
    var hits := Containing(cands, p, contains);
    ContainingMembers(cands, p, contains);
    forall z | z in QueryZones(index, latitude, longitude, slots, contains)
      ensures exists k :: 0 <= k < |slots| && index.zoneIds[slots[k]].zone == z && contains(index.zoneIds[slots[k]].geometry, p)
    {
      var i :| 0 <= i < |hits| && Zones(hits)[i] == z;
      assert hits[i] in hits;
      var k :| 0 <= k < |cands| && cands[k] == hits[i];
    }
    forall k | 0 <= k < |slots| && contains(index.zoneIds[slots[k]].geometry, p)
      ensures index.zoneIds[slots[k]].zone in QueryZones(index, latitude, longitude, slots, contains)
    {
      assert cands[k] in cands;
      var i :| 0 <= i < |hits| && hits[i] == cands[k];
      assert Zones(hits)[i] == index.zoneIds[slots[k]].zone;
    }
  }

  /**
   * When the quadtree reports at least every slot whose polygon contains the
   * point (its candidates over-approximate), the query finds every zone of the
   * store that contains the point.
   */
  lemma QueryFindsAll(index: ZoneStore, latitude: real, longitude: real, slots: seq<nat>, contains: (Shape, Point) -> bool)
    requires forall k :: 0 <= k < |slots| ==> slots[k] < |index.zoneIds|
    requires forall t: nat :: t < |index.zoneIds| && contains(index.zoneIds[t].geometry, Point(longitude, latitude)) ==> t in slots
    ensures forall t :: 0 <= t < |index.zoneIds| && contains(index.zoneIds[t].geometry, Point(longitude, latitude)) ==>
      index.zoneIds[t].zone in QueryZones(index, latitude, longitude, slots, contains)
  {
    QueryExactly(index, latitude, longitude, slots, contains);
    forall t | 0 <= t < |index.zoneIds| && contains(index.zoneIds[t].geometry, Point(longitude, latitude))
      ensures index.zoneIds[t].zone in QueryZones(index, latitude, longitude, slots, contains)
    {
      var t': nat := t;
      assert t' in slots;
      var k :| 0 <= k < |slots| && slots[k] == t';
    }
  }

  lemma {:induction false} ContainingAll(cands: seq<Entry>, p: Point, contains: (Shape, Point) -> bool)
    requires forall k :: 0 <= k < |cands| ==> contains(cands[k].geometry, p)
    ensures Containing(cands, p, contains) == cands
  {
    if cands != [] {
      var init := cands[..|cands| - 1];
      ContainingAll(init, p, contains);
      assert cands == init + [cands[|cands| - 1]];
    }
  }

  /**
   * Zones are reported in the order the quadtree reports their slots: when
   * every candidate contains the point (two overlapping zones, say), the
   * result lists the candidates' zones in slot order.
   */
  lemma QueryKeepsSlotOrder(index: ZoneStore, latitude: real, longitude: real, slots: seq<nat>, contains: (Shape, Point) -> bool)
    requires forall k :: 0 <= k < |slots| ==> slots[k] < |index.zoneIds|
    requires forall k :: 0 <= k < |slots| ==> contains(index.zoneIds[slots[k]].geometry, Point(longitude, latitude))
    ensures |QueryZones(index, latitude, longitude, slots, contains)| == |slots|
    ensures forall k :: 0 <= k < |slots| ==>
      QueryZones(index, latitude, longitude, slots, contains)[k] == index.zoneIds[slots[k]].zone
  {
    ContainingAll(Candidates(index.zoneIds, slots), Point(longitude, latitude), contains);
  }

  // ---- polyline query ----

  /**
   * The points of a flat (lat, lon, lat, lon, ...) array: a trailing odd
   * value is ignored, and a point's x is the longitude.
   */
  function PathPoints(line: seq<real>): (pts: seq<Point>)
    ensures |pts| == |line| / 2
    ensures forall k :: 0 <= k < |pts| ==> pts[k] == Point(line[2 * k + 1], line[2 * k])
    decreases |line|
  {
    if |line| < 2 then [] else [Point(line[1], line[0])] + PathPoints(line[2..])
  }

  /** The point-reading loop of queryPolyline. */
  method LinePoints(line: seq<real>) returns (points: seq<Point>)
    ensures points == PathPoints(line)
  {
    points := [];
    var i := 0;
    while i < |line| - 1
      invariant i == 2 * |points| && i <= |line|
      invariant forall k :: 0 <= k < |points| ==> points[k] == Point(line[2 * k + 1], line[2 * k])
    {
      var p := Point(line[i + 1], line[i]);
      points := points + [p];
      i := i + 2;
    }
  }

  /** The loop of queryPolyline that collects the broad-phase candidates. */
  method GatherCandidates(index: ZoneStore, slots: seq<nat>) returns (entries: seq<Entry>)
    requires forall k :: 0 <= k < |slots| ==> slots[k] < |index.zoneIds|
    ensures entries == Candidates(index.zoneIds, slots)
  {
    entries := [];
    for i := 0 to |slots|
      invariant entries == Candidates(index.zoneIds, slots[..i])
    {
      var element := slots[i];
      CandidatesSnoc(index.zoneIds, slots, i);
      entries := entries + [index.zoneIds[element]];
    }
    assert slots[..|slots|] == slots;
  }

  /**
   * The sweep of queryPolyline over the points with a fixed candidate list.
   * `currentEntry` is the open span's entries, or None when the next point
   * must pick them afresh; `lastWasEmpty` records a pending run of uncovered
   * points. Some iterations do not advance `index`: after a run of uncovered
   * points ends, and when a span closes, the same point is looked at again.
   */
  method Sweep(points: seq<Point>, cands: seq<Entry>, contains: (Shape, Point) -> bool)
    returns (spans: seq<Span>)
    ensures spans == Segments(points, cands, contains, 0)
  {
    ghost var all := Segments(points, cands, contains, 0);
    var currentEntry: Option<seq<Entry>> := None;
    var index := 0;
    var lastWasEmpty := false;
    spans := [];
    while index < |points|
      invariant 0 <= index <= |points|
      invariant currentEntry.Some? ==> currentEntry.value != [] && !lastWasEmpty
      invariant spans + Remaining(points, cands, contains, currentEntry, lastWasEmpty, index) == all
      decreases |points| - index, if lastWasEmpty then 2 else if currentEntry.Some? then 1 else 0
    {
      var p := points[index];
      if currentEntry.None? {
        var s := Containing(cands, p, contains);
        if s == [] {
          StepUncovered(points, cands, contains, spans, all, lastWasEmpty, index);
          currentEntry := None;
          lastWasEmpty := true;
          index := index + 1;
          continue;
        }
        if lastWasEmpty {
          StepGapEnd(points, cands, contains, spans, all, index);
        } else {
          StepOpen(points, cands, contains, spans, all, index);
        }
        currentEntry := Some(s);
      }
      var entries := currentEntry.value;
      if lastWasEmpty {
        lastWasEmpty := false;
        spans := spans + [Span({}, (index - 1) * 2 + 1)];
        continue;
      }
      if AllContain(entries, p, contains) {
        if index == |points| - 1 {
          StepLast(points, cands, contains, spans, all, entries, index);
          spans := spans + [Span(ZoneSet(entries), index * 2 + 1)];
        } else {
          StepExtend(points, cands, contains, spans, all, entries, index);
        }
        index := index + 1;
      } else {
        StepBreak(points, cands, contains, spans, all, entries, index);
        spans := spans + [Span(ZoneSet(entries), (index - 1) * 2 + 1)];
        currentEntry := None;
      }
    }
    SweepDone(points, cands, contains, currentEntry, lastWasEmpty);
  }

  /** Why queryPolyline throws: with no point, points.get(0) is out of range. */
  datatype PolylineError = NoPoints

  /**
   * Index.queryPolyline: read the points, ask the quadtree once for the
   * candidates of the whole path (`slots`), then sweep.
   */
  method QueryPolyline(index: ZoneStore, line: seq<real>, slots: seq<nat>, contains: (Shape, Point) -> bool)
    returns (r: Result<seq<Span>, PolylineError>)
    requires forall k :: 0 <= k < |slots| ==> slots[k] < |index.zoneIds|
    ensures r.Failure? <==> |line| < 2
    ensures r.Success? ==> r.value == Segments(PathPoints(line), Candidates(index.zoneIds, slots), contains, 0)
  {
    var points := LinePoints(line);
    if |points| == 0 {
      return Failure(NoPoints);
    }
    var potentiallyMatchingEntries := GatherCandidates(index, slots);
    var spans := Sweep(points, potentiallyMatchingEntries, contains);
    r := Success(spans);
  }
}
