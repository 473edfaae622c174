/**
 * What Index.queryPolyline computes, stated as functions of the walked points
 * and the fixed broad-phase candidates: the span decomposition `Segments`, and
 * a span-by-span description `Describes` that the decomposition is proved to
 * be the only solution of. The imperative sweep itself is Index.Sweep.
 */
module Polyline {
  import opened Wrappers
  import opened Geometry

  /** SameZoneSpan: the zone ids of a run of points and the flat-array index of the run's last longitude. */
  datatype Span = Span(zones: set<string>, endIndex: int)

  /** The zone ids of a list of entries, as a set (SameZoneSpan.fromIndexEntries). */
  function ZoneSet(s: seq<Entry>): (r: set<string>)
    ensures s != [] ==> r != {}
  {
    if s == [] then {} else {s[0].zone} + ZoneSet(s[1..])
  }

  /** Every entry of `s` contains `p` (the allMatch test of the sweep). */
  predicate AllContain(s: seq<Entry>, p: Point, contains: (Shape, Point) -> bool) {
    forall e :: e in s ==> contains(e.geometry, p)
  }

  /** The point at `k` is covered: some candidate contains it. */
  predicate Covered(pts: seq<Point>, cands: seq<Entry>, contains: (Shape, Point) -> bool, k: nat)
    requires k < |pts|
  {
    Containing(cands, pts[k], contains) != []
  }

  /** The first position from `i` on whose point is not contained by every entry of `s`, or |pts|. */
  function Extent(pts: seq<Point>, s: seq<Entry>, contains: (Shape, Point) -> bool, i: nat): (j: nat)
    requires i <= |pts|
    ensures i <= j <= |pts|
    ensures forall k :: i <= k < j ==> AllContain(s, pts[k], contains)
    ensures j < |pts| ==> !AllContain(s, pts[j], contains)
    decreases |pts| - i
  {
    if i == |pts| || !AllContain(s, pts[i], contains) then i else Extent(pts, s, contains, i + 1)
  }

  /** The first covered position from `i` on, or |pts|. */
  function NextCovered(pts: seq<Point>, cands: seq<Entry>, contains: (Shape, Point) -> bool, i: nat): (j: nat)
    requires i <= |pts|
    ensures i <= j <= |pts|
    ensures forall k :: i <= k < j ==> !Covered(pts, cands, contains, k)
    ensures j < |pts| ==> Covered(pts, cands, contains, j)
    decreases |pts| - i
  {
    if i == |pts| || Covered(pts, cands, contains, i) then i else NextCovered(pts, cands, contains, i + 1)
  }

  /**
   * The spans produced for the points from position `i` on. A covered point
   * opens a span whose set is the candidates containing it; the span grows
   * while every one of those candidates contains the next point. A run of
   * uncovered points yields one empty span, but only when a covered point
   * follows it.
   */
  function Segments(pts: seq<Point>, cands: seq<Entry>, contains: (Shape, Point) -> bool, i: nat): seq<Span>
    requires i <= |pts|
    decreases |pts| - i
  {
    if i == |pts| then []
    else
      var s := Containing(cands, pts[i], contains);
      if s == [] then
        var g := NextCovered(pts, cands, contains, i + 1);
        if g == |pts| then [] else [Span({}, 2 * g - 1)] + Segments(pts, cands, contains, g)
      else
        var e := Extent(pts, s, contains, i + 1);
        [Span(ZoneSet(s), 2 * e - 1)] + Segments(pts, cands, contains, e)
  }

  /** What is still to be emitted when a run of uncovered points reaches position `i`. */
  function GapRest(pts: seq<Point>, cands: seq<Entry>, contains: (Shape, Point) -> bool, i: nat): seq<Span>
    requires i <= |pts|
  {
    var g := NextCovered(pts, cands, contains, i);
    if g == |pts| then [] else [Span({}, 2 * g - 1)] + Segments(pts, cands, contains, g)
  }

  /** What is still to be emitted when a span with entries `s` is open at position `i`. */
  function RunRest(pts: seq<Point>, cands: seq<Entry>, contains: (Shape, Point) -> bool, s: seq<Entry>, i: nat): seq<Span>
    requires i <= |pts|
  {
    if i == |pts| then []
    else
      var e := Extent(pts, s, contains, i);
      [Span(ZoneSet(s), 2 * e - 1)] + Segments(pts, cands, contains, e)
  }

  /** The last point a span covers. */
  function LastPoint(sp: Span): int {
    Half(sp.endIndex - 1)
  }

  /** n / 2 for n >= 0, written out so that the solver sees no division. */
  function Half(n: int): int
    decreases if n < 0 then 0 else n
  {
    if n < 2 then 0 else 1 + Half(n - 2)
  }

  lemma {:induction false} HalfDouble(l: nat)
    ensures Half(2 * l) == l
  {
    if l > 0 { HalfDouble(l - 1); }
  }

  /**
   * `sp` is the span list for the points from `i` on, stated span by span:
   * each end index is odd and names a point at or after the span's start;
   * an empty span covers only uncovered points and is followed by a covered
   * one; a non-empty span's set is the zones of the candidates containing its
   * first point, all of them contain every point of the span, and one of them
   * misses the next point; the next span starts right after; and when no span
   * is left, no point is covered.
   */
  predicate Describes(pts: seq<Point>, cands: seq<Entry>, contains: (Shape, Point) -> bool, sp: seq<Span>, i: nat)
    requires i <= |pts|
    decreases |sp|
  {
    if sp == [] then
      Uncovered(pts, cands, contains, i, |pts|)
    else
      var last := LastPoint(sp[0]);
      && sp[0].endIndex == 2 * last + 1
      && i <= last < |pts|
      && (if sp[0].zones == {} then GapSpan(pts, cands, contains, i, last)
          else RunSpan(pts, cands, contains, i, last, sp[0].zones))
      && Describes(pts, cands, contains, sp[1..], last + 1)
  }

  /** No point at a position in [i, j) is covered. */
  predicate Uncovered(pts: seq<Point>, cands: seq<Entry>, contains: (Shape, Point) -> bool, i: nat, j: nat)
    requires i <= j <= |pts|
  {
    forall k :: i <= k < j ==> !Covered(pts, cands, contains, k)
  }

  /** The points from `i` to `last` are uncovered, and a covered point follows. */
  predicate GapSpan(pts: seq<Point>, cands: seq<Entry>, contains: (Shape, Point) -> bool, i: nat, last: nat)
    requires i <= last < |pts|
  {
    Uncovered(pts, cands, contains, i, last + 1) && last + 1 < |pts| && Covered(pts, cands, contains, last + 1)
  }

  /**
   * The points from `i` to `last` form one span with the given zones: the
   * candidates containing point `i` give the zones, all of them contain every
   * point up to `last`, and one of them misses the point after.
   */
  predicate RunSpan(pts: seq<Point>, cands: seq<Entry>, contains: (Shape, Point) -> bool, i: nat, last: nat, zones: set<string>)
    requires i <= last < |pts|
  {
    var s := Containing(cands, pts[i], contains);
    && s != [] && zones == ZoneSet(s)
    && (forall k :: i <= k <= last ==> AllContain(s, pts[k], contains))
    && (last + 1 < |pts| ==> !AllContain(s, pts[last + 1], contains))
  }

  // ---- unfolding facts used by the sweep's loop invariant ----

  /**
   * What the sweep still has to emit in a given state: the open span's
   * entries (or None), whether a run of uncovered points is pending, and the
   * position of the next point to look at.
   */
  function Remaining(pts: seq<Point>, cands: seq<Entry>, contains: (Shape, Point) -> bool,
                     current: Option<seq<Entry>>, lastWasEmpty: bool, i: nat): seq<Span>
    requires i <= |pts|
  {
    match current
    case None => if lastWasEmpty then GapRest(pts, cands, contains, i) else Segments(pts, cands, contains, i)
    case Some(s) => RunRest(pts, cands, contains, s, i)
  }

  lemma GapRestSkip(pts: seq<Point>, cands: seq<Entry>, contains: (Shape, Point) -> bool, i: nat)
    requires i < |pts| && !Covered(pts, cands, contains, i)
    ensures GapRest(pts, cands, contains, i) == GapRest(pts, cands, contains, i + 1)
  {
  }

  lemma GapStart(pts: seq<Point>, cands: seq<Entry>, contains: (Shape, Point) -> bool, i: nat)
    requires i < |pts| && !Covered(pts, cands, contains, i)
    ensures Segments(pts, cands, contains, i) == GapRest(pts, cands, contains, i + 1)
  {
  }

  lemma GapEnd(pts: seq<Point>, cands: seq<Entry>, contains: (Shape, Point) -> bool, i: nat)
    requires i < |pts| && Covered(pts, cands, contains, i)
    ensures GapRest(pts, cands, contains, i) == [Span({}, 2 * i - 1)] + Segments(pts, cands, contains, i)
  {
  }

  lemma RunStart(pts: seq<Point>, cands: seq<Entry>, contains: (Shape, Point) -> bool, i: nat)
    requires i < |pts| && Covered(pts, cands, contains, i)
    ensures Segments(pts, cands, contains, i) == RunRest(pts, cands, contains, Containing(cands, pts[i], contains), i)
  {
    var s := Containing(cands, pts[i], contains);
    ContainingMembers(cands, pts[i], contains);
    assert AllContain(s, pts[i], contains);
    assert Extent(pts, s, contains, i) == Extent(pts, s, contains, i + 1);
  }

  lemma RunExtend(pts: seq<Point>, cands: seq<Entry>, contains: (Shape, Point) -> bool, s: seq<Entry>, i: nat)
    requires i + 1 < |pts| && AllContain(s, pts[i], contains)
    ensures RunRest(pts, cands, contains, s, i) == RunRest(pts, cands, contains, s, i + 1)
  {
  }

  lemma RunLast(pts: seq<Point>, cands: seq<Entry>, contains: (Shape, Point) -> bool, s: seq<Entry>, i: nat)
    requires i + 1 == |pts| && AllContain(s, pts[i], contains)
    ensures RunRest(pts, cands, contains, s, i) == [Span(ZoneSet(s), 2 * i + 1)]
  {
  }

  lemma RunBreak(pts: seq<Point>, cands: seq<Entry>, contains: (Shape, Point) -> bool, s: seq<Entry>, i: nat)
    requires i < |pts| && !AllContain(s, pts[i], contains)
    ensures RunRest(pts, cands, contains, s, i) == [Span(ZoneSet(s), 2 * i - 1)] + Segments(pts, cands, contains, i)
  {
    assert Extent(pts, s, contains, i) == i;
  }

  // Each step of the sweep keeps `spans + Remaining(state) == all`, where
  // `spans` is what has been emitted so far.

  /** An uncovered point extends (or starts) the pending run of uncovered points. */
  lemma StepUncovered(pts: seq<Point>, cands: seq<Entry>, contains: (Shape, Point) -> bool,
                      spans: seq<Span>, all: seq<Span>, lastWasEmpty: bool, i: nat)
    requires i < |pts| && !Covered(pts, cands, contains, i)
    requires spans + Remaining(pts, cands, contains, None, lastWasEmpty, i) == all
    ensures spans + Remaining(pts, cands, contains, None, true, i + 1) == all
  {
    if lastWasEmpty {
      GapRestSkip(pts, cands, contains, i);
    } else {
      GapStart(pts, cands, contains, i);
    }
  }

  /** A covered point after a run of uncovered points emits the run's empty span and opens a span. */
  lemma StepGapEnd(pts: seq<Point>, cands: seq<Entry>, contains: (Shape, Point) -> bool,
                   spans: seq<Span>, all: seq<Span>, i: nat)
    requires i < |pts| && Covered(pts, cands, contains, i)
    requires spans + Remaining(pts, cands, contains, None, true, i) == all
    ensures (spans + [Span({}, (i - 1) * 2 + 1)]) + Remaining(pts, cands, contains, Some(Containing(cands, pts[i], contains)), false, i) == all
  {
    GapEnd(pts, cands, contains, i);
    RunStart(pts, cands, contains, i);
    var gap := [Span({}, (i - 1) * 2 + 1)];
    var rest := Remaining(pts, cands, contains, Some(Containing(cands, pts[i], contains)), false, i);
    assert (i - 1) * 2 + 1 == 2 * i - 1;
    assert Remaining(pts, cands, contains, None, true, i) == gap + rest;
    assert spans + (gap + rest) == (spans + gap) + rest;
  }

  /** A covered point with no open span and no pending run opens a span with the entries containing it. */
  lemma StepOpen(pts: seq<Point>, cands: seq<Entry>, contains: (Shape, Point) -> bool,
                 spans: seq<Span>, all: seq<Span>, i: nat)
    requires i < |pts| && Covered(pts, cands, contains, i)
    requires spans + Remaining(pts, cands, contains, None, false, i) == all
    ensures spans + Remaining(pts, cands, contains, Some(Containing(cands, pts[i], contains)), false, i) == all
    ensures AllContain(Containing(cands, pts[i], contains), pts[i], contains)
  {
    ContainingMembers(cands, pts[i], contains);
    RunStart(pts, cands, contains, i);
  }

  /** The open span takes in a point that is not the last. */
  lemma StepExtend(pts: seq<Point>, cands: seq<Entry>, contains: (Shape, Point) -> bool,
                   spans: seq<Span>, all: seq<Span>, s: seq<Entry>, i: nat)
    requires i + 1 < |pts| && AllContain(s, pts[i], contains)
    requires spans + Remaining(pts, cands, contains, Some(s), false, i) == all
    ensures spans + Remaining(pts, cands, contains, Some(s), false, i + 1) == all
  {
    RunExtend(pts, cands, contains, s, i);
  }

  /** The open span takes in the last point and is emitted. */
  lemma StepLast(pts: seq<Point>, cands: seq<Entry>, contains: (Shape, Point) -> bool,
                 spans: seq<Span>, all: seq<Span>, s: seq<Entry>, i: nat)
    requires i + 1 == |pts| && AllContain(s, pts[i], contains)
    requires spans + Remaining(pts, cands, contains, Some(s), false, i) == all
    ensures (spans + [Span(ZoneSet(s), i * 2 + 1)]) + Remaining(pts, cands, contains, Some(s), false, i + 1) == all
  {
    RunLast(pts, cands, contains, s, i);
    assert Remaining(pts, cands, contains, Some(s), false, i + 1) == [];
  }

  /** A point that some entry of the open span misses closes the span at the point before. */
  lemma StepBreak(pts: seq<Point>, cands: seq<Entry>, contains: (Shape, Point) -> bool,
                  spans: seq<Span>, all: seq<Span>, s: seq<Entry>, i: nat)
    requires i < |pts| && !AllContain(s, pts[i], contains)
    requires spans + Remaining(pts, cands, contains, Some(s), false, i) == all
    ensures (spans + [Span(ZoneSet(s), (i - 1) * 2 + 1)]) + Remaining(pts, cands, contains, None, false, i) == all
  {
    RunBreak(pts, cands, contains, s, i);
    var rest := Segments(pts, cands, contains, i);
    assert spans + ([Span(ZoneSet(s), (i - 1) * 2 + 1)] + rest) == (spans + [Span(ZoneSet(s), (i - 1) * 2 + 1)]) + rest;
  }

  /** Once every point has been looked at, nothing is left to emit. */
  lemma SweepDone(pts: seq<Point>, cands: seq<Entry>, contains: (Shape, Point) -> bool, current: Option<seq<Entry>>, lastWasEmpty: bool)
    ensures Remaining(pts, cands, contains, current, lastWasEmpty, |pts|) == []
  {
  }

  // ---- the decomposition meets its description, and nothing else does ----

  lemma DescribesGap(pts: seq<Point>, cands: seq<Entry>, contains: (Shape, Point) -> bool, i: nat, g: nat, rest: seq<Span>)
    requires i < g < |pts|
    requires forall k :: i <= k < g ==> !Covered(pts, cands, contains, k)
    requires Covered(pts, cands, contains, g)
    requires Describes(pts, cands, contains, rest, g)
    ensures Describes(pts, cands, contains, [Span({}, 2 * g - 1)] + rest, i)
  {
    var sp := [Span({}, 2 * g - 1)] + rest;
    assert sp[1..] == rest;
    HalfDouble(g - 1);
  }

  lemma DescribesRun(pts: seq<Point>, cands: seq<Entry>, contains: (Shape, Point) -> bool, i: nat, e: nat, rest: seq<Span>)
    requires i < e <= |pts|
    requires Covered(pts, cands, contains, i)
    requires forall k :: i <= k < e ==> AllContain(Containing(cands, pts[i], contains), pts[k], contains)
    requires e < |pts| ==> !AllContain(Containing(cands, pts[i], contains), pts[e], contains)
    requires Describes(pts, cands, contains, rest, e)
    ensures Describes(pts, cands, contains, [Span(ZoneSet(Containing(cands, pts[i], contains)), 2 * e - 1)] + rest, i)
  {
    var sp := [Span(ZoneSet(Containing(cands, pts[i], contains)), 2 * e - 1)] + rest;
    assert sp[1..] == rest;
    HalfDouble(e - 1);
  }

  lemma SegmentsGap(pts: seq<Point>, cands: seq<Entry>, contains: (Shape, Point) -> bool, i: nat)
    requires i < |pts| && !Covered(pts, cands, contains, i)
    requires NextCovered(pts, cands, contains, i + 1) < |pts|
    requires Describes(pts, cands, contains, Segments(pts, cands, contains, NextCovered(pts, cands, contains, i + 1)), NextCovered(pts, cands, contains, i + 1))
    ensures Describes(pts, cands, contains, Segments(pts, cands, contains, i), i)
  {
    var g := NextCovered(pts, cands, contains, i + 1);
    DescribesGap(pts, cands, contains, i, g, Segments(pts, cands, contains, g));
    SegmentsGapEq(pts, cands, contains, i);
    DescribesSame(pts, cands, contains, Segments(pts, cands, contains, i), [Span({}, 2 * g - 1)] + Segments(pts, cands, contains, g), i);
  }

  lemma DescribesSame(pts: seq<Point>, cands: seq<Entry>, contains: (Shape, Point) -> bool, sp: seq<Span>, sq: seq<Span>, i: nat)
    requires i <= |pts| && sp == sq && Describes(pts, cands, contains, sq, i)
    ensures Describes(pts, cands, contains, sp, i)
  {
  }

  lemma SegmentsGapEq(pts: seq<Point>, cands: seq<Entry>, contains: (Shape, Point) -> bool, i: nat)
    requires i < |pts| && !Covered(pts, cands, contains, i)
    requires NextCovered(pts, cands, contains, i + 1) < |pts|
    ensures Segments(pts, cands, contains, i) == [Span({}, 2 * NextCovered(pts, cands, contains, i + 1) - 1)] + Segments(pts, cands, contains, NextCovered(pts, cands, contains, i + 1))
  {
  }

  lemma SegmentsRun(pts: seq<Point>, cands: seq<Entry>, contains: (Shape, Point) -> bool, i: nat)
    requires i < |pts| && Covered(pts, cands, contains, i)
    requires Describes(pts, cands, contains,
      Segments(pts, cands, contains, Extent(pts, Containing(cands, pts[i], contains), contains, i + 1)),
      Extent(pts, Containing(cands, pts[i], contains), contains, i + 1))
    ensures Describes(pts, cands, contains, Segments(pts, cands, contains, i), i)
  {
    var s := Containing(cands, pts[i], contains);
    var e := Extent(pts, s, contains, i + 1);
    ContainingMembers(cands, pts[i], contains);
    assert AllContain(s, pts[i], contains);
    DescribesRun(pts, cands, contains, i, e, Segments(pts, cands, contains, e));
    SegmentsRunEq(pts, cands, contains, i);
    DescribesSame(pts, cands, contains, Segments(pts, cands, contains, i), [Span(ZoneSet(s), 2 * e - 1)] + Segments(pts, cands, contains, e), i);
  }

  lemma SegmentsRunEq(pts: seq<Point>, cands: seq<Entry>, contains: (Shape, Point) -> bool, i: nat)
    requires i < |pts| && Covered(pts, cands, contains, i)
    ensures Segments(pts, cands, contains, i) ==
      [Span(ZoneSet(Containing(cands, pts[i], contains)), 2 * Extent(pts, Containing(cands, pts[i], contains), contains, i + 1) - 1)]
      + Segments(pts, cands, contains, Extent(pts, Containing(cands, pts[i], contains), contains, i + 1))
  {
  }

  /** The decomposition meets its description. */
  lemma {:induction false} SegmentsDescribe(pts: seq<Point>, cands: seq<Entry>, contains: (Shape, Point) -> bool, i: nat)
    requires i <= |pts|
    ensures Describes(pts, cands, contains, Segments(pts, cands, contains, i), i)
    decreases |pts| - i
  {
    if i < |pts| {
      if !Covered(pts, cands, contains, i) {
        var g := NextCovered(pts, cands, contains, i + 1);
        if g < |pts| {
          SegmentsDescribe(pts, cands, contains, g);
          SegmentsGap(pts, cands, contains, i);
        } else {
          NextCoveredIs(pts, cands, contains, i, |pts|);
        }
      } else {
        SegmentsDescribe(pts, cands, contains, Extent(pts, Containing(cands, pts[i], contains), contains, i + 1));
        SegmentsRun(pts, cands, contains, i);
      }
    }
  }

  lemma NextCoveredIs(pts: seq<Point>, cands: seq<Entry>, contains: (Shape, Point) -> bool, i: nat, j: nat)
    requires i <= j <= |pts|
    requires forall k :: i <= k < j ==> !Covered(pts, cands, contains, k)
    requires j < |pts| ==> Covered(pts, cands, contains, j)
    ensures NextCovered(pts, cands, contains, i) == j
  {
  }

  lemma ExtentIs(pts: seq<Point>, s: seq<Entry>, contains: (Shape, Point) -> bool, i: nat, j: nat)
    requires i <= j <= |pts|
    requires forall k :: i <= k < j ==> AllContain(s, pts[k], contains)
    requires j < |pts| ==> !AllContain(s, pts[j], contains)
    ensures Extent(pts, s, contains, i) == j
  {
  }

  lemma UniqueEmpty(pts: seq<Point>, cands: seq<Entry>, contains: (Shape, Point) -> bool, i: nat)
    requires i <= |pts| && Uncovered(pts, cands, contains, i, |pts|)
    ensures Segments(pts, cands, contains, i) == []
  {
    if i < |pts| {
      NextCoveredIs(pts, cands, contains, i + 1, |pts|);
      GapStart(pts, cands, contains, i);
    }
  }

  lemma UniqueGap(pts: seq<Point>, cands: seq<Entry>, contains: (Shape, Point) -> bool, sp: seq<Span>, i: nat, last: nat)
    requires i <= last < |pts| && sp != [] && sp[0] == Span({}, 2 * last + 1)
    requires GapSpan(pts, cands, contains, i, last)
    requires sp[1..] == Segments(pts, cands, contains, last + 1)
    ensures sp == Segments(pts, cands, contains, i)
  {
    assert !Covered(pts, cands, contains, i);
    NextCoveredIs(pts, cands, contains, i + 1, last + 1);
    SegmentsGapEq(pts, cands, contains, i);
    assert sp == [sp[0]] + sp[1..];
  }

  lemma UniqueRun(pts: seq<Point>, cands: seq<Entry>, contains: (Shape, Point) -> bool, sp: seq<Span>, i: nat, last: nat)
    requires i <= last < |pts| && sp != [] && sp[0].endIndex == 2 * last + 1
    requires RunSpan(pts, cands, contains, i, last, sp[0].zones)
    requires sp[1..] == Segments(pts, cands, contains, last + 1)
    ensures sp == Segments(pts, cands, contains, i)
  {
    RunHead(pts, cands, contains, sp[0], i, last);
    SegmentsRunEq(pts, cands, contains, i);
    assert sp == [sp[0]] + sp[1..];
  }

  /** The first span of a run is the one the sweep emits at `i`. */
  lemma RunHead(pts: seq<Point>, cands: seq<Entry>, contains: (Shape, Point) -> bool, head: Span, i: nat, last: nat)
    requires i <= last < |pts| && head.endIndex == 2 * last + 1
    requires RunSpan(pts, cands, contains, i, last, head.zones)
    ensures Covered(pts, cands, contains, i)
    ensures Extent(pts, Containing(cands, pts[i], contains), contains, i + 1) == last + 1
    ensures head == Span(ZoneSet(Containing(cands, pts[i], contains)), 2 * (last + 1) - 1)
  {
    ExtentIs(pts, Containing(cands, pts[i], contains), contains, i + 1, last + 1);
  }

  /** Any span list that meets the description is the decomposition. */
  lemma {:induction false} DescribesUnique(pts: seq<Point>, cands: seq<Entry>, contains: (Shape, Point) -> bool, sp: seq<Span>, i: nat)
    requires i <= |pts|
    ensures Describes(pts, cands, contains, sp, i) ==> sp == Segments(pts, cands, contains, i)
    decreases |sp|
  {
    if Describes(pts, cands, contains, sp, i) {
      if sp == [] {
        UniqueEmpty(pts, cands, contains, i);
      } else {
        var last := LastPoint(sp[0]);
        DescribesUnique(pts, cands, contains, sp[1..], last + 1);
        if sp[0].zones == {} {
          UniqueGap(pts, cands, contains, sp, i, last);
        } else {
          UniqueRun(pts, cands, contains, sp, i, last);
        }
      }
    }
  }

  /** The two characterisations agree: a span list meets the description exactly when it is the decomposition. */
  lemma DescribesExactly(pts: seq<Point>, cands: seq<Entry>, contains: (Shape, Point) -> bool, sp: seq<Span>, i: nat)
    requires i <= |pts|
    ensures Describes(pts, cands, contains, sp, i) <==> sp == Segments(pts, cands, contains, i)
  {
    SegmentsDescribe(pts, cands, contains, i);
    DescribesUnique(pts, cands, contains, sp, i);
  }

  // ---- consequences of the description ----

  /**
   * Every end index is odd (twice a point position plus one), lies between the
   * start and the last point, and the end indexes strictly increase, so there
   * are never more spans than points.
   */
  lemma {:induction false} DescribesEnds(pts: seq<Point>, cands: seq<Entry>, contains: (Shape, Point) -> bool, sp: seq<Span>, i: nat)
    requires i <= |pts|
    ensures Describes(pts, cands, contains, sp, i) ==>
      && |sp| <= |pts| - i
      && (forall k :: 0 <= k < |sp| ==>
            sp[k].endIndex == 2 * LastPoint(sp[k]) + 1 && i <= LastPoint(sp[k]) < |pts|)
      && (forall k :: 0 <= k < |sp| - 1 ==> sp[k].endIndex < sp[k + 1].endIndex)
    decreases |sp|
  {
    if Describes(pts, cands, contains, sp, i) && sp != [] {
      var last := LastPoint(sp[0]);
      DescribesEnds(pts, cands, contains, sp[1..], last + 1);
      assert forall k :: 1 <= k < |sp| ==> sp[k] == sp[1..][k - 1];
    }
  }

  /** The entries that contain a run's first point contain each later point of the run, so those points are covered. */
  lemma RunCovered(pts: seq<Point>, cands: seq<Entry>, contains: (Shape, Point) -> bool, i: nat, k: nat)
    requires i <= k < |pts| && Covered(pts, cands, contains, i)
    requires AllContain(Containing(cands, pts[i], contains), pts[k], contains)
    ensures Covered(pts, cands, contains, k)
  {
    var e := Containing(cands, pts[i], contains)[0];
    ContainingMembers(cands, pts[i], contains);
    ContainingMembers(cands, pts[k], contains);
    assert e in Containing(cands, pts[i], contains);
    assert e in Containing(cands, pts[k], contains);
  }

  /** A description that starts at a covered point starts with a non-empty span. */
  lemma DescribesCoveredStart(pts: seq<Point>, cands: seq<Entry>, contains: (Shape, Point) -> bool, sp: seq<Span>, i: nat)
    requires i < |pts| && Covered(pts, cands, contains, i) && Describes(pts, cands, contains, sp, i)
    ensures sp != [] && sp[0].zones != {}
  {
  }

  /**
   * There is no span exactly when no point is covered; otherwise the last span
   * is non-empty and ends at the last covered point, so uncovered points at the
   * end produce no span; and an empty span is always followed by a non-empty one.
   */
  lemma {:induction false} DescribesShape(pts: seq<Point>, cands: seq<Entry>, contains: (Shape, Point) -> bool, sp: seq<Span>, i: nat)
    requires i <= |pts|
    ensures Describes(pts, cands, contains, sp, i) ==>
      && (sp == [] <==> Uncovered(pts, cands, contains, i, |pts|))
      && (sp != [] ==>
            var last := LastPoint(sp[|sp| - 1]);
            && sp[|sp| - 1].zones != {}
            && 0 <= last < |pts| && Covered(pts, cands, contains, last)
            && Uncovered(pts, cands, contains, last + 1, |pts|))
      && (forall k :: 0 <= k < |sp| - 1 && sp[k].zones == {} ==> sp[k + 1].zones != {})
    decreases |sp|
  {
    if Describes(pts, cands, contains, sp, i) && sp != [] {
      var last := LastPoint(sp[0]);
      DescribesShape(pts, cands, contains, sp[1..], last + 1);
      assert forall k :: 1 <= k < |sp| ==> sp[k] == sp[1..][k - 1];
      if sp[0].zones == {} {
        assert Covered(pts, cands, contains, last + 1);
        DescribesCoveredStart(pts, cands, contains, sp[1..], last + 1);
      } else {
        assert Covered(pts, cands, contains, i);
        if |sp| == 1 {
          RunCovered(pts, cands, contains, i, last);
        }
      }
    }
  }

  /**
   * When the last point is covered, the spans reach it: the first span starts
   * at point 0 and the last one ends at flat index 2(n-1)+1.
   */
  lemma SegmentsReachCoveredEnd(pts: seq<Point>, cands: seq<Entry>, contains: (Shape, Point) -> bool)
    requires pts != [] && Covered(pts, cands, contains, |pts| - 1)
    ensures var sp := Segments(pts, cands, contains, 0);
      sp != [] && sp[|sp| - 1].endIndex == 2 * (|pts| - 1) + 1
  {
    var sp := Segments(pts, cands, contains, 0);
    SegmentsDescribe(pts, cands, contains, 0);
    DescribesShape(pts, cands, contains, sp, 0);
    DescribesEnds(pts, cands, contains, sp, 0);
    assert sp != [];
    assert LastPoint(sp[|sp| - 1]) == |pts| - 1;
  }

  /** Every zone of the set comes from an entry of the list, and every entry's zone is in the set. */
  lemma {:induction false} ZoneSetMembers(s: seq<Entry>)
    ensures forall e :: e in s ==> e.zone in ZoneSet(s)
    ensures forall z :: z in ZoneSet(s) ==> exists e :: e in s && e.zone == z
  {
    if s != [] {
      ZoneSetMembers(s[1..]);
      assert s == [s[0]] + s[1..];
    }
  }

  // ---- two concrete examples ----

  /** The zone set of one entry is that entry's zone. */
  lemma ZoneSetSingleton(e: Entry)
    ensures ZoneSet([e]) == {e.zone}
  {
    assert [e][1..] == [];
  }

  /**
   * Two neighbouring spans can carry the same zone set: two polygons of zone
   * "A" that each contain one of two points give two spans, not one.
   */
  lemma AdjacentSpansMayRepeatZones()
    ensures
      var p0 := Point(0.0, 0.0);
      var p1 := Point(1.0, 1.0);
      var g0 := Shape([[p0]]);
      var g1 := Shape([[p1]]);
      var contains := (g: Shape, p: Point) => (g == g0 && p == p0) || (g == g1 && p == p1);
      Segments([p0, p1], [Entry("A", g0), Entry("A", g1)], contains, 0) == [Span({"A"}, 1), Span({"A"}, 3)]
  {
    var p0 := Point(0.0, 0.0);
    var p1 := Point(1.0, 1.0);
    var g0 := Shape([[p0]]);
    var g1 := Shape([[p1]]);
    var contains := (g: Shape, p: Point) => (g == g0 && p == p0) || (g == g1 && p == p1);
    var pts := [p0, p1];
    var cands := [Entry("A", g0), Entry("A", g1)];
    assert cands[..1] == [Entry("A", g0)];
    assert Containing(cands, p0, contains) == [Entry("A", g0)];
    assert Containing(cands, p1, contains) == [Entry("A", g1)];
    assert Extent(pts, [Entry("A", g0)], contains, 1) == 1;
    ZoneSetSingleton(Entry("A", g0));
    ZoneSetSingleton(Entry("A", g1));
    assert Extent(pts, [Entry("A", g1)], contains, 2) == 2;
    assert Segments(pts, cands, contains, 2) == [];
    assert Segments(pts, cands, contains, 1) == [Span({"A"}, 3)];
  }

  /**
   * A candidate that joins part-way does not close the open span: polygon "A"
   * contains both points, polygon "B" only the second, and the result is one
   * span of zone "A".
   */
  lemma JoiningCandidateKeepsSpan()
    ensures
      var p0 := Point(0.0, 0.0);
      var p1 := Point(1.0, 1.0);
      var ga := Shape([[p0]]);
      var gb := Shape([[p1]]);
      var contains := (g: Shape, p: Point) => g == ga || (g == gb && p == p1);
      Segments([p0, p1], [Entry("A", ga), Entry("B", gb)], contains, 0) == [Span({"A"}, 3)]
  {
    var p0 := Point(0.0, 0.0);
    var p1 := Point(1.0, 1.0);
    var ga := Shape([[p0]]);
    var gb := Shape([[p1]]);
    var contains := (g: Shape, p: Point) => g == ga || (g == gb && p == p1);
    var pts := [p0, p1];
    var cands := [Entry("A", ga), Entry("B", gb)];
    assert cands[..1] == [Entry("A", ga)];
    assert Containing(cands, p0, contains) == [Entry("A", ga)];
    assert Extent(pts, [Entry("A", ga)], contains, 1) == 2;
    ZoneSetSingleton(Entry("A", ga));
    assert Segments(pts, cands, contains, 2) == [];
  }
}
