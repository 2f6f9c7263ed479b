/** Geographic points, the inclusive bounding-box crossing filter, node
    reference resolution, the local planar projection and the centroid. */
module Geo {
  import opened Prelude
  import opened OsmModel
  import opened Reals

  /** A `(lon, lat)` pair in degrees. */
  datatype GeoPoint = GeoPoint(lon: real, lat: real)

  /** A projected point: `x` east, `z` north, in scene units. */
  datatype LocalPoint = LocalPoint(x: real, z: real)

  /** Degrees-to-scene-units factor of the flat projection. */
  const SCALE: real := 2000.0

  // ---------------------------------------------------------------------------
  // Bounding box of a point list: `lons, lats = zip(*coords)`, `min`, `max`.

  function Lons(ps: seq<GeoPoint>): (r: seq<real>)
    ensures |r| == |ps| && forall i :: 0 <= i < |ps| ==> r[i] == ps[i].lon
  {
    seq(|ps|, i requires 0 <= i < |ps| => ps[i].lon)
  }

  function Lats(ps: seq<GeoPoint>): (r: seq<real>)
    ensures |r| == |ps| && forall i :: 0 <= i < |ps| ==> r[i] == ps[i].lat
  {
    seq(|ps|, i requires 0 <= i < |ps| => ps[i].lat)
  }

  /** The area filter shared by every handler: the point list's bounding box
      overlaps `b`, every comparison inclusive. */
  predicate Crosses(ps: seq<GeoPoint>, b: Bounds)
    requires |ps| > 0
  {
    && Min(Lons(ps)) <= b.maxLon
    && Max(Lons(ps)) >= b.minLon
    && Min(Lats(ps)) <= b.maxLat
    && Max(Lats(ps)) >= b.minLat
  }

  /** The filter, point by point: on each of the four sides SOME point lies on
      the inner side of the boundary (not necessarily the same point). */
  lemma CrossesIff(ps: seq<GeoPoint>, b: Bounds)
    requires |ps| > 0
    ensures Crosses(ps, b) <==>
      && (exists i :: 0 <= i < |ps| && ps[i].lon <= b.maxLon)
      && (exists i :: 0 <= i < |ps| && ps[i].lon >= b.minLon)
      && (exists i :: 0 <= i < |ps| && ps[i].lat <= b.maxLat)
      && (exists i :: 0 <= i < |ps| && ps[i].lat >= b.minLat)
  {
    var lons, lats := Lons(ps), Lats(ps);
    if Crosses(ps, b) {
      var a :| 0 <= a < |lons| && Min(lons) == lons[a];
      var c :| 0 <= c < |lons| && Max(lons) == lons[c];
      var d :| 0 <= d < |lats| && Min(lats) == lats[d];
      var e :| 0 <= e < |lats| && Max(lats) == lats[e];
      assert ps[a].lon <= b.maxLon && ps[c].lon >= b.minLon;
      assert ps[d].lat <= b.maxLat && ps[e].lat >= b.minLat;
    }
  }

  /** A way with one point inside the area always passes the filter. */
  lemma PointInsideCrosses(ps: seq<GeoPoint>, b: Bounds, i: nat)
    requires i < |ps|
    requires b.minLon <= ps[i].lon <= b.maxLon && b.minLat <= ps[i].lat <= b.maxLat
    ensures Crosses(ps, b)
  {
    CrossesIff(ps, b);
  }

  // ---------------------------------------------------------------------------
  // Node reference resolution.

  /** Resolve each reference in order, dropping the ones the lookup misses:
      the `for ref in refs: if ref in nodes: coords.append(nodes[ref])` loop. */
  function Resolve(refs: seq<int>, lookup: int -> Option<GeoPoint>): (ps: seq<GeoPoint>)
    ensures |ps| <= |refs|
    ensures |ps| == 0 <==> forall i :: 0 <= i < |refs| ==> lookup(refs[i]).None?
  {
    if |refs| == 0 then []
    else
      var rest := Resolve(refs[1..], lookup);
      assert forall i :: 1 <= i < |refs| ==> refs[i] == refs[1..][i - 1];
      match lookup(refs[0])
      case Some(p) => [p] + rest
      case None => rest
  }

  /** Resolution works reference by reference, so it keeps the references'
      order: resolving a concatenation concatenates the resolutions. */
  lemma {:induction false} ResolveAppend(a: seq<int>, b: seq<int>, lookup: int -> Option<GeoPoint>)
    ensures Resolve(a + b, lookup) == Resolve(a, lookup) + Resolve(b, lookup)
  {
    if |a| > 0 {
      assert (a + b)[0] == a[0];
      assert (a + b)[1..] == a[1..] + b;
      ResolveAppend(a[1..], b, lookup);
    } else {
      assert a + b == b;
    }
  }

  /** A single reference resolves to its node or to nothing. */
  lemma ResolveOne(r: int, lookup: int -> Option<GeoPoint>)
    ensures Resolve([r], lookup) == match lookup(r) case Some(p) => [p] case None => []
  {
  }

  /** The references that resolve, in order (`node_refs` in the OSM handler). */
  function KnownRefs(refs: seq<int>, lookup: int -> Option<GeoPoint>): (r: seq<int>)
    ensures |r| <= |refs|
    ensures forall i :: 0 <= i < |r| ==> r[i] in refs && lookup(r[i]).Some?
  {
    if |refs| == 0 then []
    else
      var rest := KnownRefs(refs[1..], lookup);
      assert forall x :: x in refs[1..] ==> x in refs;
      if lookup(refs[0]).Some? then [refs[0]] + rest else rest
  }

  /** Resolving the filtered references gives the same points as resolving all. */
  lemma {:induction false} ResolveKnownRefs(refs: seq<int>, lookup: int -> Option<GeoPoint>)
    ensures Resolve(KnownRefs(refs, lookup), lookup) == Resolve(refs, lookup)
    ensures |KnownRefs(refs, lookup)| == |Resolve(refs, lookup)|
  {
    if |refs| > 0 {
      ResolveKnownRefs(refs[1..], lookup);
      if lookup(refs[0]).Some? {
        assert ([refs[0]] + KnownRefs(refs[1..], lookup))[1..] == KnownRefs(refs[1..], lookup);
      }
    }
  }

  /** Lookup in a node dictionary. */
  function InMap(nodes: map<int, GeoPoint>): int -> Option<GeoPoint>
  {
    id => if id in nodes then Some(nodes[id]) else None
  }

  // ---------------------------------------------------------------------------
  // Projection into the local plane. The handler fixes `scale` to `SCALE`.

  /** `((lon - c.lon) * scale, (lat - c.lat) * scale)` */
  function Project(p: GeoPoint, c: GeoPoint, scale: real): LocalPoint {
    LocalPoint(Shift(p.lon, c.lon, scale), Shift(p.lat, c.lat, scale))
  }

  /** The inverse of `Project` for the same centre and scale. */
  function Unproject(q: LocalPoint, c: GeoPoint, scale: real): GeoPoint
    requires scale != 0.0
  {
    GeoPoint(q.x / scale + c.lon, q.z / scale + c.lat)
  }

  /** `transform_coordinates`: project every point, in order. */
  function Transform(ps: seq<GeoPoint>, c: GeoPoint, scale: real): (r: seq<LocalPoint>)
    ensures |r| == |ps|
    ensures forall i :: 0 <= i < |ps| ==> r[i] == Project(ps[i], c, scale)
  {
    if |ps| == 0 then [] else [Project(ps[0], c, scale)] + Transform(ps[1..], c, scale)
  }

  function Untransform(qs: seq<LocalPoint>, c: GeoPoint, scale: real): (r: seq<GeoPoint>)
    requires scale != 0.0
    ensures |r| == |qs|
    ensures forall i :: 0 <= i < |qs| ==> r[i] == Unproject(qs[i], c, scale)
  {
    if |qs| == 0 then [] else [Unproject(qs[0], c, scale)] + Untransform(qs[1..], c, scale)
  }

  lemma ProjectInverse(p: GeoPoint, c: GeoPoint, scale: real)
    requires scale != 0.0
    ensures Unproject(Project(p, c, scale), c, scale) == p
  {
    var q := Project(p, c, scale);
    assert q.x / scale == p.lon - c.lon;
    assert q.z / scale == p.lat - c.lat;
  }

  /** The projection loses nothing: undoing it gives back the geographic points,
      in the same order. */
  lemma TransformRoundTrip(ps: seq<GeoPoint>, c: GeoPoint, scale: real)
    requires scale != 0.0
    ensures Untransform(Transform(ps, c, scale), c, scale) == ps
  {
    var back := Untransform(Transform(ps, c, scale), c, scale);
    forall i | 0 <= i < |ps| ensures back[i] == ps[i] {
      ProjectInverse(ps[i], c, scale);
    }
  }

  /** The centre maps to the origin; with a positive scale, east is +x and
      north is +z. */
  lemma ProjectOrientation(p: GeoPoint, c: GeoPoint, scale: real)
    requires scale > 0.0
    ensures Project(c, c, scale) == LocalPoint(0.0, 0.0)
    ensures (p.lon > c.lon <==> Project(p, c, scale).x > 0.0)
    ensures (p.lat > c.lat <==> Project(p, c, scale).z > 0.0)
  {
  }

  // ---------------------------------------------------------------------------
  // The centroid.

  /** The arithmetic mean of longitudes and of latitudes; `None` for no points. */
  function Centroid(ps: seq<GeoPoint>): (r: Option<GeoPoint>)
    ensures r.None? <==> |ps| == 0
  {
    if |ps| == 0 then None
    else Some(GeoPoint(Sum(Lons(ps)) / (|ps| as real), Sum(Lats(ps)) / (|ps| as real)))
  }

  /** The centre lies inside the bounding box of the points it averages. */
  lemma CentroidWithinBox(ps: seq<GeoPoint>)
    requires |ps| > 0
    ensures Centroid(ps).Some?
    ensures Min(Lons(ps)) <= Centroid(ps).value.lon <= Max(Lons(ps))
    ensures Min(Lats(ps)) <= Centroid(ps).value.lat <= Max(Lats(ps))
  {
    var lons, lats := Lons(ps), Lats(ps);
    MeanWithin(lons, Min(lons), Max(lons));
    MeanWithin(lats, Min(lats), Max(lats));
  }

  /** One mean over everything, not per group: the centroid of `a + b` is the
      count-weighted mean of the two groups' centroids. */
  lemma CentroidOfUnion(a: seq<GeoPoint>, b: seq<GeoPoint>)
    requires |a| > 0 && |b| > 0
    ensures var c, ca, cb := Centroid(a + b).value, Centroid(a).value, Centroid(b).value;
      && (|a + b| as real) * c.lon == (|a| as real) * ca.lon + (|b| as real) * cb.lon
      && (|a + b| as real) * c.lat == (|a| as real) * ca.lat + (|b| as real) * cb.lat
  {
    assert Lons(a + b) == Lons(a) + Lons(b);
    assert Lats(a + b) == Lats(a) + Lats(b);
    MeanOfConcat(Lons(a), Lons(b));
    MeanOfConcat(Lats(a), Lats(b));
  }

  function LocalXs(qs: seq<LocalPoint>): (r: seq<real>)
    ensures |r| == |qs| && forall i :: 0 <= i < |qs| ==> r[i] == qs[i].x
  {
    seq(|qs|, i requires 0 <= i < |qs| => qs[i].x)
  }

  function LocalZs(qs: seq<LocalPoint>): (r: seq<real>)
    ensures |r| == |qs| && forall i :: 0 <= i < |qs| ==> r[i] == qs[i].z
  {
    seq(|qs|, i requires 0 <= i < |qs| => qs[i].z)
  }

  /** Local x coordinates are the longitudes shifted by the centre and scaled. */
  lemma TransformShiftsX(ps: seq<GeoPoint>, c: GeoPoint, scale: real)
    ensures ShiftedBy(Lons(ps), LocalXs(Transform(ps, c, scale)), c.lon, scale)
  {
    var qs, lons := Transform(ps, c, scale), Lons(ps);
    var xs := LocalXs(qs);
    forall i | 0 <= i < |ps| ensures xs[i] == Shift(lons[i], c.lon, scale) {
      assert qs[i] == Project(ps[i], c, scale);
    }
  }

  /** Local z coordinates are the latitudes shifted by the centre and scaled. */
  lemma TransformShiftsZ(ps: seq<GeoPoint>, c: GeoPoint, scale: real)
    ensures ShiftedBy(Lats(ps), LocalZs(Transform(ps, c, scale)), c.lat, scale)
  {
    var qs, lats := Transform(ps, c, scale), Lats(ps);
    var zs := LocalZs(qs);
    forall i | 0 <= i < |ps| ensures zs[i] == Shift(lats[i], c.lat, scale) {
      assert qs[i] == Project(ps[i], c, scale);
    }
  }

  /** Projected around their own centroid, the points are balanced: their
      local x and z coordinates each sum to zero. */
  lemma CentredPointsBalance(ps: seq<GeoPoint>, c: GeoPoint, scale: real)
    requires Centroid(ps) == Some(c)
    ensures Sum(LocalXs(Transform(ps, c, scale))) == 0.0
    ensures Sum(LocalZs(Transform(ps, c, scale))) == 0.0
  {
    var qs := Transform(ps, c, scale);
    TransformShiftsX(ps, c, scale);
    TransformShiftsZ(ps, c, scale);
    assert c.lon == Sum(Lons(ps)) / (|Lons(ps)| as real);
    assert c.lat == Sum(Lats(ps)) / (|Lats(ps)| as real);
    SumAroundMean(Lons(ps), LocalXs(qs), c.lon, scale);
    SumAroundMean(Lats(ps), LocalZs(qs), c.lat, scale);
  }
}
