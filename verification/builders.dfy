/** The mesh geometry of the scene builders: the extruded building prism, the
    single-polygon water and land surfaces, and the road ribbon. */
module Builders {
  import opened Prelude
  import opened Geo
  import opened Meshes

  /** Scene units per metre of building height. */
  const HEIGHT_SCALE: real := 0.02
  /** Water sits just below the ground, land just above it. */
  const WATER_Y: real := -0.05
  const LAND_Y: real := 0.02

  /** The ground-plane trace of a list of scene points. */
  function Footprint(ps: seq<Vec3>): (r: seq<LocalPoint>)
    ensures |r| == |ps| && forall i :: 0 <= i < |ps| ==> r[i] == LocalPoint(ps[i].x, ps[i].z)
  {
    seq(|ps|, i requires 0 <= i < |ps| => LocalPoint(ps[i].x, ps[i].z))
  }

  // ---------------------------------------------------------------------------
  // Building prism.

  /** For each footprint point, a ground vertex then a roof vertex. */
  function Extrude(coords: seq<LocalPoint>, top: real): (ps: seq<Vec3>)
    ensures |ps| == 2 * |coords|
    ensures forall i :: 0 <= i < |coords| ==>
      ps[2 * i] == Vec3(coords[i].x, 0.0, coords[i].z) && ps[2 * i + 1] == Vec3(coords[i].x, top, coords[i].z)
  {
    if |coords| == 0 then []
    else
      var rest := Extrude(coords[1..], top);
      var r := [Vec3(coords[0].x, 0.0, coords[0].z), Vec3(coords[0].x, top, coords[0].z)] + rest;
      assert forall i :: 1 <= i < |coords| ==> r[2 * i] == rest[2 * (i - 1)] && r[2 * i + 1] == rest[2 * (i - 1) + 1];
      r
  }

  /** Wall `i`: up the edge at point `i`, across the roof to the next point
      (wrapping to the first), and down. */
  function SideQuad(n: nat, i: nat): (q: seq<nat>)
    requires i < n
    ensures forall x :: x in q ==> x < 2 * n
  {
    var next := (i + 1) % n;
    [2 * i, 2 * i + 1, 2 * next + 1, 2 * next]
  }

  /** Bottom face (even vertices), top face (odd vertices), then one wall per point. */
  function BuildingFaces(n: nat): seq<seq<nat>> {
    [Range(0, 2 * n, 2), Range(1, 2 * n, 2)] + seq(n, i requires 0 <= i < n => SideQuad(n, i))
  }

  /** `create_building`'s geometry for a footprint already in scene units;
      `height` is in metres. */
  function BuildingMesh(coords: seq<LocalPoint>, height: real): Mesh {
    FromFaces(Extrude(coords, height * HEIGHT_SCALE), BuildingFaces(|coords|))
  }

  /** A footprint of `n` points gives `2n` vertices and `n + 2` faces, and the
      mesh is well formed. */
  lemma BuildingCounts(coords: seq<LocalPoint>, height: real)
    ensures var m := BuildingMesh(coords, height);
      && |m.points| == 2 * |coords|
      && |m.counts| == |coords| + 2
      && WellFormed(m)
  {
    var n := |coords|;
    var faces := BuildingFaces(n);
    forall f, x | 0 <= f < |faces| && x in faces[f] ensures x < 2 * n {
      if f >= 2 {
        assert faces[f] == SideQuad(n, f - 2);
      } else if f == 1 {
        assert faces[f] == Range(1, 2 * n, 2);
      } else {
        assert faces[f] == Range(0, 2 * n, 2);
      }
    }
    WellFormedFromFaces(Extrude(coords, height * HEIGHT_SCALE), faces);
  }

  /** The bottom face is the ground vertices and the top face the roof
      vertices, each in footprint order. */
  lemma BuildingCaps(coords: seq<LocalPoint>, height: real)
    ensures var m, n := BuildingMesh(coords, height), |coords|;
      && CountsMatch(m) && |m.counts| == n + 2
      && Face(m, 0) == seq(n, i requires 0 <= i < n => 2 * i)
      && Face(m, 1) == seq(n, i requires 0 <= i < n => 2 * i + 1)
  {
    var n := |coords|;
    var pts, faces := Extrude(coords, height * HEIGHT_SCALE), BuildingFaces(n);
    FacesOf(pts, faces, 0);
    FacesOf(pts, faces, 1);
    RangeTwo(0, n);
    RangeTwo(1, n);
    assert seq(n, i requires 0 <= i < n => 2 * i + 0) == seq(n, i requires 0 <= i < n => 2 * i);
  }

  /** Face `2 + i` is wall `i`. */
  lemma BuildingWalls(coords: seq<LocalPoint>, height: real)
    ensures var m, n := BuildingMesh(coords, height), |coords|;
      && CountsMatch(m) && |m.counts| == n + 2
      && forall i :: 0 <= i < n ==> Face(m, 2 + i) == SideQuad(n, i)
  {
    var n := |coords|;
    var pts, faces := Extrude(coords, height * HEIGHT_SCALE), BuildingFaces(n);
    FacesOf(pts, faces, 0);
    forall i | 0 <= i < n ensures Face(FromFaces(pts, faces), 2 + i) == SideQuad(n, i) {
      FacesOf(pts, faces, 2 + i);
    }
  }

  /** Ground vertices lie at height 0 and roof vertices at the scaled height,
      both over the footprint point they come from. */
  lemma BuildingVertices(coords: seq<LocalPoint>, height: real)
    ensures var m := BuildingMesh(coords, height);
      forall i :: 0 <= i < |coords| ==>
        && m.points[2 * i].y == 0.0
        && m.points[2 * i + 1].y == height * 0.02
        && Footprint(m.points)[2 * i] == coords[i]
        && Footprint(m.points)[2 * i + 1] == coords[i]
  {
  }

  /** The ground vertices of a prism, read back as footprint points. */
  function GroundTrace(ps: seq<Vec3>): (r: seq<LocalPoint>)
    ensures |r| == |ps| / 2
    ensures forall i :: 0 <= i < |r| ==> r[i] == LocalPoint(ps[2 * i].x, ps[2 * i].z)
  {
    seq(|ps| / 2, i requires 0 <= i < |ps| / 2 => LocalPoint(ps[2 * i].x, ps[2 * i].z))
  }

  /** `m` is the prism over `footprint` with its roof at `top`: a ground vertex
      and a roof vertex over each footprint point, in footprint order. */
  predicate IsPrismOf(m: Mesh, footprint: seq<LocalPoint>, top: real) {
    && |m.points| == 2 * |footprint|
    && forall i :: 0 <= i < |footprint| ==>
         && m.points[2 * i] == Vec3(footprint[i].x, 0.0, footprint[i].z)
         && m.points[2 * i + 1] == Vec3(footprint[i].x, top, footprint[i].z)
  }

  /** A building mesh is the prism over its footprint at the scaled height, and
      its ground vertices give the footprint back. */
  lemma BuildingPrism(coords: seq<LocalPoint>, height: real)
    ensures IsPrismOf(BuildingMesh(coords, height), coords, height * HEIGHT_SCALE)
    ensures GroundTrace(BuildingMesh(coords, height).points) == coords
  {
  }

  /** Neighbouring walls share an edge, so the walls close into a band. */
  lemma WallsShareEdges(n: nat, i: nat)
    requires i < n
    ensures SideQuad(n, i)[2] == SideQuad(n, (i + 1) % n)[1]
    ensures SideQuad(n, i)[3] == SideQuad(n, (i + 1) % n)[0]
  {
  }

  // ---------------------------------------------------------------------------
  // Water and land: one polygon through every point.

  function Flatten(coords: seq<LocalPoint>, y: real): (ps: seq<Vec3>)
    ensures |ps| == |coords| && forall i :: 0 <= i < |coords| ==> ps[i].y == y
    ensures Footprint(ps) == coords
  {
    seq(|coords|, i requires 0 <= i < |coords| => Vec3(coords[i].x, y, coords[i].z))
  }

  /** `create_water_feature` / `create_land_feature`'s geometry: one face whose
      indices are `range(len(points))`. */
  function PolygonMesh(coords: seq<LocalPoint>, y: real): Mesh {
    FromFaces(Flatten(coords, y), [Range(0, |coords|, 1)])
  }

  function WaterMesh(coords: seq<LocalPoint>): Mesh {
    PolygonMesh(coords, WATER_Y)
  }

  function LandMesh(coords: seq<LocalPoint>): Mesh {
    PolygonMesh(coords, LAND_Y)
  }

  /** One face visiting every point once, in order, all at level `y`. */
  lemma PolygonLayout(coords: seq<LocalPoint>, y: real)
    ensures var m := PolygonMesh(coords, y);
      && WellFormed(m)
      && m.counts == [|coords|]
      && Face(m, 0) == seq(|coords|, i requires 0 <= i < |coords| => i)
      && Footprint(m.points) == coords
      && forall i :: 0 <= i < |m.points| ==> m.points[i].y == y
  {
    var n := |coords|;
    FacesOf(Flatten(coords, y), [Range(0, n, 1)], 0);
    RangeOne(n);
    WellFormedFromFaces(Flatten(coords, y), [Range(0, n, 1)]);
  }

  // ---------------------------------------------------------------------------
  // Road ribbon. `hypot(dx, dz)` stands for `(dx * dx + dz * dz) ** 0.5`.

  function SegmentDx(ps: seq<LocalPoint>, i: nat): real
    requires i + 1 < |ps|
  {
    ps[i + 1].x - ps[i].x
  }

  function SegmentDz(ps: seq<LocalPoint>, i: nat): real
    requires i + 1 < |ps|
  {
    ps[i + 1].z - ps[i].z
  }

  function SegmentLength(ps: seq<LocalPoint>, i: nat, hypot: (real, real) -> real): real
    requires i + 1 < |ps|
  {
    hypot(SegmentDx(ps, i), SegmentDz(ps, i))
  }

  /** Segment `i` gets a quad only if its length is positive. */
  predicate Kept(ps: seq<LocalPoint>, i: nat, hypot: (real, real) -> real)
    requires i + 1 < |ps|
  {
    SegmentLength(ps, i, hypot) > 0.0
  }

  /** The kept segments from `i` on, in order. */
  function KeptFrom(ps: seq<LocalPoint>, hypot: (real, real) -> real, i: nat): (r: seq<nat>)
    ensures forall j :: 0 <= j < |r| ==> i <= r[j] && r[j] + 1 < |ps| && Kept(ps, r[j], hypot)
    ensures forall j, k :: 0 <= j < k < |r| ==> r[j] < r[k]
    ensures forall s :: i <= s && s + 1 < |ps| && Kept(ps, s, hypot) ==> s in r
    decreases |ps| - i
  {
    if i + 1 >= |ps| then []
    else if Kept(ps, i, hypot) then [i] + KeptFrom(ps, hypot, i + 1)
    else KeptFrom(ps, hypot, i + 1)
  }

  /** The kept segments among `range(len(points) - 1)`. */
  function KeptSegments(ps: seq<LocalPoint>, hypot: (real, real) -> real): seq<nat> {
    KeptFrom(ps, hypot, 0)
  }

  /** `(nx, nz) = (-dz * w / L, dx * w / L)`: the segment direction turned a
      quarter and scaled to `w`. */
  function Normal(dx: real, dz: real, w: real, len: real): LocalPoint
    requires len != 0.0
  {
    LocalPoint(-dz * w / len, dx * w / len)
  }

  /** The four corners of a segment's quad: start minus offset, start plus,
      end plus, end minus. */
  function Corners(p1: LocalPoint, p2: LocalPoint, n: LocalPoint, y: real): seq<Vec3> {
    [Vec3(p1.x - n.x, y, p1.z - n.z),
     Vec3(p1.x + n.x, y, p1.z + n.z),
     Vec3(p2.x + n.x, y, p2.z + n.z),
     Vec3(p2.x - n.x, y, p2.z - n.z)]
  }

  /** `a` and `b` lie at height `y`, symmetric about `p` on the ground plane. */
  predicate Straddles(a: Vec3, b: Vec3, p: LocalPoint, y: real) {
    && a.y == y && b.y == y
    && a.x + b.x == 2.0 * p.x && a.z + b.z == 2.0 * p.z
  }

  /** A kept segment's quad: corners 0 and 1 straddle its start, corners 2 and
      3 its end, all at the surface height. */
  function SegmentCorners(ps: seq<LocalPoint>, i: nat, offset: real, y: real, hypot: (real, real) -> real): (r: seq<Vec3>)
    requires i + 1 < |ps| && Kept(ps, i, hypot)
    ensures |r| == 4
    ensures Straddles(r[0], r[1], ps[i], y) && Straddles(r[2], r[3], ps[i + 1], y)
  {
    Corners(ps[i], ps[i + 1], Normal(SegmentDx(ps, i), SegmentDz(ps, i), offset, SegmentLength(ps, i, hypot)), y)
  }

  function Quad(base: nat): seq<nat> {
    [base, base + 1, base + 2, base + 3]
  }

  function Quads(bases: seq<nat>): (r: seq<seq<nat>>)
    ensures |r| == |bases| && forall j :: 0 <= j < |bases| ==> r[j] == Quad(bases[j])
  {
    seq(|bases|, j requires 0 <= j < |bases| => Quad(bases[j]))
  }

  /** The corner blocks of the kept segments, offset by `offset` on each side. */
  function RibbonBlocks(ps: seq<LocalPoint>, offset: real, y: real, hypot: (real, real) -> real): (r: seq<seq<Vec3>>)
    ensures |r| == |KeptSegments(ps, hypot)|
    ensures forall j :: 0 <= j < |r| ==> |r[j]| == 4
  {
    var kept := KeptSegments(ps, hypot);
    seq(|kept|, j requires 0 <= j < |kept| => SegmentCorners(ps, kept[j], offset, y, hypot))
  }

  /** `create_road`'s geometry as written: the offset is the whole `width` and
      the quad of segment `i` starts at `4 * i`, counting skipped segments. */
  function RoadMeshAsWritten(ps: seq<LocalPoint>, width: real, y: real, hypot: (real, real) -> real): Mesh {
    var kept := KeptSegments(ps, hypot);
    FromFaces(Concat(RibbonBlocks(ps, width, y, hypot)),
              Quads(seq(|kept|, j requires 0 <= j < |kept| => 4 * kept[j])))
  }

  /** The intended ribbon: `width / 2` on each side, and the `j`-th emitted quad
      starts at `4 * j`. */
  function RoadMesh(ps: seq<LocalPoint>, width: real, y: real, hypot: (real, real) -> real): Mesh {
    var kept := KeptSegments(ps, hypot);
    FromFaces(Concat(RibbonBlocks(ps, width / 2.0, y, hypot)),
              Quads(seq(|kept|, j requires 0 <= j < |kept| => 4 * j)))
  }

  /** No skipped segment comes before a kept one. */
  predicate NoGapBeforeKept(ps: seq<LocalPoint>, hypot: (real, real) -> real) {
    forall a, b :: 0 <= a < b && b + 1 < |ps| && Kept(ps, b, hypot) ==> Kept(ps, a, hypot)
  }

  /** A strictly increasing list of naturals grows by at least one per step. */
  lemma {:induction false} StrictGaps(r: seq<nat>, j: nat, k: nat)
    requires forall a, b :: 0 <= a < b < |r| ==> r[a] < r[b]
    requires j <= k < |r|
    ensures r[k] - r[j] >= k - j
    decreases k - j
  {
    if j < k {
      StrictGaps(r, j + 1, k);
    }
  }

  /** A strictly increasing list of naturals below its own length is `0, 1, ...`. */
  lemma StrictBelowLength(r: seq<nat>)
    requires forall a, b :: 0 <= a < b < |r| ==> r[a] < r[b]
    requires forall j :: 0 <= j < |r| ==> r[j] < |r|
    ensures forall j :: 0 <= j < |r| ==> r[j] == j
  {
    forall j | 0 <= j < |r| ensures r[j] == j {
      StrictGaps(r, 0, j);
      StrictGaps(r, j, |r| - 1);
    }
  }

  /** From `i` on, no skipped segment precedes a kept one. */
  predicate NoGapFrom(ps: seq<LocalPoint>, hypot: (real, real) -> real, i: nat) {
    forall a, b :: i <= a < b && b + 1 < |ps| && Kept(ps, b, hypot) ==> Kept(ps, a, hypot)
  }

  /** `r` is `i, i + 1, i + 2, ...`. */
  predicate Consecutive(r: seq<nat>, i: nat) {
    forall j :: 0 <= j < |r| ==> r[j] == i + j
  }

  /** With no segment kept from `i` on, there is nothing to emit. */
  lemma {:induction false} NoneKept(ps: seq<LocalPoint>, hypot: (real, real) -> real, i: nat)
    requires forall b :: i <= b && b + 1 < |ps| ==> !Kept(ps, b, hypot)
    ensures KeptFrom(ps, hypot, i) == []
    decreases |ps| - i
  {
    if i + 1 < |ps| {
      NoneKept(ps, hypot, i + 1);
    }
  }

  /** Without a gap from `i` on, the kept segments are `i, i + 1, ...`. */
  lemma {:induction false} NoGapConsecutive(ps: seq<LocalPoint>, hypot: (real, real) -> real, i: nat)
    requires NoGapFrom(ps, hypot, i)
    ensures Consecutive(KeptFrom(ps, hypot, i), i)
    decreases |ps| - i
  {
    var r := KeptFrom(ps, hypot, i);
    if i + 1 < |ps| {
      var rest := KeptFrom(ps, hypot, i + 1);
      if Kept(ps, i, hypot) {
        assert NoGapFrom(ps, hypot, i + 1);
        NoGapConsecutive(ps, hypot, i + 1);
        assert r == [i] + rest;
        forall j | 1 <= j < |r| ensures r[j] == i + j {
          assert r[j] == rest[j - 1];
        }
      } else {
        assert forall b :: i + 1 <= b && b + 1 < |ps| ==> !Kept(ps, b, hypot);
        NoneKept(ps, hypot, i + 1);
      }
    }
  }

  /** Conversely, kept segments `i, i + 1, ...` leave no gap from `i` on. */
  lemma ConsecutiveNoGap(ps: seq<LocalPoint>, hypot: (real, real) -> real, i: nat)
    requires Consecutive(KeptFrom(ps, hypot, i), i)
    ensures NoGapFrom(ps, hypot, i)
  {
    var r := KeptFrom(ps, hypot, i);
    forall a, b | i <= a < b && b + 1 < |ps| && Kept(ps, b, hypot) ensures Kept(ps, a, hypot) {
      assert b in r;
      var k :| 0 <= k < |r| && r[k] == b;
      assert r[a - i] == a;
    }
  }

  /** A mesh of quads is well formed exactly when every quad's last index,
      `base + 3`, names a point. */
  lemma QuadsWellFormed(points: seq<Vec3>, bases: seq<nat>)
    ensures WellFormed(FromFaces(points, Quads(bases))) <==>
      forall j :: 0 <= j < |bases| ==> bases[j] + 3 < |points|
  {
    var faces := Quads(bases);
    WellFormedFromFaces(points, faces);
    if forall j :: 0 <= j < |bases| ==> bases[j] + 3 < |points| {
      forall f, x | 0 <= f < |faces| && x in faces[f] ensures x < |points| {
        assert faces[f] == Quad(bases[f]);
      }
    }
    if forall f, x :: 0 <= f < |faces| && x in faces[f] ==> x < |points| {
      forall j | 0 <= j < |bases| ensures bases[j] + 3 < |points| {
        assert bases[j] + 3 in faces[j];
      }
    }
  }

  /** The kept segments all lie below their own count exactly when no skipped
      segment precedes a kept one. */
  lemma KeptBelowCountIff(ps: seq<LocalPoint>, hypot: (real, real) -> real)
    ensures var kept := KeptSegments(ps, hypot);
      (forall j :: 0 <= j < |kept| ==> kept[j] < |kept|) <==> NoGapBeforeKept(ps, hypot)
  {
    var kept := KeptSegments(ps, hypot);
    if forall j :: 0 <= j < |kept| ==> kept[j] < |kept| {
      StrictBelowLength(kept);
      ConsecutiveNoGap(ps, hypot, 0);
    }
    if NoGapBeforeKept(ps, hypot) {
      NoGapConsecutive(ps, hypot, 0);
    }
  }

  /** The ribbon as written has 4 points and one 4-index face per kept segment;
      it is well formed exactly when no skipped segment precedes a kept one. */
  lemma RoadAsWrittenInRangeIff(ps: seq<LocalPoint>, width: real, y: real, hypot: (real, real) -> real)
    ensures var m, kept := RoadMeshAsWritten(ps, width, y, hypot), KeptSegments(ps, hypot);
      && |m.points| == 4 * |kept|
      && |m.counts| == |kept|
      && CountsMatch(m)
      && (forall j :: 0 <= j < |kept| ==> Face(m, j) == Quad(4 * kept[j]))
      && (WellFormed(m) <==> NoGapBeforeKept(ps, hypot))
  {
    var kept := KeptSegments(ps, hypot);
    var blocks := RibbonBlocks(ps, width, y, hypot);
    var bases := seq(|kept|, j requires 0 <= j < |kept| => 4 * kept[j]);
    var faces := Quads(bases);
    ConcatQuads(blocks);
    SumCounts(faces);
    QuadsWellFormed(Concat(blocks), bases);
    KeptBelowCountIff(ps, hypot);
    forall j | 0 <= j < |kept| ensures Face(FromFaces(Concat(blocks), faces), j) == Quad(4 * kept[j]) {
      FacesOf(Concat(blocks), faces, j);
    }
  }

  /** Two points at the same spot, then one a unit east: only segment 1 is kept. */
  lemma DegenerateFirstSegment(hypot: (real, real) -> real)
    requires hypot(0.0, 0.0) == 0.0 && hypot(1.0, 0.0) == 1.0
    ensures KeptSegments([LocalPoint(0.0, 0.0), LocalPoint(0.0, 0.0), LocalPoint(1.0, 0.0)], hypot) == [1]
  {
    var ps := [LocalPoint(0.0, 0.0), LocalPoint(0.0, 0.0), LocalPoint(1.0, 0.0)];
    assert SegmentDx(ps, 0) == 0.0 && SegmentDz(ps, 0) == 0.0;
    assert SegmentDx(ps, 1) == 1.0 && SegmentDz(ps, 1) == 0.0;
    assert KeptFrom(ps, hypot, 2) == [];
  }

  /** When only segment 1 is kept, the as-written ribbon emits its one quad as
      points 0-3 but indexes it 4-7. */
  lemma OnlySecondKept(ps: seq<LocalPoint>, width: real, y: real, hypot: (real, real) -> real)
    requires KeptSegments(ps, hypot) == [1]
    ensures var m := RoadMeshAsWritten(ps, width, y, hypot);
      && |m.points| == 4
      && m.indices == [4, 5, 6, 7]
      && !IndicesInRange(m)
  {
    var m := RoadMeshAsWritten(ps, width, y, hypot);
    var kept := KeptSegments(ps, hypot);
    assert |m.points| == 4 by {
      ConcatQuads(RibbonBlocks(ps, width, y, hypot));
    }
    assert m.indices == [4, 5, 6, 7] by {
      var bases := seq(|kept|, j requires 0 <= j < |kept| => 4 * kept[j]);
      assert bases == [4];
      var faces := Quads(bases);
      assert faces == [[4, 5, 6, 7]];
      assert m.indices == Concat(faces);
      assert faces[..0] == [];
      assert Concat(faces) == Concat(faces[..0]) + faces[0];
    }
    assert m.indices[0] == 4;
  }

  /** Two points at the same spot then one a unit east: the skipped first
      segment sends the ribbon's indices past its points. */
  lemma RoadAsWrittenOutOfRange(hypot: (real, real) -> real)
    requires hypot(0.0, 0.0) == 0.0 && hypot(1.0, 0.0) == 1.0
    ensures var ps := [LocalPoint(0.0, 0.0), LocalPoint(0.0, 0.0), LocalPoint(1.0, 0.0)];
      var m := RoadMeshAsWritten(ps, 3.0, 0.01, hypot);
      && |m.points| == 4
      && m.indices == [4, 5, 6, 7]
      && !IndicesInRange(m)
  {
    DegenerateFirstSegment(hypot);
    OnlySecondKept([LocalPoint(0.0, 0.0), LocalPoint(0.0, 0.0), LocalPoint(1.0, 0.0)], 3.0, 0.01, hypot);
  }

  /** The intended ribbon is always well formed: quad `j` is `4j .. 4j + 3`. */
  lemma RoadMeshWellFormed(ps: seq<LocalPoint>, width: real, y: real, hypot: (real, real) -> real)
    ensures var m, kept := RoadMesh(ps, width, y, hypot), KeptSegments(ps, hypot);
      && WellFormed(m)
      && |m.points| == 4 * |kept|
      && |m.counts| == |kept|
      && forall j :: 0 <= j < |kept| ==> Face(m, j) == Quad(4 * j)
  {
    var kept := KeptSegments(ps, hypot);
    var blocks := RibbonBlocks(ps, width / 2.0, y, hypot);
    var bases := seq(|kept|, j requires 0 <= j < |kept| => 4 * j);
    var faces := Quads(bases);
    ConcatQuads(blocks);
    QuadsWellFormed(Concat(blocks), bases);
    SumCounts(faces);
    forall j | 0 <= j < |kept| ensures Face(FromFaces(Concat(blocks), faces), j) == Quad(4 * j) {
      FacesOf(Concat(blocks), faces, j);
    }
  }

  // ---------------------------------------------------------------------------
  // Ribbon cross-section.

  function SqDist(a: Vec3, b: Vec3): real {
    (b.x - a.x) * (b.x - a.x) + (b.z - a.z) * (b.z - a.z)
  }

  lemma NormalArith(dx: real, dz: real, w: real, len: real)
    requires len > 0.0 && len * len == dx * dx + dz * dz
    ensures (-dz * w / len) * (-dz * w / len) + (dx * w / len) * (dx * w / len) == w * w
  {
    var a := w / len;
    assert -dz * w / len == -dz * a;
    assert dx * w / len == dx * a;
    assert (-dz * a) * (-dz * a) + (dx * a) * (dx * a) == (dx * dx + dz * dz) * (a * a);
    assert (len * len) * (a * a) == (len * a) * (len * a);
    assert len * a == w;
  }

  /** The offset is at right angles to the segment and `w` long. */
  lemma NormalGeometry(dx: real, dz: real, w: real, len: real)
    requires len > 0.0 && len * len == dx * dx + dz * dz
    ensures Normal(dx, dz, w, len).x * dx + Normal(dx, dz, w, len).z * dz == 0.0
    ensures Normal(dx, dz, w, len).x * Normal(dx, dz, w, len).x + Normal(dx, dz, w, len).z * Normal(dx, dz, w, len).z == w * w
  {
    NormalArith(dx, dz, w, len);
    var a := w / len;
    assert -dz * w / len == -dz * a;
    assert dx * w / len == dx * a;
  }

  /** The first two corners are the start point pushed out both ways: they are
      twice the offset apart, across the segment. */
  lemma CrossEdge(p1: LocalPoint, p2: LocalPoint, n: LocalPoint, y: real)
    ensures var c := Corners(p1, p2, n, y);
      && SqDist(c[0], c[1]) == 4.0 * (n.x * n.x + n.z * n.z)
      && (c[1].x - c[0].x) * (p2.x - p1.x) + (c[1].z - c[0].z) * (p2.z - p1.z)
         == 2.0 * (n.x * (p2.x - p1.x) + n.z * (p2.z - p1.z))
  {
  }

  /** The length of segment `i` is an exact square root: `L * L == dx * dx + dz * dz`. */
  predicate ExactAt(ps: seq<LocalPoint>, i: nat, hypot: (real, real) -> real)
    requires i + 1 < |ps|
  {
    SegmentLength(ps, i, hypot) * SegmentLength(ps, i, hypot) ==
      SegmentDx(ps, i) * SegmentDx(ps, i) + SegmentDz(ps, i) * SegmentDz(ps, i)
  }

  /** The edge from `a` to `b` is at right angles to the direction `(dx, dz)`. */
  predicate Perpendicular(a: Vec3, b: Vec3, dx: real, dz: real) {
    (b.x - a.x) * dx + (b.z - a.z) * dz == 0.0
  }

  /** One kept segment: its quad's cross edge is `2w` long and perpendicular. */
  lemma SegmentCrossEdge(ps: seq<LocalPoint>, i: nat, w: real, y: real, hypot: (real, real) -> real)
    requires i + 1 < |ps| && Kept(ps, i, hypot) && ExactAt(ps, i, hypot)
    ensures var c := SegmentCorners(ps, i, w, y, hypot);
      && SqDist(c[0], c[1]) == 4.0 * w * w
      && Perpendicular(c[0], c[1], SegmentDx(ps, i), SegmentDz(ps, i))
  {
    var dx, dz, len := SegmentDx(ps, i), SegmentDz(ps, i), SegmentLength(ps, i, hypot);
    var n := Normal(dx, dz, w, len);
    NormalGeometry(dx, dz, w, len);
    CrossEdge(ps[i], ps[i + 1], n, y);
    ScaleFour(n.x * n.x + n.z * n.z, w * w);
  }

  /** With offset `w`, the cross edge of quad `j` is `2w` long and perpendicular
      to its segment. */
  lemma RibbonCrossSection(ps: seq<LocalPoint>, w: real, y: real, hypot: (real, real) -> real, j: nat)
    requires j < |KeptSegments(ps, hypot)|
    requires ExactAt(ps, KeptSegments(ps, hypot)[j], hypot)
    ensures var pts, i := Concat(RibbonBlocks(ps, w, y, hypot)), KeptSegments(ps, hypot)[j];
      && |pts| == 4 * |KeptSegments(ps, hypot)|
      && SqDist(pts[4 * j], pts[4 * j + 1]) == 4.0 * w * w
      && Perpendicular(pts[4 * j], pts[4 * j + 1], SegmentDx(ps, i), SegmentDz(ps, i))
  {
    var kept := KeptSegments(ps, hypot);
    var blocks := RibbonBlocks(ps, w, y, hypot);
    ConcatQuads(blocks);
    var c := SegmentCorners(ps, kept[j], w, y, hypot);
    assert blocks[j] == c;
    assert Concat(blocks)[4 * j] == c[0] && Concat(blocks)[4 * j + 1] == c[1];
    SegmentCrossEdge(ps, kept[j], w, y, hypot);
  }

  /** The points of quad `j` are those of the `j`-th kept segment: points
      `4j` and `4j + 1` straddle its start, `4j + 2` and `4j + 3` its end, all at
      the surface height. */
  lemma RibbonPlacement(ps: seq<LocalPoint>, w: real, y: real, hypot: (real, real) -> real, j: nat)
    requires j < |KeptSegments(ps, hypot)|
    ensures var pts, i := Concat(RibbonBlocks(ps, w, y, hypot)), KeptSegments(ps, hypot)[j];
      && |pts| == 4 * |KeptSegments(ps, hypot)|
      && Straddles(pts[4 * j], pts[4 * j + 1], ps[i], y)
      && Straddles(pts[4 * j + 2], pts[4 * j + 3], ps[i + 1], y)
  {
    var kept := KeptSegments(ps, hypot);
    var blocks := RibbonBlocks(ps, w, y, hypot);
    ConcatQuads(blocks);
    var c := SegmentCorners(ps, kept[j], w, y, hypot);
    assert blocks[j] == c;
    assert Concat(blocks)[4 * j] == c[0] && Concat(blocks)[4 * j + 1] == c[1];
    assert Concat(blocks)[4 * j + 2] == c[2] && Concat(blocks)[4 * j + 3] == c[3];
  }

  /** As written, each quad's cross edge is perpendicular to its segment and
      `2 * width` long: the ribbon is twice as wide as the width table says. */
  lemma RibbonTwiceAsWide(ps: seq<LocalPoint>, width: real, y: real, hypot: (real, real) -> real, j: nat)
    requires j < |KeptSegments(ps, hypot)|
    requires ExactAt(ps, KeptSegments(ps, hypot)[j], hypot)
    ensures var pts, i := RoadMeshAsWritten(ps, width, y, hypot).points, KeptSegments(ps, hypot)[j];
      && |pts| == 4 * |KeptSegments(ps, hypot)|
      && Straddles(pts[4 * j], pts[4 * j + 1], ps[i], y)
      && Straddles(pts[4 * j + 2], pts[4 * j + 3], ps[i + 1], y)
      && SqDist(pts[4 * j], pts[4 * j + 1]) == 4.0 * width * width
      && Perpendicular(pts[4 * j], pts[4 * j + 1], SegmentDx(ps, i), SegmentDz(ps, i))
  {
    RibbonCrossSection(ps, width, y, hypot, j);
    RibbonPlacement(ps, width, y, hypot, j);
  }

  /** The intended ribbon's cross edge is perpendicular and exactly `width` long. */
  lemma RibbonWidth(ps: seq<LocalPoint>, width: real, y: real, hypot: (real, real) -> real, j: nat)
    requires j < |KeptSegments(ps, hypot)|
    requires ExactAt(ps, KeptSegments(ps, hypot)[j], hypot)
    ensures var pts, i := RoadMesh(ps, width, y, hypot).points, KeptSegments(ps, hypot)[j];
      && |pts| == 4 * |KeptSegments(ps, hypot)|
      && Straddles(pts[4 * j], pts[4 * j + 1], ps[i], y)
      && Straddles(pts[4 * j + 2], pts[4 * j + 3], ps[i + 1], y)
      && SqDist(pts[4 * j], pts[4 * j + 1]) == width * width
      && Perpendicular(pts[4 * j], pts[4 * j + 1], SegmentDx(ps, i), SegmentDz(ps, i))
  {
    RibbonPlacement(ps, width / 2.0, y, hypot, j);
    HalvedCrossSection(ps, width, y, hypot, j);
  }

  lemma HalvedCrossSection(ps: seq<LocalPoint>, width: real, y: real, hypot: (real, real) -> real, j: nat)
    requires j < |KeptSegments(ps, hypot)|
    requires ExactAt(ps, KeptSegments(ps, hypot)[j], hypot)
    ensures var pts, i := RoadMesh(ps, width, y, hypot).points, KeptSegments(ps, hypot)[j];
      && |pts| == 4 * |KeptSegments(ps, hypot)|
      && SqDist(pts[4 * j], pts[4 * j + 1]) == width * width
      && Perpendicular(pts[4 * j], pts[4 * j + 1], SegmentDx(ps, i), SegmentDz(ps, i))
  {
    var half := width / 2.0;
    var pts := RoadMesh(ps, width, y, hypot).points;
    assert pts == Concat(RibbonBlocks(ps, half, y, hypot));
    RibbonCrossSection(ps, half, y, hypot, j);
    HalfSquared(SqDist(pts[4 * j], pts[4 * j + 1]), half, width);
  }

  lemma HalfSquared(d: real, half: real, w: real)
    requires half == w / 2.0 && d == 4.0 * half * half
    ensures d == w * w
  {
  }

  lemma ScaleFour(a: real, b: real)
    requires a == b
    ensures 4.0 * a == 4.0 * b
  {
  }
}
