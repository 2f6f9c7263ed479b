/** Polygon meshes in the layout every builder produces: a point list, one
    vertex count per face, and the faces' point indices laid end to end. */
module Meshes {
  import opened Prelude

  datatype Vec3 = Vec3(x: real, y: real, z: real)

  /** `points`, `faceVertexCounts` and `faceVertexIndices` of one mesh. */
  datatype Mesh = Mesh(points: seq<Vec3>, counts: seq<nat>, indices: seq<nat>)

  function SumNat(xs: seq<nat>): nat {
    if |xs| == 0 then 0 else SumNat(xs[..|xs| - 1]) + xs[|xs| - 1]
  }

  lemma {:induction false} SumNatPrefix(xs: seq<nat>, k: nat)
    requires k < |xs|
    ensures SumNat(xs[..k + 1]) == SumNat(xs[..k]) + xs[k]
    ensures SumNat(xs[..k + 1]) <= SumNat(xs)
    decreases |xs| - k
  {
    assert xs[..k + 1][..k] == xs[..k];
    if k + 1 < |xs| {
      SumNatPrefix(xs, k + 1);
    } else {
      assert xs[..k + 1] == xs;
    }
  }

  /** The vertex counts account for exactly the index list. */
  predicate CountsMatch(m: Mesh) {
    SumNat(m.counts) == |m.indices|
  }

  /** Every index names a point of the mesh. */
  predicate IndicesInRange(m: Mesh) {
    forall i :: 0 <= i < |m.indices| ==> m.indices[i] < |m.points|
  }

  predicate WellFormed(m: Mesh) {
    CountsMatch(m) && IndicesInRange(m)
  }

  /** The indices of face `f`, read back from the flat layout. */
  function Face(m: Mesh, f: nat): (r: seq<nat>)
    requires CountsMatch(m) && f < |m.counts|
    ensures |r| == m.counts[f]
  {
    SumNatPrefix(m.counts, f);
    m.indices[SumNat(m.counts[..f])..SumNat(m.counts[..f + 1])]
  }

  // ---------------------------------------------------------------------------
  // Building a mesh face by face: `indices.extend(face); counts.append(len(face))`.

  function Counts(faces: seq<seq<nat>>): (r: seq<nat>)
    ensures |r| == |faces| && forall f :: 0 <= f < |faces| ==> r[f] == |faces[f]|
  {
    seq(|faces|, f requires 0 <= f < |faces| => |faces[f]|)
  }

  /** The mesh whose faces, in order, are `faces`. */
  function FromFaces(points: seq<Vec3>, faces: seq<seq<nat>>): Mesh {
    Mesh(points, Counts(faces), Concat(faces))
  }

  lemma {:induction false} SumCounts(faces: seq<seq<nat>>)
    ensures SumNat(Counts(faces)) == |Concat(faces)|
  {
    if |faces| > 0 {
      var init := faces[..|faces| - 1];
      SumCounts(init);
      assert Counts(faces)[..|faces| - 1] == Counts(init);
    }
  }

  /** Reading face `f` back from the flat layout gives the `f`-th face built:
      the counts and the index list stay in step. */
  lemma FacesOf(points: seq<Vec3>, faces: seq<seq<nat>>, f: nat)
    requires f < |faces|
    ensures CountsMatch(FromFaces(points, faces))
    ensures Face(FromFaces(points, faces), f) == faces[f]
  {
    var m := FromFaces(points, faces);
    SumCounts(faces);
    var before, after := faces[..f], faces[f + 1..];
    assert faces == before + [faces[f]] + after;
    ConcatAppend(before + [faces[f]], after);
    ConcatAppend(before, [faces[f]]);
    var single: seq<seq<nat>> := [faces[f]];
    assert Concat(single) == faces[f] by {
      assert single[..0] == [];
    }
    assert m.counts[..f] == Counts(before);
    assert m.counts[..f + 1] == Counts(before + [faces[f]]);
    SumCounts(before);
    SumCounts(before + [faces[f]]);
  }

  /** A mesh built from faces is well formed exactly when every face names
      only existing points. */
  lemma WellFormedFromFaces(points: seq<Vec3>, faces: seq<seq<nat>>)
    ensures WellFormed(FromFaces(points, faces)) <==>
      forall f, x :: 0 <= f < |faces| && x in faces[f] ==> x < |points|
  {
    SumCounts(faces);
    forall x {
      ConcatMember(faces, x);
    }
  }

  // ---------------------------------------------------------------------------
  // Python's `range(start, stop, step)` for a positive step.

  function Range(start: nat, stop: nat, step: nat): (r: seq<nat>)
    requires step > 0
    ensures forall i :: 0 <= i < |r| ==> start <= r[i] < stop
    ensures forall i :: 0 < i < |r| ==> r[i] == r[i - 1] + step
    ensures |r| > 0 ==> r[0] == start && stop <= r[|r| - 1] + step
    ensures |r| == 0 <==> stop <= start
    decreases stop - start
  {
    if stop <= start then [] else [start] + Range(start + step, stop, step)
  }

  /** `range(n)` is `0, 1, ..., n - 1`. */
  lemma {:induction false} RangeOne(n: nat)
    ensures Range(0, n, 1) == seq(n, i requires 0 <= i < n => i)
  {
    var r := Range(0, n, 1);
    RangeByIndex(0, n, 1, r);
    assert |r| == n by {
      if n > 0 { assert r[|r| - 1] == |r| - 1; }
    }
  }

  /** `range(k, 2n, 2)` for `k` in 0 and 1: `k, k + 2, ..., 2n - 2 + k`. */
  lemma {:induction false} RangeTwo(k: nat, n: nat)
    requires k < 2
    ensures Range(k, 2 * n, 2) == seq(n, i requires 0 <= i < n => 2 * i + k)
  {
    var r := Range(k, 2 * n, 2);
    RangeByIndex(k, 2 * n, 2, r);
    assert |r| == n by {
      if |r| > 0 { assert r[|r| - 1] == 2 * (|r| - 1) + k; }
    }
  }

  /** The `i`-th element of a range is `start + i * step`. */
  lemma {:induction false} RangeByIndex(start: nat, stop: nat, step: nat, r: seq<nat>)
    requires step > 0 && r == Range(start, stop, step)
    ensures forall i :: 0 <= i < |r| ==> r[i] == start + i * step
  {
    forall i | 0 <= i < |r| ensures r[i] == start + i * step {
      RangeAt(start, stop, step, r, i);
    }
  }

  lemma {:induction false} RangeAt(start: nat, stop: nat, step: nat, r: seq<nat>, i: nat)
    requires step > 0 && r == Range(start, stop, step) && i < |r|
    ensures r[i] == start + i * step
  {
    if i > 0 {
      RangeAt(start, stop, step, r, i - 1);
      assert start + (i - 1) * step + step == start + i * step;
    }
  }
}
