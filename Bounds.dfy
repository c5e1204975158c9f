/** The bounding box of the vertex positions (`bounding_coords`, src/lib.rs:383-397), written to
    the positions accessor as its min and max. */
module Bounds {
  import opened Pixels
  import opened Mesh

  /** `f32::MAX`, the largest finite single-precision value; `f32::MIN` is its negation. */
  const F32_MAX: real := 340282346638528859811704183484516925440.0
  const F32_MIN: real := -F32_MAX

  /** `f32::min` and `f32::max` on values that are not NaN. */
  function Min(a: real, b: real): real {
    if a <= b then a else b
  }

  function Max(a: real, b: real): real {
    if a >= b then a else b
  }

  /** The running minimum of axis i over the positions of ps, starting from the sentinel `f32::MAX`. */
  function MinBound(ps: seq<Vertex>, i: nat): real
    requires i < 3
    decreases |ps|
  {
    if ps == [] then F32_MAX else Min(MinBound(ps[..|ps| - 1], i), ps[|ps| - 1].position.At(i))
  }

  /** The running maximum of axis i, starting from the sentinel `f32::MIN`. */
  function MaxBound(ps: seq<Vertex>, i: nat): real
    requires i < 3
    decreases |ps|
  {
    if ps == [] then F32_MIN else Max(MaxBound(ps[..|ps| - 1], i), ps[|ps| - 1].position.At(i))
  }

  /** The two corners of the box, axis by axis. */
  function Lower(ps: seq<Vertex>): Vec3 {
    Vec3(MinBound(ps, 0), MinBound(ps, 1), MinBound(ps, 2))
  }

  function Upper(ps: seq<Vertex>): Vec3 {
    Vec3(MaxBound(ps, 0), MaxBound(ps, 1), MaxBound(ps, 2))
  }

  /** `bounding_coords`: for each point, and for each axis i in 0..3, folds the point's coordinate
      into `min[i]` and `max[i]`. */
  method BoundingCoords(points: seq<Vertex>) returns (min: Vec3, max: Vec3)
    ensures min == Lower(points) && max == Upper(points)
    ensures points == [] ==> min == Vec3(F32_MAX, F32_MAX, F32_MAX) && max == Vec3(F32_MIN, F32_MIN, F32_MIN)
  {
    min := Vec3(F32_MAX, F32_MAX, F32_MAX);
    max := Vec3(F32_MIN, F32_MIN, F32_MIN);
    for k := 0 to |points|
      invariant forall i :: 0 <= i < 3 ==> min.At(i) == MinBound(points[..k], i) && max.At(i) == MaxBound(points[..k], i)
    {
      var p := points[k].position;
      assert points[..k + 1][..k] == points[..k];
      for i := 0 to 3
        invariant forall j :: 0 <= j < i ==> min.At(j) == MinBound(points[..k + 1], j) && max.At(j) == MaxBound(points[..k + 1], j)
        invariant forall j :: i <= j < 3 ==> min.At(j) == MinBound(points[..k], j) && max.At(j) == MaxBound(points[..k], j)
      {
        min := min.With(i, Min(min.At(i), p.At(i)));
        max := max.With(i, Max(max.At(i), p.At(i)));
      }
    }
    assert points[..|points|] == points;
    assert min.At(0) == min.x && min.At(1) == min.y && min.At(2) == min.z;
    assert max.At(0) == max.x && max.At(1) == max.y && max.At(2) == max.z;
  }

  /** Every coordinate lies within the box. */
  lemma {:induction false} BoundsContain(ps: seq<Vertex>, i: nat)
    requires i < 3
    ensures forall k :: 0 <= k < |ps| ==> MinBound(ps, i) <= ps[k].position.At(i) <= MaxBound(ps, i)
    decreases |ps|
  {
    if ps != [] {
      var init := ps[..|ps| - 1];
      BoundsContain(init, i);
      assert forall k :: 0 <= k < |init| ==> ps[k] == init[k];
    }
  }

  /** Every coordinate is a finite `f32`; the mesh has only such coordinates when `height` is finite. */
  predicate InF32Range(ps: seq<Vertex>) {
    forall k, i :: 0 <= k < |ps| && 0 <= i < 3 ==> F32_MIN <= ps[k].position.At(i) <= F32_MAX
  }

  /** For a non-empty list of finite coordinates, both bounds of every axis are attained by a vertex. */
  lemma {:induction false} BoundsAttained(ps: seq<Vertex>, i: nat)
    requires i < 3 && ps != [] && InF32Range(ps)
    ensures exists k :: 0 <= k < |ps| && MinBound(ps, i) == ps[k].position.At(i)
    ensures exists k :: 0 <= k < |ps| && MaxBound(ps, i) == ps[k].position.At(i)
    decreases |ps|
  {
    var n := |ps| - 1;
    var init := ps[..n];
    var last := ps[n].position.At(i);
    assert F32_MIN <= last <= F32_MAX;
    if init == [] {
      assert MinBound(init, i) == F32_MAX && MaxBound(init, i) == F32_MIN;
      assert MinBound(ps, i) == ps[n].position.At(i) && MaxBound(ps, i) == ps[n].position.At(i);
    } else {
      assert InF32Range(init) by {
        assert forall k :: 0 <= k < |init| ==> init[k] == ps[k];
      }
      BoundsAttained(init, i);
      var kmin :| 0 <= kmin < |init| && MinBound(init, i) == init[kmin].position.At(i);
      var kmax :| 0 <= kmax < |init| && MaxBound(init, i) == init[kmax].position.At(i);
      assert init[kmin] == ps[kmin] && init[kmax] == ps[kmax];
      if MinBound(init, i) <= last {
        assert MinBound(ps, i) == ps[kmin].position.At(i);
      } else {
        assert MinBound(ps, i) == ps[n].position.At(i);
      }
      if MaxBound(init, i) >= last {
        assert MaxBound(ps, i) == ps[kmax].position.At(i);
      } else {
        assert MaxBound(ps, i) == ps[n].position.At(i);
      }
    }
  }

  /** The box of a mesh is inside the image's box [0, width] x [0, rows] x {0, height}: both of its
      corners are attained by mesh vertices. */
  lemma MeshBoundsInImage(img: Image, height: real, i: nat)
    requires img.Valid() && i < 3 && MeshVertices(img, height) != []
    requires F32_MIN <= height <= F32_MAX && img.width as real <= F32_MAX && img.height as real <= F32_MAX
    ensures var vs := MeshVertices(img, height);
      var lo, hi := Vec3(0.0, 0.0, Min(0.0, height)), Vec3(img.width as real, img.height as real, Max(0.0, height));
      lo.At(i) <= MinBound(vs, i) <= MaxBound(vs, i) <= hi.At(i)
  {
    var vs := MeshVertices(img, height);
    MeshVerticesInImage(img, height);
    assert InF32Range(vs) by {
      forall k, j | 0 <= k < |vs| && 0 <= j < 3
        ensures F32_MIN <= vs[k].position.At(j) <= F32_MAX
      {
        assert InImageBox(vs[k].position, img.width, img.height, height);
      }
    }
    BoundsAttained(vs, i);
    BoundsContain(vs, i);
    var kmin :| 0 <= kmin < |vs| && MinBound(vs, i) == vs[kmin].position.At(i);
    var kmax :| 0 <= kmax < |vs| && MaxBound(vs, i) == vs[kmax].position.At(i);
    assert InImageBox(vs[kmin].position, img.width, img.height, height);
    assert InImageBox(vs[kmax].position, img.width, img.height, height);
  }
}
