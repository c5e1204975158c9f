/** Mesh building: the per-face vertex table (`create_pixel_verticies_face`, src/lib.rs:299-381)
    and the row-major scan of the image (`image_to_vertices`, src/lib.rs:121-146). */
module Mesh {
  import opened Types
  import opened Pixels
  import opened Culling

  /** A `[f32; 3]`, with coordinates as reals; `At(i)` is the component the source indexes as `[i]`. */
  datatype Vec3 = Vec3(x: real, y: real, z: real) {
    function At(i: nat): real
      requires i < 3
    {
      if i == 0 then x else if i == 1 then y else z
    }

    /** This vector with component i replaced by v, as `a[i] = v` does. */
    function With(i: nat, v: real): (r: Vec3)
      requires i < 3
      ensures r.At(i) == v && forall j :: 0 <= j < 3 && j != i ==> r.At(j) == At(j)
    {
      if i == 0 then Vec3(v, y, z) else if i == 1 then Vec3(x, v, z) else Vec3(x, y, v)
    }
  }

  /** `RGB_MAX_VALUE`: an 8-bit channel c becomes the colour component c / 255. */
  const RGB_MAX_VALUE: real := 255.0

  /** One vertex record (src/lib.rs:18-22). */
  datatype Vertex = Vertex(position: Vec3, normal: Vec3, color: Vec3)

  // ---------------------------------------------------------------------------------------------
  // Vector arithmetic used to state the geometry.

  function Sub(a: Vec3, b: Vec3): Vec3 {
    Vec3(a.x - b.x, a.y - b.y, a.z - b.z)
  }

  function Dot(a: Vec3, b: Vec3): real {
    a.x * b.x + a.y * b.y + a.z * b.z
  }

  function Cross(a: Vec3, b: Vec3): Vec3 {
    Vec3(a.y * b.z - a.z * b.y, a.z * b.x - a.x * b.z, a.x * b.y - a.y * b.x)
  }

  /** v is a positive multiple of n. */
  predicate PointsAlong(v: Vec3, n: Vec3) {
    Cross(v, n) == Vec3(0.0, 0.0, 0.0) && Dot(v, n) > 0.0
  }

  function Abs(r: real): real {
    if r < 0.0 then -r else r
  }

  /** Every component is -1, 0 or 1 and exactly one is non-zero. */
  predicate IsAxisUnit(n: Vec3) {
    && (forall i :: 0 <= i < 3 ==> n.At(i) == -1.0 || n.At(i) == 0.0 || n.At(i) == 1.0)
    && Abs(n.x) + Abs(n.y) + Abs(n.z) == 1.0
  }

  /** The edge cross product of the triangle (a, b, c), whose direction the winding determines. */
  function TriangleNormal(a: Vertex, b: Vertex, c: Vertex): Vec3 {
    Cross(Sub(b.position, a.position), Sub(c.position, a.position))
  }

  // ---------------------------------------------------------------------------------------------
  // The face table and its reference definitions.

  /** The colour of a pixel: each of r, g, b divided by 255; alpha is dropped. */
  function Color(pixel: Rgba): (c: Vec3)
    ensures 0.0 <= c.x <= 1.0 && 0.0 <= c.y <= 1.0 && 0.0 <= c.z <= 1.0
  {
    Vec3(pixel.r as real / RGB_MAX_VALUE, pixel.g as real / RGB_MAX_VALUE, pixel.b as real / RGB_MAX_VALUE)
  }

  /** The outward unit normal of each face of the cell [x, x+1] x [y, y+1] x [0, height]. */
  function Normal(face: Face): (n: Vec3)
    ensures IsAxisUnit(n)
  {
    match face
    case Up => Vec3(0.0, 0.0, 1.0)
    case Down => Vec3(0.0, 0.0, -1.0)
    case Forward => Vec3(0.0, -1.0, 0.0)
    case Back => Vec3(0.0, 1.0, 0.0)
    case Left => Vec3(-1.0, 0.0, 0.0)
    case Right => Vec3(1.0, 0.0, 0.0)
  }

  /** p lies in the plane of the face: Up at z = height, Down at z = 0, Left at x, Right at x + 1,
      Forward at y, Back at y + 1. */
  predicate OnFacePlane(face: Face, p: Vec3, x: real, y: real, height: real) {
    match face
    case Up => p.z == height
    case Down => p.z == 0.0
    case Left => p.x == x
    case Right => p.x == x + 1.0
    case Forward => p.y == y
    case Back => p.y == y + 1.0
  }

  /** p is a corner of the pixel's cell: x or x + 1, y or y + 1, and z = 0 or z = height. */
  predicate InCell(p: Vec3, x: real, y: real, height: real) {
    (p.x == x || p.x == x + 1.0) && (p.y == y || p.y == y + 1.0) && (p.z == 0.0 || p.z == height)
  }

  /** The four corners of the unit square a face covers. */
  function Corners(face: Face, x: real, y: real, height: real): set<Vec3> {
    match face
    case Up => {Vec3(x, y, height), Vec3(x + 1.0, y, height), Vec3(x, y + 1.0, height), Vec3(x + 1.0, y + 1.0, height)}
    case Down => {Vec3(x, y, 0.0), Vec3(x + 1.0, y, 0.0), Vec3(x, y + 1.0, 0.0), Vec3(x + 1.0, y + 1.0, 0.0)}
    case Forward => {Vec3(x, y, 0.0), Vec3(x + 1.0, y, 0.0), Vec3(x, y, height), Vec3(x + 1.0, y, height)}
    case Back => {Vec3(x, y + 1.0, 0.0), Vec3(x + 1.0, y + 1.0, 0.0), Vec3(x, y + 1.0, height), Vec3(x + 1.0, y + 1.0, height)}
    case Left => {Vec3(x, y, 0.0), Vec3(x, y + 1.0, 0.0), Vec3(x, y, height), Vec3(x, y + 1.0, height)}
    case Right => {Vec3(x + 1.0, y, 0.0), Vec3(x + 1.0, y + 1.0, 0.0), Vec3(x + 1.0, y, height), Vec3(x + 1.0, y + 1.0, height)}
  }

  /** Corner k (0 to 5) of the two triangles `create_pixel_verticies_face` lists for one face of the
      voxel whose lower corner is (x, y, 0), in the order it lists them. */
  function Corner(x: real, y: real, height: real, face: Face, k: nat): Vec3
    requires k < 6
  {
    match face
    case Up =>
      if k == 0 then Vec3(x, y, height)
      else if k == 1 then Vec3(x + 1.0, y, height)
      else if k == 2 then Vec3(x, y + 1.0, height)
      else if k == 3 then Vec3(x, y + 1.0, height)
      else if k == 4 then Vec3(x + 1.0, y, height)
      else Vec3(x + 1.0, y + 1.0, height)
    case Down =>
      if k == 0 then Vec3(x, y, 0.0)
      else if k == 1 then Vec3(x, y + 1.0, 0.0)
      else if k == 2 then Vec3(x + 1.0, y, 0.0)
      else if k == 3 then Vec3(x, y + 1.0, 0.0)
      else if k == 4 then Vec3(x + 1.0, y + 1.0, 0.0)
      else Vec3(x + 1.0, y, 0.0)
    case Forward =>
      if k == 0 then Vec3(x, y, 0.0)
      else if k == 1 then Vec3(x + 1.0, y, 0.0)
      else if k == 2 then Vec3(x, y, height)
      else if k == 3 then Vec3(x, y, height)
      else if k == 4 then Vec3(x + 1.0, y, 0.0)
      else Vec3(x + 1.0, y, height)
    case Back =>
      if k == 0 then Vec3(x, y + 1.0, 0.0)
      else if k == 1 then Vec3(x, y + 1.0, height)
      else if k == 2 then Vec3(x + 1.0, y + 1.0, 0.0)
      else if k == 3 then Vec3(x + 1.0, y + 1.0, 0.0)
      else if k == 4 then Vec3(x, y + 1.0, height)
      else Vec3(x + 1.0, y + 1.0, height)
    case Left =>
      if k == 0 then Vec3(x, y, 0.0)
      else if k == 1 then Vec3(x, y, height)
      else if k == 2 then Vec3(x, y + 1.0, 0.0)
      else if k == 3 then Vec3(x, y + 1.0, 0.0)
      else if k == 4 then Vec3(x, y, height)
      else Vec3(x, y + 1.0, height)
    case Right =>
      if k == 0 then Vec3(x + 1.0, y, 0.0)
      else if k == 1 then Vec3(x + 1.0, y + 1.0, 0.0)
      else if k == 2 then Vec3(x + 1.0, y, height)
      else if k == 3 then Vec3(x + 1.0, y + 1.0, 0.0)
      else if k == 4 then Vec3(x + 1.0, y + 1.0, height)
      else Vec3(x + 1.0, y, height)
  }

  /** `create_pixel_verticies_face`: the six vertices of one face, each carrying the face's
      outward normal and the pixel's colour. */
  function FaceVertices(x: real, y: real, pixel: Rgba, height: real, face: Face): (vs: seq<Vertex>)
    ensures |vs| == 6
  {
    var n, c := Normal(face), Color(pixel);
    [ Vertex(Corner(x, y, height, face, 0), n, c), Vertex(Corner(x, y, height, face, 1), n, c),
      Vertex(Corner(x, y, height, face, 2), n, c), Vertex(Corner(x, y, height, face, 3), n, c),
      Vertex(Corner(x, y, height, face, 4), n, c), Vertex(Corner(x, y, height, face, 5), n, c) ]
  }

  /** Every listed corner lies in the face's plane and is a corner of the pixel's cell. */
  lemma CornerSpec(x: real, y: real, height: real, face: Face, k: nat)
    requires k < 6
    ensures var p := Corner(x, y, height, face, k);
      OnFacePlane(face, p, x, y, height) && InCell(p, x, y, height)
  {
  }

  /** Every vertex of a face carries the face's outward normal and the pixel's colour, lies in
      the face's plane and is a corner of the pixel's cell. */
  lemma FaceVerticesSpec(x: real, y: real, pixel: Rgba, height: real, face: Face)
    ensures var vs := FaceVertices(x, y, pixel, height, face);
      forall i :: 0 <= i < 6 ==>
        && vs[i].position == Corner(x, y, height, face, i)
        && vs[i].normal == Normal(face)
        && vs[i].color == Color(pixel)
        && OnFacePlane(face, vs[i].position, x, y, height)
        && InCell(vs[i].position, x, y, height)
  {
    forall k | 0 <= k < 6 {
      CornerSpec(x, y, height, face, k);
    }
  }

  /** The six vertices cover exactly the four corners of the face's unit square. */
  lemma FaceCoversSquare(x: real, y: real, pixel: Rgba, height: real, face: Face)
    ensures var vs := FaceVertices(x, y, pixel, height, face);
      (set i | 0 <= i < 6 :: vs[i].position) == Corners(face, x, y, height)
  {
    var vs := FaceVertices(x, y, pixel, height, face);
    var s := set i | 0 <= i < 6 :: vs[i].position;
    assert s == {Corner(x, y, height, face, 0), Corner(x, y, height, face, 1), Corner(x, y, height, face, 2),
                 Corner(x, y, height, face, 3), Corner(x, y, height, face, 4), Corner(x, y, height, face, 5)} by {
      assert forall i :: 0 <= i < 6 ==> vs[i].position == Corner(x, y, height, face, i);
    }
  }

  /** The face's outward normal scaled by the area of the face (1 for Up and Down, the height for
      the side faces). */
  function AreaNormal(face: Face, height: real): Vec3 {
    match face
    case Up => Vec3(0.0, 0.0, 1.0)
    case Down => Vec3(0.0, 0.0, -1.0)
    case Forward => Vec3(0.0, -height, 0.0)
    case Back => Vec3(0.0, height, 0.0)
    case Left => Vec3(-height, 0.0, 0.0)
    case Right => Vec3(height, 0.0, 0.0)
  }

  /** For a positive height the area normal points along the unit normal. */
  lemma AreaNormalAlong(face: Face, height: real)
    requires height > 0.0
    ensures PointsAlong(AreaNormal(face, height), Normal(face))
  {
    var v, n := AreaNormal(face, height), Normal(face);
    match face
    case Up =>
      assert v == n;
    case Down =>
      assert v == n;
    case Forward =>
      assert Cross(v, n) == Vec3(0.0, 0.0, 0.0) && Dot(v, n) == height;
    case Back =>
      assert Cross(v, n) == Vec3(0.0, 0.0, 0.0) && Dot(v, n) == height;
    case Left =>
      assert Cross(v, n) == Vec3(0.0, 0.0, 0.0) && Dot(v, n) == height;
    case Right =>
      assert Cross(v, n) == Vec3(0.0, 0.0, 0.0) && Dot(v, n) == height;
  }

  /** Equal vectors have equal cross products; used with literal right-hand sides, whose cross
      product the verifier evaluates. */
  lemma EqualCross(a: Vec3, b: Vec3, a': Vec3, b': Vec3)
    requires a == a' && b == b'
    ensures Cross(a, b) == Cross(a', b')
  {
  }

  /** The two edges, from its first corner, of triangle t (0 or 1) of a face, as the face table
      lays them out. */
  function Edges(face: Face, t: nat, height: real): (Vec3, Vec3)
    requires t < 2
  {
    match face
    case Up => if t == 0 then (Vec3(1.0, 0.0, 0.0), Vec3(0.0, 1.0, 0.0)) else (Vec3(1.0, -1.0, 0.0), Vec3(1.0, 0.0, 0.0))
    case Down => if t == 0 then (Vec3(0.0, 1.0, 0.0), Vec3(1.0, 0.0, 0.0)) else (Vec3(1.0, 0.0, 0.0), Vec3(1.0, -1.0, 0.0))
    case Forward => if t == 0 then (Vec3(1.0, 0.0, 0.0), Vec3(0.0, 0.0, height)) else (Vec3(1.0, 0.0, -height), Vec3(1.0, 0.0, 0.0))
    case Back => if t == 0 then (Vec3(0.0, 0.0, height), Vec3(1.0, 0.0, 0.0)) else (Vec3(-1.0, 0.0, height), Vec3(0.0, 0.0, height))
    case Left => if t == 0 then (Vec3(0.0, 0.0, height), Vec3(0.0, 1.0, 0.0)) else (Vec3(0.0, -1.0, height), Vec3(0.0, 0.0, height))
    case Right => if t == 0 then (Vec3(0.0, 1.0, 0.0), Vec3(0.0, 0.0, height)) else (Vec3(0.0, 0.0, height), Vec3(0.0, -1.0, height))
  }

  /** The edges of each triangle of the face table. */
  lemma EdgesAt(x: real, y: real, height: real, face: Face, t: nat)
    requires t < 2
    ensures Sub(Corner(x, y, height, face, 3 * t + 1), Corner(x, y, height, face, 3 * t)) == Edges(face, t, height).0
    ensures Sub(Corner(x, y, height, face, 3 * t + 2), Corner(x, y, height, face, 3 * t)) == Edges(face, t, height).1
  {
  }

  /** The cross product of each triangle's edges is the face's area normal. */
  lemma EdgesCross(face: Face, t: nat, height: real)
    requires t < 2
    ensures Cross(Edges(face, t, height).0, Edges(face, t, height).1) == AreaNormal(face, height)
  {
  }

  /** For a positive height, both triangles of every face are wound so that their edge cross product
      points along the face's outward normal. */
  lemma FaceWindingOutward(x: real, y: real, pixel: Rgba, height: real, face: Face, t: nat)
    requires height > 0.0 && t < 2
    ensures var vs := FaceVertices(x, y, pixel, height, face);
      PointsAlong(TriangleNormal(vs[3 * t], vs[3 * t + 1], vs[3 * t + 2]), Normal(face))
  {
    var vs := FaceVertices(x, y, pixel, height, face);
    var p0, p1, p2 := Corner(x, y, height, face, 3 * t), Corner(x, y, height, face, 3 * t + 1), Corner(x, y, height, face, 3 * t + 2);
    assert vs[3 * t].position == p0 && vs[3 * t + 1].position == p1 && vs[3 * t + 2].position == p2;
    EdgesAt(x, y, height, face, t);
    EqualCross(Sub(p1, p0), Sub(p2, p0), Edges(face, t, height).0, Edges(face, t, height).1);
    EdgesCross(face, t, height);
    AreaNormalAlong(face, height);
  }

  /** For a positive height, each face's normal points away from the centre of its voxel. */
  lemma FaceNormalOutward(x: real, y: real, pixel: Rgba, height: real, face: Face, i: nat)
    requires height > 0.0 && i < 6
    ensures var vs := FaceVertices(x, y, pixel, height, face);
      Dot(Sub(vs[i].position, Vec3(x + 0.5, y + 0.5, height / 2.0)), Normal(face)) > 0.0
  {
    assert FaceVertices(x, y, pixel, height, face)[i].position == Corner(x, y, height, face, i);
  }

  // ---------------------------------------------------------------------------------------------
  // The scan of the image.

  /** One emitted face: the pixel's column and row, its colour, and which face of its voxel. */
  datatype PlacedFace = PlacedFace(x: nat, y: nat, pixel: Rgba, face: Face)

  /** The six vertices of one placed face. */
  function FaceOf(height: real): PlacedFace -> seq<Vertex> {
    (pf: PlacedFace) => FaceVertices(pf.x as real, pf.y as real, pf.pixel, height, pf.face)
  }

  /** The concatenation of f over a list, in list order. */
  function FlatMap<T>(f: T -> seq<Vertex>, s: seq<T>): seq<Vertex>
    decreases |s|
  {
    if s == [] then [] else FlatMap(f, s[..|s| - 1]) + f(s[|s| - 1])
  }

  /** The vertices of a list of placed faces: six per face, in list order. */
  function Emit(height: real, pfs: seq<PlacedFace>): seq<Vertex> {
    FlatMap(FaceOf(height), pfs)
  }

  /** The given faces of the pixel at (x, y), in order. */
  function Place(x: nat, y: nat, pixel: Rgba, faces: seq<Face>): (pfs: seq<PlacedFace>)
    ensures |pfs| == |faces|
    ensures forall i :: 0 <= i < |faces| ==> pfs[i] == PlacedFace(x, y, pixel, faces[i])
  {
    seq(|faces|, i requires 0 <= i < |faces| => PlacedFace(x, y, pixel, faces[i]))
  }

  /** The faces one pixel contributes: none when it is outside the grid or empty, else its culled
      faces. */
  function PixelFaces(img: Image, x: nat, y: nat): seq<PlacedFace>
    requires img.Valid()
  {
    if x < img.width && y < img.height && !IsEmptyPixel(img.Pixel(x, y))
    then Place(x, y, img.Pixel(x, y), CulledFaces(img, x, y))
    else []
  }

  /** The per-pixel faces as a function value, which the scan below is written over. */
  function Cells(img: Image): (nat, nat) -> seq<PlacedFace>
    requires img.Valid()
  {
    (x: nat, y: nat) => PixelFaces(img, x, y)
  }

  /** The cells of the first n pixels of row y, left to right. */
  function ScanRow(cell: (nat, nat) -> seq<PlacedFace>, y: nat, n: nat): seq<PlacedFace> {
    if n == 0 then [] else ScanRow(cell, y, n - 1) + cell(n - 1, y)
  }

  /** The cells of the first m rows of a grid `width` pixels wide, top to bottom. */
  function Scan(cell: (nat, nat) -> seq<PlacedFace>, width: nat, m: nat): seq<PlacedFace> {
    if m == 0 then [] else Scan(cell, width, m - 1) + ScanRow(cell, m - 1, width)
  }

  /** Every face the scan of the whole image emits, in emission order. */
  function MeshFaces(img: Image): seq<PlacedFace>
    requires img.Valid()
  {
    Scan(Cells(img), img.width, img.height)
  }

  /** The vertex list `image_to_vertices` returns. */
  function MeshVertices(img: Image, height: real): seq<Vertex>
    requires img.Valid()
  {
    Emit(height, MeshFaces(img))
  }

  /** The loop over the faces of one pixel in `image_to_vertices`: extends the vertex list with
      the six vertices of each face in turn. */
  method ExtendWithFaces(vertices: seq<Vertex>, x: nat, y: nat, pixel: Rgba, height: real, faces: seq<Face>)
    returns (extended: seq<Vertex>)
    ensures extended == vertices + Emit(height, Place(x, y, pixel, faces))
  {
    ghost var placed := Place(x, y, pixel, faces);
    extended := vertices;
    assert vertices + Emit(height, placed[..0]) == vertices;
    for i := 0 to |faces|
      invariant extended == vertices + Emit(height, placed[..i])
    {
      FaceStep(height, vertices, placed, i);
      extended := extended + FaceVertices(x as real, y as real, pixel, height, faces[i]);
    }
    assert placed[..|faces|] == placed;
  }

  /** The body of the loop over the pixels of a row: an empty pixel adds nothing; a solid one adds
      the six vertices of each of its culled faces. */
  method AppendPixel(vertices: seq<Vertex>, img: Image, x: nat, y: nat, height: real)
    returns (extended: seq<Vertex>)
    requires img.Valid() && x < img.width && y < img.height
    ensures extended == vertices + Emit(height, Cells(img)(x, y))
  {
    var pixel := img.Pixel(x, y);
    CellAt(img, x, y);
    if IsEmptyPixel(pixel) {
      assert vertices + Emit(height, []) == vertices;
      return vertices;
    }
    var faces := CullFaces(img, x, y);
    extended := ExtendWithFaces(vertices, x, y, pixel, height, faces);
  }

  /** The loop over the pixels of row y in `image_to_vertices`, x from 0 to the width. */
  method AppendRow(vertices: seq<Vertex>, img: Image, y: nat, height: real) returns (extended: seq<Vertex>)
    requires img.Valid() && y < img.height
    ensures extended == vertices + Emit(height, ScanRow(Cells(img), y, img.width))
  {
    ghost var cell := Cells(img);
    extended := vertices;
    assert vertices + Emit(height, ScanRow(cell, y, 0)) == vertices;
    for x := 0 to img.width
      invariant extended == vertices + Emit(height, ScanRow(cell, y, x))
    {
      RowStep(height, vertices, cell, y, x);
      extended := AppendPixel(extended, img, x, y, height);
    }
  }

  /** `image_to_vertices`: scans rows (y outer) and columns (x inner) and returns every vertex
      emitted, in that order. */
  method ImageToVertices(img: Image, height: real) returns (vertices: seq<Vertex>)
    requires img.Valid()
    ensures vertices == MeshVertices(img, height)
  {
    vertices := [];
    for y := 0 to img.height
      invariant vertices == Emit(height, Scan(Cells(img), img.width, y))
    {
      ScanRowStep(height, Cells(img), img.width, y);
      vertices := AppendRow(vertices, img, y, height);
    }
  }

  /** One more face extends the vertex list by that face's six vertices. */
  lemma FaceStep(height: real, vertices: seq<Vertex>, placed: seq<PlacedFace>, i: nat)
    requires i < |placed|
    ensures vertices + Emit(height, placed[..i])
              + FaceVertices(placed[i].x as real, placed[i].y as real, placed[i].pixel, height, placed[i].face)
         == vertices + Emit(height, placed[..i + 1])
  {
    SliceSnoc(placed, i);
    EmitSnoc(height, placed[..i], placed[i]);
  }

  /** One more pixel of a row extends the vertex list by that pixel's vertices. */
  lemma RowStep(height: real, vertices: seq<Vertex>, cell: (nat, nat) -> seq<PlacedFace>, y: nat, x: nat)
    ensures vertices + Emit(height, ScanRow(cell, y, x)) + Emit(height, cell(x, y))
         == vertices + Emit(height, ScanRow(cell, y, x + 1))
  {
    EmitAppend(height, ScanRow(cell, y, x), cell(x, y));
  }

  /** One more row extends the vertex list by that row's vertices. */
  lemma ScanRowStep(height: real, cell: (nat, nat) -> seq<PlacedFace>, width: nat, y: nat)
    ensures Emit(height, Scan(cell, width, y)) + Emit(height, ScanRow(cell, y, width))
         == Emit(height, Scan(cell, width, y + 1))
  {
    EmitAppend(height, Scan(cell, width, y), ScanRow(cell, y, width));
  }

  // ---------------------------------------------------------------------------------------------
  // What the scan promises.

  /** The face pf is one the scan emits: its pixel is inside the grid, solid, carries the pixel's
      colour, and the face is among that pixel's culled faces. */
  predicate Emitted(img: Image, pf: PlacedFace)
    requires img.Valid()
  {
    && pf.x < img.width && pf.y < img.height
    && pf.pixel == img.Pixel(pf.x, pf.y)
    && !IsEmptyPixel(pf.pixel)
    && pf.face in CulledFaces(img, pf.x, pf.y)
  }

  /** Emission order: row first, then column, then the order `cull_faces` pushes faces. */
  predicate Before(p: PlacedFace, q: PlacedFace) {
    || p.y < q.y
    || (p.y == q.y && p.x < q.x)
    || (p.y == q.y && p.x == q.x && PushRank(p.face) < PushRank(q.face))
  }

  predicate RowMajor(pfs: seq<PlacedFace>) {
    forall i, j :: 0 <= i < j < |pfs| ==> Before(pfs[i], pfs[j])
  }

  /** With blocks of six, the concatenation has six entries per element. */
  lemma {:induction false} FlatMapLength<T>(f: T -> seq<Vertex>, s: seq<T>)
    requires forall t :: |f(t)| == 6
    ensures |FlatMap(f, s)| == 6 * |s|
    decreases |s|
  {
    if s != [] {
      FlatMapLength(f, s[..|s| - 1]);
    }
  }

  /** The concatenation over a concatenation is the concatenation of the two. */
  lemma {:induction false} FlatMapAppend<T>(f: T -> seq<Vertex>, a: seq<T>, b: seq<T>)
    ensures FlatMap(f, a + b) == FlatMap(f, a) + FlatMap(f, b)
    decreases |b|
  {
    if b == [] {
      assert a + b == a;
    } else {
      FlatMapAppend(f, a, b[..|b| - 1]);
      assert (a + b)[..|a + b| - 1] == a + b[..|b| - 1];
    }
  }

  /** With blocks of six, block k of the concatenation is f of element k. */
  lemma {:induction false} FlatMapBlock<T>(f: T -> seq<Vertex>, s: seq<T>, k: nat)
    requires forall t :: |f(t)| == 6
    requires k < |s|
    ensures |FlatMap(f, s)| == 6 * |s|
    ensures FlatMap(f, s)[6 * k .. 6 * k + 6] == f(s[k])
    decreases |s|
  {
    FlatMapLength(f, s);
    var init := s[..|s| - 1];
    FlatMapLength(f, init);
    if k < |s| - 1 {
      FlatMapBlock(f, init, k);
      assert FlatMap(f, s)[6 * k .. 6 * k + 6] == FlatMap(f, init)[6 * k .. 6 * k + 6];
    }
  }

  /** Appending a face appends its six vertices. */
  lemma EmitSnoc(height: real, pfs: seq<PlacedFace>, pf: PlacedFace)
    ensures Emit(height, pfs + [pf])
         == Emit(height, pfs) + FaceVertices(pf.x as real, pf.y as real, pf.pixel, height, pf.face)
  {
    assert (pfs + [pf])[..|pfs|] == pfs;
  }

  /** The vertices of two lists of faces, one after the other. */
  lemma EmitAppend(height: real, a: seq<PlacedFace>, b: seq<PlacedFace>)
    ensures Emit(height, a + b) == Emit(height, a) + Emit(height, b)
  {
    FlatMapAppend(FaceOf(height), a, b);
  }

  /** Six vertices per face. */
  lemma EmitLength(height: real, pfs: seq<PlacedFace>)
    ensures |Emit(height, pfs)| == 6 * |pfs|
  {
    FlatMapLength(FaceOf(height), pfs);
  }

  /** Block k of the emitted vertices is the vertex table of face k. */
  lemma EmitBlock(height: real, pfs: seq<PlacedFace>, k: nat)
    requires k < |pfs|
    ensures |Emit(height, pfs)| == 6 * |pfs|
    ensures Emit(height, pfs)[6 * k .. 6 * k + 6]
         == FaceVertices(pfs[k].x as real, pfs[k].y as real, pfs[k].pixel, height, pfs[k].face)
  {
    FlatMapBlock(FaceOf(height), pfs, k);
  }

  /** The cell of a pixel inside the grid: empty for an empty pixel, else its culled faces. */
  lemma CellAt(img: Image, x: nat, y: nat)
    requires img.Valid() && x < img.width && y < img.height
    ensures IsEmptyPixel(img.Pixel(x, y)) ==> Cells(img)(x, y) == []
    ensures !IsEmptyPixel(img.Pixel(x, y)) ==> Cells(img)(x, y) == Place(x, y, img.Pixel(x, y), CulledFaces(img, x, y))
  {
  }

  /** The faces of one pixel: exactly its culled faces when it is solid, in push order. */
  lemma PixelFacesSpec(img: Image, x: nat, y: nat)
    requires img.Valid()
    ensures forall pf :: pf in PixelFaces(img, x, y) <==> Emitted(img, pf) && pf.x == x && pf.y == y
    ensures forall i :: 0 <= i < |PixelFaces(img, x, y)| ==> PixelFaces(img, x, y)[i].x == x && PixelFaces(img, x, y)[i].y == y
    ensures RowMajor(PixelFaces(img, x, y))
  {
    if x < img.width && y < img.height {
      CulledFacesSpec(img, x, y);
    }
  }

  /** A pixel inside the grid contributes no faces iff it is empty: a solid pixel always gets at
      least its Up and Down faces. */
  lemma PixelFacesEmptyIff(img: Image, x: nat, y: nat)
    requires img.Valid() && x < img.width && y < img.height
    ensures PixelFaces(img, x, y) == [] <==> IsEmptyPixel(img.Pixel(x, y))
  {
    CulledFacesSpec(img, x, y);
  }

  /** Cell (x, y) holds only faces placed at (x, y). */
  ghost predicate CellsPlaced(cell: (nat, nat) -> seq<PlacedFace>) {
    forall x: nat, y: nat, i :: 0 <= i < |cell(x, y)| ==> cell(x, y)[i].x == x && cell(x, y)[i].y == y
  }

  /** Each cell lists its faces in emission order. */
  ghost predicate CellsOrdered(cell: (nat, nat) -> seq<PlacedFace>) {
    forall x: nat, y: nat :: RowMajor(cell(x, y))
  }

  /** The cells of the image place their faces at their own pixel, in emission order, and hold
      exactly the emitted faces. */
  lemma CellsSpec(img: Image)
    requires img.Valid()
    ensures CellsPlaced(Cells(img)) && CellsOrdered(Cells(img))
    ensures forall pf: PlacedFace :: pf in Cells(img)(pf.x, pf.y) <==> Emitted(img, pf)
  {
    forall x: nat, y: nat
      ensures Cells(img)(x, y) == PixelFaces(img, x, y)
      ensures forall pf :: pf in Cells(img)(x, y) <==> Emitted(img, pf) && pf.x == x && pf.y == y
      ensures forall i :: 0 <= i < |Cells(img)(x, y)| ==> Cells(img)(x, y)[i].x == x && Cells(img)(x, y)[i].y == y
      ensures RowMajor(Cells(img)(x, y))
    {
      PixelFacesSpec(img, x, y);
    }
  }

  /** A row prefix holds faces of row y and of its first n columns only. */
  lemma {:induction false} ScanRowPlace(cell: (nat, nat) -> seq<PlacedFace>, y: nat, n: nat)
    requires CellsPlaced(cell)
    ensures forall i :: 0 <= i < |ScanRow(cell, y, n)| ==> ScanRow(cell, y, n)[i].y == y && ScanRow(cell, y, n)[i].x < n
  {
    if n > 0 {
      ScanRowPlace(cell, y, n - 1);
      var a, b := ScanRow(cell, y, n - 1), cell(n - 1, y);
      assert ScanRow(cell, y, n) == a + b;
    }
  }

  /** A row prefix holds exactly the faces of the cells of its first n columns. */
  lemma {:induction false} ScanRowMembers(cell: (nat, nat) -> seq<PlacedFace>, y: nat, n: nat, pf: PlacedFace)
    requires CellsPlaced(cell)
    ensures pf in ScanRow(cell, y, n) <==> pf.y == y && pf.x < n && pf in cell(pf.x, y)
  {
    if n > 0 {
      ScanRowMembers(cell, y, n - 1, pf);
      var a, b := ScanRow(cell, y, n - 1), cell(n - 1, y);
      assert ScanRow(cell, y, n) == a + b;
      if pf in b {
        var i :| 0 <= i < |b| && b[i] == pf;
      }
      InAppend(a, b, pf);
    }
  }

  /** Two lists in emission order, every entry of the first before every entry of the second,
      concatenate to a list in emission order. */
  lemma RowMajorAppend(a: seq<PlacedFace>, b: seq<PlacedFace>)
    requires RowMajor(a) && RowMajor(b)
    requires forall i, j :: 0 <= i < |a| && 0 <= j < |b| ==> Before(a[i], b[j])
    ensures RowMajor(a + b)
  {
    forall i, j | 0 <= i < j < |a + b|
      ensures Before((a + b)[i], (a + b)[j])
    {
      if j < |a| {
        assert (a + b)[i] == a[i] && (a + b)[j] == a[j];
      } else if i >= |a| {
        assert (a + b)[i] == b[i - |a|] && (a + b)[j] == b[j - |a|];
      } else {
        assert (a + b)[i] == a[i] && (a + b)[j] == b[j - |a|];
      }
    }
  }

  /** A row prefix lists its faces in emission order. */
  lemma {:induction false} ScanRowOrder(cell: (nat, nat) -> seq<PlacedFace>, y: nat, n: nat)
    requires CellsPlaced(cell) && CellsOrdered(cell)
    ensures RowMajor(ScanRow(cell, y, n))
  {
    if n > 0 {
      ScanRowOrder(cell, y, n - 1);
      ScanRowPlace(cell, y, n - 1);
      var a, b := ScanRow(cell, y, n - 1), cell(n - 1, y);
      assert ScanRow(cell, y, n) == a + b;
      assert RowMajor(b);
      assert forall i, j :: 0 <= i < |a| && 0 <= j < |b| ==> Before(a[i], b[j]);
      RowMajorAppend(a, b);
    }
  }

  /** The first m rows hold faces of those rows and of columns below `width` only. */
  lemma {:induction false} ScanPlace(cell: (nat, nat) -> seq<PlacedFace>, width: nat, m: nat)
    requires CellsPlaced(cell)
    ensures forall i :: 0 <= i < |Scan(cell, width, m)| ==> Scan(cell, width, m)[i].y < m && Scan(cell, width, m)[i].x < width
  {
    if m > 0 {
      ScanPlace(cell, width, m - 1);
      ScanRowPlace(cell, m - 1, width);
      var a, b := Scan(cell, width, m - 1), ScanRow(cell, m - 1, width);
      assert Scan(cell, width, m) == a + b;
    }
  }

  /** The first m rows hold exactly the faces of their cells. */
  lemma {:induction false} ScanMembers(cell: (nat, nat) -> seq<PlacedFace>, width: nat, m: nat, pf: PlacedFace)
    requires CellsPlaced(cell)
    ensures pf in Scan(cell, width, m) <==> pf.y < m && pf.x < width && pf in cell(pf.x, pf.y)
  {
    if m > 0 {
      ScanMembers(cell, width, m - 1, pf);
      ScanRowMembers(cell, m - 1, width, pf);
      var a, b := Scan(cell, width, m - 1), ScanRow(cell, m - 1, width);
      assert Scan(cell, width, m) == a + b;
      InAppend(a, b, pf);
    }
  }

  /** The first m rows list their faces in emission order. */
  lemma {:induction false} ScanOrder(cell: (nat, nat) -> seq<PlacedFace>, width: nat, m: nat)
    requires CellsPlaced(cell) && CellsOrdered(cell)
    ensures RowMajor(Scan(cell, width, m))
  {
    if m > 0 {
      ScanOrder(cell, width, m - 1);
      ScanRowOrder(cell, m - 1, width);
      ScanPlace(cell, width, m - 1);
      ScanRowPlace(cell, m - 1, width);
      var a, b := Scan(cell, width, m - 1), ScanRow(cell, m - 1, width);
      assert Scan(cell, width, m) == a + b;
      assert forall i, j :: 0 <= i < |a| && 0 <= j < |b| ==> Before(a[i], b[j]);
      RowMajorAppend(a, b);
    }
  }

  /** The scan emits exactly the culled faces of the solid pixels, row-major; one face per entry. */
  lemma MeshFacesSpec(img: Image)
    requires img.Valid()
    ensures forall pf :: pf in MeshFaces(img) <==> Emitted(img, pf)
    ensures RowMajor(MeshFaces(img))
  {
    forall pf: PlacedFace
      ensures pf in MeshFaces(img) <==> Emitted(img, pf)
    {
      MeshFacesMember(img, pf);
    }
    CellsSpec(img);
    ScanOrder(Cells(img), img.width, img.height);
  }

  /** The membership half of `MeshFacesSpec`, for one face. */
  lemma MeshFacesMember(img: Image, pf: PlacedFace)
    requires img.Valid()
    ensures pf in MeshFaces(img) <==> Emitted(img, pf)
  {
    CellsSpec(img);
    ScanMembers(Cells(img), img.width, img.height, pf);
  }

  /** The mesh is the row-major concatenation of six vertices per emitted face: its length is six times
      the number of faces, and block k holds the vertex table of face k. */
  lemma MeshVerticesBlocks(img: Image, height: real, k: nat)
    requires img.Valid() && k < |MeshFaces(img)|
    ensures |MeshVertices(img, height)| == 6 * |MeshFaces(img)|
    ensures var pf := MeshFaces(img)[k];
      && Emitted(img, pf)
      && MeshVertices(img, height)[6 * k .. 6 * k + 6]
         == FaceVertices(pf.x as real, pf.y as real, img.Pixel(pf.x, pf.y), height, pf.face)
  {
    MeshFacesSpec(img);
    assert MeshFaces(img)[k] in MeshFaces(img);
    EmitBlock(height, MeshFaces(img), k);
  }

  /** Six vertices per emitted face, so the mesh's length is a multiple of six. */
  lemma MeshVerticesLength(img: Image, height: real)
    requires img.Valid()
    ensures |MeshVertices(img, height)| == 6 * |MeshFaces(img)|
    ensures |MeshVertices(img, height)| % 6 == 0
  {
    EmitLength(height, MeshFaces(img));
  }

  /** The mesh is empty exactly when every pixel is empty (a zero-size image included). */
  lemma MeshEmptyIff(img: Image, height: real)
    requires img.Valid()
    ensures MeshVertices(img, height) == [] <==>
      forall x: nat, y: nat :: x < img.width && y < img.height ==> IsEmptyPixel(img.Pixel(x, y))
  {
    EmitLength(height, MeshFaces(img));
    if MeshFaces(img) != [] {
      var pf := MeshFaces(img)[0];
      MeshFacesMember(img, pf);
      assert pf.x < img.width && pf.y < img.height && !IsEmptyPixel(img.Pixel(pf.x, pf.y));
    }
    if exists x: nat, y: nat :: x < img.width && y < img.height && !IsEmptyPixel(img.Pixel(x, y)) {
      var x: nat, y: nat :| x < img.width && y < img.height && !IsEmptyPixel(img.Pixel(x, y));
      var pf := PlacedFace(x, y, img.Pixel(x, y), Up);
      CulledFacesSpec(img, x, y);
      MeshFacesMember(img, pf);
      assert pf in MeshFaces(img);
    }
  }

  // ---------------------------------------------------------------------------------------------
  // The scan over the corrected culling rule.

  /** A visible face of a solid pixel: the faces the corrected rule emits. */
  predicate VisibleFace(img: Image, pf: PlacedFace)
    requires img.Valid()
  {
    && pf.x < img.width && pf.y < img.height
    && pf.pixel == img.Pixel(pf.x, pf.y)
    && !IsEmptyPixel(pf.pixel)
    && Visible(img, pf.x, pf.y, pf.face)
  }

  /** The faces one pixel contributes under the corrected rule. */
  function IntendedPixelFaces(img: Image, x: nat, y: nat): seq<PlacedFace>
    requires img.Valid()
  {
    if x < img.width && y < img.height && !IsEmptyPixel(img.Pixel(x, y))
    then Place(x, y, img.Pixel(x, y), IntendedFaces(img, x, y))
    else []
  }

  function IntendedCells(img: Image): (nat, nat) -> seq<PlacedFace>
    requires img.Valid()
  {
    (x: nat, y: nat) => IntendedPixelFaces(img, x, y)
  }

  /** The faces of the corrected mesh, in the same scan order. */
  function IntendedMeshFaces(img: Image): seq<PlacedFace>
    requires img.Valid()
  {
    Scan(IntendedCells(img), img.width, img.height)
  }

  /** The corrected mesh: six vertices per visible face. */
  function IntendedMeshVertices(img: Image, height: real): seq<Vertex>
    requires img.Valid()
  {
    Emit(height, IntendedMeshFaces(img))
  }

  /** One pixel's corrected faces: exactly its visible faces when it is solid, in push order. */
  lemma IntendedPixelFacesSpec(img: Image, x: nat, y: nat)
    requires img.Valid()
    ensures forall pf :: pf in IntendedPixelFaces(img, x, y) <==> VisibleFace(img, pf) && pf.x == x && pf.y == y
    ensures forall i :: 0 <= i < |IntendedPixelFaces(img, x, y)| ==>
      IntendedPixelFaces(img, x, y)[i].x == x && IntendedPixelFaces(img, x, y)[i].y == y
    ensures RowMajor(IntendedPixelFaces(img, x, y))
  {
    if x < img.width && y < img.height {
      IntendedFacesSpec(img, x, y);
    }
  }

  lemma IntendedCellsSpec(img: Image)
    requires img.Valid()
    ensures CellsPlaced(IntendedCells(img)) && CellsOrdered(IntendedCells(img))
    ensures forall pf: PlacedFace :: pf in IntendedCells(img)(pf.x, pf.y) <==> VisibleFace(img, pf)
  {
    forall x: nat, y: nat
      ensures IntendedCells(img)(x, y) == IntendedPixelFaces(img, x, y)
      ensures forall pf :: pf in IntendedCells(img)(x, y) <==> VisibleFace(img, pf) && pf.x == x && pf.y == y
      ensures forall i :: 0 <= i < |IntendedCells(img)(x, y)| ==>
        IntendedCells(img)(x, y)[i].x == x && IntendedCells(img)(x, y)[i].y == y
      ensures RowMajor(IntendedCells(img)(x, y))
    {
      IntendedPixelFacesSpec(img, x, y);
    }
  }

  /** The corrected mesh holds exactly the visible faces of the solid pixels, row-major. */
  lemma IntendedMeshFacesSpec(img: Image)
    requires img.Valid()
    ensures forall pf :: pf in IntendedMeshFaces(img) <==> VisibleFace(img, pf)
    ensures RowMajor(IntendedMeshFaces(img))
  {
    forall pf: PlacedFace
      ensures pf in IntendedMeshFaces(img) <==> VisibleFace(img, pf)
    {
      IntendedMeshFacesMember(img, pf);
    }
    IntendedCellsSpec(img);
    ScanOrder(IntendedCells(img), img.width, img.height);
  }

  lemma IntendedMeshFacesMember(img: Image, pf: PlacedFace)
    requires img.Valid()
    ensures pf in IntendedMeshFaces(img) <==> VisibleFace(img, pf)
  {
    IntendedCellsSpec(img);
    ScanMembers(IntendedCells(img), img.width, img.height, pf);
  }

  /** Every face the program emits is one the corrected mesh emits too: its faces are a subset. */
  lemma MeshFacesWithinIntended(img: Image, pf: PlacedFace)
    requires img.Valid() && pf in MeshFaces(img)
    ensures pf in IntendedMeshFaces(img)
  {
    MeshFacesMember(img, pf);
    CulledFacesAreVisible(img, pf.x, pf.y, pf.face);
    IntendedMeshFacesMember(img, pf);
  }

  /** The position of a vertex lies in the image's box [0, width] x [0, rows] x {0, height}. */
  predicate InImageBox(p: Vec3, width: nat, rows: nat, height: real) {
    0.0 <= p.x <= width as real && 0.0 <= p.y <= rows as real && (p.z == 0.0 || p.z == height)
  }

  /** Vertex i of the emitted list is vertex i % 6 of face i / 6. */
  lemma EmitAt(height: real, pfs: seq<PlacedFace>, i: nat)
    requires i < |Emit(height, pfs)|
    ensures i / 6 < |pfs|
    ensures var pf := pfs[i / 6];
      Emit(height, pfs)[i] == FaceVertices(pf.x as real, pf.y as real, pf.pixel, height, pf.face)[i % 6]
  {
    EmitLength(height, pfs);
    BlockIndex(Emit(height, pfs), |pfs|, i);
    EmitBlock(height, pfs, i / 6);
  }

  /** Element i of a list of n six-element blocks is element i % 6 of block i / 6. */
  lemma BlockIndex<T>(s: seq<T>, n: nat, i: nat)
    requires |s| == 6 * n && i < |s|
    ensures i / 6 < n
    ensures s[i] == s[6 * (i / 6) .. 6 * (i / 6) + 6][i % 6]
  {
    var k, j := i / 6, i % 6;
    assert i == 6 * k + j && j < 6;
  }

  /** Every vertex the scan emits carries the axis-unit normal of its face and its pixel's colour. */
  lemma EmitNormalsAndColors(height: real, pfs: seq<PlacedFace>)
    ensures forall i :: 0 <= i < |Emit(height, pfs)| ==>
      i / 6 < |pfs|
      && Emit(height, pfs)[i].normal == Normal(pfs[i / 6].face)
      && IsAxisUnit(Emit(height, pfs)[i].normal)
      && Emit(height, pfs)[i].color == Color(pfs[i / 6].pixel)
  {
    forall i | 0 <= i < |Emit(height, pfs)|
      ensures i / 6 < |pfs|
      ensures Emit(height, pfs)[i].normal == Normal(pfs[i / 6].face)
      ensures Emit(height, pfs)[i].color == Color(pfs[i / 6].pixel)
    {
      EmitAt(height, pfs, i);
      var pf := pfs[i / 6];
      FaceVerticesSpec(pf.x as real, pf.y as real, pf.pixel, height, pf.face);
    }
  }

  /** Faces of pixels inside a width x rows grid give vertices inside its box. */
  lemma EmitInBox(height: real, pfs: seq<PlacedFace>, width: nat, rows: nat)
    requires forall k :: 0 <= k < |pfs| ==> pfs[k].x < width && pfs[k].y < rows
    ensures forall i :: 0 <= i < |Emit(height, pfs)| ==> InImageBox(Emit(height, pfs)[i].position, width, rows, height)
  {
    forall i | 0 <= i < |Emit(height, pfs)|
      ensures InImageBox(Emit(height, pfs)[i].position, width, rows, height)
    {
      EmitAt(height, pfs, i);
      FaceVertexInBox(pfs[i / 6], height, i % 6, width, rows);
    }
  }

  /** Each vertex of a face of a pixel inside a w x h grid lies in [0, w] x [0, h] x {0, height}. */
  lemma FaceVertexInBox(pf: PlacedFace, height: real, j: nat, width: nat, rows: nat)
    requires pf.x < width && pf.y < rows && j < 6
    ensures InImageBox(FaceVertices(pf.x as real, pf.y as real, pf.pixel, height, pf.face)[j].position, width, rows, height)
  {
    var x, y := pf.x as real, pf.y as real;
    assert FaceVertices(x, y, pf.pixel, height, pf.face)[j].position == Corner(x, y, height, pf.face, j);
    CornerSpec(x, y, height, pf.face, j);
  }

  /** Every mesh vertex lies in the image's box. */
  lemma MeshVerticesInImage(img: Image, height: real)
    requires img.Valid()
    ensures forall i :: 0 <= i < |MeshVertices(img, height)| ==>
      InImageBox(MeshVertices(img, height)[i].position, img.width, img.height, height)
  {
    MeshFacesSpec(img);
    var pfs := MeshFaces(img);
    assert forall i :: 0 <= i < |pfs| ==> pfs[i].x < img.width && pfs[i].y < img.height by {
      forall i | 0 <= i < |pfs|
        ensures pfs[i].x < img.width && pfs[i].y < img.height
      {
        assert pfs[i] in pfs;
      }
    }
    EmitInBox(height, pfs, img.width, img.height);
  }

  // ---------------------------------------------------------------------------------------------
  // A worked case.

  /** A single opaque white pixel. */
  function OnePixel(): (img: Image)
    ensures img.Valid()
  {
    Image(1, 1, [[Rgba(255, 255, 255, 255)]])
  }

  /** The program turns a single opaque pixel into four faces, 24 vertices: no Right and no Back
      face, so the voxel is open on two sides; the corrected rule gives all six faces. */
  lemma OnePixelMesh(height: real)
    ensures var p := Rgba(255, 255, 255, 255);
      MeshFaces(OnePixel()) == [PlacedFace(0, 0, p, Up), PlacedFace(0, 0, p, Down),
                                PlacedFace(0, 0, p, Left), PlacedFace(0, 0, p, Forward)]
    ensures |MeshVertices(OnePixel(), height)| == 24
    ensures IntendedFaces(OnePixel(), 0, 0) == [Up, Down, Right, Left, Back, Forward]
  {
    var img := OnePixel();
    var cell := Cells(img);
    CellAt(img, 0, 0);
    assert CulledFaces(img, 0, 0) == [Up, Down, Left, Forward];
    assert Scan(cell, 1, 1) == Scan(cell, 1, 0) + ScanRow(cell, 0, 1);
    assert ScanRow(cell, 0, 1) == ScanRow(cell, 0, 0) + cell(0, 0);
    EmitLength(height, MeshFaces(img));
  }

  /** Under the corrected rule the same pixel becomes a closed voxel of six faces, 36 vertices. */
  lemma OnePixelIntendedMesh(height: real)
    ensures |IntendedMeshFaces(OnePixel())| == 6
    ensures |IntendedMeshVertices(OnePixel(), height)| == 36
  {
    var img := OnePixel();
    var intended := IntendedCells(img);
    assert IntendedFaces(img, 0, 0) == [Up, Down, Right, Left, Back, Forward];
    assert Scan(intended, 1, 1) == Scan(intended, 1, 0) + ScanRow(intended, 0, 1);
    assert ScanRow(intended, 0, 1) == ScanRow(intended, 0, 0) + intended(0, 0);
    EmitLength(height, IntendedMeshFaces(img));
  }

  /** Two opaque pixels side by side in one row. */
  function TwoOpaque(): (img: Image)
    ensures img.Valid()
  {
    Image(2, 1, [[Rgba(255, 255, 255, 255), Rgba(255, 255, 255, 255)]])
  }

  /** The program gives the pair eight faces: each pixel gets one x-face and, in a one-row image,
      only Forward on the y-axis. The shared side is hidden on both pixels, but so is every Back face. */
  lemma TwoOpaqueMesh()
    ensures var img, p := TwoOpaque(), Rgba(255, 255, 255, 255);
      MeshFaces(img) == [PlacedFace(0, 0, p, Up), PlacedFace(0, 0, p, Down),
                         PlacedFace(0, 0, p, Left), PlacedFace(0, 0, p, Forward),
                         PlacedFace(1, 0, p, Up), PlacedFace(1, 0, p, Down),
                         PlacedFace(1, 0, p, Right), PlacedFace(1, 0, p, Forward)]
  {
    var img := TwoOpaque();
    var cell := Cells(img);
    CellAt(img, 0, 0);
    CellAt(img, 1, 0);
    assert CulledFaces(img, 0, 0) == [Up, Down, Left, Forward];
    assert CulledFaces(img, 1, 0) == [Up, Down, Right, Forward];
    assert Scan(cell, 2, 1) == Scan(cell, 2, 0) + ScanRow(cell, 0, 2);
    assert ScanRow(cell, 0, 2) == ScanRow(cell, 0, 0) + cell(0, 0) + cell(1, 0);
  }

  /** Under the corrected rule the pair has the 2 * 6 - 2 = 10 faces of two voxels sharing a side. */
  lemma TwoOpaqueIntendedMesh()
    ensures |IntendedMeshFaces(TwoOpaque())| == 10
  {
    var img := TwoOpaque();
    var cell := IntendedCells(img);
    assert IntendedFaces(img, 0, 0) == [Up, Down, Left, Back, Forward];
    assert IntendedFaces(img, 1, 0) == [Up, Down, Right, Back, Forward];
    assert Scan(cell, 2, 1) == Scan(cell, 2, 0) + ScanRow(cell, 0, 2);
    assert ScanRow(cell, 0, 2) == ScanRow(cell, 0, 0) + cell(0, 0) + cell(1, 0);
  }
}
