/** The glTF document the mesh is described by (`create_gltf_root`, src/lib.rs:48-116, and
    `create_accessors`, src/lib.rs:227-290): an arena of buffers, buffer views, accessors, meshes,
    nodes and scenes, in which entries refer to each other by their index in the arena. */
module Container {
  import opened Types
  import opened Pixels
  import opened Mesh
  import opened Bounds
  import opened Packing

  /** A buffer: its length in bytes and where its data lives (None: the GLB's own binary chunk). */
  datatype Buffer = Buffer(byteLength: nat, uri: Option<string>)

  /** The target a buffer view is bound to. */
  datatype Target = ArrayBuffer | ElementArrayBuffer

  /** A window on a buffer: which buffer, its length, offset and stride in bytes, and its target. */
  datatype View = View(buffer: nat, byteLength: nat, byteOffset: Option<nat>, byteStride: Option<nat>,
                       target: Option<Target>)

  datatype ComponentType = F32
  datatype AccessorType = Vec3Type

  /** A typed view of the records of a buffer view: `count` elements read at `byteOffset` of each
      record, with optional per-component bounds. */
  datatype Accessor = Accessor(bufferView: Option<nat>, byteOffset: Option<nat>, count: nat,
                               componentType: ComponentType, accessorType: AccessorType,
                               min: Option<Vec3>, max: Option<Vec3>, normalized: bool)

  /** The vertex attributes a primitive names. */
  datatype Semantic = Positions | Normals | Colors(set_index: nat)

  datatype PrimitiveMode = Triangles

  /** One draw call: each attribute names an accessor; no index buffer and no material. */
  datatype Primitive = Primitive(attributes: map<Semantic, nat>, indices: Option<nat>,
                                 material: Option<nat>, mode: PrimitiveMode)

  /** A glTF mesh: its primitives. */
  datatype GltfMesh = GltfMesh(primitives: seq<Primitive>)

  /** A scene node, possibly showing a mesh. */
  datatype Node = Node(mesh: Option<nat>)

  /** A scene: the root nodes it displays. */
  datatype Scene = Scene(nodes: seq<nat>)

  /** The three accessor indices `create_accessors` returns (`VoxelAccessors`). */
  datatype VoxelAccessors = VoxelAccessors(positions: nat, normals: nat, colors: nat)

  /** `gltf::json::Root`: the arena. Each `push` appends an entry and returns its index. */
  class Root {
    var buffers: seq<Buffer>
    var views: seq<View>
    var accessors: seq<Accessor>
    var meshes: seq<GltfMesh>
    var nodes: seq<Node>
    var scenes: seq<Scene>

    /** Every index stored in an entry is the index of an entry of the list it refers to. */
    predicate Valid()
      reads this
    {
      && (forall i :: 0 <= i < |views| ==> views[i].buffer < |buffers|)
      && (forall i :: 0 <= i < |accessors| ==> AccessorRefsIn(accessors[i], |views|))
      && (forall i :: 0 <= i < |meshes| ==> MeshRefsIn(meshes[i], |accessors|))
      && (forall i :: 0 <= i < |nodes| ==> NodeRefsIn(nodes[i], |meshes|))
      && (forall i :: 0 <= i < |scenes| ==> SceneRefsIn(scenes[i], |nodes|))
    }

    /** `Root::default()`: every list empty. */
    constructor()
      ensures buffers == [] && views == [] && accessors == [] && meshes == [] && nodes == [] && scenes == []
      ensures Valid()
    {
      buffers, views, accessors, meshes, nodes := [], [], [], [], [];
      scenes := [];
    }

    method PushBuffer(b: Buffer) returns (index: nat)
      modifies this
      ensures index == |old(buffers)| && buffers == old(buffers) + [b]
      ensures views == old(views) && accessors == old(accessors) && meshes == old(meshes)
      ensures nodes == old(nodes) && scenes == old(scenes)
      ensures old(Valid()) ==> Valid()
    {
      index := |buffers|;
      buffers := buffers + [b];
    }

    method PushView(v: View) returns (index: nat)
      modifies this
      ensures index == |old(views)| && views == old(views) + [v]
      ensures buffers == old(buffers) && accessors == old(accessors) && meshes == old(meshes)
      ensures nodes == old(nodes) && scenes == old(scenes)
      ensures old(Valid()) && v.buffer < |buffers| ==> Valid()
    {
      index := |views|;
      views := views + [v];
    }

    method PushAccessor(a: Accessor) returns (index: nat)
      modifies this
      ensures index == |old(accessors)| && accessors == old(accessors) + [a]
      ensures buffers == old(buffers) && views == old(views) && meshes == old(meshes)
      ensures nodes == old(nodes) && scenes == old(scenes)
      ensures old(Valid()) && AccessorRefsIn(a, |views|) ==> Valid()
    {
      index := |accessors|;
      accessors := accessors + [a];
      assert forall i :: 0 <= i < |meshes| ==> MeshRefsIn(meshes[i], |old(accessors)|) ==> MeshRefsIn(meshes[i], |accessors|);
    }

    method PushMesh(m: GltfMesh) returns (index: nat)
      modifies this
      ensures index == |old(meshes)| && meshes == old(meshes) + [m]
      ensures buffers == old(buffers) && views == old(views) && accessors == old(accessors)
      ensures nodes == old(nodes) && scenes == old(scenes)
      ensures old(Valid()) && MeshRefsIn(m, |accessors|) ==> Valid()
    {
      index := |meshes|;
      meshes := meshes + [m];
    }

    method PushNode(n: Node) returns (index: nat)
      modifies this
      ensures index == |old(nodes)| && nodes == old(nodes) + [n]
      ensures buffers == old(buffers) && views == old(views) && accessors == old(accessors)
      ensures meshes == old(meshes) && scenes == old(scenes)
      ensures old(Valid()) && NodeRefsIn(n, |meshes|) ==> Valid()
    {
      index := |nodes|;
      nodes := nodes + [n];
    }

    method PushScene(s: Scene) returns (index: nat)
      modifies this
      ensures index == |old(scenes)| && scenes == old(scenes) + [s]
      ensures buffers == old(buffers) && views == old(views) && accessors == old(accessors)
      ensures meshes == old(meshes) && nodes == old(nodes)
      ensures old(Valid()) && SceneRefsIn(s, |nodes|) ==> Valid()
    {
      index := |scenes|;
      scenes := scenes + [s];
    }
  }

  predicate AccessorRefsIn(a: Accessor, views: nat) {
    a.bufferView.Some? ==> a.bufferView.value < views
  }

  predicate PrimitiveRefsIn(p: Primitive, accessors: nat) {
    && (forall s :: s in p.attributes ==> p.attributes[s] < accessors)
    && (p.indices.Some? ==> p.indices.value < accessors)
  }

  predicate MeshRefsIn(m: GltfMesh, accessors: nat) {
    forall i :: 0 <= i < |m.primitives| ==> PrimitiveRefsIn(m.primitives[i], accessors)
  }

  predicate NodeRefsIn(n: Node, meshes: nat) {
    n.mesh.Some? ==> n.mesh.value < meshes
  }

  predicate SceneRefsIn(s: Scene, nodes: nat) {
    forall i :: 0 <= i < |s.nodes| ==> s.nodes[i] < nodes
  }

  /** The three accessors over the interleaved vertex records of view `view`: positions at offset 0
      with the bounding box, normals at offset 12 with the box [-1, 1]^3, colours at offset 24
      without bounds; each counts every vertex. */
  function PositionsAccessor(view: nat, vertices: seq<Vertex>): Accessor {
    Accessor(Some(view), Some(0), |vertices|, F32, Vec3Type, Some(Lower(vertices)), Some(Upper(vertices)), false)
  }

  function NormalsAccessor(view: nat, vertices: seq<Vertex>): Accessor {
    Accessor(Some(view), Some(3 * F32_SIZE), |vertices|, F32, Vec3Type,
             Some(Vec3(-1.0, -1.0, -1.0)), Some(Vec3(1.0, 1.0, 1.0)), false)
  }

  function ColorsAccessor(view: nat, vertices: seq<Vertex>): Accessor {
    Accessor(Some(view), Some(6 * F32_SIZE), |vertices|, F32, Vec3Type, None, None, false)
  }

  /** `create_accessors`: computes the bounding box and pushes the positions, normals and colours
      accessors, in that order. */
  method CreateAccessors(root: Root, view: nat, vertices: seq<Vertex>) returns (acc: VoxelAccessors)
    modifies root
    ensures var n := |old(root.accessors)|;
      && acc == VoxelAccessors(n, n + 1, n + 2)
      && root.accessors == old(root.accessors)
           + [PositionsAccessor(view, vertices), NormalsAccessor(view, vertices), ColorsAccessor(view, vertices)]
    ensures root.buffers == old(root.buffers) && root.views == old(root.views)
    ensures root.meshes == old(root.meshes) && root.nodes == old(root.nodes) && root.scenes == old(root.scenes)
    ensures old(root.Valid()) && view < |root.views| ==> root.Valid()
  {
    var min, max := BoundingCoords(vertices);
    var positions := root.PushAccessor(Accessor(Some(view), Some(0), |vertices|, F32, Vec3Type, Some(min), Some(max), false));
    var normals := root.PushAccessor(Accessor(Some(view), Some(3 * F32_SIZE), |vertices|, F32, Vec3Type,
                                              Some(Vec3(-1.0, -1.0, -1.0)), Some(Vec3(1.0, 1.0, 1.0)), false));
    var colors := root.PushAccessor(Accessor(Some(view), Some(6 * F32_SIZE), |vertices|, F32, Vec3Type, None, None, false));
    acc := VoxelAccessors(positions, normals, colors);
  }

  /** The primitive `create_gltf_root` builds: POSITION, NORMAL and COLOR_0 name the three accessors. */
  function VoxelPrimitive(acc: VoxelAccessors): Primitive {
    Primitive(map[Positions := acc.positions, Normals := acc.normals, Colors(0) := acc.colors], None, None, Triangles)
  }

  /** `create_gltf_root`: one buffer of `calculate_buffer_length` bytes, one view of it with stride
      36 for vertex data, the three accessors, a mesh with one triangle primitive, a node showing the
      mesh and a scene holding the node. */
  method CreateGltfRoot(vertices: seq<Vertex>, uri: Option<string>) returns (root: Root)
    ensures fresh(root) && root.Valid()
    ensures root.buffers == [Buffer(BufferLength(vertices), uri)]
    ensures root.views == [View(0, BufferLength(vertices), None, Some(VERTEX_SIZE), Some(ArrayBuffer))]
    ensures root.accessors == [PositionsAccessor(0, vertices), NormalsAccessor(0, vertices), ColorsAccessor(0, vertices)]
    ensures root.meshes == [GltfMesh([VoxelPrimitive(VoxelAccessors(0, 1, 2))])]
    ensures root.nodes == [Node(Some(0))]
    ensures root.scenes == [Scene([0])]
  {
    root := new Root();
    var length := BufferLength(vertices);
    var buffer := root.PushBuffer(Buffer(length, uri));
    var view := root.PushView(View(buffer, length, None, Some(VERTEX_SIZE), Some(ArrayBuffer)));
    var acc := CreateAccessors(root, view, vertices);
    var mesh := root.PushMesh(GltfMesh([VoxelPrimitive(acc)]));
    var node := root.PushNode(Node(Some(mesh)));
    var scene := root.PushScene(Scene([node]));
  }

  /** The primitive's attributes are exactly the three vertex attributes, each naming its own
      accessor, and they name the accessors in the order they were pushed. */
  lemma VoxelPrimitiveAttributes(acc: VoxelAccessors)
    requires acc.normals == acc.positions + 1 && acc.colors == acc.positions + 2
    ensures var p := VoxelPrimitive(acc);
      && p.attributes.Keys == {Positions, Normals, Colors(0)}
      && p.attributes[Positions] == acc.positions
      && p.attributes[Normals] == acc.normals
      && p.attributes[Colors(0)] == acc.colors
      && PrimitiveRefsIn(p, acc.positions + 3)
      && !PrimitiveRefsIn(p, acc.positions + 2)
  {
    var p := VoxelPrimitive(acc);
    assert Colors(0) in p.attributes;
  }

  /** The three accessors read disjoint 12-byte fields of each 36-byte record: the positions, normals
      and colours fields of the vertex layout. */
  lemma AccessorsMatchVertexLayout(view: nat, vertices: seq<Vertex>)
    ensures var offsets := [PositionsAccessor(view, vertices).byteOffset, NormalsAccessor(view, vertices).byteOffset,
                            ColorsAccessor(view, vertices).byteOffset];
      forall k :: 0 <= k < 3 ==> offsets[k] == Some(3 * F32_SIZE * k) && 3 * F32_SIZE * k + 3 * F32_SIZE <= VERTEX_SIZE
  {
  }

  /** For a mesh of a non-empty image, the positions accessor's bounds lie in the image's box. */
  lemma PositionsBoundsInImage(img: Image, height: real, view: nat)
    requires img.Valid() && MeshVertices(img, height) != []
    requires F32_MIN <= height <= F32_MAX && img.width as real <= F32_MAX && img.height as real <= F32_MAX
    ensures var a := PositionsAccessor(view, MeshVertices(img, height));
      && 0.0 <= a.min.value.x && a.max.value.x <= img.width as real
      && 0.0 <= a.min.value.y && a.max.value.y <= img.height as real
      && Min(0.0, height) <= a.min.value.z && a.max.value.z <= Max(0.0, height)
  {
    MeshBoundsInImage(img, height, 0);
    MeshBoundsInImage(img, height, 1);
    MeshBoundsInImage(img, height, 2);
  }

  /** The fixed bounds of the normals accessor hold: every emitted normal lies in [-1, 1]^3. This
      covers the mesh, whose vertices are `Emit(height, MeshFaces(img))`. */
  lemma NormalsWithinAccessorBounds(height: real, pfs: seq<PlacedFace>, view: nat)
    ensures var vs := Emit(height, pfs);
      var lo, hi := NormalsAccessor(view, vs).min.value, NormalsAccessor(view, vs).max.value;
      forall i, j :: 0 <= i < |vs| && 0 <= j < 3 ==> lo.At(j) <= vs[i].normal.At(j) <= hi.At(j)
  {
    var vs := Emit(height, pfs);
    var lo, hi := NormalsAccessor(view, vs).min.value, NormalsAccessor(view, vs).max.value;
    assert forall j :: 0 <= j < 3 ==> lo.At(j) == -1.0 && hi.At(j) == 1.0;
    assert forall i :: 0 <= i < |vs| ==> IsAxisUnit(vs[i].normal) by {
      EmitNormalsAndColors(height, pfs);
    }
    forall i, j | 0 <= i < |vs| && 0 <= j < 3
      ensures -1.0 <= vs[i].normal.At(j) <= 1.0
    {
      assert IsAxisUnit(vs[i].normal);
    }
  }
}
