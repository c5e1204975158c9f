# voxelify in Dafny

voxelify turns a 2-D RGBA image into a 3-D voxel model stored in a binary glTF (GLB) file.
Each solid pixel becomes a box one unit wide and `height` tall, and each face the culling rule
keeps becomes two triangles. As written, the rule always keeps the top and bottom faces. For a
pixel in the first column it keeps `Left` and never looks at its right neighbour; in the last
column it keeps `Right` and never looks at its left neighbour. Elsewhere on that axis it keeps
a side exactly when the neighbour across it is empty, and rows work the same way with
`Forward` and `Back`. So an edge pixel has one face per axis where two may be visible, and a
lone opaque pixel becomes a box open on two sides (see "## Findings"). This project models the
core of that pipeline in `src/lib.rs` and proves properties of the model:

- **Types**, **Pixels**: bytes, `Option`, `Result`, the crate's two error kinds, RGBA pixels
  and the image grid. A pixel is empty when its alpha byte is 0 (`is_empty_pixel`).
- **Culling**: `cull_faces`, written as a method that pushes faces into a local list, exactly as
  the source does, and specified by the function `CulledFaces`. The module also holds the
  evidently intended rule (`IntendedFaces`) and the inputs on which the two rules differ.
- **Mesh**: the six-vertex table of `create_pixel_verticies_face` and its geometry (normals,
  colours, face planes, outward winding). `image_to_vertices` is modelled as nested loops that
  extend a vertex list, proved equal to `MeshVertices`, the row-major scan of all culled faces.
  The same scan is also defined over the corrected rule (`IntendedMeshFaces`).
- **Bounds**: `bounding_coords`, two nested loops that update `min` and `max` in place, proved
  equal to a running min/max from the `f32::MAX`/`f32::MIN` sentinels.
- **Packing**: `align_to_multiple_of_four`, `calculate_buffer_length` and
  `to_padded_byte_vector`. An element's bytes come from an encoding function passed in as a
  parameter.
- **Container**: the `gltf::json::Root` arena as a class with one list per kind of entry.
  Each `push` appends and returns the old length. `create_accessors` and `create_gltf_root` are
  methods over that class, and `Valid()` states that every stored index is in range.
- **Glb**: `create_glb` with its two error paths, the header length as written, the length of
  the file the object becomes, and a corrected size check.

In two places the code does not do what its own comments or the format it writes promise.
The model follows the code and adds a corrected version beside it:

- **Culling edge rule.** The doc comment of `cull_faces` (src/lib.rs:189) says it returns the
  faces that should be visible for a pixel, and the doc comment of `image_to_vertices`
  (src/lib.rs:120) says the faces of a voxel will be culled if they are not visible. At column 0 the code pushes only `Left` and never reads the
  right neighbour, and rows work the same way (src/lib.rs:196-198, 210-212). So a visible face
  on the inner side of an edge pixel is dropped.
- **Header length.** The comment at src/lib.rs:38 says the size of the binary glTF file is
  limited to the range of `u32`. In the binary glTF format of the glTF 2.0 specification, the
  header's length field is the length of the whole file, including the 12-byte header and the
  two 8-byte chunk headers. The code sets and checks only the aligned JSON length plus the
  vertex buffer length (src/lib.rs:39).

Both differences are listed under "## Findings", each with a corrected member.

Inputs the model takes as parameters:

- JSON serialisation is a parameter `serialized: Option<seq<Byte>>`: the text, or `None` when
  serialisation fails.
- The byte encoding of an `f32` is a parameter `f32: real -> seq<Byte>` of fixed length 4.

## Model

| member | source | states |
|---|---|---|
| Pixels.IsEmptyPixel | src/lib.rs:292-295 | a pixel is empty iff its alpha byte is 0; the scan (`Mesh.PixelFaces`) and every neighbour test (`Culling.Shown`, `XFaces`, `YFaces`) use this one predicate |
| Culling.CullFaces | src/lib.rs:190-225 | the pushed list is `CulledFaces`: it starts `[Up, Down]`, a face is in it iff the edge/neighbour rule shows that face, and it is in push order, has no duplicates and has at most six faces |
| Culling.XFacesSpec | src/lib.rs:196-208 | the x-axis part holds only Right/Left, each exactly when the rule shows it, Right before Left |
| Culling.YFacesSpec | src/lib.rs:210-222 | the y-axis part holds only Back/Forward, each exactly when the rule shows it, Back before Forward |
| Culling.CulledFacesSpec | src/lib.rs:190-225 | as a value: starts `[Up, Down]`, holds exactly the shown faces, in push order, no duplicates, between 2 and 6 faces |
| Culling.CulledFacesAtEdges | src/lib.rs:196-212 | column 0 gets Left and never Right; otherwise the last column gets Right and not Left; likewise rows with Forward/Back, so a one-column image never gets Right |
| Culling.CulledFacesInterior | src/lib.rs:199-221 | away from the edges, Right is present iff pixel (x+1, y) is empty and Left iff (x-1, y) is empty; likewise Back/(x, y+1) and Forward/(x, y-1) |
| Culling.RankAtLeastIndex | src/lib.rs:194-222 | in a list in push order, the face at index i has push rank at least i |
| Culling.AtMostSixFaces | src/lib.rs:194-222 | a list in push order has at most six faces |
| Culling.PushOrderUnique | src/lib.rs:194-222 | two lists in push order with the same members are equal, so the face set determines the list |
| Culling.SharedFaceHiddenX | src/lib.rs:199-205 | two horizontally adjacent solid pixels hide their shared side from both pixels |
| Culling.SharedFaceHiddenY | src/lib.rs:213-219 | two vertically adjacent solid pixels hide their shared side from both pixels |
| Culling.SharedFaceNotShownX | src/lib.rs:199-205 | the rule shows neither Right of (x, y) nor Left of (x+1, y) when both pixels are solid |
| Culling.SharedFaceNotShownY | src/lib.rs:213-219 | the rule shows neither Back of (x, y) nor Forward of (x, y+1) when both pixels are solid |
| Culling.HiddenFace | src/lib.rs:190-225 | a face the rule does not show is not in the list |
| Culling.IntendedFacesSpec | src/lib.rs:196-221 | the corrected rule starts `[Up, Down]`, holds exactly the faces whose neighbour cell is outside the image or empty, in push order, no duplicates, at most six faces |
| Culling.CulledFacesAreVisible | src/lib.rs:196-221 | every face the program emits is visible under the four-neighbour test (it never emits a hidden face) |
| Culling.CulledFacesIntendedInside | src/lib.rs:199-221 | away from the image border the program's list equals the corrected list |
| Culling.TwoByOne | src/lib.rs:196-198 | example input, stating no property of the model: the 2x1 image (one opaque pixel, one transparent) used by `CulledFacesMissVisibleFaces`, a valid grid |
| Culling.CulledFacesMissVisibleFaces | src/lib.rs:196-198 | at (0, 0) of that image Right and Back are visible but not emitted; the program gives [Up, Down, Left, Forward] and the corrected rule all six |
| Mesh.Vec3.With | src/lib.rs:390-393 | replacing component i, as `min[i] = ...` does, sets component i and keeps the other two |
| Mesh.Color | src/lib.rs:305-309 | each colour component is the channel divided by 255, so it is in [0, 1] |
| Mesh.Normal | src/lib.rs:313-379 | every face's normal is an axis unit vector |
| Mesh.FaceVertices | src/lib.rs:299-381 | a face yields exactly six vertices |
| Mesh.CornerSpec | src/lib.rs:313-379 | every listed corner lies in the face's plane (Up at z = height, Down at z = 0, Left at x, Right at x+1, Forward at y, Back at y+1) and is a corner of the pixel's cell |
| Mesh.FaceVerticesSpec | src/lib.rs:299-381 | all six vertices carry the face's normal and the pixel's colour, lie in the face's plane and are corners of the cell |
| Mesh.FaceCoversSquare | src/lib.rs:313-379 | the six positions are exactly the four corners of the face's unit square |
| Mesh.AreaNormalAlong | src/lib.rs:313-379 | for a positive height, each face's scaled normal points along its unit normal |
| Mesh.EdgesAt | src/lib.rs:313-379 | the two edge vectors of each triangle of the table, from its first corner |
| Mesh.EdgesCross | src/lib.rs:313-379 | the cross product of each triangle's edges is the face's normal scaled by its area |
| Mesh.FaceWindingOutward | src/lib.rs:313-379 | for a positive height, both triangles of every face are wound so that their edge cross product points along the declared normal |
| Mesh.FaceNormalOutward | src/lib.rs:313-379 | for a positive height, each normal points away from the centre of its voxel |
| Mesh.ExtendWithFaces | src/lib.rs:134-141 | the loop over a pixel's faces appends the six vertices of each face, in order |
| Mesh.AppendPixel | src/lib.rs:127-141 | an empty pixel adds nothing; a solid pixel adds the vertices of its culled faces |
| Mesh.AppendRow | src/lib.rs:126-142 | the loop over a row appends the vertices of its pixels left to right |
| Mesh.ImageToVertices | src/lib.rs:121-146 | the returned list is `MeshVertices`: the row-major (y outer, x inner) concatenation of six vertices per culled face of every solid pixel |
| Mesh.FlatMapLength | src/lib.rs:134-141 | concatenating six-vertex blocks gives six entries per element |
| Mesh.FlatMapBlock | src/lib.rs:134-141 | block k of the concatenation is the block of element k |
| Mesh.EmitLength | src/lib.rs:134-141 | the vertices of n placed faces number 6n |
| Mesh.EmitBlock | src/lib.rs:134-141 | vertices 6k to 6k+5 are the table of face k |
| Mesh.EmitAt | src/lib.rs:134-141 | vertex i is vertex i % 6 of face i / 6 |
| Mesh.CellAt | src/lib.rs:127-132 | inside the grid, an empty pixel contributes nothing and a solid one its culled faces |
| Mesh.PixelFacesEmptyIff | src/lib.rs:127-132 | a pixel inside the grid contributes no faces iff `is_empty_pixel` holds for it (alpha 0); a solid pixel always contributes at least Up and Down |
| Mesh.PixelFacesSpec | src/lib.rs:127-141 | one pixel contributes exactly its emitted faces, placed at that pixel, in push order |
| Mesh.CellsSpec | src/lib.rs:127-141 | every pixel's contribution is placed at that pixel, in order, and holds exactly its emitted faces |
| Mesh.ScanRowMembers | src/lib.rs:126-142 | the first n pixels of a row contribute exactly the faces of their cells |
| Mesh.ScanMembers | src/lib.rs:125-143 | the first m rows contribute exactly the faces of their cells |
| Mesh.ScanRowOrder | src/lib.rs:126-142 | a row's faces are in emission order |
| Mesh.ScanOrder | src/lib.rs:125-143 | the faces of the first m rows are in emission order |
| Mesh.MeshFacesSpec | src/lib.rs:121-146 | a face is in the mesh iff its pixel is inside the grid and solid, carries that pixel's colour, and the face is among its culled faces; the list is row-major |
| Mesh.MeshFacesMember | src/lib.rs:121-146 | the membership half of that statement, for one face |
| Mesh.MeshVerticesLength | src/lib.rs:121-146 | the mesh has six vertices per emitted face, so its length is a multiple of six |
| Mesh.MeshVerticesBlocks | src/lib.rs:121-146 | block k of the mesh is the vertex table of emitted face k, at that face's pixel |
| Mesh.MeshEmptyIff | src/lib.rs:125-130 | the mesh is empty iff every pixel is empty, a zero-size image included |
| Mesh.EmitNormalsAndColors | src/lib.rs:134-141 | every emitted vertex carries the axis-unit normal of its face and the colour of its pixel |
| Mesh.EmitInBox | src/lib.rs:134-141 | faces of pixels inside a w x h grid give positions in [0, w] x [0, h] x {0, height} |
| Mesh.FaceVertexInBox | src/lib.rs:313-379 | each vertex of a face of a pixel inside a w x h grid lies in [0, w] x [0, h] x {0, height} |
| Mesh.MeshVerticesInImage | src/lib.rs:121-146 | every mesh position lies in [0, width] x [0, rows] x {0, height} |
| Mesh.IntendedPixelFacesSpec | src/lib.rs:127-141 | under the corrected rule, one pixel contributes exactly its visible faces, in push order |
| Mesh.IntendedCellsSpec | src/lib.rs:127-141 | under the corrected rule, every pixel's contribution is placed, ordered, and exactly its visible faces |
| Mesh.IntendedMeshFacesSpec | src/lib.rs:121-146 | the corrected mesh holds exactly the visible faces of the solid pixels, row-major |
| Mesh.IntendedMeshFacesMember | src/lib.rs:121-146 | the membership half of that statement, for one face |
| Mesh.MeshFacesWithinIntended | src/lib.rs:121-146 | every face the program emits is also in the corrected mesh |
| Mesh.OnePixel | src/lib.rs:121-146 | example input, stating no property of the model: the 1x1 opaque image used by `OnePixelMesh`, a valid grid |
| Mesh.OnePixelMesh | src/lib.rs:196-212 | one opaque pixel becomes four faces (Up, Down, Left, Forward), 24 vertices; the corrected rule gives six faces |
| Mesh.OnePixelIntendedMesh | src/lib.rs:121-146 | under the corrected rule the same pixel is a closed voxel: six faces, 36 vertices |
| Mesh.TwoOpaque | src/lib.rs:121-146 | example input, stating no property of the model: the 2x1 image of two opaque pixels used by `TwoOpaqueMesh`, a valid grid |
| Mesh.TwoOpaqueMesh | src/lib.rs:196-212 | for two opaque pixels in a row the program emits eight faces: the shared side is hidden on both pixels, and so is every Back face |
| Mesh.TwoOpaqueIntendedMesh | src/lib.rs:196-221 | under the corrected rule the same image has 2 * 6 - 2 = 10 faces |
| Bounds.BoundingCoords | src/lib.rs:384-397 | the two loops return the per-axis running min and max from the `f32::MAX`/`f32::MIN` sentinels, and the sentinels themselves for an empty input |
| Bounds.BoundsContain | src/lib.rs:388-394 | every coordinate lies between the min and the max of its axis |
| Bounds.BoundsAttained | src/lib.rs:388-394 | for a non-empty list of finite `f32` coordinates, each bound is attained by some vertex |
| Bounds.MeshBoundsInImage | src/lib.rs:384-397 | for a non-empty mesh, each axis's bounds lie in the image's box [0, width] x [0, rows] x [min(0, height), max(0, height)] |
| Packing.AlignToMultipleOfFour | src/lib.rs:400-402 | the result is a multiple of four, at least n and less than n + 4 |
| Packing.AlignIsLeast | src/lib.rs:400-402 | the result is at most any multiple of four that is at least n, so it is the least one |
| Packing.AlignIdempotent | src/lib.rs:400-402 | aligning twice is aligning once, and multiples of four are returned unchanged |
| Packing.PaddingFor | src/lib.rs:155 | the padding is less than four bytes and makes the length a multiple of four |
| Packing.PaddingAligns | src/lib.rs:155-165 | length plus padding is the aligned length |
| Packing.BufferLength | src/lib.rs:405-407 | the buffer length is a multiple of four and holds one 36-byte record per vertex |
| Packing.RawBytesLength | src/lib.rs:151 | n elements of `size` bytes give n * size data bytes |
| Packing.RawBytesBlock | src/lib.rs:158-162 | element k occupies bytes [k * size, k * size + size) of the data |
| Packing.ToPaddedByteVector | src/lib.rs:150-168 | the result is the data bytes unchanged, then zeros, with length the aligned byte length |
| Packing.VertexLayout | src/lib.rs:16-22 | a vertex record is 36 bytes: position at offset 0, normal at 12 and colour at 24 |
| Packing.VertexBufferUnpadded | src/lib.rs:150-168 | for vertices the padding is always 0 and the data length is `calculate_buffer_length` |
| Container.Root.constructor | src/lib.rs:50 | the default root has every list empty and is valid |
| Container.Root.PushBuffer | src/lib.rs:54-60 | appends the buffer, returns the old length as its index, changes nothing else, keeps `Valid` |
| Container.Root.PushView | src/lib.rs:62-71 | appends the view, returns its index, changes nothing else, keeps `Valid` when the view's buffer exists |
| Container.Root.PushAccessor | src/lib.rs:234-283 | appends the accessor, returns its index, changes nothing else, keeps `Valid` when its view exists |
| Container.Root.PushMesh | src/lib.rs:95-101 | appends the mesh, returns its index, changes nothing else, keeps `Valid` when its accessors exist |
| Container.Root.PushNode | src/lib.rs:103-106 | appends the node, returns its index, changes nothing else, keeps `Valid` when its mesh exists |
| Container.Root.PushScene | src/lib.rs:108-113 | appends the scene, returns its index, changes nothing else, keeps `Valid` when its nodes exist |
| Container.CreateAccessors | src/lib.rs:227-290 | pushes positions (offset 0, bounding box), normals (offset 12, [-1, 1]^3) and colours (offset 24, no bounds), each over the given view and counting every vertex; returns their indices n, n+1, n+2 and keeps `Valid` |
| Container.CreateGltfRoot | src/lib.rs:49-116 | a fresh, valid root: buffer 0 of 36n bytes with the given uri; view 0 on buffer 0 with stride 36 and target ArrayBuffer; accessors 0, 1, 2 on view 0; mesh 0 with one triangle primitive mapping POSITION/NORMAL/COLOR_0 to 0/1/2 and no indices; node 0 showing mesh 0; scene 0 holding node 0 |
| Container.VoxelPrimitiveAttributes | src/lib.rs:79-93 | the primitive's attributes are exactly POSITION, NORMAL and COLOR_0, naming consecutive accessors, all in range only once all three are pushed |
| Container.AccessorsMatchVertexLayout | src/lib.rs:236-270 | the three accessors read disjoint 12-byte fields at offsets 0, 12, 24 of each 36-byte record |
| Container.PositionsBoundsInImage | src/lib.rs:232-245 | for a non-empty mesh, the positions accessor's min and max lie in the image's box |
| Container.NormalsWithinAccessorBounds | src/lib.rs:261-262 | every emitted normal lies within the normals accessor's fixed bounds [-1, 1]^3 |
| Glb.HeaderLength | src/lib.rs:31-39 | the header length as written is a multiple of four within four bytes of the JSON length plus the buffer length |
| Glb.CreateGlb | src/lib.rs:25-46 | fails with SerializationError when serialisation fails, and with SizeError exactly when the header length exceeds `u32::MAX`; otherwise the header is magic "glTF", version 2, length as written, `bin` is the padded vertex bytes and `json` the text |
| Glb.FileLength | src/lib.rs:34-43 | the length of the GLB file the object becomes is a multiple of four |
| Glb.HeaderLengthShort | src/lib.rs:39 | the file is 28 bytes longer than the header length as written |
| Glb.SizeCheckMissesFraming | src/lib.rs:39 | JSON of 4294967292 bytes and no vertices passes the size check, but the file is longer than a `u32` can describe |
| Glb.CreateGlbChecked | src/lib.rs:25-46 | the corrected `create_glb`: SizeError exactly when the whole file does not fit in a `u32`, and the header length is the file length |
| Glb.CheckedImpliesAsWritten | src/lib.rs:39 | the corrected check passing implies the check as written passes; the converse holds when 28 bytes of slack remain |

## Left out

- src/main.rs: argument parsing, image decoding, flipping, file writing and the glTF branch are I/O and are not modelled.
- src/error.rs: only its two error kinds are kept, as the datatype `VoxelifyError`. The foreign errors they wrap are not modelled.
- JSON serialisation (`json::serialize::to_string`) is a foreign library call. Its outcome is the parameter `serialized`.
- f32 arithmetic is modelled on `real`. Rounding of `c / 255.0`, NaN in `f32::min`/`f32::max`, and the exact bit patterns are not modelled.
- `f32::MAX` is written as an exact real constant, and `f32::MIN` as its negation.
- The little-endian encoding of an `f32` is the parameter `f32`, of fixed length 4.
- `usize` and `u32` overflow are not modelled: in `align_to_multiple_of_four`, in `calculate_buffer_length`, in the sum `json_offset + calculate_buffer_length(vertices)` (src/lib.rs:39), which with a 32-bit `usize` would wrap or panic before `try_into` sees it, and in `vec.len() * size_of::<T>()` (src/lib.rs:151). Only the explicit `u32` check in `create_glb` is modelled.
- AlignToMultipleOfFour: returns the new value instead of updating a `&mut usize`.
- ToPaddedByteVector: the unsafe reinterpretation of the vector's memory, its capacity and its alignment are not modelled. The data bytes are `RawBytes` over an encoding passed in.
- Mesh.ImageToVertices: the inner two loops are separate methods, `AppendRow` and `AppendPixel`/`ExtendWithFaces`. This keeps each proof small. The loops themselves are unchanged.
- Container: the `extensions`, `extras`, `name`, `sparse` and `weights` fields are not modelled, nor the primitive's `targets` (src/lib.rs:92) or the node's fields other than `mesh` (`camera`, `children`, `matrix`, `rotation`, `scale`, `translation`, `skin`, `weights`, `name`, filled by `..Default::default()` at src/lib.rs:105). The source leaves all of them at their defaults or `None`. Of `Root`'s own members, `asset` and `scene` (which the source never sets) are not modelled, nor the lists the source leaves empty: `materials`, `images`, `textures`, `samplers`, `cameras`, `skins`, `animations`, `extensions_used` and `extensions_required`. Accessor bounds are a `Vec3` rather than a JSON value.
- `gltf::json::Root::push` is library code. It is modelled by the `Push*` methods: append, and return the old length.
- `image::DynamicImage::get_pixel` is modelled as `Image.Pixel`, a lookup in a grid of RGBA bytes. Its requires states that the coordinates are inside the grid, where the library would panic.
- Bounds.BoundsAttained, Bounds.MeshBoundsInImage and Container.PositionsBoundsInImage: require coordinates within the finite `f32` range (a finite `height`, and image sides no larger than `f32::MAX`). An infinite `height` argument gives coordinates outside it, and then a bound can stay at its sentinel instead of being attained; that case is not covered.

## Findings

| source | as written | input that shows it | evidently intended | confidence | as-written member | corrected member |
|---|---|---|---|---|---|---|
| src/lib.rs:196-198, 210-212 | at column 0 only Left is pushed and the right neighbour is never read, and at the last column only Right; likewise rows with Forward and Back | a 2x1 image whose pixel (1, 0) is transparent: pixel (0, 0) gets no Right face although its right neighbour is empty, and no Back face although row 0 is also the last row; a 1x1 opaque image gives four faces, not six | each side of a pixel is visible iff the cell it faces is outside the image or empty, checked independently per side | not executed | Culling.CulledFacesMissVisibleFaces, Mesh.OnePixelMesh (on `CulledFaces`, `MeshFaces`) | Culling.IntendedFacesSpec, Mesh.IntendedMeshFacesSpec (on `IntendedFaces`, `IntendedMeshFaces`) |
| src/lib.rs:39 | the header length is the aligned JSON length plus the vertex bytes, and only that sum is checked against `u32::MAX` | JSON text of 4294967292 bytes and no vertices: the check passes, but the file is 4294967320 bytes | the header holds the whole file length (12-byte header plus two 8-byte chunk headers plus both padded chunks), and that is what must fit in a `u32` | not executed | Glb.SizeCheckMissesFraming (on `Glb.CreateGlb`) | Glb.CreateGlbChecked, Glb.CheckedImpliesAsWritten |
