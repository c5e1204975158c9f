/** The binary glTF object (`create_glb`, src/lib.rs:24-46): a header with magic, version and
    length, the JSON text of the document and the padded vertex bytes. */
module Glb {
  import opened Types
  import opened Mesh
  import opened Packing

  /** `*b"glTF"`. */
  const MAGIC: seq<Byte> := [0x67, 0x6C, 0x54, 0x46]

  const VERSION: nat := 2

  /** The sizes of the GLB header and of a chunk header (length and type, four bytes each) in the
      binary glTF layout of the glTF 2.0 specification. */
  const HEADER_SIZE: nat := 12
  const CHUNK_HEADER_SIZE: nat := 8

  datatype Header = Header(magic: seq<Byte>, version: nat, length: nat)

  /** `gltf::binary::Glb`: the header, the binary chunk and the JSON chunk. */
  datatype GlbObject = GlbObject(header: Header, bin: Option<seq<Byte>>, json: seq<Byte>)

  /** The length `create_glb` puts in the header, as written: the aligned JSON length plus the
      vertex buffer length. */
  function HeaderLength(jsonLength: nat, vertices: seq<Vertex>): (len: nat)
    ensures len % PADDING == 0
    ensures jsonLength + BufferLength(vertices) <= len < jsonLength + BufferLength(vertices) + PADDING
  {
    AlignToMultipleOfFour(jsonLength) + BufferLength(vertices)
  }

  /** `create_glb`. `serialized` is the outcome of serialising the document to JSON text (None when
      serialisation fails), `f32` the byte encoding of one `f32`. Fails with `SerializationError`
      when serialisation fails and with `SizeError` when the header length does not fit in a `u32`;
      otherwise the binary chunk holds the padded vertex bytes and the JSON chunk the text. */
  method CreateGlb(serialized: Option<seq<Byte>>, vertices: seq<Vertex>, f32: real -> seq<Byte>)
    returns (r: Result<GlbObject, VoxelifyError>)
    requires forall x :: |f32(x)| == F32_SIZE
    ensures serialized.None? ==> r == Err(SerializationError)
    ensures serialized.Some? ==>
      (r.Err? <==> HeaderLength(|serialized.value|, vertices) > U32_MAX)
    ensures r.Err? && serialized.Some? ==> r.error == SizeError
    ensures r.Ok? ==>
      && r.value.header == Header(MAGIC, VERSION, HeaderLength(|serialized.value|, vertices))
      && r.value.bin == Some(RawBytes(vertices, VertexBytes(f32)))
      && r.value.json == serialized.value
  {
    if serialized.None? {
      return Err(SerializationError);
    }
    var jsonString := serialized.value;
    var jsonOffset := AlignToMultipleOfFour(|jsonString|);
    var length := jsonOffset + BufferLength(vertices);
    if length > U32_MAX {
      return Err(SizeError);
    }
    VertexBufferUnpadded(vertices, f32);
    var bin := ToPaddedByteVector(vertices, VertexBytes(f32), VERTEX_SIZE);
    assert bin == bin[..VERTEX_SIZE * |vertices|];
    r := Ok(GlbObject(Header(MAGIC, VERSION, length), Some(bin), jsonString));
  }

  // ---------------------------------------------------------------------------------------------
  // The length of the file the object becomes.

  /** The length of the GLB file written for JSON text and binary data of the given lengths: the
      header, then each chunk's header and its data padded to four bytes. */
  function FileLength(jsonLength: nat, binLength: nat): (len: nat)
    ensures len % PADDING == 0
  {
    HEADER_SIZE + CHUNK_HEADER_SIZE + AlignToMultipleOfFour(jsonLength)
    + CHUNK_HEADER_SIZE + AlignToMultipleOfFour(binLength)
  }

  /** The header length `create_glb` checks leaves out the 28 bytes of the file header and the two
      chunk headers. */
  lemma HeaderLengthShort(jsonLength: nat, vertices: seq<Vertex>)
    ensures FileLength(jsonLength, BufferLength(vertices)) == HeaderLength(jsonLength, vertices) + 28
  {
    AlignIdempotent(BufferLength(vertices));
  }

  /** So the size check lets through a file longer than a `u32` can describe: JSON text of
      4294967292 bytes and no vertices. */
  lemma SizeCheckMissesFraming()
    ensures HeaderLength(4294967292, []) <= U32_MAX
    ensures FileLength(4294967292, BufferLength([])) > U32_MAX
  {
    HeaderLengthShort(4294967292, []);
  }

  /** The check evidently intended: the whole file must fit in a `u32`. */
  predicate FitsU32(jsonLength: nat, vertices: seq<Vertex>) {
    FileLength(jsonLength, BufferLength(vertices)) <= U32_MAX
  }

  /** `create_glb` with the intended size check and the header length set to the file's length. */
  method CreateGlbChecked(serialized: Option<seq<Byte>>, vertices: seq<Vertex>, f32: real -> seq<Byte>)
    returns (r: Result<GlbObject, VoxelifyError>)
    requires forall x :: |f32(x)| == F32_SIZE
    ensures serialized.None? ==> r == Err(SerializationError)
    ensures serialized.Some? ==> (r.Err? <==> !FitsU32(|serialized.value|, vertices))
    ensures r.Err? && serialized.Some? ==> r.error == SizeError
    ensures r.Ok? ==>
      && r.value.bin == Some(RawBytes(vertices, VertexBytes(f32)))
      && r.value.header.length == FileLength(|r.value.json|, |r.value.bin.value|) <= U32_MAX
      && r.value.json == serialized.value
  {
    if serialized.None? {
      return Err(SerializationError);
    }
    var jsonString := serialized.value;
    var length := HEADER_SIZE + CHUNK_HEADER_SIZE + AlignToMultipleOfFour(|jsonString|)
                  + CHUNK_HEADER_SIZE + BufferLength(vertices);
    VertexBufferUnpadded(vertices, f32);
    if length > U32_MAX {
      return Err(SizeError);
    }
    var bin := ToPaddedByteVector(vertices, VertexBytes(f32), VERTEX_SIZE);
    assert bin == bin[..VERTEX_SIZE * |vertices|];
    r := Ok(GlbObject(Header(MAGIC, VERSION, length), Some(bin), jsonString));
  }

  /** Whenever the intended check passes, the one as written passes too; the converse can fail
      only when fewer than 28 bytes of slack remain below `u32::MAX`. */
  lemma CheckedImpliesAsWritten(jsonLength: nat, vertices: seq<Vertex>)
    ensures FitsU32(jsonLength, vertices) ==> HeaderLength(jsonLength, vertices) <= U32_MAX
    ensures HeaderLength(jsonLength, vertices) + 28 <= U32_MAX ==> FitsU32(jsonLength, vertices)
  {
    HeaderLengthShort(jsonLength, vertices);
  }
}
