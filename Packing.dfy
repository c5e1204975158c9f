/** Byte packing: alignment to four bytes (`align_to_multiple_of_four`, src/lib.rs:399-402), the
    vertex buffer length (`calculate_buffer_length`, src/lib.rs:404-407) and the padded byte image
    of a vector (`to_padded_byte_vector`, src/lib.rs:148-168). */
module Packing {
  import opened Types
  import opened Mesh

  /** `PADDING`: chunks are aligned to four bytes. */
  const PADDING: nat := 4

  /** `size_of::<f32>()`. */
  const F32_SIZE: nat := 4

  /** `size_of::<Vertex>()`: nine `f32` fields and, being `repr(C)` of `f32`s only, no padding. */
  const VERTEX_SIZE: nat := 9 * F32_SIZE

  /** `align_to_multiple_of_four`: `(n + 3) & !3`. Clearing the two low bits of n + 3 subtracts
      (n + 3) % 4. The source updates its `&mut usize` argument; here the new value is returned. */
  function AlignToMultipleOfFour(n: nat): (r: nat)
    ensures r % PADDING == 0
    ensures n <= r < n + PADDING
  {
    (n + 3) - (n + 3) % 4
  }

  /** The aligned value is the least multiple of four that is at least n. */
  lemma AlignIsLeast(n: nat, m: nat)
    requires m % PADDING == 0 && n <= m
    ensures AlignToMultipleOfFour(n) <= m
  {
  }

  /** Aligning twice is aligning once, and multiples of four are left as they are. */
  lemma AlignIdempotent(n: nat)
    ensures AlignToMultipleOfFour(AlignToMultipleOfFour(n)) == AlignToMultipleOfFour(n)
    ensures n % PADDING == 0 ==> AlignToMultipleOfFour(n) == n
  {
  }

  /** The number of zero bytes `to_padded_byte_vector` appends to `length` data bytes. */
  function PaddingFor(length: nat): (p: nat)
    ensures p < PADDING && (length + p) % PADDING == 0
  {
    (PADDING - length % PADDING) % PADDING
  }

  /** The padded length is the aligned length. */
  lemma PaddingAligns(length: nat)
    ensures length + PaddingFor(length) == AlignToMultipleOfFour(length)
  {
  }

  /** `calculate_buffer_length`: `size_of_val(vertices)`. */
  function BufferLength(vertices: seq<Vertex>): (len: nat)
    ensures len % PADDING == 0
    ensures len / VERTEX_SIZE == |vertices|
  {
    |vertices| * VERTEX_SIZE
  }

  /** The in-memory bytes of a slice, element after element, as `encode` gives each element's
      bytes: the memory reinterpretation `to_padded_byte_vector` performs. */
  function RawBytes<T>(items: seq<T>, encode: T -> seq<Byte>): seq<Byte>
    decreases |items|
  {
    if items == [] then [] else RawBytes(items[..|items| - 1], encode) + encode(items[|items| - 1])
  }

  /** With `size` bytes per element the slice has `size` bytes per element. */
  lemma {:induction false} RawBytesLength<T>(items: seq<T>, encode: T -> seq<Byte>, size: nat)
    requires forall t :: |encode(t)| == size
    ensures |RawBytes(items, encode)| == size * |items|
    decreases |items|
  {
    if items != [] {
      var n := |items| - 1;
      RawBytesLength(items[..n], encode, size);
      assert size * |items| == size * n + size;
    }
  }

  /** Element k occupies bytes [k * size, k * size + size). */
  lemma {:induction false} RawBytesBlock<T>(items: seq<T>, encode: T -> seq<Byte>, size: nat, k: nat)
    requires forall t :: |encode(t)| == size
    requires k < |items|
    ensures size * k + size <= |RawBytes(items, encode)|
    ensures RawBytes(items, encode)[size * k .. size * k + size] == encode(items[k])
    decreases |items|
  {
    var n := |items| - 1;
    var init := items[..n];
    var head := RawBytes(init, encode);
    RawBytesLength(init, encode, size);
    RawBytesLength(items, encode, size);
    assert RawBytes(items, encode) == head + encode(items[n]);
    var lo := size * k;
    if k < n {
      RawBytesBlock(init, encode, size, k);
      assert items[k] == init[k];
      assert (head + encode(items[n]))[lo .. lo + size] == head[lo .. lo + size];
    } else {
      assert lo == |head|;
      assert (head + encode(items[n]))[lo .. lo + size] == encode(items[n]);
    }
  }

  /** `to_padded_byte_vector`: the data bytes of the vector, then `resize` with zeros up to the
      next multiple of four. */
  method ToPaddedByteVector<T>(items: seq<T>, encode: T -> seq<Byte>, size: nat) returns (padded: seq<Byte>)
    requires forall t :: |encode(t)| == size
    ensures |padded| == AlignToMultipleOfFour(size * |items|)
    ensures padded[..size * |items|] == RawBytes(items, encode)
    ensures forall i :: size * |items| <= i < |padded| ==> padded[i] == 0
  {
    var byteLength := |items| * size;
    var padding := (PADDING - byteLength % PADDING) % PADDING;
    RawBytesLength(items, encode, size);
    padded := RawBytes(items, encode);
    padded := padded + seq(padding, _ => 0);
    PaddingAligns(byteLength);
  }

  /** The bytes of one vertex: position, normal and colour, three `f32`s each, as `f32` encodes one
      component. */
  function VertexBytes(f32: real -> seq<Byte>): Vertex -> seq<Byte> {
    (v: Vertex) =>
      f32(v.position.x) + f32(v.position.y) + f32(v.position.z)
      + f32(v.normal.x) + f32(v.normal.y) + f32(v.normal.z)
      + f32(v.color.x) + f32(v.color.y) + f32(v.color.z)
  }

  /** A vertex record is `VERTEX_SIZE` bytes: the position at offset 0, the normal at offset
      3 * F32_SIZE = 12 and the colour at 6 * F32_SIZE = 24, the offsets the accessors use. */
  lemma VertexLayout(f32: real -> seq<Byte>, v: Vertex)
    requires forall r :: |f32(r)| == F32_SIZE
    ensures var b := VertexBytes(f32)(v);
      && |b| == VERTEX_SIZE
      && b[0 .. 3 * F32_SIZE] == f32(v.position.x) + f32(v.position.y) + f32(v.position.z)
      && b[3 * F32_SIZE .. 6 * F32_SIZE] == f32(v.normal.x) + f32(v.normal.y) + f32(v.normal.z)
      && b[6 * F32_SIZE .. 9 * F32_SIZE] == f32(v.color.x) + f32(v.color.y) + f32(v.color.z)
  {
    var p := f32(v.position.x) + f32(v.position.y) + f32(v.position.z);
    var n := f32(v.normal.x) + f32(v.normal.y) + f32(v.normal.z);
    var c := f32(v.color.x) + f32(v.color.y) + f32(v.color.z);
    var b := VertexBytes(f32)(v);
    assert b == p + n + c;
    assert b[0 .. 12] == p;
    assert b[12 .. 24] == n;
    assert b[24 .. 36] == c;
  }

  /** The packed vertex buffer: 36 bytes per vertex and never any padding, so its length is
      `calculate_buffer_length`; by `RawBytesBlock`, vertex k occupies bytes [36 k, 36 k + 36). */
  lemma VertexBufferUnpadded(vertices: seq<Vertex>, f32: real -> seq<Byte>)
    requires forall r :: |f32(r)| == F32_SIZE
    ensures forall v :: |VertexBytes(f32)(v)| == VERTEX_SIZE
    ensures PaddingFor(BufferLength(vertices)) == 0
    ensures AlignToMultipleOfFour(BufferLength(vertices)) == BufferLength(vertices)
    ensures |RawBytes(vertices, VertexBytes(f32))| == BufferLength(vertices)
  {
    forall v: Vertex
      ensures |VertexBytes(f32)(v)| == VERTEX_SIZE
    {
      VertexLayout(f32, v);
    }
    RawBytesLength(vertices, VertexBytes(f32), VERTEX_SIZE);
    AlignIdempotent(BufferLength(vertices));
  }
}
