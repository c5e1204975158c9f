/** Small shared vocabulary: bytes, optional values, results and the crate's error kinds. */
module Types {

  /** One octet, as in Rust's `u8`. */
  type Byte = b: int | 0 <= b < 256

  /** Largest value of Rust's `u32`; the binary glTF length field has this width. */
  const U32_MAX: nat := 0xFFFF_FFFF

  datatype Option<T> = None | Some(value: T)

  datatype Result<T, E> = Ok(value: T) | Err(error: E)

  /** The two failures of the exporter (src/error.rs). */
  datatype VoxelifyError =
    | SerializationError  // the JSON document could not be written as text
    | SizeError           // the computed length does not fit in a `u32`

  /** A non-empty sequence holds its first element. */
  lemma FirstIsMember<T>(s: seq<T>)
    ensures s != [] ==> s[0] in s
  {
  }

  /** Extending a prefix by one element appends that element. */
  lemma SliceSnoc<T>(s: seq<T>, i: nat)
    requires i < |s|
    ensures s[..i + 1] == s[..i] + [s[i]]
  {
  }

  /** Appending one element after a concatenation appends it to the second part. */
  lemma SnocAssoc<T>(a: seq<T>, b: seq<T>, x: T)
    ensures (a + b) + [x] == a + (b + [x])
  {
  }

  /** Membership in a concatenation is membership in either part. */
  lemma InAppend<T>(a: seq<T>, b: seq<T>, x: T)
    ensures x in a + b <==> x in a || x in b
  {
  }
}
