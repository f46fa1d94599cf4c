/** One chunk stored in the scatter buffer: a `Bytes` value of the `bytes` crate,
    seen through its cursor. Only its unread bytes matter to the buffer, so a chunk
    is modelled as the sequence of those bytes; advancing the cursor by `n` leaves
    `b[n..]`. An I/O descriptor (`IoSlice`) is modelled as the bytes it exposes. */
module ByteChunk {

  type Bytes = seq<bv8>

  /** `Buf::chunks_vectored` as `Bytes` implements it, writing into the sub-slice
      `dst[from..]` of the caller's descriptor array: nothing when that sub-slice
      or the chunk is empty, otherwise exactly one descriptor, at `dst[from]`,
      exposing the whole unread part of the chunk. */
  method ChunksVectored(b: Bytes, dst: array<Bytes>, from: nat) returns (filled: nat)
    requires from <= dst.Length
    modifies dst
    ensures filled == (if from < dst.Length && |b| > 0 then 1 else 0)
    ensures filled == 1 ==> dst[from] == b
    ensures forall i :: 0 <= i < dst.Length && (i != from || filled == 0) ==> dst[i] == old(dst[i])
  {
    if from == dst.Length {
      return 0;
    }
    if |b| > 0 {
      dst[from] := b;
      return 1;
    }
    return 0;
  }
}
