# BufVec: a verified model of the gob encoder's scatter buffer

The encoder of `rust-gob` assembles each message from many separately produced
byte chunks and writes them out with vectored I/O. The chunks are held in
`BufVec<B>`, an ordered queue of owned chunks that behaves like one logical
readable buffer (`bytes::Buf`):

- `push` appends a chunk and drops it if it has no remaining bytes;
- `remaining` returns a cached count of unread bytes;
- `chunk` returns the unread part of the front chunk;
- `advance` consumes bytes across chunk boundaries and pops each chunk it empties;
- `chunks_vectored` fills the caller's `IoSlice` array with one descriptor per
  chunk, in order, without consuming anything.

The model is imperative, like the source. `Bufvec.BufVec` is a class with the
fields `remaining: nat` and `bufs: seq<Bytes>`. The `VecDeque` becomes a
sequence field that the methods reassign. `advance` and `chunks_vectored` keep
their loops. A chunk (`bytes::Bytes` with its read cursor) is the sequence of
its unread bytes (`ByteChunk.Bytes = seq<bv8>`). An `IoSlice` is the bytes it
exposes, and the caller's descriptor slice is an `array<Bytes>`.

The object invariant `Valid()` says two things. The cached `remaining` equals
the sum of the chunk lengths (`ChunkSeq.TotalLen`). No stored chunk is empty.
Every method is stated against `Contents()`, the concatenation of the chunks
(`ChunkSeq.Concat`).

`advance` is specified by the function `ChunkSeq.DropFront`, which consumes and
evicts chunks the way the loop does. Lemmas about `DropFront` prove three
things:

- the contents lose exactly their first `cnt` bytes;
- only exhausted front chunks are popped, and the new front chunk is trimmed by
  exactly the count left over;
- advancing by the total a gather exposed evicts exactly the gathered chunks.

The two quickcheck properties of the source file become methods proved for all
inputs, in module `BufvecProps`.

Files:

- `byte_chunk.dfy` (module `ByteChunk`): the chunk type and `Bytes`'
  single-slot `chunks_vectored`;
- `chunk_seq.dfy` (module `ChunkSeq`): specification functions over chunk
  lists and their lemmas;
- `bufvec.dfy` (module `Bufvec`): the `BufVec` class;
- `bufvec_props.dfy` (module `BufvecProps`): the property tests and a worked
  example.

## Model

| member | source | states |
|---|---|---|
| `Bufvec.BufVec.constructor` | src/internal/utils/bufvec.rs:11-16 | a new buffer holds no chunks, `remaining` is 0, the contents are empty, and the invariant holds |
| `Bufvec.BufVec.Push` | src/internal/utils/bufvec.rs:18-27 | an empty chunk leaves the chunk list and `remaining` untouched; any other chunk is appended at the back and `remaining` grows by its length; either way the contents become the old contents followed by the chunk, and the invariant (cached sum, no empty chunk) is kept |
| `Bufvec.BufVec.Remaining` | src/internal/utils/bufvec.rs:31-33 | the cached count equals the length of the logical contents |
| `Bufvec.BufVec.Chunk` | src/internal/utils/bufvec.rs:35-41 | the returned bytes are the front chunk, a prefix of the contents, non-empty exactly when the contents are non-empty (empty slice when no chunk is stored) |
| `Bufvec.BufVec.Advance` | src/internal/utils/bufvec.rs:43-60 | for `cnt <= remaining` (otherwise the subtraction underflows): `remaining` drops by `cnt`, the contents lose exactly their first `cnt` bytes, the chunk list becomes `DropFront(old list, cnt)`, and the invariant is kept; the loop terminates because the unconsumed count strictly decreases |
| `Bufvec.BufVec.ChunksVectored` | src/internal/utils/bufvec.rs:62-74 | returns `n = min(dst.Length, chunk count)`; `dst[..n]` holds the first `n` chunks in order; later descriptors are untouched; the buffer is not modified; the gathered bytes form a prefix of the contents |
| `ByteChunk.ChunksVectored` | src/internal/utils/bufvec.rs:67 | the `bytes` crate's default `Buf::chunks_vectored`, which `Bytes` uses and which is called at this line (its code is not part of this model): a chunk's own vectored export into `dst[from..]` fills exactly one slot, with the whole chunk, when both the chunk and the destination are non-empty, and nothing otherwise; no other slot changes |
| `ChunkSeq.Concat` | src/internal/utils/bufvec.rs:5-8 | the logical contents (the chunks' unread bytes, front to back) are exactly as long as the sum of the chunk lengths |
| `ChunkSeq.ConcatSplit` | src/internal/utils/bufvec.rs:62-74 | splitting the chunk list anywhere splits the contents there, so any run of leading chunks is a prefix of the contents |
| `ChunkSeq.ConcatAppend` | src/internal/utils/bufvec.rs:23-25 | appending a chunk to the list appends its bytes to the contents |
| `ChunkSeq.NonEmpty` | src/internal/utils/bufvec.rs:22-26 | the chunks that a run of pushes stores have no empty member, are at most as many as were pushed, and concatenate to the same bytes as the pushed chunks |
| `ChunkSeq.PrefixSnoc` | src/internal/utils/bufvec.rs:91-94 | pushing one more chunk of the list extends the contents by its bytes, and stores it at the back exactly when it is non-empty |
| `ChunkSeq.DropFront` | src/internal/utils/bufvec.rs:45-59 | consuming `n` bytes chunk by chunk reduces the byte total by exactly `n`, never adds chunks, and keeps "no empty chunk" |
| `ChunkSeq.DropFrontContents` | src/internal/utils/bufvec.rs:43-60 | consuming `n` bytes leaves exactly the old contents without their first `n` bytes |
| `ChunkSeq.DropFrontShape` | src/internal/utils/bufvec.rs:47-58 | only exhausted chunks are popped: the `k` evicted chunks hold at most `n` bytes; the new front chunk is chunk `k` advanced by the leftover count, which is less than its length; the chunks behind it are unchanged |
| `ChunkSeq.GatherAdvance` | src/internal/utils/bufvec.rs:122-129 | advancing by the total length of the first `k` chunks (what a gather of `k` descriptors exposes) evicts exactly those `k` chunks and leaves the rest unchanged |
| `BufvecProps.Fill` | src/internal/utils/bufvec.rs:89-94 | pushing every chunk into a fresh buffer stores the non-empty ones in order, and the contents are the concatenation of everything pushed |
| `BufvecProps.PushAndCollect` | src/internal/utils/bufvec.rs:88-104 | round trip: draining with `chunk` and then `advance` by its length collects exactly the concatenation of the pushed chunks, so the test's comparison is always true |
| `BufvecProps.CollectSlices` | src/internal/utils/bufvec.rs:123-126 | walking the `n` filled descriptors collects their concatenation and counts its length |
| `BufvecProps.GatherBatch` | src/internal/utils/bufvec.rs:119-131 | one gather batch of `len` descriptors collects the first `min(len, chunk count)` chunks whole and evicts exactly those |
| `BufvecProps.BatchStep` | src/internal/utils/bufvec.rs:118-132 | one more batch of `len` slots drains `min(len, chunks left)` more chunks, and what it gathers extends what was collected so far |
| `BufvecProps.GatherBatches` | src/internal/utils/bufvec.rs:116-132 | the batch loop as a whole collects the first `min(chunk count, slots offered)` chunks whole, evicts exactly those, and `total` is the length collected |
| `BufvecProps.CollectedPrefix` | src/internal/utils/bufvec.rs:134 | the chunks collected so far form a prefix of the pushed bytes, and all stored chunks form all of them |
| `BufvecProps.PushAndConcatIovec` | src/internal/utils/bufvec.rs:108-135 | gather equivalence: for any chunks and any batch sizes, the collected bytes are the first `total` pushed bytes (the test's comparison is always true); `total` is the length of the first `min(stored chunks, slots offered)` stored chunks; offering at least as many slots as chunks pushed collects everything |
| `BufvecProps.PushAdvanceExample` | src/internal/utils/bufvec.rs:18-60 | pushing `[1, 2]`, `[]` and `[3]` gives `remaining` 3; after `advance(1)` the front chunk is `[2]`; after consuming the remaining 2 bytes, `remaining` is 0 |

## Left out

- `src/ser/serialize_tuple.rs` is not part of this model. `homogeneous`, `serialize_element` and `end` only forward to `SerializeTupleValue`, `SerializationCtx::flush` and `Stream`, and none of those are part of this model either. Modelling them would mean inventing their behaviour.
- The output-stream framing, the set of type definitions already sent, the schema registry and `TypeId` assignment are not part of this model.
- The chunk type is fixed to `Bytes`, the instantiation the tests use. Its `chunks_vectored` is modelled after the `bytes` crate's default `Buf::chunks_vectored`, which fills `dst[0]` with `chunk()` when both the chunk and `dst` are non-empty. That code is not part of this model. The model drops the genericity over `B: Buf` and `T: Into<B>`. A `Buf` implementation whose `chunks_vectored` fills several slots for one chunk is not modelled. With such chunks, the one-descriptor-per-chunk postcondition of `Bufvec.BufVec.ChunksVectored` would not hold.
- `IoSlice` lifetimes and their OS-level meaning are not modelled. A descriptor is just the bytes it exposes.
- `Bufvec.BufVec.Push`: `remaining` is an unbounded `nat`, so `usize` overflow of the addition to `remaining` in `push` is not modelled. That overflow is reachable: clones of one `Bytes` share a single allocation, so on a 32-bit target a modest number of pushes can exceed `usize::MAX` bytes. In the source a debug build panics on that addition. A release build wraps. After that, `remaining` is no longer the sum of the chunk lengths, and `has_remaining()` can return false while chunks are still stored. The model promises the cached sum for every input.
- `Bufvec.BufVec.Advance` requires `cnt <= remaining`. In the source a larger count panics on the `usize` subtraction in debug builds. In release builds the subtraction wraps, and the loop spins forever once the deque is empty. The model does not represent either outcome.
- The loop in `advance` has a branch for when the deque has no front chunk. Under `cnt <= remaining` that branch cannot be reached, so the model reads the front chunk directly.
- The quickcheck random generation is not modelled. The property methods take every possible chunk list and batch-size list as parameters instead.
