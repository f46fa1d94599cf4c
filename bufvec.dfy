/** `BufVec`: a queue of owned byte chunks that reads as one logical buffer. The
    encoder pushes separately produced chunks into it and later hands them to a
    vectored write, advancing past whatever the sink accepted. */
module Bufvec {
  import opened ByteChunk
  import opened ChunkSeq

  class BufVec {
    /** Cached count of unread bytes across all chunks. */
    var remaining: nat
    /** The chunk deque, front first; each chunk is its unread bytes. */
    var bufs: seq<Bytes>

    /** The cached count is the sum of the chunk lengths, and no stored chunk is empty. */
    ghost predicate Valid()
      reads this
    {
      remaining == TotalLen(bufs) && AllNonEmpty(bufs)
    }

    /** The logical buffer: every unread byte, in order. */
    ghost function Contents(): Bytes
      reads this
    {
      Concat(bufs)
    }

    /** `BufVec::new`: no chunks, nothing remaining. */
    constructor ()
      ensures Valid()
      ensures bufs == [] && remaining == 0
      ensures Contents() == []
    {
      remaining := 0;
      bufs := [];
    }

    /** `push`: a chunk with no remaining bytes is dropped; any other chunk goes to
        the back of the deque and its length is added to the cached count. */
    method Push(value: Bytes)
      requires Valid()
      modifies this
      ensures Valid()
      ensures |value| == 0 ==> bufs == old(bufs) && remaining == old(remaining)
      ensures |value| > 0 ==> bufs == old(bufs) + [value] && remaining == old(remaining) + |value|
      ensures Contents() == old(Contents()) + value
    {
      var buf := value;
      if |buf| > 0 {
        ConcatAppend(bufs, buf);
        remaining := remaining + |buf|;
        bufs := bufs + [buf];
      } else {
        assert buf == [];
      }
    }

    /** `remaining`: the cached count, which is the length of the logical buffer. */
    function Remaining(): (n: nat)
      reads this
      requires Valid()
      ensures n == |Contents()|
    {
      remaining
    }

    /** `chunk`: the unread part of the front chunk, or nothing when the deque is
        empty. It is a prefix of the logical buffer, non-empty whenever the
        buffer is. */
    function Chunk(): (c: Bytes)
      reads this
      requires Valid()
      ensures c <= Contents()
      ensures |c| > 0 <==> |Contents()| > 0
      ensures bufs != [] ==> c == bufs[0]
    {
      if bufs != [] then bufs[0] else []
    }

    /** `advance`: consumes `cnt` bytes from the front. The cached count drops by
        `cnt` first; then the loop consumes the front chunk, up to what is left of
        `cnt`, and pops it once it is exhausted. Consuming more than `remaining`
        underflows the cached count, hence the precondition. */
    method Advance(cnt: nat)
      requires Valid()
      requires cnt <= remaining
      modifies this
      ensures Valid()
      ensures remaining == old(remaining) - cnt
      ensures bufs == DropFront(old(bufs), cnt)
      ensures Contents() == old(Contents())[cnt..]
    {
      remaining := remaining - cnt;
      var left: nat := cnt;
      while left > 0
        invariant remaining + left == TotalLen(bufs)
        invariant AllNonEmpty(bufs)
        invariant DropFront(bufs, left) == DropFront(old(bufs), cnt)
        decreases left
      {
        ghost var before := bufs;
        var shouldPop := false;
        // `left > 0` and the invariant on the cached count leave a front chunk.
        var buf := bufs[0];
        var rem := |buf|;
        var adv := if left < rem then left else rem;
        buf := buf[adv..];
        bufs := [buf] + bufs[1..];
        left := left - adv;
        if |buf| == 0 {
          shouldPop := true;
        }
        if shouldPop {
          bufs := bufs[1..];
        } else {
          assert bufs[1..] == before[1..];
        }
      }
      DropFrontContents(old(bufs), cnt);
    }
    /** `chunks_vectored`: fills the caller's descriptors with the chunks in order,
        one per chunk, stopping when either runs out, and returns how many it filled.
        Nothing is consumed, and descriptors past the filled ones keep what they held. */
    method ChunksVectored(dst: array<Bytes>) returns (n: nat)
      requires Valid()
      modifies dst
      ensures n == if dst.Length < |bufs| then dst.Length else |bufs|
      ensures dst[..n] == bufs[..n]
      ensures forall i :: n <= i < dst.Length ==> dst[i] == old(dst[i])
      ensures Concat(dst[..n]) <= Contents()
    {
      var dstIdx := 0;
      var bufIdx := 0;
      while dstIdx < dst.Length
        invariant dstIdx == bufIdx <= |bufs|
        invariant dstIdx <= dst.Length
        invariant dst[..dstIdx] == bufs[..bufIdx]
        invariant forall i :: dstIdx <= i < dst.Length ==> dst[i] == old(dst[i])
        decreases |bufs| - bufIdx
      {
        if bufIdx < |bufs| {
          var filled := ByteChunk.ChunksVectored(bufs[bufIdx], dst, dstIdx);
          dstIdx := dstIdx + filled;
          bufIdx := bufIdx + 1;
        } else {
          break;
        }
      }
      n := dstIdx;
      ConcatSplit(bufs, n);
    }
  }
}
