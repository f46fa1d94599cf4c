/** The buffer's own property tests, as methods proved for every input: the
    quickcheck generators are replaced by universally quantified parameters. */
module BufvecProps {
  import opened ByteChunk
  import opened ChunkSeq
  import opened Bufvec

  function Min(a: nat, b: nat): nat
  {
    if a < b then a else b
  }

  /** A gather batch size: the test draws it as a `u8`. */
  type BatchLen = n: nat | n < 256

  /** Total number of descriptor slots offered by a list of gather batch sizes. */
  function BatchSum(lens: seq<BatchLen>): nat
  {
    if lens == [] then 0 else BatchSum(lens[..|lens| - 1]) + lens[|lens| - 1]
  }

  /** Pushes every chunk of `chunks` into a new buffer; returns the buffer and the
      concatenation of what was pushed. Empty chunks are pushed too, and dropped. */
  method Fill(chunks: seq<Bytes>) returns (bv: BufVec, bytes: Bytes)
    ensures fresh(bv) && bv.Valid()
    ensures bv.bufs == NonEmpty(chunks)
    ensures bytes == Concat(chunks)
  {
    bv := new BufVec();
    bytes := [];
    var i := 0;
    while i < |chunks|
      invariant i <= |chunks|
      invariant fresh(bv) && bv.Valid()
      invariant bv.bufs == NonEmpty(chunks[..i])
      invariant bytes == Concat(chunks[..i])
    {
      var chunk := chunks[i];
      PrefixSnoc(chunks, i);
      bytes := bytes + chunk;
      bv.Push(chunk);
      i := i + 1;
    }
    assert chunks[..|chunks|] == chunks;
  }

  /** A worked run: pushing `[1, 2]`, `[]` and `[3]` stores two chunks holding
      three bytes; after advancing by one the front chunk reads `[2]`, and
      consuming the rest leaves nothing. */
  method PushAdvanceExample() returns (stored: nat, front: Bytes, left: nat)
    ensures stored == 3 && front == [2] && left == 0
  {
    var bv := new BufVec();
    bv.Push([1, 2]);
    bv.Push([]);
    bv.Push([3]);
    stored := bv.Remaining();
    bv.Advance(1);
    front := bv.Chunk();
    bv.Advance(2);
    left := bv.Remaining();
  }

  /** `push_and_collect`: draining the buffer through `chunk` and `advance` by the
      chunk's length yields exactly the concatenation of the pushed chunks. */
  method PushAndCollect(chunks: seq<Bytes>) returns (collected: Bytes, ok: bool)
    ensures collected == Concat(chunks)
    ensures ok
  {
    var bv, bytes := Fill(chunks);
    ghost var stored := bv.bufs;
    ghost var taken := 0;
    collected := [];
    while bv.Remaining() > 0
      invariant bv.Valid()
      invariant taken <= |stored| && bv.bufs == stored[taken..]
      invariant collected == Concat(stored[..taken])
      decreases bv.remaining
    {
      var chunk := bv.Chunk();
      PrefixSnoc(stored, taken);
      collected := collected + chunk;
      bv.Advance(|chunk|);
      taken := taken + 1;
    }
    assert stored[..taken] == stored;
    ok := bytes == collected;
  }

  /** Walks the first `n` filled descriptors, adding up their lengths and
      collecting their bytes. */
  method CollectSlices(vecs: array<Bytes>, n: nat) returns (num: nat, bytes: Bytes)
    requires n <= vecs.Length
    ensures bytes == Concat(vecs[..n])
    ensures num == |bytes|
  {
    num, bytes := 0, [];
    var v := 0;
    while v < n
      invariant v <= n
      invariant bytes == Concat(vecs[..v])
      invariant num == |bytes|
    {
      PrefixSnoc(vecs[..], v);
      assert vecs[..][..v] == vecs[..v] && vecs[..][..v + 1] == vecs[..v + 1];
      num := num + |vecs[v]|;
      bytes := bytes + vecs[v];
      v := v + 1;
    }
  }

  /** One batch of `push_and_concat_iovec`: gather into `len` fresh descriptors,
      collect what they expose and advance by its total. The batch takes the
      first `Min(len, chunk count)` chunks whole and evicts exactly those. */
  method GatherBatch(bv: BufVec, len: BatchLen) returns (gathered: Bytes)
    requires bv.Valid()
    modifies bv
    ensures bv.Valid()
    ensures var k := Min(len, |old(bv.bufs)|);
      gathered == Concat(old(bv.bufs)[..k]) && bv.bufs == old(bv.bufs)[k..]
  {
    var vecs := new Bytes[len](_ => [0]);
    var n := bv.ChunksVectored(vecs);
    var num;
    num, gathered := CollectSlices(vecs, n);
    GatherAdvance(bv.bufs, n);
    bv.Advance(num);
  }

  /** One more batch of `lens[j]` slots drains `Min(lens[j], chunks left)` more
      stored chunks, and what it gathers extends what was collected so far. */
  lemma {:induction false} BatchStep(stored: seq<Bytes>, lens: seq<BatchLen>, j: nat, drained: nat, collected: Bytes)
    requires j < |lens|
    requires drained == Min(|stored|, BatchSum(lens[..j]))
    requires collected == Concat(stored[..drained])
    ensures var k := Min(lens[j], |stored| - drained);
      drained + k == Min(|stored|, BatchSum(lens[..j + 1])) &&
      collected + Concat(stored[drained..][..k]) == Concat(stored[..drained + k]) &&
      stored[drained..][k..] == stored[drained + k..]
  {
    var k := Min(lens[j], |stored| - drained);
    assert lens[..j + 1][..j] == lens[..j];
    ConcatSplit(stored[..drained + k], drained);
    assert stored[..drained + k][..drained] == stored[..drained];
    assert stored[..drained + k][drained..] == stored[drained..][..k];
  }

  /** The chunks collected so far, read from the stored list, form a prefix of
      everything pushed; all of them together form all of it. */
  lemma CollectedPrefix(chunks: seq<Bytes>, d: nat)
    requires d <= |NonEmpty(chunks)|
    ensures Concat(NonEmpty(chunks)[..d]) <= Concat(chunks)
    ensures d == |NonEmpty(chunks)| ==> Concat(NonEmpty(chunks)[..d]) == Concat(chunks)
  {
    var stored := NonEmpty(chunks);
    ConcatSplit(stored, d);
    assert stored[..|stored|] == stored;
  }

  /** The batch loop of `push_and_concat_iovec`: one gather batch per entry of
      `lens`. Together the batches collect the first `Min(chunk count, slots
      offered)` chunks whole and evict exactly those. */
  method GatherBatches(bv: BufVec, lens: seq<BatchLen>) returns (collected: Bytes, total: nat)
    requires bv.Valid()
    modifies bv
    ensures bv.Valid()
    ensures var d := Min(|old(bv.bufs)|, BatchSum(lens));
      collected == Concat(old(bv.bufs)[..d]) && bv.bufs == old(bv.bufs)[d..]
    ensures total == |collected|
  {
    ghost var stored := bv.bufs;
    ghost var drained := 0;
    total := 0;
    collected := [];
    var j := 0;
    while j < |lens|
      invariant j <= |lens|
      invariant bv.Valid()
      invariant drained == Min(|stored|, BatchSum(lens[..j]))
      invariant bv.bufs == stored[drained..]
      invariant total == |collected|
      invariant collected == Concat(stored[..drained])
    {
      BatchStep(stored, lens, j, drained, collected);
      var gathered := GatherBatch(bv, lens[j]);
      ghost var k := Min(lens[j], |stored| - drained);
      collected := collected + gathered;
      total := total + |gathered|;
      drained := drained + k;
      j := j + 1;
    }
    assert lens[..|lens|] == lens;
  }

  /** `push_and_concat_iovec`: for each batch size, gather into that many
      descriptors, collect what was gathered and advance by its total. What is
      collected is the first `total` bytes of the pushed data. Each batch drains
      as many whole chunks as it had slots, so after all batches the first
      `Min(stored chunks, slots offered)` stored chunks are collected, and offering
      at least as many slots as chunks were pushed drains the buffer. */
  method PushAndConcatIovec(chunks: seq<Bytes>, lens: seq<BatchLen>) returns (collected: Bytes, total: nat, ok: bool)
    ensures total <= |Concat(chunks)|
    ensures collected == Concat(chunks)[..total]
    ensures total == TotalLen(NonEmpty(chunks)[..Min(|NonEmpty(chunks)|, BatchSum(lens))])
    ensures BatchSum(lens) >= |chunks| ==> collected == Concat(chunks)
    ensures ok
  {
    var bv, bytes := Fill(chunks);
    collected, total := GatherBatches(bv, lens);
    CollectedPrefix(chunks, Min(|NonEmpty(chunks)|, BatchSum(lens)));
    ok := bytes[..total] == collected;
  }
}
