/** The specification of the scatter buffer's state: an ordered sequence of chunks,
    read as one logical byte stream. */
module ChunkSeq {
  import opened ByteChunk

  /** The sum of the chunks' unread lengths: what the buffer caches as `remaining`. */
  function TotalLen(bs: seq<Bytes>): nat
  {
    if bs == [] then 0 else |bs[0]| + TotalLen(bs[1..])
  }

  /** The logical contents of the buffer: the chunks' unread bytes, front to back. */
  function Concat(bs: seq<Bytes>): (r: Bytes)
    ensures |r| == TotalLen(bs)
  {
    if bs == [] then [] else bs[0] + Concat(bs[1..])
  }

  /** No stored chunk is empty. */
  predicate AllNonEmpty(bs: seq<Bytes>)
  {
    forall i :: 0 <= i < |bs| ==> |bs[i]| > 0
  }

  /** Splitting the chunk list at any point splits the logical contents there. */
  lemma {:induction false} ConcatSplit(bs: seq<Bytes>, k: nat)
    requires k <= |bs|
    ensures Concat(bs) == Concat(bs[..k]) + Concat(bs[k..])
  {
    if k == 0 {
      assert bs[..0] == [];
      assert bs[0..] == bs;
    } else {
      var tail := bs[1..];
      ConcatSplit(tail, k - 1);
      assert bs[..k][0] == bs[0] && bs[..k][1..] == tail[..k - 1];
      assert tail[k - 1..] == bs[k..];
      calc {
        Concat(bs);
        bs[0] + Concat(tail);
        bs[0] + (Concat(tail[..k - 1]) + Concat(bs[k..]));
        (bs[0] + Concat(tail[..k - 1])) + Concat(bs[k..]);
        Concat(bs[..k]) + Concat(bs[k..]);
      }
    }
  }

  /** Appending a chunk appends its bytes to the logical contents. */
  lemma ConcatAppend(bs: seq<Bytes>, c: Bytes)
    ensures Concat(bs + [c]) == Concat(bs) + c
  {
    ConcatSplit(bs + [c], |bs|);
    assert (bs + [c])[..|bs|] == bs;
    assert (bs + [c])[|bs|..] == [c];
    assert Concat([c]) == c + Concat([]);
  }

  /** The chunks a run of `push` calls stores: the pushed chunks in order, with the
      empty ones dropped. Dropping them changes neither the logical contents nor
      the order of the bytes. */
  function NonEmpty(cs: seq<Bytes>): (r: seq<Bytes>)
    ensures AllNonEmpty(r)
    ensures |r| <= |cs|
    ensures Concat(r) == Concat(cs)
  {
    if cs == [] then []
    else
      var init, last := cs[..|cs| - 1], cs[|cs| - 1];
      assert cs == init + [last];
      ConcatAppend(init, last);
      if |last| > 0 then
        ConcatAppend(NonEmpty(init), last);
        NonEmpty(init) + [last]
      else
        assert last == [] && NonEmpty(init) + [] == NonEmpty(init);
        NonEmpty(init)
  }

  /** Taking one more chunk of `cs` appends its bytes to the contents and, unless
      it is empty, appends it to the stored chunks. */
  lemma PrefixSnoc(cs: seq<Bytes>, i: nat)
    requires i < |cs|
    ensures Concat(cs[..i + 1]) == Concat(cs[..i]) + cs[i]
    ensures NonEmpty(cs[..i + 1]) == NonEmpty(cs[..i]) + (if |cs[i]| > 0 then [cs[i]] else [])
  {
    assert cs[..i + 1] == cs[..i] + [cs[i]];
    assert cs[..i + 1][..i] == cs[..i];
    ConcatAppend(cs[..i], cs[i]);
  }

  /** The chunk list after consuming `n` bytes from the front, chunk by chunk as
      `advance` does: a chunk the remaining count covers entirely is consumed and
      evicted; the first one it does not cover is advanced in place by what is
      left of the count. */
  function DropFront(bs: seq<Bytes>, n: nat): (r: seq<Bytes>)
    requires n <= TotalLen(bs)
    ensures TotalLen(r) == TotalLen(bs) - n
    ensures |r| <= |bs|
    ensures AllNonEmpty(bs) ==> AllNonEmpty(r)
    decreases |bs|
  {
    if n == 0 then bs
    else if n < |bs[0]| then
      var r := [bs[0][n..]] + bs[1..];
      assert r[1..] == bs[1..];
      r
    else DropFront(bs[1..], n - |bs[0]|)
  }

  /** Consuming `n` bytes drops exactly the first `n` bytes of the logical contents. */
  lemma {:induction false} DropFrontContents(bs: seq<Bytes>, n: nat)
    requires n <= TotalLen(bs)
    ensures Concat(DropFront(bs, n)) == Concat(bs)[n..]
    decreases |bs|
  {
    if n == 0 {
    } else if n < |bs[0]| {
      var r := [bs[0][n..]] + bs[1..];
      assert r[0] == bs[0][n..] && r[1..] == bs[1..];
      assert Concat(r) == bs[0][n..] + Concat(bs[1..]);
      assert (bs[0] + Concat(bs[1..]))[n..] == bs[0][n..] + Concat(bs[1..]);
    } else {
      DropFrontContents(bs[1..], n - |bs[0]|);
      assert (bs[0] + Concat(bs[1..]))[n..] == Concat(bs[1..])[n - |bs[0]|..];
    }
  }

  /** Unfolding the prefix sum of the first `k` chunks by its first chunk. */
  lemma PrefixLenCons(bs: seq<Bytes>, k: nat)
    requires 0 < k <= |bs|
    ensures TotalLen(bs[..k]) == |bs[0]| + TotalLen(bs[1..][..k - 1])
  {
    assert bs[..k][0] == bs[0];
    assert bs[..k][1..] == bs[1..][..k - 1];
  }

  /** Consuming `n` bytes evicts exactly the chunks `n` covers: with `k` chunks gone,
      the first `k` chunks hold at most `n` bytes, and when a chunk is left, the
      `n - TotalLen(bs[..k])` bytes still to consume are fewer than chunk `k` holds,
      the front chunk is chunk `k` advanced by that many bytes, and the chunks
      behind it are untouched. */
  lemma {:induction false} DropFrontShape(bs: seq<Bytes>, n: nat)
    requires AllNonEmpty(bs)
    requires n <= TotalLen(bs)
    ensures var r := DropFront(bs, n); var k := |bs| - |r|;
      TotalLen(bs[..k]) <= n &&
      (r != [] ==>
        n - TotalLen(bs[..k]) < |bs[k]| &&
        r[0] == bs[k][n - TotalLen(bs[..k])..] &&
        r[1..] == bs[k + 1..])
    decreases |bs|
  {
    var r := DropFront(bs, n);
    var k := |bs| - |r|;
    if n == 0 {
      assert k == 0 && bs[..0] == [];
    } else if n < |bs[0]| {
      assert k == 0 && bs[..0] == [];
    } else {
      var bs', n' := bs[1..], n - |bs[0]|;
      DropFrontShape(bs', n');
      assert r == DropFront(bs', n');
      var k' := |bs'| - |r|;
      assert k == k' + 1;
      PrefixLenCons(bs, k);
      if r != [] {
        assert bs'[k'] == bs[k];
        assert bs'[k' + 1..] == bs[k + 1..];
      }
    }
  }

  /** Advancing by the total length of the first `k` chunks evicts exactly those
      chunks and leaves the rest as they were. */
  lemma {:induction false} GatherAdvance(bs: seq<Bytes>, k: nat)
    requires AllNonEmpty(bs)
    requires k <= |bs|
    ensures TotalLen(bs[..k]) <= TotalLen(bs)
    ensures DropFront(bs, TotalLen(bs[..k])) == bs[k..]
    decreases k
  {
    ConcatSplit(bs, k);
    if k == 0 {
      assert bs[..0] == [];
    } else {
      PrefixLenCons(bs, k);
      GatherAdvance(bs[1..], k - 1);
      assert bs[1..][k - 1..] == bs[k..];
    }
  }
}
