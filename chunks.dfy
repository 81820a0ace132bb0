/**
 * The chunk distributor: splitting the vertex index range [0, count) into
 * `groups` contiguous work chunks, one per worker process.
 */
module Chunks {
  import opened Outcomes

  /** A Python `range(lo, hi)`: lo, lo + 1, ..., hi - 1, empty when hi <= lo. */
  datatype Range = Range(lo: nat, hi: nat) {
    /** `len(range(lo, hi))` */
    function Len(): nat { if hi <= lo then 0 else hi - lo }

    predicate Contains(i: int) { lo <= i < hi }
  }

  /** `sum(map(len, chunks))` */
  function TotalLen(chunks: seq<Range>): nat {
    if chunks == [] then 0 else TotalLen(chunks[..|chunks| - 1]) + chunks[|chunks| - 1].Len()
  }

  /** Chunk `n` as the loop body appends it: all but the last have `count / groups` elements. */
  function ChunkAt(count: nat, groups: nat, n: nat): Range
    requires 1 <= groups
  {
    var size := count / groups;
    if n != groups - 1 then Range(n * size, (n + 1) * size) else Range(n * size, count)
  }

  /** The whole list of chunks for `count` objects and `groups` groups. */
  function Distribution(count: nat, groups: nat): (chunks: seq<Range>)
    requires 1 <= groups
    ensures |chunks| == groups
    ensures forall n | 0 <= n < groups :: chunks[n] == ChunkAt(count, groups, n)
  {
    seq(groups, n requires 0 <= n < groups => ChunkAt(count, groups, n))
  }

  /**
   * The chunks tile [0, count) in order: the first starts at 0, each one
   * starts where the previous one ends, none runs backwards and the last ends at `count`.
   */
  predicate IsPartition(chunks: seq<Range>, count: nat) {
    && |chunks| >= 1
    && chunks[0].lo == 0
    && chunks[|chunks| - 1].hi == count
    && (forall n | 0 <= n < |chunks| :: chunks[n].lo <= chunks[n].hi)
    && (forall n | 0 <= n < |chunks| - 1 :: chunks[n].hi == chunks[n + 1].lo)
  }

  lemma {:induction false} LastChunkStart(count: nat, groups: nat)
    requires 1 <= groups
    ensures (groups - 1) * (count / groups) <= count
  {
    var size := count / groups;
    assert size * groups <= count;
    assert (groups - 1) * size <= groups * size;
  }

  /** For `groups >= 1` the distribution is a partition of [0, count). */
  lemma DistributionIsPartition(count: nat, groups: nat)
    requires 1 <= groups
    ensures IsPartition(Distribution(count, groups), count)
  {
    var chunks := Distribution(count, groups);
    var size := count / groups;
    LastChunkStart(count, groups);
    forall n | 0 <= n < groups
      ensures chunks[n].lo <= chunks[n].hi
    {
      if n != groups - 1 {
        assert n * size <= (n + 1) * size;
      }
    }
  }

  /** The end of the prefix of a partition is the total length of that prefix. */
  lemma {:induction false} PrefixTotalLen(chunks: seq<Range>, k: nat)
    requires 1 <= k <= |chunks|
    requires chunks[0].lo == 0
    requires forall n | 0 <= n < |chunks| :: chunks[n].lo <= chunks[n].hi
    requires forall n | 0 <= n < |chunks| - 1 :: chunks[n].hi == chunks[n + 1].lo
    ensures TotalLen(chunks[..k]) == chunks[k - 1].hi
  {
    assert chunks[..k][..k - 1] == chunks[..k - 1];
    if k > 1 {
      PrefixTotalLen(chunks, k - 1);
    } else {
      assert chunks[..0] == [];
    }
  }

  /** The chunk sizes of a partition of [0, count) add up to `count`: the source's assertion. */
  lemma PartitionTotalLen(chunks: seq<Range>, count: nat)
    requires IsPartition(chunks, count)
    ensures TotalLen(chunks) == count
  {
    PrefixTotalLen(chunks, |chunks|);
    assert chunks[..|chunks|] == chunks;
  }

  /** Every index below `count` lies in exactly one chunk of a partition, and no other index does. */
  lemma {:induction false} PartitionCovers(chunks: seq<Range>, count: nat, i: nat)
    requires IsPartition(chunks, count)
    ensures i < count <==> exists n | 0 <= n < |chunks| :: chunks[n].Contains(i)
    ensures forall m, n | 0 <= m < |chunks| && 0 <= n < |chunks| && chunks[m].Contains(i) && chunks[n].Contains(i) :: m == n
  {
    forall m, n | 0 <= m < n < |chunks|
      ensures chunks[m].hi <= chunks[n].lo
    {
      ChunksOrdered(chunks, m, n);
    }
    forall n | 0 <= n < |chunks|
      ensures 0 <= chunks[n].lo && chunks[n].hi <= count
    {
      if n < |chunks| - 1 { ChunksOrdered(chunks, n, |chunks| - 1); }
    }
    if i < count {
      var n := FindChunk(chunks, count, i);
    }
  }

  /** Every chunk of a partition of [0, count) lies inside it. */
  lemma PartitionBounds(chunks: seq<Range>, count: nat)
    requires IsPartition(chunks, count)
    ensures forall n | 0 <= n < |chunks| :: chunks[n].hi <= count
  {
    forall n | 0 <= n < |chunks| - 1
      ensures chunks[n].hi <= count
    {
      ChunksOrdered(chunks, n, |chunks| - 1);
    }
  }

  lemma {:induction false} ChunksOrdered(chunks: seq<Range>, m: nat, n: nat)
    requires forall k | 0 <= k < |chunks| :: chunks[k].lo <= chunks[k].hi
    requires forall k | 0 <= k < |chunks| - 1 :: chunks[k].hi == chunks[k + 1].lo
    requires m < n < |chunks|
    ensures chunks[m].hi <= chunks[n].lo
    decreases n - m
  {
    if m + 1 < n {
      ChunksOrdered(chunks, m + 1, n);
    }
  }

  /** The chunk that holds index `i`, searched from the first. */
  lemma {:induction false} FindChunk(chunks: seq<Range>, count: nat, i: nat) returns (n: nat)
    requires IsPartition(chunks, count)
    requires i < count
    ensures n < |chunks| && chunks[n].Contains(i)
  {
    n := 0;
    while !(chunks[n].Contains(i))
      invariant n < |chunks|
      invariant chunks[n].lo <= i
      decreases |chunks| - n
    {
      if n == |chunks| - 1 {
        assert false;
      }
      n := n + 1;
    }
  }

  /**
   * Sizes: every chunk but the last has `count / groups` elements, the last the
   * remainder; with fewer objects than groups all but the last are empty.
   */
  lemma ChunkSizes(count: nat, groups: nat, n: nat)
    requires 1 <= groups && n < groups
    ensures n < groups - 1 ==> Distribution(count, groups)[n].Len() == count / groups
    ensures n == groups - 1 ==> Distribution(count, groups)[n].Len() == count - (groups - 1) * (count / groups)
    ensures count < groups && n < groups - 1 ==> Distribution(count, groups)[n].Len() == 0
  {
    var size := count / groups;
    if n < groups - 1 {
      assert Distribution(count, groups)[n] == Range(n * size, (n + 1) * size);
      assert (n + 1) * size == n * size + size;
    } else {
      LastChunkStart(count, groups);
    }
  }

  /** The last chunk, which takes the remainder, is never smaller than the others. */
  lemma LastChunkLargest(count: nat, groups: nat)
    requires 1 <= groups
    ensures Distribution(count, groups)[groups - 1].Len() >= count / groups
  {
    var size := count / groups;
    LastChunkStart(count, groups);
    assert Distribution(count, groups)[groups - 1] == Range((groups - 1) * size, count);
    assert size * groups <= count;
    assert (groups - 1) * size + size == size * groups;
  }

  /**
   * `_distributeObjects(range(count), groups)`: appends one range per group and
   * checks that their lengths add up to `count`; `groups == 0` divides by zero.
   */
  method DistributeObjects(count: nat, groups: nat) returns (r: Result<seq<Range>>)
    ensures groups == 0 ==> r == Err(ZeroDivisionError)
    ensures groups >= 1 ==> r == Ok(Distribution(count, groups))
    ensures r.Ok? ==> |r.value| == groups && IsPartition(r.value, count) && TotalLen(r.value) == count
  {
    if groups == 0 {
      return Err(ZeroDivisionError);
    }
    var size := count / groups;
    var chunks: seq<Range> := [];
    var n := 0;
    while n < groups
      invariant 0 <= n <= groups
      invariant |chunks| == n
      invariant forall k | 0 <= k < n :: chunks[k] == ChunkAt(count, groups, k)
    {
      if n != groups - 1 {
        chunks := chunks + [Range(n * size, (n + 1) * size)];
      } else {
        chunks := chunks + [Range(n * size, count)];
      }
      n := n + 1;
    }
    assert chunks == Distribution(count, groups);
    DistributionIsPartition(count, groups);
    PartitionTotalLen(chunks, count);
    if TotalLen(chunks) != count {
      return Err(AssertionError("Distribute objects error: not all objects distributed"));
    }
    return Ok(chunks);
  }
}
