/** Where the backward pass keeps the padded rows of variable-length sequences: the allocated
    totals of `mha_bwd` in `hopper/flash_api.cpp` and `_flash_attn_bwd` in
    `FA4_fp32/interface.py`, and the padded offsets of `hopper/seqlen.h`. */
module PaddedAllocation {
  import opened TruncatedDivision

  /** round_multiple */
  function RoundMultiple(x: int, m: int): int
    requires m > 0
  {
    DivT(x + m - 1, m) * m
  }

  function HopperTotal(total: nat, batch: nat, block: nat): int
    requires block > 0
  {
    RoundMultiple(total + batch * block, block)
  }

  /** The same from the number of entries of cu_seqlens; `//` floors. */
  function Fa4Total(total: nat, entries: nat, block: nat): int
    requires block > 0
  {
    (total + entries * block - 1) / block * block
  }

  /** The two front ends allocate the same amount. */
  lemma TotalsAgree(total: nat, batch: nat, block: nat)
    requires block > 0
    ensures HopperTotal(total, batch, block) == Fa4Total(total, batch + 1, block)
  {
    assert (batch + 1) * block == batch * block + block;
    MulMonotone(0, batch, block);
  }

  /** The total is whole blocks, holds the tokens and one block for each sequence, and is less than
      a block more than that. */
  lemma TotalIsTight(total: nat, batch: nat, block: nat)
    requires block > 0
    ensures HopperTotal(total, batch, block) % block == 0
    ensures total + batch * block <= HopperTotal(total, batch, block) < total + batch * block + block
  {
    var x := total + batch * block;
    MulMonotone(0, batch, block);
    var q := (x + block - 1) / block;
    FloorBounds(x + block - 1, block);
    assert (q + 1) * block == q * block + block;
    QuotientFrom(q * block, block, q, q * block);
  }

  /** cu_seqlens, and the lengths in use: at most the allocated ones. */
  ghost predicate Valid(cu: seq<nat>, lens: seq<nat>) {
    && |cu| == |lens| + 1
    && forall b | 0 <= b < |lens| :: cu[b] + lens[b] <= cu[b + 1]
  }

  function OffsetPadded(cu: seq<nat>, b: nat, block: nat): int
    requires b < |cu| && block > 0
  {
    DivT(cu[b] + b * block, block) * block
  }

  lemma OffsetBlocks(cu: seq<nat>, b: nat, block: nat)
    requires b < |cu| && block > 0
    ensures OffsetPadded(cu, b, block) == (cu[b] / block + b) * block
    ensures OffsetPadded(cu, b, block) >= 0 && OffsetPadded(cu, b, block) % block == 0
  {
    var q := cu[b] / block;
    FloorBounds(cu[b], block);
    assert (q + b) * block == q * block + b * block && (q + 1) * block == q * block + block;
    MulMonotone(0, b, block);
    QuotientFrom(cu[b] + b * block, block, q + b, (q + b) * block);
    QuotientFrom((q + b) * block, block, q + b, (q + b) * block);
    QuotientAtLeast(cu[b], block, 0);
    MulMonotone(0, q + b, block);
  }

  /** Rounding a length up costs at most one block beyond where its end rounds down to. */
  lemma RoundedLengthFits(c: nat, len: nat, next: nat, block: nat)
    requires block > 0 && c + len <= next
    ensures c / block + DivT(len + block - 1, block) <= next / block + 1
  {
    var p, q := c / block, DivT(len + block - 1, block);
    QuotientAtLeast(c, block, p);
    QuotientAtLeast(len + block - 1, block, q);
    assert (p + q - 1) * block == p * block + q * block - block;
    QuotientAtLeast(next, block, p + q - 1);
  }

  lemma BlocksFit(p: int, q: int, r: int, block: nat)
    requires p + q <= r
    ensures p * block + q * block <= r * block
  {
    MulMonotone(p + q, r, block);
    assert (p + q) * block == p * block + q * block;
  }

  /** A sequence, padded to whole blocks, ends before the next one starts. */
  lemma NextStartsAfter(cu: seq<nat>, lens: seq<nat>, b: nat, block: nat)
    requires Valid(cu, lens) && b < |lens| && block > 0
    ensures OffsetPadded(cu, b, block) + RoundMultiple(lens[b], block) <= OffsetPadded(cu, b + 1, block)
  {
    hide OffsetPadded, DivT;
    OffsetBlocks(cu, b, block);
    OffsetBlocks(cu, b + 1, block);
    RoundedLengthFits(cu[b], lens[b], cu[b + 1], block);
    BlocksFit(cu[b] / block + b, DivT(lens[b] + block - 1, block), cu[b + 1] / block + b + 1, block);
  }

  lemma RoundedIsAtLeast(len: nat, block: nat)
    requires block > 0
    ensures RoundMultiple(len, block) >= len
  {
    FloorBounds(len + block - 1, block);
    var q := DivT(len + block - 1, block);
    assert (q + 1) * block == q * block + block;
  }

  lemma {:induction false} OffsetsAscend(cu: seq<nat>, lens: seq<nat>, b: nat, c: nat, block: nat)
    requires Valid(cu, lens) && b <= c <= |lens| && block > 0
    ensures OffsetPadded(cu, b, block) <= OffsetPadded(cu, c, block)
    decreases c - b
  {
    if b < c {
      OffsetsAscend(cu, lens, b, c - 1, block);
      hide OffsetPadded, RoundMultiple;
      NextStartsAfter(cu, lens, c - 1, block);
      RoundedIsAtLeast(lens[c - 1], block);
    }
  }

  lemma LastOffset(cu: seq<nat>, lens: seq<nat>, block: nat)
    requires Valid(cu, lens) && block > 0
    ensures OffsetPadded(cu, |lens|, block) <= HopperTotal(cu[|lens|], |lens|, block)
  {
    var x := cu[|lens|] + |lens| * block;
    MulMonotone(0, |lens|, block);
    FloorBounds(x, block);
    QuotientAtLeast(x + block - 1, block, x / block);
    MulMonotone(x / block, (x + block - 1) / block, block);
  }

  /** Whole blocks written for one sequence start on a block boundary, touch no other sequence's
      blocks and stay inside the allocation. */
  lemma PaddedSequencesAreDisjoint(cu: seq<nat>, lens: seq<nat>, b: nat, c: nat, block: nat)
    requires Valid(cu, lens) && b < c <= |lens| && block > 0
    ensures OffsetPadded(cu, b, block) >= 0 && OffsetPadded(cu, b, block) % block == 0
    ensures OffsetPadded(cu, b, block) + RoundMultiple(lens[b], block) <= OffsetPadded(cu, c, block)
    ensures OffsetPadded(cu, c, block) <= HopperTotal(cu[|lens|], |lens|, block)
  {
    hide OffsetPadded, RoundMultiple, HopperTotal;
    OffsetBlocks(cu, b, block);
    NextStartsAfter(cu, lens, b, block);
    OffsetsAscend(cu, lens, b + 1, c, block);
    OffsetsAscend(cu, lens, c, |lens|, block);
    LastOffset(cu, lens, block);
  }

  function RoundedSum(lens: seq<nat>, block: nat): int
    requires block > 0
  {
    if lens == [] then 0 else RoundedSum(lens[..|lens| - 1], block) + RoundMultiple(lens[|lens| - 1], block)
  }

  /** Up to sequence b the rounded lengths sum to no more than its padded offset. */
  lemma {:induction false} RoundedSumFits(cu: seq<nat>, lens: seq<nat>, b: nat, block: nat)
    requires Valid(cu, lens) && b <= |lens| && block > 0
    ensures RoundedSum(lens[..b], block) <= OffsetPadded(cu, b, block)
  {
    if b > 0 {
      RoundedSumFits(cu, lens, b - 1, block);
      hide OffsetPadded, RoundMultiple;
      NextStartsAfter(cu, lens, b - 1, block);
      assert lens[..b][..b - 1] == lens[..b - 1];
    } else {
      OffsetBlocks(cu, 0, block);
    }
  }

  /** The allocation holds every sequence rounded up to whole blocks. */
  lemma AllocationSuffices(cu: seq<nat>, lens: seq<nat>, block: nat)
    requires Valid(cu, lens) && block > 0
    ensures RoundedSum(lens, block) <= HopperTotal(cu[|lens|], |lens|, block)
    ensures RoundedSum(lens, block) <= Fa4Total(cu[|lens|], |lens| + 1, block)
  {
    RoundedSumFits(cu, lens, |lens|, block);
    assert lens[..|lens|] == lens;
    hide OffsetPadded, HopperTotal, Fa4Total, RoundedSum;
    LastOffset(cu, lens, block);
    TotalsAgree(cu[|lens|], |lens|, block);
  }
}
