/** Which scores of a tile the kernels set to -inf, and which mask each iteration of the main
    loops applies: `Mask::apply` in `hopper/mask.h` with attention_chunk = 0 and
    sink_token_length = 0, and the loops of `hopper/mainloop_fwd_sm90_tma_gmma_ws.hpp` and
    `hopper/mainloop_bwd_sm90_tma_gmma_ws.hpp`. */
module TileMask {
  import opened TruncatedDivision
  import opened BlockMN

  /** The template arguments of apply. */
  datatype Kind = Kind(seqlenk: bool, causal: bool, local: bool)

  /** A score of a tile as a thread sees it: its first row and column plus an offset. */
  datatype Cell = Cell(row0: int, threadRow: int, col0: int, threadCol: int) {
    predicate InTile(t: Tiling) {
      0 <= row0 + threadRow < t.blockM && 0 <= col0 && 0 <= threadCol && col0 + threadCol < t.blockN
    }
  }

  // ---------------------------------------------------------------- apply

  /** apply with SwapAB = false. */
  predicate MaskedByRow(t: Tiling, s: Seqlens, kind: Kind, m: nat, n: nat, x: Cell)
    requires t.Valid()
  {
    var limit := s.k - n * t.blockN - x.threadCol;
    if !kind.causal && !kind.local then kind.seqlenk && x.col0 >= limit
    else
      var row := x.row0 + x.threadRow;
      var rowIdx := if t.packGQA then DivT(m * t.blockM + row, t.group) else row + m * t.blockM;
      var offset := 1 + s.k - n * t.blockN - s.q - x.threadCol;
      if kind.causal then
        x.col0 >= (if kind.seqlenk then Min(rowIdx + offset, limit) else rowIdx + offset)
      else
        var right := offset + t.right;
        var left := offset - 1 - t.left;
        var sink := 0 - n * t.blockN;
        || x.col0 >= (if kind.seqlenk then Min(rowIdx + right, limit) else rowIdx + right)
        || (x.col0 < rowIdx + left && x.col0 >= sink)
  }

  /** apply with SwapAB = true; rows are never packed there. */
  predicate MaskedByColumn(t: Tiling, s: Seqlens, kind: Kind, m: nat, n: nat, x: Cell)
    requires t.Valid()
  {
    var limit := s.k - n * t.blockN - x.threadCol;
    if !kind.causal && !kind.local then kind.seqlenk && x.col0 >= limit
    else
      var offset := limit - s.q + m * t.blockM + x.threadRow;
      if kind.causal then
        x.row0 < (if x.col0 >= limit then t.blockM else x.col0 - offset)
      else
        var sink := 0 - n * t.blockN - x.threadCol;
        || x.row0 < (if x.col0 >= limit then t.blockM else x.col0 - offset - t.right)
        || x.row0 > (if x.col0 < sink then t.blockM else x.col0 - offset + t.left)
  }

  predicate Masked(t: Tiling, s: Seqlens, swapAB: bool, kind: Kind, m: nat, n: nat, x: Cell)
    requires t.Valid()
  {
    if swapAB then MaskedByColumn(t, s, kind, m, n, x) else MaskedByRow(t, s, kind, m, n, x)
  }

  /** The score of a query and key that may not be attended. */
  predicate Hidden(t: Tiling, s: Seqlens, m: nat, n: nat, x: Cell)
    requires t.Valid() && x.InTile(t)
  {
    var row, key := m * t.blockM + x.row0 + x.threadRow, n * t.blockN + x.col0 + x.threadCol;
    assert row >= 0 by { MulMonotone(0, m, t.blockM); }
    key >= s.k || !InWindow(t, s, QueryOf(t, row), key)
  }

  /** A mask leaves exactly the scores of the window. */
  ghost predicate Exact(t: Tiling, s: Seqlens, swapAB: bool, kind: Kind, m: nat, n: nat)
    requires t.Valid()
  {
    forall x: Cell | x.InTile(t) && (swapAB ==> x.threadRow >= 0) ::
      Masked(t, s, swapAB, kind, m, n, x) <==> Hidden(t, s, m, n, x)
  }

  /** The kernel is causal or local but not both. */
  predicate OneWindow(t: Tiling) { t.Valid() && !(t.causal && t.local) }

  lemma RowMaskIsExact(t: Tiling, s: Seqlens, kind: Kind, m: nat, n: nat, x: Cell)
    requires OneWindow(t) && kind.causal == t.causal && kind.local == t.local && x.InTile(t)
    requires kind.seqlenk || n * t.blockN + t.blockN <= s.k
    ensures MaskedByRow(t, s, kind, m, n, x) <==> Hidden(t, s, m, n, x)
  {
    MulMonotone(0, n, t.blockN);
    MulMonotone(0, m, t.blockM);
  }

  lemma ColumnMaskIsExact(t: Tiling, s: Seqlens, kind: Kind, m: nat, n: nat, x: Cell)
    requires OneWindow(t) && kind.causal == t.causal && kind.local == t.local && x.InTile(t) && !t.packGQA
    requires x.threadRow >= 0
    requires kind.seqlenk || n * t.blockN + t.blockN <= s.k
    ensures MaskedByColumn(t, s, kind, m, n, x) <==> Hidden(t, s, m, n, x)
  {
    MulMonotone(0, n, t.blockN);
    MulMonotone(0, m, t.blockM);
  }

  /** With the kernel's own window flags the mask is exact, unless keys beyond the end are in
      the tile and not asked for. */
  lemma WindowMaskIsExact(t: Tiling, s: Seqlens, swapAB: bool, kind: Kind, m: nat, n: nat)
    requires OneWindow(t) && kind.causal == t.causal && kind.local == t.local && (swapAB ==> !t.packGQA)
    requires kind.seqlenk || (n + 1) * t.blockN <= s.k
    ensures Exact(t, s, swapAB, kind, m, n)
  {
    assert (n + 1) * t.blockN == n * t.blockN + t.blockN;
    MulMonotone(0, n, t.blockN);
    MulMonotone(0, m, t.blockM);
    forall x: Cell | x.InTile(t) && (swapAB ==> x.threadRow >= 0)
      ensures Masked(t, s, swapAB, kind, m, n, x) <==> Hidden(t, s, m, n, x)
    {
      if swapAB { ColumnMaskIsExact(t, s, kind, m, n, x); } else { RowMaskIsExact(t, s, kind, m, n, x); }
    }
  }

  // ---------------------------------------------------------------- the forward main loop

  /** One iteration: the key block (or query block) and the mask applied to its scores. */
  datatype Step = Step(block: int, kind: Kind)

  /** Step k handles block first + k * dir, and its mask is exact. */
  ghost predicate ForwardStep(t: Tiling, s: Seqlens, m: nat, step: Step, n: int)
    requires t.Valid()
  {
    step.block == n && n >= 0 && Exact(t, s, false, step.kind, m, n)
  }

  /** Blocks other than the last of a range hold no key beyond the end. */
  lemma InnerBlockIsFull(t: Tiling, s: Seqlens, n: nat, max: int)
    requires t.Valid() && n + 1 < max <= CeilDiv(s.k, t.blockN)
    ensures (n + 1) * t.blockN <= s.k
  {
    BelowCeilDiv(n + 1, s.k, t.blockN);
  }

  lemma NoWindow(t: Tiling, s: Seqlens, i: int, j: int)
    requires !t.causal && !t.local
    ensures InWindow(t, s, i, j)
  {
  }

  /** Without any mask: right in the mask-free middle. */
  lemma NoMaskIsExact(t: Tiling, s: Seqlens, m: nat, n: nat, nMin: nat)
    requires t.Valid() && (n + 1) * t.blockN <= s.k && nMin <= n
    requires t.causal || t.local ==> MinBlockBeforeLeftMask(t, s, m, nMin) <= n < MinBlockWithRightMask(t, s, m, nMin)
    ensures Exact(t, s, false, Kind(false, false, false), m, n)
  {
    hide MinBlockBeforeLeftMask, MinBlockWithRightMask, QueryOf, InWindow;
    assert (n + 1) * t.blockN == n * t.blockN + t.blockN;
    assert (m + 1) * t.blockM == m * t.blockM + t.blockM;
    MulMonotone(0, m, t.blockM);
    forall x: Cell | x.InTile(t) ensures !Hidden(t, s, m, n, x) {
      var row, key := m * t.blockM + x.row0 + x.threadRow, n * t.blockN + x.col0 + x.threadCol;
      if t.causal || t.local {
        MaskFreeMiddle(t, s, m, n, nMin, row, key);
      } else {
        NoWindow(t, s, QueryOf(t, row), key);
      }
    }
  }

  lemma BoundsAboveMin(t: Tiling, s: Seqlens, m: nat, nMin: int)
    requires t.Valid()
    ensures MinBlockWithRightMask(t, s, m, nMin) >= nMin && MinBlockBeforeLeftMask(t, s, m, nMin) >= nMin
    ensures !t.local ==> MinBlockBeforeLeftMask(t, s, m, nMin) == nMin
  {
  }

  /** Only the last block is masked at the end of the keys, and another block goes without any
      mask exactly between the two bounds. */
  ghost predicate MaskedAsNeeded(t: Tiling, s: Seqlens, m: nat, r: Range, step: Step)
    requires t.Valid()
  {
    && (step.kind.seqlenk <==> step.block == r.max - 1)
    && (step.block < r.max - 1 ==>
          (step.kind == Kind(false, false, false) <==>
             (t.causal || t.local ==>
                MinBlockBeforeLeftMask(t, s, m, r.min) <= step.block < MinBlockWithRightMask(t, s, m, r.min))))
  }

  /** The iterations of one query tile: the last key block with every mask, then the blocks that
      need the right limit, then blocks without mask, then the blocks that need the left limit.
      Every block of the range is handled once, from the last to the first, and every score is
      set to -inf exactly when its pair lies outside the window. */
  method ForwardMasks(t: Tiling, s: Seqlens, m: nat, r: Range) returns (steps: seq<Step>)
    requires OneWindow(t) && 0 <= r.min && r.max <= CeilDiv(s.k, t.blockN)
    ensures |steps| == Max(0, r.max - r.min)
    ensures forall k | 0 <= k < |steps| :: ForwardStep(t, s, m, steps[k], r.max - 1 - k)
    ensures forall k | 0 <= k < |steps| :: MaskedAsNeeded(t, s, m, r, steps[k])
  {
    hide Exact, CeilDiv, DivT, InWindow, QueryOf, MinBlockWithRightMask, MinBlockBeforeLeftMask;
    steps := [];
    if r.max <= r.min { return; }
    var n := r.max - 1;
    WindowMaskIsExact(t, s, false, Kind(true, t.causal, t.local), m, n);
    steps := [Step(n, Kind(true, t.causal, t.local))];
    n := n - 1;
    if t.causal || t.local {
      var nMinRight := MinBlockWithRightMask(t, s, m, r.min);
      BoundsAboveMin(t, s, m, r.min);
      while n >= nMinRight
        invariant r.min - 1 <= n < r.max && |steps| == r.max - 1 - n
        invariant forall k | 0 <= k < |steps| :: ForwardStep(t, s, m, steps[k], r.max - 1 - k)
        invariant forall k | 0 <= k < |steps| :: MaskedAsNeeded(t, s, m, r, steps[k])
      {
        InnerBlockIsFull(t, s, n, r.max);
        WindowMaskIsExact(t, s, false, Kind(false, t.causal, t.local), m, n);
        steps := steps + [Step(n, Kind(false, t.causal, t.local))];
        n := n - 1;
      }
    }
    var nMinLeft := MinBlockBeforeLeftMask(t, s, m, r.min);
    BoundsAboveMin(t, s, m, r.min);
    while n >= nMinLeft
      invariant r.min - 1 <= n < r.max && |steps| == r.max - 1 - n
      invariant t.causal || t.local ==> n < MinBlockWithRightMask(t, s, m, r.min)
      invariant forall k | 0 <= k < |steps| :: MaskedAsNeeded(t, s, m, r, steps[k])
      invariant forall k | 0 <= k < |steps| :: ForwardStep(t, s, m, steps[k], r.max - 1 - k)
    {
      InnerBlockIsFull(t, s, n, r.max);
      NoMaskIsExact(t, s, m, n, r.min);
      steps := steps + [Step(n, Kind(false, false, false))];
      n := n - 1;
    }
    if t.local {
      while n >= r.min
        invariant r.min - 1 <= n < r.max && n < nMinLeft && |steps| == r.max - 1 - n
        invariant forall k | 0 <= k < |steps| :: ForwardStep(t, s, m, steps[k], r.max - 1 - k)
        invariant forall k | 0 <= k < |steps| :: MaskedAsNeeded(t, s, m, r, steps[k])
      {
        InnerBlockIsFull(t, s, n, r.max);
        WindowMaskIsExact(t, s, false, Kind(false, false, t.local), m, n);
        steps := steps + [Step(n, Kind(false, false, t.local))];
        n := n - 1;
      }
    }
  }

  /** The range of any split is one the main loop accepts. */
  lemma SplitRangeIsInside(t: Tiling, s: Seqlens, m: nat, word: int, numSplits: int)
    requires t.Valid() && numSplits > 0 && -0x8000_0000 <= word < 0x8000_0000
    ensures var r := NBlockRangeOfSplit(t, s, m, word, numSplits); 0 <= r.min && r.max <= CeilDiv(s.k, t.blockN)
  {
    var all := NBlockRange(t, s, m);
    var (dynamic, split) := UnpackSplit(word);
    var count := if dynamic > 0 then dynamic else numSplits;
    if all.max > all.min {
      BelowCeilDiv(0, all.max - all.min, count);
      MulMonotone(0, split, CeilDiv(all.max - all.min, count));
    }
  }

  // ---------------------------------------------------------------- the backward main loop

  /** m_block_masking_max and m_block_max_before_local_mask. */
  function MaskingMax(t: Tiling, s: Seqlens, n: nat): int
    requires t.Valid()
  {
    DivT((n + 1) * t.blockN - 1 + s.q - s.k - t.right, t.blockM) + 1
  }

  function MaxBeforeLocalMask(t: Tiling, s: Seqlens, n: nat, mMax: int, separate: bool): int
    requires t.Valid()
  {
    if !t.local || !separate then mMax else Min(mMax, DivT(n * t.blockN + s.q - s.k + t.left, t.blockM))
  }

  ghost predicate BackwardStep(t: Tiling, s: Seqlens, swapAB: bool, n: nat, step: Step, m: int)
    requires t.Valid()
  {
    step.block == m && m >= 0 && Exact(t, s, swapAB, step.kind, m, n)
  }

  /** From MaskingMax on, every row of the tile is past the right limit of every key. */
  lemma BeyondMaskingMax(t: Tiling, s: Seqlens, n: nat, m: nat)
    requires t.Valid() && m >= MaskingMax(t, s, n)
    ensures (n + 1) * t.blockN - 1 + s.q - s.k - t.right < m * t.blockM
  {
    var d := (n + 1) * t.blockN - 1 + s.q - s.k - t.right;
    if m >= 1 {
      AtLeastDivT(m - 1, d, t.blockM);
    } else if d >= 0 {
      QuotientAtLeast(d, t.blockM, 0);
    }
  }

  /** Only the end of the keys is masked: right between the two bounds. */
  lemma EndMaskIsExact(t: Tiling, s: Seqlens, swapAB: bool, n: nat, m: nat)
    requires OneWindow(t) && !t.packGQA && (t.causal && !t.local ==> t.right == 0)
    requires t.causal || t.local ==> m >= MaskingMax(t, s, n)
    requires t.local ==> m < DivT(n * t.blockN + s.q - s.k + t.left, t.blockM)
    ensures Exact(t, s, swapAB, Kind(true, false, false), m, n)
  {
    assert (n + 1) * t.blockN == n * t.blockN + t.blockN;
    assert (m + 1) * t.blockM == m * t.blockM + t.blockM;
    BelowDivT(m, n * t.blockN + s.q - s.k + t.left, t.blockM);
    if t.causal || t.local { BeyondMaskingMax(t, s, n, m); }
    MulMonotone(0, m, t.blockM);
    forall x: Cell | x.InTile(t) && (swapAB ==> x.threadRow >= 0)
      ensures Masked(t, s, swapAB, Kind(true, false, false), m, n, x) <==> Hidden(t, s, m, n, x)
    {
    }
  }

  lemma BeforeLocalBounds(t: Tiling, s: Seqlens, n: nat, mMax: int, separate: bool)
    requires t.Valid()
    ensures var b := MaxBeforeLocalMask(t, s, n, mMax, separate);
            && b <= mMax && (!t.local || !separate ==> b == mMax)
            && (t.local && separate ==> b <= DivT(n * t.blockN + s.q - s.k + t.left, t.blockM))
  {
  }

  /** Every block is masked at the end of the keys; a windowed kernel leaves out the window mask
      exactly between the two bounds, and only with separate masking iterations. */
  ghost predicate WindowedAsNeeded(t: Tiling, s: Seqlens, n: nat, r: Range, separate: bool, step: Step)
    requires t.Valid()
  {
    && step.kind.seqlenk
    && (step.kind == Kind(true, false, false) <==>
          (t.causal || t.local ==>
             separate && MaskingMax(t, s, n) <= step.block < MaxBeforeLocalMask(t, s, n, r.max, separate)))
  }

  /** How conservative the backward bounds are.  From MaskingMax on no row of the block is cut off
      on the right, and before it one is, save for block 0 when the diagonal passes less than a
      block above it; below the local bound one row more than the block's is inside on the left. */
  lemma BackwardSlack(t: Tiling, s: Seqlens, n: nat, m: nat, mMax: int)
    requires t.Valid() && m < mMax
    ensures m > 0 ==> (m >= MaskingMax(t, s, n) <==> (n + 1) * t.blockN - 1 + s.q - s.k - t.right < m * t.blockM)
    ensures 0 >= MaskingMax(t, s, n) <==> (n + 1) * t.blockN - 1 + s.q - s.k - t.right <= -t.blockM
    ensures t.local ==>
              (m < MaxBeforeLocalMask(t, s, n, mMax, true)
               <==> (m + 1) * t.blockM <= n * t.blockN + s.q - s.k + t.left)
  {
    var d := (n + 1) * t.blockN - 1 + s.q - s.k - t.right;
    if m > 0 { AtLeastDivT(m - 1, d, t.blockM); }
    if d < 0 { QuotientAtLeast(-d, t.blockM, 1); } else { QuotientAtLeast(d, t.blockM, 0); }
    BelowDivT(m, n * t.blockN + s.q - s.k + t.left, t.blockM);
  }

  /** The iterations of one key tile, with separate masking iterations (head dimension at most
      64) or without.  Every block of the range is handled once in order, and every score is set
      to -inf exactly when its pair lies outside the window. */
  method BackwardMasks(t: Tiling, s: Seqlens, swapAB: bool, n: nat, r: Range, separate: bool) returns (steps: seq<Step>)
    requires OneWindow(t) && !t.packGQA && 0 <= r.min && (t.causal && !t.local ==> t.right == 0)
    ensures |steps| == Max(0, r.max - r.min)
    ensures forall k | 0 <= k < |steps| :: BackwardStep(t, s, swapAB, n, steps[k], r.min + k)
    ensures forall k | 0 <= k < |steps| :: WindowedAsNeeded(t, s, n, r, separate, steps[k])
  {
    hide Exact, MaskingMax, MaxBeforeLocalMask, DivT, CeilDiv, InWindow;
    steps := [];
    if r.max <= r.min { return; }
    var m := r.min;
    if (t.causal || t.local) && separate {
      var maskingMax := MaskingMax(t, s, n);
      while m < Min(r.max, maskingMax)
        invariant r.min <= m <= r.max && |steps| == m - r.min
        invariant forall k | 0 <= k < |steps| :: BackwardStep(t, s, swapAB, n, steps[k], r.min + k)
        invariant forall k | 0 <= k < |steps| :: WindowedAsNeeded(t, s, n, r, separate, steps[k])
      {
        WindowMaskIsExact(t, s, swapAB, Kind(true, t.causal, t.local), m, n);
        steps := steps + [Step(m, Kind(true, t.causal, t.local))];
        m := m + 1;
      }
    }
    var beforeLocal := MaxBeforeLocalMask(t, s, n, r.max, separate);
    BeforeLocalBounds(t, s, n, r.max, separate);
    while m < beforeLocal
      invariant r.min <= m <= r.max && |steps| == m - r.min
      invariant (t.causal || t.local) && separate && m < r.max ==> m >= MaskingMax(t, s, n)
      invariant forall k | 0 <= k < |steps| :: BackwardStep(t, s, swapAB, n, steps[k], r.min + k)
      invariant forall k | 0 <= k < |steps| :: WindowedAsNeeded(t, s, n, r, separate, steps[k])
    {
      if separate {
        EndMaskIsExact(t, s, swapAB, n, m);
      } else {
        WindowMaskIsExact(t, s, swapAB, Kind(true, t.causal, t.local), m, n);
      }
      steps := steps + [Step(m, Kind(true, t.causal && !separate, t.local && !separate))];
      m := m + 1;
    }
    if t.local && separate {
      while m < r.max
        invariant r.min <= m <= r.max && m >= beforeLocal && |steps| == m - r.min
        invariant forall k | 0 <= k < |steps| :: BackwardStep(t, s, swapAB, n, steps[k], r.min + k)
        invariant forall k | 0 <= k < |steps| :: WindowedAsNeeded(t, s, n, r, separate, steps[k])
      {
        WindowMaskIsExact(t, s, swapAB, Kind(true, false, t.local), m, n);
        steps := steps + [Step(m, Kind(true, false, t.local))];
        m := m + 1;
      }
    }
  }
}
