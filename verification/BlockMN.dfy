/** Which key blocks a query block visits, which of them need no mask, how splits divide
    them, which appended keys a split stores, and which query blocks a key block visits in
    the backward pass.  `hopper/block.h` with attention_chunk = 0 and sink_token_length = 0. */
module BlockMN {
  import opened TruncatedDivision

  /** The lengths `SeqlenInfo_t` reports for one batch entry. */
  datatype Seqlens = Seqlens(q: nat, k: nat, kOg: nat, kNew: nat)

  /** Template parameters, the window, and `qhead_per_khead` (the divisor of FastDivmod). */
  datatype Tiling = Tiling(blockM: int, blockN: int, causal: bool, local: bool,
                           packGQA: bool, group: int, left: int, right: int) {
    predicate Valid() { blockM > 0 && blockN > 0 && group > 0 }
  }

  datatype Range = Range(min: int, max: int) {
    predicate Contains(n: int) { min <= n < max }
  }

  // ---------------------------------------------------------------- the source's functions

  /** First query of row tile m, and one past its last query. */
  function QueryMin(t: Tiling, m: nat): int
    requires t.Valid()
  {
    if t.packGQA then DivT(m * t.blockM, t.group) else m * t.blockM
  }

  function QueryMax(t: Tiling, m: nat): int
    requires t.Valid()
  {
    if t.packGQA then DivT((m + 1) * t.blockM - 1, t.group) + 1 else (m + 1) * t.blockM
  }

  function NBlockRange(t: Tiling, s: Seqlens, m: nat): Range
    requires t.Valid()
  {
    var all := CeilDiv(s.k, t.blockN);
    var max :=
      if t.causal || t.local then
        var nIdx := QueryMax(t, m) + s.k - s.q;
        var nIdxRight := if t.local then nIdx + t.right else nIdx;
        Min(all, CeilDiv(nIdxRight, t.blockN))
      else all;
    var min :=
      if t.local then
        Max(0, DivT(QueryMin(t, m) + s.k - s.q - t.left, t.blockN))
      else 0;
    Range(min, max)
  }

  /** The two 16-bit fields of the packed split index, a 32-bit word. */
  function UnpackSplit(word: int): (r: (int, int))
    requires -0x8000_0000 <= word < 0x8000_0000
    ensures 0 <= r.0 < 0x1_0000 && 0 <= r.1 < 0x1_0000
    ensures r.0 * 0x1_0000 + r.1 == if word < 0 then word + 0x1_0000_0000 else word
  {
    var u := if word < 0 then word + 0x1_0000_0000 else word;
    (u / 0x1_0000, u % 0x1_0000)
  }

  function SplitPart(r: Range, split: nat, numSplits: int): Range
    requires numSplits > 0
  {
    var per := if r.max <= r.min then 0 else CeilDiv(r.max - r.min, numSplits);
    var min := r.min + split * per;
    Range(min, Min(min + per, r.max))
  }

  function NBlockRangeOfSplit(t: Tiling, s: Seqlens, m: nat, word: int, numSplits: int): Range
    requires t.Valid() && numSplits > 0 && -0x8000_0000 <= word < 0x8000_0000
  {
    var (dynamic, split) := UnpackSplit(word);
    SplitPart(NBlockRange(t, s, m), split, if dynamic > 0 then dynamic else numSplits)
  }

  /** Blocks of the appended keys that hold rows of the key blocks in `r`. */
  function NewKeyBlockRange(t: Tiling, s: Seqlens, r: Range): Range
    requires t.Valid()
  {
    var idxMin := Max(r.min * t.blockN - s.kOg, 0);
    var idxMax := Min(r.max * t.blockN - s.kOg, s.kNew);
    var newMin := DivT(idxMin, t.blockN);
    Range(newMin, if idxMax > idxMin then CeilDiv(idxMax, t.blockN) else newMin)
  }

  /** The query blocks a key block visits in the backward pass (rows are never packed there). */
  function MBlockRange(t: Tiling, s: Seqlens, n: nat): Range
    requires t.Valid()
  {
    var all := CeilDiv(s.q, t.blockM);
    var max :=
      if t.local && n >= CeilDiv(0, t.blockN) then
        Min(all, CeilDiv((n + 1) * t.blockN + s.q - s.k + t.left, t.blockM))
      else all;
    var min :=
      if t.causal || t.local then
        Max(0, DivT(n * t.blockN + s.q - s.k - t.right, t.blockM))
      else 0;
    Range(min, max)
  }

  function MinBlockWithRightMask(t: Tiling, s: Seqlens, m: nat, nMin: int): int
    requires t.Valid()
  {
    var nIdx := QueryMin(t, m) + s.k - s.q;
    Max(nMin, DivT(if t.local then nIdx + t.right else nIdx, t.blockN))
  }

  function MinBlockBeforeLeftMask(t: Tiling, s: Seqlens, m: nat, nMin: int): int
    requires t.Valid()
  {
    var nIdx := QueryMax(t, m) + s.k - s.q;
    if t.local then Max(nMin, CeilDiv(nIdx - t.left, t.blockN)) else nMin
  }

  // ---------------------------------------------------------------- the intended mask

  /** The query a (possibly packed) row belongs to. */
  function QueryOf(t: Tiling, row: nat): int
    requires t.Valid()
  {
    if t.packGQA then row / t.group else row
  }

  predicate RowInTile(t: Tiling, m: nat, row: int) { m * t.blockM <= row < (m + 1) * t.blockM }

  predicate KeyInTile(t: Tiling, n: nat, key: int) { n * t.blockN <= key < (n + 1) * t.blockN }

  /** Query i sees key j: the window is aligned to the bottom right corner. */
  predicate InWindow(t: Tiling, s: Seqlens, i: int, j: int) {
    && (t.causal || t.local ==> j <= i + s.k - s.q + (if t.local then t.right else 0))
    && (t.local ==> i + s.k - s.q - t.left <= j)
  }

  /** Tile (m, n), not clipped to the lengths, holds a pair of the window. */
  ghost predicate TouchesWindow(t: Tiling, s: Seqlens, m: nat, n: nat)
    requires t.Valid()
  {
    exists row: nat, key: int ::
      RowInTile(t, m, row) && KeyInTile(t, n, key) && InWindow(t, s, QueryOf(t, row), key)
  }

  // ---------------------------------------------------------------- rows and queries

  /** The queries of a row tile are exactly those from QueryMin up to QueryMax. */
  lemma TileQueries(t: Tiling, m: nat, row: nat)
    requires t.Valid() && RowInTile(t, m, row)
    ensures QueryMin(t, m) <= QueryOf(t, row) < QueryMax(t, m)
  {
    if t.packGQA {
      var first, last := m * t.blockM, (m + 1) * t.blockM - 1;
      FloorBounds(first, t.group);
      FloorBounds(row, t.group);
      QuotientAtLeast(row, t.group, first / t.group);
      QuotientAtLeast(last, t.group, row / t.group);
    }
  }

  lemma RowForQuery(t: Tiling, m: nat, i: int) returns (row: nat)
    requires t.Valid() && QueryMin(t, m) <= i < QueryMax(t, m)
    ensures RowInTile(t, m, row) && QueryOf(t, row) == i
  {
    if t.packGQA {
      var first, last := m * t.blockM, (m + 1) * t.blockM - 1;
      assert last == first + t.blockM - 1;
      MulMonotone(0, m, t.blockM);
      QuotientAtLeast(first, t.group, i + 1);
      QuotientAtLeast(last, t.group, i);
      row := Max(first, i * t.group);
      QuotientAtLeast(first, t.group, 0);
      MulMonotone(0, i, t.group);
      assert i * t.group <= row < (i + 1) * t.group by {
        assert (i + 1) * t.group == i * t.group + t.group;
        FloorBounds(first, t.group);
        MulMonotone(first / t.group + 1, i + 1, t.group);
      }
      QuotientUnique(row, t.group, i);
    } else {
      row := i;
    }
  }

  // ---------------------------------------------------------------- visited blocks

  /** The interval form of the forward range. */
  lemma NBlockRangeBounds(t: Tiling, s: Seqlens, m: nat, n: nat)
    requires t.Valid()
    ensures NBlockRange(t, s, m).Contains(n) <==>
            && n * t.blockN < s.k
            && (t.causal || t.local ==>
                  n * t.blockN < QueryMax(t, m) + s.k - s.q + (if t.local then t.right else 0))
            && (t.local ==> QueryMin(t, m) + s.k - s.q - t.left < (n + 1) * t.blockN)
  {
    BelowCeilDiv(n, s.k, t.blockN);
    BelowCeilDiv(n, QueryMax(t, m) + s.k - s.q + (if t.local then t.right else 0), t.blockN);
    AtLeastDivT(n, QueryMin(t, m) + s.k - s.q - t.left, t.blockN);
  }

  /** The interval form of the backward range. */
  lemma MBlockRangeBounds(t: Tiling, s: Seqlens, m: nat, n: nat)
    requires t.Valid()
    ensures MBlockRange(t, s, n).Contains(m) <==>
            && m * t.blockM < s.q
            && (t.local ==> m * t.blockM < (n + 1) * t.blockN + s.q - s.k + t.left)
            && (t.causal || t.local ==> n * t.blockN + s.q - s.k - t.right < (m + 1) * t.blockM)
  {
    BelowCeilDiv(m, s.q, t.blockM);
    BelowCeilDiv(m, (n + 1) * t.blockN + s.q - s.k + t.left, t.blockM);
    AtLeastDivT(m, n * t.blockN + s.q - s.k - t.right, t.blockM);
    BelowCeilDiv(0, 0, t.blockN);
  }

  /** Two intervals whose corners reach into a diagonal band contain a pair of the band. */
  lemma PairInBand(t: Tiling, off: int, iMin: int, iMax: int, keyMin: int, keyMax: int) returns (i: int, key: int)
    requires iMin < iMax && keyMin < keyMax && (t.local ==> t.left + t.right >= 0)
    requires t.causal || t.local ==> keyMin < iMax + off + (if t.local then t.right else 0)
    requires t.local ==> iMin + off - t.left < keyMax
    ensures iMin <= i < iMax && keyMin <= key < keyMax
    ensures t.causal || t.local ==> key <= i + off + (if t.local then t.right else 0)
    ensures t.local ==> i + off - t.left <= key
  {
    key := if t.local then Max(keyMin, iMin + off - t.left) else keyMin;
    i := if t.local then Max(iMin, key - off - t.right)
         else if t.causal then Max(iMin, key - off) else iMin;
  }

  lemma QueriesNonEmpty(t: Tiling, m: nat)
    requires t.Valid()
    ensures 0 <= QueryMin(t, m) < QueryMax(t, m)
  {
    assert (m + 1) * t.blockM == m * t.blockM + t.blockM;
    TileQueries(t, m, m * t.blockM);
    if t.packGQA { FloorBounds(m * t.blockM, t.group); }
  }

  lemma PairInVisitedTile(t: Tiling, s: Seqlens, m: nat, n: nat)
    requires t.Valid() && (t.local ==> t.left + t.right >= 0)
    requires NBlockRange(t, s, m).Contains(n)
    ensures TouchesWindow(t, s, m, n)
  {
    NBlockRangeBounds(t, s, m, n);
    QueriesNonEmpty(t, m);
    var keyMin, keyMax := n * t.blockN, (n + 1) * t.blockN;
    assert keyMax == keyMin + t.blockN;
    var i, key := PairInBand(t, s.k - s.q, QueryMin(t, m), QueryMax(t, m), keyMin, keyMax);
    var row := RowForQuery(t, m, i);
    assert RowInTile(t, m, row) && KeyInTile(t, n, key) && InWindow(t, s, QueryOf(t, row), key);
  }

  /** A key block is visited exactly when it starts before the last key and its tile holds
      a pair of the window: nothing visible is missed and no useless tile is visited, although
      the quotients truncate toward zero on negative dividends. */
  lemma VisitedIffTouchesWindow(t: Tiling, s: Seqlens, m: nat, n: nat)
    requires t.Valid() && (t.local ==> t.left + t.right >= 0)
    ensures NBlockRange(t, s, m).Contains(n) <==> n * t.blockN < s.k && TouchesWindow(t, s, m, n)
  {
    NBlockRangeBounds(t, s, m, n);
    assert (n + 1) * t.blockN == n * t.blockN + t.blockN;
    if TouchesWindow(t, s, m, n) {
      var row: nat, key: int :|
        RowInTile(t, m, row) && KeyInTile(t, n, key) && InWindow(t, s, QueryOf(t, row), key);
      TileQueries(t, m, row);
    }
    if NBlockRange(t, s, m).Contains(n) {
      PairInVisitedTile(t, s, m, n);
    }
  }

  /** The guarantee the masks rely on: every pair the mask keeps lies in a visited tile. */
  lemma VisiblePairIsVisited(t: Tiling, s: Seqlens, row: nat, key: nat)
    requires t.Valid() && (t.local ==> t.left + t.right >= 0)
    requires key < s.k && InWindow(t, s, QueryOf(t, row), key)
    ensures NBlockRange(t, s, row / t.blockM).Contains(key / t.blockN)
  {
    FloorBounds(row, t.blockM);
    FloorBounds(key, t.blockN);
    QuotientAtLeast(row, t.blockM, 0);
    QuotientAtLeast(key, t.blockN, 0);
    assert RowInTile(t, row / t.blockM, row) && KeyInTile(t, key / t.blockN, key);
    VisitedIffTouchesWindow(t, s, row / t.blockM, key / t.blockN);
  }

  /** Forward and backward visit the same tiles.  For a purely causal kernel the backward
      formula still reads window_size_right, which the host sets to 0. */
  lemma ForwardBackwardDual(t: Tiling, s: Seqlens, m: nat, n: nat)
    requires t.Valid() && !t.packGQA && (t.causal && !t.local ==> t.right == 0)
    requires m < CeilDiv(s.q, t.blockM) && n < CeilDiv(s.k, t.blockN)
    ensures NBlockRange(t, s, m).Contains(n) <==> MBlockRange(t, s, n).Contains(m)
  {
    hide NBlockRange, MBlockRange, DivT, CeilDiv;
    NBlockRangeBounds(t, s, m, n);
    MBlockRangeBounds(t, s, m, n);
    BelowCeilDiv(n, s.k, t.blockN);
    BelowCeilDiv(m, s.q, t.blockM);
  }

  // ---------------------------------------------------------------- mask-free middle

  /** Both bounds are conservative by exactly one column: a block lies below the right bound
      iff it and the next column are inside every row's right limit, and at or above the left
      bound iff the column before it is already inside every row's left limit. */
  lemma MaskFreeSlack(t: Tiling, s: Seqlens, m: nat, n: nat, nMin: nat)
    requires t.Valid() && nMin <= n
    ensures n < MinBlockWithRightMask(t, s, m, nMin) <==>
            (n + 1) * t.blockN <= QueryMin(t, m) + s.k - s.q + (if t.local then t.right else 0)
    ensures t.local ==>
              (n >= MinBlockBeforeLeftMask(t, s, m, nMin) <==>
               n * t.blockN - 1 >= (QueryMax(t, m) - 1) + s.k - s.q - t.left)
  {
    BelowDivT(n, QueryMin(t, m) + s.k - s.q + (if t.local then t.right else 0), t.blockN);
    BelowCeilDiv(n, QueryMax(t, m) + s.k - s.q - t.left, t.blockN);
  }

  /** Blocks between the two bounds need no window mask: every row of the tile sees every
      key of the block, also when rows pack several heads of one query. */
  lemma MaskFreeMiddle(t: Tiling, s: Seqlens, m: nat, n: nat, nMin: nat, row: nat, key: int)
    requires t.Valid() && (t.causal || t.local)
    requires nMin <= n && MinBlockBeforeLeftMask(t, s, m, nMin) <= n < MinBlockWithRightMask(t, s, m, nMin)
    requires RowInTile(t, m, row) && KeyInTile(t, n, key)
    ensures InWindow(t, s, QueryOf(t, row), key)
  {
    MaskFreeSlack(t, s, m, n, nMin);
    TileQueries(t, m, row);
  }

  // ---------------------------------------------------------------- splits

  lemma SplitPartBounds(r: Range, split: nat, numSplits: int, n: int)
    requires numSplits > 0
    ensures SplitPart(r, split, numSplits).Contains(n) ==> r.Contains(n)
  {
    if r.max > r.min { assert CeilDiv(r.max - r.min, numSplits) >= 0; }
    assert split * (if r.max <= r.min then 0 else CeilDiv(r.max - r.min, numSplits)) >= 0;
  }

  /** The split that holds block n. */
  function SplitOf(r: Range, numSplits: int, n: int): int
    requires numSplits > 0 && r.Contains(n)
  {
    var per := CeilDiv(r.max - r.min, numSplits);
    if per > 0 then (n - r.min) / per else 0
  }

  /** Splits partition the unsplit range: block n lies in a split's part iff that split is the
      one SplitOf names, and the named split is one of the numSplits launched. */
  lemma SplitsPartition(r: Range, numSplits: int, n: int)
    requires numSplits > 0
    ensures r.Contains(n) ==> 0 <= SplitOf(r, numSplits, n) < numSplits
    ensures forall split: nat ::
              SplitPart(r, split, numSplits).Contains(n) <==> r.Contains(n) && split == SplitOf(r, numSplits, n)
  {
    if r.Contains(n) {
      var len := r.max - r.min;
      var per := CeilDiv(len, numSplits);
      BelowCeilDiv(0, len, numSplits);
      FloorBounds(len + numSplits - 1, numSplits);
      assert per * numSplits + numSplits == (per + 1) * numSplits;
      var x := n - r.min;
      QuotientAtLeast(x, per, 0);
      QuotientAtLeast(x, per, numSplits);
      forall split: nat
        ensures SplitPart(r, split, numSplits).Contains(n) <==> split == x / per
      {
        if SplitPart(r, split, numSplits).Contains(n) {
          assert split * per <= x < (split + 1) * per;
          QuotientUnique(x, per, split);
        } else {
          FloorBounds(x, per);
        }
      }
    } else {
      forall split: nat ensures !SplitPart(r, split, numSplits).Contains(n) {
        SplitPartBounds(r, split, numSplits, n);
      }
    }
  }

  /** No split is longer than an even share of the range, rounded up. */
  lemma SplitsAreEven(r: Range, split: nat, numSplits: int)
    requires numSplits > 0
    ensures var size := SplitPart(r, split, numSplits).max - SplitPart(r, split, numSplits).min;
            size > 0 ==> (size - 1) * numSplits < r.max - r.min
  {
    var size, len := SplitPart(r, split, numSplits).max - SplitPart(r, split, numSplits).min, r.max - r.min;
    if size > 0 && len > 0 {
      BelowCeilDiv(size - 1, len, numSplits);
    }
  }

  /** The word that carries a split count and a split index, as a signed 32-bit integer. */
  function PackSplit(dynamic: nat, split: nat): int
    requires dynamic < 0x1_0000 && split < 0x1_0000
  {
    var u := dynamic * 0x1_0000 + split;
    if u >= 0x8000_0000 then u - 0x1_0000_0000 else u
  }

  /** The partition survives the packing of the split index, also when the count sets the sign
      bit: the packed count, when there is one, decides, and the launch-time count otherwise. */
  lemma PackedSplitsPartition(t: Tiling, s: Seqlens, m: nat, dynamic: nat, numSplits: int, n: int)
    requires t.Valid() && numSplits > 0 && dynamic < 0x1_0000
    ensures var count := if dynamic > 0 then dynamic else numSplits;
            var r := NBlockRange(t, s, m);
            forall split: nat | split < 0x1_0000 ::
              NBlockRangeOfSplit(t, s, m, PackSplit(dynamic, split), numSplits).Contains(n)
              <==> r.Contains(n) && split == SplitOf(r, count, n)
  {
    hide NBlockRange, SplitPart, SplitOf;
    SplitsPartition(NBlockRange(t, s, m), if dynamic > 0 then dynamic else numSplits, n);
    forall split: nat | split < 0x1_0000
      ensures UnpackSplit(PackSplit(dynamic, split)) == (dynamic, split)
    {
    }
  }

  /** A block of appended keys is stored by a split exactly when it holds an appended row
      whose absolute position lies in one of the split's key blocks. */
  lemma NewKeysCoverSplit(t: Tiling, s: Seqlens, r: Range, b: nat)
    requires t.Valid() && r.min >= 0
    ensures NewKeyBlockRange(t, s, r).Contains(b) <==>
            exists row :: && 0 <= row < s.kNew && KeyInTile(t, b, row)
                          && r.min * t.blockN <= s.kOg + row < r.max * t.blockN
  {
    var idxMin := Max(r.min * t.blockN - s.kOg, 0);
    var idxMax := Min(r.max * t.blockN - s.kOg, s.kNew);
    AtLeastDivT(b, idxMin, t.blockN);
    BelowCeilDiv(b, idxMax, t.blockN);
    assert (b + 1) * t.blockN == b * t.blockN + t.blockN;
    if NewKeyBlockRange(t, s, r).Contains(b) {
      var row := Max(idxMin, b * t.blockN);
      assert 0 <= row < s.kNew && KeyInTile(t, b, row);
    }
    if row :| && 0 <= row < s.kNew && KeyInTile(t, b, row)
              && r.min * t.blockN <= s.kOg + row < r.max * t.blockN {
      assert idxMin <= row < idxMax;
    }
  }
}
