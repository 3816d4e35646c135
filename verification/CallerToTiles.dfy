/** From a caller's window to the scores of a tile: the host's rewriting, the visited ranges and
    the masks of the main loops together attend to exactly the pairs the caller asked for. */
module CallerToTiles {
  import opened TruncatedDivision
  import opened BlockMN
  import opened TileMask
  import W = WindowNormalization

  /** The kernel a launch picks: its blocks and packing, and the flags and window of its params. */
  function KernelTiling(p: W.Params, blockM: int, blockN: int, packGQA: bool, group: int): Tiling {
    Tiling(blockM, blockN, p.isCausal, p.isLocal, packGQA, group, p.left, p.right)
  }

  lemma AdmitsIsInWindow(p: W.Params, blockM: int, blockN: int, packGQA: bool, group: int, s: Seqlens, i: int, j: int)
    requires !(p.isCausal && p.isLocal)
    ensures InWindow(KernelTiling(p, blockM, blockN, packGQA, group), s, i, j) <==> W.KernelAdmits(p, s.q, s.k, i, j)
  {
  }

  /** The query and the key of a cell of tile (m, n). */
  function QueryAt(t: Tiling, m: nat, x: Cell): int
    requires t.Valid() && x.InTile(t)
  {
    MulMonotone(0, m, t.blockM);
    QueryOf(t, m * t.blockM + x.row0 + x.threadRow)
  }

  function KeyAt(t: Tiling, n: nat, x: Cell): int { n * t.blockN + x.col0 + x.threadCol }

  /** Some iteration handles block `block` and leaves the score of cell x of tile (m, n). */
  predicate Attends(t: Tiling, s: Seqlens, swapAB: bool, steps: seq<Step>, block: int, m: nat, n: nat, x: Cell)
    requires t.Valid()
  {
    exists k :: 0 <= k < |steps| && steps[k].block == block && !Masked(t, s, swapAB, steps[k].kind, m, n, x)
  }

  lemma CellInTile(t: Tiling, m: nat, n: nat, x: Cell)
    requires t.Valid() && x.InTile(t)
    ensures m * t.blockM + x.row0 + x.threadRow >= 0 && KeyAt(t, n, x) >= 0
    ensures RowInTile(t, m, m * t.blockM + x.row0 + x.threadRow) && KeyInTile(t, n, KeyAt(t, n, x))
  {
    MulMonotone(0, m, t.blockM);
    MulMonotone(0, n, t.blockN);
    assert (m + 1) * t.blockM == m * t.blockM + t.blockM && (n + 1) * t.blockN == n * t.blockN + t.blockN;
  }

  /** An exact mask leaves a score exactly when its pair is in the window. */
  lemma ExactLeaves(t: Tiling, s: Seqlens, swapAB: bool, kind: Kind, m: nat, n: nat, x: Cell)
    requires t.Valid() && x.InTile(t) && (swapAB ==> x.threadRow >= 0)
    requires Exact(t, s, swapAB, kind, m, n)
    ensures !Masked(t, s, swapAB, kind, m, n, x) <==>
              KeyAt(t, n, x) < s.k && InWindow(t, s, QueryAt(t, m, x), KeyAt(t, n, x))
  {
    hide Masked, QueryOf, InWindow;
  }

  lemma TouchedTileIsVisited(t: Tiling, s: Seqlens, m: nat, n: nat, x: Cell)
    requires t.Valid() && (t.local ==> t.left + t.right >= 0) && x.InTile(t)
    requires KeyAt(t, n, x) < s.k && InWindow(t, s, QueryAt(t, m, x), KeyAt(t, n, x))
    ensures NBlockRange(t, s, m).Contains(n)
  {
    hide NBlockRange, InWindow, QueryOf;
    CellInTile(t, m, n, x);
    VisitedIffTouchesWindow(t, s, m, n);
  }

  /** The iterations a query tile runs over the key blocks of r. */
  ghost predicate CoversRange(t: Tiling, s: Seqlens, m: nat, r: Range, steps: seq<Step>)
    requires t.Valid()
  {
    && |steps| == Max(0, r.max - r.min) && r.min >= 0
    && forall k | 0 <= k < |steps| :: ForwardStep(t, s, m, steps[k], r.max - 1 - k)
  }

  /** Iterations over some range leave a score exactly when its block is in the range and its
      pair in the window. */
  lemma RangeAttendsWindow(t: Tiling, s: Seqlens, m: nat, r: Range, steps: seq<Step>, n: nat, x: Cell)
    requires OneWindow(t) && x.InTile(t) && CoversRange(t, s, m, r, steps)
    ensures Attends(t, s, false, steps, n, m, n, x) <==>
              r.Contains(n) && KeyAt(t, n, x) < s.k && InWindow(t, s, QueryAt(t, m, x), KeyAt(t, n, x))
  {
    hide InWindow, QueryOf, Exact, Masked, KeyAt, QueryAt;
    if r.Contains(n) && KeyAt(t, n, x) < s.k && InWindow(t, s, QueryAt(t, m, x), KeyAt(t, n, x)) {
      var k := r.max - 1 - n;
      assert ForwardStep(t, s, m, steps[k], r.max - 1 - k);
      ExactLeaves(t, s, false, steps[k].kind, m, n, x);
    }
    if k :| 0 <= k < |steps| && steps[k].block == n && !Masked(t, s, false, steps[k].kind, m, n, x) {
      assert ForwardStep(t, s, m, steps[k], r.max - 1 - k);
      ExactLeaves(t, s, false, steps[k].kind, m, n, x);
    }
  }

  /** Forward: the iterations of a query tile leave a score exactly when its pair is in the
      window; a tile they do not visit has no such pair. */
  lemma ForwardAttendsWindow(t: Tiling, s: Seqlens, m: nat, steps: seq<Step>, n: nat, x: Cell)
    requires OneWindow(t) && (t.local ==> t.left + t.right >= 0) && x.InTile(t)
    requires CoversRange(t, s, m, NBlockRange(t, s, m), steps)
    ensures Attends(t, s, false, steps, n, m, n, x) <==>
              KeyAt(t, n, x) < s.k && InWindow(t, s, QueryAt(t, m, x), KeyAt(t, n, x))
  {
    hide NBlockRange, InWindow, QueryOf, CoversRange, Attends, KeyAt, QueryAt;
    RangeAttendsWindow(t, s, m, NBlockRange(t, s, m), steps, n, x);
    if KeyAt(t, n, x) < s.k && InWindow(t, s, QueryAt(t, m, x), KeyAt(t, n, x)) {
      TouchedTileIsVisited(t, s, m, n, x);
    }
  }

  lemma QueryTileExists(t: Tiling, s: Seqlens, m: nat, x: Cell)
    requires t.Valid() && !t.packGQA && x.InTile(t) && QueryAt(t, m, x) < s.q
    ensures m < CeilDiv(s.q, t.blockM)
  {
    BelowCeilDiv(m, s.q, t.blockM);
  }

  /** Backward: the same for the iterations of a key tile and the queries that exist. */
  lemma BackwardAttendsWindow(t: Tiling, s: Seqlens, swapAB: bool, n: nat, steps: seq<Step>, m: nat, x: Cell)
    requires OneWindow(t) && !t.packGQA
    requires (t.local ==> t.left + t.right >= 0) && (t.causal && !t.local ==> t.right == 0)
    requires x.InTile(t) && (swapAB ==> x.threadRow >= 0) && QueryAt(t, m, x) < s.q && n < CeilDiv(s.k, t.blockN)
    requires var r := MBlockRange(t, s, n);
             && |steps| == Max(0, r.max - r.min) && r.min >= 0
             && forall k | 0 <= k < |steps| :: BackwardStep(t, s, swapAB, n, steps[k], r.min + k)
    ensures Attends(t, s, swapAB, steps, m, m, n, x) <==>
              KeyAt(t, n, x) < s.k && InWindow(t, s, QueryAt(t, m, x), KeyAt(t, n, x))
  {
    hide MBlockRange, NBlockRange, InWindow, QueryOf, Exact, Masked, KeyAt, CeilDiv;
    var r := MBlockRange(t, s, n);
    if KeyAt(t, n, x) < s.k && InWindow(t, s, QueryAt(t, m, x), KeyAt(t, n, x)) {
      TouchedTileIsVisited(t, s, m, n, x);
      QueryTileExists(t, s, m, x);
      ForwardBackwardDual(t, s, m, n);
      var k := m - r.min;
      assert BackwardStep(t, s, swapAB, n, steps[k], r.min + k);
      ExactLeaves(t, s, swapAB, steps[k].kind, m, n, x);
    }
    if k :| 0 <= k < |steps| && steps[k].block == m && !Masked(t, s, swapAB, steps[k].kind, m, n, x) {
      assert BackwardStep(t, s, swapAB, n, steps[k], r.min + k);
      ExactLeaves(t, s, swapAB, steps[k].kind, m, n, x);
    }
  }

  lemma PairInMatrix(t: Tiling, m: nat, n: nat, x: Cell)
    requires t.Valid() && x.InTile(t)
    ensures QueryAt(t, m, x) >= 0 && KeyAt(t, n, x) >= 0
  {
    CellInTile(t, m, n, x);
    if t.packGQA { QuotientAtLeast(m * t.blockM + x.row0 + x.threadRow, t.group, 0); }
  }

  lemma RangeIsInside(t: Tiling, s: Seqlens, m: nat)
    requires t.Valid()
    ensures var r := NBlockRange(t, s, m); 0 <= r.min && r.max <= CeilDiv(s.k, t.blockN)
  {
    hide DivT, CeilDiv;
  }

  /** Forward, from the caller's settings to the scores: for every sequence within the maxima,
      the iterations of query tile m attend to a pair of the matrix exactly when the caller's
      settings admit it. */
  method ForwardForCaller(w: W.Settings, maxQ: int, maxK: int, keepCausal: bool, blockM: int, blockN: int,
                          packGQA: bool, group: int, s: Seqlens, m: nat)
    returns (t: Tiling, steps: seq<Step>)
    requires blockM > 0 && blockN > 0 && group > 0 && 1 <= s.q <= maxQ && 1 <= s.k <= maxK
    ensures t.Valid() && t.blockM == blockM && t.blockN == blockN && t.packGQA == packGQA && t.group == group
    ensures forall n: nat, x: Cell | x.InTile(t) && QueryAt(t, m, x) < s.q && KeyAt(t, n, x) < s.k ::
              Attends(t, s, false, steps, n, m, n, x)
              <==> W.CallerAdmits(w, s.q, s.k, QueryAt(t, m, x), KeyAt(t, n, x))
  {
    hide NBlockRange, InWindow, QueryOf, ForwardStep, W.CallerAdmits, W.KernelAdmits, Attends;
    var p := W.ForwardParams(w, maxQ, maxK, keepCausal);
    t := KernelTiling(p, blockM, blockN, packGQA, group);
    var r := NBlockRange(t, s, m);
    RangeIsInside(t, s, m);
    steps := ForwardMasks(t, s, m, r);
    forall n: nat, x: Cell | x.InTile(t) && QueryAt(t, m, x) < s.q && KeyAt(t, n, x) < s.k
      ensures Attends(t, s, false, steps, n, m, n, x)
              <==> W.CallerAdmits(w, s.q, s.k, QueryAt(t, m, x), KeyAt(t, n, x))
    {
      ForwardAttendsWindow(t, s, m, steps, n, x);
      PairInMatrix(t, m, n, x);
      AdmitsIsInWindow(p, blockM, blockN, packGQA, group, s, QueryAt(t, m, x), KeyAt(t, n, x));
    }
  }

  lemma MinIsNonNegative(t: Tiling, s: Seqlens, n: nat)
    requires t.Valid()
    ensures MBlockRange(t, s, n).min >= 0
  {
    hide DivT, CeilDiv;
  }

  /** Split q of the numSplits launched, of which the packed count may leave some without keys. */
  function PartOf(t: Tiling, s: Seqlens, m: nat, dynamic: nat, numSplits: int, q: nat): Range
    requires t.Valid() && numSplits > 0 && dynamic < 0x1_0000 && q < 0x1_0000
  {
    NBlockRangeOfSplit(t, s, m, PackSplit(dynamic, q), numSplits)
  }

  /** Split q attends to the pairs of the window that lie in its own blocks. */
  lemma SplitAttends(t: Tiling, s: Seqlens, m: nat, dynamic: nat, numSplits: nat, q: nat, steps: seq<Step>,
                     n: nat, x: Cell)
    requires OneWindow(t) && (t.local ==> t.left + t.right >= 0) && x.InTile(t)
    requires numSplits > 0 && dynamic < 0x1_0000 && q < 0x1_0000
    requires CoversRange(t, s, m, PartOf(t, s, m, dynamic, numSplits, q), steps)
    ensures var r := NBlockRange(t, s, m);
            var pair := KeyAt(t, n, x) < s.k && InWindow(t, s, QueryAt(t, m, x), KeyAt(t, n, x));
            && (pair ==> r.Contains(n))
            && (Attends(t, s, false, steps, n, m, n, x) <==>
                  pair && r.Contains(n) && q == SplitOf(r, if dynamic > 0 then dynamic else numSplits, n))
  {
    hide NBlockRange, InWindow, QueryOf, CoversRange, Attends, KeyAt, QueryAt, NBlockRangeOfSplit, SplitOf;
    RangeAttendsWindow(t, s, m, PartOf(t, s, m, dynamic, numSplits, q), steps, n, x);
    PackedSplitsPartition(t, s, m, dynamic, numSplits, n);
    if KeyAt(t, n, x) < s.k && InWindow(t, s, QueryAt(t, m, x), KeyAt(t, n, x)) {
      TouchedTileIsVisited(t, s, m, n, x);
    }
  }

  lemma PartIsInside(t: Tiling, s: Seqlens, m: nat, dynamic: nat, numSplits: nat, q: nat)
    requires t.Valid() && numSplits > 0 && dynamic < 0x1_0000 && q < 0x1_0000
    ensures var r := PartOf(t, s, m, dynamic, numSplits, q); 0 <= r.min && r.max <= CeilDiv(s.k, t.blockN)
  {
    hide NBlockRangeOfSplit, CeilDiv;
    SplitRangeIsInside(t, s, m, PackSplit(dynamic, q), numSplits);
  }

  /** Over all splits, one attends to a pair of the window and none to any other pair. */
  lemma OneSplitAttends(t: Tiling, s: Seqlens, m: nat, dynamic: nat, numSplits: nat, parts: seq<seq<Step>>,
                        n: nat, x: Cell)
    requires OneWindow(t) && (t.local ==> t.left + t.right >= 0) && x.InTile(t)
    requires 0 < numSplits == |parts| < 0x1_0000 && dynamic <= numSplits
    requires forall q | 0 <= q < |parts| :: CoversRange(t, s, m, PartOf(t, s, m, dynamic, numSplits, q), parts[q])
    ensures (exists q :: 0 <= q < |parts| && Attends(t, s, false, parts[q], n, m, n, x))
            <==> KeyAt(t, n, x) < s.k && InWindow(t, s, QueryAt(t, m, x), KeyAt(t, n, x))
    ensures forall q, q' | 0 <= q < q' < |parts| ::
              !(Attends(t, s, false, parts[q], n, m, n, x) && Attends(t, s, false, parts[q'], n, m, n, x))
  {
    hide NBlockRange, InWindow, QueryOf, CoversRange, Attends, KeyAt, QueryAt, PartOf, SplitOf;
    var r, count := NBlockRange(t, s, m), if dynamic > 0 then dynamic else numSplits;
    forall q | 0 <= q < |parts|
      ensures KeyAt(t, n, x) < s.k && InWindow(t, s, QueryAt(t, m, x), KeyAt(t, n, x)) ==> r.Contains(n)
      ensures Attends(t, s, false, parts[q], n, m, n, x) <==>
                && KeyAt(t, n, x) < s.k && InWindow(t, s, QueryAt(t, m, x), KeyAt(t, n, x))
                && r.Contains(n) && q == SplitOf(r, count, n)
    {
      SplitAttends(t, s, m, dynamic, numSplits, q, parts[q], n, x);
    }
    SplitsPartition(r, count, n);
    if KeyAt(t, n, x) < s.k && InWindow(t, s, QueryAt(t, m, x), KeyAt(t, n, x)) {
      assert Attends(t, s, false, parts[0], n, m, n, x) || r.Contains(n);
      assert Attends(t, s, false, parts[SplitOf(r, count, n)], n, m, n, x);
    }
  }

  /** A split launch: some split's iterations attend to a pair exactly when the caller's settings
      admit it, and no two splits attend to the same pair. */
  method ForwardSplitsForCaller(w: W.Settings, maxQ: int, maxK: int, keepCausal: bool, blockM: int, blockN: int,
                                packGQA: bool, group: int, s: Seqlens, m: nat, dynamic: nat, numSplits: nat)
    returns (t: Tiling, parts: seq<seq<Step>>)
    requires blockM > 0 && blockN > 0 && group > 0 && 1 <= s.q <= maxQ && 1 <= s.k <= maxK
    requires 0 < numSplits < 0x1_0000 && dynamic <= numSplits
    ensures t.Valid() && t.blockM == blockM && t.blockN == blockN && t.packGQA == packGQA && t.group == group
    ensures |parts| == numSplits
    ensures forall n: nat, x: Cell | x.InTile(t) && QueryAt(t, m, x) < s.q && KeyAt(t, n, x) < s.k ::
              (exists q :: 0 <= q < |parts| && Attends(t, s, false, parts[q], n, m, n, x))
              <==> W.CallerAdmits(w, s.q, s.k, QueryAt(t, m, x), KeyAt(t, n, x))
    ensures forall n: nat, x: Cell, q, q' | x.InTile(t) && 0 <= q < q' < |parts| ::
              !(Attends(t, s, false, parts[q], n, m, n, x) && Attends(t, s, false, parts[q'], n, m, n, x))
  {
    hide PartOf, InWindow, QueryOf, QueryAt, KeyAt, ForwardStep, W.CallerAdmits, W.KernelAdmits, Attends;
    var p := W.ForwardParams(w, maxQ, maxK, keepCausal);
    t := KernelTiling(p, blockM, blockN, packGQA, group);
    parts := [];
    while |parts| < numSplits
      invariant |parts| <= numSplits
      invariant forall q | 0 <= q < |parts| ::
                  CoversRange(t, s, m, PartOf(t, s, m, dynamic, numSplits, q), parts[q])
    {
      PartIsInside(t, s, m, dynamic, numSplits, |parts|);
      var steps := ForwardMasks(t, s, m, PartOf(t, s, m, dynamic, numSplits, |parts|));
      parts := parts + [steps];
    }
    forall n: nat, x: Cell | x.InTile(t) && QueryAt(t, m, x) < s.q && KeyAt(t, n, x) < s.k
      ensures (exists q :: 0 <= q < |parts| && Attends(t, s, false, parts[q], n, m, n, x))
              <==> W.CallerAdmits(w, s.q, s.k, QueryAt(t, m, x), KeyAt(t, n, x))
    {
      OneSplitAttends(t, s, m, dynamic, numSplits, parts, n, x);
      PairInMatrix(t, m, n, x);
      AdmitsIsInWindow(p, blockM, blockN, packGQA, group, s, QueryAt(t, m, x), KeyAt(t, n, x));
    }
    forall n: nat, x: Cell, q, q' | x.InTile(t) && 0 <= q < q' < |parts|
      ensures !(Attends(t, s, false, parts[q], n, m, n, x) && Attends(t, s, false, parts[q'], n, m, n, x))
    {
      OneSplitAttends(t, s, m, dynamic, numSplits, parts, n, x);
    }
  }

  /** Backward, from the caller's settings to the scores of a key tile. */
  method BackwardForCaller(w: W.Settings, maxQ: int, maxK: int, blockM: int, blockN: int, swapAB: bool, separate: bool,
                           s: Seqlens, n: nat)
    returns (t: Tiling, steps: seq<Step>)
    requires blockM > 0 && blockN > 0 && 1 <= s.q <= maxQ && 1 <= s.k <= maxK && n < CeilDiv(s.k, blockN)
    ensures t.Valid() && t.blockM == blockM && t.blockN == blockN && !t.packGQA
    ensures forall m: nat, x: Cell | x.InTile(t) && (swapAB ==> x.threadRow >= 0)
                                     && QueryAt(t, m, x) < s.q && KeyAt(t, n, x) < s.k ::
              Attends(t, s, swapAB, steps, m, m, n, x)
              <==> W.CallerAdmits(w, s.q, s.k, QueryAt(t, m, x), KeyAt(t, n, x))
  {
    hide MBlockRange, InWindow, QueryOf, BackwardStep, W.CallerAdmits, W.KernelAdmits, Attends;
    var p := W.BackwardParams(w, maxQ, maxK);
    t := KernelTiling(p, blockM, blockN, false, 1);
    var r := MBlockRange(t, s, n);
    MinIsNonNegative(t, s, n);
    steps := BackwardMasks(t, s, swapAB, n, r, separate);
    forall m: nat, x: Cell | x.InTile(t) && (swapAB ==> x.threadRow >= 0)
                             && QueryAt(t, m, x) < s.q && KeyAt(t, n, x) < s.k
      ensures Attends(t, s, swapAB, steps, m, m, n, x)
              <==> W.CallerAdmits(w, s.q, s.k, QueryAt(t, m, x), KeyAt(t, n, x))
    {
      BackwardAttendsWindow(t, s, swapAB, n, steps, m, x);
      PairInMatrix(t, m, n, x);
      AdmitsIsInWindow(p, blockM, blockN, false, 1, s, QueryAt(t, m, x), KeyAt(t, n, x));
    }
  }
}
