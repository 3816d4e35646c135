/** How the forward epilogue packs the query heads that share a key/value head into the rows of
    one tensor, and how it clears the log-sum-exp of the tiles that have no work:
    `to_underlying_arguments` and `store_zero` in `hopper/epilogue_fwd.hpp`. */
module PackGqaLayout {
  import opened TruncatedDivision

  datatype Shape = Shape(packGQA: bool, heads: nat, headsKv: nat, blockM: nat) {
    /** The host checks that headsKv divides heads. */
    predicate Valid() { heads > 0 && headsKv > 0 && heads % headsKv == 0 && blockM > 0 }

    /** qhead_per_khead */
    function Group(): (q: int)
      requires Valid()
      ensures q > 0
    {
      QuotientAtLeast(heads + headsKv - 1, headsKv, 1);
      if packGQA then CeilDiv(heads, headsKv) else 1
    }

    /** Heads of the launch grid and of the packed tensor. */
    function GridHeads(): nat { if packGQA then headsKv else heads }
  }

  /** Element strides of O and LSE; LSE has no column. */
  datatype Strides = Strides(row: int, col: int, head: int, batch: int, split: int)

  /** The element of query `query` and head `head`, from the start of the sequence. */
  function Address(s: Strides, query: int, col: int, head: int, batch: int, split: int): int {
    query * s.row + col * s.col + head * s.head + batch * s.batch + split * s.split
  }

  /** The same tensor with the packed shape ((group, seqlen), col, headsKv, batch, split). */
  function PackedAddress(sh: Shape, s: Strides, h: int, m: int, col: int, hk: int, batch: int, split: int): int
    requires sh.Valid()
  {
    (h * s.head + m * s.row) + col * s.col + hk * (s.head * sh.Group()) + batch * s.batch + split * s.split
  }

  /** Head and query of packed row r of key/value head hk, and back. */
  function HeadOf(q: int, hk: int, r: int): int
    requires q > 0
  {
    hk * q + r % q
  }

  function QueryOf(q: int, r: int): int
    requires q > 0
  {
    r / q
  }

  function RowOf(q: int, head: int, query: int): int
    requires q > 0
  {
    query * q + head % q
  }

  // ---------------------------------------------------------------- the layout is a bijection

  lemma Factor(a: int, q: int, b: int, c: int)
    ensures a * (c * q) + b * c == (a * q + b) * c
  {
    assert a * (c * q) == a * q * c;
  }

  /** Packed row r of key/value head hk addresses query r / q of head hk * q + r % q. */
  lemma PackedRowIsQuery(sh: Shape, s: Strides, r: int, col: int, hk: int, batch: int, split: int)
    requires sh.Valid()
    ensures var q := sh.Group();
            PackedAddress(sh, s, r % q, r / q, col, hk, batch, split)
            == Address(s, QueryOf(q, r), col, HeadOf(q, hk, r), batch, split)
  {
    var q := sh.Group();
    Factor(hk, q, r % q, s.head);
  }

  /** Every head belongs to exactly one key/value head. */
  lemma GroupsCoverHeads(sh: Shape)
    requires sh.Valid()
    ensures sh.GridHeads() * sh.Group() == sh.heads
  {
    if sh.packGQA {
      var d := sh.heads / sh.headsKv;
      assert sh.heads == d * sh.headsKv;
      assert (d + 1) * sh.headsKv == sh.heads + sh.headsKv;
      QuotientUnique(sh.heads + sh.headsKv - 1, sh.headsKv, d);
    }
  }

  /** Packed rows to (head, query) pairs and back. */
  lemma RowRoundTrip(q: int, hk: int, r: int)
    requires q > 0
    ensures HeadOf(q, hk, r) / q == hk && RowOf(q, HeadOf(q, hk, r), QueryOf(q, r)) == r
  {
    QuotientFrom(hk * q + r % q, q, hk, hk * q);
  }

  lemma QueryRoundTrip(q: int, head: int, query: int)
    requires q > 0
    ensures HeadOf(q, head / q, RowOf(q, head, query)) == head && QueryOf(q, RowOf(q, head, query)) == query
  {
    QuotientFrom(query * q + head % q, q, query, query * q);
    assert head == head / q * q + head % q;
  }

  /** A packed row is below seqlen * q exactly when its query is below seqlen. */
  lemma RowBelow(q: int, r: int, seqlen: int)
    requires q > 0
    ensures r < seqlen * q <==> QueryOf(q, r) < seqlen
    ensures r >= 0 <==> QueryOf(q, r) >= 0
  {
    QuotientAtLeast(r, q, seqlen);
    QuotientAtLeast(r, q, 0);
  }

  lemma HeadInRange(q: int, hk: int, r: int, gridHeads: int)
    requires q > 0 && 0 <= hk < gridHeads
    ensures 0 <= HeadOf(q, hk, r) < gridHeads * q
  {
    MulMonotone(hk + 1, gridHeads, q);
    assert (hk + 1) * q == hk * q + q;
    MulMonotone(0, hk, q);
  }

  lemma KvHeadInRange(q: int, head: int, gridHeads: int)
    requires q > 0 && 0 <= head < gridHeads * q
    ensures 0 <= head / q < gridHeads
  {
    QuotientAtLeast(head, q, 0);
    QuotientAtLeast(head, q, gridHeads);
  }

  /** The packed rows of all key/value heads are exactly the (head, query) pairs: each pair is
      one row of one key/value head and no other. */
  lemma LayoutIsBijection(sh: Shape, seqlen: nat, head: int, query: int, hk: int, r: int)
    requires sh.Valid()
    ensures var q := sh.Group();
            (0 <= hk < sh.GridHeads() && 0 <= r < seqlen * q && head == HeadOf(q, hk, r) && query == QueryOf(q, r))
            <==> (0 <= head < sh.heads && 0 <= query < seqlen && hk == head / q && r == RowOf(q, head, query))
  {
    var q := sh.Group();
    hide HeadOf, QueryOf, RowOf;
    GroupsCoverHeads(sh);
    if 0 <= hk < sh.GridHeads() && 0 <= r < seqlen * q && head == HeadOf(q, hk, r) && query == QueryOf(q, r) {
      RowRoundTrip(q, hk, r);
      RowBelow(q, r, seqlen);
      HeadInRange(q, hk, r, sh.GridHeads());
    }
    if 0 <= head < sh.heads && 0 <= query < seqlen && hk == head / q && r == RowOf(q, head, query) {
      QueryRoundTrip(q, head, query);
      RowBelow(q, r, seqlen);
      KvHeadInRange(q, head, sh.GridHeads());
    }
  }

  // ---------------------------------------------------------------- store_zero

  /** The thread of a CTA that stores the LSE of (head, query). */
  predicate Stores(sh: Shape, seqlen: nat, m: int, hk: int, thread: int, head: int, query: int)
    requires sh.Valid()
  {
    var q, row := sh.Group(), m * sh.blockM + thread;
    0 <= thread < sh.blockM && row < seqlen * q && head == HeadOf(q, hk, row) && query == QueryOf(q, row)
  }

  lemma BlockAndThread(B: int, m: int, thread: int, row: int)
    requires B > 0
    ensures (0 <= thread < B && row == m * B + thread) <==> (m == row / B && thread == row % B)
    ensures m >= 0 && thread >= 0 ==> m * B + thread >= 0
  {
    if 0 <= thread < B && row == m * B + thread { QuotientFrom(row, B, m, m * B); }
    assert row == row / B * B + row % B;
    if m >= 0 { MulMonotone(0, m, B); }
  }

  lemma BlockInGrid(B: int, row: int, bound: int, blocks: nat)
    requires B > 0 && 0 <= row < bound && blocks >= CeilDiv(bound, B)
    ensures 0 <= row / B < blocks
  {
    QuotientAtLeast(row, B, 0);
    BelowCeilDiv(row / B, bound, B);
    FloorBounds(row, B);
  }

  /** Over all blocks of the grid every (head, query) below the sequence length is stored by
      exactly one thread of one CTA, and nothing else is stored. */
  lemma StoredExactlyOnce(sh: Shape, seqlen: nat, blocks: nat, m: int, hk: int, thread: int, head: int, query: int)
    requires sh.Valid() && blocks >= CeilDiv(seqlen * sh.Group(), sh.blockM)
    ensures var row := RowOf(sh.Group(), head, query);
            (0 <= m < blocks && 0 <= hk < sh.GridHeads() && Stores(sh, seqlen, m, hk, thread, head, query))
            <==> (0 <= head < sh.heads && 0 <= query < seqlen
                  && hk == head / sh.Group() && m == row / sh.blockM && thread == row % sh.blockM)
  {
    var q, B := sh.Group(), sh.blockM;
    var row := RowOf(q, head, query);
    hide HeadOf, QueryOf, RowOf, CeilDiv;
    LayoutIsBijection(sh, seqlen, head, query, hk, m * B + thread);
    LayoutIsBijection(sh, seqlen, head, query, head / q, row);
    BlockAndThread(B, m, thread, row);
    if 0 <= row < seqlen * q { BlockInGrid(B, row, seqlen * q, blocks); }
  }

  /** The cells a packed row range of one key/value head covers. */
  predicate InRows(q: int, hk: int, lo: int, hi: int, head: int, query: int)
    requires q > 0
  {
    head / q == hk && lo <= RowOf(q, head, query) < hi
  }

  lemma CellOfRow(q: int, hk: int, r: int, head: int, query: int)
    requires q > 0
    ensures (head == HeadOf(q, hk, r) && query == QueryOf(q, r)) <==> InRows(q, hk, r, r + 1, head, query)
  {
    RowRoundTrip(q, hk, r);
    QueryRoundTrip(q, head, query);
  }

  lemma RowInside(sh: Shape, seqlen: nat, hk: nat, row: int)
    requires sh.Valid() && hk < sh.GridHeads() && 0 <= row < seqlen * sh.Group()
    ensures 0 <= HeadOf(sh.Group(), hk, row) < sh.heads && 0 <= QueryOf(sh.Group(), row) < seqlen
  {
    var q := sh.Group();
    LayoutIsBijection(sh, seqlen, HeadOf(q, hk, row), QueryOf(q, row), hk, row);
  }

  /** The cells done after one more row. */
  lemma OneMoreRow(sh: Shape, seqlen: nat, hk: nat, first: int, row: int, head: int, query: int)
    requires sh.Valid() && first <= row
    ensures var q := sh.Group();
            query < seqlen && InRows(q, hk, first, row + 1, head, query)
            <==> (query < seqlen && InRows(q, hk, first, row, head, query))
                 || (row < seqlen * q && head == HeadOf(q, hk, row) && query == QueryOf(q, row))
  {
    hide HeadOf, QueryOf, RowOf;
    CellOfRow(sh.Group(), hk, row, head, query);
    RowBelow(sh.Group(), row, seqlen);
  }

  /** One CTA: the threads of the tile, those of them that have a row. */
  method StoreZeroBlock<T>(sh: Shape, lse: array2<T>, seqlen: nat, threads: nat, m: nat, hk: nat, negInf: T)
    requires sh.Valid() && sh.blockM <= threads && hk < sh.GridHeads()
    requires lse.Length0 == sh.heads && seqlen <= lse.Length1
    modifies lse
    ensures forall head, query | 0 <= head < sh.heads && 0 <= query < lse.Length1 ::
              lse[head, query] ==
              if query < seqlen && InRows(sh.Group(), hk, m * sh.blockM, m * sh.blockM + sh.blockM, head, query)
              then negInf
              else old(lse[head, query])
  {
    hide HeadOf, QueryOf, RowOf;
    var q, first := sh.Group(), m * sh.blockM;
    var thread := 0;
    while thread < threads
      invariant thread <= threads
      invariant forall head, query | 0 <= head < sh.heads && 0 <= query < lse.Length1 ::
                  lse[head, query] ==
                  if query < seqlen && InRows(q, hk, first, first + Min(thread, sh.blockM), head, query) then negInf
                  else old(lse[head, query])
    {
      if thread < sh.blockM {
        var row := first + thread;
        if row < seqlen * q {
          RowInside(sh, seqlen, hk, row);
          lse[HeadOf(q, hk, row), QueryOf(q, row)] := negInf;
        }
        forall head: int, query: int
          ensures query < seqlen && InRows(q, hk, first, row + 1, head, query)
                  <==> (query < seqlen && InRows(q, hk, first, row, head, query))
                       || (row < seqlen * q && head == HeadOf(q, hk, row) && query == QueryOf(q, row))
        {
          OneMoreRow(sh, seqlen, hk, first, row, head, query);
        }
      }
      thread := thread + 1;
    }
  }

  lemma JoinRows(q: int, hk: int, m: nat, B: int, head: int, query: int)
    requires q > 0 && B > 0
    ensures InRows(q, hk, 0, (m + 1) * B, head, query)
            <==> InRows(q, hk, 0, m * B, head, query) || InRows(q, hk, m * B, m * B + B, head, query)
  {
    assert (m + 1) * B == m * B + B;
    MulMonotone(0, m, B);
  }

  lemma AllRows(sh: Shape, seqlen: nat, blocks: nat, hk: int, head: int, query: int)
    requires sh.Valid() && blocks >= CeilDiv(seqlen * sh.Group(), sh.blockM)
    requires 0 <= head < sh.heads && 0 <= query < seqlen
    ensures head / sh.Group() == hk <==> InRows(sh.Group(), hk, 0, blocks * sh.blockM, head, query)
  {
    var q, B := sh.Group(), sh.blockM;
    var row := RowOf(q, head, query);
    LayoutIsBijection(sh, seqlen, head, query, head / q, row);
    hide RowOf, CeilDiv;
    BlockInGrid(B, row, seqlen * q, blocks);
    QuotientAtLeast(row, B, blocks);
  }

  /** store_zero on every tile of one sequence: all its heads and queries, and no other cell. */
  method StoreZero<T>(sh: Shape, lse: array2<T>, seqlen: nat, threads: nat, blocks: nat, negInf: T)
    requires sh.Valid() && sh.blockM <= threads && blocks >= CeilDiv(seqlen * sh.Group(), sh.blockM)
    requires lse.Length0 == sh.heads && seqlen <= lse.Length1
    modifies lse
    ensures forall head, query | 0 <= head < sh.heads && 0 <= query < lse.Length1 ::
              lse[head, query] == if query < seqlen then negInf else old(lse[head, query])
  {
    hide HeadOf, QueryOf, RowOf, CeilDiv;
    var q := sh.Group();
    var hk := 0;
    while hk < sh.GridHeads()
      invariant hk <= sh.GridHeads()
      invariant forall head, query | 0 <= head < sh.heads && 0 <= query < lse.Length1 ::
                  lse[head, query] == if query < seqlen && head / q < hk then negInf else old(lse[head, query])
    {
      var m := 0;
      while m < blocks
        invariant m <= blocks
        invariant forall head, query | 0 <= head < sh.heads && 0 <= query < lse.Length1 ::
                    lse[head, query] ==
                    if query < seqlen && (head / q < hk || InRows(q, hk, 0, m * sh.blockM, head, query)) then negInf
                    else old(lse[head, query])
      {
        StoreZeroBlock(sh, lse, seqlen, threads, m, hk, negInf);
        forall head: int, query: int
          ensures InRows(q, hk, 0, (m + 1) * sh.blockM, head, query)
                  <==> InRows(q, hk, 0, m * sh.blockM, head, query)
                       || InRows(q, hk, m * sh.blockM, m * sh.blockM + sh.blockM, head, query)
        {
          JoinRows(q, hk, m, sh.blockM, head, query);
        }
        m := m + 1;
      }
      forall head, query | 0 <= head < sh.heads && 0 <= query < seqlen
        ensures head / q == hk <==> InRows(q, hk, 0, blocks * sh.blockM, head, query)
      {
        AllRows(sh, seqlen, blocks, hk, head, query);
      }
      hk := hk + 1;
    }
    forall head | 0 <= head < sh.heads ensures head / q < hk {
      GroupsCoverHeads(sh);
      KvHeadInRange(q, head, sh.GridHeads());
    }
  }
}
