/** The backward kernels for any scale, with the scores of `ScaleCondition`: the loops of
    `_bwd_kernel` in `flash_attn/flash_attn_triton.py` and in `flash_attn/flash_attn_triton_og.py`,
    and exactly when they compute the gradient of softmax attention. */
module BackwardScaleCondition {
  import opened RealSums
  import opened IeeeNumbers
  import opened Attention
  import opened AttentionGradient
  import L = LogReals
  import FK = ForwardKernel
  import BK = BackwardKernel
  import OK = OlderKernels
  import SC = ScaleCondition
  import TruncatedDivision

  // ---------------------------------------------------------------- totals in blocks

  function OneBlock(b: int, f: (int, int) -> Num, t: int): Num { Total(b, c => f(t, c)) }

  function BlockTerm(b: int, visited: int -> bool, f: (int, int) -> Num): int -> Num {
    t => if visited(t) then OneBlock(b, f, t) else Val(0.0)
  }

  /** A total taken block by block, over the visited blocks. */
  function Blocked(blocks: int, b: int, visited: int -> bool, f: (int, int) -> Num): Num {
    Total(blocks, BlockTerm(b, visited, f))
  }

  /** Entry c of block t is a value of g where the block is visited, and g is zero elsewhere. */
  ghost predicate EntryIs(b: nat, visited: int -> bool, f: (int, int) -> Num, g: int -> real, t: int, c: int) {
    if visited(t) then f(t, c) == Val(g(t * b + c)) else g(t * b + c) == 0.0
  }

  lemma BlockOfValues(b: nat, t: int, visited: int -> bool, f: (int, int) -> Num, g: int -> real)
    requires forall c | 0 <= c < b :: EntryIs(b, visited, f, g, t, c)
    ensures BlockTerm(b, visited, f)(t) == Val(Sum(t * b, t * b + b, g))
  {
    hide Sum, Total;
    var h: int -> real := c => g(t * b + c);
    SumShift(t * b, b, g, h);
    if visited(t) {
      var entries: int -> Num := c => f(t, c);
      forall c | 0 <= c < b ensures entries(c) == Val(h(c)) { assert EntryIs(b, visited, f, g, t, c); }
      TotalOfValues(b, entries, h);
      assert Total(b, entries) == BlockTerm(b, visited, f)(t);
    } else {
      forall c | 0 <= c < b ensures h(c) == 0.0 { assert EntryIs(b, visited, f, g, t, c); }
      SumZero(0, b, h);
    }
  }

  lemma BlockedOfValues(blocks: nat, b: nat, visited: int -> bool, f: (int, int) -> Num, g: int -> real)
    requires forall t, c | 0 <= t < blocks && 0 <= c < b :: EntryIs(b, visited, f, g, t, c)
    ensures Blocked(blocks, b, visited, f) == Val(Sum(0, blocks * b, g))
  {
    hide Sum, Total, BlockTerm, EntryIs;
    var sums: int -> real := t => Sum(t * b, t * b + b, g);
    forall t | 0 <= t < blocks ensures BlockTerm(b, visited, f)(t) == Val(sums(t)) {
      BlockOfValues(b, t, visited, f, g);
    }
    TotalOfValues(blocks, BlockTerm(b, visited, f), sums);
    SumOfBlocks(blocks, b, sums, g);
  }

  lemma BlockedIsBroken(blocks: nat, b: nat, visited: int -> bool, f: (int, int) -> Num, t: int, c: int)
    requires 0 <= t < blocks && 0 <= c < b && visited(t) && !f(t, c).Val?
    ensures !Blocked(blocks, b, visited, f).Val?
  {
    hide Total;
    TotalIsBroken(b, c' => f(t, c'), c);
    TotalIsBroken(blocks, BlockTerm(b, visited, f), t);
  }

  // ---------------------------------------------------------------- the kernel

  /** What a backward kernel loads: the reference and delta of every row, and its dO. */
  datatype Loaded = Loaded(dim: nat, reference: int -> L.LogReal, delta: int -> real, dO: seq<seq<real>>)

  /** p */
  function PAt(pb: Problem, ld: Loaded, evenN: bool, i: int, j: int): Num {
    Exp(Sub(SC.ScoreAt(pb, ld.dim, evenN, i, j), Of(ld.reference(i))))
  }

  /** ds */
  function DSAt(pb: Problem, ld: Loaded, evenN: bool, i: int, j: int): Num {
    Mul(Mul(PAt(pb, ld, evenN, i, j), Val(DP(pb, ld.dim, ld.dO, i, j) - ld.delta(i))), Val(pb.scale))
  }

  function VTerm(pb: Problem, ld: Loaded, evenN: bool, bm: nat, j: int, d: int): (int, int) -> Num {
    (t, r) => Mul(PAt(pb, ld, evenN, t * bm + r, j), Val(Load(ld.dO, t * bm + r, d)))
  }

  function KTerm(pb: Problem, ld: Loaded, evenN: bool, bm: nat, j: int, d: int): (int, int) -> Num {
    (t, r) => Mul(DSAt(pb, ld, evenN, t * bm + r, j), Val(Load(pb.q, t * bm + r, d)))
  }

  function QTerm(pb: Problem, ld: Loaded, evenN: bool, bn: nat, i: int, d: int): (int, int) -> Num {
    (n, c) => Mul(DSAt(pb, ld, evenN, i, n * bn + c), Val(Load(pb.k, n * bn + c, d)))
  }

  /** The row tiles that column block n visits. */
  function RowTiles(pb: Problem, n: nat, bm: nat, bn: nat): int -> bool
    requires bm > 0
  {
    t => BK.BeginM(pb, n, bm, bn) <= t * bm
  }

  /** The column blocks that visit row i. */
  function ColumnBlocks(pb: Problem, i: int, bm: nat, bn: nat): int -> bool
    requires bm > 0
  {
    n => n >= 0 && BK.BeginM(pb, n, bm, bn) <= i
  }

  function DV(pb: Problem, ld: Loaded, bm: nat, bn: nat, j: nat, d: int): Num
    requires bm > 0 && bn > 0
  {
    Blocked(TruncatedDivision.CeilDiv(pb.Sq(), bm), bm, RowTiles(pb, j / bn, bm, bn),
            VTerm(pb, ld, pb.Sk() % bn == 0, bm, j, d))
  }

  function DK(pb: Problem, ld: Loaded, bm: nat, bn: nat, j: nat, d: int): Num
    requires bm > 0 && bn > 0
  {
    Blocked(TruncatedDivision.CeilDiv(pb.Sq(), bm), bm, RowTiles(pb, j / bn, bm, bn),
            KTerm(pb, ld, pb.Sk() % bn == 0, bm, j, d))
  }

  /** dQ after n column blocks. */
  function QTotal(pb: Problem, ld: Loaded, bm: nat, bn: nat, n: nat, i: int, d: int): Num
    requires bm > 0 && bn > 0
  {
    Blocked(n, bn, ColumnBlocks(pb, i, bm, bn), QTerm(pb, ld, pb.Sk() % bn == 0, bn, i, d))
  }

  function DQ(pb: Problem, ld: Loaded, bm: nat, bn: nat, i: nat, d: int): Num
    requires bm > 0 && bn > 0
  {
    QTotal(pb, ld, bm, bn, TruncatedDivision.Max(0, TruncatedDivision.CeilDiv(pb.Sk(), bn)), i, d)
  }

  lemma NothingVisited(blocks: int, b: int, visited: int -> bool, f: (int, int) -> Num)
    requires forall t | 0 <= t < blocks :: !visited(t)
    ensures Blocked(blocks, b, visited, f) == Val(0.0)
  {
    hide Total, Sum, OneBlock;
    var zero: int -> real := _ => 0.0;
    TotalOfValues(blocks, BlockTerm(b, visited, f), zero);
    SumZero(0, blocks, zero);
  }

  lemma OneMoreBlock(t: nat, b: int, visited: int -> bool, f: (int, int) -> Num)
    requires visited(t)
    ensures Blocked(t + 1, b, visited, f) == Add(Blocked(t, b, visited, f), OneBlock(b, f, t))
  {
    hide Add, OneBlock;
  }

  lemma ColumnOf(n: nat, bn: nat, c: nat)
    requires c < bn
    ensures (n * bn + c) / bn == n
  {
    TruncatedDivision.QuotientFrom(n * bn + c, bn, n, n * bn);
  }

  /** An accumulator holds the totals over the tiles below t. */
  ghost predicate Sums(acc: array2<Num>, t: int, b: int, visited: int -> bool,
                       terms: (int, int) -> ((int, int) -> Num))
    reads acc
  {
    forall c, d | 0 <= c < acc.Length0 && 0 <= d < acc.Length1 :: acc[c, d] == Blocked(t, b, visited, terms(c, d))
  }

  /** acc += dot(..) for one tile. */
  method AddTile(acc: array2<Num>, t: nat, b: int, ghost visited: int -> bool,
                 terms: (int, int) -> ((int, int) -> Num))
    requires visited(t) && Sums(acc, t, b, visited, terms)
    modifies acc
    ensures Sums(acc, t + 1, b, visited, terms)
  {
    hide Blocked, OneBlock, Add;
    forall c, d | 0 <= c < acc.Length0 && 0 <= d < acc.Length1 {
      acc[c, d] := Add(acc[c, d], OneBlock(b, terms(c, d), t));
    }
    forall c, d | 0 <= c < acc.Length0 && 0 <= d < acc.Length1
      ensures acc[c, d] == Blocked(t + 1, b, visited, terms(c, d))
    {
      OneMoreBlock(t, b, visited, terms(c, d));
    }
  }

  function KTerms(pb: Problem, ld: Loaded, evenN: bool, bm: nat, n0: int): (int, int) -> ((int, int) -> Num) {
    (c, d) => KTerm(pb, ld, evenN, bm, n0 + c, d)
  }

  function VTerms(pb: Problem, ld: Loaded, evenN: bool, bm: nat, n0: int): (int, int) -> ((int, int) -> Num) {
    (c, d) => VTerm(pb, ld, evenN, bm, n0 + c, d)
  }

  lemma TermsAt(pb: Problem, ld: Loaded, evenN: bool, bm: nat, n0: int, c: int, d: int)
    ensures KTerms(pb, ld, evenN, bm, n0)(c, d) == KTerm(pb, ld, evenN, bm, n0 + c, d)
    ensures VTerms(pb, ld, evenN, bm, n0)(c, d) == VTerm(pb, ld, evenN, bm, n0 + c, d)
  {
    hide KTerm, VTerm;
  }

  lemma EntryOf(acc: array2<Num>, t: int, b: int, visited: int -> bool, terms: (int, int) -> ((int, int) -> Num),
                c: int, d: int)
    requires Sums(acc, t, b, visited, terms) && 0 <= c < acc.Length0 && 0 <= d < acc.Length1
    ensures acc[c, d] == Blocked(t, b, visited, terms(c, d))
  {
    hide Blocked;
  }

  lemma TileIsVisited(pb: Problem, n: nat, bm: nat, bn: nat, t: nat)
    requires bm > 0
    ensures RowTiles(pb, n, bm, bn)(t) <==> BK.BeginM(pb, n, bm, bn) / bm <= t
  {
    hide BK.BeginM;
    var begin := BK.BeginM(pb, n, bm, bn);
    BK.BeginMBounds(pb, n, bm, bn);
    assert begin == begin / bm * bm + begin % bm;
    if t < begin / bm {
      TruncatedDivision.MulMonotone(t + 1, begin / bm, bm);
      assert (t + 1) * bm == t * bm + bm;
    } else {
      TruncatedDivision.MulMonotone(begin / bm, t, bm);
    }
  }

  /** An empty accumulator holds the totals over the tiles below the first visited one. */
  lemma NothingSummed(pb: Problem, n: nat, bm: nat, bn: nat, acc: array2<Num>, t: nat,
                      terms: (int, int) -> ((int, int) -> Num))
    requires bm > 0 && t <= BK.BeginM(pb, n, bm, bn) / bm
    requires forall c, d | 0 <= c < acc.Length0 && 0 <= d < acc.Length1 :: acc[c, d] == Val(0.0)
    ensures Sums(acc, t, bm, RowTiles(pb, n, bm, bn), terms)
  {
    hide Blocked, RowTiles, BK.BeginM;
    forall s | 0 <= s < t ensures !RowTiles(pb, n, bm, bn)(s) { TileIsVisited(pb, n, bm, bn, s); }
    forall c, d | 0 <= c < acc.Length0 && 0 <= d < acc.Length1
      ensures acc[c, d] == Blocked(t, bm, RowTiles(pb, n, bm, bn), terms(c, d))
    {
      NothingVisited(t, bm, RowTiles(pb, n, bm, bn), terms(c, d));
    }
  }

  /** dk and dv of one column block: its loop over row tiles. */
  method ColumnSums(pb: Problem, ld: Loaded, n: nat, bm: nat, bn: nat) returns (dk: array2<Num>, dv: array2<Num>)
    requires bm > 0 && bn > 0
    ensures fresh(dk) && fresh(dv) && dk.Length0 == dv.Length0 == bn && dk.Length1 == dv.Length1 == ld.dim
    ensures forall c, d | 0 <= c < bn && 0 <= d < ld.dim ::
              dk[c, d] == DK(pb, ld, bm, bn, n * bn + c, d) && dv[c, d] == DV(pb, ld, bm, bn, n * bn + c, d)
  {
    hide Blocked, Sums, KTerms, VTerms, RowTiles, BK.BeginM, TruncatedDivision.CeilDiv;
    var evenN, blocks := pb.Sk() % bn == 0, TruncatedDivision.CeilDiv(pb.Sq(), bm);
    var kTerms, vTerms := KTerms(pb, ld, evenN, bm, n * bn), VTerms(pb, ld, evenN, bm, n * bn);
    ghost var visited := RowTiles(pb, n, bm, bn);
    dk := new Num[bn, ld.dim]((_, _) => Val(0.0));
    dv := new Num[bn, ld.dim]((_, _) => Val(0.0));
    var t := BK.BeginM(pb, n, bm, bn) / bm;
    ghost var first := t;
    NothingSummed(pb, n, bm, bn, dk, t, kTerms);
    NothingSummed(pb, n, bm, bn, dv, t, vTerms);
    while t < blocks
      invariant first <= t && (t <= blocks || t == first)
      invariant t > first || (forall c, d | 0 <= c < bn && 0 <= d < ld.dim :: dk[c, d] == dv[c, d] == Val(0.0))
      invariant Sums(dk, t, bm, visited, kTerms) && Sums(dv, t, bm, visited, vTerms)
    {
      TileIsVisited(pb, n, bm, bn, t);
      AddTile(dk, t, bm, visited, kTerms);
      AddTile(dv, t, bm, visited, vTerms);
      t := t + 1;
    }
    FK.BlocksCover(pb.Sq(), bm);
    if t > blocks {
      NothingSummed(pb, n, bm, bn, dk, blocks, kTerms);
      NothingSummed(pb, n, bm, bn, dv, blocks, vTerms);
    }
    forall c, d | 0 <= c < bn && 0 <= d < ld.dim
      ensures dk[c, d] == DK(pb, ld, bm, bn, n * bn + c, d) && dv[c, d] == DV(pb, ld, bm, bn, n * bn + c, d)
    {
      ColumnOf(n, bn, c);
      EntryOf(dk, blocks, bm, visited, kTerms, c, d);
      EntryOf(dv, blocks, bm, visited, vTerms, c, d);
      assert kTerms(c, d) == KTerm(pb, ld, evenN, bm, n * bn + c, d) by { TermsAt(pb, ld, evenN, bm, n * bn, c, d); }
      assert vTerms(c, d) == VTerm(pb, ld, evenN, bm, n * bn + c, d) by { TermsAt(pb, ld, evenN, bm, n * bn, c, d); }
    }
  }

  lemma QueryStep(pb: Problem, ld: Loaded, bm: nat, bn: nat, n: nat, i: int, d: int)
    requires bm > 0 && bn > 0
    ensures QTotal(pb, ld, bm, bn, 0, i, d) == Val(0.0)
    ensures QTotal(pb, ld, bm, bn, n + 1, i, d)
         == if BK.BeginM(pb, n, bm, bn) <= i
            then Add(QTotal(pb, ld, bm, bn, n, i, d), OneBlock(bn, QTerm(pb, ld, pb.Sk() % bn == 0, bn, i, d), n))
            else QTotal(pb, ld, bm, bn, n, i, d)
  {
    hide OneBlock, QTerm, BK.BeginM;
  }

  /** dQ holds the totals over the column blocks below n, and in the rows from lo to hi over
      block n too. */
  ghost predicate QuerySums(pb: Problem, ld: Loaded, bm: nat, bn: nat, dQ: array2<Num>, n: nat, lo: int, hi: int)
    requires bm > 0 && bn > 0
    reads dQ
  {
    forall i, d | 0 <= i < dQ.Length0 && 0 <= d < dQ.Length1 ::
      dQ[i, d] == QTotal(pb, ld, bm, bn, if lo <= i < hi then n + 1 else n, i, d)
  }

  /** Load, add dot(ds, k), store: the rows of tile t that exist. */
  method AddToRows(pb: Problem, ld: Loaded, bm: nat, bn: nat, dQ: array2<Num>, n: nat, t: nat)
    requires bm > 0 && bn > 0 && BK.BeginM(pb, n, bm, bn) <= t * bm
    requires QuerySums(pb, ld, bm, bn, dQ, n, BK.BeginM(pb, n, bm, bn), t * bm)
    modifies dQ
    ensures QuerySums(pb, ld, bm, bn, dQ, n, BK.BeginM(pb, n, bm, bn), t * bm + bm)
  {
    hide QTotal, OneBlock, QTerm, Add, BK.BeginM;
    var m0 := t * bm;
    forall i, d | 0 <= i < dQ.Length0 && 0 <= d < dQ.Length1 && m0 <= i < m0 + bm {
      dQ[i, d] := Add(dQ[i, d], OneBlock(bn, QTerm(pb, ld, pb.Sk() % bn == 0, bn, i, d), n));
    }
    forall i, d | 0 <= i < dQ.Length0 && 0 <= d < dQ.Length1 && m0 <= i < m0 + bm
      ensures dQ[i, d] == QTotal(pb, ld, bm, bn, n + 1, i, d)
    {
      QueryStep(pb, ld, bm, bn, n, i, d);
    }
  }

  lemma ColumnAdded(pb: Problem, ld: Loaded, bm: nat, bn: nat, dQ: array2<Num>, n: nat, hi: int)
    requires bm > 0 && bn > 0 && (dQ.Length0 <= hi || dQ.Length0 <= BK.BeginM(pb, n, bm, bn))
    requires QuerySums(pb, ld, bm, bn, dQ, n, BK.BeginM(pb, n, bm, bn), hi)
    ensures QuerySums(pb, ld, bm, bn, dQ, n + 1, 0, 0)
  {
    hide QTotal, QTerm, OneBlock, BK.BeginM;
    forall i, d | 0 <= i < dQ.Length0 && 0 <= d < dQ.Length1
      ensures dQ[i, d] == QTotal(pb, ld, bm, bn, n + 1, i, d)
    {
      QueryStep(pb, ld, bm, bn, n, i, d);
    }
  }

  lemma NothingAdded(pb: Problem, ld: Loaded, bm: nat, bn: nat, dQ: array2<Num>)
    requires bm > 0 && bn > 0
    requires forall i, d | 0 <= i < dQ.Length0 && 0 <= d < dQ.Length1 :: dQ[i, d] == Val(0.0)
    ensures QuerySums(pb, ld, bm, bn, dQ, 0, 0, 0)
  {
    hide QTotal;
    forall i, d | 0 <= i < dQ.Length0 && 0 <= d < dQ.Length1 ensures dQ[i, d] == QTotal(pb, ld, bm, bn, 0, i, d) {
      QueryStep(pb, ld, bm, bn, 0, i, d);
    }
  }

  lemma ColumnStart(pb: Problem, ld: Loaded, bm: nat, bn: nat, dQ: array2<Num>, n: nat, t: nat)
    requires bm > 0 && bn > 0 && t == BK.BeginM(pb, n, bm, bn) / bm
    requires QuerySums(pb, ld, bm, bn, dQ, n, 0, 0)
    ensures t * bm == BK.BeginM(pb, n, bm, bn)
    ensures TruncatedDivision.CeilDiv(pb.Sq(), bm) < t ==> pb.Sq() <= BK.BeginM(pb, n, bm, bn)
    ensures QuerySums(pb, ld, bm, bn, dQ, n, BK.BeginM(pb, n, bm, bn), t * bm)
  {
    hide QTotal, BK.BeginM, TruncatedDivision.CeilDiv;
    var begin, tiles := BK.BeginM(pb, n, bm, bn), TruncatedDivision.CeilDiv(pb.Sq(), bm);
    BK.BeginMBounds(pb, n, bm, bn);
    assert begin == begin / bm * bm + begin % bm;
    FK.BlocksCover(pb.Sq(), bm);
    if tiles < t { TruncatedDivision.MulMonotone(tiles, t, bm); }
  }

  lemma AllAdded(pb: Problem, ld: Loaded, bm: nat, bn: nat, dQ: array2<Num>, n: nat)
    requires bm > 0 && bn > 0 && n == TruncatedDivision.CeilDiv(pb.Sk(), bn)
    requires QuerySums(pb, ld, bm, bn, dQ, n, 0, 0)
    ensures forall i, d | 0 <= i < dQ.Length0 && 0 <= d < dQ.Length1 :: dQ[i, d] == DQ(pb, ld, bm, bn, i, d)
  {
    hide QTotal, TruncatedDivision.CeilDiv;
  }

  /** dQ of the sequential branch: it starts at zero, and every tile of every column block adds
      to its rows. */
  method QuerySequence(pb: Problem, ld: Loaded, bm: nat, bn: nat) returns (dQ: array2<Num>)
    requires bm > 0 && bn > 0
    ensures fresh(dQ) && dQ.Length0 == pb.Sq() && dQ.Length1 == pb.headdim
    ensures forall i, d | 0 <= i < pb.Sq() && 0 <= d < pb.headdim :: dQ[i, d] == DQ(pb, ld, bm, bn, i, d)
  {
    hide QTotal, QTerm, OneBlock, QuerySums, BK.BeginM, TruncatedDivision.CeilDiv;
    dQ := new Num[pb.Sq(), pb.headdim]((_, _) => Val(0.0));
    var blocks, tiles := TruncatedDivision.CeilDiv(pb.Sk(), bn), TruncatedDivision.CeilDiv(pb.Sq(), bm);
    FK.BlocksCover(pb.Sk(), bn);
    FK.BlocksCover(pb.Sq(), bm);
    NothingAdded(pb, ld, bm, bn, dQ);
    var n := 0;
    while n < blocks
      invariant 0 <= n <= blocks && QuerySums(pb, ld, bm, bn, dQ, n, 0, 0)
    {
      var begin := BK.BeginM(pb, n, bm, bn);
      var t := begin / bm;
      ColumnStart(pb, ld, bm, bn, dQ, n, t);
      while t < tiles
        invariant 0 <= t && begin <= t * bm && (t <= tiles || pb.Sq() <= begin)
        invariant QuerySums(pb, ld, bm, bn, dQ, n, begin, t * bm)
      {
        AddToRows(pb, ld, bm, bn, dQ, n, t);
        assert (t + 1) * bm == t * bm + bm;
        t := t + 1;
      }
      ColumnAdded(pb, ld, bm, bn, dQ, n, t * bm);
      n := n + 1;
    }
    AllAdded(pb, ld, bm, bn, dQ, n);
  }

  /** dQ, dK and dV are dS K, dS' Q and P' dO. */
  ghost predicate BackwardRight(pb: Problem, dO: seq<seq<real>>, ld: Loaded, bm: nat, bn: nat)
    requires bm > 0 && bn > 0
  {
    && (forall i, d | 0 <= i < pb.Sq() && 0 <= d < pb.headdim :: DQ(pb, ld, bm, bn, i, d) == Val(GradQ(pb, dO, i, d)))
    && (forall j, d | 0 <= j < pb.Sk() && 0 <= d < pb.headdim ::
          DK(pb, ld, bm, bn, j, d) == Val(GradK(pb, dO, j, d)) && DV(pb, ld, bm, bn, j, d) == Val(GradV(pb, dO, j, d)))
  }

  /** The loads suit the gradient: for some factor l of each row, exp(reference) * l is the row
      sum, and dO and delta are divided by l. */
  ghost predicate Suits(pb: Problem, dO: seq<seq<real>>, ld: Loaded, rows: int, l: int -> real) {
    && ld.dim >= pb.headdim && |dO| == |ld.dO| == pb.Sq()
    && (forall i | 0 <= i < rows :: ld.reference(i).Ln?)
    && (forall i | 0 <= i < pb.Sq() ::
          ld.reference(i).Ln? && RowSum(pb, i) > 0.0 && l(i) * ld.reference(i).w == RowSum(pb, i)
          && ld.delta(i) * l(i) == RowDot(pb, dO, i))
    && (forall i, d | 0 <= i < pb.Sq() :: Load(ld.dO, i, d) * l(i) == Load(dO, i, d))
  }

  // ---------------------------------------------------------------- every score defined

  lemma PIsScaled(pb: Problem, ld: Loaded, evenN: bool, i: int, j: int, l: real)
    requires pb.WellFormed() && ld.dim >= pb.headdim && j >= 0 && (evenN ==> j < pb.Sk())
    requires SC.ScoreAt(pb, ld.dim, evenN, i, j).Of? && ld.reference(i).Ln?
    requires RowSum(pb, i) > 0.0 && l * ld.reference(i).w == RowSum(pb, i)
    ensures PAt(pb, ld, evenN, i, j) == Val(P(pb, i, j) * l)
  {
    hide SC.ScoreAt, RowSum, P, W, L.Sub;
    SC.ScoreIsDefined(pb, ld.dim, evenN, i, j);
    OK.ProbIsScaled(pb, i, j, SC.ScoreAt(pb, ld.dim, evenN, i, j).a, ld.reference(i), l);
  }

  lemma DSIsGradient(pb: Problem, dO: seq<seq<real>>, ld: Loaded, evenN: bool, i: int, j: int, l: real)
    requires pb.WellFormed() && ld.dim >= pb.headdim && PAt(pb, ld, evenN, i, j) == Val(P(pb, i, j) * l)
    requires ld.delta(i) * l == RowDot(pb, dO, i) && forall d :: Load(ld.dO, i, d) * l == Load(dO, i, d)
    ensures DSAt(pb, ld, evenN, i, j) == Val(DS(pb, dO, i, j))
  {
    hide PAt, P, RowDot, DP, Load;
    PaddedDP(pb, ld.dim, ld.dO, i, j);
    OK.DPTimesL(pb, dO, ld.dO, i, j, l);
    OK.SameScoreGradient(P(pb, i, j) * l, P(pb, i, j), l, DP(pb, pb.headdim, ld.dO, i, j), ld.delta(i),
                         DP(pb, pb.headdim, dO, i, j), RowDot(pb, dO, i), pb.scale);
  }

  lemma BeyondIsZero(pb: Problem, dO: seq<seq<real>>, ld: Loaded, i: int, d: int)
    requires |dO| == |ld.dO| == pb.Sq() <= i
    ensures Load(ld.dO, i, d) == Load(dO, i, d) == Load(pb.q, i, d) == 0.0
  {
  }

  lemma PIsValue(pb: Problem, ld: Loaded, evenN: bool, i: int, j: int)
    requires SC.ScoreAt(pb, ld.dim, evenN, i, j).Of? && ld.reference(i).Ln?
    ensures PAt(pb, ld, evenN, i, j).Val?
  {
    hide SC.ScoreAt;
  }

  lemma DSIsValue(pb: Problem, ld: Loaded, evenN: bool, i: int, j: int)
    requires PAt(pb, ld, evenN, i, j).Val?
    ensures DSAt(pb, ld, evenN, i, j).Val?
  {
    hide PAt;
  }

  /** One row of a visited tile adds its terms of the specification, a padded row zero. */
  lemma EntryIsTerm(pb: Problem, dO: seq<seq<real>>, ld: Loaded, evenN: bool, rows: int, l: int -> real,
                    i: nat, j: nat, d: int)
    requires pb.WellFormed() && Suits(pb, dO, ld, rows, l) && i < rows && (evenN ==> j < pb.Sk())
    requires SC.ScoreAt(pb, ld.dim, evenN, i, j).Of?
    ensures Mul(PAt(pb, ld, evenN, i, j), Val(Load(ld.dO, i, d))) == Val(GradVTerm(pb, dO, j, d)(i))
    ensures Mul(DSAt(pb, ld, evenN, i, j), Val(Load(pb.q, i, d))) == Val(GradKTerm(pb, dO, j, d)(i))
    ensures i < pb.Sq() ==> Mul(DSAt(pb, ld, evenN, i, j), Val(Load(pb.k, j, d))) == Val(GradQTerm(pb, dO, i, d)(j))
  {
    hide SC.ScoreAt, PAt, DSAt, DS, P, RowSum, RowDot, Load;
    if i < pb.Sq() {
      PIsScaled(pb, ld, evenN, i, j, l(i));
      DSIsGradient(pb, dO, ld, evenN, i, j, l(i));
      OK.SameValueTerm(P(pb, i, j), l(i), Load(ld.dO, i, d), Load(dO, i, d));
    } else {
      PIsValue(pb, ld, evenN, i, j);
      DSIsValue(pb, ld, evenN, i, j);
      BeyondIsZero(pb, dO, ld, i, d);
    }
  }

  lemma SkippedTileIsZero(pb: Problem, dO: seq<seq<real>>, bm: nat, bn: nat, n: nat, i: int, j: int, d: int)
    requires bm > 0 && n * bn <= j && 0 <= i < BK.BeginM(pb, n, bm, bn)
    ensures GradVTerm(pb, dO, j, d)(i) == 0.0 && GradKTerm(pb, dO, j, d)(i) == 0.0
    ensures GradQTerm(pb, dO, i, d)(j) == 0.0
  {
    hide P, DS;
    BK.BeginMBounds(pb, n, bm, bn);
    InvisiblePairsAreZero(pb, dO, i, j);
  }

  lemma VisitedIsDefined(pb: Problem, dim: nat, bm: nat, bn: nat, n: nat, i: nat, j: nat)
    requires bm > 0 && bn > 0 && FK.Usable(pb, bm, bn) && dim >= pb.headdim
    requires n * bn <= j < n * bn + bn && n * bn < pb.Sk() && BK.BeginM(pb, n, bm, bn) <= i
    ensures pb.Sk() % bn == 0 ==> j < pb.Sk()
    ensures SC.ScoreAt(pb, dim, pb.Sk() % bn == 0, i, j).Of?
  {
    hide SC.ScoreAt;
    if pb.Sk() % bn == 0 {
      FK.EndIsMultiple(n, bn);
      FK.WholeBlockFits(n * bn, bn, pb.Sk());
    }
    SC.ScoreIsDefined(pb, dim, pb.Sk() % bn == 0, i, j);
  }

  /** Every row of every tile, seen from one key. */
  lemma KeyEntry(pb: Problem, dO: seq<seq<real>>, ld: Loaded, bm: nat, bn: nat, l: int -> real, j: nat, d: int,
                 t: nat, r: nat)
    requires bm > 0 && bn > 0 && FK.Usable(pb, bm, bn) && j < pb.Sk() && r < bm
    requires t < TruncatedDivision.CeilDiv(pb.Sq(), bm)
    requires Suits(pb, dO, ld, TruncatedDivision.CeilDiv(pb.Sq(), bm) * bm, l)
    ensures EntryIs(bm, RowTiles(pb, j / bn, bm, bn), VTerm(pb, ld, pb.Sk() % bn == 0, bm, j, d),
                    GradVTerm(pb, dO, j, d), t, r)
    ensures EntryIs(bm, RowTiles(pb, j / bn, bm, bn), KTerm(pb, ld, pb.Sk() % bn == 0, bm, j, d),
                    GradKTerm(pb, dO, j, d), t, r)
  {
    hide SC.ScoreAt, PAt, DSAt, P, DS, Load, BK.BeginM, TruncatedDivision.CeilDiv, RowSum, RowDot, FK.NothingMasked;
    var n, i := j / bn, t * bm + r;
    TruncatedDivision.FloorBounds(j, bn);
    assert (n + 1) * bn == n * bn + bn;
    if BK.BeginM(pb, n, bm, bn) <= t * bm {
      TruncatedDivision.MulMonotone(t + 1, TruncatedDivision.CeilDiv(pb.Sq(), bm), bm);
      VisitedIsDefined(pb, ld.dim, bm, bn, n, i, j);
      EntryIsTerm(pb, dO, ld, pb.Sk() % bn == 0, TruncatedDivision.CeilDiv(pb.Sq(), bm) * bm, l, i, j, d);
    } else {
      BK.BeginMBounds(pb, n, bm, bn);
      FK.EndIsMultiple(t, bm);
      FK.WholeBlockFits(t * bm, bm, BK.BeginM(pb, n, bm, bn));
      SkippedTileIsZero(pb, dO, bm, bn, n, i, j, d);
    }
  }

  /** Every key of every column block, seen from one row. */
  lemma QueryEntry(pb: Problem, dO: seq<seq<real>>, ld: Loaded, bm: nat, bn: nat, l: int -> real, i: nat, d: int,
                   n: nat, c: nat)
    requires bm > 0 && bn > 0 && FK.Usable(pb, bm, bn) && i < pb.Sq() && c < bn
    requires n < TruncatedDivision.CeilDiv(pb.Sk(), bn)
    requires Suits(pb, dO, ld, TruncatedDivision.CeilDiv(pb.Sq(), bm) * bm, l)
    ensures EntryIs(bn, ColumnBlocks(pb, i, bm, bn), QTerm(pb, ld, pb.Sk() % bn == 0, bn, i, d),
                    GradQTerm(pb, dO, i, d), n, c)
  {
    hide SC.ScoreAt, PAt, DSAt, P, DS, Load, BK.BeginM, RowSum, RowDot, FK.NothingMasked, TruncatedDivision.CeilDiv;
    var j := n * bn + c;
    TruncatedDivision.BelowCeilDiv(n, pb.Sk(), bn);
    if BK.BeginM(pb, n, bm, bn) <= i {
      FK.BlocksCover(pb.Sq(), bm);
      VisitedIsDefined(pb, ld.dim, bm, bn, n, i, j);
      EntryIsTerm(pb, dO, ld, pb.Sk() % bn == 0, TruncatedDivision.CeilDiv(pb.Sq(), bm) * bm, l, i, j, d);
    } else {
      SkippedTileIsZero(pb, dO, bm, bn, n, i, j, d);
    }
  }

  lemma KeyGradients(pb: Problem, dO: seq<seq<real>>, ld: Loaded, bm: nat, bn: nat, l: int -> real, j: nat, d: int)
    requires bm > 0 && bn > 0 && FK.Usable(pb, bm, bn) && j < pb.Sk()
    requires Suits(pb, dO, ld, TruncatedDivision.CeilDiv(pb.Sq(), bm) * bm, l)
    ensures DK(pb, ld, bm, bn, j, d) == Val(GradK(pb, dO, j, d))
    ensures DV(pb, ld, bm, bn, j, d) == Val(GradV(pb, dO, j, d))
  {
    hide Sum, Blocked, RowTiles, VTerm, KTerm, EntryIs, TruncatedDivision.CeilDiv, FK.Usable;
    var blocks, evenN := TruncatedDivision.CeilDiv(pb.Sq(), bm), pb.Sk() % bn == 0;
    FK.BlocksCover(pb.Sq(), bm);
    var visited := RowTiles(pb, j / bn, bm, bn);
    forall t, r | 0 <= t < blocks && 0 <= r < bm
      ensures EntryIs(bm, visited, VTerm(pb, ld, evenN, bm, j, d), GradVTerm(pb, dO, j, d), t, r)
      ensures EntryIs(bm, visited, KTerm(pb, ld, evenN, bm, j, d), GradKTerm(pb, dO, j, d), t, r)
    {
      KeyEntry(pb, dO, ld, bm, bn, l, j, d, t, r);
    }
    BlockedOfValues(blocks, bm, visited, VTerm(pb, ld, evenN, bm, j, d), GradVTerm(pb, dO, j, d));
    BlockedOfValues(blocks, bm, visited, KTerm(pb, ld, evenN, bm, j, d), GradKTerm(pb, dO, j, d));
    PaddedRowsAddNothing(pb, dO, j, d, blocks * bm);
  }

  lemma QueryGradient(pb: Problem, dO: seq<seq<real>>, ld: Loaded, bm: nat, bn: nat, l: int -> real, i: nat, d: int)
    requires bm > 0 && bn > 0 && FK.Usable(pb, bm, bn) && i < pb.Sq()
    requires Suits(pb, dO, ld, TruncatedDivision.CeilDiv(pb.Sq(), bm) * bm, l)
    ensures DQ(pb, ld, bm, bn, i, d) == Val(GradQ(pb, dO, i, d))
  {
    hide Sum, Blocked, ColumnBlocks, QTerm, EntryIs, TruncatedDivision.CeilDiv, FK.Usable;
    var blocks, evenN := TruncatedDivision.CeilDiv(pb.Sk(), bn), pb.Sk() % bn == 0;
    FK.BlocksCover(pb.Sk(), bn);
    var visited := ColumnBlocks(pb, i, bm, bn);
    forall n, c | 0 <= n < blocks && 0 <= c < bn
      ensures EntryIs(bn, visited, QTerm(pb, ld, evenN, bn, i, d), GradQTerm(pb, dO, i, d), n, c)
    {
      QueryEntry(pb, dO, ld, bm, bn, l, i, d, n, c);
    }
    BlockedOfValues(blocks, bn, visited, QTerm(pb, ld, evenN, bn, i, d), GradQTerm(pb, dO, i, d));
    BK.KeysBeyondAddNothing(pb, dO, i, d, blocks * bn);
  }

  lemma NoRowsNoGradient(pb: Problem, dO: seq<seq<real>>, ld: Loaded, bm: nat, bn: nat, j: nat, d: int)
    requires bm > 0 && bn > 0 && pb.Sq() == 0
    ensures DK(pb, ld, bm, bn, j, d) == Val(GradK(pb, dO, j, d))
    ensures DV(pb, ld, bm, bn, j, d) == Val(GradV(pb, dO, j, d))
  {
    TruncatedDivision.BelowCeilDiv(0, 0, bm);
  }

  // ---------------------------------------------------------------- a score undefined

  lemma UndefinedScoreBreaksDQ(pb: Problem, ld: Loaded, bm: nat, bn: nat, i: nat, d: int, n: nat, c: nat)
    requires bm > 0 && bn > 0 && c < bn && n < TruncatedDivision.CeilDiv(pb.Sk(), bn)
    requires BK.BeginM(pb, n, bm, bn) <= i && !SC.ScoreAt(pb, ld.dim, pb.Sk() % bn == 0, i, n * bn + c).Of?
    ensures !DQ(pb, ld, bm, bn, i, d).Val?
  {
    hide SC.ScoreAt, Load, DP, Blocked, BK.BeginM, TruncatedDivision.CeilDiv, Mul, Exp, Sub;
    var evenN, j := pb.Sk() % bn == 0, n * bn + c;
    BrokenExp(SC.ScoreAt(pb, ld.dim, evenN, i, j), Of(ld.reference(i)));
    var difference := Val(DP(pb, ld.dim, ld.dO, i, j) - ld.delta(i));
    BrokenAbsorbs(PAt(pb, ld, evenN, i, j), difference);
    BrokenAbsorbs(Mul(PAt(pb, ld, evenN, i, j), difference), Val(pb.scale));
    BrokenAbsorbs(DSAt(pb, ld, evenN, i, j), Val(Load(pb.k, j, d)));
    BlockedIsBroken(TruncatedDivision.CeilDiv(pb.Sk(), bn), bn, ColumnBlocks(pb, i, bm, bn),
                    QTerm(pb, ld, evenN, bn, i, d), n, c);
  }

  // ---------------------------------------------------------------- the condition

  /** Given what it needs, the backward kernel computes the gradient exactly when the scale is
      positive, no visited pair is masked, or no element of dQ exists. */
  lemma BackwardIff(pb: Problem, dO: seq<seq<real>>, ld: Loaded, bm: nat, bn: nat, l: int -> real)
    requires pb.WellFormed() && bm > 0 && bn > 0
    requires Suits(pb, dO, ld, TruncatedDivision.CeilDiv(pb.Sq(), bm) * bm, l)
    ensures BackwardRight(pb, dO, ld, bm, bn)
        <==> pb.scale > 0.0 || pb.Sq() == 0 || pb.headdim == 0 || FK.NothingMasked(pb, bm, bn)
  {
    hide DQ, DK, DV, GradQ, GradK, GradV, TruncatedDivision.CeilDiv, SC.ScoreAt;
    if FK.Usable(pb, bm, bn) {
      forall i, d | 0 <= i < pb.Sq() && 0 <= d < pb.headdim
        ensures DQ(pb, ld, bm, bn, i, d) == Val(GradQ(pb, dO, i, d))
      {
        QueryGradient(pb, dO, ld, bm, bn, l, i, d);
      }
      forall j, d | 0 <= j < pb.Sk() && 0 <= d < pb.headdim
        ensures DK(pb, ld, bm, bn, j, d) == Val(GradK(pb, dO, j, d))
        ensures DV(pb, ld, bm, bn, j, d) == Val(GradV(pb, dO, j, d))
      {
        KeyGradients(pb, dO, ld, bm, bn, l, j, d);
      }
    } else if pb.Sq() > 0 && pb.headdim > 0 {
      var n, c := SC.MaskedPair(pb, bm, bn);
      SC.ScoreIsDefined(pb, ld.dim, pb.Sk() % bn == 0, 0, n * bn + c);
      UndefinedScoreBreaksDQ(pb, ld, bm, bn, 0, 0, n, c);
    } else {
      forall j, d | 0 <= j < pb.Sk() && 0 <= d < pb.headdim
        ensures DK(pb, ld, bm, bn, j, d) == Val(GradK(pb, dO, j, d))
        ensures DV(pb, ld, bm, bn, j, d) == Val(GradV(pb, dO, j, d))
      {
        NoRowsNoGradient(pb, dO, ld, bm, bn, j, d);
      }
    }
  }

  function Entry(m: seq<L.LogReal>, i: int): L.LogReal {
    if 0 <= i < |m| then m[i] else L.NegInf
  }

  /** The loads of `_bwd_kernel` in `flash_attn_triton.py`. */
  function LogSumExpLoads(dO: seq<seq<real>>, lse: seq<L.LogReal>, delta: seq<real>, dim: nat): Loaded {
    Loaded(dim, i => Entry(lse, i), i => L.At(delta, i), dO)
  }

  lemma LogSumExpBackwardIff(pb: Problem, dO: seq<seq<real>>, lse: seq<L.LogReal>, delta: seq<real>,
                             bm: nat, bn: nat, dim: nat)
    requires pb.WellFormed() && bm > 0 && bn > 0 && |dO| == pb.Sq() && dim >= pb.headdim
    requires BK.SavedRows(pb, dO, TruncatedDivision.CeilDiv(pb.Sq(), bm) * bm, lse, delta)
    ensures BackwardRight(pb, dO, LogSumExpLoads(dO, lse, delta, dim), bm, bn)
        <==> pb.scale > 0.0 || pb.Sq() == 0 || pb.headdim == 0 || FK.NothingMasked(pb, bm, bn)
  {
    hide RowSum, RowDot, Load, BackwardRight, TruncatedDivision.CeilDiv;
    FK.BlocksCover(pb.Sq(), bm);
    BackwardIff(pb, dO, LogSumExpLoads(dO, lse, delta, dim), bm, bn, _ => 1.0);
  }

  /** The loads of `_bwd_kernel` in `flash_attn_triton_og.py`, after `_bwd_preprocess`. */
  function OlderLoads(newDO: seq<seq<real>>, sv: OK.Saved, delta: seq<real>, dim: nat): Loaded {
    Loaded(dim, i => Entry(sv.m, i), i => L.At(delta, i), newDO)
  }

  lemma WholeTiles(n: nat, b: nat)
    requires b > 0 && n % b == 0
    ensures TruncatedDivision.CeilDiv(n, b) * b == n
  {
    var q := n / b;
    assert n == q * b;
    TruncatedDivision.QuotientFrom(n + b - 1, b, q, n);
  }

  lemma OlderLoadsSuit(pb: Problem, dO: seq<seq<real>>, sv: OK.Saved, newDO: seq<seq<real>>, delta: seq<real>, b: nat)
    requires OK.Launchable(pb, b) && OK.SavedByForward(pb, sv)
    requires OK.Divided(pb, dO, sv, newDO, delta) && |dO| == pb.Sq()
    ensures Suits(pb, dO, OlderLoads(newDO, sv, delta, pb.headdim), TruncatedDivision.CeilDiv(pb.Sq(), b) * b,
                  i => L.At(sv.l, i))
  {
    hide RowSum, RowDot, Load, Output, Problem.WellFormed;
    WholeTiles(pb.Sq(), b);
  }

  /** The older forward needs no condition; the older backward needs a positive scale, or tiles
      of single pairs. */
  lemma OlderBackwardIff(pb: Problem, dO: seq<seq<real>>, sv: OK.Saved, newDO: seq<seq<real>>, delta: seq<real>, b: nat)
    requires OK.Launchable(pb, b) && OK.SavedByForward(pb, sv)
    requires OK.Divided(pb, dO, sv, newDO, delta) && |dO| == pb.Sq()
    ensures BackwardRight(pb, dO, OlderLoads(newDO, sv, delta, pb.headdim), b, b)
        <==> pb.scale > 0.0 || pb.headdim == 0 || b == 1
  {
    hide RowSum, RowDot, Load, Output, BackwardRight, Suits, OK.SavedByForward, OK.Divided;
    OlderLoadsSuit(pb, dO, sv, newDO, delta, b);
    BackwardIff(pb, dO, OlderLoads(newDO, sv, delta, pb.headdim), b, b, i => L.At(sv.l, i));
  }

  // ---------------------------------------------------------------- a failing input

  /** Two queries and two keys, causal, all entries 1 and the scale -1. */
  function NegativeScale(e: real -> real): Problem {
    Problem([[1.0], [1.0]], [[1.0], [1.0]], [[1.0], [1.0]], 1, NoBias, true, -1.0, e)
  }

  /** With the launcher's blocks of 128 the kernels fail there, whatever the exponential: query 0
      attends to key 0 alone, so its output is 1, but neither its log-sum-exp nor its
      accumulator nor its dQ is a value. */
  lemma NegativeScaleExample(e: real -> real, rule: NanRule, ld: Loaded)
    requires (forall x :: e(x) > 0.0) && (forall x, y :: OrderKept(e, x, y))
    ensures var pb := NegativeScale(e);
            && pb.WellFormed() && Output(pb, 0, 0) == 1.0
            && SC.Broken(SC.FinalRow(pb, 128, 128, 16, 0, rule))
            && !DQ(pb, ld.(dim := 16), 128, 128, 0, 0).Val?
  {
    hide SC.Broken, SC.After, SC.ScoreAt, Dot, DQ;
    var pb := NegativeScale(e);
    SC.ScoreIsDefined(pb, 16, false, 0, 1);
    assert SC.Blocks(pb, 0, 128, 128) == 1;
    SC.AfterIsBroken(pb, 16, 0, 128, 1, 0, 1, rule);
    UndefinedScoreBreaksDQ(pb, ld.(dim := 16), 128, 128, 0, 0, 0, 1);
    RowSumPositive(pb, 0);
    ProbabilitiesSumToOne(pb, 0);
    SumExt(0, 2, PVTerm(pb, 0, 0), PTerm(pb, 0));
  }
}
