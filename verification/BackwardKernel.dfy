/** The tiled backward pass with the load-add-store accumulation of dQ:
    `_bwd_preprocess_do_o_dot`, `_bwd_kernel_one_col_block`, `_bwd_store_dk_dv` and the
    sequential branch of `_bwd_kernel` in `flash_attn/flash_attn_triton.py`. */
module BackwardKernel {
  import opened RealSums
  import opened LogReals
  import opened Attention
  import opened AttentionGradient
  import FK = ForwardKernel
  import TruncatedDivision

  // ---------------------------------------------------------------- delta

  function DeltaTerm(o: seq<seq<real>>, dO: seq<seq<real>>, i: int): int -> real {
    d => Load(o, i, d) * Load(dO, i, d)
  }

  /** One row of tl.sum(o * do, axis=1). */
  function Delta(o: seq<seq<real>>, dO: seq<seq<real>>, dim: nat, i: int): real {
    Sum(0, dim, DeltaTerm(o, dO, i))
  }

  lemma DeltaIsRowDot(pb: Problem, o: seq<seq<real>>, dO: seq<seq<real>>, dim: nat, i: int)
    requires dim >= pb.headdim && Shaped(o, pb.Sq(), pb.headdim) && 0 <= i < pb.Sq()
    requires forall d | 0 <= d < pb.headdim :: o[i][d] == Output(pb, i, d)
    ensures Delta(o, dO, dim, i) == RowDot(pb, dO, i)
  {
    hide Sum, Output;
    SumTail(0, pb.headdim, dim, DeltaTerm(o, dO, i));
    SumExt(0, pb.headdim, DeltaTerm(o, dO, i), ODOTerm(pb, dO, i));
    DeltaTrick(pb, dO, i);
  }

  /** One program of the preprocessing grid; delta is written for the whole tile. */
  method PreprocessBlock(pb: Problem, o: seq<seq<real>>, dO: seq<seq<real>>,
                         startM: nat, bm: nat, dim: nat, delta: array<real>)
    requires dim >= pb.headdim && Shaped(o, pb.Sq(), pb.headdim) && |dO| == pb.Sq()
    requires forall i, d | 0 <= i < pb.Sq() && 0 <= d < pb.headdim :: o[i][d] == Output(pb, i, d)
    requires delta.Length >= (startM + 1) * bm
    modifies delta
    ensures forall i | 0 <= i < delta.Length ::
              if startM * bm <= i < (startM + 1) * bm
              then delta[i] == Delta(o, dO, dim, i) && (i < pb.Sq() ==> delta[i] == RowDot(pb, dO, i))
              else delta[i] == old(delta[i])
  {
    hide Sum, Delta, RowDot, Output;
    var m0 := startM * bm;
    assert (startM + 1) * bm == m0 + bm;
    forall r | 0 <= r < bm {
      delta[m0 + r] := Delta(o, dO, dim, m0 + r);
    }
    forall i | m0 <= i < m0 + bm
      ensures delta[i] == Delta(o, dO, dim, i) && (i < pb.Sq() ==> delta[i] == RowDot(pb, dO, i))
    {
      assert delta[m0 + (i - m0)] == Delta(o, dO, dim, i);
      if i < pb.Sq() { DeltaIsRowDot(pb, o, dO, dim, i); }
    }
  }

  /** The whole preprocessing grid. */
  method Preprocess(pb: Problem, o: seq<seq<real>>, dO: seq<seq<real>>, bm: nat, dim: nat)
    returns (result: seq<real>)
    requires dim >= pb.headdim && Shaped(o, pb.Sq(), pb.headdim) && |dO| == pb.Sq()
    requires FK.FitsBuffers(pb.Sq(), bm)
    requires forall i, d | 0 <= i < pb.Sq() && 0 <= d < pb.headdim :: o[i][d] == Output(pb, i, d)
    ensures |result| == FK.RoundedTo128(pb.Sq())
    ensures forall i | 0 <= i < pb.Sq() :: i < |result| && result[i] == RowDot(pb, dO, i)
  {
    hide Sum, Delta, RowDot, Output;
    var blocks := TruncatedDivision.CeilDiv(pb.Sq(), bm);
    FK.BlocksCover(pb.Sq(), bm);
    var delta := new real[FK.RoundedTo128(pb.Sq())];
    var startM := 0;
    while startM < blocks
      invariant 0 <= startM <= blocks
      invariant forall i | 0 <= i < pb.Sq() && i < startM * bm :: delta[i] == RowDot(pb, dO, i)
    {
      FK.TileFits(pb.Sq(), bm, startM);
      assert (startM + 1) * bm == startM * bm + bm;
      PreprocessBlock(pb, o, dO, startM, bm, dim, delta);
      startM := startM + 1;
    }
    result := delta[..];
  }

  // ---------------------------------------------------------------- one tile

  /** p for one row, recomputed from the stored log-sum-exp. */
  function ProbRow(pb: Problem, dim: nat, evenN: bool, i: int, n0: int, bn: nat, lse: LogReal): seq<real>
    requires pb.WellFormed() && lse.Ln? && FK.Scalable(pb, FK.RawRow(pb, dim, evenN, i, n0, bn))
  {
    ExpShift(FK.ScoreRow(pb, i, n0, FK.RawRow(pb, dim, evenN, i, n0, bn)), lse)
  }

  /** ds for one row: p * (dp - delta) * softmax_scale. */
  function DSRow(pb: Problem, dim: nat, dO: seq<seq<real>>, i: int, n0: int, p: seq<real>, delta: real): seq<real> {
    seq(|p|, c requires 0 <= c < |p| => ScoreGradient(p[c], DP(pb, dim, dO, i, n0 + c), delta, pb.scale))
  }

  lemma ProbRowIsSoftmax(pb: Problem, dim: nat, evenN: bool, i: int, n0: nat, bn: nat, lse: LogReal)
    requires pb.WellFormed() && dim >= pb.headdim && (evenN ==> n0 + bn <= pb.Sk())
    requires FK.Scalable(pb, FK.RawRow(pb, dim, evenN, i, n0, bn))
    requires RowSum(pb, i) > 0.0 && lse == Ln(RowSum(pb, i))
    ensures var p := ProbRow(pb, dim, evenN, i, n0, bn, lse);
            |p| == bn && forall c | 0 <= c < bn :: At(p, c) == P(pb, i, n0 + c)
  {
    hide Sum, W, RowSum;
    FK.ScoresAreWeights(pb, dim, evenN, i, n0, bn);
    var s := FK.ScoreRow(pb, i, n0, FK.RawRow(pb, dim, evenN, i, n0, bn));
    forall c | 0 <= c < bn ensures At(ExpShift(s, lse), c) == P(pb, i, n0 + c) {
      ExpSub(s[c], lse);
    }
  }

  lemma DSRowIsGradient(pb: Problem, dim: nat, dO: seq<seq<real>>, i: int, n0: nat, p: seq<real>, delta: real)
    requires pb.WellFormed() && dim >= pb.headdim && delta == RowDot(pb, dO, i)
    requires forall c | 0 <= c < |p| :: At(p, c) == P(pb, i, n0 + c)
    ensures var ds := DSRow(pb, dim, dO, i, n0, p, delta);
            |ds| == |p| && forall c | 0 <= c < |p| :: At(ds, c) == DS(pb, dO, i, n0 + c)
  {
    hide Sum, P, RowDot, DP;
    forall c | 0 <= c < |p| ensures At(DSRow(pb, dim, dO, i, n0, p, delta), c) == DS(pb, dO, i, n0 + c) {
      PaddedDP(pb, dim, dO, i, n0 + c);
      assert At(p, c) == p[c] == P(pb, i, n0 + c);
      assert At(DSRow(pb, dim, dO, i, n0, p, delta), c)
          == ScoreGradient(p[c], DP(pb, dim, dO, i, n0 + c), delta, pb.scale);
    }
  }

  /** A tile holds the given entries in its existing rows. */
  ghost predicate TileHolds(pb: Problem, t: seq<seq<real>>, m0: int, bm: nat, bn: nat, n0: int,
                            entry: (int, int) -> real)
  {
    && |t| == bm
    && (forall r | 0 <= r < bm :: |t[r]| == bn)
    && (forall r, c | 0 <= r < bm && 0 <= c < bn && m0 + r < pb.Sq() :: Load(t, r, c) == entry(m0 + r, n0 + c))
  }

  ghost function PEntry(pb: Problem): (int, int) -> real { (i, j) => P(pb, i, j) }

  ghost function DSEntry(pb: Problem, dO: seq<seq<real>>): (int, int) -> real { (i, j) => DS(pb, dO, i, j) }

  /** The row-wise quantities the backward kernel loads. */
  ghost predicate RowData(pb: Problem, dO: seq<seq<real>>, m0: int, lse: seq<LogReal>, delta: seq<real>) {
    && |lse| == |delta|
    && (forall r | 0 <= r < |lse| :: lse[r].Ln?)
    && (forall r | 0 <= r < |lse| && m0 + r < pb.Sq() ::
          RowSum(pb, m0 + r) > 0.0 && lse[r] == Ln(RowSum(pb, m0 + r)) && delta[r] == RowDot(pb, dO, m0 + r))
  }

  lemma ProbRowLength(pb: Problem, dim: nat, evenN: bool, i: int, n0: int, bn: nat, lse: LogReal)
    requires pb.WellFormed() && lse.Ln? && FK.Scalable(pb, FK.RawRow(pb, dim, evenN, i, n0, bn))
    ensures |ProbRow(pb, dim, evenN, i, n0, bn, lse)| == bn
  {
  }

  /** p and ds of one tile: the scores recomputed, softmax from the stored log-sum-exp, and
      p * (dp - delta) * softmax_scale. */
  method GradientTile(pb: Problem, dO: seq<seq<real>>, lse: seq<LogReal>, delta: seq<real>,
                      m0: nat, n0: nat, bn: nat, dim: nat)
    returns (p: seq<seq<real>>, ds: seq<seq<real>>)
    requires pb.WellFormed() && dim >= pb.headdim && bn > 0 && n0 < pb.Sk() && n0 % bn == 0
    requires FK.TileScalable(pb, m0, |lse|, n0, bn) && RowData(pb, dO, m0, lse, delta)
    ensures TileHolds(pb, p, m0, |lse|, bn, n0, PEntry(pb))
    ensures TileHolds(pb, ds, m0, |lse|, bn, n0, DSEntry(pb, dO))
  {
    hide Sum, P, DS, RowSum, RowDot, ProbRow, FK.ScoreRow, FK.RawRow, FK.Scalable, FK.TileScalable;
    var evenN := pb.Sk() % bn == 0;
    if evenN { FK.WholeBlockFits(n0, bn, pb.Sk()); }
    var rows := |lse|;
    var raw := seq(rows, r requires 0 <= r < rows => FK.RawRow(pb, dim, evenN, m0 + r, n0, bn));
    forall r | 0 <= r < rows ensures FK.Scalable(pb, raw[r]) {
      FK.RowIsScalable(pb, dim, evenN, m0, rows, m0 + r, n0, bn);
    }
    p := seq(rows, r requires 0 <= r < rows && lse[r].Ln? && FK.Scalable(pb, raw[r]) =>
      ProbRow(pb, dim, evenN, m0 + r, n0, bn, lse[r]));
    ds := seq(rows, r requires 0 <= r < rows => DSRow(pb, dim, dO, m0 + r, n0, p[r], delta[r]));
    forall r | 0 <= r < rows ensures |p[r]| == bn && |ds[r]| == bn {
      ProbRowLength(pb, dim, evenN, m0 + r, n0, bn, lse[r]);
    }
    forall r, c | 0 <= r < rows && 0 <= c < bn && m0 + r < pb.Sq()
      ensures Load(p, r, c) == P(pb, m0 + r, n0 + c) && Load(ds, r, c) == DS(pb, dO, m0 + r, n0 + c)
    {
      ProbRowIsSoftmax(pb, dim, evenN, m0 + r, n0, bn, lse[r]);
      DSRowIsGradient(pb, dim, dO, m0 + r, n0, p[r], delta[r]);
    }
  }

  // ---------------------------------------------------------------- tile products

  function ColumnTerm(t: seq<seq<real>>, x: seq<seq<real>>, m0: int, c: int, d: int): int -> real {
    r => Load(t, r, c) * Load(x, m0 + r, d)
  }

  /** acc + dot(t', x) for a column-block accumulator. */
  function AddColumns(acc: seq<seq<real>>, t: seq<seq<real>>, x: seq<seq<real>>, m0: int, bn: nat, dim: nat)
    : seq<seq<real>>
  {
    seq(bn, c requires 0 <= c < bn =>
      seq(dim, d requires 0 <= d < dim => Load(acc, c, d) + Sum(0, |t|, ColumnTerm(t, x, m0, c, d))))
  }

  lemma AddColumnsEntry(acc: seq<seq<real>>, t: seq<seq<real>>, x: seq<seq<real>>, m0: nat, bn: nat, dim: nat,
                        c: int, d: int, f: int -> real)
    requires 0 <= c < bn && 0 <= d < dim && Load(acc, c, d) == Sum(0, m0, f)
    requires forall r | 0 <= r < |t| :: ColumnTerm(t, x, m0, c, d)(r) == f(m0 + r)
    ensures Load(AddColumns(acc, t, x, m0, bn, dim), c, d) == Sum(0, m0 + |t|, f)
  {
    hide Sum, ColumnTerm;
    SumShift(m0, |t|, f, ColumnTerm(t, x, m0, c, d));
    SumSplit(0, m0, m0 + |t|, f);
  }

  function RowTerm(t: seq<seq<real>>, x: seq<seq<real>>, r: int, n0: int, d: int): int -> real {
    c => Load(t, r, c) * Load(x, n0 + c, d)
  }

  /** One entry of dot(ds, k). */
  function RowProduct(t: seq<seq<real>>, x: seq<seq<real>>, r: int, n0: int, bn: nat, d: int): real {
    Sum(0, bn, RowTerm(t, x, r, n0, d))
  }

  /** A column-block accumulator holds the partial sums over the rows below n. */
  ghost predicate Partial(acc: seq<seq<real>>, n: int, n0: int, bn: nat, dim: nat, term: (int, int) -> (int -> real)) {
    forall c, d | 0 <= c < bn && 0 <= d < dim :: Load(acc, c, d) == Sum(0, n, term(n0 + c, d))
  }

  ghost function VTerms(pb: Problem, dO: seq<seq<real>>): (int, int) -> (int -> real) {
    (j, d) => GradVTerm(pb, dO, j, d)
  }

  ghost function KTerms(pb: Problem, dO: seq<seq<real>>): (int, int) -> (int -> real) {
    (j, d) => GradKTerm(pb, dO, j, d)
  }

  /** One row tile extends the partial sums of dV and dK; its padded rows add zero because dO
      and Q are loaded as zero there. */
  lemma TileExtendsPartial(pb: Problem, dO: seq<seq<real>>, p: seq<seq<real>>, ds: seq<seq<real>>,
                           m0: nat, bm: nat, n0: nat, bn: nat, dim: nat,
                           dv: seq<seq<real>>, dk: seq<seq<real>>)
    requires |dO| == pb.Sq()
    requires TileHolds(pb, p, m0, bm, bn, n0, PEntry(pb)) && TileHolds(pb, ds, m0, bm, bn, n0, DSEntry(pb, dO))
    requires Partial(dv, m0, n0, bn, dim, VTerms(pb, dO)) && Partial(dk, m0, n0, bn, dim, KTerms(pb, dO))
    ensures Partial(AddColumns(dv, p, dO, m0, bn, dim), m0 + bm, n0, bn, dim, VTerms(pb, dO))
    ensures Partial(AddColumns(dk, ds, pb.q, m0, bn, dim), m0 + bm, n0, bn, dim, KTerms(pb, dO))
  {
    hide Sum, P, DS, AddColumns;
    forall c, d | 0 <= c < bn && 0 <= d < dim
      ensures Load(AddColumns(dv, p, dO, m0, bn, dim), c, d) == Sum(0, m0 + bm, GradVTerm(pb, dO, n0 + c, d))
      ensures Load(AddColumns(dk, ds, pb.q, m0, bn, dim), c, d) == Sum(0, m0 + bm, GradKTerm(pb, dO, n0 + c, d))
    {
      forall r | 0 <= r < bm
        ensures ColumnTerm(p, dO, m0, c, d)(r) == GradVTerm(pb, dO, n0 + c, d)(m0 + r)
        ensures ColumnTerm(ds, pb.q, m0, c, d)(r) == GradKTerm(pb, dO, n0 + c, d)(m0 + r)
      {
      }
      AddColumnsEntry(dv, p, dO, m0, bn, dim, c, d, GradVTerm(pb, dO, n0 + c, d));
      AddColumnsEntry(dk, ds, pb.q, m0, bn, dim, c, d, GradKTerm(pb, dO, n0 + c, d));
    }
  }

  lemma RowProductIsPartialDQ(pb: Problem, dO: seq<seq<real>>, ds: seq<seq<real>>,
                              m0: nat, bm: nat, n0: nat, bn: nat, r: int, d: int)
    requires TileHolds(pb, ds, m0, bm, bn, n0, DSEntry(pb, dO)) && 0 <= r < bm && m0 + r < pb.Sq()
    ensures RowProduct(ds, pb.k, r, n0, bn, d) == Sum(n0, n0 + bn, GradQTerm(pb, dO, m0 + r, d))
  {
    hide Sum, DS;
    forall c | 0 <= c < bn
      ensures RowTerm(ds, pb.k, r, n0, d)(c) == GradQTerm(pb, dO, m0 + r, d)(n0 + c)
    {
    }
    SumShift(n0, bn, GradQTerm(pb, dO, m0 + r, d), RowTerm(ds, pb.k, r, n0, d));
  }

  // ---------------------------------------------------------------- one column block

  /** begin_m. */
  function BeginM(pb: Problem, startN: nat, bm: nat, bn: nat): nat
    requires bm > 0
  {
    if pb.causal then startN * bn / bm * bm else 0
  }

  lemma BeginMBounds(pb: Problem, startN: nat, bm: nat, bn: nat)
    requires bm > 0
    ensures BeginM(pb, startN, bm, bn) <= startN * bn
    ensures BeginM(pb, startN, bm, bn) % bm == 0
  {
    var n0 := startN * bn;
    TruncatedDivision.FloorBounds(n0, bm);
    if pb.causal {
      var q := n0 / bm;
      TruncatedDivision.QuotientUnique(q * bm, bm, q) by { assert (q + 1) * bm == q * bm + bm; }
    }
  }

  /** Rows below begin_m see no key of the column block. */
  lemma RowsBelowBeginM(pb: Problem, dO: seq<seq<real>>, startN: nat, bm: nat, bn: nat, dim: nat)
    requires bm > 0
    ensures var zeros := seq(bn, _ => seq(dim, _ => 0.0));
            && Partial(zeros, BeginM(pb, startN, bm, bn), startN * bn, bn, dim, VTerms(pb, dO))
            && Partial(zeros, BeginM(pb, startN, bm, bn), startN * bn, bn, dim, KTerms(pb, dO))
    ensures forall i, d | 0 <= i < BeginM(pb, startN, bm, bn) ::
              Sum(startN * bn, startN * bn + bn, GradQTerm(pb, dO, i, d)) == 0.0
  {
    hide Sum, P, DS;
    var n0, begin := startN * bn, BeginM(pb, startN, bm, bn);
    BeginMBounds(pb, startN, bm, bn);
    var zeros := seq(bn, _ => seq(dim, _ => 0.0));
    forall c, d | 0 <= c < bn && 0 <= d < dim
      ensures Load(zeros, c, d) == 0.0
      ensures Load(zeros, c, d) == Sum(0, begin, GradVTerm(pb, dO, n0 + c, d))
      ensures Load(zeros, c, d) == Sum(0, begin, GradKTerm(pb, dO, n0 + c, d))
    {
      SkippedRowsAddNothing(pb, dO, n0 + c, d, begin);
    }
    forall i, d | 0 <= i < begin ensures Sum(n0, n0 + bn, GradQTerm(pb, dO, i, d)) == 0.0 {
      SkippedKeysAddNothing(pb, dO, i, d, n0, n0 + bn);
    }
  }

  /** What the kernel reads per row: exact values in the rows that exist, and any finite
      log-sum-exp in the padded rows. */
  ghost predicate SavedRows(pb: Problem, dO: seq<seq<real>>, rows: int, lse: seq<LogReal>, delta: seq<real>) {
    && |lse| >= rows && |delta| >= rows
    && (forall i | 0 <= i < rows :: lse[i].Ln?)
    && (forall i | 0 <= i < rows && i < pb.Sq() ::
          RowSum(pb, i) > 0.0 && lse[i] == Ln(RowSum(pb, i)) && delta[i] == RowDot(pb, dO, i))
  }

  /** Adds one row tile's dS K to dQ, in the rows and head dimensions that exist. */
  method AddToDQ(pb: Problem, ghost dO: seq<seq<real>>, ds: seq<seq<real>>,
                 m0: nat, bm: nat, n0: nat, bn: nat, dQ: array2<real>)
    requires TileHolds(pb, ds, m0, bm, bn, n0, DSEntry(pb, dO))
    requires dQ.Length0 == pb.Sq() && dQ.Length1 == pb.headdim
    modifies dQ
    ensures forall i, d | 0 <= i < pb.Sq() && 0 <= d < pb.headdim ::
              dQ[i, d] == if m0 <= i < m0 + bm
                          then old(dQ[i, d]) + Sum(n0, n0 + bn, GradQTerm(pb, dO, i, d))
                          else old(dQ[i, d])
  {
    hide Sum, RowProduct, TileHolds;
    forall r, d | 0 <= r < bm && m0 + r < pb.Sq() && 0 <= d < pb.headdim {
      dQ[m0 + r, d] := dQ[m0 + r, d] + RowProduct(ds, pb.k, r, n0, bn, d);
    }
    forall i, d | m0 <= i < m0 + bm && i < pb.Sq() && 0 <= d < pb.headdim
      ensures dQ[i, d] == old(dQ[i, d]) + Sum(n0, n0 + bn, GradQTerm(pb, dO, i, d))
    {
      RowProductIsPartialDQ(pb, dO, ds, m0, bm, n0, bn, i - m0, d);
      assert dQ[m0 + (i - m0), d] == old(dQ[m0 + (i - m0), d]) + RowProduct(ds, pb.k, i - m0, n0, bn, d);
    }
  }

  /** `_bwd_store_dk_dv`: the keys and head dimensions that exist. */
  method StoreColumns(pb: Problem, acc: seq<seq<real>>, n0: nat, bn: nat, dim: nat, target: array2<real>)
    requires dim >= pb.headdim && target.Length0 == pb.Sk() && target.Length1 == pb.headdim
    modifies target
    ensures forall j, d | 0 <= j < pb.Sk() && 0 <= d < pb.headdim ::
              target[j, d] == if n0 <= j < n0 + bn then Load(acc, j - n0, d) else old(target[j, d])
  {
    forall c, d | 0 <= c < bn && n0 + c < pb.Sk() && 0 <= d < dim && d < pb.headdim {
      target[n0 + c, d] := Load(acc, c, d);
    }
    forall j, d | n0 <= j < n0 + bn && j < pb.Sk() && 0 <= d < pb.headdim
      ensures target[j, d] == Load(acc, j - n0, d)
    {
      assert target[n0 + (j - n0), d] == Load(acc, j - n0, d);
    }
  }

  lemma ColumnTileIsScalable(pb: Problem, startN: nat, bm: nat, bn: nat, m: nat)
    requires bm > 0 && bn > 0 && FK.Usable(pb, bm, bn) && startN * bn < pb.Sk() && m >= BeginM(pb, startN, bm, bn)
    ensures FK.TileScalable(pb, m, bm, startN * bn, bn)
  {
    if pb.scale <= 0.0 {
      if pb.causal {
        assert startN * bn == startN;
      } else {
        FK.EndIsMultiple(startN, bn);
        FK.WholeBlockFits(startN * bn, bn, pb.Sk());
      }
    }
  }

  lemma RowsOfTile(pb: Problem, dO: seq<seq<real>>, rows: int, lse: seq<LogReal>, delta: seq<real>, m: nat, bm: nat)
    requires SavedRows(pb, dO, rows, lse, delta) && m + bm <= rows
    ensures RowData(pb, dO, m, lse[m..m + bm], delta[m..m + bm])
  {
    hide RowSum, RowDot;
  }

  /** With all rows processed, the accumulators hold the gradient of the column block. */
  lemma FinishColumn(pb: Problem, dO: seq<seq<real>>, m: int, n0: int, bn: nat, dim: nat,
                     dv: seq<seq<real>>, dk: seq<seq<real>>)
    requires |dO| == pb.Sq() <= m
    requires Partial(dv, m, n0, bn, dim, VTerms(pb, dO)) && Partial(dk, m, n0, bn, dim, KTerms(pb, dO))
    ensures forall c, d | 0 <= c < bn && 0 <= d < dim ::
              Load(dv, c, d) == GradV(pb, dO, n0 + c, d) && Load(dk, c, d) == GradK(pb, dO, n0 + c, d)
  {
    hide Sum, GradV, GradK;
    forall c, d | 0 <= c < bn && 0 <= d < dim
      ensures Load(dv, c, d) == GradV(pb, dO, n0 + c, d) && Load(dk, c, d) == GradK(pb, dO, n0 + c, d)
    {
      PaddedRowsAddNothing(pb, dO, n0 + c, d, m);
    }
  }

  /** One column block with its early exit: it stores its dV and dK, and adds its part to dQ. */
  method OneColBlock(pb: Problem, dO: seq<seq<real>>, startN: nat, lse: seq<LogReal>, delta: seq<real>,
                     bm: nat, bn: nat, dim: nat, dQ: array2<real>, dK: array2<real>, dV: array2<real>)
    requires bm > 0 && bn > 0 && FK.Usable(pb, bm, bn) && |dO| == pb.Sq() && dim >= pb.headdim
    requires startN * bn < pb.Sk()
    requires SavedRows(pb, dO, TruncatedDivision.CeilDiv(pb.Sq(), bm) * bm, lse, delta)
    requires dQ.Length0 == pb.Sq() && dQ.Length1 == pb.headdim
    requires dK.Length0 == pb.Sk() && dK.Length1 == pb.headdim
    requires dV.Length0 == pb.Sk() && dV.Length1 == pb.headdim
    requires dQ != dK && dQ != dV && dK != dV
    modifies dQ, dK, dV
    ensures forall i, d | 0 <= i < pb.Sq() && 0 <= d < pb.headdim ::
              dQ[i, d] == old(dQ[i, d]) + Sum(startN * bn, startN * bn + bn, GradQTerm(pb, dO, i, d))
    ensures forall j, d | 0 <= j < pb.Sk() && 0 <= d < pb.headdim ::
              if startN * bn <= j < startN * bn + bn
              then dK[j, d] == GradK(pb, dO, j, d) && dV[j, d] == GradV(pb, dO, j, d)
              else dK[j, d] == old(dK[j, d]) && dV[j, d] == old(dV[j, d])
  {
    hide Sum, GradK, GradV, RowSum, RowDot, TileHolds;
    var n0 := startN * bn;
    FK.EndIsMultiple(startN, bn);
    var m := BeginM(pb, startN, bm, bn);
    BeginMBounds(pb, startN, bm, bn);
    RowsBelowBeginM(pb, dO, startN, bm, bn, dim);
    var dv := seq(bn, _ => seq(dim, _ => 0.0));
    var dk := seq(bn, _ => seq(dim, _ => 0.0));
    var endM := TruncatedDivision.CeilDiv(pb.Sq(), bm) * bm;
    FK.BlocksCover(pb.Sq(), bm);
    if m < pb.Sq() {
      FK.EndIsMultiple(TruncatedDivision.CeilDiv(pb.Sq(), bm), bm);
      while m < endM
        invariant m % bm == 0 && endM % bm == 0 && BeginM(pb, startN, bm, bn) <= m <= endM
        invariant Partial(dv, m, n0, bn, dim, VTerms(pb, dO)) && Partial(dk, m, n0, bn, dim, KTerms(pb, dO))
        invariant forall i, d | 0 <= i < pb.Sq() && 0 <= d < pb.headdim ::
                    dQ[i, d] == if i < m then old(dQ[i, d]) + Sum(n0, n0 + bn, GradQTerm(pb, dO, i, d))
                                else old(dQ[i, d])
        invariant forall j, d | 0 <= j < pb.Sk() && 0 <= d < pb.headdim ::
                    dK[j, d] == old(dK[j, d]) && dV[j, d] == old(dV[j, d])
      {
        FK.WholeBlockFits(m, bm, endM);
        RowsOfTile(pb, dO, endM, lse, delta, m, bm);
        ColumnTileIsScalable(pb, startN, bm, bn, m);
        var p, ds := GradientTile(pb, dO, lse[m..m + bm], delta[m..m + bm], m, n0, bn, dim);
        TileExtendsPartial(pb, dO, p, ds, m, bm, n0, bn, dim, dv, dk);
        dv := AddColumns(dv, p, dO, m, bn, dim);
        dk := AddColumns(dk, ds, pb.q, m, bn, dim);
        AddToDQ(pb, dO, ds, m, bm, n0, bn, dQ);
        FK.NextMultiple(m, bm);
        m := m + bm;
      }
    }
    StoreColumns(pb, dv, n0, bn, dim, dV);
    StoreColumns(pb, dk, n0, bn, dim, dK);
    FinishColumn(pb, dO, m, n0, bn, dim, dv, dk);
  }

  // ---------------------------------------------------------------- all column blocks

  /** The column blocks below key n are done. */
  ghost predicate ColumnsBelow(pb: Problem, dO: seq<seq<real>>, n: int,
                               dQ: array2<real>, dK: array2<real>, dV: array2<real>)
    requires dQ.Length0 == pb.Sq() && dK.Length0 == dV.Length0 == pb.Sk()
    requires dQ.Length1 == dK.Length1 == dV.Length1 == pb.headdim
    reads dQ, dK, dV
  {
    && (forall i, d | 0 <= i < pb.Sq() && 0 <= d < pb.headdim ::
          dQ[i, d] == Sum(0, n, GradQTerm(pb, dO, i, d)))
    && (forall j, d | 0 <= j < pb.Sk() && 0 <= d < pb.headdim && j < n ::
          dK[j, d] == GradK(pb, dO, j, d) && dV[j, d] == GradV(pb, dO, j, d))
  }

  lemma NoColumnsYet(pb: Problem, dO: seq<seq<real>>, dQ: array2<real>, dK: array2<real>, dV: array2<real>)
    requires dQ.Length0 == pb.Sq() && dK.Length0 == dV.Length0 == pb.Sk()
    requires dQ.Length1 == dK.Length1 == dV.Length1 == pb.headdim
    requires forall i, d | 0 <= i < pb.Sq() && 0 <= d < pb.headdim :: dQ[i, d] == 0.0
    ensures ColumnsBelow(pb, dO, 0, dQ, dK, dV)
  {
  }

  /** Padded keys add nothing to dQ. */
  lemma KeysBeyondAddNothing(pb: Problem, dO: seq<seq<real>>, i: int, d: int, n: int)
    requires pb.Sk() <= n
    ensures Sum(0, n, GradQTerm(pb, dO, i, d)) == GradQ(pb, dO, i, d)
  {
    hide Sum;
    SumSplit(0, pb.Sk(), n, GradQTerm(pb, dO, i, d));
    SkippedKeysAddNothing(pb, dO, i, d, pb.Sk(), n);
  }

  lemma AllColumnsDone(pb: Problem, dO: seq<seq<real>>, n: int, dQ: array2<real>, dK: array2<real>, dV: array2<real>)
    requires dQ.Length0 == pb.Sq() && dK.Length0 == dV.Length0 == pb.Sk() <= n
    requires dQ.Length1 == dK.Length1 == dV.Length1 == pb.headdim
    requires ColumnsBelow(pb, dO, n, dQ, dK, dV)
    ensures forall i, d | 0 <= i < pb.Sq() && 0 <= d < pb.headdim :: dQ[i, d] == GradQ(pb, dO, i, d)
    ensures forall j, d | 0 <= j < pb.Sk() && 0 <= d < pb.headdim ::
              dK[j, d] == GradK(pb, dO, j, d) && dV[j, d] == GradV(pb, dO, j, d)
  {
    hide Sum, GradQ, GradK, GradV;
    forall i, d ensures Sum(0, n, GradQTerm(pb, dO, i, d)) == GradQ(pb, dO, i, d) {
      KeysBeyondAddNothing(pb, dO, i, d, n);
    }
  }

  /** One more column block. */
  method NextColumn(pb: Problem, dO: seq<seq<real>>, startN: nat, n0: int, lse: seq<LogReal>, delta: seq<real>,
                    bm: nat, bn: nat, dim: nat, dQ: array2<real>, dK: array2<real>, dV: array2<real>)
    requires bm > 0 && bn > 0 && FK.Usable(pb, bm, bn) && |dO| == pb.Sq() && dim >= pb.headdim
    requires n0 == startN * bn < pb.Sk()
    requires SavedRows(pb, dO, TruncatedDivision.CeilDiv(pb.Sq(), bm) * bm, lse, delta)
    requires dQ.Length0 == pb.Sq() && dK.Length0 == dV.Length0 == pb.Sk()
    requires dQ.Length1 == dK.Length1 == dV.Length1 == pb.headdim
    requires dQ != dK && dQ != dV && dK != dV && ColumnsBelow(pb, dO, n0, dQ, dK, dV)
    modifies dQ, dK, dV
    ensures ColumnsBelow(pb, dO, n0 + bn, dQ, dK, dV)
  {
    hide Sum, SavedRows, GradK, GradV, TruncatedDivision.CeilDiv, FK.Usable;
    OneColBlock(pb, dO, startN, lse, delta, bm, bn, dim, dQ, dK, dV);
    forall i, d ensures Sum(0, n0 + bn, GradQTerm(pb, dO, i, d))
                        == Sum(0, n0, GradQTerm(pb, dO, i, d)) + Sum(n0, n0 + bn, GradQTerm(pb, dO, i, d))
    {
      SumSplit(0, n0, n0 + bn, GradQTerm(pb, dO, i, d));
    }
  }

  /** The sequential branch of `_bwd_kernel`: dQ starts at zero and every column block adds to
      it; the results are exactly dS K, dS' Q and P' dO. */
  method Backward(pb: Problem, dO: seq<seq<real>>, lse: seq<LogReal>, delta: seq<real>,
                  bm: nat, bn: nat, dim: nat)
    returns (dQ: array2<real>, dK: array2<real>, dV: array2<real>)
    requires bm > 0 && bn > 0 && FK.Usable(pb, bm, bn) && |dO| == pb.Sq() && dim >= pb.headdim
    requires SavedRows(pb, dO, TruncatedDivision.CeilDiv(pb.Sq(), bm) * bm, lse, delta)
    ensures fresh(dQ) && fresh(dK) && fresh(dV)
    ensures dQ.Length0 == pb.Sq() && dK.Length0 == dV.Length0 == pb.Sk()
    ensures dQ.Length1 == dK.Length1 == dV.Length1 == pb.headdim
    ensures forall i, d | 0 <= i < pb.Sq() && 0 <= d < pb.headdim :: dQ[i, d] == GradQ(pb, dO, i, d)
    ensures forall j, d | 0 <= j < pb.Sk() && 0 <= d < pb.headdim ::
              dK[j, d] == GradK(pb, dO, j, d) && dV[j, d] == GradV(pb, dO, j, d)
  {
    hide SavedRows, GradQ, GradK, GradV, ColumnsBelow;
    dQ := new real[pb.Sq(), pb.headdim]((_, _) => 0.0);
    dK := new real[pb.Sk(), pb.headdim];
    dV := new real[pb.Sk(), pb.headdim];
    var blocks := TruncatedDivision.CeilDiv(pb.Sk(), bn);
    FK.BlocksCover(pb.Sk(), bn);
    var startN, n0 := 0, 0;
    NoColumnsYet(pb, dO, dQ, dK, dV);
    while startN < blocks
      invariant 0 <= startN <= blocks && n0 == startN * bn
      invariant ColumnsBelow(pb, dO, n0, dQ, dK, dV)
    {
      TruncatedDivision.BelowCeilDiv(startN, pb.Sk(), bn);
      NextColumn(pb, dO, startN, n0, lse, delta, bm, bn, dim, dQ, dK, dV);
      startN, n0 := startN + 1, n0 + bn;
    }
    AllColumnsDone(pb, dO, n0, dQ, dK, dV);
  }

  // ---------------------------------------------------------------- forward, then backward

  /** The whole path of a training step: forward, delta, backward.  What the forward pass saves
      is what the backward pass needs, for any block sizes that suit the buffers. */
  method ForwardThenBackward(pb: Problem, dO: seq<seq<real>>, bm: nat, bn: nat, dim: nat)
    returns (out: array2<real>, dQ: array2<real>, dK: array2<real>, dV: array2<real>)
    requires bn > 0 && FK.Usable(pb, bm, bn) && |dO| == pb.Sq() && dim >= pb.headdim && FK.FitsBuffers(pb.Sq(), bm)
    ensures out.Length0 == dQ.Length0 == pb.Sq() && dK.Length0 == dV.Length0 == pb.Sk()
    ensures out.Length1 == dQ.Length1 == dK.Length1 == dV.Length1 == pb.headdim
    ensures forall i, d | 0 <= i < pb.Sq() && 0 <= d < pb.headdim ::
              out[i, d] == Output(pb, i, d) && dQ[i, d] == GradQ(pb, dO, i, d)
    ensures forall j, d | 0 <= j < pb.Sk() && 0 <= d < pb.headdim ::
              dK[j, d] == GradK(pb, dO, j, d) && dV[j, d] == GradV(pb, dO, j, d)
  {
    hide Sum, RowSum, RowDot, Delta, Output, GradQ, GradK, GradV;
    var lse;
    out, lse := FK.Forward(pb, bm, bn, dim);
    FK.BlocksCover(pb.Sq(), bm);
    var o := seq(pb.Sq(), i requires 0 <= i < pb.Sq() == out.Length0 && out.Length1 == pb.headdim reads out =>
                   seq(pb.headdim, d requires 0 <= d < pb.headdim reads out => out[i, d]));
    var saved := lse[..];
    var delta := Preprocess(pb, o, dO, bm, dim);
    dQ, dK, dV := Backward(pb, dO, saved, delta, bm, bn, dim);
  }
}
