/** The older Triton kernels: causal self-attention with square tiles that divide the length,
    a separate maximum and norm per row, and an accumulator normalised at every step.
    `flash_attn/flash_attn_triton_og.py`. */
module OlderKernels {
  import opened RealSums
  import opened LogReals
  import opened Attention
  import opened AttentionGradient
  import FK = ForwardKernel
  import BK = BackwardKernel
  import TruncatedDivision

  /** Causal self-attention without bias, in whole tiles.  The launcher rounds the grid up and
      loads without bounds, so it is the caller who must pass a length the block divides. */
  ghost predicate Launchable(pb: Problem, b: nat) {
    && pb.WellFormed() && pb.causal && pb.bias.NoBias? && pb.Sq() == pb.Sk()
    && b > 0 && pb.Sq() % b == 0
  }

  // ---------------------------------------------------------------- forward, one row

  datatype RowState = RowState(m: LogReal, l: real, acc: seq<real>)

  function CausalScore(pb: Problem, i: int, j: int): LogReal
    requires pb.WellFormed()
  {
    if i >= j then Ln(ExpScore(pb, Dot(pb, pb.headdim, i, j), 0.0)) else NegInf
  }

  /** The forward scales first and masks afterwards, so any scale will do. */
  function Scores(pb: Problem, i: int, n0: int, b: nat): seq<LogReal>
    requires pb.WellFormed()
  {
    seq<LogReal>(b, c requires 0 <= c < b => CausalScore(pb, i, n0 + c))
  }

  lemma ScoreIsWeight(pb: Problem, i: int, j: nat)
    requires pb.WellFormed() && pb.causal && pb.bias.NoBias? && j < pb.Sk()
    ensures Exp(CausalScore(pb, i, j)) == W(pb, i, j)
  {
    hide Dot, ExpScore;
  }

  lemma ScoresAreWeights(pb: Problem, i: int, n0: nat, b: nat)
    requires pb.WellFormed() && pb.causal && pb.bias.NoBias? && n0 + b <= pb.Sk()
    ensures var s := Scores(pb, i, n0, b); |s| == b && forall c | 0 <= c < b :: Exp(s[c]) == W(pb, i, n0 + c)
  {
    hide W, CausalScore;
    forall c | 0 <= c < b ensures Exp(Scores(pb, i, n0, b)[c]) == W(pb, i, n0 + c) {
      ScoreIsWeight(pb, i, n0 + c);
    }
  }

  function ScaleAll(p: seq<real>, c: real): seq<real> {
    seq(|p|, k requires 0 <= k < |p| => p[k] * c)
  }

  /** l_i_new = alpha * l_i + beta * l_ij. */
  function NewL(st: RowState, mij: LogReal, mNew: LogReal, p: seq<real>): real
    requires mNew.Ln?
  {
    Exp(Sub(st.m, mNew)) * st.l + Exp(Sub(mij, mNew)) * Total(p)
  }

  /** acc_scale and p_scale. */
  function AccScale(st: RowState, mNew: LogReal, lNew: real): real
    requires mNew.Ln? && lNew > 0.0
  {
    st.l / lNew * Exp(Sub(st.m, mNew))
  }

  function PScale(mij: LogReal, mNew: LogReal, lNew: real): real
    requires mNew.Ln? && lNew > 0.0
  {
    Exp(Sub(mij, mNew)) / lNew
  }

  /** The loop body for one row: p, the new maximum and norm, and the rescaled accumulator. */
  function Step(pb: Problem, n0: int, s: seq<LogReal>, st: RowState): RowState
    requires RowMax(s).Ln? && NewL(st, RowMax(s), Maximum(st.m, RowMax(s)), ExpShift(s, RowMax(s))) > 0.0
  {
    var mij := RowMax(s);
    var p := ExpShift(s, mij);
    var mNew := Maximum(st.m, mij);
    var lNew := NewL(st, mij, mNew, p);
    RowState(mNew, lNew,
             FK.NewAcc(pb, pb.headdim, st.acc, AccScale(st, mNew, lNew), ScaleAll(p, PScale(mij, mNew, lNew)), n0))
  }

  function Mass(st: RowState): real { st.l * Exp(st.m) }

  function Times(acc: seq<real>, d: int, total: real): real { At(acc, d) * total }

  /** l * exp(m) is the sum of the weights so far, and the normalised accumulator times that
      sum is the weighted sum of the values. */
  ghost predicate RowInv(pb: Problem, i: int, n: int, st: RowState) {
    && |st.acc| == pb.headdim
    && Mass(st) == Sum(0, n, WTerm(pb, i))
    && (forall d | 0 <= d < pb.headdim ::
          Times(st.acc, d, Sum(0, n, WTerm(pb, i))) == Sum(0, n, FK.WVTerm(pb, i, d)))
    && st.l >= 0.0 && (st.m.Ln? ==> st.l > 0.0) && (n > 0 ==> st.m.Ln?)
  }

  /** Every visited block starts at or before the row's tile, so it shows the row a key: the
      block maximum is finite. */
  lemma BlockMaxIsFinite(pb: Problem, i: int, n0: nat, b: nat)
    requires Launchable(pb, b) && n0 <= i && n0 + b <= pb.Sk()
    ensures RowMax(Scores(pb, i, n0, b)).Ln?
  {
    var s := Scores(pb, i, n0, b);
    ScoresAreWeights(pb, i, n0, b);
    RowMaxIsGreatest(s);
    assert Exp(s[0]) == W(pb, i, n0) > 0.0 by {
      assert pb.Visible(i, n0);
    }
    assert AtMost(s[0], RowMax(s));
  }

  lemma NewLIs(st: RowState, mij: LogReal, mNew: LogReal, p: seq<real>)
    requires mNew.Ln?
    ensures NewL(st, mij, mNew, p) == Exp(Sub(st.m, mNew)) * st.l + Exp(Sub(mij, mNew)) * Total(p)
  {
  }

  lemma ExpOfFinite(a: LogReal)
    requires a.Ln?
    ensures Exp(a) == a.w
  {
  }

  lemma Combine(alpha: real, l: real, beta: real, t: real, w: real, m0: real, mij: real, s0: real, s1: real)
    requires alpha * w == m0 && beta * w == mij && l * m0 == s0 && mij * t == s1
    ensures (alpha * l + beta * t) * w == s0 + s1
  {
    assert alpha * l * w == l * (alpha * w);
    assert beta * t * w == t * (beta * w);
  }

  lemma NormCombine(st: RowState, mij: LogReal, mNew: LogReal, p: seq<real>, s0: real, s1: real)
    requires mij.Ln? && mNew.Ln? && st.l * Exp(st.m) == s0 && mij.w * Total(p) == s1
    ensures NewL(st, mij, mNew, p) * mNew.w == s0 + s1
  {
    hide *;
    NewLIs(st, mij, mNew, p);
    ExpSub(st.m, mNew);
    ExpSub(mij, mNew);
    ExpOfFinite(mij);
    Combine(Exp(Sub(st.m, mNew)), st.l, Exp(Sub(mij, mNew)), Total(p), mNew.w, Exp(st.m), mij.w, s0, s1);
  }

  /** The norm half of one step. */
  lemma NormStep(st: RowState, mij: LogReal, mNew: LogReal, p: seq<real>, n0: nat, f: int -> real)
    requires mij.Ln? && mNew == Maximum(st.m, mij) && mNew.Ln? && st.l >= 0.0
    requires st.l * Exp(st.m) == Sum(0, n0, f)
    requires forall c | 0 <= c < |p| :: At(p, c) * mij.w == f(n0 + c)
    ensures NewL(st, mij, mNew, p) * mNew.w == Sum(0, n0 + |p|, f)
  {
    hide *;
    FK.TotalOfTile(p, mij.w, n0, f);
    SumSplit(0, n0, n0 + |p|, f);
    NormCombine(st, mij, mNew, p, Sum(0, n0, f), Sum(n0, n0 + |p|, f));
  }

  lemma NewLPositive(st: RowState, mij: LogReal, mNew: LogReal, p: seq<real>)
    requires mij.Ln? && mNew == Maximum(st.m, mij) && mNew.Ln? && st.l >= 0.0
    requires Total(p) >= 1.0 && (st.m.Ln? ==> st.l > 0.0)
    ensures NewL(st, mij, mNew, p) > 0.0
  {
    hide Total;
    var alpha, beta := Exp(Sub(st.m, mNew)), Exp(Sub(mij, mNew));
    assert alpha >= 0.0 && beta > 0.0;
    assert alpha * st.l >= 0.0;
    assert beta * Total(p) > 0.0;
  }

  /** The accumulator half of one step, for one head dimension. */
  lemma AccStep(pb: Problem, i: int, n0: nat, d: int, acc: seq<real>, ratio: real, c: real,
                p: seq<real>, mij: real, before: real, after: real)
    requires 0 <= d < pb.headdim && ratio * after == before && c * after == mij
    requires At(acc, d) * before == Sum(0, n0, FK.WVTerm(pb, i, d))
    requires forall k | 0 <= k < |p| :: At(p, k) * mij == W(pb, i, n0 + k)
    ensures At(FK.NewAcc(pb, pb.headdim, acc, ratio, ScaleAll(p, c), n0), d) * after
            == Sum(0, n0 + |p|, FK.WVTerm(pb, i, d))
  {
    hide Sum, W, FK.NewAcc, FK.WVTerm;
    var scaled := ScaleAll(p, c);
    forall k | 0 <= k < |scaled| ensures At(scaled, k) * after == W(pb, i, n0 + k) {
      assert At(scaled, k) == At(p, k) * c;
      Associate(At(p, k), c, after);
    }
    FK.AccumulatorStep(pb, pb.headdim, i, n0, d, acc, ratio, before, after, scaled);
  }

  /** beta / l_new and l / l_new * alpha in multiplicative form. */
  lemma ScaleFactors(l: real, lNew: real, alpha: real, beta: real, w: real, m0: real, mij: real,
                     before: real, after: real)
    requires lNew > 0.0 && alpha * w == m0 && beta * w == mij && l * m0 == before && lNew * w == after
    ensures l / lNew * alpha * after == before && beta / lNew * after == mij
  {
    var q, r := l / lNew, beta / lNew;
    assert q * lNew == l && r * lNew == beta;
    assert q * alpha * (lNew * w) == (q * lNew) * (alpha * w);
    assert r * (lNew * w) == (r * lNew) * w;
  }

  /** The norm stays positive and keeps counting the weights. */
  lemma StepNorm(n0: nat, s: seq<LogReal>, st: RowState, f: int -> real)
    requires RowMax(s).Ln? && s != [] && st.l >= 0.0 && (st.m.Ln? ==> st.l > 0.0)
    requires Mass(st) == Sum(0, n0, f) && forall c | 0 <= c < |s| :: Exp(s[c]) == f(n0 + c)
    ensures var mij := RowMax(s);
            var mNew := Maximum(st.m, mij);
            && mNew.Ln?
            && NewL(st, mij, mNew, ExpShift(s, mij)) > 0.0
            && NewL(st, mij, mNew, ExpShift(s, mij)) * mNew.w == Sum(0, n0 + |s|, f)
  {
    hide Sum, Total, Sub, ExpShift, At, NewL, RowMax;
    var mij := RowMax(s);
    var p, mNew := ExpShift(s, mij), Maximum(st.m, mij);
    RowMaxIsGreatest(s);
    FK.ShiftedEntries(s, mij);
    FK.TotalFloor(p);
    NewLPositive(st, mij, mNew, p);
    NormStep(st, mij, mNew, p, n0, f);
  }

  lemma StepFactors(st: RowState, mij: LogReal, mNew: LogReal, lNew: real, before: real, after: real)
    requires mij.Ln? && mNew.Ln? && lNew > 0.0
    requires Mass(st) == before && lNew * Exp(mNew) == after
    ensures AccScale(st, mNew, lNew) * after == before && PScale(mij, mNew, lNew) * after == mij.w
  {
    hide Sub;
    ExpSub(st.m, mNew);
    ExpSub(mij, mNew);
    ScaleFactors(st.l, lNew, Exp(Sub(st.m, mNew)), Exp(Sub(mij, mNew)), mNew.w, Exp(st.m), mij.w, before, after);
  }

  /** The rescaled accumulator keeps counting the weighted values. */
  lemma StepAcc(pb: Problem, i: int, n0: nat, s: seq<LogReal>, st: RowState, d: int, lNew: real, before: real,
                after: real)
    requires RowMax(s).Ln? && 0 <= d < pb.headdim && lNew > 0.0
    requires forall c | 0 <= c < |s| :: Exp(s[c]) == W(pb, i, n0 + c)
    requires Mass(st) == before && lNew * Exp(Maximum(st.m, RowMax(s))) == after
    requires Times(st.acc, d, before) == Sum(0, n0, FK.WVTerm(pb, i, d))
    ensures var mij := RowMax(s);
            var mNew := Maximum(st.m, mij);
            var scaled := ScaleAll(ExpShift(s, mij), PScale(mij, mNew, lNew));
            Times(FK.NewAcc(pb, pb.headdim, st.acc, AccScale(st, mNew, lNew), scaled, n0), d, after)
            == Sum(0, n0 + |s|, FK.WVTerm(pb, i, d))
  {
    hide Sum, W, FK.WVTerm, ExpShift, At, FK.NewAcc, ScaleAll, RowMax, AccScale, PScale, Mass;
    var mij := RowMax(s);
    var mNew := Maximum(st.m, mij);
    RowMaxIsGreatest(s);
    FK.ShiftedEntries(s, mij);
    StepFactors(st, mij, mNew, lNew, before, after);
    AccStep(pb, i, n0, d, st.acc, AccScale(st, mNew, lNew), PScale(mij, mNew, lNew),
            ExpShift(s, mij), mij.w, before, after);
  }

  lemma AccLength(pb: Problem, n0: int, s: seq<LogReal>, st: RowState)
    requires RowMax(s).Ln? && NewL(st, RowMax(s), Maximum(st.m, RowMax(s)), ExpShift(s, RowMax(s))) > 0.0
    ensures |Step(pb, n0, s, st).acc| == pb.headdim
  {
    hide Sum, Total, NewL, RowMax;
  }

  /** One iteration keeps the row invariant. */
  lemma StepKeepsInv(pb: Problem, i: int, n0: nat, s: seq<LogReal>, st: RowState)
    requires RowInv(pb, i, n0, st) && RowMax(s).Ln? && s != []
    requires forall c | 0 <= c < |s| :: Exp(s[c]) == W(pb, i, n0 + c)
    ensures NewL(st, RowMax(s), Maximum(st.m, RowMax(s)), ExpShift(s, RowMax(s))) > 0.0
    ensures RowInv(pb, i, n0 + |s|, Step(pb, n0, s, st))
  {
    hide Sum, W, FK.WVTerm, Sub, ExpShift, FK.NewAcc, ScaleAll, NewL, RowMax, Times, AccScale, PScale;
    var mij := RowMax(s);
    var lNew := NewL(st, mij, Maximum(st.m, mij), ExpShift(s, mij));
    StepNorm(n0, s, st, WTerm(pb, i)) by {
      forall c | 0 <= c < |s| ensures Exp(s[c]) == WTerm(pb, i)(n0 + c) {}
    }
    AccLength(pb, n0, s, st);
    forall d | 0 <= d < pb.headdim
      ensures Times(Step(pb, n0, s, st).acc, d, Sum(0, n0 + |s|, WTerm(pb, i)))
              == Sum(0, n0 + |s|, FK.WVTerm(pb, i, d))
    {
      StepAcc(pb, i, n0, s, st, d, lNew, Sum(0, n0, WTerm(pb, i)), Sum(0, n0 + |s|, WTerm(pb, i)));
    }
  }

  lemma RowStart(pb: Problem, i: int)
    ensures RowInv(pb, i, 0, RowState(NegInf, 0.0, seq(pb.headdim, _ => 0.0)))
  {
  }

  // ---------------------------------------------------------------- forward, one tile

  /** A finished row: l * exp(m) is the row sum, and the accumulator is the output already. */
  ghost predicate RowDone(pb: Problem, i: int, st: RowState) {
    && RowSum(pb, i) > 0.0
    && st.m.Ln? && st.l > 0.0 && st.l * st.m.w == RowSum(pb, i)
    && |st.acc| == pb.headdim
    && forall d | 0 <= d < pb.headdim :: At(st.acc, d) == Output(pb, i, d)
  }

  lemma RowFinishes(pb: Problem, i: nat, n: nat, st: RowState)
    requires pb.WellFormed() && pb.causal && RowInv(pb, i, n, st) && i < n
    ensures RowDone(pb, i, st)
  {
    hide Sum, RowSum, Output, FK.WVTerm;
    RowSumPositive(pb, i);
    FK.VisitedKeysSuffice(pb, i, n);
    forall d | 0 <= d < pb.headdim ensures At(st.acc, d) == Output(pb, i, d) {
      FK.OutputFromWeights(pb, i, d);
      CancelFactor(RowSum(pb, i), At(st.acc, d), Output(pb, i, d));
    }
  }

  /** The loop body: one key block for all rows of the tile. */
  method Iterate(pb: Problem, b: nat, m0: nat, n: nat, rows: seq<RowState>) returns (rows': seq<RowState>)
    requires Launchable(pb, b) && n <= m0 && n + b <= pb.Sk()
    requires forall r | 0 <= r < |rows| :: RowInv(pb, m0 + r, n, rows[r])
    ensures |rows'| == |rows| && forall r | 0 <= r < |rows| :: RowInv(pb, m0 + r, n + b, rows'[r])
  {
    hide Sum, RowInv, Step, NewL, RowMax, ExpShift, Scores, W;
    var s := seq(|rows|, r requires 0 <= r < |rows| => Scores(pb, m0 + r, n, b));
    forall r | 0 <= r < |rows|
      ensures RowMax(s[r]).Ln?
      ensures NewL(rows[r], RowMax(s[r]), Maximum(rows[r].m, RowMax(s[r])), ExpShift(s[r], RowMax(s[r]))) > 0.0
      ensures RowInv(pb, m0 + r, n + b, Step(pb, n, s[r], rows[r]))
    {
      BlockMaxIsFinite(pb, m0 + r, n, b);
      ScoresAreWeights(pb, m0 + r, n, b);
      StepKeepsInv(pb, m0 + r, n, s[r], rows[r]);
    }
    rows' := seq(|rows|, r requires 0 <= r < |rows| && RowMax(s[r]).Ln?
                           && NewL(rows[r], RowMax(s[r]), Maximum(rows[r].m, RowMax(s[r])),
                                   ExpShift(s[r], RowMax(s[r]))) > 0.0 => Step(pb, n, s[r], rows[r]));
  }

  /** One program of the grid: the rows of tile startM.  The separate (m, l) form computes the
      same output as the log-sum-exp form, without a final rescaling. */
  method ForwardTile(pb: Problem, b: nat, startM: nat) returns (rows: seq<RowState>)
    requires Launchable(pb, b) && (startM + 1) * b <= pb.Sq()
    ensures |rows| == b
    ensures forall r | 0 <= r < b :: RowDone(pb, startM * b + r, rows[r])
  {
    hide Sum, RowDone, RowInv;
    var m0 := startM * b;
    assert (startM + 1) * b == m0 + b;
    rows := seq(b, _ => RowState(NegInf, 0.0, seq(pb.headdim, _ => 0.0)));
    var n := 0;
    FK.EndIsMultiple(startM, b);
    forall r | 0 <= r < b ensures RowInv(pb, m0 + r, 0, rows[r]) { RowStart(pb, m0 + r); }
    while n < m0 + b
      invariant 0 <= n <= m0 + b && n % b == 0 && |rows| == b
      invariant forall r | 0 <= r < b :: RowInv(pb, m0 + r, n, rows[r])
    {
      FK.NextMultiple(m0, b);
      FK.WholeBlockFits(n, b, m0 + b);
      rows := Iterate(pb, b, m0, n, rows);
      FK.NextMultiple(n, b);
      n := n + b;
    }
    forall r | 0 <= r < b ensures RowDone(pb, m0 + r, rows[r]) {
      RowFinishes(pb, m0 + r, n, rows[r]);
    }
  }

  // ---------------------------------------------------------------- backward

  /** What the forward pass saved for every row: the norm l, the reference m and the output o. */
  datatype Saved = Saved(l: seq<real>, m: seq<LogReal>, o: seq<seq<real>>)

  ghost predicate SavedByForward(pb: Problem, sv: Saved) {
    && |sv.l| == |sv.m| == pb.Sq() && Shaped(sv.o, pb.Sq(), pb.headdim)
    && (forall i | 0 <= i < pb.Sq() ::
          RowSum(pb, i) > 0.0 && sv.m[i].Ln? && sv.l[i] > 0.0 && sv.l[i] * sv.m[i].w == RowSum(pb, i))
    && (forall i, d | 0 <= i < pb.Sq() && 0 <= d < pb.headdim :: sv.o[i][d] == Output(pb, i, d))
  }

  lemma TilesFit(pb: Problem, b: nat, startM: nat)
    requires Launchable(pb, b)
    ensures b > 0 && (startM + 1) * b == startM * b + b
    ensures startM * b < pb.Sq() ==> (startM + 1) * b <= pb.Sq()
  {
    FK.EndIsMultiple(startM, b);
    if startM * b < pb.Sq() { FK.WholeBlockFits(startM * b, b, pb.Sq()); }
  }

  function SaveRows(rows: seq<RowState>): Saved {
    Saved(seq(|rows|, i requires 0 <= i < |rows| => rows[i].l),
          seq(|rows|, i requires 0 <= i < |rows| => rows[i].m),
          seq(|rows|, i requires 0 <= i < |rows| => rows[i].acc))
  }

  lemma DoneRowHolds(pb: Problem, i: int, st: RowState)
    requires RowDone(pb, i, st)
    ensures RowSum(pb, i) > 0.0 && st.m.Ln? && st.l > 0.0 && st.l * st.m.w == RowSum(pb, i)
    ensures |st.acc| == pb.headdim && forall d | 0 <= d < pb.headdim :: st.acc[d] == Output(pb, i, d)
  {
    hide RowSum, Output;
    forall d | 0 <= d < pb.headdim ensures st.acc[d] == Output(pb, i, d) {
      assert At(st.acc, d) == Output(pb, i, d);
    }
  }

  lemma RowsAreSaved(pb: Problem, rows: seq<RowState>)
    requires |rows| == pb.Sq() && forall i | 0 <= i < |rows| :: RowDone(pb, i, rows[i])
    ensures SavedByForward(pb, SaveRows(rows))
  {
    hide RowSum, Output, RowDone;
    var sv := SaveRows(rows);
    forall i | 0 <= i < pb.Sq()
      ensures RowSum(pb, i) > 0.0 && sv.m[i].Ln? && sv.l[i] > 0.0 && sv.l[i] * sv.m[i].w == RowSum(pb, i)
      ensures |sv.o[i]| == pb.headdim && forall d | 0 <= d < pb.headdim :: sv.o[i][d] == Output(pb, i, d)
    {
      DoneRowHolds(pb, i, rows[i]);
    }
  }

  /** The whole grid: every tile's rows, written back at their place. */
  method Forward(pb: Problem, b: nat) returns (sv: Saved)
    requires Launchable(pb, b)
    ensures SavedByForward(pb, sv)
  {
    hide Launchable, RowDone, SavedByForward;
    var rows: seq<RowState> := [];
    var startM := 0;
    TilesFit(pb, b, startM);
    while |rows| < pb.Sq()
      invariant |rows| == startM * b && |rows| <= pb.Sq()
      invariant forall i | 0 <= i < |rows| :: RowDone(pb, i, rows[i])
      decreases pb.Sq() - |rows|
    {
      TilesFit(pb, b, startM);
      var tile := ForwardTile(pb, b, startM);
      rows := rows + tile;
      startM := startM + 1;
    }
    RowsAreSaved(pb, rows);
    sv := SaveRows(rows);
  }

  /** The backward masks first and scales afterwards, so its masks need a positive scale, unless
      tiles are single pairs, of which none is masked. */
  ghost predicate BackwardReady(pb: Problem, b: nat) { Launchable(pb, b) && (pb.scale > 0.0 || b == 1) }

  function DividedRow(row: seq<real>, l: real): seq<real>
    requires l > 0.0
  {
    seq(|row|, d requires 0 <= d < |row| => row[d] / l)
  }

  /** The preprocessed quantities in multiplicative form. */
  ghost predicate Divided(pb: Problem, dO: seq<seq<real>>, sv: Saved, newDO: seq<seq<real>>, delta: seq<real>) {
    && |newDO| == |delta| == |sv.l| == pb.Sq()
    && (forall i, d | 0 <= i < pb.Sq() :: Load(newDO, i, d) * sv.l[i] == Load(dO, i, d))
    && (forall i | 0 <= i < pb.Sq() :: delta[i] * sv.l[i] == RowDot(pb, dO, i))
  }

  lemma MoveFactor(a: real, b: real, c: real)
    ensures a * (b * c) == c * (a * b)
  {
  }

  lemma DeltaTimesL(pb: Problem, dO: seq<seq<real>>, sv: Saved, newDO: seq<seq<real>>, i: int)
    requires SavedByForward(pb, sv) && 0 <= i < pb.Sq()
    requires forall d :: Load(newDO, i, d) * sv.l[i] == Load(dO, i, d)
    ensures BK.Delta(sv.o, newDO, pb.headdim, i) * sv.l[i] == RowDot(pb, dO, i)
  {
    hide Sum, RowSum, Output;
    var f, g := BK.DeltaTerm(sv.o, newDO, i), ODOTerm(pb, dO, i);
    forall d | 0 <= d < pb.headdim ensures g(d) == sv.l[i] * f(d) {
      assert Load(sv.o, i, d) == Output(pb, i, d);
      MoveFactor(Load(sv.o, i, d), Load(newDO, i, d), sv.l[i]);
    }
    SumScale(0, pb.headdim, sv.l[i], f, g);
    DeltaTrick(pb, dO, i);
  }

  /** `_bwd_preprocess`: dO divided by l, and delta taken with the divided dO. */
  method Preprocess(pb: Problem, dO: seq<seq<real>>, sv: Saved) returns (newDO: seq<seq<real>>, delta: seq<real>)
    requires SavedByForward(pb, sv) && Shaped(dO, pb.Sq(), pb.headdim)
    ensures Divided(pb, dO, sv, newDO, delta)
  {
    hide Sum, RowSum, RowDot, Output, BK.Delta;
    newDO := seq(pb.Sq(), i requires 0 <= i < pb.Sq() && sv.l[i] > 0.0 => DividedRow(dO[i], sv.l[i]));
    delta := seq(pb.Sq(), i requires 0 <= i < pb.Sq() => BK.Delta(sv.o, newDO, pb.headdim, i));
    forall i, d | 0 <= i < pb.Sq() ensures Load(newDO, i, d) * sv.l[i] == Load(dO, i, d) {
      if 0 <= d < pb.headdim { QuotientTimes(dO[i][d], sv.l[i]); }
    }
    forall i | 0 <= i < pb.Sq() ensures delta[i] * sv.l[i] == RowDot(pb, dO, i) {
      DeltaTimesL(pb, dO, sv, newDO, i);
    }
  }

  lemma CancelScale(w: real, x: real, p: real, l: real)
    requires w > 0.0 && x * w == l * w * p
    ensures x == p * l
  {
    assert w * (x - p * l) == 0.0;
  }

  /** The unnormalised probability is l times the probability. */
  lemma ProbIsScaled(pb: Problem, i: int, j: int, score: LogReal, m: LogReal, l: real)
    requires m.Ln? && l * m.w == RowSum(pb, i) && RowSum(pb, i) > 0.0 && Exp(score) == W(pb, i, j)
    ensures Exp(Sub(score, m)) == P(pb, i, j) * l
  {
    hide Sum, P, W, Sub, RowSum;
    ExpSub(score, m);
    ProbabilityTimesSum(pb, i, j);
    MoveFactor(P(pb, i, j), l, m.w);
    CancelScale(m.w, Exp(Sub(score, m)), P(pb, i, j), l);
  }

  /** Dividing dO by l and leaving p unnormalised cancel: the dV term of the newer form. */
  lemma SameValueTerm(p: real, l: real, x: real, y: real)
    requires x * l == y
    ensures p * l * x == p * y
  {
  }

  /** ... and so does its dS. */
  lemma SameScoreGradient(x: real, p: real, l: real, dp: real, delta: real, dpFull: real, dot: real, scale: real)
    requires x == p * l && dp * l == dpFull && delta * l == dot
    ensures ScoreGradient(x, dp, delta, scale) == ScoreGradient(p, dpFull, dot, scale)
  {
    assert (dp - delta) * l == dpFull - dot;
    assert p * l * (dp - delta) == p * ((dp - delta) * l);
  }

  lemma DPTimesL(pb: Problem, dO: seq<seq<real>>, newDO: seq<seq<real>>, i: int, j: int, l: real)
    requires forall d :: Load(newDO, i, d) * l == Load(dO, i, d)
    ensures DP(pb, pb.headdim, newDO, i, j) * l == DP(pb, pb.headdim, dO, i, j)
  {
    hide Sum, Load;
    var f, g := DPTerm(pb, newDO, i, j), DPTerm(pb, dO, i, j);
    forall d ensures g(d) == l * f(d) { Reassociate(Load(newDO, i, d), l, Load(pb.v, j, d)); }
    SumScale(0, pb.headdim, l, f, g);
  }

  /** p for one row: not normalised, because dO is divided by l instead. */
  function ProbRow(pb: Problem, i: int, n0: int, b: nat, m: LogReal): seq<real>
    requires pb.WellFormed() && m.Ln? && FK.Scalable(pb, FK.RawRow(pb, pb.headdim, true, i, n0, b))
  {
    ExpShift(FK.ScoreRow(pb, i, n0, FK.RawRow(pb, pb.headdim, true, i, n0, b)), m)
  }

  lemma ProbRowIsScaled(pb: Problem, i: int, n0: nat, b: nat, m: LogReal, l: real)
    requires BackwardReady(pb, b) && n0 + b <= pb.Sk() && m.Ln?
    requires FK.Scalable(pb, FK.RawRow(pb, pb.headdim, true, i, n0, b))
    requires RowSum(pb, i) > 0.0 && l * m.w == RowSum(pb, i)
    ensures var p := ProbRow(pb, i, n0, b, m);
            |p| == b && forall c | 0 <= c < b :: At(p, c) == P(pb, i, n0 + c) * l
  {
    hide Sum, P, RowSum, W, FK.ScoreRow;
    FK.ScoresAreWeights(pb, pb.headdim, true, i, n0, b);
    var s := FK.ScoreRow(pb, i, n0, FK.RawRow(pb, pb.headdim, true, i, n0, b));
    forall c | 0 <= c < b ensures At(ExpShift(s, m), c) == P(pb, i, n0 + c) * l {
      ProbIsScaled(pb, i, n0 + c, s[c], m, l);
    }
  }

  lemma DSRowIsGradient(pb: Problem, dO: seq<seq<real>>, newDO: seq<seq<real>>, i: int, n0: nat,
                        p: seq<real>, l: real, delta: real)
    requires forall d :: Load(newDO, i, d) * l == Load(dO, i, d)
    requires delta * l == RowDot(pb, dO, i) && forall c | 0 <= c < |p| :: At(p, c) == P(pb, i, n0 + c) * l
    ensures var ds := BK.DSRow(pb, pb.headdim, newDO, i, n0, p, delta);
            |ds| == |p| && forall c | 0 <= c < |p| :: At(ds, c) == DS(pb, dO, i, n0 + c)
  {
    hide Sum, P, RowDot, DP, ScoreGradient, Load;
    forall c | 0 <= c < |p|
      ensures At(BK.DSRow(pb, pb.headdim, newDO, i, n0, p, delta), c) == DS(pb, dO, i, n0 + c)
    {
      var j := n0 + c;
      DPTimesL(pb, dO, newDO, i, j, l);
      assert p[c] == At(p, c);
      SameScoreGradient(p[c], P(pb, i, j), l, DP(pb, pb.headdim, newDO, i, j), delta,
                        DP(pb, pb.headdim, dO, i, j), RowDot(pb, dO, i), pb.scale);
      assert At(BK.DSRow(pb, pb.headdim, newDO, i, n0, p, delta), c)
          == ScoreGradient(p[c], DP(pb, pb.headdim, newDO, i, j), delta, pb.scale);
    }
  }

  lemma GradientRow(pb: Problem, dO: seq<seq<real>>, sv: Saved, newDO: seq<seq<real>>, delta: seq<real>,
                    i: nat, n0: nat, b: nat)
    requires BackwardReady(pb, b) && SavedByForward(pb, sv) && Divided(pb, dO, sv, newDO, delta)
    requires i < pb.Sq() && n0 + b <= pb.Sk()
    requires FK.Scalable(pb, FK.RawRow(pb, pb.headdim, true, i, n0, b))
    ensures |sv.l| == |sv.m| == |delta| == pb.Sq() && sv.m[i].Ln?
    ensures var p := ProbRow(pb, i, n0, b, sv.m[i]);
            var ds := BK.DSRow(pb, pb.headdim, newDO, i, n0, p, delta[i]);
            && |p| == |ds| == b
            && (forall c | 0 <= c < b :: At(p, c) == P(pb, i, n0 + c) * sv.l[i])
            && (forall c | 0 <= c < b :: At(ds, c) == DS(pb, dO, i, n0 + c))
  {
    hide Sum, P, DS, RowSum, RowDot, BK.DSRow, Output, ProbRow, FK.Scalable, FK.RawRow;
    ProbRowIsScaled(pb, i, n0, b, sv.m[i], sv.l[i]);
    DSRowIsGradient(pb, dO, newDO, i, n0, ProbRow(pb, i, n0, b, sv.m[i]), sv.l[i], delta[i]);
  }

  lemma SavedShapes(pb: Problem, b: nat, dO: seq<seq<real>>, sv: Saved, newDO: seq<seq<real>>, delta: seq<real>)
    requires BackwardReady(pb, b) && SavedByForward(pb, sv) && Divided(pb, dO, sv, newDO, delta)
    ensures pb.WellFormed() && |sv.l| == |sv.m| == |delta| == pb.Sq()
    ensures forall i | 0 <= i < pb.Sq() :: sv.m[i].Ln?
  {
    hide RowSum, RowDot, Output;
  }

  /** p and ds of one tile: p not normalised, ds from the divided dO. */
  method GradientTile(pb: Problem, ghost dO: seq<seq<real>>, sv: Saved, newDO: seq<seq<real>>, delta: seq<real>,
                      m0: nat, n0: nat, b: nat)
    returns (p: seq<seq<real>>, ds: seq<seq<real>>)
    requires BackwardReady(pb, b) && SavedByForward(pb, sv) && Divided(pb, dO, sv, newDO, delta)
    requires m0 + b <= pb.Sq() && n0 + b <= pb.Sk() && FK.TileScalable(pb, m0, b, n0, b)
    ensures BK.TileHolds(pb, ds, m0, b, b, n0, BK.DSEntry(pb, dO))
    ensures |p| == b && forall r, c | 0 <= r < b && 0 <= c < b ::
              Load(p, r, c) == P(pb, m0 + r, n0 + c) * sv.l[m0 + r]
  {
    hide Sum, P, DS, RowSum, RowDot, FK.ScoreRow, ExpShift, BK.DSRow, Output, ProbRow;
    hide SavedByForward, Divided, BackwardReady, FK.Scalable, FK.TileScalable, FK.RawRow, Problem.WellFormed;
    SavedShapes(pb, b, dO, sv, newDO, delta);
    var raw := seq(b, r requires 0 <= r < b => FK.RawRow(pb, pb.headdim, true, m0 + r, n0, b));
    forall r | 0 <= r < b ensures FK.Scalable(pb, raw[r]) {
      FK.RowIsScalable(pb, pb.headdim, true, m0, b, m0 + r, n0, b);
    }
    p := seq(b, r requires 0 <= r < b && sv.m[m0 + r].Ln? && FK.Scalable(pb, raw[r]) =>
      ProbRow(pb, m0 + r, n0, b, sv.m[m0 + r]));
    ds := seq(b, r requires 0 <= r < b => BK.DSRow(pb, pb.headdim, newDO, m0 + r, n0, p[r], delta[m0 + r]));
    forall r | 0 <= r < b
      ensures |p[r]| == |ds[r]| == b
      ensures forall c | 0 <= c < b :: At(p[r], c) == P(pb, m0 + r, n0 + c) * sv.l[m0 + r]
      ensures forall c | 0 <= c < b :: At(ds[r], c) == DS(pb, dO, m0 + r, n0 + c)
    {
      assert FK.Scalable(pb, raw[r]);
      GradientRow(pb, dO, sv, newDO, delta, m0 + r, n0, b);
    }
  }

  /** One row tile extends the partial sums of dV and dK. */
  lemma TileExtendsPartial(pb: Problem, dO: seq<seq<real>>, sv: Saved, newDO: seq<seq<real>>, delta: seq<real>,
                           p: seq<seq<real>>, ds: seq<seq<real>>, m0: nat, n0: nat, b: nat,
                           dv: seq<seq<real>>, dk: seq<seq<real>>)
    requires Divided(pb, dO, sv, newDO, delta) && m0 + b <= pb.Sq()
    requires BK.TileHolds(pb, ds, m0, b, b, n0, BK.DSEntry(pb, dO))
    requires |p| == b && forall r, c | 0 <= r < b && 0 <= c < b ::
               Load(p, r, c) == P(pb, m0 + r, n0 + c) * sv.l[m0 + r]
    requires BK.Partial(dv, m0, n0, b, pb.headdim, BK.VTerms(pb, dO))
    requires BK.Partial(dk, m0, n0, b, pb.headdim, BK.KTerms(pb, dO))
    ensures BK.Partial(BK.AddColumns(dv, p, newDO, m0, b, pb.headdim), m0 + b, n0, b, pb.headdim, BK.VTerms(pb, dO))
    ensures BK.Partial(BK.AddColumns(dk, ds, pb.q, m0, b, pb.headdim), m0 + b, n0, b, pb.headdim, BK.KTerms(pb, dO))
  {
    hide Sum, P, DS, BK.AddColumns;
    forall c, d | 0 <= c < b && 0 <= d < pb.headdim
      ensures Load(BK.AddColumns(dv, p, newDO, m0, b, pb.headdim), c, d) == Sum(0, m0 + b, GradVTerm(pb, dO, n0 + c, d))
      ensures Load(BK.AddColumns(dk, ds, pb.q, m0, b, pb.headdim), c, d) == Sum(0, m0 + b, GradKTerm(pb, dO, n0 + c, d))
    {
      forall r | 0 <= r < b
        ensures BK.ColumnTerm(p, newDO, m0, c, d)(r) == GradVTerm(pb, dO, n0 + c, d)(m0 + r)
        ensures BK.ColumnTerm(ds, pb.q, m0, c, d)(r) == GradKTerm(pb, dO, n0 + c, d)(m0 + r)
      {
        SameValueTerm(P(pb, m0 + r, n0 + c), sv.l[m0 + r], Load(newDO, m0 + r, d), Load(dO, m0 + r, d));
      }
      BK.AddColumnsEntry(dv, p, newDO, m0, b, pb.headdim, c, d, GradVTerm(pb, dO, n0 + c, d));
      BK.AddColumnsEntry(dk, ds, pb.q, m0, b, pb.headdim, c, d, GradKTerm(pb, dO, n0 + c, d));
    }
  }

  lemma LowerTileIsScalable(pb: Problem, m0: nat, n0: nat, b: nat)
    requires BackwardReady(pb, b) && n0 <= m0 && n0 + b <= pb.Sk()
    ensures FK.TileScalable(pb, m0, b, n0, b)
  {
  }

  /** One column block of `_bwd_kernel`. */
  method BackwardColumn(pb: Problem, ghost dO: seq<seq<real>>, sv: Saved, newDO: seq<seq<real>>, delta: seq<real>,
                        startN: nat, n0: nat, b: nat, dQ: array2<real>, dK: array2<real>, dV: array2<real>)
    requires BackwardReady(pb, b) && SavedByForward(pb, sv) && Divided(pb, dO, sv, newDO, delta) && |dO| == pb.Sq()
    requires n0 == startN * b && n0 + b <= pb.Sk()
    requires dQ.Length0 == pb.Sq() && dK.Length0 == dV.Length0 == pb.Sk()
    requires dQ.Length1 == dK.Length1 == dV.Length1 == pb.headdim
    requires dQ != dK && dQ != dV && dK != dV
    modifies dQ, dK, dV
    ensures forall i, d | 0 <= i < pb.Sq() && 0 <= d < pb.headdim ::
              dQ[i, d] == old(dQ[i, d]) + Sum(n0, n0 + b, GradQTerm(pb, dO, i, d))
    ensures forall j, d | 0 <= j < pb.Sk() && 0 <= d < pb.headdim ::
              if n0 <= j < n0 + b then dK[j, d] == GradK(pb, dO, j, d) && dV[j, d] == GradV(pb, dO, j, d)
              else dK[j, d] == old(dK[j, d]) && dV[j, d] == old(dV[j, d])
  {
    hide Sum, GradK, GradV, RowSum, RowDot, BK.TileHolds, P, Divided, SavedByForward;
    var dv := seq(b, _ => seq(pb.headdim, _ => 0.0));
    var dk := seq(b, _ => seq(pb.headdim, _ => 0.0));
    FK.EndIsMultiple(startN, b);
    BK.RowsBelowBeginM(pb, dO, startN, b, b, pb.headdim);
    assert BK.BeginM(pb, startN, b, b) == n0;
    var m := n0;
    while m < pb.Sq()
      invariant m % b == 0 && n0 <= m <= pb.Sq()
      invariant BK.Partial(dv, m, n0, b, pb.headdim, BK.VTerms(pb, dO))
      invariant BK.Partial(dk, m, n0, b, pb.headdim, BK.KTerms(pb, dO))
      invariant forall i, d | 0 <= i < pb.Sq() && 0 <= d < pb.headdim ::
                  dQ[i, d] == if i < m then old(dQ[i, d]) + Sum(n0, n0 + b, GradQTerm(pb, dO, i, d))
                              else old(dQ[i, d])
      invariant forall j, d | 0 <= j < pb.Sk() && 0 <= d < pb.headdim ::
                  dK[j, d] == old(dK[j, d]) && dV[j, d] == old(dV[j, d])
    {
      FK.WholeBlockFits(m, b, pb.Sq());
      LowerTileIsScalable(pb, m, n0, b);
      var p, ds := GradientTile(pb, dO, sv, newDO, delta, m, n0, b);
      TileExtendsPartial(pb, dO, sv, newDO, delta, p, ds, m, n0, b, dv, dk);
      dv := BK.AddColumns(dv, p, newDO, m, b, pb.headdim);
      dk := BK.AddColumns(dk, ds, pb.q, m, b, pb.headdim);
      BK.AddToDQ(pb, dO, ds, m, b, n0, b, dQ);
      FK.NextMultiple(m, b);
      m := m + b;
    }
    BK.StoreColumns(pb, dv, n0, b, pb.headdim, dV);
    BK.StoreColumns(pb, dk, n0, b, pb.headdim, dK);
    BK.FinishColumn(pb, dO, m, n0, b, pb.headdim, dv, dk);
  }

  method NextColumn(pb: Problem, ghost dO: seq<seq<real>>, sv: Saved, newDO: seq<seq<real>>, delta: seq<real>,
                    startN: nat, n0: nat, b: nat, dQ: array2<real>, dK: array2<real>, dV: array2<real>)
    requires BackwardReady(pb, b) && SavedByForward(pb, sv) && Divided(pb, dO, sv, newDO, delta) && |dO| == pb.Sq()
    requires n0 == startN * b && n0 + b <= pb.Sk()
    requires dQ.Length0 == pb.Sq() && dK.Length0 == dV.Length0 == pb.Sk()
    requires dQ.Length1 == dK.Length1 == dV.Length1 == pb.headdim
    requires dQ != dK && dQ != dV && dK != dV && BK.ColumnsBelow(pb, dO, n0, dQ, dK, dV)
    modifies dQ, dK, dV
    ensures BK.ColumnsBelow(pb, dO, n0 + b, dQ, dK, dV)
  {
    hide Sum, GradK, GradV, Divided, SavedByForward, BackwardReady;
    BackwardColumn(pb, dO, sv, newDO, delta, startN, n0, b, dQ, dK, dV);
    forall i, d ensures Sum(0, n0 + b, GradQTerm(pb, dO, i, d))
                        == Sum(0, n0, GradQTerm(pb, dO, i, d)) + Sum(n0, n0 + b, GradQTerm(pb, dO, i, d))
    {
      SumSplit(0, n0, n0 + b, GradQTerm(pb, dO, i, d));
    }
  }

  /** Preprocessing and all column blocks: the same dQ, dK and dV as the log-sum-exp form. */
  method Backward(pb: Problem, dO: seq<seq<real>>, sv: Saved, b: nat)
    returns (dQ: array2<real>, dK: array2<real>, dV: array2<real>)
    requires BackwardReady(pb, b) && SavedByForward(pb, sv) && Shaped(dO, pb.Sq(), pb.headdim)
    ensures dQ.Length0 == pb.Sq() && dK.Length0 == dV.Length0 == pb.Sk()
    ensures dQ.Length1 == dK.Length1 == dV.Length1 == pb.headdim
    ensures forall i, d | 0 <= i < pb.Sq() && 0 <= d < pb.headdim :: dQ[i, d] == GradQ(pb, dO, i, d)
    ensures forall j, d | 0 <= j < pb.Sk() && 0 <= d < pb.headdim ::
              dK[j, d] == GradK(pb, dO, j, d) && dV[j, d] == GradV(pb, dO, j, d)
  {
    hide SavedByForward, Divided, GradQ, GradK, GradV, BK.ColumnsBelow;
    var newDO, delta := Preprocess(pb, dO, sv);
    dQ := new real[pb.Sq(), pb.headdim]((_, _) => 0.0);
    dK := new real[pb.Sk(), pb.headdim];
    dV := new real[pb.Sk(), pb.headdim];
    var startN, n0 := 0, 0;
    BK.NoColumnsYet(pb, dO, dQ, dK, dV);
    while n0 < pb.Sk()
      invariant n0 == startN * b && n0 % b == 0 && n0 <= pb.Sk()
      invariant BK.ColumnsBelow(pb, dO, n0, dQ, dK, dV)
    {
      FK.WholeBlockFits(n0, b, pb.Sk());
      NextColumn(pb, dO, sv, newDO, delta, startN, n0, b, dQ, dK, dV);
      FK.NextMultiple(n0, b);
      startN, n0 := startN + 1, n0 + b;
    }
    BK.AllColumnsDone(pb, dO, n0, dQ, dK, dV);
  }

  /** The two older kernels in sequence give the same output and the same gradients as the
      log-sum-exp kernels. */
  method ForwardThenBackward(pb: Problem, dO: seq<seq<real>>, b: nat)
    returns (o: seq<seq<real>>, dQ: array2<real>, dK: array2<real>, dV: array2<real>)
    requires BackwardReady(pb, b) && Shaped(dO, pb.Sq(), pb.headdim)
    ensures Shaped(o, pb.Sq(), pb.headdim)
    ensures dQ.Length0 == pb.Sq() && dK.Length0 == dV.Length0 == pb.Sk()
    ensures dQ.Length1 == dK.Length1 == dV.Length1 == pb.headdim
    ensures forall i, d | 0 <= i < pb.Sq() && 0 <= d < pb.headdim ::
              o[i][d] == Output(pb, i, d) && dQ[i, d] == GradQ(pb, dO, i, d)
    ensures forall j, d | 0 <= j < pb.Sk() && 0 <= d < pb.headdim ::
              dK[j, d] == GradK(pb, dO, j, d) && dV[j, d] == GradV(pb, dO, j, d)
  {
    hide RowSum, Output, GradQ, GradK, GradV, Launchable;
    var sv := Forward(pb, b);
    o := sv.o;
    dQ, dK, dV := Backward(pb, dO, sv, b);
  }
}
