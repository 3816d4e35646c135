/** The kernels mask before they scale.  In IEEE arithmetic minus infinity times the scale is
    minus infinity only for a positive scale; otherwise it is plus infinity or not a number.
    This is the loop of `_fwd_kernel` in `flash_attn/flash_attn_triton.py` for any scale, and
    exactly when it computes softmax attention. */
module ScaleCondition {
  import opened RealSums
  import opened IeeeNumbers
  import opened Attention
  import L = LogReals
  import FK = ForwardKernel
  import BK = BackwardKernel
  import TruncatedDivision

  // ---------------------------------------------------------------- scores

  /** x * softmax_scale + bias. */
  function Scale(pb: Problem, x: FK.Masked, bias: real): Score {
    if x.Fin? then Log(Val(ExpScore(pb, x.x, bias)))
    else if pb.scale > 0.0 then Of(L.NegInf)
    else if pb.scale < 0.0 then PlusInf
    else Undefined
  }

  lemma FiniteScale(pb: Problem, x: FK.Masked, bias: real)
    requires pb.WellFormed() && x.Fin?
    ensures Scale(pb, x, bias) == Of(L.Ln(ExpScore(pb, x.x, bias)))
  {
  }

  function ScoreAt(pb: Problem, dim: nat, evenN: bool, i: int, j: int): Score {
    Scale(pb, FK.RawAt(pb, dim, evenN, i, j), pb.BiasAt(i, j))
  }

  /** A score is a number or minus infinity exactly when the scale is positive or the pair is
      not masked, and then it is the score of the specification. */
  lemma ScoreIsDefined(pb: Problem, dim: nat, evenN: bool, i: int, j: int)
    requires pb.WellFormed() && dim >= pb.headdim && j >= 0 && (evenN ==> j < pb.Sk())
    ensures ScoreAt(pb, dim, evenN, i, j).Of? <==> pb.scale > 0.0 || pb.Visible(i, j)
    ensures ScoreAt(pb, dim, evenN, i, j).PlusInf? <==> pb.scale < 0.0 && !pb.Visible(i, j)
    ensures ScoreAt(pb, dim, evenN, i, j).Of? ==> L.Exp(ScoreAt(pb, dim, evenN, i, j).a) == W(pb, i, j)
  {
    hide Dot, ExpScore, Log;
    PaddedDot(pb, dim, i, j);
    var raw := FK.RawAt(pb, dim, evenN, i, j);
    if raw.Fin? { FiniteScale(pb, raw, pb.BiasAt(i, j)); }
  }

  // ---------------------------------------------------------------- the loop

  /** m_i, lse_i and acc_o of one row. */
  datatype Row = Row(m: Score, lse: Score, acc: seq<Num>)

  function Scores(pb: Problem, dim: nat, evenN: bool, i: int, n0: int, bn: nat): seq<Score> {
    seq(bn, c requires 0 <= c < bn => ScoreAt(pb, dim, evenN, i, n0 + c))
  }

  /** m_ij. */
  function Reference(pb: Problem, raw: seq<FK.Masked>, s: seq<Score>, lse: Score, rule: NanRule): Score {
    Max(if pb.bias.NoBias? then Scale(pb, FK.MaskedMax(raw), 0.0) else MaxOf(s, rule), lse, rule)
  }

  function PTerm(s: seq<Score>, m: Score): int -> Num {
    c => if 0 <= c < |s| then Exp(Sub(s[c], m)) else Val(0.0)
  }

  function PVTerm(pb: Problem, s: seq<Score>, m: Score, n0: int, d: int): int -> Num {
    c => Mul(PTerm(s, m)(c), Val(Load(pb.v, n0 + c, d)))
  }

  /** l_i_new. */
  function NewNorm(s: seq<Score>, lse: Score, m: Score): Num {
    Add(Exp(Sub(lse, m)), Total(|s|, PTerm(s, m)))
  }

  /** acc_o * acc_o_scale + dot(p, v) at head dimension d. */
  function NewAcc(pb: Problem, s: seq<Score>, row: Row, m: Score, n0: int, d: int): Num
    requires 0 <= d < |row.acc|
  {
    Add(Mul(row.acc[d], Exp(Sub(row.m, m))), Total(|s|, PVTerm(pb, s, m, n0, d)))
  }

  /** The loop body for one row. */
  function Iterate(pb: Problem, dim: nat, evenN: bool, i: int, n0: int, bn: nat, row: Row, rule: NanRule): (next: Row)
    ensures |next.acc| == |row.acc|
  {
    var s := Scores(pb, dim, evenN, i, n0, bn);
    var m := Reference(pb, FK.RawRow(pb, dim, evenN, i, n0, bn), s, row.lse, rule);
    Row(m, Plus(m, Log(NewNorm(s, row.lse, m))),
        seq(|row.acc|, d requires 0 <= d < |row.acc| => NewAcc(pb, s, row, m, n0, d)))
  }

  /** A row after k key blocks. */
  function After(pb: Problem, dim: nat, i: int, bn: nat, k: nat, rule: NanRule): (row: Row)
    requires bn > 0
    ensures |row.acc| == dim
  {
    if k == 0 then Row(Of(L.NegInf), Of(L.NegInf), seq(dim, _ => Val(0.0)))
    else Iterate(pb, dim, pb.Sk() % bn == 0, i, (k - 1) * bn, bn, After(pb, dim, i, bn, k - 1, rule), rule)
  }

  /** The number of key blocks a tile of rows visits. */
  function Blocks(pb: Problem, startM: nat, bm: nat, bn: nat): nat
    requires bn > 0
  {
    TruncatedDivision.Max(0, TruncatedDivision.CeilDiv(FK.EndN(pb, startM, bm), bn))
  }

  /** acc_o * exp(m_i - lse_i). */
  function Out(row: Row, d: nat): Num
    requires d < |row.acc|
  {
    Mul(row.acc[d], Exp(Sub(row.m, row.lse)))
  }

  /** One program of the grid: every row of its tile runs the loop to the end. */
  method ForwardTile(pb: Problem, startM: nat, bm: nat, bn: nat, dim: nat, rule: NanRule) returns (rows: seq<Row>)
    requires bn > 0
    ensures |rows| == bm
    ensures forall r | 0 <= r < bm :: rows[r] == After(pb, dim, startM * bm + r, bn, Blocks(pb, startM, bm, bn), rule)
  {
    hide Iterate, FK.EndN, TruncatedDivision.CeilDiv;
    var evenN := pb.Sk() % bn == 0;
    var m0, n, endN := startM * bm, 0, FK.EndN(pb, startM, bm);
    rows := seq(bm, _ => Row(Of(L.NegInf), Of(L.NegInf), seq(dim, _ => Val(0.0))));
    ghost var k: nat := 0;
    while n < endN
      invariant n == k * bn && k <= Blocks(pb, startM, bm, bn) && |rows| == bm
      invariant forall r | 0 <= r < bm :: rows[r] == After(pb, dim, m0 + r, bn, k, rule)
    {
      TruncatedDivision.BelowCeilDiv(k, endN, bn);
      rows := seq(bm, r requires 0 <= r < bm && |rows| == bm => Iterate(pb, dim, evenN, m0 + r, n, bn, rows[r], rule));
      n, k := n + bn, k + 1;
    }
    TruncatedDivision.BelowCeilDiv(k, endN, bn);
  }

  // ---------------------------------------------------------------- every score defined

  function Value(x: Num): real { if x.Val? then x.x else 0.0 }

  function Values(acc: seq<Num>): (v: seq<real>) {
    seq(|acc|, d requires 0 <= d < |acc| => Value(acc[d]))
  }

  /** A row of values that satisfies the invariant of the forward kernel. */
  ghost predicate Good(pb: Problem, dim: nat, i: int, n: int, row: Row) {
    && row.m.Of? && row.lse.Of? && (forall d | 0 <= d < |row.acc| :: row.acc[d].Val?)
    && FK.RowInv(pb, dim, i, n, row.m.a, row.lse.a, Values(row.acc))
  }

  lemma SameScores(pb: Problem, dim: nat, evenN: bool, i: int, n0: int, bn: nat)
    requires pb.WellFormed() && FK.Scalable(pb, FK.RawRow(pb, dim, evenN, i, n0, bn))
    ensures var t := FK.ScoreRow(pb, i, n0, FK.RawRow(pb, dim, evenN, i, n0, bn));
            |t| == bn && forall c | 0 <= c < bn :: Scores(pb, dim, evenN, i, n0, bn)[c] == Of(t[c])
  {
    hide ExpScore, FK.RawAt, Log;
    var raw := FK.RawRow(pb, dim, evenN, i, n0, bn);
    forall c | 0 <= c < bn ensures Scores(pb, dim, evenN, i, n0, bn)[c] == Of(FK.ScoreRow(pb, i, n0, raw)[c]) {
      FK.RawRowEntry(pb, dim, evenN, i, n0, bn, c);
      assert Scores(pb, dim, evenN, i, n0, bn)[c] == ScoreAt(pb, dim, evenN, i, n0 + c);
      if raw[c].Fin? { FiniteScale(pb, raw[c], pb.BiasAt(i, n0 + c)); }
      assert FK.ScoreRow(pb, i, n0, raw)[c] == FK.ToScore(pb, raw[c], pb.BiasAt(i, n0 + c));
    }
  }

  lemma SameReference(pb: Problem, i: int, n0: int, raw: seq<FK.Masked>, s: seq<Score>, lse: L.LogReal, rule: NanRule)
    requires pb.WellFormed() && raw != [] && FK.Scalable(pb, raw)
    requires var t := FK.ScoreRow(pb, i, n0, raw);
             |s| == |t| && forall c | 0 <= c < |s| :: s[c] == Of(t[c])
    ensures Reference(pb, raw, s, Of(lse), rule) == Of(FK.Reference(pb, raw, FK.ScoreRow(pb, i, n0, raw), lse))
  {
    hide ExpScore, FK.MaskedMax, Log;
    if pb.bias.NoBias? {
      FK.MaskedMaxIsEntry(raw);
      if FK.MaskedMax(raw).Fin? { FiniteScale(pb, FK.MaskedMax(raw), 0.0); }
    } else { MaxOfValues(s, FK.ScoreRow(pb, i, n0, raw), rule); }
  }

  lemma SameNorm(s: seq<Score>, t: seq<L.LogReal>, lse: L.LogReal, m: L.LogReal)
    requires m.Ln? && |s| == |t| && forall c | 0 <= c < |s| :: s[c] == Of(t[c])
    ensures NewNorm(s, Of(lse), Of(m)) == Val(FK.NewNorm(lse, m, L.ExpShift(t, m)))
  {
    hide Sum, L.Sub;
    TotalOfValues(|s|, PTerm(s, Of(m)), L.Entries(L.ExpShift(t, m)));
  }

  lemma SameProduct(pb: Problem, s: seq<Score>, t: seq<L.LogReal>, m: L.LogReal, n0: int, d: nat)
    requires m.Ln? && |s| == |t| && forall c | 0 <= c < |s| :: s[c] == Of(t[c])
    ensures Total(|s|, PVTerm(pb, s, Of(m), n0, d)) == Val(Sum(0, |t|, FK.PVTile(pb, L.ExpShift(t, m), n0, d)))
  {
    hide Sum, L.Sub, Load, Total, L.Exp, Add;
    var p := L.ExpShift(t, m);
    forall c | 0 <= c < |s| ensures PVTerm(pb, s, Of(m), n0, d)(c) == Val(FK.PVTile(pb, p, n0, d)(c)) {
      assert PTerm(s, Of(m))(c) == Val(L.At(p, c));
    }
    TotalOfValues(|s|, PVTerm(pb, s, Of(m), n0, d), FK.PVTile(pb, p, n0, d));
  }

  lemma ShiftLength(t: seq<L.LogReal>, m: L.LogReal)
    requires m.Ln?
    ensures |L.ExpShift(t, m)| == |t|
  {
  }

  lemma SameAcc(pb: Problem, dim: nat, s: seq<Score>, t: seq<L.LogReal>, row: Row, m0: L.LogReal, m: L.LogReal,
                n0: int, d: nat)
    requires m.Ln? && |s| == |t| && forall c | 0 <= c < |s| :: s[c] == Of(t[c])
    requires d < dim == |row.acc| && row.m == Of(m0) && row.acc[d].Val?
    ensures NewAcc(pb, s, row, Of(m), n0, d)
         == Val(FK.NewAcc(pb, dim, Values(row.acc), L.Exp(L.Sub(m0, m)), L.ExpShift(t, m), n0)[d])
  {
    hide Sum, L.Sub, L.ExpShift, PVTerm, Total, FK.PVTile;
    SameProduct(pb, s, t, m, n0, d);
    assert |L.ExpShift(t, m)| == |t| by { ShiftLength(t, m); }
  }

  lemma LogOfPositive(m: L.LogReal, x: real)
    requires x > 0.0
    ensures Plus(Of(m), Log(Val(x))) == Of(L.Plus(m, L.Log(x)))
  {
  }

  lemma ScoresLength(pb: Problem, dim: nat, evenN: bool, i: int, n0: int, bn: nat)
    ensures |Scores(pb, dim, evenN, i, n0, bn)| == bn
  {
  }

  lemma GoodParts(pb: Problem, dim: nat, i: nat, n: nat, row: Row)
    requires Good(pb, dim, i, n, row)
    ensures row.m.Of? && row.lse.Of? && |row.acc| == dim && (n > 0 ==> row.lse.a.Ln?)
    ensures FK.RowInv(pb, dim, i, n, row.m.a, row.lse.a, Values(row.acc))
    ensures forall d | 0 <= d < dim :: row.acc[d].Val?
  {
  }

  lemma GoodFrom(pb: Problem, dim: nat, i: nat, n: nat, row: Row, m: L.LogReal, lse: L.LogReal, acc: seq<real>)
    requires FK.RowInv(pb, dim, i, n, m, lse, acc) && row.m == Of(m) && row.lse == Of(lse)
    requires |row.acc| == |acc| && forall d | 0 <= d < |acc| :: row.acc[d] == Val(acc[d])
    ensures Good(pb, dim, i, n, row)
  {
    hide FK.RowInv;
    assert Values(row.acc) == acc;
  }

  /** The iteration in terms of the forward kernel's functions. */
  lemma SameIteration(pb: Problem, dim: nat, evenN: bool, i: int, n0: int, bn: nat, row: Row, rule: NanRule,
                      t: seq<L.LogReal>, m0: L.LogReal, lse: L.LogReal, m: L.LogReal)
    requires |row.acc| == dim && row.m == Of(m0) && row.lse == Of(lse) && m.Ln?
    requires forall d | 0 <= d < dim :: row.acc[d].Val?
    requires var s := Scores(pb, dim, evenN, i, n0, bn);
             && |s| == |t| && (forall c | 0 <= c < |s| :: s[c] == Of(t[c]))
             && Reference(pb, FK.RawRow(pb, dim, evenN, i, n0, bn), s, Of(lse), rule) == Of(m)
    requires FK.NewNorm(lse, m, L.ExpShift(t, m)) > 0.0
    ensures var next := Iterate(pb, dim, evenN, i, n0, bn, row, rule);
            var acc := FK.NewAcc(pb, dim, Values(row.acc), L.Exp(L.Sub(m0, m)), L.ExpShift(t, m), n0);
            && next.m == Of(m)
            && next.lse == Of(L.Plus(m, L.Log(FK.NewNorm(lse, m, L.ExpShift(t, m)))))
            && |next.acc| == |acc| == dim && (forall d | 0 <= d < dim :: next.acc[d] == Val(acc[d]))
  {
    hide Scores, Reference, FK.RawRow, NewNorm, NewAcc, FK.NewNorm, L.ExpShift, L.Sub, L.Plus, L.Log, Plus, Log, Sum;
    var s := Scores(pb, dim, evenN, i, n0, bn);
    SameNorm(s, t, lse, m);
    LogOfPositive(m, FK.NewNorm(lse, m, L.ExpShift(t, m)));
    var acc := FK.NewAcc(pb, dim, Values(row.acc), L.Exp(L.Sub(m0, m)), L.ExpShift(t, m), n0);
    forall d | 0 <= d < dim ensures NewAcc(pb, s, row, Of(m), n0, d) == Val(acc[d]) {
      SameAcc(pb, dim, s, t, row, m0, m, n0, d);
    }
  }

  /** One iteration whose scores are all defined is one of the forward kernel. */
  lemma GoodStep(pb: Problem, dim: nat, i: nat, n0: nat, bn: nat, row: Row, rule: NanRule)
    requires pb.WellFormed() && dim >= pb.headdim && bn > 0 && n0 < pb.Sk() && n0 % bn == 0
    requires FK.Scalable(pb, FK.RawRow(pb, dim, pb.Sk() % bn == 0, i, n0, bn))
    requires Good(pb, dim, i, n0, row)
    ensures Good(pb, dim, i, n0 + bn, Iterate(pb, dim, pb.Sk() % bn == 0, i, n0, bn, row, rule))
  {
    hide *;
    var evenN := pb.Sk() % bn == 0;
    if evenN { FK.WholeBlockFits(n0, bn, pb.Sk()); }
    var raw := FK.RawRow(pb, dim, evenN, i, n0, bn);
    GoodParts(pb, dim, i, n0, row);
    SameScores(pb, dim, evenN, i, n0, bn);
    var s, t := Scores(pb, dim, evenN, i, n0, bn), FK.ScoreRow(pb, i, n0, raw);
    var m0, lse, acc := row.m.a, row.lse.a, Values(row.acc);
    FK.RawRowLength(pb, dim, evenN, i, n0, bn);
    ScoresLength(pb, dim, evenN, i, n0, bn);
    FK.ReferenceIsFinite(pb, dim, evenN, i, n0, bn, lse);
    FK.ReferenceBounds(pb, i, n0, raw, lse);
    FK.ScoresAreWeights(pb, dim, evenN, i, n0, bn);
    var m := FK.Reference(pb, raw, t, lse);
    FK.RowStep(pb, dim, i, n0, t, m0, lse, acc, m);
    SameReference(pb, i, n0, raw, s, lse, rule);
    SameIteration(pb, dim, evenN, i, n0, bn, row, rule, t, m0, lse, m);
    GoodFrom(pb, dim, i, n0 + bn, Iterate(pb, dim, evenN, i, n0, bn, row, rule), m,
             L.Plus(m, L.Log(FK.NewNorm(lse, m, L.ExpShift(t, m)))),
             FK.NewAcc(pb, dim, acc, L.Exp(L.Sub(m0, m)), L.ExpShift(t, m), n0));
  }

  lemma GoodStart(pb: Problem, dim: nat, i: nat, bn: nat, rule: NanRule)
    requires bn > 0
    ensures Good(pb, dim, i, 0, After(pb, dim, i, bn, 0, rule))
  {
    hide Iterate;
    var row := After(pb, dim, i, bn, 0, rule);
    assert Values(row.acc) == seq(dim, _ => 0.0);
    FK.StartOfLoop(pb, dim, i, [row.m.a], [row.lse.a], [Values(row.acc)]);
  }

  lemma BlockIsVisited(pb: Problem, startM: nat, bm: nat, bn: nat, k: nat)
    requires bn > 0 && k < Blocks(pb, startM, bm, bn)
    ensures k * bn < FK.EndN(pb, startM, bm) <= pb.Sk() && k * bn % bn == 0
  {
    TruncatedDivision.BelowCeilDiv(k, FK.EndN(pb, startM, bm), bn);
    FK.EndIsMultiple(k, bn);
  }

  lemma {:induction false} AfterIsGood(pb: Problem, dim: nat, startM: nat, bm: nat, bn: nat, i: nat, k: nat,
                                       rule: NanRule)
    requires bn > 0 && FK.Usable(pb, bm, bn) && dim >= pb.headdim
    requires startM * bm <= i < startM * bm + bm && k <= Blocks(pb, startM, bm, bn)
    ensures Good(pb, dim, i, k * bn, After(pb, dim, i, bn, k, rule))
  {
    hide Good, Iterate, FK.Scalable, FK.RawRow, FK.TileScalable, Blocks;
    if k == 0 {
      GoodStart(pb, dim, i, bn, rule);
    } else {
      AfterIsGood(pb, dim, startM, bm, bn, i, k - 1, rule);
      BlockIsVisited(pb, startM, bm, bn, k - 1);
      FK.VisitedTileIsScalable(pb, startM, bm, (k - 1) * bn, bn);
      FK.RowIsScalable(pb, dim, pb.Sk() % bn == 0, startM * bm, bm, i, (k - 1) * bn, bn);
      GoodStep(pb, dim, i, (k - 1) * bn, bn, After(pb, dim, i, bn, k - 1, rule), rule);
      assert k * bn == (k - 1) * bn + bn;
    }
  }

  // ---------------------------------------------------------------- a score undefined

  /** Neither the log-sum-exp nor any accumulator is a value. */
  predicate Broken(row: Row) {
    !row.lse.Of? && forall d | 0 <= d < |row.acc| :: !row.acc[d].Val?
  }

  /** One undefined score breaks the row. */
  lemma UndefinedScoreBreaks(pb: Problem, dim: nat, evenN: bool, i: int, n0: int, bn: nat, row: Row, rule: NanRule,
                             c: nat)
    requires c < bn && !ScoreAt(pb, dim, evenN, i, n0 + c).Of?
    ensures Broken(Iterate(pb, dim, evenN, i, n0, bn, row, rule))
  {
    hide ScoreAt, Reference, FK.RawRow, Load, Add, Mul, Exp, Sub, Plus, Log, Total;
    var s := Scores(pb, dim, evenN, i, n0, bn);
    var m := Reference(pb, FK.RawRow(pb, dim, evenN, i, n0, bn), s, row.lse, rule);
    BrokenExp(s[c], m);
    TotalIsBroken(bn, PTerm(s, m), c);
    BrokenAbsorbs(Exp(Sub(row.lse, m)), Total(bn, PTerm(s, m)));
    BrokenLog(m, NewNorm(s, row.lse, m));
    forall d | 0 <= d < |row.acc| ensures !NewAcc(pb, s, row, m, n0, d).Val? {
      BrokenAbsorbs(PTerm(s, m)(c), Val(Load(pb.v, n0 + c, d)));
      TotalIsBroken(bn, PVTerm(pb, s, m, n0, d), c);
      BrokenAbsorbs(Mul(row.acc[d], Exp(Sub(row.m, m))), Total(bn, PVTerm(pb, s, m, n0, d)));
    }
  }

  /** A broken row stays broken. */
  lemma StaysBroken(pb: Problem, dim: nat, evenN: bool, i: int, n0: int, bn: nat, row: Row, rule: NanRule)
    requires Broken(row)
    ensures Broken(Iterate(pb, dim, evenN, i, n0, bn, row, rule))
  {
    hide Scores, Reference, FK.RawRow, Add, Mul, Exp, Sub, Plus, Log, Total;
    var s := Scores(pb, dim, evenN, i, n0, bn);
    var m := Reference(pb, FK.RawRow(pb, dim, evenN, i, n0, bn), s, row.lse, rule);
    BrokenExp(row.lse, m);
    BrokenAbsorbs(Exp(Sub(row.lse, m)), Total(|s|, PTerm(s, m)));
    BrokenLog(m, NewNorm(s, row.lse, m));
    forall d | 0 <= d < |row.acc| ensures !NewAcc(pb, s, row, m, n0, d).Val? {
      BrokenAbsorbs(row.acc[d], Exp(Sub(row.m, m)));
      BrokenAbsorbs(Mul(row.acc[d], Exp(Sub(row.m, m))), Total(|s|, PVTerm(pb, s, m, n0, d)));
    }
  }

  lemma {:induction false} AfterIsBroken(pb: Problem, dim: nat, i: int, bn: nat, k: nat, n: nat, c: nat, rule: NanRule)
    requires bn > 0 && c < bn && n < k
    requires !ScoreAt(pb, dim, pb.Sk() % bn == 0, i, n * bn + c).Of?
    ensures Broken(After(pb, dim, i, bn, k, rule))
  {
    hide Broken, ScoreAt, Iterate;
    var row := After(pb, dim, i, bn, k - 1, rule);
    if n == k - 1 {
      UndefinedScoreBreaks(pb, dim, pb.Sk() % bn == 0, i, n * bn, bn, row, rule, c);
    } else {
      AfterIsBroken(pb, dim, i, bn, k - 1, n, c, rule);
      StaysBroken(pb, dim, pb.Sk() % bn == 0, i, (k - 1) * bn, bn, row, rule);
    }
  }

  // ---------------------------------------------------------------- the condition

  /** The row's log-sum-exp and output are those of softmax attention. */
  ghost predicate RowRight(pb: Problem, i: int, row: Row) {
    && RowSum(pb, i) > 0.0 && row.lse == Of(L.Ln(RowSum(pb, i)))
    && |row.acc| >= pb.headdim
    && forall d | 0 <= d < pb.headdim :: Out(row, d) == Val(Output(pb, i, d))
  }

  /** Row i when its tile's loop ends. */
  function FinalRow(pb: Problem, bm: nat, bn: nat, dim: nat, i: nat, rule: NanRule): Row
    requires bm > 0 && bn > 0
  {
    After(pb, dim, i, bn, Blocks(pb, i / bm, bm, bn), rule)
  }

  /** The forward kernel stores softmax attention and the log-sum-exp of every row. */
  ghost predicate ForwardRight(pb: Problem, bm: nat, bn: nat, dim: nat, rule: NanRule)
    requires bm > 0 && bn > 0
  {
    forall i | 0 <= i < pb.Sq() :: RowRight(pb, i, FinalRow(pb, bm, bn, dim, i, rule))
  }

  lemma FirstRowsVisit(pb: Problem, bm: nat, bn: nat, n: nat)
    requires bm > 0 && bn > 0 && n * bn < pb.Sk() && (pb.causal ==> n * bn < bm)
    ensures n < Blocks(pb, 0, bm, bn) && n < TruncatedDivision.CeilDiv(pb.Sk(), bn)
    ensures BK.BeginM(pb, n, bm, bn) == 0
  {
    hide TruncatedDivision.CeilDiv;
    TruncatedDivision.BelowCeilDiv(n, FK.EndN(pb, 0, bm), bn);
    TruncatedDivision.BelowCeilDiv(n, pb.Sk(), bn);
    if pb.causal { TruncatedDivision.QuotientFrom(n * bn, bm, 0, 0); }
  }

  /** Where some visited pair is masked, row 0 visits one. */
  lemma MaskedPair(pb: Problem, bm: nat, bn: nat) returns (n: nat, c: nat)
    requires pb.Sk() >= 1 && bm > 0 && bn > 0 && !FK.NothingMasked(pb, bm, bn)
    ensures c < bn && n < Blocks(pb, 0, bm, bn) && n < TruncatedDivision.CeilDiv(pb.Sk(), bn)
    ensures BK.BeginM(pb, n, bm, bn) == 0
    ensures !pb.Visible(0, n * bn + c) && (pb.Sk() % bn == 0 ==> n * bn + c < pb.Sk())
  {
    hide FK.EndN, BK.BeginM, TruncatedDivision.CeilDiv, Problem.WellFormed;
    if !pb.causal {
      n, c := pb.Sk() / bn, pb.Sk() % bn;
      assert n * bn + c == pb.Sk();
    } else if bn > 1 {
      n, c := 0, 1;
      assert pb.Sk() % bn == 0 ==> bn <= pb.Sk() by { if pb.Sk() < bn { assert pb.Sk() % bn == pb.Sk(); } }
    } else {
      n, c := 1, 0;
    }
    FirstRowsVisit(pb, bm, bn, n);
  }

  lemma RightFromGood(pb: Problem, dim: nat, i: nat, n: nat, row: Row)
    requires pb.WellFormed() && dim >= pb.headdim && Good(pb, dim, i, n, row) && n > 0
    requires forall j | n <= j < pb.Sk() :: !pb.Visible(i, j)
    ensures RowRight(pb, i, row)
  {
    hide Sum, RowSum, Output, FK.RowInv, L.Sub, L.Exp;
    GoodParts(pb, dim, i, n, row);
    RowSumPositive(pb, i);
    FK.FinalLse(pb, dim, i, n, row.m.a, row.lse.a, Values(row.acc));
    forall d | 0 <= d < pb.headdim ensures Out(row, d) == Val(Output(pb, i, d)) {
      FK.FinalScale(pb, dim, i, n, d, row.m.a, row.lse.a, Values(row.acc));
    }
  }

  lemma GoodRowIsRight(pb: Problem, bm: nat, bn: nat, dim: nat, i: nat, rule: NanRule)
    requires bm > 0 && bn > 0 && FK.Usable(pb, bm, bn) && dim >= pb.headdim
    ensures RowRight(pb, i, FinalRow(pb, bm, bn, dim, i, rule))
  {
    hide Sum, RowSum, Output, FK.RowInv, After, L.Sub;
    var startM := i / bm;
    var k := Blocks(pb, startM, bm, bn);
    TruncatedDivision.FloorBounds(i, bm);
    assert (startM + 1) * bm == startM * bm + bm;
    TruncatedDivision.BelowCeilDiv(0, FK.EndN(pb, startM, bm), bn);
    TruncatedDivision.BelowCeilDiv(k, FK.EndN(pb, startM, bm), bn);
    AfterIsGood(pb, dim, startM, bm, bn, i, k, rule);
    RightFromGood(pb, dim, i, k * bn, After(pb, dim, i, bn, k, rule)) by {
      TruncatedDivision.MulMonotone(1, k, bn);
    }
  }

  lemma BrokenIsWrong(pb: Problem, i: int, row: Row)
    requires Broken(row)
    ensures !RowRight(pb, i, row)
  {
  }

  /** The forward kernel computes softmax attention exactly when the scale is positive, no
      visited pair is masked, or there is no query. */
  lemma ForwardIff(pb: Problem, bm: nat, bn: nat, dim: nat, rule: NanRule)
    requires pb.WellFormed() && bm > 0 && bn > 0 && dim >= pb.headdim
    ensures ForwardRight(pb, bm, bn, dim, rule)
        <==> pb.scale > 0.0 || pb.Sq() == 0 || FK.NothingMasked(pb, bm, bn)
  {
    hide RowRight, Broken, Blocks, ScoreAt, After;
    if FK.Usable(pb, bm, bn) {
      forall i | 0 <= i < pb.Sq() ensures RowRight(pb, i, FinalRow(pb, bm, bn, dim, i, rule)) {
        GoodRowIsRight(pb, bm, bn, dim, i, rule);
      }
    } else if pb.Sq() > 0 {
      var n, c := MaskedPair(pb, bm, bn);
      ScoreIsDefined(pb, dim, pb.Sk() % bn == 0, 0, n * bn + c);
      AfterIsBroken(pb, dim, 0, bn, Blocks(pb, 0, bm, bn), n, c, rule);
      BrokenIsWrong(pb, 0, After(pb, dim, 0, bn, Blocks(pb, 0, bm, bn), rule));
      assert !RowRight(pb, 0, FinalRow(pb, bm, bn, dim, 0, rule));
    }
  }
}
