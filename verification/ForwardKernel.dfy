/** The tiled forward pass: running reference, running log-sum-exp and unnormalised
    accumulator.  `_fwd_kernel` of `flash_attn/flash_attn_triton.py`.
    Unmasked loads under EVEN_M, EVEN_N and EVEN_HEADDIM read the same values as `Load`. */
module ForwardKernel {
  import opened RealSums
  import opened LogReals
  import opened Attention
  import TruncatedDivision

  // ---------------------------------------------------------------- one row of one tile

  /** A raw product with the masks added to it. */
  datatype Masked = MinusInf | Fin(x: real)

  function MaskedMax(raw: seq<Masked>): Masked {
    if raw == [] then MinusInf
    else
      var front, last := MaskedMax(raw[..|raw| - 1]), raw[|raw| - 1];
      if front.MinusInf? || (last.Fin? && front.x <= last.x) then last else front
  }

  /** qk at (i, j), masks included. */
  function RawAt(pb: Problem, dim: nat, evenN: bool, i: int, j: int): Masked {
    if (evenN || j < pb.Sk()) && (!pb.causal || i >= j) then Fin(Dot(pb, dim, i, j)) else MinusInf
  }

  /** qk for row i and the bn keys from n0. */
  function RawRow(pb: Problem, dim: nat, evenN: bool, i: int, n0: int, bn: nat): seq<Masked> {
    seq(bn, c requires 0 <= c < bn => RawAt(pb, dim, evenN, i, n0 + c))
  }

  lemma RawRowEntry(pb: Problem, dim: nat, evenN: bool, i: int, n0: int, bn: nat, c: int)
    requires 0 <= c < bn
    ensures |RawRow(pb, dim, evenN, i, n0, bn)| == bn
    ensures RawRow(pb, dim, evenN, i, n0, bn)[c] == RawAt(pb, dim, evenN, i, n0 + c)
  {
    hide RawAt;
  }

  /** Scaling keeps minus infinity where it is: the scale is positive or nothing is masked. */
  predicate Scalable(pb: Problem, raw: seq<Masked>) {
    pb.scale > 0.0 || forall c | 0 <= c < |raw| :: raw[c].Fin?
  }

  /** x * softmax_scale + bias. */
  function ToScore(pb: Problem, x: Masked, bias: real): LogReal
    requires pb.WellFormed() && (pb.scale > 0.0 || x.Fin?)
  {
    if x.Fin? then Ln(ExpScore(pb, x.x, bias)) else NegInf
  }

  function ScoreRow(pb: Problem, i: int, n0: int, raw: seq<Masked>): seq<LogReal>
    requires pb.WellFormed() && Scalable(pb, raw)
  {
    seq(|raw|, c requires 0 <= c < |raw| => ToScore(pb, raw[c], pb.BiasAt(i, n0 + c)))
  }

  /** The maximum of the raw scores is one of them. */
  lemma {:induction false} MaskedMaxIsEntry(raw: seq<Masked>)
    requires raw != []
    ensures MaskedMax(raw) in raw
  {
    if |raw| > 1 { MaskedMaxIsEntry(raw[..|raw| - 1]); }
  }

  /** m_ij.  Without a bias the maximum is taken before scaling. */
  function Reference(pb: Problem, raw: seq<Masked>, s: seq<LogReal>, lse: LogReal): LogReal
    requires pb.WellFormed() && raw != [] && Scalable(pb, raw)
  {
    MaskedMaxIsEntry(raw);
    if pb.bias.NoBias? then Maximum(ToScore(pb, MaskedMax(raw), 0.0), lse) else Maximum(RowMax(s), lse)
  }

  function PVTile(pb: Problem, p: seq<real>, n0: int, d: int): int -> real {
    c => At(p, c) * Load(pb.v, n0 + c, d)
  }

  /** acc_o * acc_o_scale + dot(p, v). */
  function NewAcc(pb: Problem, dim: nat, acc: seq<real>, scale: real, p: seq<real>, n0: int): seq<real> {
    seq(dim, d requires 0 <= d < dim => At(acc, d) * scale + Sum(0, |p|, PVTile(pb, p, n0, d)))
  }

  /** l_i_new. */
  function NewNorm(lse: LogReal, m: LogReal, p: seq<real>): real
    requires m.Ln?
  {
    Exp(Sub(lse, m)) + Total(p)
  }

  // ---------------------------------------------------------------- row invariant

  ghost function WVTerm(pb: Problem, i: int, d: int): int -> real { j => W(pb, i, j) * Load(pb.v, j, d) }

  /** Accumulator entry d without its reference: acc_o[d] * exp(m_i). */
  function Unscaled(acc: seq<real>, d: int, m: LogReal): real { At(acc, d) * Exp(m) }

  /** After the keys below n: exp(lse) is the sum of their weights, and acc times exp(m) is the
      weighted sum of their values. */
  ghost predicate RowInv(pb: Problem, dim: nat, i: int, n: int, m: LogReal, lse: LogReal, acc: seq<real>) {
    && |acc| == dim
    && Exp(lse) == Sum(0, n, WTerm(pb, i))
    && (forall d | 0 <= d < dim :: Unscaled(acc, d, m) == Sum(0, n, WVTerm(pb, i, d)))
    && AtMost(m, lse)
    && (n > 0 ==> m.Ln? && lse.Ln?)
  }

  lemma ScoresAreWeights(pb: Problem, dim: nat, evenN: bool, i: int, n0: nat, bn: nat)
    requires pb.WellFormed() && dim >= pb.headdim && (evenN ==> n0 + bn <= pb.Sk())
    requires Scalable(pb, RawRow(pb, dim, evenN, i, n0, bn))
    ensures var s := ScoreRow(pb, i, n0, RawRow(pb, dim, evenN, i, n0, bn));
            |s| == bn && forall c | 0 <= c < bn :: Exp(s[c]) == W(pb, i, n0 + c)
  {
    forall c | 0 <= c < bn
      ensures Exp(ScoreRow(pb, i, n0, RawRow(pb, dim, evenN, i, n0, bn))[c]) == W(pb, i, n0 + c)
    {
      RawRowEntry(pb, dim, evenN, i, n0, bn, c);
      PaddedDot(pb, dim, i, n0 + c);
      assert pb.causal ==> (pb.Visible(i, n0 + c) <==> 0 <= n0 + c < pb.Sk() && n0 + c <= i);
    }
  }

  lemma ScaledKeepsOrder(pb: Problem, x: real, y: real, bias: real)
    requires pb.scale > 0.0 && x <= y
    ensures Scaled(pb, x, bias) <= Scaled(pb, y, bias)
  {
    ScaleMonotone(x, y, pb.scale);
  }

  lemma ExpKeepsOrder(pb: Problem, a: real, b: real)
    requires pb.WellFormed() && a <= b
    ensures pb.e(a) <= pb.e(b)
  {
    assert OrderKept(pb.e, a, b);
  }

  lemma ScalingKeepsOrder(pb: Problem, x: real, y: real, bias: real)
    requires pb.WellFormed() && pb.scale > 0.0 && x <= y
    ensures ExpScore(pb, x, bias) <= ExpScore(pb, y, bias)
  {
    hide Problem.WellFormed, Scaled;
    ScaledKeepsOrder(pb, x, y, bias);
    ExpKeepsOrder(pb, Scaled(pb, x, bias), Scaled(pb, y, bias));
  }

  /** Scaling by a positive factor commutes with the maximum, so both branches of the kernel
      use the maximum of the scaled scores. */
  lemma {:induction false} MaxBeforeScaling(pb: Problem, i: int, n0: int, raw: seq<Masked>)
    requires pb.WellFormed() && pb.scale > 0.0 && pb.bias.NoBias?
    ensures ToScore(pb, MaskedMax(raw), 0.0) == RowMax(ScoreRow(pb, i, n0, raw))
  {
    if raw != [] {
      var front, last := raw[..|raw| - 1], raw[|raw| - 1];
      MaxBeforeScaling(pb, i, n0, front);
      var s := ScoreRow(pb, i, n0, raw);
      assert s[..|s| - 1] == ScoreRow(pb, i, n0, front);
      assert s[|s| - 1] == ToScore(pb, last, 0.0);
      var best := MaskedMax(front);
      if best.Fin? && last.Fin? {
        if best.x <= last.x {
          ScalingKeepsOrder(pb, best.x, last.x, 0.0);
        } else {
          ScalingKeepsOrder(pb, last.x, best.x, 0.0);
        }
      }
    }
  }

  /** The new reference bounds the old log-sum-exp and is that or one of the scores.  It bounds
      the scores too, unless the maximum was taken before a scaling that is not positive. */
  lemma ReferenceBounds(pb: Problem, i: int, n0: int, raw: seq<Masked>, lse: LogReal)
    requires pb.WellFormed() && raw != [] && Scalable(pb, raw)
    ensures var s := ScoreRow(pb, i, n0, raw);
            var m := Reference(pb, raw, s, lse);
            && AtMost(lse, m) && (m == lse || m in s)
            && (pb.scale > 0.0 || !pb.bias.NoBias? ==> forall c | 0 <= c < |s| :: AtMost(s[c], m))
  {
    var s := ScoreRow(pb, i, n0, raw);
    RowMaxIsGreatest(s);
    if pb.bias.NoBias? {
      MaskedMaxIsEntry(raw);
      var c :| 0 <= c < |raw| && raw[c] == MaskedMax(raw);
      assert s[c] == ToScore(pb, MaskedMax(raw), 0.0);
      if pb.scale > 0.0 { MaxBeforeScaling(pb, i, n0, raw); }
    }
  }

  lemma QuotientOfSelf(w: real)
    requires w > 0.0
    ensures w / w == 1.0
  {
  }

  /** p in multiplicative form. */
  lemma ShiftedEntries(s: seq<LogReal>, m: LogReal)
    requires m.Ln?
    ensures var p := ExpShift(s, m);
            && |p| == |s|
            && (forall c | 0 <= c < |p| :: At(p, c) * m.w == Exp(s[c]))
            && (forall c | 0 <= c < |p| :: At(p, c) >= 0.0)
            && (m in s ==> exists c :: 0 <= c < |p| && At(p, c) == 1.0)
  {
    var p := ExpShift(s, m);
    forall c | 0 <= c < |p|
      ensures At(p, c) * m.w == Exp(s[c]) && At(p, c) >= 0.0 && (s[c] == m ==> At(p, c) == 1.0)
    {
      ExpSub(s[c], m);
      QuotientOfSelf(m.w);
    }
  }

  /** Under a reference that bounds the scores no entry exceeds 1. */
  lemma ShiftedAtMostOne(s: seq<LogReal>, m: LogReal)
    requires m.Ln? && forall c | 0 <= c < |s| :: AtMost(s[c], m)
    ensures var p := ExpShift(s, m); |p| == |s| && forall c | 0 <= c < |p| :: At(p, c) <= 1.0
  {
    forall c | 0 <= c < |s| ensures At(ExpShift(s, m), c) <= 1.0 { ExpSub(s[c], m); }
  }

  /** p * exp(m) summed over the tile is the sum of the tile's weights. */
  lemma TotalOfTile(p: seq<real>, w: real, lo: int, f: int -> real)
    requires forall c | 0 <= c < |p| :: At(p, c) * w == f(lo + c)
    ensures w * Total(p) == Sum(lo, lo + |p|, f)
  {
    var g: int -> real := c => f(lo + c);
    SumShift(lo, |p|, f, g);
    forall c | 0 <= c < |p| ensures g(c) == w * Entries(p)(c) {}
    SumScale(0, |p|, w, Entries(p), g);
  }

  /** The sum of a tile's entries is at least 1 when one of them is 1. */
  lemma TotalFloor(p: seq<real>)
    requires forall c | 0 <= c < |p| :: At(p, c) >= 0.0
    ensures Total(p) >= 0.0 && ((exists c :: 0 <= c < |p| && At(p, c) == 1.0) ==> Total(p) >= 1.0)
  {
    SumBoundsBelow(0, |p|, Entries(p));
    if c :| 0 <= c < |p| && At(p, c) == 1.0 {
      SumAtLeast(0, |p|, Entries(p), c);
    }
  }

  lemma ExpNonNegative(a: LogReal)
    ensures Exp(a) >= 0.0
  {
  }

  lemma PlusNonNegative(m: LogReal, y: real)
    requires m.Ln? && y >= 1.0
    ensures AtMost(m, Plus(m, Log(y)))
  {
    assert m.w * (y - 1.0) >= 0.0;
  }

  /** The new norm is at least 1, and the new log-sum-exp at least the new reference: the
      reference is the old log-sum-exp or one of the scores. */
  lemma IterationFloor(s: seq<LogReal>, lse: LogReal, m: LogReal)
    requires m.Ln? && (m == lse || m in s)
    ensures NewNorm(lse, m, ExpShift(s, m)) >= 1.0
    ensures Plus(m, Log(NewNorm(lse, m, ExpShift(s, m)))).Ln?
    ensures AtMost(m, Plus(m, Log(NewNorm(lse, m, ExpShift(s, m)))))
  {
    var p := ExpShift(s, m);
    ShiftedEntries(s, m);
    TotalFloor(p);
    ExpSub(lse, m);
    QuotientOfSelf(m.w);
    assert m == lse ==> Exp(Sub(lse, m)) == 1.0;
    ExpNonNegative(Sub(lse, m));
    PlusNonNegative(m, NewNorm(lse, m, p));
  }

  /** The numerical range of one iteration: every exponent is at most 0, the new norm lies in
      [1, bn + 1], and the new log-sum-exp is at least the new reference. */
  lemma IterationRange(s: seq<LogReal>, m0: LogReal, lse: LogReal, m: LogReal)
    requires m.Ln? && (m == lse || m in s)
    requires AtMost(lse, m) && AtMost(m0, lse) && forall c | 0 <= c < |s| :: AtMost(s[c], m)
    ensures forall c | 0 <= c < |s| :: AtMost(Sub(s[c], m), Ln(1.0))
    ensures AtMost(Sub(m0, m), Ln(1.0)) && AtMost(Sub(lse, m), Ln(1.0))
    ensures 1.0 <= NewNorm(lse, m, ExpShift(s, m)) <= |s| as real + 1.0
    ensures Plus(m, Log(NewNorm(lse, m, ExpShift(s, m)))).Ln?
    ensures AtMost(m, Plus(m, Log(NewNorm(lse, m, ExpShift(s, m)))))
  {
    var p := ExpShift(s, m);
    IterationFloor(s, lse, m);
    ShiftedEntries(s, m);
    ShiftedAtMostOne(s, m);
    SumBounds(0, |p|, Entries(p), 0.0, 1.0);
    ExpSub(lse, m);
    ExpSub(m0, m);
    forall c | 0 <= c < |s| ensures AtMost(Sub(s[c], m), Ln(1.0)) { ExpSub(s[c], m); }
  }

  lemma NewAccEntry(pb: Problem, dim: nat, acc: seq<real>, ratio: real, p: seq<real>, n0: int, d: int)
    requires 0 <= d < dim
    ensures At(NewAcc(pb, dim, acc, ratio, p, n0), d)
            == At(acc, d) * ratio + Sum(0, |p|, PVTile(pb, p, n0, d))
  {
    hide Sum, PVTile;
  }

  lemma TileOfWeights(p: seq<real>, w: real, lo: int, weights: int -> real, f: int -> real,
                      values: int -> real, tile: int -> real)
    requires forall c | 0 <= c < |p| :: At(p, c) * w == weights(lo + c)
    requires forall c | 0 <= c < |p| :: f(lo + c) == weights(lo + c) * values(c)
    requires forall c | 0 <= c < |p| :: tile(c) == At(p, c) * values(c)
    ensures w * Sum(0, |p|, tile) == Sum(lo, lo + |p|, f)
  {
    var g: int -> real := c => f(lo + c);
    SumShift(lo, |p|, f, g);
    forall c | 0 <= c < |p| ensures g(c) == w * tile(c) {
      Reassociate(At(p, c), w, values(c));
    }
    SumScale(0, |p|, w, tile, g);
  }

  lemma AccumulatorTile(pb: Problem, i: int, n0: nat, d: int, w: real, p: seq<real>)
    requires forall c | 0 <= c < |p| :: At(p, c) * w == W(pb, i, n0 + c)
    ensures w * Sum(0, |p|, PVTile(pb, p, n0, d))
            == Sum(0, n0 + |p|, WVTerm(pb, i, d)) - Sum(0, n0, WVTerm(pb, i, d))
  {
    hide Sum;
    SumSplit(0, n0, n0 + |p|, WVTerm(pb, i, d));
    var values: int -> real := c => Load(pb.v, n0 + c, d);
    TileOfWeights(p, w, n0, WTerm(pb, i), WVTerm(pb, i, d), values, PVTile(pb, p, n0, d));
  }

  lemma RescaleStep(acc: real, ratio: real, tile: real, w: real, w0: real, before: real, after: real)
    requires ratio * w == w0 && acc * w0 == before && w * tile == after - before
    ensures (acc * ratio + tile) * w == after
  {
    assert acc * ratio * w == acc * (ratio * w);
  }

  /** Rescaling the accumulator and adding the tile keeps acc * exp(m) the weighted sum. */
  lemma AccumulatorStep(pb: Problem, dim: nat, i: int, n0: nat, d: int, acc: seq<real>,
                        ratio: real, w0: real, w: real, p: seq<real>)
    requires 0 <= d < dim && ratio * w == w0
    requires forall c | 0 <= c < |p| :: At(p, c) * w == W(pb, i, n0 + c)
    requires At(acc, d) * w0 == Sum(0, n0, WVTerm(pb, i, d))
    ensures At(NewAcc(pb, dim, acc, ratio, p, n0), d) * w == Sum(0, n0 + |p|, WVTerm(pb, i, d))
  {
    hide *;
    AccumulatorTile(pb, i, n0, d, w, p);
    NewAccEntry(pb, dim, acc, ratio, p, n0, d);
    RescaleStep(At(acc, d), ratio, Sum(0, |p|, PVTile(pb, p, n0, d)), w, w0,
                Sum(0, n0, WVTerm(pb, i, d)), Sum(0, n0 + |p|, WVTerm(pb, i, d)));
  }

  /** exp of the new log-sum-exp is the sum of all weights so far. */
  lemma NormStep(w: real, x: real, lse: real, p: seq<real>, n0: nat, f: int -> real)
    requires x * w == lse == Sum(0, n0, f)
    requires forall c | 0 <= c < |p| :: At(p, c) * w == f(n0 + c)
    ensures w * (x + Total(p)) == Sum(0, n0 + |p|, f)
  {
    TotalOfTile(p, w, n0, f);
    SumSplit(0, n0, n0 + |p|, f);
  }

  /** The first block shows key 0 to every row, and later the log-sum-exp is finite already:
      the reference never is minus infinity. */
  lemma ReferenceIsFinite(pb: Problem, dim: nat, evenN: bool, i: nat, n0: nat, bn: nat, lse: LogReal)
    requires pb.WellFormed() && dim >= pb.headdim && bn > 0 && (evenN ==> n0 + bn <= pb.Sk())
    requires Scalable(pb, RawRow(pb, dim, evenN, i, n0, bn)) && (n0 > 0 ==> lse.Ln?)
    ensures var raw := RawRow(pb, dim, evenN, i, n0, bn);
            Reference(pb, raw, ScoreRow(pb, i, n0, raw), lse).Ln?
  {
    var raw := RawRow(pb, dim, evenN, i, n0, bn);
    ScoresAreWeights(pb, dim, evenN, i, n0, bn);
    ReferenceBounds(pb, i, n0, raw, lse);
    RowSumPositive(pb, i);
    if n0 == 0 {
      assert Exp(ScoreRow(pb, i, n0, raw)[0]) == W(pb, i, 0);
      MaskedMaxIsEntry(raw);
    }
  }

  /** The log-sum-exp half of one iteration. */
  lemma LseStep(n0: nat, s: seq<LogReal>, lse: LogReal, m: LogReal, f: int -> real)
    requires m.Ln? && forall c | 0 <= c < |s| :: Exp(s[c]) == f(n0 + c)
    requires Exp(lse) == Sum(0, n0, f) && NewNorm(lse, m, ExpShift(s, m)) > 0.0
    ensures Exp(Plus(m, Log(NewNorm(lse, m, ExpShift(s, m))))) == Sum(0, n0 + |s|, f)
  {
    hide Sum;
    var p := ExpShift(s, m);
    ShiftedEntries(s, m);
    ExpSub(lse, m);
    NormStep(m.w, Exp(Sub(lse, m)), Exp(lse), p, n0, f);
    ExpPlus(m, Log(NewNorm(lse, m, p)));
  }

  /** The accumulator half of one iteration. */
  lemma AccStep(pb: Problem, dim: nat, i: int, n0: nat, d: int, s: seq<LogReal>,
                m0: LogReal, m: LogReal, acc: seq<real>)
    requires m.Ln? && 0 <= d < dim
    requires forall c | 0 <= c < |s| :: Exp(s[c]) == W(pb, i, n0 + c)
    requires Unscaled(acc, d, m0) == Sum(0, n0, WVTerm(pb, i, d))
    ensures Unscaled(NewAcc(pb, dim, acc, Exp(Sub(m0, m)), ExpShift(s, m), n0), d, m)
            == Sum(0, n0 + |s|, WVTerm(pb, i, d))
  {
    hide Sum, NewAcc, WVTerm, W, At;
    ShiftedEntries(s, m);
    ExpSub(m0, m);
    AccumulatorStep(pb, dim, i, n0, d, acc, Exp(Sub(m0, m)), Exp(m0), m.w, ExpShift(s, m));
  }

  /** One iteration keeps the row invariant. */
  lemma RowStep(pb: Problem, dim: nat, i: int, n0: nat, s: seq<LogReal>,
                m0: LogReal, lse0: LogReal, acc: seq<real>, m: LogReal)
    requires m.Ln? && s != [] && (m == lse0 || m in s)
    requires forall c | 0 <= c < |s| :: Exp(s[c]) == W(pb, i, n0 + c)
    requires RowInv(pb, dim, i, n0, m0, lse0, acc)
    ensures NewNorm(lse0, m, ExpShift(s, m)) > 0.0
    ensures RowInv(pb, dim, i, n0 + |s|, m, Plus(m, Log(NewNorm(lse0, m, ExpShift(s, m)))),
                   NewAcc(pb, dim, acc, Exp(Sub(m0, m)), ExpShift(s, m), n0))
  {
    hide Sum, At, WVTerm, W, NewNorm, Sub, ExpShift, Total, Plus, Log, Unscaled;
    IterationFloor(s, lse0, m);
    LseStep(n0, s, lse0, m, WTerm(pb, i)) by {
      forall c | 0 <= c < |s| ensures Exp(s[c]) == WTerm(pb, i)(n0 + c) {}
    }
    var acc' := NewAcc(pb, dim, acc, Exp(Sub(m0, m)), ExpShift(s, m), n0);
    forall d | 0 <= d < dim ensures Unscaled(acc', d, m) == Sum(0, n0 + |s|, WVTerm(pb, i, d)) {
      AccStep(pb, dim, i, n0, d, s, m0, m, acc);
    }
  }

  // ---------------------------------------------------------------- end of the loop

  /** Keys at or beyond the loop's end are invisible to the rows of the block, so the sums
      over the visited keys are the full sums. */
  lemma VisitedKeysSuffice(pb: Problem, i: nat, n: nat)
    requires forall j | n <= j < pb.Sk() :: !pb.Visible(i, j)
    ensures Sum(0, n, WTerm(pb, i)) == RowSum(pb, i)
    ensures forall d :: Sum(0, n, WVTerm(pb, i, d)) == Sum(0, pb.Sk(), WVTerm(pb, i, d))
  {
    if n <= pb.Sk() {
      SumTail(0, n, pb.Sk(), WTerm(pb, i));
    } else {
      SumTail(0, pb.Sk(), n, WTerm(pb, i));
    }
    forall d ensures Sum(0, n, WVTerm(pb, i, d)) == Sum(0, pb.Sk(), WVTerm(pb, i, d)) {
      if n <= pb.Sk() {
        SumTail(0, n, pb.Sk(), WVTerm(pb, i, d));
      } else {
        SumTail(0, pb.Sk(), n, WVTerm(pb, i, d));
      }
    }
  }

  /** Dividing the weighted sum by the row sum gives softmax(scores) V. */
  lemma OutputFromWeights(pb: Problem, i: int, d: int)
    requires RowSum(pb, i) > 0.0
    ensures RowSum(pb, i) * Output(pb, i, d) == Sum(0, pb.Sk(), WVTerm(pb, i, d))
  {
    hide Sum, W, P, Load;
    forall j ensures WVTerm(pb, i, d)(j) == RowSum(pb, i) * PVTerm(pb, i, d)(j) {
      ProbabilityTimesSum(pb, i, j);
      Associate(RowSum(pb, i), P(pb, i, j), Load(pb.v, j, d));
    }
    SumScale(0, pb.Sk(), RowSum(pb, i), PVTerm(pb, i, d), WVTerm(pb, i, d));
  }

  lemma FinalLse(pb: Problem, dim: nat, i: nat, n: nat, m: LogReal, lse: LogReal, acc: seq<real>)
    requires RowInv(pb, dim, i, n, m, lse, acc) && n > 0
    requires forall j | n <= j < pb.Sk() :: !pb.Visible(i, j)
    ensures lse == Ln(RowSum(pb, i))
  {
    VisitedKeysSuffice(pb, i, n);
  }

  lemma FinalCancel(acc: real, ratio: real, w: real, total: real, o: real)
    requires total > 0.0 && ratio * total == w && acc * w == total * o
    ensures acc * ratio == o
  {
    assert total * (acc * ratio) == acc * (ratio * total);
    CancelFactor(total, acc * ratio, o);
  }

  /** acc_o * exp(m_i - lse_i) is the output. */
  lemma FinalScale(pb: Problem, dim: nat, i: nat, n: nat, d: int, m: LogReal, lse: LogReal, acc: seq<real>)
    requires RowInv(pb, dim, i, n, m, lse, acc) && n > 0 && 0 <= d < dim && RowSum(pb, i) > 0.0
    requires forall j | n <= j < pb.Sk() :: !pb.Visible(i, j)
    ensures lse == Ln(RowSum(pb, i)) && At(acc, d) * Exp(Sub(m, lse)) == Output(pb, i, d)
  {
    hide Sum, P, Output, WVTerm, Sub;
    VisitedKeysSuffice(pb, i, n);
    OutputFromWeights(pb, i, d);
    ExpSub(m, lse);
    FinalCancel(At(acc, d), Exp(Sub(m, lse)), Exp(m), RowSum(pb, i), Output(pb, i, d));
  }

  // ---------------------------------------------------------------- the kernel

  /** No tile the kernels visit holds a masked pair. */
  predicate NothingMasked(pb: Problem, bm: nat, bn: nat)
    requires bn > 0
  {
    if pb.causal then bn == 1 && (bm == 1 || pb.Sk() == 1) else pb.Sk() % bn == 0
  }

  /** The kernels mask before they scale: minus infinity must survive the scaling. */
  ghost predicate Usable(pb: Problem, bm: nat, bn: nat)
    requires bn > 0
  {
    pb.WellFormed() && (pb.scale > 0.0 || NothingMasked(pb, bm, bn))
  }

  /** The pairs of one tile survive the scaling. */
  ghost predicate TileScalable(pb: Problem, m0: int, rows: nat, n0: int, bn: nat) {
    pb.scale > 0.0 || forall i, j | m0 <= i < m0 + rows && n0 <= j < n0 + bn :: pb.Visible(i, j)
  }

  lemma RowIsScalable(pb: Problem, dim: nat, evenN: bool, m0: nat, rows: nat, i: int, n0: nat, bn: nat)
    requires TileScalable(pb, m0, rows, n0, bn) && m0 <= i < m0 + rows
    ensures Scalable(pb, RawRow(pb, dim, evenN, i, n0, bn))
  {
    hide Dot;
    if pb.scale <= 0.0 {
      forall c | 0 <= c < bn ensures RawRow(pb, dim, evenN, i, n0, bn)[c].Fin? {
        RawRowEntry(pb, dim, evenN, i, n0, bn, c);
        assert pb.Visible(i, n0 + c);
      }
    }
  }

  /** Where the loop over key blocks stops. */
  function EndN(pb: Problem, startM: nat, bm: nat): int {
    if pb.causal then TruncatedDivision.Min((startM + 1) * bm, pb.Sk()) else pb.Sk()
  }

  /** Every row of the tile keeps its invariant. */
  ghost predicate TileInv(pb: Problem, dim: nat, m0: nat, n: int,
                          m: seq<LogReal>, lse: seq<LogReal>, acc: seq<seq<real>>)
  {
    && |m| == |lse| == |acc|
    && forall r | 0 <= r < |m| :: RowInv(pb, dim, m0 + r, n, m[r], lse[r], acc[r])
  }

  /** One iteration of one row is numerically safe: no exponent is positive, the new norm lies in
      [1, bn + 1], and the new log-sum-exp is the new reference plus its logarithm. */
  ghost predicate SafeIteration(pb: Problem, dim: nat, evenN: bool, i: int, n0: int, bn: nat,
                                m: LogReal, lse: LogReal, m': LogReal, lse': LogReal)
    requires pb.WellFormed()
  {
    var raw := RawRow(pb, dim, evenN, i, n0, bn);
    && Scalable(pb, raw)
    && var s := ScoreRow(pb, i, n0, raw);
    && m'.Ln? && AtMost(Sub(m, m'), Ln(1.0)) && AtMost(Sub(lse, m'), Ln(1.0))
    && (forall c | 0 <= c < |s| :: AtMost(Sub(s[c], m'), Ln(1.0)))
    && 1.0 <= NewNorm(lse, m', ExpShift(s, m')) <= bn as real + 1.0
    && lse' == Plus(m', Log(NewNorm(lse, m', ExpShift(s, m')))) && AtMost(m', lse')
  }

  lemma IterationIsSafe(pb: Problem, dim: nat, evenN: bool, i: int, n0: int, bn: nat, m: LogReal, lse: LogReal,
                        m': LogReal)
    requires pb.WellFormed() && (pb.scale > 0.0 || !pb.bias.NoBias?) && AtMost(m, lse) && m'.Ln?
    requires var raw := RawRow(pb, dim, evenN, i, n0, bn);
             raw != [] && Scalable(pb, raw) && m' == Reference(pb, raw, ScoreRow(pb, i, n0, raw), lse)
    ensures var s := ScoreRow(pb, i, n0, RawRow(pb, dim, evenN, i, n0, bn));
            && NewNorm(lse, m', ExpShift(s, m')) > 0.0
            && SafeIteration(pb, dim, evenN, i, n0, bn, m, lse, m', Plus(m', Log(NewNorm(lse, m', ExpShift(s, m')))))
  {
    hide Reference, NewNorm, ExpShift, Sub, Plus, Log;
    var raw := RawRow(pb, dim, evenN, i, n0, bn);
    ReferenceBounds(pb, i, n0, raw, lse);
    IterationRange(ScoreRow(pb, i, n0, raw), m, lse, m');
  }

  lemma ReferenceBelowLse(pb: Problem, dim: nat, i: int, n: int, m: LogReal, lse: LogReal, acc: seq<real>)
    requires RowInv(pb, dim, i, n, m, lse, acc)
    ensures AtMost(m, lse)
  {
  }

  lemma FiniteAfterFirst(pb: Problem, dim: nat, i: int, n: int, m: LogReal, lse: LogReal, acc: seq<real>)
    requires RowInv(pb, dim, i, n, m, lse, acc)
    ensures n > 0 ==> lse.Ln?
  {
  }

  lemma WholeBlockFits(n0: int, bn: nat, sk: int)
    requires bn > 0 && n0 % bn == 0 && sk % bn == 0 && n0 < sk
    ensures n0 + bn <= sk
  {
    var a, b := n0 / bn, sk / bn;
    assert n0 == a * bn && sk == b * bn;
    if a + 1 <= b { TruncatedDivision.MulMonotone(a + 1, b, bn); }
    else { TruncatedDivision.MulMonotone(b, a, bn); }
  }

  lemma RawRowLength(pb: Problem, dim: nat, evenN: bool, i: int, n0: int, bn: nat)
    ensures |RawRow(pb, dim, evenN, i, n0, bn)| == bn
  {
  }

  /** The loop body: one key block for all rows of the tile. */
  method Iterate(pb: Problem, dim: nat, m0: nat, n0: nat, bn: nat,
                 m: seq<LogReal>, lse: seq<LogReal>, acc: seq<seq<real>>)
    returns (m': seq<LogReal>, lse': seq<LogReal>, acc': seq<seq<real>>)
    requires pb.WellFormed() && dim >= pb.headdim && bn > 0
    requires n0 < pb.Sk() && n0 % bn == 0 && TileScalable(pb, m0, |m|, n0, bn)
    requires TileInv(pb, dim, m0, n0, m, lse, acc)
    ensures |m'| == |m| && TileInv(pb, dim, m0, n0 + bn, m', lse', acc')
    ensures forall r | 0 <= r < |m| && (pb.scale > 0.0 || !pb.bias.NoBias?) ::
              SafeIteration(pb, dim, pb.Sk() % bn == 0, m0 + r, n0, bn, m[r], lse[r], m'[r], lse'[r])
  {
    hide SafeIteration, Sum, RowInv, NewNorm, NewAcc, ExpShift, Reference, ScoreRow, RawRow, W, Scalable, TileScalable;
    hide Problem.WellFormed, Plus, Log, Sub, Exp;
    var evenN := pb.Sk() % bn == 0;
    if evenN { WholeBlockFits(n0, bn, pb.Sk()); }
    var rows := |m|;
    var raw := seq(rows, r requires 0 <= r < rows => RawRow(pb, dim, evenN, m0 + r, n0, bn));
    forall r | 0 <= r < rows ensures Scalable(pb, raw[r]) && |raw[r]| == bn {
      RowIsScalable(pb, dim, evenN, m0, rows, m0 + r, n0, bn);
      RawRowLength(pb, dim, evenN, m0 + r, n0, bn);
    }
    var s := seq(rows, r requires 0 <= r < rows && Scalable(pb, raw[r]) => ScoreRow(pb, m0 + r, n0, raw[r]));
    m' := seq(rows, r requires 0 <= r < rows && raw[r] != [] && Scalable(pb, raw[r]) =>
      Reference(pb, raw[r], s[r], lse[r]));
    forall r | 0 <= r < rows ensures m'[r].Ln? {
      FiniteAfterFirst(pb, dim, m0 + r, n0, m[r], lse[r], acc[r]);
      ReferenceIsFinite(pb, dim, evenN, m0 + r, n0, bn, lse[r]);
    }
    var p := seq(rows, r requires 0 <= r < rows && m'[r].Ln? => ExpShift(s[r], m'[r]));
    acc' := seq(rows, r requires 0 <= r < rows && m'[r].Ln? =>
      NewAcc(pb, dim, acc[r], Exp(Sub(m[r], m'[r])), p[r], n0));
    var norm := seq(rows, r requires 0 <= r < rows && m'[r].Ln? => NewNorm(lse[r], m'[r], p[r]));
    forall r | 0 <= r < rows
      ensures norm[r] > 0.0
      ensures RowInv(pb, dim, m0 + r, n0 + bn, m'[r], Plus(m'[r], Log(norm[r])), acc'[r])
    {
      ScoresAreWeights(pb, dim, evenN, m0 + r, n0, bn);
      ReferenceBounds(pb, m0 + r, n0, raw[r], lse[r]);
      RowStep(pb, dim, m0 + r, n0, s[r], m[r], lse[r], acc[r], m'[r]);
    }
    forall r | 0 <= r < rows && (pb.scale > 0.0 || !pb.bias.NoBias?)
      ensures norm[r] > 0.0
              && SafeIteration(pb, dim, evenN, m0 + r, n0, bn, m[r], lse[r], m'[r], Plus(m'[r], Log(norm[r])))
    {
      ReferenceBelowLse(pb, dim, m0 + r, n0, m[r], lse[r], acc[r]);
      IterationIsSafe(pb, dim, evenN, m0 + r, n0, bn, m[r], lse[r], m'[r]);
    }
    lse' := seq(rows, r requires 0 <= r < rows && norm[r] > 0.0 => Plus(m'[r], Log(norm[r])));
  }

  /** acc_o * exp(m_i - lse_i) for one row. */
  function Rescaled(acc: seq<real>, m: LogReal, lse: LogReal): seq<real>
    requires lse.Ln?
  {
    seq(|acc|, d requires 0 <= d < |acc| => acc[d] * Exp(Sub(m, lse)))
  }

  /** A finished row: its log-sum-exp and its output. */
  ghost predicate RowDone(pb: Problem, dim: nat, i: int, lse: LogReal, o: seq<real>) {
    && RowSum(pb, i) > 0.0
    && lse == Ln(RowSum(pb, i))
    && forall d | 0 <= d < dim :: At(o, d) == Output(pb, i, d)
  }

  lemma StartOfLoop(pb: Problem, dim: nat, m0: nat, m: seq<LogReal>, lse: seq<LogReal>, acc: seq<seq<real>>)
    requires |m| == |lse| == |acc|
    requires forall r | 0 <= r < |m| :: m[r] == lse[r] == NegInf && acc[r] == seq(dim, _ => 0.0)
    ensures TileInv(pb, dim, m0, 0, m, lse, acc)
  {
  }

  /** When the loop over key blocks ends, every row holds its full sums. */
  lemma EndOfRow(pb: Problem, dim: nat, i: nat, n: nat, m: LogReal, lse: LogReal, acc: seq<real>)
    requires pb.WellFormed() && RowInv(pb, dim, i, n, m, lse, acc) && n > 0
    requires n >= pb.Sk() || (pb.causal && n > i)
    ensures lse.Ln? && RowDone(pb, dim, i, lse, Rescaled(acc, m, lse))
  {
    hide Sum, RowSum, Output, Sub;
    RowSumPositive(pb, i);
    FinalLse(pb, dim, i, n, m, lse, acc);
    forall d | 0 <= d < dim ensures At(Rescaled(acc, m, lse), d) == Output(pb, i, d) {
      FinalScale(pb, dim, i, n, d, m, lse, acc);
    }
  }

  lemma VisitedTileIsScalable(pb: Problem, startM: nat, bm: nat, n: nat, bn: nat)
    requires bn > 0 && Usable(pb, bm, bn) && n % bn == 0 && n < EndN(pb, startM, bm)
    ensures TileScalable(pb, startM * bm, bm, n, bn)
  {
    if !pb.causal && pb.scale <= 0.0 { WholeBlockFits(n, bn, pb.Sk()); }
    assert (startM + 1) * bm == startM * bm + bm;
  }

  lemma NextMultiple(n: nat, b: nat)
    requires b > 0 && n % b == 0
    ensures (n + b) % b == 0
  {
    var q := n / b;
    assert n + b == (q + 1) * b;
    TruncatedDivision.QuotientUnique(n + b, b, q + 1) by { assert (q + 2) * b == (q + 1) * b + b; }
  }

  /** The loop over key blocks for one tile of rows, up to the final rescaling. */
  method ForwardTile(pb: Problem, startM: nat, bm: nat, bn: nat, dim: nat)
    returns (o: seq<seq<real>>, lse: seq<LogReal>)
    requires bn > 0 && Usable(pb, bm, bn) && dim >= pb.headdim && bm > 0
    ensures |o| == |lse| == bm
    ensures forall r | 0 <= r < bm :: RowDone(pb, dim, startM * bm + r, lse[r], o[r])
  {
    hide Sum, RowSum, Output, RowInv, RowDone;
    var m0 := startM * bm;
    assert (startM + 1) * bm == m0 + bm;
    var m: seq<LogReal> := seq(bm, _ => NegInf);
    lse := seq(bm, _ => NegInf);
    var acc := seq(bm, _ => seq(dim, _ => 0.0));
    StartOfLoop(pb, dim, m0, m, lse, acc);
    var n, endN := 0, EndN(pb, startM, bm);
    while n < endN
      invariant 0 <= n && n % bn == 0 && (n == 0 ==> n < endN)
      invariant |m| == bm && TileInv(pb, dim, m0, n, m, lse, acc)
    {
      VisitedTileIsScalable(pb, startM, bm, n, bn);
      m, lse, acc := Iterate(pb, dim, m0, n, bn, m, lse, acc);
      NextMultiple(n, bn);
      n := n + bn;
    }
    forall r | 0 <= r < bm ensures lse[r].Ln? && RowDone(pb, dim, m0 + r, lse[r], Rescaled(acc[r], m[r], lse[r])) {
      EndOfRow(pb, dim, m0 + r, n, m[r], lse[r], acc[r]);
    }
    o := seq(bm, r requires 0 <= r < bm && lse[r].Ln? => Rescaled(acc[r], m[r], lse[r]));
  }

  lemma EndIsMultiple(blocks: int, bm: nat)
    requires bm > 0
    ensures blocks * bm % bm == 0
  {
    TruncatedDivision.QuotientUnique(blocks * bm, bm, blocks) by {
      assert (blocks + 1) * bm == blocks * bm + bm;
    }
  }

  /** One program of the launch grid: rows from startM * bm.  Out receives the rows and head
      dimensions that exist; Lse is written for the whole tile. */
  method ForwardBlock(pb: Problem, startM: nat, bm: nat, bn: nat, dim: nat,
                      out: array2<real>, lseOut: array<LogReal>)
    requires bn > 0 && Usable(pb, bm, bn) && dim >= pb.headdim && bm > 0
    requires out.Length0 == pb.Sq() && out.Length1 == pb.headdim
    requires lseOut.Length >= (startM + 1) * bm
    modifies out, lseOut
    ensures forall i, d | 0 <= i < pb.Sq() && 0 <= d < pb.headdim ::
              out[i, d] == if startM * bm <= i < (startM + 1) * bm then Output(pb, i, d) else old(out[i, d])
    ensures forall i | 0 <= i < lseOut.Length ::
              if startM * bm <= i < (startM + 1) * bm
              then RowSum(pb, i) > 0.0 && lseOut[i] == Ln(RowSum(pb, i))
              else lseOut[i] == old(lseOut[i])
  {
    hide Sum, RowSum, Output;
    var m0 := startM * bm;
    assert (startM + 1) * bm == m0 + bm;
    var o, lse := ForwardTile(pb, startM, bm, bn, dim);
    forall r | 0 <= r < bm {
      lseOut[m0 + r] := lse[r];
    }
    forall r, d | 0 <= r < bm && 0 <= d < dim && m0 + r < pb.Sq() && d < pb.headdim {
      out[m0 + r, d] := At(o[r], d);
    }
    forall i, d | m0 <= i < m0 + bm && i < pb.Sq() && 0 <= d < pb.headdim
      ensures out[i, d] == Output(pb, i, d)
    {
      assert out[m0 + (i - m0), d] == At(o[i - m0], d);
    }
    forall i | m0 <= i < m0 + bm ensures RowSum(pb, i) > 0.0 && lseOut[i] == Ln(RowSum(pb, i)) {
      assert lseOut[m0 + (i - m0)] == lse[i - m0];
    }
  }

  // ---------------------------------------------------------------- the launch

  /** seqlen_q_rounded: the least multiple of 128 that holds all rows. */
  function RoundedTo128(sq: nat): (r: nat)
    ensures sq <= r < sq + 128 && r % 128 == 0
  {
    (sq + 127) / 128 * 128
  }

  /** The grid's rows fit in the buffers of Lse and delta, which are rounded to 128 rows. */
  predicate FitsBuffers(sq: nat, bm: nat) {
    bm > 0 && TruncatedDivision.CeilDiv(sq, bm) * bm <= RoundedTo128(sq)
  }

  lemma MulAssoc(a: int, b: int, c: int)
    ensures a * (b * c) == a * b * c
  {
  }

  /** Every divisor of 128 fits, the launcher's block of 128 among them. */
  lemma BlocksFitRounded(sq: nat, bm: nat)
    requires bm > 0 && 128 % bm == 0
    ensures FitsBuffers(sq, bm)
  {
    var blocks := TruncatedDivision.CeilDiv(sq, bm);
    var total, per := RoundedTo128(sq), 128 / bm;
    var all := (sq + 127) / 128 * per;
    assert total == all * bm by { assert 128 == per * bm; MulAssoc((sq + 127) / 128, per, bm); }
    if blocks > all {
      TruncatedDivision.QuotientAtLeast(sq + bm - 1, bm, 0);
      TruncatedDivision.BelowCeilDiv(all, sq, bm);
    }
    TruncatedDivision.MulMonotone(blocks, all, bm);
  }

  lemma TileFits(sq: nat, bm: nat, m: nat)
    requires FitsBuffers(sq, bm) && m < TruncatedDivision.CeilDiv(sq, bm)
    ensures (m + 1) * bm <= RoundedTo128(sq)
  {
    TruncatedDivision.MulMonotone(m + 1, TruncatedDivision.CeilDiv(sq, bm), bm);
  }

  lemma BlocksCover(sq: nat, bm: nat)
    requires bm > 0
    ensures TruncatedDivision.CeilDiv(sq, bm) >= 0 && sq <= TruncatedDivision.CeilDiv(sq, bm) * bm
  {
    var blocks := TruncatedDivision.CeilDiv(sq, bm);
    TruncatedDivision.QuotientAtLeast(sq + bm - 1, bm, 0);
    TruncatedDivision.FloorBounds(sq + bm - 1, bm);
    assert (blocks + 1) * bm == blocks * bm + bm;
  }

  /** All programs of the grid, for any block size whose tiles fit the buffers: the output is
      softmax attention, and exp(lse) is the row sum of every row. */
  method Forward(pb: Problem, bm: nat, bn: nat, dim: nat) returns (out: array2<real>, lse: array<LogReal>)
    requires bn > 0 && Usable(pb, bm, bn) && dim >= pb.headdim && FitsBuffers(pb.Sq(), bm)
    ensures fresh(out) && fresh(lse)
    ensures out.Length0 == pb.Sq() && out.Length1 == pb.headdim && lse.Length == RoundedTo128(pb.Sq())
    ensures forall i, d | 0 <= i < pb.Sq() && 0 <= d < pb.headdim :: out[i, d] == Output(pb, i, d)
    ensures pb.Sq() <= TruncatedDivision.CeilDiv(pb.Sq(), bm) * bm <= lse.Length
    ensures forall i | 0 <= i < TruncatedDivision.CeilDiv(pb.Sq(), bm) * bm ::
              RowSum(pb, i) > 0.0 && lse[i] == Ln(RowSum(pb, i))
  {
    out := new real[pb.Sq(), pb.headdim];
    lse := new LogReal[RoundedTo128(pb.Sq())];
    var blocks := TruncatedDivision.CeilDiv(pb.Sq(), bm);
    BlocksCover(pb.Sq(), bm);
    var startM := 0;
    while startM < blocks
      invariant 0 <= startM <= blocks
      invariant forall i, d | 0 <= i < pb.Sq() && 0 <= d < pb.headdim && i < startM * bm ::
                  out[i, d] == Output(pb, i, d)
      invariant forall i | 0 <= i < lse.Length && i < startM * bm ::
                  RowSum(pb, i) > 0.0 && lse[i] == Ln(RowSum(pb, i))
    {
      hide Sum, RowSum, Output;
      TileFits(pb.Sq(), bm, startM);
      assert (startM + 1) * bm == startM * bm + bm;
      ForwardBlock(pb, startM, bm, bn, dim, out, lse);
      startM := startM + 1;
    }
  }
}
