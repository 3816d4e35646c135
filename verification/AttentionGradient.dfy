/** The gradient of softmax attention with respect to its inputs, and the identities the
    backward kernel relies on. */
module AttentionGradient {
  import opened RealSums
  import opened LogReals
  import opened Attention

  /** dP = dO V' */
  function DPTerm(pb: Problem, dO: seq<seq<real>>, i: int, j: int): int -> real {
    d => Load(dO, i, d) * Load(pb.v, j, d)
  }

  function DP(pb: Problem, dim: nat, dO: seq<seq<real>>, i: int, j: int): real {
    Sum(0, dim, DPTerm(pb, dO, i, j))
  }

  ghost function PDPTerm(pb: Problem, dO: seq<seq<real>>, i: int): int -> real {
    j => P(pb, i, j) * DP(pb, pb.headdim, dO, i, j)
  }

  /** rowsum(P o dP) */
  ghost function RowDot(pb: Problem, dO: seq<seq<real>>, i: int): real {
    Sum(0, pb.Sk(), PDPTerm(pb, dO, i))
  }

  function ScoreGradient(p: real, dp: real, dot: real, scale: real): real { p * (dp - dot) * scale }

  /** dS = scale * P o (dP - rowsum(P o dP)) */
  ghost function DS(pb: Problem, dO: seq<seq<real>>, i: int, j: int): real {
    ScoreGradient(P(pb, i, j), DP(pb, pb.headdim, dO, i, j), RowDot(pb, dO, i), pb.scale)
  }

  ghost function GradVTerm(pb: Problem, dO: seq<seq<real>>, j: int, d: int): int -> real {
    i => P(pb, i, j) * Load(dO, i, d)
  }

  ghost function GradKTerm(pb: Problem, dO: seq<seq<real>>, j: int, d: int): int -> real {
    i => DS(pb, dO, i, j) * Load(pb.q, i, d)
  }

  ghost function GradQTerm(pb: Problem, dO: seq<seq<real>>, i: int, d: int): int -> real {
    j => DS(pb, dO, i, j) * Load(pb.k, j, d)
  }

  /** dV = P' dO,  dK = dS' Q,  dQ = dS K. */
  ghost function GradV(pb: Problem, dO: seq<seq<real>>, j: int, d: int): real {
    Sum(0, pb.Sq(), GradVTerm(pb, dO, j, d))
  }

  ghost function GradK(pb: Problem, dO: seq<seq<real>>, j: int, d: int): real {
    Sum(0, pb.Sq(), GradKTerm(pb, dO, j, d))
  }

  ghost function GradQ(pb: Problem, dO: seq<seq<real>>, i: int, d: int): real {
    Sum(0, pb.Sk(), GradQTerm(pb, dO, i, d))
  }

  // ---------------------------------------------------------------- the delta trick

  ghost function ODOTerm(pb: Problem, dO: seq<seq<real>>, i: int): int -> real {
    d => Output(pb, i, d) * Load(dO, i, d)
  }

  /** P[i, j] * V[j, d] * dO[i, d], to be summed over d and j in either order. */
  ghost function Triple(pb: Problem, dO: seq<seq<real>>, i: int): (int, int) -> real {
    (d, j) => P(pb, i, j) * Load(pb.v, j, d) * Load(dO, i, d)
  }

  lemma Rotate(a: real, b: real, c: real)
    ensures a * b * c == c * (a * b)
  {
  }

  lemma OutputTimesDO(pb: Problem, dO: seq<seq<real>>, i: int, d: int)
    ensures Output(pb, i, d) * Load(dO, i, d) == Inner(0, pb.Sk(), Triple(pb, dO, i))(d)
  {
    hide Sum;
    var c := Load(dO, i, d);
    var h: int -> real := j => Triple(pb, dO, i)(d, j);
    SumScale(0, pb.Sk(), c, PVTerm(pb, i, d), h) by {
      forall j ensures h(j) == c * PVTerm(pb, i, d)(j) {
        var a, b := P(pb, i, j), Load(pb.v, j, d);
        assert h(j) == Triple(pb, dO, i)(d, j);
        assert Triple(pb, dO, i)(d, j) == a * b * c;
        assert PVTerm(pb, i, d)(j) == a * b;
        Rotate(a, b, c);
      }
    }
  }

  lemma Regroup(a: real, b: real, c: real)
    ensures a * b * c == a * (c * b)
  {
  }

  lemma PTimesDP(pb: Problem, dO: seq<seq<real>>, i: int, j: int)
    ensures P(pb, i, j) * DP(pb, pb.headdim, dO, i, j) == Inner(0, pb.headdim, Transposed(Triple(pb, dO, i)))(j)
  {
    hide Sum;
    var c := P(pb, i, j);
    var g := Transposed(Triple(pb, dO, i));
    var h: int -> real := d => g(j, d);
    SumScale(0, pb.headdim, c, DPTerm(pb, dO, i, j), h) by {
      forall d ensures h(d) == c * DPTerm(pb, dO, i, j)(d) {
        var a, b := Load(pb.v, j, d), Load(dO, i, d);
        assert h(d) == g(j, d) == Triple(pb, dO, i)(d, j);
        assert Triple(pb, dO, i)(d, j) == c * a * b;
        assert DPTerm(pb, dO, i, j)(d) == b * a;
        Regroup(c, a, b);
      }
    }
  }

  /** sum(o * do) over the head dimension equals rowsum(P o dP) over the keys. */
  lemma DeltaTrick(pb: Problem, dO: seq<seq<real>>, i: int)
    ensures Sum(0, pb.headdim, ODOTerm(pb, dO, i)) == RowDot(pb, dO, i)
  {
    hide Sum, P, Load;
    var g := Triple(pb, dO, i);
    SumExt(0, pb.headdim, ODOTerm(pb, dO, i), Inner(0, pb.Sk(), g)) by {
      forall d ensures ODOTerm(pb, dO, i)(d) == Inner(0, pb.Sk(), g)(d) { OutputTimesDO(pb, dO, i, d); }
    }
    SumSwap(0, pb.headdim, 0, pb.Sk(), g);
    SumExt(0, pb.Sk(), PDPTerm(pb, dO, i), Inner(0, pb.headdim, Transposed(g))) by {
      forall j ensures PDPTerm(pb, dO, i)(j) == Inner(0, pb.headdim, Transposed(g))(j) { PTimesDP(pb, dO, i, j); }
    }
  }

  /** Padding the head dimension does not change dP. */
  lemma PaddedDP(pb: Problem, dim: nat, dO: seq<seq<real>>, i: int, j: int)
    requires pb.WellFormed() && dim >= pb.headdim
    ensures DP(pb, dim, dO, i, j) == DP(pb, pb.headdim, dO, i, j)
  {
    SumTail(0, pb.headdim, dim, DPTerm(pb, dO, i, j));
  }

  ghost function DSTerm(pb: Problem, dO: seq<seq<real>>, i: int): int -> real { j => DS(pb, dO, i, j) }

  lemma Factor(p: real, x: real, dot: real, scale: real)
    ensures p * (x - dot) * scale == scale * (p * x + (0.0 - dot) * p)
  {
  }

  /** The gradient ignores a constant added to all scores of a row: dS sums to zero there. */
  lemma ScoreGradientsCancel(pb: Problem, dO: seq<seq<real>>, i: int)
    requires RowSum(pb, i) > 0.0
    ensures Sum(0, pb.Sk(), DSTerm(pb, dO, i)) == 0.0
  {
    hide Sum, P, DP, RowSum;
    ProbabilitiesSumToOne(pb, i);
    var dot, scale := RowDot(pb, dO, i), pb.scale;
    var f, g, h := PDPTerm(pb, dO, i), PTerm(pb, i), DSTerm(pb, dO, i);
    var minus: int -> real := j => (0.0 - dot) * g(j);
    var centered: int -> real := j => f(j) + minus(j);
    SumScale(0, pb.Sk(), 0.0 - dot, g, minus);
    SumAdd(0, pb.Sk(), f, minus, centered);
    SumScale(0, pb.Sk(), scale, centered, h) by {
      forall j ensures h(j) == scale * centered(j) {
        Factor(P(pb, i, j), DP(pb, pb.headdim, dO, i, j), dot, scale);
      }
    }
  }

  // ---------------------------------------------------------------- invisible pairs

  lemma InvisiblePairsAreZero(pb: Problem, dO: seq<seq<real>>, i: int, j: int)
    requires !pb.Visible(i, j)
    ensures P(pb, i, j) == 0.0 && DS(pb, dO, i, j) == 0.0
  {
    hide Sum;
  }

  /** Rows below n do not see key j: they add nothing to its dV and dK. */
  lemma SkippedRowsAddNothing(pb: Problem, dO: seq<seq<real>>, j: int, d: int, n: int)
    requires forall i | 0 <= i < n :: !pb.Visible(i, j)
    ensures Sum(0, n, GradVTerm(pb, dO, j, d)) == 0.0 && Sum(0, n, GradKTerm(pb, dO, j, d)) == 0.0
  {
    hide Sum, P, DS, Load;
    forall i | 0 <= i < n
      ensures GradVTerm(pb, dO, j, d)(i) == 0.0 && GradKTerm(pb, dO, j, d)(i) == 0.0
    {
      InvisiblePairsAreZero(pb, dO, i, j);
    }
    SumZero(0, n, GradVTerm(pb, dO, j, d));
    SumZero(0, n, GradKTerm(pb, dO, j, d));
  }

  /** A key block a row does not see adds nothing to its dQ. */
  lemma SkippedKeysAddNothing(pb: Problem, dO: seq<seq<real>>, i: int, d: int, lo: int, hi: int)
    requires forall j | lo <= j < hi :: !pb.Visible(i, j)
    ensures Sum(lo, hi, GradQTerm(pb, dO, i, d)) == 0.0
  {
    hide Sum, P, DS, Load;
    forall j | lo <= j < hi ensures GradQTerm(pb, dO, i, d)(j) == 0.0 {
      InvisiblePairsAreZero(pb, dO, i, j);
    }
    SumZero(lo, hi, GradQTerm(pb, dO, i, d));
  }

  /** Padded query rows add nothing to dV and dK. */
  lemma PaddedRowsAddNothing(pb: Problem, dO: seq<seq<real>>, j: int, d: int, n: int)
    requires |dO| == pb.Sq() <= n
    ensures Sum(0, n, GradVTerm(pb, dO, j, d)) == GradV(pb, dO, j, d)
    ensures Sum(0, n, GradKTerm(pb, dO, j, d)) == GradK(pb, dO, j, d)
  {
    hide Sum, P, DS;
    SumTail(0, pb.Sq(), n, GradVTerm(pb, dO, j, d));
    SumTail(0, pb.Sq(), n, GradKTerm(pb, dO, j, d));
  }
}
