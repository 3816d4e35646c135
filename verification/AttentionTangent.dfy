/** Why dQ = dS K, dK = dS' Q and dV = P' dO: they are the adjoint of the derivative of softmax
    attention.  A direction moves Q, K and V; product, chain and quotient rule, with the
    exponential its own derivative, say how the output moves; and pairing that with dO is
    pairing the direction with the three gradients. */
module AttentionTangent {
  import opened RealSums
  import opened LogReals
  import opened Attention
  import opened AttentionGradient

  /** A change of Q, K and V, by row and head dimension. */
  datatype Direction = Direction(q: (int, int) -> real, k: (int, int) -> real, v: (int, int) -> real)

  // ---------------------------------------------------------------- the derivative

  function ProductTerm(pb: Problem, t: Direction, i: int, j: int): int -> real {
    d => t.q(i, d) * Load(pb.k, j, d) + Load(pb.q, i, d) * t.k(j, d)
  }

  /** The inner product of query i and key j: the product rule. */
  function DProduct(pb: Problem, t: Direction, i: int, j: int): real {
    Sum(0, pb.headdim, ProductTerm(pb, t, i, j))
  }

  function DScore(pb: Problem, t: Direction, i: int, j: int): real { DProduct(pb, t, i, j) * pb.scale }

  /** The weight: the chain rule. */
  function DW(pb: Problem, t: Direction, i: int, j: int): real { W(pb, i, j) * DScore(pb, t, i, j) }

  function DWTerm(pb: Problem, t: Direction, i: int): int -> real { j => DW(pb, t, i, j) }

  function DRowSum(pb: Problem, t: Direction, i: int): real { Sum(0, pb.Sk(), DWTerm(pb, t, i)) }

  /** How w / r moves: the quotient rule. */
  function DQuotient(w: real, dw: real, r: real, dr: real): real {
    if r == 0.0 then 0.0 else (dw - w / r * dr) / r
  }

  function DProb(pb: Problem, t: Direction, i: int, j: int): real {
    DQuotient(W(pb, i, j), DW(pb, t, i, j), RowSum(pb, i), DRowSum(pb, t, i))
  }

  ghost function DOutputTerm(pb: Problem, t: Direction, i: int, d: int): int -> real {
    j => DProb(pb, t, i, j) * Load(pb.v, j, d) + P(pb, i, j) * t.v(j, d)
  }

  /** The output: the product rule once more. */
  ghost function DOutput(pb: Problem, t: Direction, i: int, d: int): real {
    Sum(0, pb.Sk(), DOutputTerm(pb, t, i, d))
  }

  // ---------------------------------------------------------------- the softmax row

  ghost function PScoreTerm(pb: Problem, t: Direction, i: int): int -> real {
    j => P(pb, i, j) * DScore(pb, t, i, j)
  }

  /** The mean change of the scores of a row. */
  ghost function MeanScore(pb: Problem, t: Direction, i: int): real { Sum(0, pb.Sk(), PScoreTerm(pb, t, i)) }

  lemma ProductQuotient(x: real, y: real)
    requires y > 0.0
    ensures x * y / y == x
  {
    QuotientTimes(x * y, y);
    CancelFactor(y, x * y / y, x);
  }

  lemma NumeratorIs(s: real, r: real, p: real, mean: real)
    ensures p * r * s - p * (r * mean) == p * (s - mean) * r
  {
    assert p * r * s == r * (p * s);
    assert p * (r * mean) == r * (p * mean);
    assert p * (s - mean) * r == r * (p * s) - r * (p * mean);
  }

  lemma DQuotientUnfolds(w: real, dw: real, r: real, dr: real, p: real, numerator: real)
    requires r > 0.0 && w / r == p && dw - p * dr == numerator
    ensures DQuotient(w, dw, r, dr) == numerator / r
  {
  }

  lemma DQuotientIs(w: real, dw: real, s: real, r: real, p: real, mean: real, dr: real)
    requires r > 0.0 && w == p * r && dw == w * s && dr == r * mean
    ensures DQuotient(w, dw, r, dr) == p * (s - mean)
  {
    hide *;
    ProductQuotient(p, r);
    NumeratorIs(s, r, p, mean);
    ProductQuotient(p * (s - mean), r);
    DQuotientUnfolds(w, dw, r, dr, p, p * (s - mean) * r);
  }

  /** A probability moves by itself times what its score moves more than the mean. */
  lemma DProbIs(pb: Problem, t: Direction, i: int, j: int)
    requires RowSum(pb, i) > 0.0
    ensures DProb(pb, t, i, j) == P(pb, i, j) * (DScore(pb, t, i, j) - MeanScore(pb, t, i))
  {
    hide Sum, W, DScore, RowSum, P, DQuotient;
    var r := RowSum(pb, i);
    forall l ensures DWTerm(pb, t, i)(l) == r * PScoreTerm(pb, t, i)(l) {
      ProbabilityTimesSum(pb, i, l);
      Associate(r, P(pb, i, l), DScore(pb, t, i, l));
    }
    SumScale(0, pb.Sk(), r, PScoreTerm(pb, t, i), DWTerm(pb, t, i));
    ProbabilityTimesSum(pb, i, j);
    DQuotientIs(W(pb, i, j), DW(pb, t, i, j), DScore(pb, t, i, j), r, P(pb, i, j), MeanScore(pb, t, i),
                DRowSum(pb, t, i));
  }

  // ---------------------------------------------------------------- exchanging sums

  function Times(f: (int, int) -> real, z: int -> real): (int, int) -> real { (a, d) => f(a, d) * z(d) }

  /** z(d) times the sum of column d. */
  function ColumnTerm(n: int, f: (int, int) -> real, z: int -> real): int -> real {
    d => z(d) * Inner(0, n, Transposed(f))(d)
  }

  lemma ColumnOfTimes(n: int, f: (int, int) -> real, z: int -> real, d: int)
    ensures Inner(0, n, Transposed(Times(f, z)))(d) == ColumnTerm(n, f, z)(d)
  {
    hide Sum;
    var column, scaled := Transposed(f), Transposed(Times(f, z));
    var g: int -> real := a => column(d, a);
    var h: int -> real := a => scaled(d, a);
    SumScale(0, n, z(d), g, h);
  }

  /** A factor that depends on the column alone comes out of the sum over the rows. */
  lemma Exchange(n: int, m: int, f: (int, int) -> real, z: int -> real)
    ensures Sum(0, n, Inner(0, m, Times(f, z))) == Sum(0, m, ColumnTerm(n, f, z))
  {
    hide Sum, ColumnTerm, Times;
    SumSwap(0, n, 0, m, Times(f, z));
    forall d ensures Inner(0, n, Transposed(Times(f, z)))(d) == ColumnTerm(n, f, z)(d) {
      ColumnOfTimes(n, f, z, d);
    }
    SumExt(0, m, Inner(0, n, Transposed(Times(f, z))), ColumnTerm(n, f, z));
  }

  // ---------------------------------------------------------------- one row

  ghost function ScoredTerm(pb: Problem, dO: seq<seq<real>>, t: Direction, i: int): int -> real {
    j => P(pb, i, j) * DScore(pb, t, i, j) * DP(pb, pb.headdim, dO, i, j)
  }

  ghost function ProbTerm(pb: Problem, dO: seq<seq<real>>, t: Direction, i: int): int -> real {
    j => DProb(pb, t, i, j) * DP(pb, pb.headdim, dO, i, j)
  }

  ghost function ScoreTerm(pb: Problem, dO: seq<seq<real>>, t: Direction, i: int): int -> real {
    j => DS(pb, dO, i, j) * DProduct(pb, t, i, j)
  }

  lemma Center(p: real, s: real, mean: real, x: real)
    ensures p * (s - mean) * x == p * s * x + (0.0 - mean) * (p * x)
  {
  }

  lemma CenterScore(p: real, x: real, dot: real, scale: real, u: real, s: real)
    requires s == u * scale
    ensures ScoreGradient(p, x, dot, scale) * u == p * s * x + (0.0 - dot) * (p * s)
  {
    assert p * (x - dot) * scale * u == p * (x - dot) * (scale * u);
  }

  lemma SumMinus(n: int, f: int -> real, c: real, g: int -> real, h: int -> real)
    requires forall j | 0 <= j < n :: h(j) == f(j) + (0.0 - c) * g(j)
    ensures Sum(0, n, h) == Sum(0, n, f) + (0.0 - c) * Sum(0, n, g)
  {
    var scaled: int -> real := j => (0.0 - c) * g(j);
    SumScale(0, n, 0.0 - c, g, scaled);
    SumAdd(0, n, f, scaled, h);
  }

  /** Centring the scores and centring dP is the same: the score gradient is the adjoint of the
      softmax row's derivative. */
  lemma ScoreGradientIsAdjoint(pb: Problem, dO: seq<seq<real>>, t: Direction, i: int)
    requires RowSum(pb, i) > 0.0
    ensures Sum(0, pb.Sk(), ProbTerm(pb, dO, t, i)) == Sum(0, pb.Sk(), ScoreTerm(pb, dO, t, i))
  {
    hide Sum, P, DP, DProb, DProduct, RowSum, ScoreGradient;
    var mean, dot := MeanScore(pb, t, i), RowDot(pb, dO, i);
    forall j ensures ProbTerm(pb, dO, t, i)(j)
                  == ScoredTerm(pb, dO, t, i)(j) + (0.0 - mean) * PDPTerm(pb, dO, i)(j)
    {
      DProbIs(pb, t, i, j);
      Center(P(pb, i, j), DScore(pb, t, i, j), mean, DP(pb, pb.headdim, dO, i, j));
    }
    SumMinus(pb.Sk(), ScoredTerm(pb, dO, t, i), mean, PDPTerm(pb, dO, i), ProbTerm(pb, dO, t, i));
    forall j ensures ScoreTerm(pb, dO, t, i)(j)
                  == ScoredTerm(pb, dO, t, i)(j) + (0.0 - dot) * PScoreTerm(pb, t, i)(j)
    {
      CenterScore(P(pb, i, j), DP(pb, pb.headdim, dO, i, j), dot, pb.scale, DProduct(pb, t, i, j),
                  DScore(pb, t, i, j));
    }
    SumMinus(pb.Sk(), ScoredTerm(pb, dO, t, i), dot, PScoreTerm(pb, t, i), ScoreTerm(pb, dO, t, i));
  }

  // ---------------------------------------------------------------- the three gradients

  function Row(x: (int, int) -> real, i: int): int -> real { d => x(i, d) }

  ghost function QTerms(pb: Problem, dO: seq<seq<real>>, i: int): (int, int) -> real {
    (j, d) => GradQTerm(pb, dO, i, d)(j)
  }

  ghost function KTerms(pb: Problem, dO: seq<seq<real>>, j: int): (int, int) -> real {
    (i, d) => GradKTerm(pb, dO, j, d)(i)
  }

  ghost function VTerms(pb: Problem, dO: seq<seq<real>>, j: int): (int, int) -> real {
    (i, d) => GradVTerm(pb, dO, j, d)(i)
  }

  /** What pair (i, j) contributes through Q, through K and through V. */
  ghost function QPart(pb: Problem, dO: seq<seq<real>>, t: Direction): (int, int) -> real {
    (i, j) => Inner(0, pb.headdim, Times(QTerms(pb, dO, i), Row(t.q, i)))(j)
  }

  ghost function KPart(pb: Problem, dO: seq<seq<real>>, t: Direction): (int, int) -> real {
    (i, j) => Inner(0, pb.headdim, Times(KTerms(pb, dO, j), Row(t.k, j)))(i)
  }

  ghost function VPart(pb: Problem, dO: seq<seq<real>>, t: Direction): (int, int) -> real {
    (i, j) => Inner(0, pb.headdim, Times(VTerms(pb, dO, j), Row(t.v, j)))(i)
  }

  lemma SplitProduct(ds: real, tq: real, k: real, q: real, tk: real)
    ensures ds * (tq * k + q * tk) == ds * k * tq + ds * q * tk
  {
  }

  lemma ScoreTermSplits(pb: Problem, dO: seq<seq<real>>, t: Direction, i: int, j: int)
    ensures ScoreTerm(pb, dO, t, i)(j) == QPart(pb, dO, t)(i, j) + KPart(pb, dO, t)(i, j)
  {
    hide Sum, DS, Load;
    var ds := DS(pb, dO, i, j);
    var throughQ := Times(QTerms(pb, dO, i), Row(t.q, i));
    var throughK := Times(KTerms(pb, dO, j), Row(t.k, j));
    var f: int -> real := d => throughQ(j, d);
    var g: int -> real := d => throughK(i, d);
    var h: int -> real := d => f(d) + g(d);
    forall d ensures h(d) == ds * ProductTerm(pb, t, i, j)(d) {
      SplitProduct(ds, t.q(i, d), Load(pb.k, j, d), Load(pb.q, i, d), t.k(j, d));
      assert f(d) == QTerms(pb, dO, i)(j, d) * Row(t.q, i)(d) == GradQTerm(pb, dO, i, d)(j) * t.q(i, d);
      assert g(d) == KTerms(pb, dO, j)(i, d) * Row(t.k, j)(d) == GradKTerm(pb, dO, j, d)(i) * t.k(j, d);
    }
    SumScale(0, pb.headdim, ds, ProductTerm(pb, t, i, j), h);
    SumAdd(0, pb.headdim, f, g, h);
    assert QPart(pb, dO, t)(i, j) == Inner(0, pb.headdim, throughQ)(j) == Sum(0, pb.headdim, f);
    assert KPart(pb, dO, t)(i, j) == Inner(0, pb.headdim, throughK)(i) == Sum(0, pb.headdim, g);
  }

  ghost function OutTerm(pb: Problem, dO: seq<seq<real>>, t: Direction, i: int): int -> real {
    d => Load(dO, i, d) * DOutput(pb, t, i, d)
  }

  /** dO(i, d) times what key j contributes to the movement of output (i, d). */
  ghost function OutParts(pb: Problem, dO: seq<seq<real>>, t: Direction, i: int): (int, int) -> real {
    (d, j) => Load(dO, i, d) * DOutputTerm(pb, t, i, d)(j)
  }

  lemma OutTermIs(pb: Problem, dO: seq<seq<real>>, t: Direction, i: int, d: int)
    ensures OutTerm(pb, dO, t, i)(d) == Inner(0, pb.Sk(), OutParts(pb, dO, t, i))(d)
  {
    hide Sum, Load, DOutputTerm;
    var parts := OutParts(pb, dO, t, i);
    var h: int -> real := j => parts(d, j);
    forall j ensures h(j) == Load(dO, i, d) * DOutputTerm(pb, t, i, d)(j) {
      assert h(j) == OutParts(pb, dO, t, i)(d, j);
    }
    SumScale(0, pb.Sk(), Load(dO, i, d), DOutputTerm(pb, t, i, d), h);
  }

  lemma SplitOut(o: real, dp: real, v: real, p: real, tv: real)
    ensures o * (dp * v + p * tv) == dp * (o * v) + p * o * tv
  {
  }

  lemma KeyPartIs(pb: Problem, dO: seq<seq<real>>, t: Direction, i: int, j: int)
    ensures Inner(0, pb.headdim, Transposed(OutParts(pb, dO, t, i)))(j)
         == ProbTerm(pb, dO, t, i)(j) + VPart(pb, dO, t)(i, j)
  {
    hide Sum, P, Load, DProb;
    var dp := DProb(pb, t, i, j);
    var dpTerm := DPTerm(pb, dO, i, j);
    var f: int -> real := d => dp * dpTerm(d);
    var throughV, parts := Times(VTerms(pb, dO, j), Row(t.v, j)), Transposed(OutParts(pb, dO, t, i));
    var g: int -> real := d => throughV(i, d);
    var h: int -> real := d => parts(j, d);
    forall d ensures h(d) == f(d) + g(d) {
      SplitOut(Load(dO, i, d), dp, Load(pb.v, j, d), P(pb, i, j), t.v(j, d));
      assert g(d) == VTerms(pb, dO, j)(i, d) * Row(t.v, j)(d) == GradVTerm(pb, dO, j, d)(i) * t.v(j, d);
      assert GradVTerm(pb, dO, j, d)(i) == P(pb, i, j) * Load(dO, i, d);
      assert f(d) == dp * (Load(dO, i, d) * Load(pb.v, j, d));
      assert DOutputTerm(pb, t, i, d)(j) == dp * Load(pb.v, j, d) + P(pb, i, j) * t.v(j, d);
      assert h(d) == OutParts(pb, dO, t, i)(d, j) == Load(dO, i, d) * DOutputTerm(pb, t, i, d)(j);
    }
    SumScale(0, pb.headdim, dp, DPTerm(pb, dO, i, j), f);
    SumAdd(0, pb.headdim, f, g, h);
    assert VPart(pb, dO, t)(i, j) == Inner(0, pb.headdim, throughV)(i) == Sum(0, pb.headdim, g);
    assert Inner(0, pb.headdim, parts)(j) == Sum(0, pb.headdim, h);
  }

  // ---------------------------------------------------------------- the adjoint

  /** The movement of row i of the output, paired with dO. */
  lemma RowPairing(pb: Problem, dO: seq<seq<real>>, t: Direction, i: int)
    requires RowSum(pb, i) > 0.0
    ensures Sum(0, pb.headdim, OutTerm(pb, dO, t, i))
         == Sum(0, pb.Sk(), Row(QPart(pb, dO, t), i)) + Sum(0, pb.Sk(), Row(KPart(pb, dO, t), i))
            + Sum(0, pb.Sk(), Row(VPart(pb, dO, t), i))
  {
    hide Sum, Inner, QPart, KPart, VPart, OutParts, OutTerm, ProbTerm, ScoreTerm, RowSum;
    var parts := OutParts(pb, dO, t, i);
    var qs, ks, vs := Row(QPart(pb, dO, t), i), Row(KPart(pb, dO, t), i), Row(VPart(pb, dO, t), i);
    forall d ensures OutTerm(pb, dO, t, i)(d) == Inner(0, pb.Sk(), parts)(d) { OutTermIs(pb, dO, t, i, d); }
    SumExt(0, pb.headdim, OutTerm(pb, dO, t, i), Inner(0, pb.Sk(), parts));
    SumSwap(0, pb.headdim, 0, pb.Sk(), parts);
    forall j ensures Inner(0, pb.headdim, Transposed(parts))(j) == ProbTerm(pb, dO, t, i)(j) + vs(j) {
      KeyPartIs(pb, dO, t, i, j);
    }
    SumAdd(0, pb.Sk(), ProbTerm(pb, dO, t, i), vs, Inner(0, pb.headdim, Transposed(parts)));
    ScoreGradientIsAdjoint(pb, dO, t, i);
    forall j ensures ScoreTerm(pb, dO, t, i)(j) == qs(j) + ks(j) { ScoreTermSplits(pb, dO, t, i, j); }
    SumAdd(0, pb.Sk(), qs, ks, ScoreTerm(pb, dO, t, i));
  }

  function Products(a: (int, int) -> real, b: (int, int) -> real): (int, int) -> real {
    (i, d) => a(i, d) * b(i, d)
  }

  /** The sum of the entrywise products of two n-by-m matrices. */
  function Pairing(n: int, m: int, a: (int, int) -> real, b: (int, int) -> real): real {
    Sum(0, n, Inner(0, m, Products(a, b)))
  }

  ghost function DOutputs(pb: Problem, t: Direction): (int, int) -> real { (i, d) => DOutput(pb, t, i, d) }

  function Entries2(x: seq<seq<real>>): (int, int) -> real { (i, d) => Load(x, i, d) }

  ghost function GradQs(pb: Problem, dO: seq<seq<real>>): (int, int) -> real { (i, d) => GradQ(pb, dO, i, d) }

  ghost function GradKs(pb: Problem, dO: seq<seq<real>>): (int, int) -> real { (j, d) => GradK(pb, dO, j, d) }

  ghost function GradVs(pb: Problem, dO: seq<seq<real>>): (int, int) -> real { (j, d) => GradV(pb, dO, j, d) }

  lemma ColumnIs(n: int, f: (int, int) -> real, d: int, g: int -> real)
    requires forall a :: f(a, d) == g(a)
    ensures Inner(0, n, Transposed(f))(d) == Sum(0, n, g)
  {
    hide Sum;
    var column := Transposed(f);
    SumExt(0, n, a => column(d, a), g);
  }

  /** Exchange for parts, gradients and products given by name. */
  lemma FactorOut(n: int, m: int, f: (int, int) -> real, z: int -> real, part: int -> real, products: int -> real)
    requires forall a :: part(a) == Inner(0, m, Times(f, z))(a)
    requires forall d :: products(d) == z(d) * Inner(0, n, Transposed(f))(d)
    ensures Sum(0, n, part) == Sum(0, m, products)
  {
    hide Sum, Inner, Transposed, Times;
    SumExt(0, n, part, Inner(0, m, Times(f, z)));
    Exchange(n, m, f, z);
    SumExt(0, m, ColumnTerm(n, f, z), products);
  }

  lemma QueryPairing(pb: Problem, dO: seq<seq<real>>, t: Direction, i: int)
    ensures Sum(0, pb.Sk(), Row(QPart(pb, dO, t), i)) == Inner(0, pb.headdim, Products(t.q, GradQs(pb, dO)))(i)
  {
    hide Sum, GradQTerm;
    var f, z, products := QTerms(pb, dO, i), Row(t.q, i), Products(t.q, GradQs(pb, dO));
    var row: int -> real := d => products(i, d);
    forall d ensures row(d) == z(d) * Inner(0, pb.Sk(), Transposed(f))(d) {
      ColumnIs(pb.Sk(), f, d, GradQTerm(pb, dO, i, d));
      assert row(d) == t.q(i, d) * GradQs(pb, dO)(i, d);
    }
    FactorOut(pb.Sk(), pb.headdim, f, z, Row(QPart(pb, dO, t), i), row);
  }

  lemma KeyPairing(pb: Problem, dO: seq<seq<real>>, t: Direction, j: int)
    ensures Inner(0, pb.Sq(), Transposed(KPart(pb, dO, t)))(j)
         == Inner(0, pb.headdim, Products(t.k, GradKs(pb, dO)))(j)
  {
    hide Sum, GradKTerm;
    var f, z, products := KTerms(pb, dO, j), Row(t.k, j), Products(t.k, GradKs(pb, dO));
    var row: int -> real := d => products(j, d);
    forall d ensures row(d) == z(d) * Inner(0, pb.Sq(), Transposed(f))(d) {
      ColumnIs(pb.Sq(), f, d, GradKTerm(pb, dO, j, d));
      assert row(d) == t.k(j, d) * GradKs(pb, dO)(j, d);
    }
    var parts := Transposed(KPart(pb, dO, t));
    var column: int -> real := i => parts(j, i);
    forall i ensures column(i) == Inner(0, pb.headdim, Times(f, z))(i) {
      assert column(i) == KPart(pb, dO, t)(i, j);
    }
    FactorOut(pb.Sq(), pb.headdim, f, z, column, row);
  }

  lemma ValuePairing(pb: Problem, dO: seq<seq<real>>, t: Direction, j: int)
    ensures Inner(0, pb.Sq(), Transposed(VPart(pb, dO, t)))(j)
         == Inner(0, pb.headdim, Products(t.v, GradVs(pb, dO)))(j)
  {
    hide Sum, GradVTerm;
    var f, z, products := VTerms(pb, dO, j), Row(t.v, j), Products(t.v, GradVs(pb, dO));
    var row: int -> real := d => products(j, d);
    forall d ensures row(d) == z(d) * Inner(0, pb.Sq(), Transposed(f))(d) {
      ColumnIs(pb.Sq(), f, d, GradVTerm(pb, dO, j, d));
      assert row(d) == t.v(j, d) * GradVs(pb, dO)(j, d);
    }
    var parts := Transposed(VPart(pb, dO, t));
    var column: int -> real := i => parts(j, i);
    forall i ensures column(i) == Inner(0, pb.headdim, Times(f, z))(i) {
      assert column(i) == VPart(pb, dO, t)(i, j);
    }
    FactorOut(pb.Sq(), pb.headdim, f, z, column, row);
  }

  /** Row i of the pairing in terms of the parts of its pairs. */
  lemma RowOfPairing(pb: Problem, dO: seq<seq<real>>, t: Direction, i: int)
    requires RowSum(pb, i) > 0.0
    ensures Inner(0, pb.headdim, Products(Entries2(dO), DOutputs(pb, t)))(i)
         == Inner(0, pb.headdim, Products(t.q, GradQs(pb, dO)))(i)
            + Inner(0, pb.Sk(), KPart(pb, dO, t))(i) + Inner(0, pb.Sk(), VPart(pb, dO, t))(i)
  {
    hide Sum, KPart, VPart, QPart, RowSum, DOutput, GradQ, Load;
    RowPairing(pb, dO, t, i);
    QueryPairing(pb, dO, t, i);
    var products, ks, vs := Products(Entries2(dO), DOutputs(pb, t)), KPart(pb, dO, t), VPart(pb, dO, t);
    SumExt(0, pb.headdim, d => products(i, d), OutTerm(pb, dO, t, i));
    SumExt(0, pb.Sk(), j => ks(i, j), Row(ks, i));
    SumExt(0, pb.Sk(), j => vs(i, j), Row(vs, i));
  }

  lemma AddThree(n: int, f: int -> real, a: int -> real, b: int -> real, c: int -> real)
    requires forall i | 0 <= i < n :: f(i) == a(i) + b(i) + c(i)
    ensures Sum(0, n, f) == Sum(0, n, a) + Sum(0, n, b) + Sum(0, n, c)
  {
    var ab: int -> real := i => a(i) + b(i);
    SumAdd(0, n, a, b, ab);
    SumAdd(0, n, ab, c, f);
  }

  /** For every direction, dO paired with the movement of the output is the movement of Q, K and V
      paired with dQ, dK and dV. */
  lemma GradientsAreAdjoint(pb: Problem, dO: seq<seq<real>>, t: Direction)
    requires pb.WellFormed()
    ensures Pairing(pb.Sq(), pb.headdim, Entries2(dO), DOutputs(pb, t))
         == Pairing(pb.Sq(), pb.headdim, t.q, GradQs(pb, dO)) + Pairing(pb.Sk(), pb.headdim, t.k, GradKs(pb, dO))
            + Pairing(pb.Sk(), pb.headdim, t.v, GradVs(pb, dO))
  {
    hide Sum, Inner, Products, KPart, VPart, RowSum;
    var q, k, hd := pb.Sq(), pb.Sk(), pb.headdim;
    var ks, vs := KPart(pb, dO, t), VPart(pb, dO, t);
    forall i | 0 <= i < q
      ensures Inner(0, hd, Products(Entries2(dO), DOutputs(pb, t)))(i)
           == Inner(0, hd, Products(t.q, GradQs(pb, dO)))(i) + Inner(0, k, ks)(i) + Inner(0, k, vs)(i)
    {
      RowSumPositive(pb, i);
      RowOfPairing(pb, dO, t, i);
    }
    AddThree(q, Inner(0, hd, Products(Entries2(dO), DOutputs(pb, t))), Inner(0, hd, Products(t.q, GradQs(pb, dO))),
             Inner(0, k, ks), Inner(0, k, vs));
    SumSwap(0, q, 0, k, ks);
    SumSwap(0, q, 0, k, vs);
    forall j
      ensures Inner(0, q, Transposed(ks))(j) == Inner(0, hd, Products(t.k, GradKs(pb, dO)))(j)
      ensures Inner(0, q, Transposed(vs))(j) == Inner(0, hd, Products(t.v, GradVs(pb, dO)))(j)
    {
      KeyPairing(pb, dO, t, j);
      ValuePairing(pb, dO, t, j);
    }
    SumExt(0, k, Inner(0, q, Transposed(ks)), Inner(0, hd, Products(t.k, GradKs(pb, dO))));
    SumExt(0, k, Inner(0, q, Transposed(vs)), Inner(0, hd, Products(t.v, GradVs(pb, dO))));
  }
}
