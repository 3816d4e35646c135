/** Plain softmax attention and its gradient, the specification of the tiled kernels:
    `FA4_fp32/reference.py` with the masks and biases of `flash_attn/flash_attn_triton.py`. */
module Attention {
  import opened RealSums
  import opened LogReals

  /** A masked load: 0 outside the matrix (`other=0.0`). */
  function Load(x: seq<seq<real>>, i: int, d: int): real {
    if 0 <= i < |x| then At(x[i], d) else 0.0
  }

  predicate Shaped(x: seq<seq<real>>, rows: nat, cols: nat) {
    |x| == rows && forall i | 0 <= i < rows :: |x[i]| == cols
  }

  datatype Bias = NoBias | VectorBias(b: seq<real>) | MatrixBias(m: seq<seq<real>>)

  ghost predicate OrderKept(e: real -> real, x: real, y: real) { x <= y ==> e(x) <= e(y) }

  /** One head of one batch entry.  `e` is the exponential; the proofs use only that it is
      positive and non-decreasing. */
  datatype Problem = Problem(q: seq<seq<real>>, k: seq<seq<real>>, v: seq<seq<real>>, headdim: nat,
                             bias: Bias, causal: bool, scale: real, e: real -> real)
  {
    function Sq(): nat { |q| }
    function Sk(): nat { |k| }

    ghost predicate WellFormed() {
      && Sk() >= 1
      && Shaped(q, Sq(), headdim) && Shaped(k, Sk(), headdim) && Shaped(v, Sk(), headdim)
      && (bias.VectorBias? ==> |bias.b| == Sk())
      && (bias.MatrixBias? ==> Shaped(bias.m, Sq(), Sk()))
      && (forall x :: e(x) > 0.0)
      && (forall x, y :: OrderKept(e, x, y))
    }

    function BiasAt(i: int, j: int): real {
      match bias
      case NoBias => 0.0
      case VectorBias(b) => At(b, j)
      case MatrixBias(m) => Load(m, i, j)
    }

    predicate Visible(i: int, j: int) { 0 <= j < Sk() && (causal ==> j <= i) }
  }

  // ---------------------------------------------------------------- forward

  function QKTerm(pb: Problem, i: int, j: int): int -> real {
    d => Load(pb.q, i, d) * Load(pb.k, j, d)
  }

  /** Entry (i, j) of QK', with the head dimension padded to dim. */
  function Dot(pb: Problem, dim: int, i: int, j: int): real { Sum(0, dim, QKTerm(pb, i, j)) }

  function Scaled(pb: Problem, x: real, bias: real): real { x * pb.scale + bias }

  function ExpScore(pb: Problem, x: real, bias: real): real { pb.e(Scaled(pb, x, bias)) }

  /** exp of the masked, scaled and biased score. */
  function W(pb: Problem, i: int, j: int): real {
    if pb.Visible(i, j) then ExpScore(pb, Dot(pb, pb.headdim, i, j), pb.BiasAt(i, j)) else 0.0
  }

  function WTerm(pb: Problem, i: int): int -> real { j => W(pb, i, j) }

  /** The softmax denominator, exp(logsumexp of the row). */
  function RowSum(pb: Problem, i: int): real { Sum(0, pb.Sk(), WTerm(pb, i)) }

  lemma RowSumPositive(pb: Problem, i: int)
    requires pb.WellFormed() && i >= 0
    ensures W(pb, i, 0) > 0.0 && RowSum(pb, i) > 0.0
  {
    SumAtLeast(0, pb.Sk(), WTerm(pb, i), 0);
  }

  /** softmax(scores)[i, j].  Rows i >= 0 always see key 0, so the sum is positive there. */
  ghost function P(pb: Problem, i: int, j: int): real {
    if RowSum(pb, i) == 0.0 then 0.0 else W(pb, i, j) / RowSum(pb, i)
  }

  ghost function PTerm(pb: Problem, i: int): int -> real { j => P(pb, i, j) }

  ghost function PVTerm(pb: Problem, i: int, d: int): int -> real {
    j => P(pb, i, j) * Load(pb.v, j, d)
  }

  /** softmax(scores) V at (i, d). */
  ghost function Output(pb: Problem, i: int, d: int): real { Sum(0, pb.Sk(), PVTerm(pb, i, d)) }

  /** Padding the head dimension with zeros does not change a product. */
  lemma PaddedDot(pb: Problem, dim: int, i: int, j: int)
    requires pb.WellFormed() && dim >= pb.headdim
    ensures Dot(pb, dim, i, j) == Dot(pb, pb.headdim, i, j)
  {
    SumTail(0, pb.headdim, dim, QKTerm(pb, i, j));
  }

  // ---------------------------------------------------------------- what a weight is

  function InnerProduct(x: seq<real>, y: seq<real>): real
    requires |x| == |y|
  {
    if x == [] then 0.0 else InnerProduct(x[1..], y[1..]) + x[0] * y[0]
  }

  lemma {:induction false} InnerProductIsSum(x: seq<real>, y: seq<real>, f: int -> real, lo: nat)
    requires |x| == |y| && forall d | 0 <= d < |x| :: f(lo + d) == x[d] * y[d]
    ensures InnerProduct(x, y) == Sum(lo, lo + |x|, f)
  {
    if x != [] {
      forall d | 0 <= d < |x| - 1 ensures f(lo + 1 + d) == x[1..][d] * y[1..][d] {
        assert f(lo + (d + 1)) == x[d + 1] * y[d + 1];
      }
      InnerProductIsSum(x[1..], y[1..], f, lo + 1);
      SumSplit(lo, lo + 1, lo + |x|, f);
      assert f(lo + 0) == x[0] * y[0];
    }
  }

  /** The bias of a pair of the matrix. */
  function BiasOf(bias: Bias, i: nat, j: nat): real
    requires bias.VectorBias? ==> j < |bias.b|
    requires bias.MatrixBias? ==> i < |bias.m| && j < |bias.m[i]|
  {
    match bias
    case NoBias => 0.0
    case VectorBias(b) => b[j]
    case MatrixBias(m) => m[i][j]
  }

  lemma ScaledIs(pb: Problem, x: real, bias: real, score: real)
    requires score == x * pb.scale + bias
    ensures ExpScore(pb, x, bias) == pb.e(score)
  {
    assert Scaled(pb, x, bias) == score;
  }

  /** For a query and a key that exist: exp of the scaled inner product of query row i and key
      row j plus the bias of the pair, or 0 for a key after the query under a causal mask. */
  lemma WeightIs(pb: Problem, i: nat, j: nat)
    requires pb.WellFormed() && i < pb.Sq() && j < pb.Sk()
    ensures var score := InnerProduct(pb.q[i], pb.k[j]) * pb.scale + BiasOf(pb.bias, i, j);
            W(pb, i, j) == if pb.causal && j > i then 0.0 else pb.e(score)
  {
    hide Sum, InnerProduct, ExpScore;
    InnerProductIsSum(pb.q[i], pb.k[j], QKTerm(pb, i, j), 0);
    var x, bias := InnerProduct(pb.q[i], pb.k[j]), BiasOf(pb.bias, i, j);
    assert Dot(pb, pb.headdim, i, j) == x && pb.BiasAt(i, j) == bias;
    var score := x * pb.scale + bias;
    ScaledIs(pb, x, bias, score);
    assert !(pb.causal && j > i) ==> W(pb, i, j) == ExpScore(pb, x, bias);
    assert score == InnerProduct(pb.q[i], pb.k[j]) * pb.scale + BiasOf(pb.bias, i, j);
  }

  lemma ProbabilityTimesSum(pb: Problem, i: int, j: int)
    requires RowSum(pb, i) > 0.0
    ensures W(pb, i, j) == RowSum(pb, i) * P(pb, i, j)
  {
  }

  /** Every row of softmax that sees a key sums to one. */
  lemma ProbabilitiesSumToOne(pb: Problem, i: int)
    requires RowSum(pb, i) > 0.0
    ensures Sum(0, pb.Sk(), PTerm(pb, i)) == 1.0
  {
    forall j ensures WTerm(pb, i)(j) == RowSum(pb, i) * PTerm(pb, i)(j) {
      ProbabilityTimesSum(pb, i, j);
    }
    SumNormalized(0, pb.Sk(), RowSum(pb, i), PTerm(pb, i), WTerm(pb, i));
  }
}
