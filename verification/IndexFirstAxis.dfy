/** Gathering rows, writing rows back and their gradients: `IndexFirstAxis`,
    `IndexPutFirstAxis` and `IndexFirstAxisResidual` in `flash_attn/bert_padding.py`.  A tensor
    is a sequence of rows along its first axis; for gradients, of one feature of each row. */
module IndexFirstAxis {

  ghost predicate InRange(indices: seq<nat>, dim: nat) {
    forall k | 0 <= k < |indices| :: indices[k] < dim
  }

  ghost predicate Distinct(indices: seq<nat>) {
    forall k, l | 0 <= k < l < |indices| :: indices[k] != indices[l]
  }

  /** `input[indices]`: the forward gather, and the gradient of the scatter. */
  function Gather<T>(x: seq<T>, indices: seq<nat>): (g: seq<T>)
    requires InRange(indices, |x|)
    ensures |g| == |indices| && forall k | 0 <= k < |g| :: g[k] == x[indices[k]]
  {
    seq(|indices|, k requires 0 <= k < |indices| => x[indices[k]])
  }

  // ---------------------------------------------------------------- the overwriting scatter

  /** What index r may hold after writing the values to their indices in a tensor of zeros:
      where an index repeats, any one of its values. */
  ghost predicate Outcome<T>(v: T, r: nat, indices: seq<nat>, values: seq<T>, zero: T)
    requires |values| == |indices|
  {
    if r in indices then exists k :: 0 <= k < |indices| && indices[k] == r && v == values[k] else v == zero
  }

  ghost predicate IsScatter<T>(out: seq<T>, indices: seq<nat>, values: seq<T>, zero: T)
    requires |values| == |indices|
  {
    forall r | 0 <= r < |out| :: Outcome(out[r], r, indices, values, zero)
  }

  lemma WriteOne<T>(out: seq<T>, indices: seq<nat>, values: seq<T>, zero: T, k: nat)
    requires |values| == |indices| && k < |indices| && InRange(indices, |out|)
    requires IsScatter(out, indices[..k], values[..k], zero)
    ensures IsScatter(out[indices[k] := values[k]], indices[..k + 1], values[..k + 1], zero)
  {
    var next := out[indices[k] := values[k]];
    forall r | 0 <= r < |out| ensures Outcome(next[r], r, indices[..k + 1], values[..k + 1], zero) {
      if r == indices[k] {
        assert indices[..k + 1][k] == r && next[r] == values[..k + 1][k];
      } else if r in indices[..k] {
        assert Outcome(out[r], r, indices[..k], values[..k], zero);
        var l :| 0 <= l < k && indices[..k][l] == r && out[r] == values[..k][l];
        assert indices[..k + 1][l] == r && next[r] == values[..k + 1][l];
      } else {
        assert Outcome(out[r], r, indices[..k], values[..k], zero);
      }
    }
  }

  /** `output = zeros; output[indices] = values`. */
  method IndexPut<T>(values: seq<T>, indices: seq<nat>, dim: nat, zero: T) returns (output: array<T>)
    requires |values| == |indices| && InRange(indices, dim)
    ensures fresh(output) && output.Length == dim && IsScatter(output[..], indices, values, zero)
  {
    output := new T[dim](_ => zero);
    var k := 0;
    while k < |indices|
      invariant k <= |indices| && IsScatter(output[..], indices[..k], values[..k], zero)
    {
      ghost var before := output[..];
      output[indices[k]] := values[k];
      WriteOne(before, indices, values, zero, k);
      assert output[..] == before[indices[k] := values[k]];
      k := k + 1;
    }
    assert indices[..k] == indices && values[..k] == values;
  }

  /** Gathering what was written, at distinct indices, gives the values back. */
  lemma GatherOfScatter<T>(out: seq<T>, indices: seq<nat>, values: seq<T>, zero: T)
    requires |values| == |indices| && InRange(indices, |out|) && Distinct(indices)
    requires IsScatter(out, indices, values, zero)
    ensures Gather(out, indices) == values
  {
    forall k | 0 <= k < |indices| ensures out[indices[k]] == values[k] {
      assert indices[k] in indices && Outcome(out[indices[k]], indices[k], indices, values, zero);
    }
  }

  /** Writing back what was gathered restores the selected rows and clears the others. */
  lemma ScatterOfGather<T>(out: seq<T>, x: seq<T>, indices: seq<nat>, zero: T)
    requires |out| == |x| && InRange(indices, |x|) && IsScatter(out, indices, Gather(x, indices), zero)
    ensures forall r | 0 <= r < |x| :: out[r] == if r in indices then x[r] else zero
  {
    forall r | 0 <= r < |x| ensures out[r] == if r in indices then x[r] else zero {
      assert Outcome(out[r], r, indices, Gather(x, indices), zero);
    }
  }

  // ---------------------------------------------------------------- adjoints

  function Dot(x: seq<real>, y: seq<real>): real
    requires |x| == |y|
  {
    if x == [] then 0.0 else Dot(x[..|x| - 1], y[..|y| - 1]) + x[|x| - 1] * y[|y| - 1]
  }

  lemma Distribute(a: real, b: real, d: real)
    ensures a * (b + d) == a * b + a * d
  {
  }

  lemma {:induction false} DotBump(x: seq<real>, y: seq<real>, r: nat, d: real)
    requires |x| == |y| && r < |y|
    ensures Dot(x, y[r := y[r] + d]) == Dot(x, y) + x[r] * d
  {
    var n, z := |y| - 1, y[r := y[r] + d];
    if r == n {
      assert z[..n] == y[..n];
      Distribute(x[n], y[n], d);
    } else {
      DotBump(x[..n], y[..n], r, d);
      assert z[..n] == y[..n][r := y[..n][r] + d];
    }
  }

  lemma {:induction false} DotZeros(x: seq<real>, y: seq<real>)
    requires |x| == |y| && forall r | 0 <= r < |y| :: y[r] == 0.0
    ensures Dot(x, y) == 0.0
  {
    if x != [] { DotZeros(x[..|x| - 1], y[..|y| - 1]); }
  }

  /** `grad_input.scatter_add_(0, indices, grad_output)`. */
  ghost function Added(residual: seq<real>, indices: seq<nat>, g: seq<real>): (out: seq<real>)
    requires |g| == |indices| && InRange(indices, |residual|)
    ensures |out| == |residual|
  {
    if indices == [] then residual
    else
      var n := |indices| - 1;
      var before := Added(residual, indices[..n], g[..n]);
      before[indices[n] := before[indices[n]] + g[n]]
  }

  /** IndexFirstAxisResidual.backward: the gathered gradient is added to the residual's, in place. */
  method ScatterAdd(gradResidual: array<real>, indices: seq<nat>, g: seq<real>)
    requires |g| == |indices| && InRange(indices, gradResidual.Length)
    modifies gradResidual
    ensures gradResidual[..] == Added(old(gradResidual[..]), indices, g)
  {
    ghost var residual := gradResidual[..];
    var k := 0;
    while k < |indices|
      invariant k <= |indices| && gradResidual[..] == Added(residual, indices[..k], g[..k])
    {
      gradResidual[indices[k]] := gradResidual[indices[k]] + g[k];
      assert indices[..k + 1][..k] == indices[..k] && g[..k + 1][..k] == g[..k];
      k := k + 1;
    }
    assert indices[..k] == indices && g[..k] == g;
  }

  /** It is the gradient of x -> (gather(x), x), whether or not indices repeat. */
  lemma {:induction false} AddedIsAdjoint(x: seq<real>, residual: seq<real>, indices: seq<nat>, g: seq<real>)
    requires |g| == |indices| && |x| == |residual| && InRange(indices, |x|)
    ensures Dot(x, Added(residual, indices, g)) == Dot(x, residual) + Dot(Gather(x, indices), g)
  {
    if indices != [] {
      var n := |indices| - 1;
      AddedIsAdjoint(x, residual, indices[..n], g[..n]);
      DotBump(x, Added(residual, indices[..n], g[..n]), indices[n], g[n]);
      assert Gather(x, indices)[..n] == Gather(x, indices[..n]);
    }
  }

  lemma {:induction false} AddedElsewhere(residual: seq<real>, indices: seq<nat>, g: seq<real>, r: nat)
    requires |g| == |indices| && InRange(indices, |residual|) && r < |residual| && r !in indices
    ensures Added(residual, indices, g)[r] == residual[r]
  {
    if indices != [] {
      var n := |indices| - 1;
      AddedElsewhere(residual, indices[..n], g[..n], r);
    }
  }

  /** Adding once to each of several distinct indices. */
  lemma {:induction false} AddedOnce(residual: seq<real>, indices: seq<nat>, g: seq<real>, k: nat)
    requires |g| == |indices| && InRange(indices, |residual|) && Distinct(indices) && k < |indices|
    ensures Added(residual, indices, g)[indices[k]] == residual[indices[k]] + g[k]
  {
    var n := |indices| - 1;
    if k == n {
      AddedElsewhere(residual, indices[..n], g[..n], indices[n]);
    } else {
      AddedOnce(residual, indices[..n], g[..n], k);
    }
  }

  lemma DistinctScatterIsAdded(out: seq<real>, indices: seq<nat>, g: seq<real>, zeros: seq<real>, r: nat)
    requires |g| == |indices| && |zeros| == |out| && InRange(indices, |out|) && Distinct(indices) && r < |out|
    requires IsScatter(out, indices, g, 0.0) && zeros[r] == 0.0
    ensures out[r] == Added(zeros, indices, g)[r]
  {
    hide Added;
    assert Outcome(out[r], r, indices, g, 0.0);
    if r in indices {
      var k :| 0 <= k < |indices| && indices[k] == r && out[r] == g[k];
      AddedOnce(zeros, indices, g, k);
    } else {
      AddedElsewhere(zeros, indices, g, r);
    }
  }

  lemma DistinctScatterIsAdjoint(x: seq<real>, out: seq<real>, indices: seq<nat>, g: seq<real>)
    requires |g| == |indices| && |x| == |out| && InRange(indices, |x|) && Distinct(indices)
    requires IsScatter(out, indices, g, 0.0)
    ensures Dot(Gather(x, indices), g) == Dot(x, out)
  {
    hide Dot, Gather, IsScatter, Distinct;
    var zeros := seq(|x|, _ => 0.0);
    forall r | 0 <= r < |x| ensures out[r] == Added(zeros, indices, g)[r] {
      DistinctScatterIsAdded(out, indices, g, zeros, r);
    }
    assert out == Added(zeros, indices, g);
    AddedIsAdjoint(x, zeros, indices, g);
    DotZeros(x, zeros);
  }

  lemma {:induction false} DotNonNegative(a: seq<real>, ones: seq<real>)
    requires |a| == |ones| && (forall k | 0 <= k < |a| :: a[k] >= 0.0 && ones[k] == 1.0)
    ensures Dot(a, ones) >= 0.0
  {
    if a != [] { DotNonNegative(a[..|a| - 1], ones[..|a| - 1]); }
  }

  lemma {:induction false} DotAtLeast(a: seq<real>, ones: seq<real>, i: nat, j: nat)
    requires |a| == |ones| && (forall k | 0 <= k < |a| :: a[k] >= 0.0 && ones[k] == 1.0)
    requires i <= j < |a| && a[i] == a[j] == 1.0
    ensures Dot(a, ones) >= if i < j then 2.0 else 1.0
  {
    var n := |a| - 1;
    if j < n {
      DotAtLeast(a[..n], ones[..n], i, j);
    } else if i < j {
      DotAtLeast(a[..n], ones[..n], i, i);
    } else {
      DotNonNegative(a[..n], ones[..n]);
    }
  }

  lemma {:induction false} DotZerosLeft(x: seq<real>, y: seq<real>)
    requires |x| == |y| && forall r | 0 <= r < |x| :: x[r] == 0.0
    ensures Dot(x, y) == 0.0
  {
    if x != [] { DotZerosLeft(x[..|x| - 1], y[..|y| - 1]); }
  }

  lemma {:induction false} DotUnit(x: seq<real>, y: seq<real>, r: nat)
    requires |x| == |y| && r < |x| && forall k | 0 <= k < |x| :: x[k] == if k == r then 1.0 else 0.0
    ensures Dot(x, y) == y[r]
  {
    var n := |x| - 1;
    if r < n { DotUnit(x[..n], y[..n], r); } else { DotZerosLeft(x[..n], y[..n]); }
  }

  /** The overwriting scatter is the gradient of the gather: for all inputs and gradients, and
      whichever of two writes to one index survives. */
  ghost predicate ScatterIsAdjoint(indices: seq<nat>, dim: nat)
    requires InRange(indices, dim)
  {
    forall x: seq<real>, g: seq<real>, out: seq<real>
      | |x| == dim && |g| == |indices| && |out| == dim && IsScatter(out, indices, g, 0.0) ::
      Dot(Gather(x, indices), g) == Dot(x, out)
  }

  lemma OnesScatter(out: seq<real>, indices: seq<nat>, g: seq<real>)
    requires |g| == |indices| && (forall k | 0 <= k < |g| :: g[k] == 1.0)
    requires forall r | 0 <= r < |out| :: out[r] == if r in indices then 1.0 else 0.0
    ensures IsScatter(out, indices, g, 0.0)
  {
    forall r | 0 <= r < |out| ensures Outcome(out[r], r, indices, g, 0.0) {
      if r in indices { var k :| 0 <= k < |indices| && indices[k] == r; }
    }
  }

  lemma RepeatedIndexLosesGradient(indices: seq<nat>, dim: nat, i: nat, j: nat)
    requires InRange(indices, dim) && i < j < |indices| && indices[i] == indices[j]
    ensures !ScatterIsAdjoint(indices, dim)
  {
    var r := indices[i];
    var x: seq<real> := seq(dim, k => if k == r then 1.0 else 0.0);
    var g: seq<real> := seq(|indices|, _ => 1.0);
    var out: seq<real> := seq(dim, k => if k in indices then 1.0 else 0.0);
    OnesScatter(out, indices, g);
    DotUnit(x, out, r);
    DotAtLeast(Gather(x, indices), g, i, j);
    assert Dot(Gather(x, indices), g) != Dot(x, out);
  }

  /** IndexFirstAxis.backward and IndexPutFirstAxis.backward are right exactly when the indices
      are distinct. */
  lemma ScatterIsAdjointIff(indices: seq<nat>, dim: nat)
    requires InRange(indices, dim)
    ensures ScatterIsAdjoint(indices, dim) <==> Distinct(indices)
  {
    if Distinct(indices) {
      forall x: seq<real>, g: seq<real>, out: seq<real>
        | |x| == dim && |g| == |indices| && |out| == dim && IsScatter(out, indices, g, 0.0)
        ensures Dot(Gather(x, indices), g) == Dot(x, out)
      {
        DistinctScatterIsAdjoint(x, out, indices, g);
      }
    } else {
      var i, j :| 0 <= i < j < |indices| && indices[i] == indices[j];
      RepeatedIndexLosesGradient(indices, dim, i, j);
    }
  }
}
