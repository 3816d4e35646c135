/** Totals over a sequence, the step counts of the two concurrent protocols. */
module SeqTotals {

  function Below(n: nat): (r: set<nat>)
    ensures |r| == n && forall e: nat :: e in r <==> e < n
  {
    if n == 0 then {} else Below(n - 1) + {n - 1}
  }

  ghost function Total<X>(xs: seq<X>, f: X -> int): int {
    if xs == [] then 0 else Total(xs[..|xs| - 1], f) + f(xs[|xs| - 1])
  }

  lemma {:induction false} TotalUpdate<X>(xs: seq<X>, i: nat, x: X, f: X -> int)
    requires i < |xs|
    ensures Total(xs[i := x], f) == Total(xs, f) - f(xs[i]) + f(x)
  {
    var ys := xs[i := x];
    if i == |xs| - 1 {
      assert ys[..|xs| - 1] == xs[..|xs| - 1];
    } else {
      TotalUpdate(xs[..|xs| - 1], i, x, f);
      assert ys[..|xs| - 1] == xs[..|xs| - 1][i := x];
    }
  }

  lemma {:induction false} TotalOfEqual<X>(xs: seq<X>, f: X -> int, v: int)
    requires forall i | 0 <= i < |xs| :: f(xs[i]) == v
    ensures Total(xs, f) == |xs| * v
  {
    if xs != [] {
      TotalOfEqual(xs[..|xs| - 1], f, v);
      assert |xs| * v == (|xs| - 1) * v + v;
    }
  }

  lemma {:induction false} TotalNonNegative<X>(xs: seq<X>, f: X -> int)
    requires forall i | 0 <= i < |xs| :: f(xs[i]) >= 0
    ensures Total(xs, f) >= 0
  {
    if xs != [] { TotalNonNegative(xs[..|xs| - 1], f); }
  }
}
