/** Finite sums of reals over an integer interval, and the laws of matrix algebra that the
    attention proofs use. */
module RealSums {

  // ---------------------------------------------------------------- products

  lemma Associate(a: real, b: real, c: real)
    ensures a * b * c == a * (b * c)
  {
  }

  lemma Reassociate(a: real, b: real, c: real)
    ensures a * b * c == b * (a * c)
  {
  }

  lemma ScaleMonotone(x: real, y: real, c: real)
    requires x <= y && c > 0.0
    ensures x * c <= y * c
  {
    assert (y - x) * c >= 0.0;
  }

  // ---------------------------------------------------------------- sums

  function Sum(lo: int, hi: int, f: int -> real): real
    decreases hi - lo
  {
    if hi <= lo then 0.0 else Sum(lo, hi - 1, f) + f(hi - 1)
  }

  lemma {:induction false} SumExt(lo: int, hi: int, f: int -> real, g: int -> real)
    requires forall i | lo <= i < hi :: f(i) == g(i)
    ensures Sum(lo, hi, f) == Sum(lo, hi, g)
    decreases hi - lo
  {
    if lo < hi { SumExt(lo, hi - 1, f, g); }
  }

  lemma {:induction false} SumZero(lo: int, hi: int, f: int -> real)
    requires forall i | lo <= i < hi :: f(i) == 0.0
    ensures Sum(lo, hi, f) == 0.0
    decreases hi - lo
  {
    if lo < hi { SumZero(lo, hi - 1, f); }
  }

  lemma {:induction false} SumSplit(lo: int, mid: int, hi: int, f: int -> real)
    requires lo <= mid <= hi
    ensures Sum(lo, hi, f) == Sum(lo, mid, f) + Sum(mid, hi, f)
    decreases hi - mid
  {
    if mid < hi { SumSplit(lo, mid, hi - 1, f); }
  }

  /** Trailing zeros do not matter. */
  lemma SumTail(lo: int, mid: int, hi: int, f: int -> real)
    requires lo <= mid <= hi && forall i | mid <= i < hi :: f(i) == 0.0
    ensures Sum(lo, hi, f) == Sum(lo, mid, f)
  {
    SumSplit(lo, mid, hi, f);
    SumZero(mid, hi, f);
  }

  lemma {:induction false} SumShift(lo: int, n: nat, f: int -> real, g: int -> real)
    requires forall c | 0 <= c < n :: g(c) == f(lo + c)
    ensures Sum(0, n, g) == Sum(lo, lo + n, f)
  {
    if n > 0 { SumShift(lo, n - 1, f, g); }
  }

  lemma {:induction false} SumScale(lo: int, hi: int, c: real, f: int -> real, g: int -> real)
    requires forall i | lo <= i < hi :: g(i) == c * f(i)
    ensures Sum(lo, hi, g) == c * Sum(lo, hi, f)
    decreases hi - lo
  {
    if lo < hi { SumScale(lo, hi - 1, c, f, g); }
  }

  lemma CancelFactor(c: real, x: real, y: real)
    requires c != 0.0 && c * x == c * y
    ensures x == y
  {
    assert c * (x - y) == 0.0;
  }

  lemma SumNormalized(lo: int, hi: int, c: real, f: int -> real, g: int -> real)
    requires c == Sum(lo, hi, g) && c > 0.0 && forall i | lo <= i < hi :: g(i) == c * f(i)
    ensures Sum(lo, hi, f) == 1.0
  {
    SumScale(lo, hi, c, f, g);
    CancelFactor(c, Sum(lo, hi, f), 1.0);
  }

  lemma {:induction false} SumAdd(lo: int, hi: int, f: int -> real, g: int -> real, h: int -> real)
    requires forall i | lo <= i < hi :: h(i) == f(i) + g(i)
    ensures Sum(lo, hi, h) == Sum(lo, hi, f) + Sum(lo, hi, g)
    decreases hi - lo
  {
    if lo < hi { SumAdd(lo, hi - 1, f, g, h); }
  }

  lemma {:induction false} SumBounds(lo: int, hi: int, f: int -> real, low: real, high: real)
    requires lo <= hi && forall i | lo <= i < hi :: low <= f(i) <= high
    ensures low * (hi - lo) as real <= Sum(lo, hi, f) <= high * (hi - lo) as real
    decreases hi - lo
  {
    if lo < hi { SumBounds(lo, hi - 1, f, low, high); }
  }

  lemma {:induction false} SumBoundsBelow(lo: int, hi: int, f: int -> real)
    requires forall i | lo <= i < hi :: f(i) >= 0.0
    ensures Sum(lo, hi, f) >= 0.0
    decreases hi - lo
  {
    if lo < hi { SumBoundsBelow(lo, hi - 1, f); }
  }

  /** A sum of non-negative terms is at least each of them. */
  lemma {:induction false} SumAtLeast(lo: int, hi: int, f: int -> real, k: int)
    requires lo <= k < hi && forall i | lo <= i < hi :: f(i) >= 0.0
    ensures Sum(lo, hi, f) >= f(k)
    decreases hi - lo
  {
    if k < hi - 1 {
      SumAtLeast(lo, hi - 1, f, k);
    } else {
      SumBoundsBelow(lo, hi - 1, f);
    }
  }

  /** Block sums add up to the whole sum. */
  lemma {:induction false} SumOfBlocks(blocks: nat, b: nat, f: int -> real, g: int -> real)
    requires forall n | 0 <= n < blocks :: f(n) == Sum(n * b, n * b + b, g)
    ensures Sum(0, blocks, f) == Sum(0, blocks * b, g)
  {
    if blocks > 0 {
      SumOfBlocks(blocks - 1, b, f, g);
      var lo := (blocks - 1) * b;
      assert blocks * b == lo + b;
      SumSplit(0, lo, lo + b, g) by { assert lo >= 0; }
      assert f(blocks - 1) == Sum(lo, lo + b, g);
    } else {
      assert blocks * b == 0;
    }
  }

  /** One term of a sum changes by delta. */
  lemma {:induction false} SumBump(lo: int, hi: int, f: int -> real, g: int -> real, k: int, delta: real)
    requires lo <= k < hi && g(k) == f(k) + delta
    requires forall i | lo <= i < hi && i != k :: g(i) == f(i)
    ensures Sum(lo, hi, g) == Sum(lo, hi, f) + delta
    decreases hi - lo
  {
    if k == hi - 1 {
      SumExt(lo, hi - 1, f, g);
    } else {
      SumBump(lo, hi - 1, f, g, k, delta);
    }
  }

  function Inner(a: int, b: int, g: (int, int) -> real): int -> real {
    i => Sum(a, b, j => g(i, j))
  }

  function Transposed(g: (int, int) -> real): (int, int) -> real {
    (i, j) => g(j, i)
  }

  /** The order of summation does not matter. */
  lemma {:induction false} SumSwap(lo: int, hi: int, a: int, b: int, g: (int, int) -> real)
    ensures Sum(lo, hi, Inner(a, b, g)) == Sum(a, b, Inner(lo, hi, Transposed(g)))
    decreases hi - lo
  {
    var outer := Inner(lo, hi, Transposed(g));
    if lo < hi {
      SumSwap(lo, hi - 1, a, b, g);
      var shorter := Inner(lo, hi - 1, Transposed(g));
      var last: int -> real := j => g(hi - 1, j);
      forall j | a <= j < b ensures outer(j) == shorter(j) + last(j) {
        var full: int -> real := i => Transposed(g)(j, i);
        assert Sum(lo, hi, full) == Sum(lo, hi - 1, full) + full(hi - 1);
      }
      SumAdd(a, b, shorter, last, outer);
    } else {
      SumZero(a, b, outer);
    }
  }
}
