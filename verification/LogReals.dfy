/** Extended reals in logarithmic form.  `Ln(w)` stands for the number ln w and `NegInf` for
    minus infinity, so exp and log are exact, adding is multiplying and subtracting is dividing.
    `Sub` demands a finite subtrahend: where a kernel uses it, that no NaN (-inf - -inf) can
    arise is a proof obligation. */
module LogReals {
  import opened RealSums

  datatype LogRealRaw = NegInf | Ln(w: real)

  type LogReal = x: LogRealRaw | x.Ln? ==> x.w > 0.0 witness NegInf

  function Exp(a: LogReal): real {
    if a.Ln? then a.w else 0.0
  }

  function Log(w: real): LogReal
    requires w > 0.0
  {
    Ln(w)
  }

  predicate AtMost(a: LogReal, b: LogReal) { Exp(a) <= Exp(b) }

  function Maximum(a: LogReal, b: LogReal): LogReal {
    if AtMost(a, b) then b else a
  }

  lemma PositiveProduct(x: real, y: real)
    requires x > 0.0 && y > 0.0
    ensures x * y > 0.0
  {
  }

  function Plus(a: LogReal, b: LogReal): LogReal {
    if a.Ln? && b.Ln? then PositiveProduct(a.w, b.w); Ln(a.w * b.w) else NegInf
  }

  lemma PositiveQuotient(x: real, y: real)
    requires x > 0.0 && y > 0.0
    ensures x / y > 0.0
  {
    if x / y <= 0.0 { assert x / y * y == x; }
  }

  function Sub(a: LogReal, b: LogReal): LogReal
    requires b.Ln?
  {
    if a.Ln? then PositiveQuotient(a.w, b.w); Ln(a.w / b.w) else NegInf
  }

  lemma QuotientTimes(x: real, y: real)
    requires y > 0.0
    ensures x / y * y == x
  {
  }

  lemma QuotientAtMostOne(x: real, y: real)
    requires y > 0.0 && x <= y
    ensures x / y <= 1.0
  {
    var q := x / y;
    QuotientTimes(x, y);
    if q > 1.0 { PositiveProduct(q - 1.0, y); }
  }

  /** exp(a - b) in multiplicative form. */
  lemma ExpSub(a: LogReal, b: LogReal)
    requires b.Ln?
    ensures Exp(Sub(a, b)) == Exp(a) / b.w && Exp(Sub(a, b)) * b.w == Exp(a)
    ensures AtMost(a, b) ==> Exp(Sub(a, b)) <= 1.0
  {
    QuotientTimes(Exp(a), b.w);
    if AtMost(a, b) { QuotientAtMostOne(Exp(a), b.w); }
  }

  lemma ExpPlus(a: LogReal, b: LogReal)
    ensures Exp(Plus(a, b)) == Exp(a) * Exp(b)
  {
  }

  // ---------------------------------------------------------------- vectors

  function At(p: seq<real>, c: int): real {
    if 0 <= c < |p| then p[c] else 0.0
  }

  function Entries(p: seq<real>): int -> real { c => At(p, c) }

  /** `tl.sum(p, 1)` for one row. */
  function Total(p: seq<real>): real { Sum(0, |p|, Entries(p)) }

  /** `tl.max(s, 1)` for one row. */
  function RowMax(s: seq<LogReal>): LogReal {
    if s == [] then NegInf else Maximum(RowMax(s[..|s| - 1]), s[|s| - 1])
  }

  /** `tl.exp(s - m)` for one row. */
  function ExpShift(s: seq<LogReal>, m: LogReal): seq<real>
    requires m.Ln?
  {
    seq(|s|, c requires 0 <= c < |s| => Exp(Sub(s[c], m)))
  }

  /** The maximum bounds every entry and is attained. */
  lemma {:induction false} RowMaxIsGreatest(s: seq<LogReal>)
    ensures forall c | 0 <= c < |s| :: AtMost(s[c], RowMax(s))
    ensures s != [] ==> RowMax(s) in s
  {
    if s != [] {
      var front := s[..|s| - 1];
      RowMaxIsGreatest(front);
      forall c | 0 <= c < |s| ensures AtMost(s[c], RowMax(s)) {
        if c < |s| - 1 { assert s[c] == front[c]; }
      }
      assert front == [] ==> AtMost(RowMax(front), s[|s| - 1]);
      assert front != [] ==> RowMax(front) in s;
    }
  }
}
