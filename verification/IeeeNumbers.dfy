/** Results of IEEE 754 arithmetic, rounding and overflow left aside: a value, an infinity or not
    a number.  `Num` is the linear form of accumulators and probabilities, `Score` the
    logarithmic form of scores and log-sum-exps. */
module IeeeNumbers {
  import opened RealSums
  import L = LogReals

  datatype Num = Val(x: real) | Inf(positive: bool) | NaN

  datatype Score = Of(a: L.LogReal) | PlusInf | Undefined

  function Add(a: Num, b: Num): Num {
    match (a, b)
    case (Val(x), Val(y)) => Val(x + y)
    case (Val(_), _) => b
    case (Inf(_), Val(_)) => a
    case (Inf(p), Inf(q)) => if p == q then a else NaN
    case _ => NaN
  }

  function Mul(a: Num, b: Num): Num {
    match (a, b)
    case (Val(x), Val(y)) => Val(x * y)
    case (Val(x), Inf(p)) => if x == 0.0 then NaN else Inf(p == (x > 0.0))
    case (Inf(p), Val(y)) => if y == 0.0 then NaN else Inf(p == (y > 0.0))
    case (Inf(p), Inf(q)) => Inf(p == q)
    case _ => NaN
  }

  function Exp(a: Score): Num {
    match a
    case Of(x) => Val(L.Exp(x))
    case PlusInf => Inf(true)
    case Undefined => NaN
  }

  function Log(a: Num): Score {
    match a
    case Val(x) => if x > 0.0 then Of(L.Ln(x)) else if x == 0.0 then Of(L.NegInf) else Undefined
    case Inf(p) => if p then PlusInf else Undefined
    case NaN => Undefined
  }

  function Sub(a: Score, b: Score): Score {
    match (a, b)
    case (Of(x), Of(y)) =>
      if y.Ln? then Of(L.Sub(x, y)) else if x.Ln? then PlusInf else Undefined
    case (Of(_), PlusInf) => Of(L.NegInf)
    case (PlusInf, Of(_)) => PlusInf
    case _ => Undefined
  }

  function Plus(a: Score, b: Score): Score {
    match (a, b)
    case (Of(x), Of(y)) => Of(L.Plus(x, y))
    case (Of(x), PlusInf) => if x.Ln? then PlusInf else Undefined
    case (PlusInf, Of(y)) => if y.Ln? then PlusInf else Undefined
    case (PlusInf, PlusInf) => PlusInf
    case _ => Undefined
  }

  /** What a device takes for the maximum of two operands when one is not a number. */
  type NanRule = (Score, Score) -> Score

  function Max(a: Score, b: Score, rule: NanRule): Score {
    match (a, b)
    case (Of(x), Of(y)) => Of(L.Maximum(x, y))
    case (Undefined, _) => rule(a, b)
    case (_, Undefined) => rule(a, b)
    case _ => PlusInf
  }

  function MaxOf(s: seq<Score>, rule: NanRule): Score {
    if s == [] then Of(L.NegInf) else Max(MaxOf(s[..|s| - 1], rule), s[|s| - 1], rule)
  }

  function Total(n: int, f: int -> Num): Num {
    if n <= 0 then Val(0.0) else Add(Total(n - 1, f), f(n - 1))
  }

  // ---------------------------------------------------------------- the laws that survive

  /** Without rounding, sums may be reordered and regrouped. */
  lemma AddLaws(a: Num, b: Num, c: Num)
    ensures Add(a, b) == Add(b, a) && Add(Add(a, b), c) == Add(a, Add(b, c))
  {
  }

  lemma SignOfProduct(x: real, y: real)
    ensures x * y == 0.0 <==> x == 0.0 || y == 0.0
    ensures x * y > 0.0 <==> (x > 0.0 && y > 0.0) || (x < 0.0 && y < 0.0)
  {
    if x < 0.0 && y > 0.0 { L.PositiveProduct(0.0 - x, y); }
    if x > 0.0 && y < 0.0 { L.PositiveProduct(x, 0.0 - y); }
    if x < 0.0 && y < 0.0 { L.PositiveProduct(0.0 - x, 0.0 - y); }
    if x > 0.0 && y > 0.0 { L.PositiveProduct(x, y); }
  }

  lemma InfTimes(x: real, y: real, xy: real, c: Num)
    requires !c.Val? && (xy == 0.0 <==> x == 0.0 || y == 0.0)
    requires xy > 0.0 <==> (x > 0.0 && y > 0.0) || (x < 0.0 && y < 0.0)
    ensures Mul(Val(xy), c) == Mul(Val(x), Mul(Val(y), c)) && Mul(c, Val(xy)) == Mul(Mul(c, Val(y)), Val(x))
  {
  }

  lemma MulOfValues(x: real, y: real) returns (xy: real)
    ensures Mul(Val(x), Val(y)) == Val(xy) && Mul(Val(y), Val(x)) == Val(xy)
    ensures xy == 0.0 <==> x == 0.0 || y == 0.0
    ensures xy > 0.0 <==> (x > 0.0 && y > 0.0) || (x < 0.0 && y < 0.0)
  {
    SignOfProduct(x, y);
    xy := x * y;
  }

  lemma MulOfInfinities(a: Num, b: Num, c: Num)
    requires (!a.Val? || !b.Val?) && (!b.Val? || !c.Val?)
    ensures Mul(Mul(a, b), c) == Mul(a, Mul(b, c))
  {
  }

  lemma MulOfOthers(a: Num, b: Num, c: Num)
    requires !a.Val? || !b.Val? || !c.Val?
    ensures Mul(Mul(a, b), c) == Mul(a, Mul(b, c))
  {
    hide Mul;
    if a.Val? && b.Val? {
      var xy := MulOfValues(a.x, b.x);
      InfTimes(a.x, b.x, xy, c);
    } else if b.Val? && c.Val? {
      var xy := MulOfValues(c.x, b.x);
      InfTimes(c.x, b.x, xy, a);
    } else {
      MulOfInfinities(a, b, c);
    }
  }

  /** ... and so may products. */
  lemma MulLaws(a: Num, b: Num, c: Num)
    ensures Mul(a, b) == Mul(b, a) && Mul(Mul(a, b), c) == Mul(a, Mul(b, c))
  {
    if a.Val? && b.Val? && c.Val? { Associate(a.x, b.x, c.x); } else { MulOfOthers(a, b, c); }
  }

  /** exp turns sums of scores into products, whatever the operands, and differences back. */
  lemma ExpLaws(a: Score, b: Score)
    ensures Exp(Plus(a, b)) == Mul(Exp(a), Exp(b))
    ensures b.Of? && b.a.Ln? ==> Mul(Exp(Sub(a, b)), Exp(b)) == Exp(a)
    ensures Log(Exp(a)) == a
  {
    if a.Of? && b.Of? {
      L.ExpPlus(a.a, b.a);
      if b.a.Ln? { L.ExpSub(a.a, b.a); }
    }
  }

  // ---------------------------------------------------------------- values stay values

  lemma {:induction false} TotalOfValues(n: int, f: int -> Num, g: int -> real)
    requires forall c | 0 <= c < n :: f(c) == Val(g(c))
    ensures Total(n, f) == Val(Sum(0, n, g))
  {
    if n > 0 { TotalOfValues(n - 1, f, g); }
  }

  lemma {:induction false} MaxOfValues(s: seq<Score>, t: seq<L.LogReal>, rule: NanRule)
    requires |s| == |t| && forall c | 0 <= c < |s| :: s[c] == Of(t[c])
    ensures MaxOf(s, rule) == Of(L.RowMax(t))
  {
    if s != [] { MaxOfValues(s[..|s| - 1], t[..|t| - 1], rule); }
  }

  // ---------------------------------------------------------------- what is broken stays broken

  /** No operation turns an infinity or a NaN back into a value, except the exponential of
      minus infinity. */
  lemma BrokenAbsorbs(a: Num, b: Num)
    requires !a.Val? || !b.Val?
    ensures !Add(a, b).Val? && !Mul(a, b).Val?
  {
  }

  lemma {:induction false} TotalIsBroken(n: int, f: int -> Num, c: int)
    requires 0 <= c < n && !f(c).Val?
    ensures !Total(n, f).Val?
  {
    if c < n - 1 { TotalIsBroken(n - 1, f, c); }
  }

  /** exp(a - m) for a score that is plus infinity or undefined, whatever the reference. */
  lemma BrokenExp(a: Score, m: Score)
    requires !a.Of?
    ensures !Exp(Sub(a, m)).Val?
  {
  }

  /** m + log(l) for a norm that is no value. */
  lemma BrokenLog(m: Score, l: Num)
    requires !l.Val?
    ensures !Plus(m, Log(l)).Of?
  {
  }
}
