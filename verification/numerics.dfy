/** Real-valued helpers shared by the criteria and schemes: Python's two-argument
    `max`/`min`, sums and means of windows, natural powers, and the minimal facts
    assumed of the transcendental functions the source calls through numpy/math.
    Those functions are never given a definition here: each operation that needs
    one takes it as a function-valued parameter constrained by a predicate below. */
module Numerics {

  /** Python's `max(a, b)`: the first argument unless the second is larger. */
  function Max(a: real, b: real): (r: real)
    ensures r >= a && r >= b
    ensures r == a || r == b
  {
    if b > a then b else a
  }

  /** Python's `min(a, b)`. */
  function Min(a: real, b: real): (r: real)
    ensures r <= a && r <= b
    ensures r == a || r == b
  {
    if b < a then b else a
  }

  function Abs(x: real): (r: real)
    ensures r >= 0.0
    ensures r == x || r == -x
  {
    if x < 0.0 then -x else x
  }

  /** Sum of a sequence, accumulated from the back. */
  function Sum(s: seq<real>): real
  {
    if |s| == 0 then 0.0 else Sum(s[..|s| - 1]) + s[|s| - 1]
  }

  /** `statistics.mean`. */
  function Mean(s: seq<real>): real
    requires |s| > 0
  {
    Sum(s) / (|s| as real)
  }

  /** The built-in `min` over a non-empty sequence. */
  function MinOf(s: seq<real>): (r: real)
    requires |s| > 0
    ensures forall i :: 0 <= i < |s| ==> r <= s[i]
    ensures exists i :: 0 <= i < |s| && r == s[i]
  {
    if |s| == 1 then s[0]
    else
      var m := MinOf(s[1..]);
      assert forall i :: 1 <= i < |s| ==> s[1..][i - 1] == s[i];
      if s[0] <= m then s[0] else m
  }

  /** `x ** k` for a natural exponent. */
  function Pow(x: real, k: nat): real
  {
    if k == 0 then 1.0 else x * Pow(x, k - 1)
  }

  /** `v · x^k`. */
  function ScaledPow(v: real, x: real, k: nat): real
  {
    v * Pow(x, k)
  }

  lemma {:induction false} SumAppend(s: seq<real>, x: real)
    ensures Sum(s + [x]) == Sum(s) + x
  {
    assert (s + [x])[..|s + [x]| - 1] == s;
  }

  lemma {:induction false} SumPrepend(x: real, s: seq<real>)
    ensures Sum([x] + s) == x + Sum(s)
    decreases |s|
  {
    if |s| == 0 {
      assert [x] + s == [x];
      assert [x][..0] == [];
    } else {
      var t := s[..|s| - 1];
      assert s == t + [s[|s| - 1]];
      assert [x] + s == ([x] + t) + [s[|s| - 1]];
      SumAppend([x] + t, s[|s| - 1]);
      SumPrepend(x, t);
      SumAppend(t, s[|s| - 1]);
    }
  }

  /** Every element is at least `lo`, so the sum is at least `|s|·lo`. */
  lemma {:induction false} SumAtLeast(s: seq<real>, lo: real)
    requires forall i :: 0 <= i < |s| ==> lo <= s[i]
    ensures Sum(s) >= (|s| as real) * lo
    decreases |s|
  {
    if |s| > 0 {
      var t := s[..|s| - 1];
      assert forall i :: 0 <= i < |t| ==> t[i] == s[i];
      SumAtLeast(t, lo);
    }
  }

  /** The minimum of a window never exceeds its mean. */
  lemma MinAtMostMean(s: seq<real>)
    requires |s| > 0
    ensures MinOf(s) <= Mean(s)
  {
    var m := MinOf(s);
    SumAtLeast(s, m);
    MeanAtLeast(s, m);
  }

  lemma MeanAtLeast(s: seq<real>, m: real)
    requires |s| > 0
    requires Sum(s) >= (|s| as real) * m
    ensures m <= Mean(s)
  {
    QuotientAtLeast(Sum(s), |s| as real, m);
  }

  lemma MulNonNegative(x: real, y: real)
    requires 0.0 <= x && 0.0 <= y
    ensures x * y >= 0.0
  {
  }

  lemma MulMonotone(x: real, p: real, q: real)
    requires p <= q && x >= 0.0
    ensures x * p <= x * q
  {
  }

  /** Moving from `lo` by a fraction `eta` of a non-negative distance `d`
      stays within `[lo, lo + d]`. */
  lemma Interpolate(lo: real, d: real, eta: real)
    requires 0.0 <= d && 0.0 <= eta <= 1.0
    ensures lo <= lo + eta * d <= lo + d
  {
    assert eta * d <= 1.0 * d;
  }

  /** A convex combination `t·x + (1 − t)·y` lies between `x` and `y`. */
  lemma ConvexBetween(x: real, y: real, t: real)
    requires 0.0 <= t <= 1.0
    ensures Min(x, y) <= t * x + (1.0 - t) * y <= Max(x, y)
  {
    var v := t * x + (1.0 - t) * y;
    if y <= x {
      var e := x - y;
      assert t * x == t * e + t * y;
      assert (1.0 - t) * y == y - t * y;
      assert v == y + t * e;
      Interpolate(y, e, t);
      assert Min(x, y) == y && Max(x, y) == x;
    } else {
      var e := y - x;
      assert (1.0 - t) * y == (1.0 - t) * e + (1.0 - t) * x;
      assert t * x + (1.0 - t) * x == x;
      assert v == x + (1.0 - t) * e;
      Interpolate(x, e, 1.0 - t);
      assert Min(x, y) == x && Max(x, y) == y;
    }
  }

  /** Substitution under a product, which the solver's nonlinear arithmetic
      does not always perform by itself. */
  lemma MulSubst(x: real, p: real, q: real)
    requires p == q
    ensures x * p == x * q
  {
  }

  lemma QuotientAtLeast(a: real, n: real, m: real)
    requires n > 0.0 && a >= n * m
    ensures a / n >= m
  {
    assert a == (a / n) * n;
  }

  lemma {:induction false} PowInUnit(x: real, k: nat)
    requires 0.0 <= x <= 1.0
    ensures 0.0 <= Pow(x, k) <= 1.0
  {
    if k > 0 {
      PowInUnit(x, k - 1);
      var p := Pow(x, k - 1);
      MulNonNegative(x, p);
      MulMonotone(p, x, 1.0);
      assert p * x <= p * 1.0;
      assert p * x <= p;
      assert x * p <= p;
      assert p <= 1.0;
      assert Pow(x, k) == x * p;
    }
  }

  /** Minimal facts about `exp`: it is positive, and at least one on the
      non-negative half-line. */
  ghost predicate ExpLike(exp: real -> real)
  {
    && (forall x :: exp(x) > 0.0)
    && (forall x :: x >= 0.0 ==> exp(x) >= 1.0)
  }

  /** Minimal facts about the natural logarithm: negative on (0, 1) and
      non-negative from one on. */
  ghost predicate LogLike(log: real -> real)
  {
    && (forall x :: 0.0 < x < 1.0 ==> log(x) < 0.0)
    && (forall x :: x >= 1.0 ==> log(x) >= 0.0)
  }

  /** Minimal fact about the square root: non-negative on non-negative input. */
  ghost predicate SqrtLike(sqrt: real -> real)
  {
    forall x :: x >= 0.0 ==> sqrt(x) >= 0.0
  }

  /** Minimal facts about real powers `x ** y`: positive for a positive base,
      and at most one for a base in (0, 1] and a non-negative exponent. */
  ghost predicate PowLike(pow: (real, real) -> real)
  {
    && (forall x, y :: x > 0.0 ==> pow(x, y) > 0.0)
    && (forall x, y :: 0.0 < x <= 1.0 && y >= 0.0 ==> pow(x, y) <= 1.0)
  }
}
