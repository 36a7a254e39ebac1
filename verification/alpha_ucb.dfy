/** The α-UCB bandit scheme (alns/select/AlphaUCB.py): one running average
    reward and one use count per (destroy, repair) pair; selection takes the
    first pair, in row-major order, maximising average plus exploration
    bonus `sqrt(α · log(1 + t) / (count + 1))`, with disallowed pairs valued
    −1. */
module AlphaUCB {
  import opened Wrappers
  import opened Numerics
  import opened Outcomes
  import opened OperatorSelectionScheme

  /** `avg[d][r]` and `times[d][r]` per pair; `iter` counts updates. */
  datatype Bandit = Bandit(scheme: Scheme, scores: seq<real>, alpha: real,
                           avg: seq<seq<real>>, times: seq<seq<nat>>, iter: nat)

  predicate Grid<T>(m: seq<seq<T>>, rows: nat, cols: nat)
  {
    |m| == rows && forall i :: 0 <= i < rows ==> |m[i]| == cols
  }

  /** What the constructor establishes and `update` preserves. */
  predicate Valid(u: Bandit)
  {
    && OperatorSelectionScheme.Valid(u.scheme)
    && ValidScores(u.scores) && 0.0 <= u.alpha <= 1.0
    && Grid(u.avg, u.scheme.numDestroy, u.scheme.numRepair)
    && Grid(u.times, u.scheme.numDestroy, u.scheme.numRepair)
    && forall d, r :: 0 <= d < u.scheme.numDestroy && 0 <= r < u.scheme.numRepair ==> u.avg[d][r] >= 0.0
  }

  /** The constructor: the base checks, then alpha, then the scores. Average
      rewards start at one and counts at zero. */
  function New(scores: seq<real>, alpha: real, numDestroy: int, numRepair: int, arg: CouplingArg)
    : (r: Result<Bandit, SelectionError>)
    ensures r.Ok? <==>
      OperatorSelectionScheme.New(numDestroy, numRepair, arg).Ok? && 0.0 <= alpha <= 1.0 && ValidScores(scores)
    ensures OperatorSelectionScheme.New(numDestroy, numRepair, arg).Ok? && !(0.0 <= alpha <= 1.0) ==>
      r == Err(AlphaOutOfRange)
    ensures r.Ok? ==> Valid(r.value) && r.value.iter == 0
    ensures r.Ok? ==> forall d, q :: 0 <= d < r.value.scheme.numDestroy && 0 <= q < r.value.scheme.numRepair ==>
      r.value.avg[d][q] == 1.0 && r.value.times[d][q] == 0
  {
    var scheme :- OperatorSelectionScheme.New(numDestroy, numRepair, arg);
    if !(0.0 <= alpha <= 1.0) then Err(AlphaOutOfRange)
    else
      var _ :- CheckScores(scores);
      var nd := scheme.numDestroy;
      var nr := scheme.numRepair;
      Ok(Bandit(scheme, scores, alpha, seq(nd, _ => seq(nr, _ => 1.0)), seq(nd, _ => seq(nr, _ => 0)), 0))
  }

  /** The value of pair `(d, r)` at iteration `t`. */
  function Value(u: Bandit, log: real -> real, sqrt: real -> real, d: nat, r: nat): real
    requires Valid(u) && d < u.scheme.numDestroy && r < u.scheme.numRepair
  {
    if u.scheme.coupling[d][r] then
      u.avg[d][r] + sqrt(u.alpha * log(1.0 + u.iter as real) / (u.times[d][r] as real + 1.0))
    else -1.0
  }

  /** The values of row `d`. */
  function RowValues(u: Bandit, log: real -> real, sqrt: real -> real, d: nat): (v: seq<real>)
    requires Valid(u) && d < u.scheme.numDestroy
    ensures |v| == u.scheme.numRepair
    ensures forall r :: 0 <= r < |v| ==> v[r] == Value(u, log, sqrt, d, r)
  {
    seq(u.scheme.numRepair, r requires 0 <= r < u.scheme.numRepair => Value(u, log, sqrt, d, r))
  }

  /** `np.argmax`: the first index of a maximum. */
  function FirstArgMax(v: seq<real>): (i: nat)
    requires |v| > 0
    ensures i < |v|
    ensures forall j :: 0 <= j < |v| ==> v[j] <= v[i]
    ensures forall j :: 0 <= j < i ==> v[j] < v[i]
    decreases |v|
  {
    if |v| == 1 then 0
    else
      var init := v[..|v| - 1];
      var i := FirstArgMax(init);
      assert forall j :: 0 <= j < |init| ==> init[j] == v[j];
      if v[|v| - 1] > v[i] then |v| - 1 else i
  }

  /** The maximum of each row. */
  function RowMaxima(u: Bandit, log: real -> real, sqrt: real -> real): (m: seq<real>)
    requires Valid(u)
    ensures |m| == u.scheme.numDestroy
    ensures forall d :: 0 <= d < |m| ==>
      var row := RowValues(u, log, sqrt, d);
      m[d] == row[FirstArgMax(row)]
  {
    seq(u.scheme.numDestroy, d requires 0 <= d < u.scheme.numDestroy =>
      var row := RowValues(u, log, sqrt, d);
      row[FirstArgMax(row)])
  }

  /** `__call__`: the first pair, in row-major order, of maximal value.
      With non-negative averages and bonuses every coupled pair is worth at
      least zero, so the pair returned is always coupled. */
  function Select(u: Bandit, log: real -> real, sqrt: real -> real): (p: (nat, nat))
    requires Valid(u) && LogLike(log) && SqrtLike(sqrt)
    ensures p.0 < u.scheme.numDestroy && p.1 < u.scheme.numRepair
    ensures u.scheme.coupling[p.0][p.1]
    ensures forall d, r :: 0 <= d < u.scheme.numDestroy && 0 <= r < u.scheme.numRepair ==>
      Value(u, log, sqrt, d, r) <= Value(u, log, sqrt, p.0, p.1)
    ensures forall d, r :: 0 <= d < u.scheme.numDestroy && 0 <= r < u.scheme.numRepair ==>
      (d < p.0 || (d == p.0 && r < p.1)) ==> Value(u, log, sqrt, d, r) < Value(u, log, sqrt, p.0, p.1)
  {
    var maxima := RowMaxima(u, log, sqrt);
    var d0 := FirstArgMax(maxima);
    var row := RowValues(u, log, sqrt, d0);
    var r0 := FirstArgMax(row);
    var p := (d0, r0);
    forall d, r | 0 <= d < u.scheme.numDestroy && 0 <= r < u.scheme.numRepair
      ensures Value(u, log, sqrt, d, r) <= Value(u, log, sqrt, p.0, p.1)
      ensures d < p.0 || (d == p.0 && r < p.1) ==> Value(u, log, sqrt, d, r) < Value(u, log, sqrt, p.0, p.1)
    {
      var rowD := RowValues(u, log, sqrt, d);
      assert rowD[r] == Value(u, log, sqrt, d, r);
      assert rowD[r] <= maxima[d];
    }
    var c :| 0 <= c < u.scheme.numRepair && u.scheme.coupling[d0][c];
    BonusNonNegative(u, log, sqrt, d0, c);
    assert row[c] == Value(u, log, sqrt, d0, c);
    p
  }

  /** A coupled pair is worth at least its average reward, hence at least
      zero. */
  lemma BonusNonNegative(u: Bandit, log: real -> real, sqrt: real -> real, d: nat, r: nat)
    requires Valid(u) && LogLike(log) && SqrtLike(sqrt)
    requires d < u.scheme.numDestroy && r < u.scheme.numRepair && u.scheme.coupling[d][r]
    ensures Value(u, log, sqrt, d, r) >= 0.0
  {
    var x := 1.0 + u.iter as real;
    assert log(x) >= 0.0;
    MulNonNegative(u.alpha, log(x));
    var c := u.times[d][r] as real + 1.0;
    assert u.alpha * log(x) / c >= 0.0;
  }

  /** The incremental mean: `(t · avg + score) / (t + 1)`. */
  function Refit(avg: real, t: nat, score: real): real
  {
    ((t as real) * avg + score) / (t as real + 1.0)
  }

  /** `update(cand, d, r, outcome)`: refit the average of `(d, r)` with the
      outcome's score, count the use, and count the iteration. */
  function Update(u: Bandit, d: nat, r: nat, o: Outcome): (res: Bandit)
    requires Valid(u) && d < u.scheme.numDestroy && r < u.scheme.numRepair
    ensures Valid(res) && res.scheme == u.scheme && res.scores == u.scores && res.alpha == u.alpha
    ensures res.iter == u.iter + 1
    ensures res.avg[d][r] == Refit(u.avg[d][r], u.times[d][r], u.scores[Index(o)])
    ensures res.times[d][r] == u.times[d][r] + 1
    ensures forall i, j :: 0 <= i < u.scheme.numDestroy && 0 <= j < u.scheme.numRepair && (i, j) != (d, r) ==>
      res.avg[i][j] == u.avg[i][j] && res.times[i][j] == u.times[i][j]
  {
    var t := u.times[d][r];
    var a := Refit(u.avg[d][r], t, u.scores[Index(o)]);
    RefitNonNegative(u.avg[d][r], t, u.scores[Index(o)]);
    u.(avg := u.avg[d := u.avg[d][r := a]],
       times := u.times[d := u.times[d][r := t + 1]],
       iter := u.iter + 1)
  }

  lemma RefitNonNegative(avg: real, t: nat, score: real)
    requires avg >= 0.0 && score >= 0.0
    ensures Refit(avg, t, score) >= 0.0
  {
    MulNonNegative(t as real, avg);
  }

  /** The average after refitting `init` with the rewards `xs` in order,
      starting from count zero. */
  function RefitAll(init: real, xs: seq<real>): real
    decreases |xs|
  {
    if |xs| == 0 then init
    else Refit(RefitAll(init, xs[..|xs| - 1]), |xs| - 1, xs[|xs| - 1])
  }

  /** The first refit discards the initial value, and after `n` rewards the
      average is exactly their mean. */
  lemma {:induction false} RefitIsMean(init: real, xs: seq<real>)
    requires |xs| > 0
    ensures RefitAll(init, xs) == Mean(xs)
    decreases |xs|
  {
    var n := |xs| - 1;
    var init' := xs[..n];
    var x := xs[n];
    if n == 0 {
      assert init' == [];
      assert Sum(xs) == x;
    } else {
      RefitIsMean(init, init');
      MeanStep(Sum(init'), n, x, RefitAll(init, init'));
    }
  }

  lemma MeanStep(s: real, n: nat, x: real, m: real)
    requires n > 0 && m == s / (n as real)
    ensures Refit(m, n, x) == (s + x) / (n as real + 1.0)
  {
    assert (n as real) * m == s;
  }

  /** `n` updates of one pair. */
  function UpdateAll(u: Bandit, d: nat, r: nat, os: seq<Outcome>): (res: Bandit)
    requires Valid(u) && d < u.scheme.numDestroy && r < u.scheme.numRepair
    ensures Valid(res) && res.scheme == u.scheme && res.scores == u.scores
    decreases |os|
  {
    if |os| == 0 then u
    else Update(UpdateAll(u, d, r, os[..|os| - 1]), d, r, os[|os| - 1])
  }

  /** The rewards a sequence of outcomes yields. */
  function Rewards(scores: seq<real>, os: seq<Outcome>): (xs: seq<real>)
    requires |scores| >= 4
    ensures |xs| == |os| && forall i :: 0 <= i < |os| ==> xs[i] == scores[Index(os[i])]
  {
    seq(|os|, i requires 0 <= i < |os| => scores[Index(os[i])])
  }

  /** After `n ≥ 1` updates of a pair never used before, its average reward
      is the mean of the `n` scores it received and its count is `n`. */
  lemma {:induction false} ArmAverageIsMean(u: Bandit, d: nat, r: nat, os: seq<Outcome>)
    requires Valid(u) && d < u.scheme.numDestroy && r < u.scheme.numRepair
    requires u.times[d][r] == 0
    ensures UpdateAll(u, d, r, os).times[d][r] == |os|
    ensures UpdateAll(u, d, r, os).avg[d][r] == RefitAll(u.avg[d][r], Rewards(u.scores, os))
    ensures |os| > 0 ==> UpdateAll(u, d, r, os).avg[d][r] == Mean(Rewards(u.scores, os))
    decreases |os|
  {
    var xs := Rewards(u.scores, os);
    if |os| > 0 {
      var init := os[..|os| - 1];
      ArmAverageIsMean(u, d, r, init);
      assert xs[..|os| - 1] == Rewards(u.scores, init);
      RefitIsMean(u.avg[d][r], xs);
    }
  }
}
