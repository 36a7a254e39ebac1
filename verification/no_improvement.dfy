/** The no-improvement stopping criterion (alns/stop/NoImprovement.py): it
    remembers the best objective it last saw improve and counts the calls
    since. */
module NoImprovement {
  import opened Wrappers

  /** `target` is `None` before the first call. */
  datatype Criterion = Criterion(maxIterations: nat, target: Option<real>, counter: nat)

  function New(nIterations: int): (r: Result<Criterion, string>)
    ensures r.Ok? <==> nIterations >= 0
    ensures r.Err? ==> r.error == "n_iterations < 0 not understood."
    ensures r.Ok? ==> r.value == Criterion(nIterations, None, 0)
  {
    if nIterations < 0 then Err("n_iterations < 0 not understood.")
    else Ok(Criterion(nIterations, None, 0))
  }

  /** One call. A first call, or a best objective strictly below the target,
      resets the target and the counter and continues; any other call counts
      and stops once the count exceeds the limit. */
  function Stop(c: Criterion, best: real): (r: (Criterion, bool))
    ensures r.0.maxIterations == c.maxIterations && r.0.target.Some?
    ensures c.target.None? || best < c.target.value ==>
      r.0.target == Some(best) && r.0.counter == 0 && !r.1
    ensures c.target.Some? && best >= c.target.value ==>
      r.0.target == c.target && r.0.counter == c.counter + 1 && (r.1 <==> c.counter + 1 > c.maxIterations)
  {
    if c.target.None? || best < c.target.value then
      (c.(target := Some(best), counter := 0), false)
    else
      var next := c.(counter := c.counter + 1);
      (next, next.counter > c.maxIterations)
  }

  /** Once it answers stop, it keeps answering stop until the best
      objective strictly improves. */
  lemma StopsUntilImprovement(c: Criterion, best1: real, best2: real)
    requires Stop(c, best1).1 && best2 >= Stop(c, best1).0.target.value
    ensures Stop(Stop(c, best1).0, best2).1
  {
  }

  /** The answers of successive calls, one per best objective. */
  function Run(c: Criterion, bests: seq<real>): (r: (Criterion, seq<bool>))
    ensures |r.1| == |bests| && r.0.maxIterations == c.maxIterations
    decreases |bests|
  {
    if |bests| == 0 then (c, [])
    else
      var first := Stop(c, bests[0]);
      var rest := Run(first.0, bests[1..]);
      (rest.0, [first.1] + rest.1)
  }

  /** With a target already at `b` and a constant best `b`, every call
      counts, so call `i` (from zero) answers `counter + i + 1 > n`. */
  lemma {:induction false} ConstantBestCounts(c: Criterion, b: real, k: nat)
    requires c.target == Some(b)
    ensures Run(c, seq(k, _ => b)).0 == c.(counter := c.counter + k)
    ensures var v := Run(c, seq(k, _ => b)).1;
      forall i :: 0 <= i < k ==> (v[i] <==> c.counter + i + 1 > c.maxIterations)
    decreases k
  {
    var bests := seq(k, _ => b);
    if k > 0 {
      var first := Stop(c, b);
      assert bests[1..] == seq(k - 1, _ => b);
      ConstantBestCounts(first.0, b, k - 1);
      var rest := Run(first.0, bests[1..]).1;
      assert Run(c, bests).1 == [first.1] + rest;
      forall i | 0 <= i < k
        ensures Run(c, bests).1[i] <==> c.counter + i + 1 > c.maxIterations
      {
        if i > 0 {
          assert Run(c, bests).1[i] == rest[i - 1];
        }
      }
    }
  }

  /** From a fresh criterion with limit `n` and a constant best objective,
      the first `n + 1` calls continue and every later call stops. */
  lemma ConstantBest(n: nat, b: real, k: nat)
    requires k > 0
    ensures var v := Run(Criterion(n, None, 0), seq(k, _ => b)).1;
      forall i :: 0 <= i < k ==> (v[i] <==> i > n)
  {
    var c := Criterion(n, None, 0);
    var bests := seq(k, _ => b);
    var first := Stop(c, b);
    assert bests[1..] == seq(k - 1, _ => b);
    ConstantBestCounts(first.0, b, k - 1);
    var rest := Run(first.0, bests[1..]).1;
    assert Run(c, bests).1 == [false] + rest;
    forall i | 0 <= i < k
      ensures Run(c, bests).1[i] <==> i > n
    {
      if i > 0 {
        assert Run(c, bests).1[i] == rest[i - 1];
      }
    }
  }
}
