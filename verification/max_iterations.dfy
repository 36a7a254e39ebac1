/** The iteration-count stopping criterion (alns/stop/MaxIterations.py). */
module MaxIterations {
  import opened Wrappers

  /** `done` counts the calls so far. */
  datatype Criterion = Criterion(maxIterations: nat, done: nat)

  function New(maxIterations: int): (r: Result<Criterion, string>)
    ensures r.Ok? <==> maxIterations >= 0
    ensures r.Err? ==> r.error == "max_iterations < 0 not understood."
    ensures r.Ok? ==> r.value == Criterion(maxIterations, 0)
  {
    if maxIterations < 0 then Err("max_iterations < 0 not understood.")
    else Ok(Criterion(maxIterations, 0))
  }

  /** One call: count it, and stop once the count exceeds the maximum. */
  function Stop(c: Criterion, best: real, curr: real): (r: (Criterion, bool))
    ensures r.0.maxIterations == c.maxIterations && r.0.done == c.done + 1
    ensures r.1 <==> r.0.done > c.maxIterations
  {
    var next := c.(done := c.done + 1);
    (next, next.done > c.maxIterations)
  }

  /** The answers of `k` successive calls. */
  function Run(c: Criterion, k: nat): (r: (Criterion, seq<bool>))
    ensures |r.1| == k && r.0.maxIterations == c.maxIterations
    decreases k
  {
    if k == 0 then (c, [])
    else
      var first := Stop(c, 0.0, 0.0);
      var rest := Run(first.0, k - 1);
      (rest.0, [first.1] + rest.1)
  }

  /** From a fresh criterion, call `i` (counting from zero) answers
      `i ≥ maxIterations`: the first `maxIterations` calls continue and
      every later one stops; with maximum zero the first call stops. */
  lemma {:induction false} RunAnswers(c: Criterion, k: nat)
    ensures Run(c, k).0.done == c.done + k
    ensures forall i :: 0 <= i < k ==> (Run(c, k).1[i] <==> c.done + i + 1 > c.maxIterations)
    decreases k
  {
    if k > 0 {
      var first := Stop(c, 0.0, 0.0);
      RunAnswers(first.0, k - 1);
      var rest := Run(first.0, k - 1).1;
      assert Run(c, k).1 == [first.1] + rest;
      forall i | 0 <= i < k
        ensures Run(c, k).1[i] <==> c.done + i + 1 > c.maxIterations
      {
        if i > 0 {
          assert Run(c, k).1[i] == rest[i - 1];
        }
      }
    }
  }

  lemma FreshRun(maxIterations: nat, k: nat)
    ensures forall i :: 0 <= i < k ==> (Run(Criterion(maxIterations, 0), k).1[i] <==> i >= maxIterations)
  {
    RunAnswers(Criterion(maxIterations, 0), k);
  }
}
