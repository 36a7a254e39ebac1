/** The adaptive threshold criterion (alns/accept/AdaptiveThreshold.py), the
    earlier name of the moving-average threshold: the same constructor checks
    and the same window rule. */
module AdaptiveThreshold {
  import opened Wrappers
  import opened Numerics
  import opened Deque
  import MovingAverageThreshold

  type Criterion = MovingAverageThreshold.Criterion

  function New(eta: real, gamma: int): (r: Result<Criterion, string>)
    ensures r.Ok? <==> 0.0 <= eta <= 1.0 && gamma > 0
    ensures !(0.0 <= eta <= 1.0) ==> r == Err("eta must be in [0, 1].")
    ensures 0.0 <= eta <= 1.0 && gamma <= 0 ==> r == Err("gamma must be positive.")
    ensures r.Ok? ==> MovingAverageThreshold.Valid(r.value) && r.value.history == []
  {
    if !(0.0 <= eta <= 1.0) then Err("eta must be in [0, 1].")
    else if gamma <= 0 then Err("gamma must be positive.")
    else Ok(MovingAverageThreshold.Criterion(eta, gamma, []))
  }

  /** One call: the candidate joins the window of the last `gamma`
      candidates and is accepted when at most `min + eta·(mean − min)` of
      that window. */
  function Accept(c: Criterion, best: real, curr: real, cand: real): (r: (Criterion, bool))
    requires MovingAverageThreshold.Valid(c)
    ensures MovingAverageThreshold.Valid(r.0)
    ensures r.0.history == Append(c.history, c.gamma, cand)
    ensures r.1 <==> cand <= MovingAverageThreshold.Threshold(c.eta, r.0.history)
  {
    var h := Append(c.history, c.gamma, cand);
    (c.(history := h), cand <= MovingAverageThreshold.Between(MinOf(h), Mean(h), c.eta))
  }

  /** Both classes build the same criterion from the same arguments and
      give the same verdict and window on every call. */
  lemma SameAsMovingAverageThreshold(eta: real, gamma: int, c: Criterion, best: real, curr: real, cand: real)
    requires MovingAverageThreshold.Valid(c)
    ensures New(eta, gamma) == MovingAverageThreshold.New(eta, gamma)
    ensures Accept(c, best, curr, cand) == MovingAverageThreshold.Accept(c, best, curr, cand)
  {
  }
}
