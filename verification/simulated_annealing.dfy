/** The simulated-annealing acceptance criterion
    (alns/accept/SimulatedAnnealing.py): a candidate is accepted when
    `exp((current − candidate) / T)` is at least a uniform draw, and after
    every call the temperature `T` moves one step towards its floor. */
module SimulatedAnnealing {
  import opened Wrappers
  import opened Numerics
  import opened UpdateRule
  import opened Decay

  /** `start` is the start temperature; `schedule.value` is the current
      temperature, `schedule.end` the end temperature. */
  datatype Criterion = Criterion(start: real, schedule: Schedule)

  /** What the constructor establishes and every call preserves: a strictly
      positive floor under the current temperature, so the division in the
      acceptance probability is always defined. */
  predicate Valid(c: Criterion)
  {
    && c.schedule.end > 0.0
    && c.schedule.value >= c.schedule.end
    && c.schedule.step >= 0.0
  }

  /** The constructor. The step bound is checked only for the exact,
      lower-case spelling "exponential". */
  function New(start: real, end: real, step: real, mode: string): (r: Result<Criterion, string>)
    ensures r.Ok? <==>
      && start > 0.0 && end > 0.0 && step >= 0.0 && start >= end
      && !(mode == "exponential" && step > 1.0)
    ensures (start <= 0.0 || end <= 0.0 || step < 0.0) ==>
      r == Err("Temperatures must be strictly positive.")
    ensures start > 0.0 && end > 0.0 && step >= 0.0 && start < end ==>
      r == Err("start_temperature < end_temperature not understood.")
    ensures start > 0.0 && end > 0.0 && step >= 0.0 && start >= end && mode == "exponential" && step > 1.0 ==>
      r == Err("Exponential updating cannot have step > 1.")
    ensures r.Ok? ==> Valid(r.value) && r.value.start == start
    ensures r.Ok? ==> r.value.schedule == Schedule(start, end, step, mode)
  {
    if start <= 0.0 || end <= 0.0 || step < 0.0 then
      Err("Temperatures must be strictly positive.")
    else if start < end then
      Err("start_temperature < end_temperature not understood.")
    else if mode == "exponential" && step > 1.0 then
      Err("Exponential updating cannot have step > 1.")
    else
      Ok(Criterion(start, Schedule(start, end, step, mode)))
  }

  /** One call. The probability is computed with the temperature from before
      the call; the temperature is then advanced whatever the verdict, and an
      update method `update` does not understand surfaces here as an error. */
  function Accept(c: Criterion, exp: real -> real, best: real, curr: real, cand: real, draw: real)
    : (r: Result<(Criterion, bool), UpdateError>)
    requires Valid(c)
    ensures r.Err? <==> !KnownMethod(c.schedule.mode)
    ensures r.Ok? ==> Valid(r.value.0) && r.value.0.start == c.start
    ensures r.Ok? ==> r.value.0.schedule == Advance(c.schedule).value
    ensures r.Ok? ==> (r.value.1 <==> exp((curr - cand) / c.schedule.value) >= draw)
  {
    var probability := exp((curr - cand) / c.schedule.value);
    var s :- Advance(c.schedule);
    Ok((c.(schedule := s), probability >= draw))
  }

  /** A candidate no worse than the current solution is accepted for every
      draw in [0, 1), whatever the temperature. */
  lemma AcceptsNoWorse(c: Criterion, exp: real -> real, best: real, curr: real, cand: real, draw: real)
    requires Valid(c) && ExpLike(exp) && KnownMethod(c.schedule.mode)
    requires cand <= curr && 0.0 <= draw < 1.0
    ensures Accept(c, exp, best, curr, cand, draw).Ok?
    ensures Accept(c, exp, best, curr, cand, draw).value.1
  {
    var x := (curr - cand) / c.schedule.value;
    assert x >= 0.0;
    assert exp(x) >= 1.0;
  }

  /** One call's inputs: the objectives of best, current and candidate, and
      the uniform draw. */
  datatype Call = Call(best: real, curr: real, cand: real, draw: real)

  /** Successive calls on one criterion; the verdicts in call order. */
  function Run(c: Criterion, exp: real -> real, calls: seq<Call>): (r: Result<(Criterion, seq<bool>), UpdateError>)
    requires Valid(c)
    ensures r.Ok? ==> Valid(r.value.0) && |r.value.1| == |calls|
    decreases |calls|
  {
    if |calls| == 0 then Ok((c, []))
    else
      var first :- Accept(c, exp, calls[0].best, calls[0].curr, calls[0].cand, calls[0].draw);
      var rest :- Run(first.0, exp, calls[1..]);
      Ok((rest.0, [first.1] + rest.1))
  }

  /** The temperature after `k` calls is `k` schedule updates of the start,
      independently of the objectives and draws seen. */
  lemma {:induction false} RunTemperature(c: Criterion, exp: real -> real, calls: seq<Call>)
    requires Valid(c)
    ensures Run(c, exp, calls).Ok? <==> AdvanceN(c.schedule, |calls|).Ok?
    ensures Run(c, exp, calls).Ok? ==>
      Run(c, exp, calls).value.0.schedule == AdvanceN(c.schedule, |calls|).value
    decreases |calls|
  {
    if |calls| > 0 {
      var a := Accept(c, exp, calls[0].best, calls[0].curr, calls[0].cand, calls[0].draw);
      if a.Ok? {
        RunTemperature(a.value.0, exp, calls[1..]);
      }
    }
  }

  /** `autofit`: a start temperature at which a solution `worse` (as a
      fraction) worse than `initObj` is accepted with probability
      `acceptProb`, end temperature one, and a step that reaches one in
      `numIters` iterations. The method names are matched case-sensitively.
      The result goes through the constructor, so a start temperature below
      one is rejected there. */
  function Autofit(initObj: real, worse: real, acceptProb: real, numIters: int, mode: string,
                   log: real -> real, pow: (real, real) -> real): (r: Result<Criterion, string>)
    requires LogLike(log) && PowLike(pow)
    ensures r.Ok? <==>
      && 0.0 <= worse <= 1.0 && 0.0 < acceptProb < 1.0 && numIters > 0
      && (mode == "linear" || mode == "exponential")
      && -worse * initObj / log(acceptProb) >= 1.0
    ensures r.Ok? ==> Valid(r.value)
    ensures r.Ok? ==> r.value.schedule.end == 1.0 && r.value.schedule.mode == mode
    ensures r.Ok? ==> r.value.start == r.value.schedule.value
    ensures r.Ok? ==> r.value.start * log(acceptProb) == -worse * initObj
    ensures r.Ok? && mode == "linear" ==>
      r.value.schedule.step * (numIters as real) == r.value.start - 1.0
    ensures r.Ok? && mode == "exponential" ==> 0.0 < r.value.schedule.step <= 1.0
  {
    if !(0.0 <= worse <= 1.0) then Err("worse outside [0, 1] not understood.")
    else if !(0.0 < acceptProb < 1.0) then Err("accept_prob outside (0, 1) not understood.")
    else if numIters <= 0 then Err("Non-positive num_iters not understood.")
    else if mode != "linear" && mode != "exponential" then
      Err("Method must be one of ['linear', 'exponential']")
    else
      var startTemp := -worse * initObj / log(acceptProb);
      var n := numIters as real;
      // A zero start temperature makes the exponential step infinite in
      // floating point; the constructor rejects that temperature before it
      // looks at the step, so any step value gives the same outcome.
      var step :=
        if mode == "linear" then (startTemp - 1.0) / n
        else if startTemp == 0.0 then 0.0
        else pow(1.0 / startTemp, 1.0 / n);
      AutofitStep(startTemp, n, mode, step, pow);
      New(startTemp, 1.0, step, mode)
  }

  lemma AutofitStep(startTemp: real, n: real, mode: string, step: real, pow: (real, real) -> real)
    requires PowLike(pow) && n > 0.0 && (mode == "linear" || mode == "exponential")
    requires mode == "linear" ==> step == (startTemp - 1.0) / n
    requires mode == "exponential" && startTemp != 0.0 ==> step == pow(1.0 / startTemp, 1.0 / n)
    ensures startTemp >= 1.0 ==> step >= 0.0
    ensures startTemp >= 1.0 && mode == "exponential" ==> 0.0 < step <= 1.0
    ensures mode == "linear" ==> step * n == startTemp - 1.0
  {
    if startTemp >= 1.0 && mode == "exponential" {
      var x := 1.0 / startTemp;
      assert 0.0 < x <= 1.0;
      assert 1.0 / n >= 0.0;
    }
  }

  lemma LinearReachesEnd(start: real, step: real, n: real, k: nat)
    requires step * n == start - 1.0 && (k as real) == n
    ensures Max(1.0, start - (k as real) * step) == 1.0
  {
    assert (k as real) * step == step * n;
  }

  /** A linear autofit reaches the end temperature one after exactly
      `numIters` temperature updates, that is, after `numIters` calls
      (`RunTemperature`). */
  lemma AutofitLinearReachesOne(initObj: real, worse: real, acceptProb: real, numIters: nat,
                                log: real -> real, pow: (real, real) -> real)
    requires LogLike(log) && PowLike(pow)
    requires Autofit(initObj, worse, acceptProb, numIters, "linear", log, pow).Ok?
    ensures var c := Autofit(initObj, worse, acceptProb, numIters, "linear", log, pow).value;
      AdvanceN(c.schedule, numIters) == Ok(c.schedule.(value := 1.0))
  {
    var c := Autofit(initObj, worse, acceptProb, numIters, "linear", log, pow).value;
    var s := c.schedule;
    assert s.step * (numIters as real) == s.value - 1.0;
    assert s.end == 1.0;
    LinearReachesEnd(s.value, s.step, numIters as real, numIters);
    assert Lower("linear") == "linear";
    LinearClosedForm(s, numIters);
  }
}
