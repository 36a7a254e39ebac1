/** `WorseAccept` (alns/accept/WorseAccept.py), a second copy of the
    random-accept rule kept in the package. */
module WorseAccept {
  import opened Wrappers
  import opened UpdateRule
  import opened Decay
  import RandomAccept

  type Criterion = RandomAccept.Criterion

  /** The constructor: a probability range inside [0, 1], a non-negative
      step, and a step of at most one for the exact name "exponential". */
  function New(start: real, end: real, step: real, mode: string): (r: Result<Criterion, string>)
    ensures r.Ok? <==> 0.0 <= end <= start <= 1.0 && step >= 0.0 && !(mode == "exponential" && step > 1.0)
    ensures r.Ok? ==> RandomAccept.Valid(r.value)
  {
    if !(0.0 <= end <= start <= 1.0) then
      Err("Must have 0 <= start_prob <= end_prob <= 1")
    else if step < 0.0 then
      Err("Step cannot be negative.")
    else if mode == "exponential" && step > 1.0 then
      Err("Exponential updating cannot have step > 1.")
    else
      Ok(RandomAccept.Criterion(start, Schedule(start, end, step, mode)))
  }

  /** One call: a strictly better candidate is accepted without a draw; any
      other is accepted when the draw is below the probability from before
      the call. The probability then advances. */
  function Accept(c: Criterion, best: real, curr: real, cand: real, draw: real)
    : (r: Result<RandomAccept.Step, UpdateError>)
    ensures r.Err? <==> !KnownMethod(c.schedule.mode)
    ensures r.Ok? ==> (r.value.accepted <==> cand < curr || draw < c.schedule.value)
    ensures r.Ok? ==> (r.value.usedDraw <==> !(cand < curr))
  {
    var res := cand < curr;
    var usedDraw := !res;
    var res' := if res then res else draw < c.schedule.value;
    var s :- Advance(c.schedule);
    Ok(RandomAccept.Step(c.(schedule := s), res', usedDraw))
  }

  /** Both classes validate alike and decide alike on every input, so every
      property proved for random accept holds here too. */
  lemma SameAsRandomAccept(start: real, end: real, step: real, mode: string,
                           c: Criterion, best: real, curr: real, cand: real, draw: real)
    ensures New(start, end, step, mode) == RandomAccept.New(start, end, step, mode)
    ensures Accept(c, best, curr, cand, draw) == RandomAccept.Accept(c, best, curr, cand, draw)
  {
  }
}
