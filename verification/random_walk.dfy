/** The random-walk criterion (alns/accept/RandomWalk.py): stateless,
    accepts every candidate. */
module RandomWalk {
  import opened UpdateRule
  import RandomAccept

  function Accept(best: real, curr: real, cand: real): (r: bool)
    ensures r
  {
    true
  }

  /** Random walk is random acceptance frozen at probability one: for every
      random-acceptance criterion whose probability is one, and every draw in
      [0, 1), the verdicts agree on all objectives. */
  lemma IsCertainRandomAccept(c: RandomAccept.Criterion, best: real, curr: real, cand: real, draw: real)
    requires KnownMethod(c.schedule.mode) && c.schedule.value == 1.0 && 0.0 <= draw < 1.0
    ensures RandomAccept.Accept(c, best, curr, cand, draw).Ok?
    ensures Accept(best, curr, cand) == RandomAccept.Accept(c, best, curr, cand, draw).value.accepted
  {
  }
}
