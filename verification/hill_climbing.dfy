/** The hill-climbing criterion (alns/accept/HillClimbing.py): stateless,
    accepts a candidate no worse than the current solution. */
module HillClimbing {
  import opened UpdateRule
  import ThresholdAcceptance

  function Accept(best: real, curr: real, cand: real): (r: bool)
    ensures r <==> cand <= curr
  {
    cand <= curr
  }

  /** Hill climbing is threshold acceptance frozen at threshold zero: for
      every threshold-acceptance criterion whose current threshold is zero,
      the verdicts agree on all objectives. */
  lemma IsZeroThresholdAcceptance(c: ThresholdAcceptance.Criterion, best: real, curr: real, cand: real)
    requires KnownMethod(c.schedule.mode) && c.schedule.value == 0.0
    ensures ThresholdAcceptance.Accept(c, best, curr, cand).Ok?
    ensures Accept(best, curr, cand) == ThresholdAcceptance.Accept(c, best, curr, cand).value.1
  {
  }

  /** Ties are accepted and strictly worse candidates rejected, whatever the
      best solution. */
  lemma TiesAndWorse(best1: real, best2: real, curr: real, cand: real)
    ensures Accept(best1, curr, curr)
    ensures cand > curr ==> !Accept(best2, curr, cand)
  {
  }
}
