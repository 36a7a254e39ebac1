/** `ThresholdAccept` (alns/accept/ThresholdAccept.py), a second copy of the
    threshold-acceptance rule kept in the package. */
module ThresholdAccept {
  import opened Wrappers
  import opened UpdateRule
  import RecordToRecordTravel
  import ThresholdAcceptance

  type Criterion = RecordToRecordTravel.Criterion

  /** One call: accept when the candidate is at most the threshold from
      before the call worse than the current solution; then advance. */
  function Accept(c: Criterion, best: real, curr: real, cand: real): (r: Result<(Criterion, bool), UpdateError>)
    ensures r.Err? <==> !KnownMethod(c.schedule.mode)
    ensures r.Ok? ==> r.value.0 == RecordToRecordTravel.Next(c).value
    ensures r.Ok? ==> (r.value.1 <==> cand - curr <= c.schedule.value)
  {
    var res := cand - curr <= c.schedule.value;
    var next :- RecordToRecordTravel.Next(c);
    Ok((next, res))
  }

  /** The two classes agree on every input. */
  lemma SameAsThresholdAcceptance(c: Criterion, best: real, curr: real, cand: real)
    ensures Accept(c, best, curr, cand) == ThresholdAcceptance.Accept(c, best, curr, cand)
  {
  }
}
