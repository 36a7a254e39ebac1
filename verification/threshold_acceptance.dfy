/** The threshold-acceptance criterion (alns/accept/ThresholdAcceptance.py):
    the record-to-record travel schedule and constructor
    (`RecordToRecordTravel.New`), but the gap is measured against the CURRENT
    solution. */
module ThresholdAcceptance {
  import opened Wrappers
  import opened UpdateRule
  import opened Decay
  import RecordToRecordTravel

  type Criterion = RecordToRecordTravel.Criterion

  /** One call: the verdict compares the candidate with the current solution
      under the threshold from before the call; the threshold then advances. */
  function Accept(c: Criterion, best: real, curr: real, cand: real): (r: Result<(Criterion, bool), UpdateError>)
    ensures r.Err? <==> !KnownMethod(c.schedule.mode)
    ensures r.Ok? ==> r.value.0 == RecordToRecordTravel.Next(c).value
    ensures r.Ok? ==> (r.value.1 <==> cand - curr <= c.schedule.value)
  {
    var diff := cand - curr;
    var res := diff <= c.schedule.value;
    var next :- RecordToRecordTravel.Next(c);
    Ok((next, res))
  }

  /** Threshold acceptance is record-to-record travel with the current
      solution in the place of the best one; in particular the best solution
      plays no part, and the worked threshold sequences of record-to-record
      travel apply verbatim to gaps against the current solution. */
  lemma IsRecordToRecordTravelAgainstCurrent(c: Criterion, best: real, curr: real, cand: real)
    ensures Accept(c, best, curr, cand) == RecordToRecordTravel.Accept(c, curr, curr, cand)
  {
  }

  /** A candidate no worse than the current solution is accepted, even at
      threshold zero. */
  lemma AcceptsNoWorse(c: Criterion, best: real, curr: real, cand: real)
    requires RecordToRecordTravel.Valid(c) && KnownMethod(c.schedule.mode) && cand <= curr
    ensures Accept(c, best, curr, cand).Ok? && Accept(c, best, curr, cand).value.1
  {
  }
}
