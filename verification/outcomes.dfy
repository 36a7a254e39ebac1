/** The four evaluation outcomes of an iteration (alns/Outcome.py), with the
    integer value each carries: the index into a selection scheme's score
    list. */
module Outcomes {

  datatype Outcome = Best | Better | Accept | Reject

  function Index(o: Outcome): (r: nat)
    ensures r < 4
  {
    match o
    case Best => 0
    case Better => 1
    case Accept => 2
    case Reject => 3
  }

  /** Distinct outcomes select distinct scores. */
  lemma IndexInjective(a: Outcome, b: Outcome)
    ensures Index(a) == Index(b) <==> a == b
  {
  }
}
