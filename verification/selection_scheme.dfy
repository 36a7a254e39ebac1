/** The older weight-based scheme base (alns/select/SelectionScheme.py):
    scores and operator counts are checked, all weights start at one, and
    `select_operators` is the roulette-wheel draw with the coupling passed
    in by the caller. */
module SelectionScheme {
  import opened Wrappers
  import opened Numerics
  import opened OperatorSelectionScheme
  import opened Sampling
  import RouletteWheel

  datatype Weights = Weights(scores: seq<real>, dWeights: seq<real>, rWeights: seq<real>)

  predicate Valid(w: Weights)
  {
    ValidScores(w.scores) && |w.dWeights| > 0 && |w.rWeights| > 0
    && NonNegative(w.dWeights) && NonNegative(w.rWeights)
  }

  /** Scores are checked before the operator counts here. */
  function New(scores: seq<real>, numDestroy: int, numRepair: int): (r: Result<Weights, SelectionError>)
    ensures r.Ok? <==> ValidScores(scores) && numDestroy > 0 && numRepair > 0
    ensures ValidScores(scores) && r.Err? ==> r.error == MissingOperators
    ensures !ValidScores(scores) ==> r == CheckScores(scores).PropagateFailure()
    ensures r.Ok? ==> Valid(r.value) && |r.value.dWeights| == numDestroy && |r.value.rWeights| == numRepair
    ensures r.Ok? ==>
      && (forall i :: 0 <= i < |r.value.dWeights| ==> r.value.dWeights[i] == 1.0)
      && (forall i :: 0 <= i < |r.value.rWeights| ==> r.value.rWeights[i] == 1.0)
  {
    var _ :- CheckScores(scores);
    if numDestroy <= 0 || numRepair <= 0 then Err(MissingOperators)
    else Ok(Weights(scores, RouletteWheel.Constant(numDestroy, 1.0), RouletteWheel.Constant(numRepair, 1.0)))
  }

  /** `select_operators(rnd, op_coupling)`; the weights are not changed. */
  function SelectOperators(w: Weights, coupling: seq<seq<bool>>, dDraw: real, rDraw: real)
    : (r: Result<(nat, nat), SelectionError>)
    requires Valid(w) && HasShape(coupling, |w.dWeights|, |w.rWeights|)
    requires 0.0 <= dDraw < 1.0 && 0.0 <= rDraw < 1.0
    ensures r.Ok? ==> r.value.0 < |w.dWeights| && r.value.1 < |w.rWeights| && coupling[r.value.0][r.value.1]
    ensures r.Ok? ==> w.dWeights[r.value.0] > 0.0 && w.rWeights[r.value.1] > 0.0
    ensures WeightedPair(w.dWeights, w.rWeights, coupling, dDraw, rDraw, r)
  {
    SelectPair(w.dWeights, w.rWeights, coupling, dDraw, rDraw)
  }

  /** The same draw as the roulette wheel's `__call__` on equal weights and
      coupling. */
  lemma SameAsRouletteWheel(w: Weights, wheel: RouletteWheel.Wheel, dDraw: real, rDraw: real)
    requires Valid(w) && RouletteWheel.Valid(wheel)
    requires w.dWeights == wheel.dWeights && w.rWeights == wheel.rWeights
    requires 0.0 <= dDraw < 1.0 && 0.0 <= rDraw < 1.0
    ensures SelectOperators(w, wheel.scheme.coupling, dDraw, rDraw) == RouletteWheel.Select(wheel, dDraw, rDraw)
  {
  }

  /** A destroy operator coupled with no repair operator makes the second
      draw fail: the caller's coupling is not validated here. */
  lemma UncoupledRowFails(dDraw: real, rDraw: real)
    requires 0.0 <= dDraw < 1.0 && 0.0 <= rDraw < 1.0
    ensures New([1.0, 1.0, 1.0, 1.0], 1, 1).Ok?
    ensures SelectOperators(New([1.0, 1.0, 1.0, 1.0], 1, 1).value, [[false]], dDraw, rDraw) == Err(EmptyChoice)
  {
    var w := New([1.0, 1.0, 1.0, 1.0], 1, 1).value;
    assert w.dWeights == [1.0];
    assert [1.0][..1] == [1.0];
    assert FlatNonzero([false]) == [];
  }
}
