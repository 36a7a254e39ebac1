/** The roulette-wheel scheme (alns/select/RouletteWheel.py): one weight per
    destroy and per repair operator, all starting at one; a pair is drawn by
    weight, and `update` moves the weights of the pair used towards the
    score of the iteration's outcome. */
module RouletteWheel {
  import opened Wrappers
  import opened Numerics
  import opened Outcomes
  import opened OperatorSelectionScheme
  import opened Sampling

  datatype Wheel = Wheel(scheme: Scheme, scores: seq<real>, decay: real,
                         dWeights: seq<real>, rWeights: seq<real>)

  /** What the constructor establishes and `update` preserves: a valid
      scheme and scores, a decay in [0, 1], one non-negative weight per
      operator. */
  predicate Valid(w: Wheel)
  {
    && OperatorSelectionScheme.Valid(w.scheme)
    && ValidScores(w.scores)
    && 0.0 <= w.decay <= 1.0
    && |w.dWeights| == w.scheme.numDestroy && |w.rWeights| == w.scheme.numRepair
    && NonNegative(w.dWeights) && NonNegative(w.rWeights)
  }

  function Constant(n: nat, x: real): (r: seq<real>)
    ensures |r| == n && forall i :: 0 <= i < n ==> r[i] == x
  {
    seq(n, _ => x)
  }

  /** The constructor: the base checks, then the scores, then the decay. */
  function New(scores: seq<real>, decay: real, numDestroy: int, numRepair: int, arg: CouplingArg)
    : (r: Result<Wheel, SelectionError>)
    ensures r.Ok? <==>
      OperatorSelectionScheme.New(numDestroy, numRepair, arg).Ok? && ValidScores(scores) && 0.0 <= decay <= 1.0
    ensures OperatorSelectionScheme.New(numDestroy, numRepair, arg).Err? ==>
      r == Err(OperatorSelectionScheme.New(numDestroy, numRepair, arg).error)
    ensures OperatorSelectionScheme.New(numDestroy, numRepair, arg).Ok? && ValidScores(scores) && r.Err? ==>
      r.error == DecayOutOfRange
    ensures r.Ok? ==> Valid(r.value) && r.value.scheme == OperatorSelectionScheme.New(numDestroy, numRepair, arg).value
    ensures r.Ok? ==> r.value.scores == scores && r.value.decay == decay
    ensures r.Ok? ==>
      && (forall i :: 0 <= i < |r.value.dWeights| ==> r.value.dWeights[i] == 1.0)
      && (forall i :: 0 <= i < |r.value.rWeights| ==> r.value.rWeights[i] == 1.0)
  {
    var scheme :- OperatorSelectionScheme.New(numDestroy, numRepair, arg);
    var _ :- CheckScores(scores);
    if !(0.0 <= decay <= 1.0) then Err(DecayOutOfRange)
    else Ok(Wheel(scheme, scores, decay, Constant(scheme.numDestroy, 1.0), Constant(scheme.numRepair, 1.0)))
  }

  /** `__call__`: a destroy operator by weight, then a coupled repair
      operator by weight. The weights are not changed. */
  function Select(w: Wheel, dDraw: real, rDraw: real): (r: Result<(nat, nat), SelectionError>)
    requires Valid(w) && 0.0 <= dDraw < 1.0 && 0.0 <= rDraw < 1.0
    ensures r.Ok? ==> r.value.0 < w.scheme.numDestroy && r.value.1 < w.scheme.numRepair
    ensures r.Ok? ==> w.scheme.coupling[r.value.0][r.value.1]
    ensures r.Ok? ==> w.dWeights[r.value.0] > 0.0 && w.rWeights[r.value.1] > 0.0
    ensures WeightedPair(w.dWeights, w.rWeights, w.scheme.coupling, dDraw, rDraw, r)
  {
    SelectPair(w.dWeights, w.rWeights, w.scheme.coupling, dDraw, rDraw)
  }

  /** A freshly built wheel always selects. */
  lemma FreshWheelSelects(w: Wheel, dDraw: real, rDraw: real)
    requires Valid(w) && 0.0 <= dDraw < 1.0 && 0.0 <= rDraw < 1.0
    requires forall i :: 0 <= i < |w.dWeights| ==> w.dWeights[i] == 1.0
    requires forall i :: 0 <= i < |w.rWeights| ==> w.rWeights[i] == 1.0
    ensures Select(w, dDraw, rDraw).Ok?
  {
    PositiveWeightsSelect(w.dWeights, w.rWeights, w.scheme.coupling, dDraw, rDraw);
  }

  /** `decay · x + (1 − decay) · score`. */
  function Blend(x: real, score: real, decay: real): real
  {
    decay * x + (1.0 - decay) * score
  }

  /** `update(cand, d, r, outcome)`: the weights of `d` and `r` become the
      blend of their old value and the outcome's score; nothing else
      changes. */
  function Update(w: Wheel, d: nat, r: nat, o: Outcome): (res: Wheel)
    requires Valid(w) && d < w.scheme.numDestroy && r < w.scheme.numRepair
    ensures Valid(res)
    ensures res.scheme == w.scheme && res.scores == w.scores && res.decay == w.decay
    ensures |res.dWeights| == |w.dWeights| && |res.rWeights| == |w.rWeights|
    ensures res.dWeights[d] == Blend(w.dWeights[d], w.scores[Index(o)], w.decay)
    ensures res.rWeights[r] == Blend(w.rWeights[r], w.scores[Index(o)], w.decay)
    ensures forall i :: 0 <= i < |w.dWeights| && i != d ==> res.dWeights[i] == w.dWeights[i]
    ensures forall i :: 0 <= i < |w.rWeights| && i != r ==> res.rWeights[i] == w.rWeights[i]
    ensures Min(w.dWeights[d], w.scores[Index(o)]) <= res.dWeights[d] <= Max(w.dWeights[d], w.scores[Index(o)])
    ensures Min(w.rWeights[r], w.scores[Index(o)]) <= res.rWeights[r] <= Max(w.rWeights[r], w.scores[Index(o)])
  {
    var score := w.scores[Index(o)];
    var dw := Blend(w.dWeights[d], score, w.decay);
    var rw := Blend(w.rWeights[r], score, w.decay);
    BlendBetween(w.dWeights[d], score, w.decay);
    BlendBetween(w.rWeights[r], score, w.decay);
    w.(dWeights := w.dWeights[d := dw], rWeights := w.rWeights[r := rw])
  }

  lemma BlendBetween(x: real, score: real, decay: real)
    requires 0.0 <= decay <= 1.0
    ensures Min(x, score) <= Blend(x, score, decay) <= Max(x, score)
  {
    ConvexBetween(x, score, decay);
  }

  /** Decay one keeps the weights; decay zero replaces them by the score. */
  lemma DecayExtremes(w: Wheel, d: nat, r: nat, o: Outcome)
    requires Valid(w) && d < w.scheme.numDestroy && r < w.scheme.numRepair
    ensures w.decay == 1.0 ==> Update(w, d, r, o) == w
    ensures w.decay == 0.0 ==>
      Update(w, d, r, o).dWeights[d] == w.scores[Index(o)] &&
      Update(w, d, r, o).rWeights[r] == w.scores[Index(o)]
  {
    if w.decay == 1.0 {
      assert Update(w, d, r, o).dWeights == w.dWeights;
      assert Update(w, d, r, o).rWeights == w.rWeights;
    }
  }
}
