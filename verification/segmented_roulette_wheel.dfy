/** The segmented roulette wheel (alns/select/SegmentedRouletteWheel.py):
    `update` only accumulates scores per operator within the current
    segment; every `seg_length`-th call first folds the segment totals into
    the weights and clears them, and then selects like the roulette wheel. */
module SegmentedRouletteWheel {
  import opened Wrappers
  import opened Numerics
  import opened Outcomes
  import opened OperatorSelectionScheme
  import opened Sampling
  import RouletteWheel

  /** `iter` counts the calls so far; `dSegment` and `rSegment` are the
      score totals of the current segment. */
  datatype Segmented = Segmented(wheel: RouletteWheel.Wheel, segLength: nat, iter: nat,
                                 dSegment: seq<real>, rSegment: seq<real>)

  predicate Valid(s: Segmented)
  {
    && RouletteWheel.Valid(s.wheel) && s.segLength >= 1
    && |s.dSegment| == |s.wheel.dWeights| && |s.rSegment| == |s.wheel.rWeights|
    && NonNegative(s.dSegment) && NonNegative(s.rSegment)
  }

  /** The roulette-wheel checks, then the segment length. */
  function New(scores: seq<real>, decay: real, segLength: int, numDestroy: int, numRepair: int, arg: CouplingArg)
    : (r: Result<Segmented, SelectionError>)
    ensures r.Ok? <==> RouletteWheel.New(scores, decay, numDestroy, numRepair, arg).Ok? && segLength >= 1
    ensures RouletteWheel.New(scores, decay, numDestroy, numRepair, arg).Ok? && segLength < 1 ==>
      r == Err(SegLengthTooSmall)
    ensures r.Ok? ==> Valid(r.value) && r.value.iter == 0
    ensures r.Ok? ==> r.value.wheel == RouletteWheel.New(scores, decay, numDestroy, numRepair, arg).value
    ensures r.Ok? ==>
      && (forall i :: 0 <= i < |r.value.dSegment| ==> r.value.dSegment[i] == 0.0)
      && (forall i :: 0 <= i < |r.value.rSegment| ==> r.value.rSegment[i] == 0.0)
  {
    var wheel :- RouletteWheel.New(scores, decay, numDestroy, numRepair, arg);
    if segLength < 1 then Err(SegLengthTooSmall)
    else Ok(Segmented(wheel, segLength, 0, RouletteWheel.Constant(|wheel.dWeights|, 0.0),
                      RouletteWheel.Constant(|wheel.rWeights|, 0.0)))
  }

  /** Every weight blended with its segment total. */
  function BlendAll(w: seq<real>, segment: seq<real>, decay: real): (r: seq<real>)
    requires |segment| == |w| && 0.0 <= decay <= 1.0
    requires NonNegative(w) && NonNegative(segment)
    ensures |r| == |w| && NonNegative(r)
    ensures forall i :: 0 <= i < |w| ==> r[i] == RouletteWheel.Blend(w[i], segment[i], decay)
  {
    var r := seq(|w|, i requires 0 <= i < |w| => RouletteWheel.Blend(w[i], segment[i], decay));
    forall i | 0 <= i < |w| ensures r[i] >= 0.0 {
      RouletteWheel.BlendBetween(w[i], segment[i], decay);
    }
    r
  }

  /** The state after the counter step of a call, before selection. */
  function Advance(s: Segmented): (r: Segmented)
    requires Valid(s)
    ensures Valid(r) && r.iter == s.iter + 1 && r.segLength == s.segLength
    ensures r.wheel.scheme == s.wheel.scheme && r.wheel.scores == s.wheel.scores
    ensures r.wheel.decay == s.wheel.decay
    ensures (s.iter + 1) % s.segLength != 0 ==> r.wheel == s.wheel && r.dSegment == s.dSegment && r.rSegment == s.rSegment
    ensures (s.iter + 1) % s.segLength == 0 ==>
      && (forall i :: 0 <= i < |s.dSegment| ==>
            r.wheel.dWeights[i] == RouletteWheel.Blend(s.wheel.dWeights[i], s.dSegment[i], s.wheel.decay))
      && (forall i :: 0 <= i < |s.rSegment| ==>
            r.wheel.rWeights[i] == RouletteWheel.Blend(s.wheel.rWeights[i], s.rSegment[i], s.wheel.decay))
      && (forall i :: 0 <= i < |r.dSegment| ==> r.dSegment[i] == 0.0)
      && (forall i :: 0 <= i < |r.rSegment| ==> r.rSegment[i] == 0.0)
  {
    var iter := s.iter + 1;
    if iter % s.segLength == 0 then
      var w := s.wheel;
      var w' := w.(dWeights := BlendAll(w.dWeights, s.dSegment, w.decay),
                   rWeights := BlendAll(w.rWeights, s.rSegment, w.decay));
      Segmented(w', s.segLength, iter, RouletteWheel.Constant(|s.dSegment|, 0.0),
                RouletteWheel.Constant(|s.rSegment|, 0.0))
    else s.(iter := iter)
  }

  /** `__call__`: count the call, flush at a segment boundary, then select
      with the (possibly new) weights. */
  function Select(s: Segmented, dDraw: real, rDraw: real): (r: Result<(Segmented, (nat, nat)), SelectionError>)
    requires Valid(s) && 0.0 <= dDraw < 1.0 && 0.0 <= rDraw < 1.0
    ensures r.Ok? ==> r.value.0 == Advance(s)
    ensures r.Ok? ==> Ok(r.value.1) == RouletteWheel.Select(Advance(s).wheel, dDraw, rDraw)
    ensures r.Ok? ==> s.wheel.scheme.coupling[r.value.1.0][r.value.1.1]
    ensures r.Err? <==> RouletteWheel.Select(Advance(s).wheel, dDraw, rDraw).Err?
  {
    var next := Advance(s);
    var pair :- RouletteWheel.Select(next.wheel, dDraw, rDraw);
    Ok((next, pair))
  }

  /** `update`: the outcome's score is added to the segment totals of `d`
      and `r`; the weights are untouched. */
  function Update(s: Segmented, d: nat, r: nat, o: Outcome): (res: Segmented)
    requires Valid(s) && d < |s.dSegment| && r < |s.rSegment|
    ensures Valid(res)
    ensures res.wheel == s.wheel && res.iter == s.iter && res.segLength == s.segLength
    ensures |res.dSegment| == |s.dSegment| && |res.rSegment| == |s.rSegment|
    ensures res.dSegment[d] == s.dSegment[d] + s.wheel.scores[Index(o)]
    ensures res.rSegment[r] == s.rSegment[r] + s.wheel.scores[Index(o)]
    ensures forall i :: 0 <= i < |s.dSegment| && i != d ==> res.dSegment[i] == s.dSegment[i]
    ensures forall i :: 0 <= i < |s.rSegment| && i != r ==> res.rSegment[i] == s.rSegment[i]
  {
    var score := s.wheel.scores[Index(o)];
    s.(dSegment := s.dSegment[d := s.dSegment[d] + score],
       rSegment := s.rSegment[r := s.rSegment[r] + score])
  }

  /** With one destroy and one repair operator, scores 5, 3, 2, 1, decay 0.5
      and segment length one: after an update with outcome BETTER (score 3),
      the next call sets both weights to `0.5 · 1 + 0.5 · 3 = 2`. */
  lemma UpdateThenCallExample(dDraw: real, rDraw: real)
    requires 0.0 <= dDraw < 1.0 && 0.0 <= rDraw < 1.0
    ensures New([5.0, 3.0, 2.0, 1.0], 0.5, 1, 1, 1, NoCoupling).Ok?
    ensures var s := New([5.0, 3.0, 2.0, 1.0], 0.5, 1, 1, 1, NoCoupling).value;
      var a := Advance(Update(s, 0, 0, Better));
      a.wheel.dWeights == [2.0] && a.wheel.rWeights == [2.0]
  {
    DefaultCouplesEverything(1, 1);
    var s := New([5.0, 3.0, 2.0, 1.0], 0.5, 1, 1, 1, NoCoupling).value;
    var u := Update(s, 0, 0, Better);
    assert u.dSegment == [3.0] && u.wheel.dWeights == [1.0];
    assert u.rSegment == [3.0] && u.wheel.rWeights == [1.0];
  }
}
