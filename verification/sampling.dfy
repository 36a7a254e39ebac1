/** Weighted sampling as the roulette-wheel schemes use it: numpy's
    `choice(range(n), p=w / sum(w))`, which draws `u` uniformly from [0, 1)
    and returns the first index whose cumulative probability exceeds `u`;
    in exact arithmetic that is the first index `i` with
    `u · sum(w) < w[0] + … + w[i]`. The draw `u` is an argument. */
module Sampling {
  import opened Wrappers
  import opened Numerics
  import opened OperatorSelectionScheme

  /** `w[0] + … + w[k − 1]`. */
  function Prefix(w: seq<real>, k: nat): real
    requires k <= |w|
  {
    Sum(w[..k])
  }

  predicate NonNegative(w: seq<real>)
  {
    forall i :: 0 <= i < |w| ==> w[i] >= 0.0
  }

  lemma PrefixStep(w: seq<real>, k: nat)
    requires k < |w|
    ensures Prefix(w, k + 1) == Prefix(w, k) + w[k]
  {
    assert w[..k + 1][..k] == w[..k];
  }

  /** Cumulative weights never decrease. */
  lemma {:induction false} PrefixMonotone(w: seq<real>, i: nat, j: nat)
    requires NonNegative(w) && i <= j <= |w|
    ensures Prefix(w, i) <= Prefix(w, j)
    decreases j - i
  {
    if i < j {
      PrefixStep(w, i);
      PrefixMonotone(w, i + 1, j);
    }
  }

  /** The scan from index `i`, with `acc` the cumulative weight before it;
      the last index is taken when no earlier one is. */
  function PickFrom(w: seq<real>, target: real, i: nat, acc: real): (r: nat)
    requires i < |w| && acc == Prefix(w, i) && acc <= target < Sum(w)
    ensures i <= r < |w|
    ensures Prefix(w, r) <= target < Prefix(w, r + 1)
    decreases |w| - i
  {
    PrefixStep(w, i);
    if i == |w| - 1 then
      assert w[..|w|] == w;
      i
    else if target < acc + w[i] then i
    else PickFrom(w, target, i + 1, acc + w[i])
  }

  lemma DrawBelowTotal(draw: real, total: real)
    requires 0.0 <= draw < 1.0 && total > 0.0
    ensures 0.0 <= draw * total < total
  {
    MulNonNegative(draw, total);
    MulMonotone(total, draw, 1.0);
    assert total * draw == draw * total;
  }

  /** `choice(range(|w|), p=w / sum(w))` with the uniform draw `draw`. The
      picked index is the one whose slice of the cumulative weights holds
      `draw · sum(w)`; in particular its weight is positive. */
  function Pick(w: seq<real>, draw: real): (r: Result<nat, SelectionError>)
    requires NonNegative(w) && 0.0 <= draw < 1.0
    ensures |w| == 0 ==> r == Err(EmptyChoice)
    ensures r.Err? <==> Sum(w) == 0.0
    ensures r.Ok? ==> r.value < |w| && w[r.value] > 0.0
    ensures r.Ok? ==> Prefix(w, r.value) <= draw * Sum(w) < Prefix(w, r.value + 1)
  {
    if |w| == 0 then Err(EmptyChoice)
    else if Sum(w) == 0.0 then Err(NoProbabilityMass)
    else
      var target := draw * Sum(w);
      PickStart(w, draw, target);
      var i := PickFrom(w, target, 0, 0.0);
      PrefixStep(w, i);
      Ok(i)
  }

  lemma PickStart(w: seq<real>, draw: real, target: real)
    requires NonNegative(w) && 0.0 <= draw < 1.0 && |w| > 0 && Sum(w) != 0.0
    requires target == draw * Sum(w)
    ensures 0.0 == Prefix(w, 0) <= target < Sum(w)
  {
    assert w[..|w|] == w;
    assert w[..0] == [];
    PrefixMonotone(w, 0, |w|);
    DrawBelowTotal(draw, Sum(w));
  }

  /** The slices of the cumulative weights do not overlap, so at most one
      index satisfies `Pick`'s postcondition: the contract pins the result
      down completely. */
  lemma PickUnique(w: seq<real>, target: real, i: nat, j: nat)
    requires NonNegative(w) && i < |w| && j < |w|
    requires Prefix(w, i) <= target < Prefix(w, i + 1)
    requires Prefix(w, j) <= target < Prefix(w, j + 1)
    ensures i == j
  {
    if i < j {
      PrefixMonotone(w, i + 1, j);
    } else if j < i {
      PrefixMonotone(w, j + 1, i);
    }
  }

  /** `np.flatnonzero(row)`: the indices of the true entries, ascending. */
  function FlatNonzero(row: seq<bool>): (r: seq<nat>)
    ensures forall k :: 0 <= k < |r| ==> r[k] < |row| && row[r[k]]
    ensures forall j :: 0 <= j < |row| && row[j] ==> j in r
    ensures forall k, l :: 0 <= k < l < |r| ==> r[k] < r[l]
    decreases |row|
  {
    if |row| == 0 then []
    else
      var init := row[..|row| - 1];
      var rest := FlatNonzero(init);
      assert forall j :: 0 <= j < |init| ==> init[j] == row[j];
      if row[|row| - 1] then rest + [|row| - 1] else rest
  }

  /** The weights of the coupled repair operators, in index order. */
  function Restrict(w: seq<real>, idcs: seq<nat>): (r: seq<real>)
    requires forall k :: 0 <= k < |idcs| ==> idcs[k] < |w|
    ensures |r| == |idcs|
    ensures forall k :: 0 <= k < |idcs| ==> r[k] == w[idcs[k]]
  {
    seq(|idcs|, k requires 0 <= k < |idcs| => w[idcs[k]])
  }

  /** `r` is what the two weighted draws give: the destroy index is the
      `Pick` of the destroy weights, and the repair index is the `Pick` of
      the weights of the repair operators coupled with it, mapped back to
      its place among all repair operators. It is an error exactly when
      either draw has no probability mass. */
  predicate WeightedPair(dWeights: seq<real>, rWeights: seq<real>, coupling: seq<seq<bool>>,
                         dDraw: real, rDraw: real, r: Result<(nat, nat), SelectionError>)
    requires NonNegative(dWeights) && NonNegative(rWeights)
    requires HasShape(coupling, |dWeights|, |rWeights|)
    requires 0.0 <= dDraw < 1.0 && 0.0 <= rDraw < 1.0
  {
    && (r.Err? <==>
          || Pick(dWeights, dDraw).Err?
          || Pick(Restrict(rWeights, FlatNonzero(coupling[Pick(dWeights, dDraw).value])), rDraw).Err?)
    && (r.Ok? ==>
          && Pick(dWeights, dDraw).Ok? && r.value.0 == Pick(dWeights, dDraw).value
          && var idcs := FlatNonzero(coupling[r.value.0]);
             Pick(Restrict(rWeights, idcs), rDraw).Ok? && r.value.1 == idcs[Pick(Restrict(rWeights, idcs), rDraw).value])
  }

  /** The roulette-wheel pair selection: a destroy operator by its weight,
      then a repair operator by weight among those coupled with it. It
      fails exactly when either draw has no probability mass. */
  function SelectPair(dWeights: seq<real>, rWeights: seq<real>, coupling: seq<seq<bool>>,
                      dDraw: real, rDraw: real): (r: Result<(nat, nat), SelectionError>)
    requires NonNegative(dWeights) && NonNegative(rWeights)
    requires HasShape(coupling, |dWeights|, |rWeights|)
    requires 0.0 <= dDraw < 1.0 && 0.0 <= rDraw < 1.0
    ensures Sum(dWeights) == 0.0 ==> r.Err?
    ensures r.Ok? ==> r.value.0 < |dWeights| && r.value.1 < |rWeights|
    ensures r.Ok? ==> coupling[r.value.0][r.value.1]
    ensures r.Ok? ==> dWeights[r.value.0] > 0.0 && rWeights[r.value.1] > 0.0
    ensures WeightedPair(dWeights, rWeights, coupling, dDraw, rDraw, r)
  {
    var d :- Pick(dWeights, dDraw);
    var idcs := FlatNonzero(coupling[d]);
    var sub := Restrict(rWeights, idcs);
    var j :- Pick(sub, rDraw);
    Ok((d, idcs[j]))
  }

  /** With every weight positive, selection never fails when each destroy
      operator is coupled with some repair operator. */
  lemma PositiveWeightsSelect(dWeights: seq<real>, rWeights: seq<real>, coupling: seq<seq<bool>>,
                              dDraw: real, rDraw: real)
    requires forall i :: 0 <= i < |dWeights| ==> dWeights[i] > 0.0
    requires forall i :: 0 <= i < |rWeights| ==> rWeights[i] > 0.0
    requires |dWeights| > 0 && HasShape(coupling, |dWeights|, |rWeights|)
    requires forall d :: 0 <= d < |coupling| ==> Coupled(coupling[d])
    requires 0.0 <= dDraw < 1.0 && 0.0 <= rDraw < 1.0
    ensures SelectPair(dWeights, rWeights, coupling, dDraw, rDraw).Ok?
  {
    PositiveSum(dWeights);
    var d := Pick(dWeights, dDraw).value;
    var idcs := FlatNonzero(coupling[d]);
    var j :| 0 <= j < |coupling[d]| && coupling[d][j];
    assert j in idcs;
    var sub := Restrict(rWeights, idcs);
    PositiveSum(sub);
  }

  lemma {:induction false} PositiveSum(w: seq<real>)
    requires |w| > 0 && forall i :: 0 <= i < |w| ==> w[i] > 0.0
    ensures Sum(w) > 0.0
    decreases |w|
  {
    var init := w[..|w| - 1];
    if |init| > 0 {
      assert forall i :: 0 <= i < |init| ==> init[i] == w[i];
      PositiveSum(init);
    }
  }
}
