/** The uniform random scheme (alns/select/RandomSelect.py): one draw below
    the number of destroy operators, then one below the number of repair
    operators; the coupling is not consulted and `update` does nothing. */
module RandomSelect {
  import opened Wrappers
  import opened Outcomes
  import opened OperatorSelectionScheme

  datatype Selector = Selector(numDestroy: nat, numRepair: nat)

  function New(numDestroy: int, numRepair: int): (r: Result<Selector, SelectionError>)
    ensures r.Ok? <==> numDestroy > 0 && numRepair > 0
    ensures r.Err? ==> r.error == NonPositiveOperators
    ensures r.Ok? ==> r.value.numDestroy == numDestroy && r.value.numRepair == numRepair
  {
    if numDestroy <= 0 || numRepair <= 0 then Err(NonPositiveOperators)
    else Ok(Selector(numDestroy, numRepair))
  }

  /** `select_operators`: `dDraw` and `rDraw` are the generator's two
      `randint` results, drawn in that order; they are returned as they
      are. */
  function Select(s: Selector, dDraw: nat, rDraw: nat): (p: (nat, nat))
    requires dDraw < s.numDestroy && rDraw < s.numRepair
    ensures p.0 < s.numDestroy && p.1 < s.numRepair
    ensures p == (dDraw, rDraw)
  {
    (dDraw, rDraw)
  }

  function Update(s: Selector, d: nat, r: nat, o: Outcome): (res: Selector)
    ensures res == s
  {
    s
  }

  /** Every pair of operators can be chosen, whether or not a coupling
      would allow it: each pair is the outcome of exactly one pair of
      draws, so with uniform draws every pair has the same chance. */
  lemma EveryPairReachable(s: Selector, d: nat, r: nat)
    requires d < s.numDestroy && r < s.numRepair
    ensures exists dd: nat, rd: nat :: dd < s.numDestroy && rd < s.numRepair && Select(s, dd, rd) == (d, r)
    ensures forall dd: nat, rd: nat :: dd < s.numDestroy && rd < s.numRepair && Select(s, dd, rd) == (d, r) ==>
      dd == d && rd == r
  {
    assert Select(s, d, r) == (d, r);
  }
}
