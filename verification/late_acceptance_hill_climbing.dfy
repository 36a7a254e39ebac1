/** Late-acceptance hill climbing (alns/accept/LateAcceptanceHillClimbing.py):
    a candidate is accepted when it beats the oldest objective in a bounded
    history of earlier current objectives; the greedy variant also accepts
    when it beats the current solution, and the better-history variant
    stores the smaller of the current objective and the compared one. */
module LateAcceptanceHillClimbing {
  import opened Wrappers
  import opened Numerics
  import opened Deque

  /** `history` is the deque, oldest entry first, bounded by `lookback`. */
  datatype Criterion = Criterion(lookback: nat, greedy: bool, betterHistory: bool, history: seq<real>)

  predicate Valid(c: Criterion)
  {
    |c.history| <= c.lookback
  }

  /** The constructor: a negative look-back period is rejected; the history
      starts empty. */
  function New(lookback: int, greedy: bool, betterHistory: bool): (r: Result<Criterion, string>)
    ensures r.Err? <==> lookback < 0
    ensures r.Ok? ==> Valid(r.value) && r.value.history == []
    ensures r.Ok? ==> r.value.lookback == lookback
    ensures r.Ok? ==> r.value.greedy == greedy && r.value.betterHistory == betterHistory
  {
    if lookback < 0 then Err("lookback_period must be a non-negative integer.")
    else Ok(Criterion(lookback, greedy, betterHistory, []))
  }

  /** The objective a call records: independent of the verdict. */
  function Stored(c: Criterion, curr: real): real
    requires |c.history| > 0
  {
    if c.betterHistory then Min(curr, c.history[0]) else curr
  }

  /** One call. With an empty history the current objective is recorded and
      only a strictly better candidate is accepted. */
  function Accept(c: Criterion, best: real, curr: real, cand: real): (r: (Criterion, bool))
    requires Valid(c)
    ensures Valid(r.0)
    ensures r.0.lookback == c.lookback && r.0.greedy == c.greedy && r.0.betterHistory == c.betterHistory
    ensures |c.history| == 0 ==> r.0.history == Append(c.history, c.lookback, curr) && (r.1 <==> cand < curr)
    ensures |c.history| > 0 ==>
      && r.0.history == Append(c.history, c.lookback, Stored(c, curr))
      && (r.1 <==> cand < c.history[0] || (c.greedy && cand < curr))
  {
    if |c.history| == 0 then
      (c.(history := Append(c.history, c.lookback, curr)), cand < curr)
    else
      var res := cand < c.history[0];
      var res' := if !res && c.greedy then cand < curr else res;
      var stored := if c.betterHistory then Min(curr, c.history[0]) else curr;
      (c.(history := Append(c.history, c.lookback, stored)), res')
  }

  /** With a look-back period of zero the history never fills, so every call
      is strict hill climbing and leaves the criterion as it was. */
  lemma ZeroLookbackIsHillClimbing(c: Criterion, best: real, curr: real, cand: real)
    requires Valid(c) && c.lookback == 0
    ensures Accept(c, best, curr, cand) == (c, cand < curr)
  {
  }

  /** With better history the stored objective never exceeds the objective
      it was compared with, nor the current one. */
  lemma BetterHistoryStoresMinimum(c: Criterion, curr: real)
    requires |c.history| > 0 && c.betterHistory
    ensures Stored(c, curr) <= c.history[0] && Stored(c, curr) <= curr
    ensures Stored(c, curr) == c.history[0] || Stored(c, curr) == curr
  {
  }

  /** One call's inputs: current and candidate objectives. */
  datatype Call = Call(curr: real, cand: real)

  /** Successive calls; the verdicts in call order. */
  function Run(c: Criterion, calls: seq<Call>): (r: (Criterion, seq<bool>))
    requires Valid(c)
    ensures Valid(r.0) && |r.1| == |calls|
    ensures r.0.lookback == c.lookback && r.0.betterHistory == c.betterHistory && r.0.greedy == c.greedy
    decreases |calls|
  {
    if |calls| == 0 then (c, [])
    else
      var first := Accept(c, calls[0].curr, calls[0].curr, calls[0].cand);
      var rest := Run(first.0, calls[1..]);
      (rest.0, [first.1] + rest.1)
  }

  function Currents(calls: seq<Call>): (r: seq<real>)
    ensures |r| == |calls|
    ensures forall i :: 0 <= i < |calls| ==> r[i] == calls[i].curr
  {
    seq(|calls|, i requires 0 <= i < |calls| => calls[i].curr)
  }

  /** Without better history the deque holds exactly the last `lookback`
      current objectives seen. */
  lemma {:induction false} PlainHistoryIsWindow(c: Criterion, calls: seq<Call>)
    requires Valid(c) && !c.betterHistory
    ensures Run(c, calls).0.history == AppendAll(c.history, c.lookback, Currents(calls))
    ensures Run(c, calls).0.history == Last(c.history + Currents(calls), c.lookback)
    decreases |calls|
  {
    AppendAllIsWindow(c.history, c.lookback, Currents(calls));
    if |calls| > 0 {
      var first := Accept(c, calls[0].curr, calls[0].curr, calls[0].cand);
      PlainHistoryIsWindow(first.0, calls[1..]);
      assert Currents(calls[1..]) == Currents(calls)[1..];
    }
  }

  /** Look-back one with greedy acceptance and better history, on
      (current, candidate) = (2, 1), (1, 1), (2, 1), (1, 1): accepted by the
      current solution, by the recorded 2, by the current solution again, and
      finally rejected against both the current and the recorded 1. */
  lemma FullExample()
    ensures New(1, true, true).Ok?
    ensures Run(New(1, true, true).value, [Call(2.0, 1.0), Call(1.0, 1.0), Call(2.0, 1.0), Call(1.0, 1.0)]).1
      == [true, true, true, false]
  {
  }

  /** Look-back one with better history only, on (1, 0), (2, 0), (0, 1),
      (0, 0): the recorded 1 is kept when current 2 does not improve it. */
  lemma BetterHistoryExample()
    ensures New(1, false, true).Ok?
    ensures Run(New(1, false, true).value, [Call(1.0, 0.0), Call(2.0, 0.0), Call(0.0, 1.0), Call(0.0, 0.0)]).1
      == [true, true, false, false]
  {
  }
}
