/** The random-accept criterion (alns/accept/RandomAccept.py): a strictly
    better candidate is always accepted; any other candidate is accepted when
    a uniform draw falls below the current probability, which after every call
    moves one step towards its floor. */
module RandomAccept {
  import opened Wrappers
  import opened Numerics
  import opened UpdateRule
  import opened Decay

  /** `start` is the start probability; `schedule.value` is the current
      probability, `schedule.end` the end probability. */
  datatype Criterion = Criterion(start: real, schedule: Schedule)

  /** The configurations the constructor admits. */
  predicate Valid(c: Criterion)
  {
    && 0.0 <= c.schedule.end <= c.schedule.value <= 1.0
    && c.schedule.step >= 0.0
  }

  /** The constructor. The step bound is checked only for the exact,
      lower-case spelling "exponential". */
  function New(start: real, end: real, step: real, mode: string): (r: Result<Criterion, string>)
    ensures r.Ok? <==> 0.0 <= end <= start <= 1.0 && step >= 0.0 && !(mode == "exponential" && step > 1.0)
    ensures !(0.0 <= end <= start <= 1.0) ==> r == Err("Must have 0 <= start_prob <= end_prob <= 1")
    ensures 0.0 <= end <= start <= 1.0 && step < 0.0 ==> r == Err("Step cannot be negative.")
    ensures 0.0 <= end <= start <= 1.0 && step >= 0.0 && mode == "exponential" && step > 1.0 ==>
      r == Err("Exponential updating cannot have step > 1.")
    ensures r.Ok? ==> Valid(r.value) && r.value.start == start
    ensures r.Ok? ==> r.value.schedule == Schedule(start, end, step, mode)
  {
    if !(0.0 <= end <= start <= 1.0) then
      Err("Must have 0 <= start_prob <= end_prob <= 1")
    else if step < 0.0 then
      Err("Step cannot be negative.")
    else if mode == "exponential" && step > 1.0 then
      Err("Exponential updating cannot have step > 1.")
    else
      Ok(Criterion(start, Schedule(start, end, step, mode)))
  }

  /** The outcome of one call: the updated criterion, the verdict, and
      whether the call took a draw from the generator. */
  datatype Step = Step(next: Criterion, accepted: bool, usedDraw: bool)

  /** One call. `draw` is the value the generator would produce next; it is
      consumed only when the candidate is not strictly better. */
  function Accept(c: Criterion, best: real, curr: real, cand: real, draw: real): (r: Result<Step, UpdateError>)
    ensures r.Err? <==> !KnownMethod(c.schedule.mode)
    ensures r.Ok? ==> r.value.next == c.(schedule := Advance(c.schedule).value)
    ensures r.Ok? ==> (r.value.usedDraw <==> !(cand < curr))
    ensures r.Ok? ==> (r.value.accepted <==> cand < curr || draw < c.schedule.value)
  {
    var better := cand < curr;
    var res := if better then true else draw < c.schedule.value;
    var s :- Advance(c.schedule);
    Ok(Step(c.(schedule := s), res, !better))
  }

  /** On a decaying schedule the probability stays in [end, 1] and never
      increases: for the linear rule, or the exponential rule in any letter
      case with a step of at most one. */
  lemma ProbabilityBounds(c: Criterion, best: real, curr: real, cand: real, draw: real)
    requires Valid(c) && Decaying(c.schedule)
    ensures Accept(c, best, curr, cand, draw).Ok?
    ensures var n := Accept(c, best, curr, cand, draw).value.next;
      Valid(n) && Decaying(n.schedule) && n.schedule.value <= c.schedule.value
  {
    AdvanceDecays(c.schedule);
  }

  /** The constructor admits "Exponential" with step 2, and one call takes
      the probability from 0.8 to 1.6: out of [0, 1]. */
  lemma MixedCaseProbabilityGrows()
    ensures New(0.8, 0.0, 2.0, "Exponential").Ok?
    ensures !Decaying(New(0.8, 0.0, 2.0, "Exponential").value.schedule)
    ensures Accept(New(0.8, 0.0, 2.0, "Exponential").value, 1.0, 1.0, 1.0, 0.5).Ok?
    ensures var n := Accept(New(0.8, 0.0, 2.0, "Exponential").value, 1.0, 1.0, 1.0, 0.5).value.next;
      n.schedule.value == 1.6 && !Valid(n)
  {
    MixedCaseStepGrows();
  }

  /** At probability zero only strictly better candidates are accepted; at
      probability one every candidate is accepted for a draw in [0, 1). */
  lemma ProbabilityExtremes(c: Criterion, best: real, curr: real, cand: real, draw: real)
    requires KnownMethod(c.schedule.mode) && 0.0 <= draw < 1.0
    ensures c.schedule.value == 0.0 ==>
      (Accept(c, best, curr, cand, draw).value.accepted <==> cand < curr)
    ensures c.schedule.value == 1.0 ==> Accept(c, best, curr, cand, draw).value.accepted
  {
  }

  /** One call's inputs: current and candidate objectives and the draw the
      generator would produce if asked. */
  datatype Call = Call(curr: real, cand: real, draw: real)

  /** Successive calls on one criterion; the verdicts in call order. */
  function Run(c: Criterion, calls: seq<Call>): (r: Result<(Criterion, seq<bool>), UpdateError>)
    ensures r.Ok? ==> |r.value.1| == |calls|
    decreases |calls|
  {
    if |calls| == 0 then Ok((c, []))
    else
      var first :- Accept(c, calls[0].curr, calls[0].curr, calls[0].cand, calls[0].draw);
      var rest :- Run(first.next, calls[1..]);
      Ok((rest.0, [first.accepted] + rest.1))
  }

  /** Call `i` compares its draw with the probability after `i` updates of
      the start probability, whatever the earlier verdicts were. */
  lemma {:induction false} RunVerdicts(c: Criterion, calls: seq<Call>)
    ensures Run(c, calls).Ok? <==> (|calls| == 0 || KnownMethod(c.schedule.mode))
    ensures Run(c, calls).Ok? ==>
      forall i :: 0 <= i < |calls| ==>
        AdvanceN(c.schedule, i).Ok? &&
        (Run(c, calls).value.1[i] <==>
          calls[i].cand < calls[i].curr || calls[i].draw < AdvanceN(c.schedule, i).value.value)
    decreases |calls|
  {
    if |calls| > 0 && KnownMethod(c.schedule.mode) {
      var first := Accept(c, calls[0].curr, calls[0].curr, calls[0].cand, calls[0].draw).value;
      RunVerdicts(first.next, calls[1..]);
      assert KnownMethod(first.next.schedule.mode);
      var r := Run(c, calls).value.1;
      assert r == [first.accepted] + Run(first.next, calls[1..]).value.1;
      forall i | 0 <= i < |calls|
        ensures AdvanceN(c.schedule, i).Ok?
        ensures r[i] <==> calls[i].cand < calls[i].curr || calls[i].draw < AdvanceN(c.schedule, i).value.value
      {
        if i > 0 {
          assert calls[1..][i - 1] == calls[i];
          assert AdvanceN(c.schedule, i) == AdvanceN(first.next.schedule, i - 1);
        }
      }
    }
  }

  /** Linear probabilities 1, 0.9, 0.8, 0.7, 0.6, 0.5 against draws 0.9, 0.8,
      0.7, 0.6, 0.5, 1 for a worse candidate: five acceptances, then a
      rejection. */
  lemma LinearExample()
    ensures New(1.0, 0.0, 0.1, "linear").Ok?
    ensures var calls := [Call(0.0, 1.0, 0.9), Call(0.0, 1.0, 0.8), Call(0.0, 1.0, 0.7),
                          Call(0.0, 1.0, 0.6), Call(0.0, 1.0, 0.5), Call(0.0, 1.0, 1.0)];
      Run(New(1.0, 0.0, 0.1, "linear").value, calls).Ok? &&
      Run(New(1.0, 0.0, 0.1, "linear").value, calls).value.1 == [true, true, true, true, true, false]
  {
    var c := New(1.0, 0.0, 0.1, "linear").value;
    var calls := [Call(0.0, 1.0, 0.9), Call(0.0, 1.0, 0.8), Call(0.0, 1.0, 0.7),
                  Call(0.0, 1.0, 0.6), Call(0.0, 1.0, 0.5), Call(0.0, 1.0, 1.0)];
    assert Lower("linear") == "linear";
    RunVerdicts(c, calls);
    var r := Run(c, calls).value;
    forall i | 0 <= i < 6
      ensures r.1[i] == [true, true, true, true, true, false][i]
    {
      LinearClosedForm(c.schedule, i);
    }
  }

  /** Exponential probabilities 1, 0.5, 0.25, 0.125 against draws 0.5,
      0.25, 0.125, 1 for a worse candidate: three acceptances, then a
      rejection. */
  lemma ExponentialExample()
    ensures New(1.0, 0.0, 0.5, "exponential").Ok?
    ensures var calls := [Call(0.0, 1.0, 0.5), Call(0.0, 1.0, 0.25), Call(0.0, 1.0, 0.125),
                          Call(0.0, 1.0, 1.0)];
      Run(New(1.0, 0.0, 0.5, "exponential").value, calls).Ok? &&
      Run(New(1.0, 0.0, 0.5, "exponential").value, calls).value.1 == [true, true, true, false]
  {
    var c := New(1.0, 0.0, 0.5, "exponential").value;
    var calls := [Call(0.0, 1.0, 0.5), Call(0.0, 1.0, 0.25), Call(0.0, 1.0, 0.125),
                  Call(0.0, 1.0, 1.0)];
    assert Lower("exponential") == "exponential";
    RunVerdicts(c, calls);
    var r := Run(c, calls).value;
    assert Pow(0.5, 3) == 0.125;
    forall i | 0 <= i < 4
      ensures r.1[i] == [true, true, true, false][i]
    {
      ExponentialClosedForm(c.schedule, i);
    }
  }

  /** The criterion after a run is the start advanced once per call. */
  lemma {:induction false} RunFinal(c: Criterion, calls: seq<Call>)
    requires Run(c, calls).Ok?
    ensures AdvanceN(c.schedule, |calls|).Ok?
    ensures Run(c, calls).value.0 == c.(schedule := AdvanceN(c.schedule, |calls|).value)
    decreases |calls|
  {
    if |calls| > 0 {
      var first := Accept(c, calls[0].curr, calls[0].curr, calls[0].cand, calls[0].draw).value;
      RunFinal(first.next, calls[1..]);
    }
  }
}
