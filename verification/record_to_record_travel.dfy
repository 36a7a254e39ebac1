/** The record-to-record travel acceptance criterion
    (alns/accept/RecordToRecordTravel.py): a candidate is accepted when its
    gap to the BEST solution is within the current threshold, and after every
    call the threshold moves one step towards its floor. ThresholdAcceptance
    and ThresholdAccept reuse this constructor and schedule. */
module RecordToRecordTravel {
  import opened Wrappers
  import opened Numerics
  import opened UpdateRule
  import opened Decay

  /** `start` is the start threshold; `schedule.value` is the current
      threshold, `schedule.end` the end threshold. */
  datatype Criterion = Criterion(start: real, schedule: Schedule)

  /** What the constructor establishes and every call preserves: a
      non-negative floor under the current threshold. */
  predicate Valid(c: Criterion)
  {
    && c.schedule.end >= 0.0
    && c.schedule.value >= c.schedule.end
    && c.schedule.step >= 0.0
  }

  /** The constructor. The method name itself is not checked: a name that
      `update` does not understand is only reported by the first call. */
  function New(start: real, end: real, step: real, mode: string): (r: Result<Criterion, string>)
    ensures r.Ok? <==>
      && start >= 0.0 && end >= 0.0 && step >= 0.0 && start >= end
      && !(mode == "exponential" && step > 1.0)
    ensures (start < 0.0 || end < 0.0 || step < 0.0) ==> r == Err("Thresholds must be positive.")
    ensures start >= 0.0 && end >= 0.0 && step >= 0.0 && start < end ==>
      r == Err("start_threshold < end_threshold not understood.")
    ensures start >= 0.0 && end >= 0.0 && step >= 0.0 && start >= end && mode == "exponential" && step > 1.0 ==>
      r == Err("Exponential updating cannot have step > 1.")
    ensures r.Ok? ==> Valid(r.value) && r.value.start == start
    ensures r.Ok? ==> r.value.schedule == Schedule(start, end, step, mode)
  {
    if start < 0.0 || end < 0.0 || step < 0.0 then
      Err("Thresholds must be positive.")
    else if start < end then
      Err("start_threshold < end_threshold not understood.")
    else if mode == "exponential" && step > 1.0 then
      Err("Exponential updating cannot have step > 1.")
    else
      Ok(Criterion(start, Schedule(start, end, step, mode)))
  }

  /** The schedule step every threshold criterion takes after its verdict. */
  function Next(c: Criterion): (r: Result<Criterion, UpdateError>)
    ensures r.Err? <==> !KnownMethod(c.schedule.mode)
    ensures r.Ok? ==> r.value.start == c.start && r.value.schedule == Advance(c.schedule).value
    ensures r.Ok? && Valid(c) ==> Valid(r.value)
  {
    var s :- Advance(c.schedule);
    Ok(c.(schedule := s))
  }

  /** One call: the verdict compares the candidate with the best solution
      under the threshold from before the call. */
  function Accept(c: Criterion, best: real, curr: real, cand: real): (r: Result<(Criterion, bool), UpdateError>)
    ensures r.Err? <==> !KnownMethod(c.schedule.mode)
    ensures r.Ok? ==> r.value.0 == Next(c).value
    ensures r.Ok? ==> (r.value.1 <==> cand - best <= c.schedule.value)
  {
    var result := cand - best <= c.schedule.value;
    var next :- Next(c);
    Ok((next, result))
  }

  /** The verdict does not depend on the current solution. */
  lemma IgnoresCurrent(c: Criterion, best: real, curr1: real, curr2: real, cand: real)
    ensures Accept(c, best, curr1, cand) == Accept(c, best, curr2, cand)
  {
  }

  /** A candidate equal to the best solution is accepted, even at threshold
      zero, and one better than the best is accepted too. */
  lemma AcceptsNoWorseThanBest(c: Criterion, best: real, curr: real, cand: real)
    requires Valid(c) && KnownMethod(c.schedule.mode) && cand <= best
    ensures Accept(c, best, curr, cand) == Ok((Next(c).value, true))
  {
  }

  /** A method name `update` does not understand passes the constructor and
      makes the first call fail. */
  lemma UnknownMethodFailsOnFirstCall(best: real, curr: real, cand: real)
    ensures New(5.0, 0.0, 1.0, "abc").Ok?
    ensures Accept(New(5.0, 0.0, 1.0, "abc").value, best, curr, cand).Err?
  {
    assert Lower("abc") == "abc";
  }

  /** Successive calls on one criterion, each given the objectives of best
      and candidate as a pair; the verdicts in call order. */
  function Run(c: Criterion, calls: seq<(real, real)>): (r: Result<(Criterion, seq<bool>), UpdateError>)
    ensures r.Ok? ==> |r.value.1| == |calls|
    ensures r.Ok? && Valid(c) ==> Valid(r.value.0)
    decreases |calls|
  {
    if |calls| == 0 then Ok((c, []))
    else
      var first :- Accept(c, calls[0].0, calls[0].0, calls[0].1);
      var rest :- Run(first.0, calls[1..]);
      Ok((rest.0, [first.1] + rest.1))
  }

  /** Call `i` compares its gap with the threshold after `i` updates of the
      start threshold, whatever the earlier verdicts were. */
  lemma {:induction false} RunVerdicts(c: Criterion, calls: seq<(real, real)>)
    ensures Run(c, calls).Ok? <==> (|calls| == 0 || KnownMethod(c.schedule.mode))
    ensures Run(c, calls).Ok? ==>
      forall i :: 0 <= i < |calls| ==>
        AdvanceN(c.schedule, i).Ok? &&
        (Run(c, calls).value.1[i] <==> calls[i].1 - calls[i].0 <= AdvanceN(c.schedule, i).value.value)
    decreases |calls|
  {
    if |calls| > 0 && KnownMethod(c.schedule.mode) {
      var first := Accept(c, calls[0].0, calls[0].0, calls[0].1).value;
      RunVerdicts(first.0, calls[1..]);
      assert KnownMethod(first.0.schedule.mode);
      var r := Run(c, calls).value.1;
      assert r == [first.1] + Run(first.0, calls[1..]).value.1;
      forall i | 0 <= i < |calls|
        ensures AdvanceN(c.schedule, i).Ok?
        ensures r[i] <==> calls[i].1 - calls[i].0 <= AdvanceN(c.schedule, i).value.value
      {
        if i > 0 {
          assert calls[1..][i - 1] == calls[i];
          assert AdvanceN(c.schedule, i) == AdvanceN(first.0.schedule, i - 1);
        }
      }
    }
  }

  /** Linear thresholds 5, 4, 3, 2, 1, 0, ... from start 5, step 1, floor 0:
      a constant gap of one is accepted on the first five calls and rejected
      from the sixth on. */
  lemma LinearExample(calls: seq<(real, real)>)
    requires forall i :: 0 <= i < |calls| ==> calls[i].1 - calls[i].0 == 1.0
    ensures New(5.0, 0.0, 1.0, "linear").Ok?
    ensures var c := New(5.0, 0.0, 1.0, "linear").value;
      Run(c, calls).Ok? &&
      forall i :: 0 <= i < |calls| ==> (Run(c, calls).value.1[i] <==> i < 5)
  {
    var c := New(5.0, 0.0, 1.0, "linear").value;
    assert Lower("linear") == "linear";
    RunVerdicts(c, calls);
    forall i | 0 <= i < |calls|
      ensures Run(c, calls).value.1[i] <==> i < 5
    {
      LinearClosedForm(c.schedule, i);
    }
  }

  /** Exponential thresholds 5, 0.5, ... from start 5, step 0.1, floor 0: a
      gap of one is accepted on the first call and rejected on the second. */
  lemma ExponentialExample(calls: seq<(real, real)>)
    requires |calls| >= 2
    requires forall i :: 0 <= i < |calls| ==> calls[i].1 - calls[i].0 == 1.0
    ensures New(5.0, 0.0, 0.1, "exponential").Ok?
    ensures var c := New(5.0, 0.0, 0.1, "exponential").value;
      Run(c, calls).Ok? && Run(c, calls).value.1[0] && !Run(c, calls).value.1[1]
  {
    var c := New(5.0, 0.0, 0.1, "exponential").value;
    assert Lower("exponential") == "exponential";
    RunVerdicts(c, calls);
    AdvanceExponential(c.schedule);
    assert AdvanceN(c.schedule, 1) == Advance(c.schedule);
  }
}
