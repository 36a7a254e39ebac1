/** The decaying parameter shared by SimulatedAnnealing (temperature),
    RecordToRecordTravel and its subclasses (threshold), and RandomAccept and
    WorseAccept (probability): after every call the value becomes
    `max(end, update(value, step, method))`. */
module Decay {
  import opened Wrappers
  import opened Numerics
  import opened UpdateRule

  /** `value` is the current parameter, `end` its floor; `mode` is the
      method name exactly as passed to the constructor. */
  datatype Schedule = Schedule(value: real, end: real, step: real, mode: string)

  /** One post-call update of the parameter. It fails exactly when `update`
      does not understand the method name. */
  function Advance(s: Schedule): (r: Result<Schedule, UpdateError>)
    ensures r.Err? <==> !KnownMethod(s.mode)
    ensures r.Ok? ==> r.value == s.(value := r.value.value)
    ensures r.Ok? ==> r.value.value >= s.end
    ensures r.Ok? ==> r.value.value == Max(s.end, Update(s.value, s.step, s.mode).value)
  {
    var u :- Update(s.value, s.step, s.mode);
    Ok(s.(value := Max(s.end, u)))
  }

  /** `k` successive updates. */
  function AdvanceN(s: Schedule, k: nat): Result<Schedule, UpdateError>
    decreases k
  {
    if k == 0 then Ok(s)
    else
      var t :- Advance(s);
      AdvanceN(t, k - 1)
  }

  /** A schedule that decays: a non-negative step, a floor not above the
      value, and either the linear rule or the exponential rule (in any
      letter case) with a non-negative floor and a step of at most one. The
      constructors do not guarantee it: they check the step bound only for
      the exact spelling "exponential" (see `MixedCaseStepGrows`). */
  predicate Decaying(s: Schedule)
  {
    && s.step >= 0.0
    && s.value >= s.end
    && (Lower(s.mode) == "linear"
        || (Lower(s.mode) == "exponential" && s.end >= 0.0 && s.step <= 1.0))
  }

  /** A decaying schedule never increases and never drops below its floor. */
  lemma AdvanceDecays(s: Schedule)
    requires Decaying(s)
    ensures Advance(s).Ok?
    ensures s.end <= Advance(s).value.value <= s.value
    ensures Decaying(Advance(s).value)
  {
    var t := Advance(s).value;
    assert t == s.(value := t.value);
    var u := Update(s.value, s.step, s.mode).value;
    assert t.value == Max(s.end, u);
    if Lower(s.mode) == "exponential" {
      assert u == s.value * s.step;
      MulMonotone(s.value, s.step, 1.0);
    } else {
      assert u == s.value - s.step;
    }
  }

  /** The constructors' step check, made on the method name as passed. */
  predicate ConstructorStepCheck(step: real, mode: string)
  {
    !(mode == "exponential" && step > 1.0)
  }

  /** The step check made on the lower-cased name that `update` reads. */
  predicate StepCheck(step: real, mode: string)
  {
    !(Lower(mode) == "exponential" && step > 1.0)
  }

  /** The constructors' check lets "Exponential" with step 2 through;
      `update` reads it as the exponential rule, and the parameter doubles
      instead of decaying. */
  lemma MixedCaseStepGrows()
    ensures ConstructorStepCheck(2.0, "Exponential") && !StepCheck(2.0, "Exponential")
    ensures KnownMethod("Exponential") && !Decaying(Schedule(0.8, 0.0, 2.0, "Exponential"))
    ensures Advance(Schedule(0.8, 0.0, 2.0, "Exponential")) == Ok(Schedule(1.6, 0.0, 2.0, "Exponential"))
  {
    assert Lower("Exponential") == "exponential";
  }

  /** With the step check made on the lower-cased name, a schedule with a
      method `update` understands, a non-negative step and a floor in
      [0, value] decays exactly when it passes the check. */
  lemma CheckedScheduleDecays(value: real, end: real, step: real, mode: string)
    requires KnownMethod(mode) && step >= 0.0 && 0.0 <= end <= value
    ensures Decaying(Schedule(value, end, step, mode)) <==> StepCheck(step, mode)
  {
  }

  /** The total decrease of `k` linear steps, accumulated one step at a time. */
  function LinearDrop(step: real, k: nat): (r: real)
    ensures step >= 0.0 ==> r >= 0.0
  {
    if k == 0 then 0.0 else LinearDrop(step, k - 1) + step
  }

  lemma {:induction false} LinearDropIsProduct(step: real, k: nat)
    ensures LinearDrop(step, k) == (k as real) * step
  {
    if k > 0 {
      LinearDropIsProduct(step, k - 1);
      assert (k as real) * step == ((k - 1) as real) * step + step;
    }
  }

  lemma {:induction false} LinearDrops(s: Schedule, k: nat)
    requires Lower(s.mode) == "linear" && s.step >= 0.0 && s.value >= s.end
    ensures AdvanceN(s, k) == Ok(s.(value := Max(s.end, s.value - LinearDrop(s.step, k))))
    decreases k
  {
    if k > 0 {
      var w := Max(s.end, s.value - s.step);
      var t := s.(value := w);
      AdvanceLinear(s);
      assert AdvanceN(s, k) == AdvanceN(t, k - 1);
      LinearDrops(t, k - 1);
      var x := Max(s.end, w - LinearDrop(s.step, k - 1));
      assert x == Max(s.end, s.value - LinearDrop(s.step, k));
      assert t.(value := x) == s.(value := x);
    } else {
      assert s.(value := Max(s.end, s.value - 0.0)) == s;
    }
  }

  /** Linear rule: after `k` updates the value is `max(end, value − k·step)`. */
  lemma LinearClosedForm(s: Schedule, k: nat)
    requires Lower(s.mode) == "linear" && s.step >= 0.0 && s.value >= s.end
    ensures AdvanceN(s, k) == Ok(s.(value := Max(s.end, s.value - (k as real) * s.step)))
  {
    LinearDrops(s, k);
    LinearDropIsProduct(s.step, k);
  }

  lemma AdvanceLinear(s: Schedule)
    requires Lower(s.mode) == "linear"
    ensures Advance(s) == Ok(s.(value := Max(s.end, s.value - s.step)))
  {
  }

  /** Exponential rule with a step in [0, 1]: after `k` updates the value is
      `max(end, value · step^k)`. */
  lemma {:induction false} ExponentialClosedForm(s: Schedule, k: nat)
    requires Lower(s.mode) == "exponential"
    requires 0.0 <= s.step <= 1.0 && 0.0 <= s.end <= s.value
    ensures AdvanceN(s, k) == Ok(s.(value := Max(s.end, ScaledPow(s.value, s.step, k))))
    decreases k
  {
    if k > 0 {
      var w := Max(s.end, s.value * s.step);
      var t := s.(value := w);
      ExponentialArith(s.value, s.step, s.end, k, w);
      AdvanceExponential(s);
      assert AdvanceN(s, k) == AdvanceN(t, k - 1);
      ExponentialClosedForm(t, k - 1);
      var x := Max(s.end, ScaledPow(t.value, s.step, k - 1));
      assert AdvanceN(t, k - 1) == Ok(t.(value := x));
      assert t.(value := x) == s.(value := x);
    } else {
      ExponentialBase(s, k);
    }
  }

  lemma ExponentialBase(s: Schedule, k: nat)
    requires s.end <= s.value && k == 0
    ensures AdvanceN(s, k) == Ok(s.(value := Max(s.end, ScaledPow(s.value, s.step, k))))
  {
    MulSubst(s.value, Pow(s.step, 0), 1.0);
  }

  lemma ExponentialArith(v: real, step: real, end: real, k: nat, w: real)
    requires 0.0 <= step <= 1.0 && 0.0 <= end <= v && k > 0 && w == Max(end, v * step)
    ensures Max(end, ScaledPow(w, step, k - 1)) == Max(end, ScaledPow(v, step, k))
  {
    var p := Pow(step, k - 1);
    var q := Pow(step, k);
    assert q == step * p;
    PowInUnit(step, k - 1);
    ExponentialProduct(v, step, end, p, q);
    assert ScaledPow(w, step, k - 1) == Max(end, v * step) * p;
    assert ScaledPow(v, step, k) == v * q;
  }

  lemma ExponentialProduct(v: real, step: real, end: real, p: real, q: real)
    requires 0.0 <= step <= 1.0 && 0.0 <= end <= v && 0.0 <= p <= 1.0 && q == step * p
    ensures Max(end, Max(end, v * step) * p) == Max(end, v * q)
  {
    ExponentialStep(v, step, end, p);
    MulSubst(v, q, step * p);
  }

  lemma UpdateExponential(s: Schedule)
    requires Lower(s.mode) == "exponential"
    ensures Update(s.value, s.step, s.mode) == Ok(s.value * s.step)
  {
  }

  lemma AdvanceExponential(s: Schedule)
    requires Lower(s.mode) == "exponential"
    ensures Advance(s) == Ok(s.(value := Max(s.end, s.value * s.step)))
  {
    UpdateExponential(s);
  }

  lemma ExponentialStep(v: real, step: real, end: real, p: real)
    requires 0.0 <= step <= 1.0 && 0.0 <= end <= v && 0.0 <= p <= 1.0
    ensures Max(end, Max(end, v * step) * p) == Max(end, v * (step * p))
  {
    var a := v * step;
    var b := a * p;
    assert v * (step * p) == b;
    if a < end {
      var c := end * p;
      MulMonotone(end, p, 1.0);
      assert c <= end;
      MulNonNegative(v, step);
      MulMonotone(a, p, 1.0);
      assert b <= a;
      assert Max(end, a) == end;
      assert Max(end, c) == end;
      assert Max(end, b) == end;
    }
  }

  /** After any number of updates the value is at least the floor. */
  lemma {:induction false} AdvanceNFloor(s: Schedule, k: nat)
    requires s.value >= s.end
    ensures AdvanceN(s, k).Ok? ==> AdvanceN(s, k).value.end == s.end
    ensures AdvanceN(s, k).Ok? ==> AdvanceN(s, k).value.value >= s.end
    decreases k
  {
    if k > 0 && Advance(s).Ok? {
      AdvanceNFloor(Advance(s).value, k - 1);
    }
  }
}
