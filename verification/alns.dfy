/** The search loop of alns/ALNS.py: the operator registries, the
    classification of a candidate solution, and `iterate`.

    The solution type `S`, the selection scheme's state `Sel`, the acceptance
    criterion's state `A` and the stopping criterion's state `T` are type
    parameters, and the pieces that act on them are function values. The
    random number generator the source threads through every call is folded
    into those states. */
module Alns {
  import opened Wrappers
  import opened Outcomes
  import Statistics

  /** An operator registry: names with operators, in insertion order. */
  type Registry<Op> = seq<(string, Op)>

  predicate UniqueNames<Op>(reg: Registry<Op>) {
    forall i, j :: 0 <= i < j < |reg| ==> reg[i].0 != reg[j].0
  }

  /** The position of `name` in the registry, if present. */
  function Find<Op>(reg: Registry<Op>, name: string): (r: Option<nat>)
    ensures r.Some? ==> r.value < |reg| && reg[r.value].0 == name
    ensures r.None? ==> forall i :: 0 <= i < |reg| ==> reg[i].0 != name
    decreases |reg|
  {
    if |reg| == 0 then None
    else if reg[|reg| - 1].0 == name then Some(|reg| - 1)
    else Find(reg[..|reg| - 1], name)
  }

  /** Dictionary assignment: an existing name keeps its position and gets
      the new operator, a new name is appended. */
  function Put<Op>(reg: Registry<Op>, name: string, op: Op): (r: Registry<Op>)
    requires UniqueNames(reg)
    ensures UniqueNames(r)
    ensures Find(reg, name).Some? ==> |r| == |reg| && r[Find(reg, name).value] == (name, op)
    ensures Find(reg, name).None? ==> r == reg + [(name, op)]
    ensures forall i :: 0 <= i < |reg| && reg[i].0 != name ==> r[i] == reg[i]
    ensures forall i :: 0 <= i < |reg| ==> r[i].0 == reg[i].0
  {
    match Find(reg, name)
    case Some(i) => reg[i := (name, op)]
    case None => reg + [(name, op)]
  }

  /** A destroy operator is registered under its function name only when
      no name is given; an empty name is used as it is. */
  function AddDestroyOperator<Op>(reg: Registry<Op>, op: Op, opName: string, name: Option<string>): (r: Registry<Op>)
    requires UniqueNames(reg)
    ensures UniqueNames(r)
    ensures name.None? ==> r == Put(reg, opName, op)
    ensures name.Some? ==> r == Put(reg, name.value, op)
  {
    Put(reg, if name.None? then opName else name.value, op)
  }

  /** A repair operator falls back to its function name when the name is
      missing or empty. */
  function AddRepairOperator<Op>(reg: Registry<Op>, op: Op, opName: string, name: Option<string>): (r: Registry<Op>)
    requires UniqueNames(reg)
    ensures UniqueNames(r)
    ensures name.None? || name.value == "" ==> r == Put(reg, opName, op)
    ensures name.Some? && name.value != "" ==> r == Put(reg, name.value, op)
  {
    Put(reg, if name.Some? && name.value != "" then name.value else opName, op)
  }

  /** Registering under a name already present replaces that entry in
      place; the registry does not grow and the operator is found there. */
  lemma ReplaceInPlace<Op>(reg: Registry<Op>, name: string, op: Op)
    requires UniqueNames(reg) && Find(reg, name).Some?
    ensures |Put(reg, name, op)| == |reg|
    ensures Find(Put(reg, name, op), name) == Find(reg, name)
    ensures Put(reg, name, op)[Find(reg, name).value].1 == op
  {
    var r := Put(reg, name, op);
    var i := Find(reg, name).value;
    assert r[i].0 == name;
    var j := Find(r, name);
    assert j.Some?;
    assert j.value == i;
  }

  /** The empty name differs between the two registries: a destroy
      operator is filed under "", a repair operator under its own name. */
  lemma EmptyNameExample<Op>(op: Op)
    ensures AddDestroyOperator([], op, "random_removal", Some("")) == [("", op)]
    ensures AddRepairOperator([], op, "greedy_repair", Some("")) == [("greedy_repair", op)]
  {
  }

  /** The pieces `iterate` is given. `accept` and `stop` receive the best and
      current solutions (and `accept` the candidate) and return their next
      state with the verdict. `onBest` is the optional callback applied to a
      new best solution. */
  datatype Components<!S, !Sel, !A, !T> = Components(
    objective: S -> real,
    select: Sel -> (Sel, nat, nat),
    update: (Sel, nat, nat, Outcome) -> Sel,
    accept: (A, S, S, S) -> (A, bool),
    stop: (T, S, S) -> (T, bool),
    onBest: Option<S -> S>)

  /** The loop's variables. `updates` lists the selection-scheme updates in
      the order they were made. */
  datatype Search<S, Sel, A, T> = Search(
    best: S, curr: S, sel: Sel, acc: A, halt: T,
    stats: Statistics.Stats, updates: seq<(nat, nat, Outcome)>)

  datatype IterError = MissingOperators | IndexOutOfRange | FuelExhausted

  function Message(e: IterError): string {
    match e
    case MissingOperators => "Missing destroy or repair operators."
    case IndexOutOfRange => "list index out of range"
    case FuelExhausted => "stopping criterion not met within the step bound"
  }

  /** Classifies a candidate. A candidate strictly better than the best
      becomes both best and current (after the callback) with outcome BEST,
      whatever the acceptance verdict. Otherwise an accepted candidate
      becomes current, with BETTER when it beats the current solution and
      ACCEPTED when it does not, and a rejected one changes nothing. */
  function EvalCand<S>(objective: S -> real, onBest: Option<S -> S>, accepted: bool,
                       best: S, curr: S, cand: S): (r: (S, S, Outcome))
    ensures objective(cand) < objective(best) ==>
      r.2 == Best && r.0 == r.1 && r.0 == (if onBest.Some? then onBest.value(cand) else cand)
    ensures objective(cand) >= objective(best) && accepted ==>
      r.0 == best && r.1 == cand && (r.2 == Better || r.2 == Accept) &&
      (r.2 == Better <==> objective(cand) < objective(curr))
    ensures objective(cand) >= objective(best) && !accepted ==> r == (best, curr, Reject)
  {
    var outcome := if accepted then (if objective(cand) < objective(curr) then Better else Accept) else Reject;
    var curr' := if accepted then cand else curr;
    if objective(cand) < objective(best) then
      var cand' := if onBest.Some? then onBest.value(cand) else cand;
      (cand', cand', Best)
    else
      (best, curr', outcome)
  }

  /** The callback, if any, never makes a solution worse. */
  ghost predicate NonWorsening<S(!new), Sel, A, T>(c: Components<S, Sel, A, T>) {
    c.onBest.Some? ==> forall x :: c.objective(c.onBest.value(x)) <= c.objective(x)
  }

  /** What holds between iterations: the best objective is at most the
      current one and occurs in the trace, the trace ends with the current
      objective and has one entry more than there were updates; with a
      callback that never worsens, the best objective is the trace's
      minimum. */
  ghost predicate Inv<S(!new), Sel, A, T>(c: Components<S, Sel, A, T>, s: Search<S, Sel, A, T>) {
    var trace := s.stats.objectives;
    c.objective(s.best) <= c.objective(s.curr) &&
    |trace| == |s.updates| + 1 &&
    trace[|trace| - 1] == c.objective(s.curr) &&
    BestRecorded(c, s) &&
    (NonWorsening(c) ==> BestIsMinimum(c, s))
  }

  /** The best objective is one of the recorded objectives. */
  ghost predicate BestRecorded<S, Sel, A, T>(c: Components<S, Sel, A, T>, s: Search<S, Sel, A, T>) {
    exists i :: 0 <= i < |s.stats.objectives| && s.stats.objectives[i] == c.objective(s.best)
  }

  /** No recorded objective is below the best one. */
  ghost predicate BestIsMinimum<S, Sel, A, T>(c: Components<S, Sel, A, T>, s: Search<S, Sel, A, T>) {
    forall i :: 0 <= i < |s.stats.objectives| ==> c.objective(s.best) <= s.stats.objectives[i]
  }

  /** One iteration: select a pair, destroy then repair the current
      solution, consult the acceptance criterion, classify the candidate,
      update the selection scheme once with the outcome, and record the new
      current objective. */
  function Step<S, Sel, A, T>(c: Components<S, Sel, A, T>, destroy: Registry<S -> S>,
                              repair: Registry<S -> S>, s: Search<S, Sel, A, T>)
    : (r: Result<Search<S, Sel, A, T>, IterError>)
    ensures r.Err? <==> c.select(s.sel).1 >= |destroy| || c.select(s.sel).2 >= |repair|
    ensures r.Err? ==> r.error == IndexOutOfRange
    ensures r.Ok? ==> r.value.halt == s.halt
    ensures r.Ok? ==> r.value.best == s.best || r.value.best == r.value.curr
    ensures r.Ok? ==> r.value.stats.objectives == s.stats.objectives + [c.objective(r.value.curr)]
    ensures r.Ok? ==> |r.value.updates| == |s.updates| + 1 && r.value.updates[..|s.updates|] == s.updates
    ensures r.Ok? ==> r.value.updates[|s.updates|].0 == c.select(s.sel).1
                      && r.value.updates[|s.updates|].1 == c.select(s.sel).2
  {
    var (sel', d, rr) := c.select(s.sel);
    if d >= |destroy| || rr >= |repair| then Err(IndexOutOfRange)
    else
      var cand := repair[rr].1(destroy[d].1(s.curr));
      var (acc', accepted) := c.accept(s.acc, s.best, s.curr, cand);
      var (best', curr', outcome) := EvalCand(c.objective, c.onBest, accepted, s.best, s.curr, cand);
      Ok(Search(best', curr', c.update(sel', d, rr, outcome), acc', s.halt,
                Statistics.CollectObjective(s.stats, c.objective(curr')),
                s.updates + [(d, rr, outcome)]))
  }

  /** Every iteration keeps the invariant. */
  lemma StepKeepsInv<S(!new), Sel, A, T>(c: Components<S, Sel, A, T>, destroy: Registry<S -> S>,
                                   repair: Registry<S -> S>, s: Search<S, Sel, A, T>)
    requires Inv(c, s) && Step(c, destroy, repair, s).Ok?
    ensures Inv(c, Step(c, destroy, repair, s).value)
    ensures Step(c, destroy, repair, s).value.stats.objectives[..|s.stats.objectives|] == s.stats.objectives
    ensures NonWorsening(c) ==>
      c.objective(Step(c, destroy, repair, s).value.best) <= c.objective(s.best)
  {
    var t := Step(c, destroy, repair, s).value;
    var trace := s.stats.objectives;
    var trace' := t.stats.objectives;
    assert trace' == trace + [c.objective(t.curr)];
    var i :| 0 <= i < |trace| && trace[i] == c.objective(s.best);
    if t.best == s.best {
      assert trace'[i] == c.objective(t.best);
    } else {
      assert t.best == t.curr;
      assert trace'[|trace|] == c.objective(t.best);
    }
    if NonWorsening(c) {
      var (sel', d, rr) := c.select(s.sel);
      var cand := repair[rr].1(destroy[d].1(s.curr));
      if c.objective(cand) < c.objective(s.best) {
        assert c.objective(t.best) <= c.objective(cand);
      }
      forall k | 0 <= k < |trace'|
        ensures c.objective(t.best) <= trace'[k]
      {
        if k < |trace| {
          assert trace'[k] == trace[k];
        }
      }
    }
  }

  /** Runs iterations until the stopping criterion, consulted with the best
      and current solutions before each one, says stop. `fuel` bounds the
      number of iterations. */
  function Loop<S, Sel, A, T>(c: Components<S, Sel, A, T>, destroy: Registry<S -> S>,
                              repair: Registry<S -> S>, s: Search<S, Sel, A, T>, fuel: nat)
    : (r: Result<Search<S, Sel, A, T>, IterError>)
    decreases fuel
  {
    var (halt', done) := c.stop(s.halt, s.best, s.curr);
    var s1 := s.(halt := halt');
    if done then Ok(s1)
    else if fuel == 0 then Err(FuelExhausted)
    else
      var s2 :- Step(c, destroy, repair, s1);
      Loop(c, destroy, repair, s2, fuel - 1)
  }

  /** `t` is what the loop may reach from `s` in at most `fuel` iterations:
      the invariant holds, the trace of `s` is a prefix of the trace of `t`,
      at most `fuel` updates were added, and the best objective did not rise
      when the callback never worsens. */
  ghost predicate Follows<S(!new), Sel, A, T>(c: Components<S, Sel, A, T>, s: Search<S, Sel, A, T>,
                                              t: Search<S, Sel, A, T>, fuel: nat)
  {
    && Inv(c, t)
    && |s.stats.objectives| <= |t.stats.objectives|
    && t.stats.objectives[..|s.stats.objectives|] == s.stats.objectives
    && |t.updates| <= |s.updates| + fuel
    && (NonWorsening(c) ==> c.objective(t.best) <= c.objective(s.best))
  }

  /** `u` is one iteration on from `s`: the trace of `s` is a prefix of the
      trace of `u`, exactly one update was added, and the best objective did
      not rise when the callback never worsens. */
  ghost predicate OneStep<S(!new), Sel, A, T>(c: Components<S, Sel, A, T>, s: Search<S, Sel, A, T>,
                                              u: Search<S, Sel, A, T>)
  {
    && |s.stats.objectives| <= |u.stats.objectives|
    && u.stats.objectives[..|s.stats.objectives|] == s.stats.objectives
    && |u.updates| == |s.updates| + 1
    && (NonWorsening(c) ==> c.objective(u.best) <= c.objective(s.best))
  }

  /** One iteration from `s` to `u`, then at most `fuel − 1` more to `t`, is
      at most `fuel` iterations from `s`. */
  lemma FollowsStep<S(!new), Sel, A, T>(c: Components<S, Sel, A, T>, s: Search<S, Sel, A, T>,
                                        u: Search<S, Sel, A, T>, t: Search<S, Sel, A, T>, fuel: nat)
    requires fuel > 0 && OneStep(c, s, u) && Follows(c, u, t, fuel - 1)
    ensures Follows(c, s, t, fuel)
  {
    var n := |s.stats.objectives|;
    assert t.stats.objectives[..n] == t.stats.objectives[..|u.stats.objectives|][..n];
  }

  /** The loop run from `s` with `fuel` returns `t`. */
  ghost predicate Returns<S, Sel, A, T>(c: Components<S, Sel, A, T>, destroy: Registry<S -> S>,
                                        repair: Registry<S -> S>, s: Search<S, Sel, A, T>, fuel: nat,
                                        t: Search<S, Sel, A, T>)
  {
    Loop(c, destroy, repair, s, fuel) == Ok(t)
  }

  /** The state after the stopping criterion was consulted and one
      iteration was made. */
  function Advanced<S, Sel, A, T>(c: Components<S, Sel, A, T>, destroy: Registry<S -> S>,
                                  repair: Registry<S -> S>, s: Search<S, Sel, A, T>)
    : Result<Search<S, Sel, A, T>, IterError>
  {
    Step(c, destroy, repair, s.(halt := c.stop(s.halt, s.best, s.curr).0))
  }

  /** The loop either stops at once, or makes one iteration and continues
      with one unit of fuel less. */
  lemma LoopUnfolds<S, Sel, A, T>(c: Components<S, Sel, A, T>, destroy: Registry<S -> S>,
                                  repair: Registry<S -> S>, s: Search<S, Sel, A, T>, fuel: nat)
    requires !c.stop(s.halt, s.best, s.curr).1 && fuel > 0 && Advanced(c, destroy, repair, s).Ok?
    ensures Loop(c, destroy, repair, s, fuel) == Loop(c, destroy, repair, Advanced(c, destroy, repair, s).value, fuel - 1)
  {
  }

  /** One iteration keeps the invariant, extends the trace and adds one
      update. */
  lemma AdvancedKeepsInv<S(!new), Sel, A, T>(c: Components<S, Sel, A, T>, destroy: Registry<S -> S>,
                                             repair: Registry<S -> S>, s: Search<S, Sel, A, T>)
    requires Inv(c, s) && Advanced(c, destroy, repair, s).Ok?
    ensures Inv(c, Advanced(c, destroy, repair, s).value)
    ensures OneStep(c, s, Advanced(c, destroy, repair, s).value)
  {
    var s1 := s.(halt := c.stop(s.halt, s.best, s.curr).0);
    assert Inv(c, s1);
    StepKeepsInv(c, destroy, repair, s1);
  }

  /** When the stopping criterion says stop, the loop returns at once with
      only the criterion's state changed. */
  lemma LoopStops<S(!new), Sel, A, T>(c: Components<S, Sel, A, T>, destroy: Registry<S -> S>,
                                      repair: Registry<S -> S>, s: Search<S, Sel, A, T>, fuel: nat,
                                      t: Search<S, Sel, A, T>)
    requires Inv(c, s) && c.stop(s.halt, s.best, s.curr).1 && Loop(c, destroy, repair, s, fuel) == Ok(t)
    ensures t == s.(halt := c.stop(s.halt, s.best, s.curr).0)
    ensures Follows(c, s, t, fuel)
  {
    assert t.stats.objectives[..|s.stats.objectives|] == s.stats.objectives;
  }

  /** When the stopping criterion says continue and the loop still
      succeeds, it made one iteration to a state `u` that keeps the
      invariant, and succeeded from there with one unit of fuel less. */
  lemma LoopContinues<S(!new), Sel, A, T>(c: Components<S, Sel, A, T>, destroy: Registry<S -> S>,
                                          repair: Registry<S -> S>, s: Search<S, Sel, A, T>, fuel: nat,
                                          t: Search<S, Sel, A, T>)
    returns (u: Search<S, Sel, A, T>)
    requires Inv(c, s) && !c.stop(s.halt, s.best, s.curr).1 && Loop(c, destroy, repair, s, fuel) == Ok(t)
    ensures fuel > 0
    ensures Inv(c, u)
    ensures OneStep(c, s, u)
    ensures Returns(c, destroy, repair, u, fuel - 1, t)
  {
    assert fuel > 0 && Advanced(c, destroy, repair, s).Ok?;
    u := Advanced(c, destroy, repair, s).value;
    AdvancedKeepsInv(c, destroy, repair, s);
    LoopUnfolds(c, destroy, repair, s, fuel);
  }

  /** The loop keeps the invariant and the trace collected so far, and makes
      at most `fuel` iterations. */
  lemma {:induction false} LoopKeepsInv<S(!new), Sel, A, T>(c: Components<S, Sel, A, T>, destroy: Registry<S -> S>,
                                                      repair: Registry<S -> S>, s: Search<S, Sel, A, T>, fuel: nat,
                                                      t: Search<S, Sel, A, T>)
    requires Inv(c, s) && Returns(c, destroy, repair, s, fuel, t)
    ensures Follows(c, s, t, fuel)
    decreases fuel
  {
    if c.stop(s.halt, s.best, s.curr).1 {
      LoopStops(c, destroy, repair, s, fuel, t);
    } else {
      var u := LoopContinues(c, destroy, repair, s, fuel, t);
      LoopKeepsInv(c, destroy, repair, u, fuel - 1, t);
      FollowsStep(c, s, u, t, fuel);
    }
  }

  /** The loop's state when it starts: best and current are the initial
      solution, whose objective is the trace's first entry. */
  function Start<S(!new), Sel, A, T>(c: Components<S, Sel, A, T>, init: S, sel: Sel, acc: A, halt: T)
    : (r: Search<S, Sel, A, T>)
    ensures Inv(c, r) && r.best == init && r.curr == init
    ensures r.stats.objectives == [c.objective(init)] && r.updates == []
  {
    Search(init, init, sel, acc, halt, Statistics.CollectObjective(Statistics.New(), c.objective(init)), [])
  }

  /** The whole search. It refuses to start without at least one destroy
      and one repair operator; a finished search satisfies the invariant,
      its trace starts with the initial objective, and the best solution is
      never worse than the initial one when the callback never worsens. */
  function Iterate<S(!new), Sel, A, T>(c: Components<S, Sel, A, T>, destroy: Registry<S -> S>,
                                 repair: Registry<S -> S>, init: S, sel: Sel, acc: A, halt: T, fuel: nat)
    : (r: Result<Search<S, Sel, A, T>, IterError>)
    ensures |destroy| == 0 || |repair| == 0 ==> r == Err(MissingOperators)
    ensures r.Ok? ==>
      Inv(c, r.value) && r.value.stats.objectives[0] == c.objective(init) &&
      |r.value.updates| <= fuel &&
      (NonWorsening(c) ==> c.objective(r.value.best) <= c.objective(init))
  {
    if |destroy| == 0 || |repair| == 0 then Err(MissingOperators)
    else
      var s := Start(c, init, sel, acc, halt);
      var r := Loop(c, destroy, repair, s, fuel);
      if r.Ok? then
        LoopKeepsInv(c, destroy, repair, s, fuel, r.value);
        r
      else r
  }

  /** A stopping criterion that stops at once returns the initial solution
      as best, with a one-entry trace and no selection updates. */
  lemma StopAtOnce<S(!new), Sel, A, T>(c: Components<S, Sel, A, T>, destroy: Registry<S -> S>,
                                 repair: Registry<S -> S>, init: S, sel: Sel, acc: A, halt: T, fuel: nat)
    requires |destroy| > 0 && |repair| > 0 && c.stop(halt, init, init).1
    ensures Iterate(c, destroy, repair, init, sel, acc, halt, fuel).Ok?
    ensures var s := Iterate(c, destroy, repair, init, sel, acc, halt, fuel).value;
      s.best == init && s.stats.objectives == [c.objective(init)] && s.updates == []
  {
  }

  /** With an acceptance criterion that accepts exactly the candidates no
      worse than the current solution (hill climbing) and a callback that
      never worsens, an iteration from a state where the best is no worse
      than the current solution never raises the current objective. */
  lemma HillClimbingNeverWorsens<S(!new), Sel, A, T>(c: Components<S, Sel, A, T>, destroy: Registry<S -> S>,
                                                   repair: Registry<S -> S>, s: Search<S, Sel, A, T>)
    requires forall a, b, x, y :: c.accept(a, b, x, y).1 <==> c.objective(y) <= c.objective(x)
    requires Inv(c, s) && NonWorsening(c) && Step(c, destroy, repair, s).Ok?
    ensures c.objective(Step(c, destroy, repair, s).value.curr) <= c.objective(s.curr)
  {
    var (sel', d, rr) := c.select(s.sel);
    var cand := repair[rr].1(destroy[d].1(s.curr));
    var accepted := c.accept(s.acc, s.best, s.curr, cand).1;
    var t := Step(c, destroy, repair, s).value;
    if c.objective(cand) < c.objective(s.best) {
      assert c.objective(t.curr) <= c.objective(cand);
    }
  }
}
