/** The non-linear great-deluge criterion
    (alns/accept/NonLinearGreatDeluge.py): the great-deluge constructor checks
    plus positive `gamma` and `delta`; a candidate is accepted when strictly
    below the water level or strictly better than the current solution, and
    the level is then raised linearly or lowered exponentially depending on
    the candidate's relative gap to it. */
module NonLinearGreatDeluge {
  import opened Wrappers
  import opened Numerics
  import GreatDeluge

  /** `level` is `None` until the first call. */
  datatype Criterion = Criterion(alpha: real, beta: real, gamma: real, delta: real, level: Option<real>)

  predicate Valid(c: Criterion)
  {
    c.alpha > 1.0 && 0.0 < c.beta < 1.0 && c.gamma > 0.0 && c.delta > 0.0
  }

  /** The constructor: the great-deluge checks come first. */
  function New(alpha: real, beta: real, gamma: real, delta: real): (r: Result<Criterion, string>)
    ensures r.Ok? <==> alpha > 1.0 && 0.0 < beta < 1.0 && gamma > 0.0 && delta > 0.0
    ensures GreatDeluge.New(alpha, beta).Err? ==> r == Err(GreatDeluge.New(alpha, beta).error)
    ensures GreatDeluge.New(alpha, beta).Ok? && (gamma <= 0.0 || delta <= 0.0) ==>
      r == Err("Gamma and delta must be non-negative.")
    ensures r.Ok? ==> Valid(r.value) && r.value.level == None
  {
    var _ :- GreatDeluge.New(alpha, beta);
    if gamma <= 0.0 || delta <= 0.0 then Err("Gamma and delta must be non-negative.")
    else Ok(Criterion(alpha, beta, gamma, delta, None))
  }

  /** The level a call works with: the stored one, or `alpha · best` on the
      first call. */
  function Level(c: Criterion, best: real): real
  {
    if c.level.Some? then c.level.value else c.alpha * best
  }

  /** Why the level update has no value. */
  datatype LevelError = ZeroBest | ZeroLevel

  /** The level after a call, from the level `level` the call worked with.
      The relative gap divides by the level, so a zero level fails. */
  function NextLevel(c: Criterion, exp: real -> real, level: real, best: real, cand: real)
    : (r: Result<real, LevelError>)
    requires Valid(c)
    ensures r.Err? <==> level == 0.0
    ensures r.Ok? && (level - cand) / level < c.beta ==>
      r.value == level + c.gamma * Abs(cand - level) && r.value >= level
    ensures r.Ok? && (level - cand) / level >= c.beta ==>
      r.value == level * exp(-c.delta * best) + best
  {
    if level == 0.0 then Err(ZeroLevel)
    else
      var relGap := (level - cand) / level;
      if relGap < c.beta then
        MulNonNegative(c.gamma, Abs(cand - level));
        Ok(c.gamma * Abs(cand - level) + level)
      else
        Ok(level * exp(-c.delta * best) + best)
  }

  /** The messages the two failures raise. */
  function Message(e: LevelError): string
  {
    match e
    case ZeroBest => "Initial solution cannot have zero value."
    case ZeroLevel => "float division by zero"
  }

  /** One call. The first call fails on a zero best objective; afterwards the
      verdict is `cand < level or cand < curr`, and the level moves whatever
      the verdict. */
  function Accept(c: Criterion, exp: real -> real, best: real, curr: real, cand: real)
    : (r: Result<(Criterion, bool), LevelError>)
    requires Valid(c)
    ensures c.level.None? && best == 0.0 ==> r == Err(ZeroBest)
    ensures r.Err? <==> (c.level.None? && best == 0.0) || c.level == Some(0.0)
    ensures r.Ok? ==> Valid(r.value.0) && r.value.0.level.Some?
    ensures r.Ok? ==> (r.value.1 <==> cand < Level(c, best) || cand < curr)
    ensures r.Ok? ==> Ok(r.value.0.level.value) == NextLevel(c, exp, Level(c, best), best, cand)
  {
    if c.level.None? && best == 0.0 then Err(ZeroBest)
    else
      var level := Level(c, best);
      assert c.level.None? ==> level != 0.0 by {
        if c.level.None? { assert level == c.alpha * best; }
      }
      var res := cand < level || cand < curr;
      var next :- NextLevel(c, exp, level, best, cand);
      Ok((c.(level := Some(next)), res))
  }

  /** A candidate strictly better than the current solution is accepted,
      however high it is above the level. */
  lemma AcceptsImprovement(c: Criterion, exp: real -> real, best: real, curr: real, cand: real)
    requires Valid(c) && cand < curr
    requires Accept(c, exp, best, curr, cand).Ok?
    ensures Accept(c, exp, best, curr, cand).value.1
  {
  }

  /** In the lowering branch with a positive level and a positive best
      objective, the level stays strictly above the best objective. */
  lemma LoweredLevelAboveBest(c: Criterion, exp: real -> real, level: real, best: real, cand: real)
    requires Valid(c) && ExpLike(exp) && level > 0.0 && best >= 0.0
    requires (level - cand) / level >= c.beta
    ensures NextLevel(c, exp, level, best, cand).Ok?
    ensures NextLevel(c, exp, level, best, cand).value > best
  {
    var x := -c.delta * best;
    assert exp(x) > 0.0;
    MulPositive(level, exp(x));
  }

  lemma MulPositive(x: real, y: real)
    requires x > 0.0 && y > 0.0
    ensures x * y > 0.0
  {
  }

  /** With alpha 1.5, beta 0.1, gamma 0.02 and delta 2, a best objective of
      one and a current of zero: candidate 2 is rejected and the level rises
      from 1.5 to 1.51; candidate 0 is accepted and the level drops to
      `1.51 · exp(−2) + 1`; candidate 1 is then accepted. */
  lemma ConsecutiveExample(exp: real -> real)
    requires ExpLike(exp)
    ensures New(1.5, 0.1, 0.02, 2.0).Ok?
    ensures var c0 := New(1.5, 0.1, 0.02, 2.0).value;
      var a := Accept(c0, exp, 1.0, 0.0, 2.0);
      && a.Ok? && !a.value.1 && a.value.0.level == Some(1.51)
      && var b := Accept(a.value.0, exp, 1.0, 0.0, 0.0);
      && b.Ok? && b.value.1 && b.value.0.level == Some(1.51 * exp(-2.0) + 1.0)
      && var d := Accept(b.value.0, exp, 1.0, 0.0, 1.0);
      && d.Ok? && d.value.1
  {
    var c0 := New(1.5, 0.1, 0.02, 2.0).value;
    assert (1.5 - 2.0) / 1.5 < 0.1;
    var c1 := c0.(level := Some(1.51));
    assert (1.51 - 0.0) / 1.51 >= 0.1;
    LoweredLevelAboveBest(c1, exp, 1.51, 1.0, 0.0);
  }

  /** A zero best objective on the first call is an error. */
  lemma ZeroBestExample(exp: real -> real)
    ensures New(2.0, 0.1, 0.01, 1.0).Ok?
    ensures Accept(New(2.0, 0.1, 0.01, 1.0).value, exp, 0.0, 1.0, 1.0) == Err(ZeroBest)
  {
  }
}
