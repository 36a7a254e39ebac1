/** The great-deluge criterion (alns/accept/GreatDeluge.py): a water level
    set lazily to `alpha · best` on the first call; a candidate is accepted
    when strictly below the level, and after every call the level moves the
    fraction `beta` of the way towards the candidate. */
module GreatDeluge {
  import opened Wrappers
  import opened Numerics

  /** `level` is `None` until the first call. */
  datatype Criterion = Criterion(alpha: real, beta: real, level: Option<real>)

  predicate Valid(c: Criterion)
  {
    c.alpha > 1.0 && 0.0 < c.beta < 1.0
  }

  function New(alpha: real, beta: real): (r: Result<Criterion, string>)
    ensures r.Ok? <==> alpha > 1.0 && 0.0 < beta < 1.0
    ensures r.Err? ==> r.error == "alpha must be > 1 and beta must be in (0, 1)."
    ensures r.Ok? ==> Valid(r.value) && r.value.level == None
    ensures r.Ok? ==> r.value.alpha == alpha && r.value.beta == beta
  {
    if alpha <= 1.0 || !(0.0 < beta < 1.0) then
      Err("alpha must be > 1 and beta must be in (0, 1).")
    else
      Ok(Criterion(alpha, beta, None))
  }

  /** The level a call works with: the stored one, or `alpha · best` on the
      first call. */
  function Level(c: Criterion, best: real): real
  {
    if c.level.Some? then c.level.value else c.alpha * best
  }

  /** One call: strict comparison with the level, then
      `level := level − beta · (level − candidate)`, whatever the verdict. */
  function Accept(c: Criterion, best: real, curr: real, cand: real): (r: (Criterion, bool))
    requires Valid(c)
    ensures Valid(r.0) && r.0.alpha == c.alpha && r.0.beta == c.beta && r.0.level.Some?
    ensures r.1 <==> cand < Level(c, best)
    ensures Min(Level(c, best), cand) <= r.0.level.value <= Max(Level(c, best), cand)
    ensures r.0.level.value == (1.0 - c.beta) * Level(c, best) + c.beta * cand
  {
    var level := Level(c, best);
    var diff := level - cand;
    var next := level - c.beta * diff;
    LevelMoves(level, cand, c.beta, next);
    (c.(level := Some(next)), diff > 0.0)
  }

  /** The new level is the convex combination of the old level and the
      candidate with weight `beta`, hence between the two. */
  lemma LevelMoves(level: real, cand: real, beta: real, next: real)
    requires 0.0 < beta < 1.0 && next == level - beta * (level - cand)
    ensures next == (1.0 - beta) * level + beta * cand
    ensures Min(level, cand) <= next <= Max(level, cand)
  {
    if level <= cand {
      var e := cand - level;
      assert beta * (level - cand) == -(beta * e);
      assert next == level + beta * e;
      Interpolate(level, e, beta);
    } else {
      var e := level - cand;
      assert next == cand + (e - beta * e);
      assert (1.0 - beta) * e == e - beta * e;
      Interpolate(cand, e, 1.0 - beta);
    }
  }

  /** Once the level is set, the best solution passed in no longer matters. */
  lemma LaterBestIgnored(c: Criterion, best1: real, best2: real, curr: real, cand: real)
    requires Valid(c) && c.level.Some?
    ensures Accept(c, best1, curr, cand) == Accept(c, best2, curr, cand)
  {
    var a1 := Accept(c, best1, curr, cand);
    var a2 := Accept(c, best2, curr, cand);
    assert Level(c, best1) == Level(c, best2) == c.level.value;
    assert a1.0.level.value == a2.0.level.value;
  }

  /** Successive calls, each given the objectives of best and candidate. */
  function Run(c: Criterion, calls: seq<(real, real)>): (r: (Criterion, seq<bool>))
    requires Valid(c)
    ensures Valid(r.0) && |r.1| == |calls|
    ensures |calls| > 0 ==> r.0.level.Some?
    decreases |calls|
  {
    if |calls| == 0 then (c, [])
    else
      var first := Accept(c, calls[0].0, calls[0].0, calls[0].1);
      var rest := Run(first.0, calls[1..]);
      (rest.0, [first.1] + rest.1)
  }

  /** A run depends on the best objectives only through the first one: two
      runs that agree on the first best and on every candidate agree
      entirely. */
  lemma {:induction false} OnlyFirstBestMatters(c: Criterion, calls1: seq<(real, real)>, calls2: seq<(real, real)>)
    requires Valid(c) && |calls1| == |calls2|
    requires forall i :: 0 <= i < |calls1| ==> calls1[i].1 == calls2[i].1
    requires |calls1| > 0 && c.level.None? ==> calls1[0].0 == calls2[0].0
    ensures Run(c, calls1) == Run(c, calls2)
    decreases |calls1|
  {
    if |calls1| > 0 {
      var first := Accept(c, calls1[0].0, calls1[0].0, calls1[0].1);
      assert calls1[0].1 == calls2[0].1;
      assert Level(c, calls1[0].0) == Level(c, calls2[0].0);
      assert first == Accept(c, calls2[0].0, calls2[0].0, calls2[0].1);
      assert forall i :: 0 <= i < |calls1| - 1 ==> calls1[1..][i].1 == calls2[1..][i].1;
      OnlyFirstBestMatters(first.0, calls1[1..], calls2[1..]);
    }
  }

  /** With `beta` 0.01 and a first best of 0: the level starts at 0, a
      candidate 1 is rejected and raises it to 0.01, and a candidate 0 is
      then accepted and lowers it to 0.0099. */
  lemma Example(alpha: real)
    requires alpha > 1.0
    ensures New(alpha, 0.01).Ok?
    ensures var c0 := New(alpha, 0.01).value;
      var a := Accept(c0, 0.0, 0.0, 1.0);
      var b := Accept(a.0, 0.0, 0.0, 0.0);
      && !a.1 && a.0.level == Some(0.01)
      && b.1 && b.0.level == Some(0.0099)
  {
  }
}
