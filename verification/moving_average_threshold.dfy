/** The moving-average threshold criterion
    (alns/accept/MovingAverageThreshold.py): the candidate objective joins a
    window of the last `gamma` candidate objectives, and the candidate is
    accepted when it is at most `min + eta·(mean − min)` over that window. */
module MovingAverageThreshold {
  import opened Wrappers
  import opened Numerics
  import opened Deque

  /** `history` is the window, oldest first, bounded by `gamma`. */
  datatype Criterion = Criterion(eta: real, gamma: nat, history: seq<real>)

  predicate Valid(c: Criterion)
  {
    0.0 <= c.eta <= 1.0 && c.gamma > 0 && |c.history| <= c.gamma
  }

  /** The constructor: `eta` in [0, 1] and a positive `gamma`; the window
      starts empty. */
  function New(eta: real, gamma: int): (r: Result<Criterion, string>)
    ensures r.Ok? <==> 0.0 <= eta <= 1.0 && gamma > 0
    ensures !(0.0 <= eta <= 1.0) ==> r == Err("eta must be in [0, 1].")
    ensures r.Ok? ==> Valid(r.value) && r.value.history == []
    ensures r.Ok? ==> r.value.eta == eta && r.value.gamma == gamma
  {
    if !(0.0 <= eta <= 1.0) then Err("eta must be in [0, 1].")
    else if gamma <= 0 then Err("gamma must be positive.")
    else Ok(Criterion(eta, gamma, []))
  }

  /** The point a fraction `eta` of the way from `lo` to `hi`. */
  function Between(lo: real, hi: real, eta: real): real
  {
    lo + eta * (hi - lo)
  }

  /** The threshold over a non-empty window. */
  function Threshold(eta: real, window: seq<real>): real
    requires |window| > 0
  {
    Between(MinOf(window), Mean(window), eta)
  }

  /** The threshold lies between the window's minimum and its mean. */
  lemma ThresholdBounds(eta: real, window: seq<real>)
    requires |window| > 0 && 0.0 <= eta <= 1.0
    ensures MinOf(window) <= Threshold(eta, window) <= Mean(window)
  {
    MinAtMostMean(window);
    BetweenBounds(MinOf(window), Mean(window), eta);
  }

  lemma BetweenBounds(lo: real, hi: real, eta: real)
    requires lo <= hi && 0.0 <= eta <= 1.0
    ensures lo <= Between(lo, hi, eta) <= hi
  {
    var d := hi - lo;
    Interpolate(lo, d, eta);
    assert Between(lo, hi, eta) == lo + eta * d;
  }

  /** One call: record the candidate, then compare it with the threshold of
      the window that now includes it. */
  function Accept(c: Criterion, best: real, curr: real, cand: real): (r: (Criterion, bool))
    requires Valid(c)
    ensures Valid(r.0) && r.0.eta == c.eta && r.0.gamma == c.gamma
    ensures r.0.history == Append(c.history, c.gamma, cand)
    ensures r.1 <==> cand <= Threshold(c.eta, r.0.history)
  {
    var h := Append(c.history, c.gamma, cand);
    (c.(history := h), cand <= Threshold(c.eta, h))
  }

  /** A candidate that is the smallest objective in the window is accepted;
      with `gamma` one the window is the candidate alone, so every candidate
      is accepted. */
  lemma AcceptsWindowMinimum(c: Criterion, best: real, curr: real, cand: real)
    requires Valid(c)
    requires forall i :: 0 <= i < |c.history| ==> cand <= c.history[i]
    ensures Accept(c, best, curr, cand).1
  {
    var h := Append(c.history, c.gamma, cand);
    forall i | 0 <= i < |h|
      ensures cand <= h[i]
    {
      if |c.history| == c.gamma && i < |h| - 1 {
        assert h[i] == c.history[i + 1];
      } else if i < |h| - 1 {
        assert h[i] == c.history[i];
      }
    }
    ThresholdBounds(c.eta, h);
  }

  lemma GammaOneAcceptsAll(c: Criterion, best: real, curr: real, cand: real)
    requires Valid(c) && c.gamma == 1
    ensures Accept(c, best, curr, cand).1
  {
    var h := Append(c.history, c.gamma, cand);
    assert h == [cand];
    ThresholdBounds(c.eta, h);
  }

  /** Successive calls on the candidate objectives `cands`; the verdicts in
      call order. */
  function Run(c: Criterion, cands: seq<real>): (r: (Criterion, seq<bool>))
    requires Valid(c)
    ensures Valid(r.0) && |r.1| == |cands|
    ensures r.0.gamma == c.gamma
    decreases |cands|
  {
    if |cands| == 0 then (c, [])
    else
      var first := Accept(c, 0.0, 0.0, cands[0]);
      var rest := Run(first.0, cands[1..]);
      (rest.0, [first.1] + rest.1)
  }

  /** The window after a run is what the bounded deque holds after the
      candidates are appended to it one by one. */
  lemma {:induction false} RunHistory(c: Criterion, cands: seq<real>)
    requires Valid(c)
    ensures Run(c, cands).0.history == AppendAll(c.history, c.gamma, cands)
    decreases |cands|
  {
    if |cands| > 0 {
      var first := Accept(c, 0.0, 0.0, cands[0]);
      RunHistory(first.0, cands[1..]);
    }
  }

  /** The window is always the last `gamma` candidate objectives, the newest
      one included. */
  lemma HistoryIsWindow(c: Criterion, cands: seq<real>)
    requires Valid(c)
    ensures Run(c, cands).0.history == Last(c.history + cands, c.gamma)
  {
    RunHistory(c, cands);
    AppendAllIsWindow(c.history, c.gamma, cands);
  }

  lemma ShortWindowThreshold()
    ensures Threshold(0.5, [7100.0, 7200.0]) == 7125.0
  {
    var w := [7100.0, 7200.0];
    assert w[..1] == [7100.0] && w[1..] == [7200.0];
    assert Sum(w) == 14300.0;
    assert MinOf(w) == 7100.0;
  }

  lemma LongWindowThreshold()
    ensures Threshold(0.5, [7100.0, 7200.0, 7120.0]) == 7120.0
  {
    var w := [7100.0, 7200.0, 7120.0];
    var v := [7100.0, 7200.0];
    assert w[..2] == v && v[..1] == [7100.0] && v[..1][..0] == [];
    assert Sum(v) == 14300.0;
    assert Sum(w) == 21420.0;
    assert w[1..] == [7200.0, 7120.0] && w[1..][1..] == [7120.0];
    assert MinOf(w[1..]) == 7120.0;
    assert MinOf(w) == 7100.0;
  }

  lemma ExampleFirstCall()
    ensures Accept(Criterion(0.5, 4, []), 0.0, 0.0, 7100.0)
            == (Criterion(0.5, 4, [7100.0]), true)
  {
    assert Append([], 4, 7100.0) == [7100.0];
  }

  lemma ExampleSecondCall()
    ensures Accept(Criterion(0.5, 4, [7100.0]), 0.0, 0.0, 7200.0)
            == (Criterion(0.5, 4, [7100.0, 7200.0]), false)
  {
    assert Append([7100.0], 4, 7200.0) == [7100.0, 7200.0];
    ShortWindowThreshold();
  }

  lemma ExampleThirdCall()
    ensures Accept(Criterion(0.5, 4, [7100.0, 7200.0]), 0.0, 0.0, 7120.0)
            == (Criterion(0.5, 4, [7100.0, 7200.0, 7120.0]), true)
  {
    assert Append([7100.0, 7200.0], 4, 7120.0) == [7100.0, 7200.0, 7120.0];
    LongWindowThreshold();
  }

  /** With `eta` 0.5 and `gamma` 4: 7100 is accepted at threshold 7100, 7200
      is rejected at threshold 7125, and 7120 is accepted at threshold 7120. */
  lemma ConsecutiveExample()
    ensures New(0.5, 4).Ok?
    ensures Run(New(0.5, 4).value, [7100.0, 7200.0, 7120.0]).1 == [true, false, true]
  {
    var c0 := Criterion(0.5, 4, []);
    var c1 := Criterion(0.5, 4, [7100.0]);
    var c2 := Criterion(0.5, 4, [7100.0, 7200.0]);
    var c3 := Criterion(0.5, 4, [7100.0, 7200.0, 7120.0]);
    assert New(0.5, 4).value == c0;
    ExampleFirstCall();
    ExampleSecondCall();
    ExampleThirdCall();
    var cands := [7100.0, 7200.0, 7120.0];
    assert cands[1..] == [7200.0, 7120.0] && cands[1..][1..] == [7120.0];
    assert [7120.0][1..] == [];
    assert Run(c3, []).1 == [];
    assert Run(c2, [7120.0]).1 == [true];
    assert Run(c1, [7200.0, 7120.0]).1 == [false, true];
  }
}
