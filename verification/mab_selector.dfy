/** The multi-armed-bandit scheme's own logic (alns/select/MABSelector.py):
    the arm names `"d_r"` of the coupled operator pairs and their parsing,
    the score checks, the cold-start pick before the bandit has seen an
    observation, and the observation an update feeds to the bandit. The
    bandit itself (its prediction and fitting) is an external library. */
module MABSelector {
  import opened Wrappers
  import opened Outcomes
  import opened OperatorSelectionScheme
  import Sampling

  function DigitChar(n: nat): (c: char)
    requires n < 10
    ensures '0' <= c <= '9'
  {
    "0123456789"[n]
  }

  predicate IsDigit(c: char)
  {
    '0' <= c <= '9'
  }

  /** The decimal rendering of a natural number, as `f"{n}"` prints it. */
  function NatToString(n: nat): (s: string)
    ensures |s| > 0 && forall i :: 0 <= i < |s| ==> IsDigit(s[i])
    ensures n > 0 ==> s[0] != '0'
    decreases n
  {
    if n < 10 then [DigitChar(n)]
    else NatToString(n / 10) + [DigitChar(n % 10)]
  }

  /** The value of a string of decimal digits. */
  function DigitsValue(s: string): nat
    requires forall i :: 0 <= i < |s| ==> IsDigit(s[i])
  {
    if |s| == 0 then 0
    else
      assert IsDigit(s[|s| - 1]);
      DigitsValue(s[..|s| - 1]) * 10 + ((s[|s| - 1] as int - '0' as int) as nat)
  }

  /** Printing then reading back a natural number gives the number. */
  lemma {:induction false} DigitsRoundTrip(n: nat)
    ensures DigitsValue(NatToString(n)) == n
    decreases n
  {
    var s := NatToString(n);
    if n >= 10 {
      DigitsRoundTrip(n / 10);
      assert s[..|s| - 1] == NatToString(n / 10);
    }
  }

  /** `ops2arm`. */
  function Ops2Arm(d: nat, r: nat): string
  {
    NatToString(d) + "_" + NatToString(r)
  }

  /** The characters Python's `str.strip()` removes, restricted to ASCII. */
  predicate IsSpace(c: char)
  {
    c == ' ' || c == '\t' || c == '\n' || c == '\r' || c == '\U{000B}' || c == '\U{000C}'
  }

  function Strip(s: string): (t: string)
    ensures |t| <= |s|
    ensures |t| > 0 ==> !IsSpace(t[0]) && !IsSpace(t[|t| - 1])
    decreases |s|
  {
    if |s| > 0 && IsSpace(s[0]) then Strip(s[1..])
    else if |s| > 0 && IsSpace(s[|s| - 1]) then Strip(s[..|s| - 1])
    else s
  }

  predicate AllDigits(s: string)
  {
    forall i :: 0 <= i < |s| ==> IsDigit(s[i])
  }

  /** `int(s)` in base ten: surrounding white space, an optional sign, and
      at least one digit. */
  function ParseInt(s: string): (r: Result<int, string>)
    ensures AllDigits(s) && |s| > 0 ==> r == Ok(DigitsValue(s))
    ensures r.Ok? ==> exists t :: AllDigits(t) && |t| > 0 && (r.value == DigitsValue(t) || r.value == -(DigitsValue(t) as int))
  {
    var t := Strip(s);
    assert AllDigits(s) && |s| > 0 ==> t == s;
    var neg := |t| > 0 && t[0] == '-';
    var body := if |t| > 0 && (t[0] == '-' || t[0] == '+') then t[1..] else t;
    if |body| == 0 || !AllDigits(body) then Err("invalid literal for int() with base 10")
    else if neg then Ok(-(DigitsValue(body) as int))
    else Ok(DigitsValue(body))
  }

  function Count(s: string, c: char): nat
  {
    if |s| == 0 then 0 else Count(s[..|s| - 1], c) + (if s[|s| - 1] == c then 1 else 0)
  }

  /** The position of the first `c` in `s`. */
  function IndexOf(s: string, c: char): (i: nat)
    requires Count(s, c) > 0
    ensures i < |s| && s[i] == c && Count(s[..i], c) == 0
  {
    if s[0] == c then
      assert s[..0] == [];
      0
    else
      CountPrepend(s, c);
      var i := IndexOf(s[1..], c) + 1;
      assert s[1..][..i - 1] == s[1..i];
      CountPrepend(s[..i], c);
      assert s[..i][1..] == s[1..i];
      i
  }

  lemma {:induction false} CountPrepend(s: string, c: char)
    requires |s| > 0
    ensures Count(s, c) == Count(s[1..], c) + (if s[0] == c then 1 else 0)
    decreases |s|
  {
    if |s| > 1 {
      var init := s[..|s| - 1];
      CountPrepend(init, c);
      assert init[1..] == s[1..][..|s| - 2];
    } else {
      assert s[..0] == [];
      assert |s[1..]| == 0;
    }
  }

  lemma {:induction false} CountAppend(s: string, t: string, c: char)
    ensures Count(s + t, c) == Count(s, c) + Count(t, c)
    decreases |t|
  {
    if |t| == 0 {
      assert s + t == s;
    } else {
      var init := t[..|t| - 1];
      CountAppend(s, init, c);
      assert (s + t)[..|s + t| - 1] == s + init;
    }
  }

  lemma {:induction false} NoUnderscore(s: string)
    requires AllDigits(s)
    ensures Count(s, '_') == 0
    decreases |s|
  {
    if |s| > 0 {
      var init := s[..|s| - 1];
      assert AllDigits(init);
      NoUnderscore(init);
    }
  }

  /** A character absent from a prefix occurs at no position in it. */
  lemma NoneBefore(s: string, c: char, i: nat, j: nat)
    requires i <= |s| && Count(s[..i], c) == 0 && j < i
    ensures s[j] != c
  {
    var t := s[..i];
    var u := t[..j + 1];
    CountAppend(u, t[j + 1..], c);
    assert u + t[j + 1..] == t;
    assert u[..j] + [s[j]] == u;
    CountAppend(u[..j], [s[j]], c);
    assert [s[j]][..0] == [];
  }

  /** `arm2ops`: `split("_")` must give exactly two parts, that is, the arm
      holds exactly one underscore; each part is read with `int`. */
  function Arm2Ops(arm: string): (r: Result<(int, int), string>)
    ensures Count(arm, '_') != 1 ==> r.Err?
    ensures r.Ok? ==> var i := IndexOf(arm, '_');
      ParseInt(arm[..i]) == Ok(r.value.0) && ParseInt(arm[i + 1..]) == Ok(r.value.1)
  {
    if Count(arm, '_') < 1 then Err("not enough values to unpack")
    else if Count(arm, '_') > 1 then Err("too many values to unpack")
    else
      var i := IndexOf(arm, '_');
      var d :- ParseInt(arm[..i]);
      var r :- ParseInt(arm[i + 1..]);
      Ok((d, r))
  }

  /** `arm2ops(ops2arm(d, r)) == (d, r)` for all non-negative indices. */
  lemma ArmRoundTrip(d: nat, r: nat)
    ensures Arm2Ops(Ops2Arm(d, r)) == Ok((d, r))
  {
    var a := NatToString(d);
    var b := NatToString(r);
    var arm := Ops2Arm(d, r);
    NoUnderscore(a);
    NoUnderscore(b);
    CountAppend(a, "_", '_');
    CountAppend(a + "_", b, '_');
    assert arm == (a + "_") + b;
    assert Count("_", '_') == 1 by { assert "_"[..0] == []; }
    var i := IndexOf(arm, '_');
    assert arm[|a|] == '_';
    if |a| < i {
      NoneBefore(arm, '_', i, |a|);
    }
    assert i == |a|;
    assert arm[..i] == a;
    assert arm[i + 1..] == b;
    DigitsRoundTrip(d);
    DigitsRoundTrip(r);
  }

  /** Distinct pairs get distinct arm names. */
  lemma ArmsDistinct(d1: nat, r1: nat, d2: nat, r2: nat)
    requires (d1, r1) != (d2, r2)
    ensures Ops2Arm(d1, r1) != Ops2Arm(d2, r2)
  {
    ArmRoundTrip(d1, r1);
    ArmRoundTrip(d2, r2);
  }

  /** Row-major order on pairs. */
  predicate Before(p: (nat, nat), q: (nat, nat))
  {
    p.0 < q.0 || (p.0 == q.0 && p.1 < q.1)
  }

  /** `(d, j)` for every true entry `j` of row `d`. */
  function RowPairs(d: nat, row: seq<bool>): (ps: seq<(nat, nat)>)
    ensures |ps| == |Sampling.FlatNonzero(row)|
    ensures forall k :: 0 <= k < |ps| ==> ps[k] == (d, Sampling.FlatNonzero(row)[k])
  {
    var idcs := Sampling.FlatNonzero(row);
    seq(|idcs|, k requires 0 <= k < |idcs| => (d, idcs[k]))
  }

  /** `ps` lists exactly the coupled pairs of `m`, in row-major order. */
  predicate PairsOf(m: seq<seq<bool>>, ps: seq<(nat, nat)>)
  {
    && (forall k :: 0 <= k < |ps| ==> ps[k].0 < |m| && ps[k].1 < |m[ps[k].0]| && m[ps[k].0][ps[k].1])
    && (forall d, r :: 0 <= d < |m| && 0 <= r < |m[d]| && m[d][r] ==> (d, r) in ps)
    && (forall k, l :: 0 <= k < l < |ps| ==> Before(ps[k], ps[l]))
  }

  /** The coupled pairs, row-major: the arms of the bandit, and what
      `np.argwhere(op_coupling)` lists. */
  function CoupledPairs(m: seq<seq<bool>>): (ps: seq<(nat, nat)>)
    ensures PairsOf(m, ps)
    decreases |m|
  {
    if |m| == 0 then []
    else
      var n := |m| - 1;
      var init := CoupledPairs(m[..n]);
      PairsExtend(m, init);
      init + RowPairs(n, m[n])
  }

  lemma PairsExtend(m: seq<seq<bool>>, init: seq<(nat, nat)>)
    requires |m| > 0 && PairsOf(m[..|m| - 1], init)
    ensures PairsOf(m, init + RowPairs(|m| - 1, m[|m| - 1]))
  {
    ExtendCoupled(m, init);
    ExtendComplete(m, init);
    ExtendOrdered(m, init);
  }

  lemma ExtendCoupled(m: seq<seq<bool>>, init: seq<(nat, nat)>)
    requires |m| > 0 && PairsOf(m[..|m| - 1], init)
    ensures var ps := init + RowPairs(|m| - 1, m[|m| - 1]);
      forall k :: 0 <= k < |ps| ==> ps[k].0 < |m| && ps[k].1 < |m[ps[k].0]| && m[ps[k].0][ps[k].1]
  {
    var n := |m| - 1;
    var last := RowPairs(n, m[n]);
    var ps := init + last;
    forall k | 0 <= k < |ps|
      ensures ps[k].0 < |m| && ps[k].1 < |m[ps[k].0]| && m[ps[k].0][ps[k].1]
    {
      if k < |init| {
        assert ps[k] == init[k];
        assert m[..n][init[k].0] == m[init[k].0];
      } else {
        assert ps[k] == last[k - |init|];
      }
    }
  }

  lemma ExtendComplete(m: seq<seq<bool>>, init: seq<(nat, nat)>)
    requires |m| > 0 && PairsOf(m[..|m| - 1], init)
    ensures var ps := init + RowPairs(|m| - 1, m[|m| - 1]);
      forall d, r :: 0 <= d < |m| && 0 <= r < |m[d]| && m[d][r] ==> (d, r) in ps
  {
    var n := |m| - 1;
    var last := RowPairs(n, m[n]);
    var idcs := Sampling.FlatNonzero(m[n]);
    var ps := init + last;
    forall d, r | 0 <= d < |m| && 0 <= r < |m[d]| && m[d][r]
      ensures (d, r) in ps
    {
      if d < n {
        assert m[..n][d] == m[d];
        assert (d, r) in init;
      } else {
        assert r in idcs;
        var k :| 0 <= k < |idcs| && idcs[k] == r;
        assert ps[|init| + k] == (d, r);
      }
    }
  }

  lemma ExtendOrdered(m: seq<seq<bool>>, init: seq<(nat, nat)>)
    requires |m| > 0 && PairsOf(m[..|m| - 1], init)
    ensures var ps := init + RowPairs(|m| - 1, m[|m| - 1]);
      forall k, l :: 0 <= k < l < |ps| ==> Before(ps[k], ps[l])
  {
    var n := |m| - 1;
    var last := RowPairs(n, m[n]);
    var ps := init + last;
    forall k, l | 0 <= k < l < |ps|
      ensures Before(ps[k], ps[l])
    {
      if l >= |init| && k < |init| {
        assert ps[k] == init[k];
        assert ps[l] == last[l - |init|];
      } else if k >= |init| {
        assert ps[k] == last[k - |init|];
        assert ps[l] == last[l - |init|];
      } else {
        assert ps[k] == init[k] && ps[l] == init[l];
      }
    }
  }

  /** The arm names the bandit is built with. */
  function Arms(m: seq<seq<bool>>): (arms: seq<string>)
    ensures |arms| == |CoupledPairs(m)|
    ensures forall k :: 0 <= k < |arms| ==>
      arms[k] == Ops2Arm(CoupledPairs(m)[k].0, CoupledPairs(m)[k].1)
  {
    var ps := CoupledPairs(m);
    seq(|ps|, k requires 0 <= k < |ps| => Ops2Arm(ps[k].0, ps[k].1))
  }

  /** Reading back any arm name gives a coupled pair. */
  lemma ArmsAreCoupled(m: seq<seq<bool>>, arm: string)
    requires arm in Arms(m)
    ensures Arm2Ops(arm).Ok?
    ensures var p := Arm2Ops(arm).value;
      0 <= p.0 < |m| && 0 <= p.1 < |m[p.0]| && m[p.0][p.1]
  {
    var arms := Arms(m);
    var k :| 0 <= k < |arms| && arms[k] == arm;
    var p := CoupledPairs(m)[k];
    ArmRoundTrip(p.0, p.1);
  }

  /** `fitted` records whether the bandit has received an observation. */
  datatype Selector = Selector(scheme: Scheme, scores: seq<real>, fitted: bool)

  predicate Valid(s: Selector)
  {
    OperatorSelectionScheme.Valid(s.scheme) && ValidScores(s.scores)
  }

  /** The constructor: the base checks, then the scores. */
  function New(scores: seq<real>, numDestroy: int, numRepair: int, arg: CouplingArg)
    : (r: Result<Selector, SelectionError>)
    ensures r.Ok? <==> OperatorSelectionScheme.New(numDestroy, numRepair, arg).Ok? && ValidScores(scores)
    ensures OperatorSelectionScheme.New(numDestroy, numRepair, arg).Ok? && r.Err? ==>
      r.error == NegativeScores || r.error == TooFewScores(|scores|)
    ensures r.Ok? ==> Valid(r.value) && !r.value.fitted
  {
    var scheme :- OperatorSelectionScheme.New(numDestroy, numRepair, arg);
    var _ :- CheckScores(scores);
    Ok(Selector(scheme, scores, false))
  }

  /** A valid scheme has at least one coupled pair. */
  lemma SomePair(s: Selector)
    requires Valid(s)
    ensures |CoupledPairs(s.scheme.coupling)| > 0
  {
    var r :| 0 <= r < |s.scheme.coupling[0]| && s.scheme.coupling[0][r];
    assert (0, r) in CoupledPairs(s.scheme.coupling);
  }

  /** `__call__` before the first observation: the coupled pair at position
      `draw` of the row-major list. */
  function ColdStart(s: Selector, draw: nat): (p: (nat, nat))
    requires Valid(s) && draw < |CoupledPairs(s.scheme.coupling)|
    ensures p.0 < s.scheme.numDestroy && p.1 < s.scheme.numRepair
    ensures s.scheme.coupling[p.0][p.1]
  {
    CoupledPairs(s.scheme.coupling)[draw]
  }

  /** `update`: the observation handed to the bandit, the arm of the pair
      and the outcome's score. */
  function Update(s: Selector, d: nat, r: nat, o: Outcome): (res: (Selector, (string, real)))
    requires Valid(s)
    ensures Valid(res.0) && res.0.fitted && res.0.scheme == s.scheme && res.0.scores == s.scores
    ensures Arm2Ops(res.1.0) == Ok((d, r))
    ensures res.1.1 == s.scores[Index(o)] && res.1.1 >= 0.0
  {
    ArmRoundTrip(d, r);
    (s.(fitted := true), (Ops2Arm(d, r), s.scores[Index(o)]))
  }
}
