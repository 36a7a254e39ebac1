/** The base of the operator selection schemes
    (alns/select/OperatorSelectionScheme.py): the number of destroy and
    repair operators and the boolean coupling matrix saying which pairs may
    be used together, with its coercion and validation. The errors of every
    selection scheme are gathered here. */
module OperatorSelectionScheme {
  import opened Wrappers

  /** Why a selection scheme could not be built or could not select. */
  datatype SelectionError =
    | NegativeDimensions                   // numpy refuses a negative shape for the default coupling
    | MissingOperators                     // "Missing destroy or repair operators."
    | CouplingShape(rows: nat, cols: nat)  // "Coupling matrix of shape (rows, cols), expected (...)."
    | UncoupledDestroy(d: nat)             // "Destroy op. d has no coupled repair operators."
    | NegativeScores                       // "Negative scores are not understood."
    | TooFewScores(count: nat)             // "Expected four scores, found count"
    | DecayOutOfRange                      // "decay outside [0, 1] not understood."
    | SegLengthTooSmall                    // "seg_length < 1 not understood."
    | AlphaOutOfRange                      // "Alpha ... outside [0, 1] not understood."
    | NonPositiveOperators                 // "Number of destroy or repair operators is non-positive."
    | EmptyChoice                          // numpy: a choice among no items
    | NoProbabilityMass                    // numpy: zero total weight makes the probabilities NaN

  /** The `op_coupling` argument as the caller may pass it: absent, or an
      array of dimension zero, one or two. */
  datatype CouplingArg = NoCoupling | Scalar(b: bool) | Vector(v: seq<bool>) | Matrix(m: seq<seq<bool>>)

  datatype Scheme = Scheme(numDestroy: nat, numRepair: nat, coupling: seq<seq<bool>>)

  /** `np.atleast_2d`: a scalar becomes a 1×1 matrix and a vector one row. */
  function AtLeast2d(arg: CouplingArg): (r: seq<seq<bool>>)
    requires !arg.NoCoupling?
    ensures arg.Scalar? ==> r == [[arg.b]]
    ensures arg.Vector? ==> r == [arg.v]
    ensures arg.Matrix? ==> r == arg.m
  {
    match arg
    case Scalar(b) => [[b]]
    case Vector(v) => [v]
    case Matrix(m) => m
  }

  /** An all-true matrix. */
  function Ones(rows: nat, cols: nat): (r: seq<seq<bool>>)
    ensures |r| == rows
    ensures forall i :: 0 <= i < rows ==> |r[i]| == cols
    ensures forall i, j :: 0 <= i < rows && 0 <= j < cols ==> r[i][j]
  {
    seq(rows, _ => seq(cols, _ => true))
  }

  /** The matrix has exactly the given shape. A ragged matrix has no shape
      in numpy and is refused with the shape error too. */
  predicate HasShape(m: seq<seq<bool>>, rows: nat, cols: nat)
  {
    |m| == rows && forall i :: 0 <= i < |m| ==> |m[i]| == cols
  }

  predicate Coupled(row: seq<bool>)
  {
    exists j :: 0 <= j < |row| && row[j]
  }

  /** The first destroy operator coupled with no repair operator. */
  function FirstUncoupled(m: seq<seq<bool>>): (r: Option<nat>)
    ensures r.None? <==> forall i :: 0 <= i < |m| ==> Coupled(m[i])
    ensures r.Some? ==> r.value < |m| && !Coupled(m[r.value])
    ensures r.Some? ==> forall i :: 0 <= i < r.value ==> Coupled(m[i])
  {
    if |m| == 0 then None
    else if !Coupled(m[0]) then Some(0)
    else
      var rest := FirstUncoupled(m[1..]);
      assert forall i :: 1 <= i < |m| ==> m[1..][i - 1] == m[i];
      if rest.None? then None else Some(rest.value + 1)
  }

  /** What the constructor establishes: positive counts, a coupling of the
      right shape, and at least one repair operator for every destroy one. */
  predicate Valid(s: Scheme)
  {
    && s.numDestroy > 0 && s.numRepair > 0
    && HasShape(s.coupling, s.numDestroy, s.numRepair)
    && forall d :: 0 <= d < s.numDestroy ==> Coupled(s.coupling[d])
  }

  /** The shape numpy reports for a matrix: its row count and the length of
      its first row. */
  function ShapeOf(m: seq<seq<bool>>): (nat, nat)
  {
    (|m|, if |m| == 0 then 0 else |m[0]|)
  }

  /** `_validate_arguments`: missing operators, then a coupling of the
      wrong shape, then the first destroy operator coupled with no repair
      operator. */
  function Validate(numDestroy: int, numRepair: int, m: seq<seq<bool>>): (r: Result<Scheme, SelectionError>)
    ensures r.Ok? <==>
      && numDestroy > 0 && numRepair > 0 && HasShape(m, numDestroy, numRepair)
      && forall d :: 0 <= d < |m| ==> Coupled(m[d])
    ensures (numDestroy <= 0 || numRepair <= 0) ==> r == Err(MissingOperators)
    ensures numDestroy > 0 && numRepair > 0 && !HasShape(m, numDestroy, numRepair) ==>
      r == Err(CouplingShape(ShapeOf(m).0, ShapeOf(m).1))
    ensures numDestroy > 0 && numRepair > 0 && HasShape(m, numDestroy, numRepair) && r.Err? ==>
      && r.error.UncoupledDestroy? && r.error.d < |m| && !Coupled(m[r.error.d])
      && forall d :: 0 <= d < r.error.d ==> Coupled(m[d])
    ensures r.Ok? ==> Valid(r.value) && r.value == Scheme(numDestroy, numRepair, m)
  {
    if numDestroy <= 0 || numRepair <= 0 then Err(MissingOperators)
    else if !HasShape(m, numDestroy, numRepair) then Err(CouplingShape(ShapeOf(m).0, ShapeOf(m).1))
    else
      var u := FirstUncoupled(m);
      if u.Some? then Err(UncoupledDestroy(u.value))
      else Ok(Scheme(numDestroy, numRepair, m))
  }

  /** The constructor: coerce or default the coupling, then validate. */
  function New(numDestroy: int, numRepair: int, arg: CouplingArg): (r: Result<Scheme, SelectionError>)
    ensures arg.NoCoupling? && (numDestroy < 0 || numRepair < 0) ==> r == Err(NegativeDimensions)
    ensures arg.NoCoupling? && numDestroy >= 0 && numRepair >= 0 ==>
      r == Validate(numDestroy, numRepair, Ones(numDestroy, numRepair))
    ensures !arg.NoCoupling? ==> r == Validate(numDestroy, numRepair, AtLeast2d(arg))
    ensures r.Ok? ==> Valid(r.value) && r.value.numDestroy == numDestroy && r.value.numRepair == numRepair
  {
    if arg.NoCoupling? then
      if numDestroy < 0 || numRepair < 0 then Err(NegativeDimensions)
      else Validate(numDestroy, numRepair, Ones(numDestroy, numRepair))
    else Validate(numDestroy, numRepair, AtLeast2d(arg))
  }

  predicate ValidScores(scores: seq<real>)
  {
    |scores| >= 4 && forall i :: 0 <= i < |scores| ==> scores[i] >= 0.0
  }

  /** The score checks the schemes share: no negative score, and at least
      four of them (one per outcome; more are allowed and ignored). */
  function CheckScores(scores: seq<real>): (r: Result<(), SelectionError>)
    ensures r.Ok? <==> ValidScores(scores)
    ensures (exists i :: 0 <= i < |scores| && scores[i] < 0.0) ==> r == Err(NegativeScores)
    ensures (forall i :: 0 <= i < |scores| ==> scores[i] >= 0.0) && |scores| < 4 ==>
      r == Err(TooFewScores(|scores|))
  {
    if exists i :: 0 <= i < |scores| && scores[i] < 0.0 then Err(NegativeScores)
    else if |scores| < 4 then Err(TooFewScores(|scores|))
    else Ok(())
  }

  /** Without a coupling every pair is allowed, and the scheme is valid
      exactly when both counts are positive. */
  lemma DefaultCouplesEverything(numDestroy: int, numRepair: int)
    ensures New(numDestroy, numRepair, NoCoupling).Ok? <==> numDestroy > 0 && numRepair > 0
    ensures New(numDestroy, numRepair, NoCoupling).Ok? ==>
      forall d, r :: 0 <= d < numDestroy && 0 <= r < numRepair ==>
        New(numDestroy, numRepair, NoCoupling).value.coupling[d][r]
  {
    if numDestroy > 0 && numRepair > 0 {
      var m := Ones(numDestroy, numRepair);
      forall d | 0 <= d < |m|
        ensures Coupled(m[d])
      {
        assert m[d][0];
      }
    }
  }

  /** A one-dimensional coupling is a single row: it is accepted for one
      destroy operator with as many repair operators as it has entries, when
      one entry is true. */
  lemma VectorIsOneRow(v: seq<bool>)
    requires |v| > 0 && Coupled(v)
    ensures New(1, |v|, Vector(v)) == Ok(Scheme(1, |v|, [v]))
    ensures New(2, |v|, Vector(v)) == Err(CouplingShape(1, |v|))
  {
  }

  /** An all-false repair column is allowed, an all-false destroy row is
      not. */
  lemma RowsNeedACoupling()
    ensures New(2, 2, Matrix([[true, false], [true, false]])).Ok?
    ensures New(2, 2, Matrix([[true, true], [false, false]])) == Err(UncoupledDestroy(1))
  {
    var a := [true, false];
    assert a[0];
    var b := [true, true];
    assert b[0];
    var z := [false, false];
    assert !Coupled(z) by {
      forall j | 0 <= j < |z| ensures !z[j] { }
    }
    var m := [b, z];
    assert m[1..] == [z];
  }
}
