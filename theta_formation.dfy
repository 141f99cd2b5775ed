/**
  The older solver, `find_routing_matrix`. Its loop differs from the
  gradient-descent one in three ways:

  - each iteration keeps the residual `delta` and the component-wise
    squared error `error[i] = delta[i]^2` instead of appending a scalar
    error to a list;
  - after the masked subtraction it normalises the rows, applies the
    negative shift, then normalises the rows again;
  - after the loop it reads `delta` and `error`, which are unbound when
    the loop never ran, so a run without any iteration fails.

  It returns theta and the out_omega of the last iteration.
*/
module ThetaFormation {
  import opened Matrices
  import opened Steps
  import opened InitialTheta
  import opened GradientDescent

  /** The component-wise squares of a vector. */
  function Squares(d: seq<real>): (e: seq<real>)
    ensures |e| == |d|
  {
    seq(|d|, i requires 0 <= i < |d| => d[i] * d[i])
  }

  /**
    The squared-error vector agrees with the gradient-descent error: its
    entries are non-negative and sum to `sum(delta_i^2)`.
  */
  lemma {:induction false} SquaresSum(d: seq<real>)
    ensures forall i :: 0 <= i < |d| ==> Squares(d)[i] >= 0.0
    ensures Sum(Squares(d)) == SumSquares(d)
  {
    if |d| > 0 {
      var p := d[..|d| - 1];
      SquaresSum(p);
      var q := Squares(d)[..|d| - 1];
      forall k | 0 <= k < |p|
        ensures q[k] == Squares(p)[k]
      {
        assert q[k] == Squares(d)[k] == d[k] * d[k];
        assert p[k] == d[k];
      }
      assert q == Squares(p);
      var x := d[|d| - 1];
      assert x * x >= 0.0;
    }
  }

  /** Lines 62-66: fills `delta` and `error` component by component. */
  method ResidualAndError(outOmega: seq<real>, omega: seq<real>) returns (delta: seq<real>, error: seq<real>)
    requires |outOmega| == |omega|
    ensures delta == Residual(outOmega, omega)
    ensures error == Squares(delta)
  {
    var n := |omega|;
    var d := new real[n](i => 0.0);
    var e := new real[n](i => 0.0);
    var i := 0;
    while i < n
      invariant 0 <= i <= n
      invariant forall k :: 0 <= k < i ==> d[k] == outOmega[k] - omega[k] && e[k] == d[k] * d[k]
    {
      d[i] := outOmega[i] - omega[i];
      e[i] := d[i] * d[i];
      i := i + 1;
    }
    delta, error := d[..], e[..];
    assert forall k :: 0 <= k < n ==> delta[k] == Residual(outOmega, omega)[k];
    assert forall k :: 0 <= k < n ==> error[k] == Squares(delta)[k];
  }

  /** theta after the masked subtraction of omega x delta. */
  function Subtracted(t: Matrix, omega: seq<real>, fixed: set<(int, int)>): (r: Matrix)
    requires IsMatrix(t, |omega|, |omega|)
    ensures IsMatrix(r, |omega|, |omega|)
  {
    MatSub(t, WeightDeltas(omega, Delta(t, omega), fixed), |omega|, |omega|)
  }

  /**
    The second normalisation can always divide: the first one makes every
    row sum to 1 and the shift lowers no cell, so every row sums to at
    least 1 before it.
  */
  lemma ShiftedRowsAtLeastOne(t1: Matrix, fixed: set<(int, int)>, n: nat)
    requires n > 0 && IsMatrix(t1, n, n) && RowSumsNonZero(t1)
    ensures forall i :: 0 <= i < n ==> Sum(Shifted(Normalized(t1), fixed, n)[i]) >= 1.0
    ensures RowSumsNonZero(Shifted(Normalized(t1), fixed, n))
  {
    var h := Normalized(t1);
    var t2 := Shifted(h, fixed, n);
    NormalizedRowsSumToOne(t1);
    ShiftedFacts(h, fixed, n);
    forall i | 0 <= i < n
      ensures Sum(t2[i]) >= 1.0
    {
      SumMonotone(t2[i], h[i]);
    }
  }

  /**
    One iteration's update of theta (lines 68-93): the masked subtraction,
    a normalisation, the shift and a second normalisation; None when a row
    to be normalised sums to 0. FormStepOnlyFirstFails shows that only the
    first normalisation can meet one.
  */
  function FormStep(t: Matrix, omega: seq<real>, fixed: set<(int, int)>): (r: Option<Matrix>)
    requires |omega| > 0 && IsMatrix(t, |omega|, |omega|)
    ensures r.Some? ==> IsMatrix(r.value, |omega|, |omega|)
  {
    var n := |omega|;
    var t1 := Subtracted(t, omega, fixed);
    if RowSumsNonZero(t1) then
      var t2 := Shifted(Normalized(t1), fixed, n);
      if RowSumsNonZero(t2) then Some(Normalized(t2)) else None
    else
      None
  }

  /** The masked subtraction leaves every fixed cell as it was. */
  lemma SubtractedKeepsFixed(t: Matrix, omega: seq<real>, fixed: set<(int, int)>)
    requires IsMatrix(t, |omega|, |omega|)
    ensures var t1 := Subtracted(t, omega, fixed);
      forall i, j :: 0 <= i < |omega| && 0 <= j < |omega| && (i, j) in fixed ==> t1[i][j] == t[i][j]
  {
  }

  /**
    Only the first normalisation of an iteration can meet a row summing
    to 0: the iteration fails exactly when the subtraction leaves one.
  */
  lemma FormStepOnlyFirstFails(t: Matrix, omega: seq<real>, fixed: set<(int, int)>)
    requires |omega| > 0 && IsMatrix(t, |omega|, |omega|)
    ensures FormStep(t, omega, fixed).Some? <==> RowSumsNonZero(Subtracted(t, omega, fixed))
  {
    var t1 := Subtracted(t, omega, fixed);
    if RowSumsNonZero(t1) {
      ShiftedRowsAtLeastOne(t1, fixed, |omega|);
    }
  }

  /** Normalise, shift, normalise: every row ends summing to 1. */
  lemma RenormalizedRowsSumToOne(t1: Matrix, fixed: set<(int, int)>, n: nat)
    requires n > 0 && IsMatrix(t1, n, n) && RowSumsNonZero(t1)
    ensures RowSumsNonZero(Shifted(Normalized(t1), fixed, n))
    ensures RowsSumToOne(Normalized(Shifted(Normalized(t1), fixed, n)))
  {
    ShiftedRowsAtLeastOne(t1, fixed, n);
    NormalizedRowsSumToOne(Shifted(Normalized(t1), fixed, n));
  }

  /** Normalise, shift, normalise: a fixed zero stays zero. */
  lemma RenormalizedKeepsZeros(t1: Matrix, fixed: set<(int, int)>, n: nat)
    requires n > 0 && IsMatrix(t1, n, n) && RowSumsNonZero(t1)
    ensures RowSumsNonZero(Shifted(Normalized(t1), fixed, n))
    ensures ZerosKept(t1, Normalized(Shifted(Normalized(t1), fixed, n)), fixed, n)
  {
    var h := Normalized(t1);
    var t2 := Shifted(h, fixed, n);
    ShiftedRowsAtLeastOne(t1, fixed, n);
    NormalizedKeeps(t1);
    ShiftedFacts(h, fixed, n);
    assert forall i, j :: 0 <= i < n && 0 <= j < n && (i, j) in fixed && t1[i][j] == 0.0 ==> t2[i][j] == 0.0;
    NormalizedKeeps(t2);
  }

  /** Normalise, shift, normalise: a fully fixed row that sums to 1 is unchanged. */
  lemma RenormalizedKeepsRows(t1: Matrix, fixed: set<(int, int)>, n: nat)
    requires n > 0 && IsMatrix(t1, n, n) && RowSumsNonZero(t1)
    ensures RowSumsNonZero(Shifted(Normalized(t1), fixed, n))
    ensures FixedRowsKept(t1, Normalized(Shifted(Normalized(t1), fixed, n)), fixed, n)
  {
    var h := Normalized(t1);
    var t2 := Shifted(h, fixed, n);
    ShiftedRowsAtLeastOne(t1, fixed, n);
    forall i | 0 <= i < n && RowFixed(fixed, i, n) && Sum(t1[i]) == 1.0
      ensures Normalized(t2)[i] == t1[i]
    {
      NormalizedUnitRow(t1, i);
      ShiftedFixedRow(h, fixed, n, i);
      NormalizedUnitRow(t2, i);
    }
  }

  /**
    Normalise, shift, normalise: when the fixed cells are non-negative and
    every row sums to a positive value, the fixed cells stay non-negative
    and the result is row-stochastic.
  */
  lemma RenormalizedStochastic(t1: Matrix, fixed: set<(int, int)>, n: nat)
    requires n > 0 && IsMatrix(t1, n, n) && FixedNonNegative(t1, fixed, n)
    requires forall i :: 0 <= i < n ==> Sum(t1[i]) > 0.0
    ensures RowSumsNonZero(Shifted(Normalized(t1), fixed, n))
    ensures var r := Normalized(Shifted(Normalized(t1), fixed, n));
      FixedNonNegative(r, fixed, n) && Stochastic(r)
  {
    var h := Normalized(t1);
    var t2 := Shifted(h, fixed, n);
    ShiftedRowsAtLeastOne(t1, fixed, n);
    forall i, j | 0 <= i < n && 0 <= j < n && (i, j) in fixed
      ensures h[i][j] >= 0.0
    {
      assert h[i][j] == t1[i][j] / Sum(t1[i]);
    }
    ShiftedFacts(h, fixed, n);
    NormalizedStochastic(t2);
  }

  /**
    One iteration keeps a fixed zero at zero, leaves unchanged a fully
    fixed row that sums to 1, and makes every row sum to 1. When in
    addition every row sums to a positive value after the subtraction and
    the fixed cells are non-negative, the fixed cells stay non-negative and
    the result is row-stochastic.
  */
  lemma FormStepFacts(t: Matrix, omega: seq<real>, fixed: set<(int, int)>)
    requires |omega| > 0 && IsMatrix(t, |omega|, |omega|)
    requires FormStep(t, omega, fixed).Some?
    ensures var r := FormStep(t, omega, fixed).value;
      RowsSumToOne(r) && ZerosKept(t, r, fixed, |omega|) && FixedRowsKept(t, r, fixed, |omega|)
    ensures var t1, r := Subtracted(t, omega, fixed), FormStep(t, omega, fixed).value;
      FixedNonNegative(t, fixed, |omega|) && (forall i :: 0 <= i < |omega| ==> Sum(t1[i]) > 0.0) ==>
        FixedNonNegative(r, fixed, |omega|) && Stochastic(r)
  {
    var n := |omega|;
    var t1 := Subtracted(t, omega, fixed);
    var r := Normalized(Shifted(Normalized(t1), fixed, n));
    assert FormStep(t, omega, fixed) == Some(r);
    SubtractedKeepsFixed(t, omega, fixed);
    RenormalizedRowsSumToOne(t1, fixed, n);
    RenormalizedKeepsZeros(t1, fixed, n);
    RenormalizedKeepsRows(t1, fixed, n);
    if FixedNonNegative(t, fixed, n) && (forall i :: 0 <= i < n ==> Sum(t1[i]) > 0.0) {
      RenormalizedStochastic(t1, fixed, n);
    }
    forall i | 0 <= i < n && RowFixed(fixed, i, n) && Sum(t[i]) == 1.0
      ensures r[i] == t[i]
    {
      assert forall j :: 0 <= j < n ==> t1[i][j] == t[i][j];
      assert t1[i] == t[i];
    }
  }

  /**
    At an exact fixed point nothing moves: when theta is row-stochastic and
    omega . theta == omega, the subtraction is zero, both normalisations
    divide by 1 and the shift does not fire.
  */
  lemma FormStepAtFixedPoint(t: Matrix, omega: seq<real>, fixed: set<(int, int)>)
    requires |omega| > 0 && IsMatrix(t, |omega|, |omega|) && Stochastic(t)
    requires VecMat(omega, t, |omega|) == omega
    ensures FormStep(t, omega, fixed) == Some(t)
  {
    SubtractionAtFixedPoint(t, omega, fixed);
    StochasticStable(t, fixed, |omega|);
  }

  /**
    What `find_routing_matrix` ends with: theta, out_omega, the last
    `delta` and `error`, the iteration count and how it ended.
  */
  datatype Formed = Formed(theta: Matrix, outOmega: seq<real>, delta: seq<real>, error: seq<real>,
                           it: nat, status: Status)

  /**
    The loop as a function, from theta `t` after `it` iterations with the
    out_omega, delta and error of the last one.
  */
  function FormFrom(t: Matrix, omega: seq<real>, fixed: set<(int, int)>, eps: real, maxIt: int,
                    outOmega: seq<real>, delta: seq<real>, error: seq<real>, it: nat): (r: Formed)
    requires IsMatrix(t, |omega|, |omega|) && |outOmega| == |omega|
    ensures IsMatrix(r.theta, |omega|, |omega|) && |r.outOmega| == |omega|
    decreases if it < maxIt then maxIt - it else 0
  {
    if Unconverged(outOmega, omega, eps) && it < maxIt then
      var out := VecMat(omega, t, |omega|);
      var d := Residual(out, omega);
      match FormStep(t, omega, fixed)
      case None => Formed(Subtracted(t, omega, fixed), out, d, Squares(d), it + 1, Failed(ZeroRowSum))
      case Some(next) => FormFrom(next, omega, fixed, eps, maxIt, out, d, Squares(d), it + 1)
    else
      Formed(t, outOmega, delta, error, it, Returned)
  }

  /**
    The whole solver: theta0 from the chosen strategy, its fixed cells,
    the loop, then the final report, whose read of `delta` fails when the
    loop never ran.
  */
  function FormSpec(policy: Policy, w: Matrix, omega: seq<real>, eps: real, maxIt: int): Formed
    requires IsMatrix(w, |omega|, |omega|) && InitialDefined(policy, w, omega)
  {
    var t0 := StartTheta(policy, w, omega);
    var r := FormFrom(t0, omega, FixedCells(t0, |omega|, |omega|), eps, maxIt, VecMat(omega, t0, |omega|), [], [], 0);
    if r.it == 0 then r.(status := Failed(UnboundDelta)) else r
  }

  /**
    Counting: the loop runs only while the residual is above eps and the
    budget lasts; it ends with the residual within eps or the budget spent
    unless a zero row sum stops it, which happens only in an iteration; a
    run that makes no iteration returns its input.
  */
  lemma {:induction false} FormCounts(t: Matrix, omega: seq<real>, fixed: set<(int, int)>, eps: real, maxIt: int,
                                      outOmega: seq<real>, delta: seq<real>, error: seq<real>, it: nat)
    requires IsMatrix(t, |omega|, |omega|) && |outOmega| == |omega|
    ensures var r := FormFrom(t, omega, fixed, eps, maxIt, outOmega, delta, error, it);
      r.it >= it && (r.it > it ==> r.it <= maxIt && Unconverged(outOmega, omega, eps) && it < maxIt) &&
      (r.status == Returned || (r.status == Failed(ZeroRowSum) && r.it > it)) &&
      (r.status == Returned ==> !Unconverged(r.outOmega, omega, eps) || r.it >= maxIt) &&
      (r.it == it ==> r == Formed(t, outOmega, delta, error, it, Returned))
    decreases if it < maxIt then maxIt - it else 0
  {
    if Unconverged(outOmega, omega, eps) && it < maxIt {
      var out := VecMat(omega, t, |omega|);
      var d := Residual(out, omega);
      match FormStep(t, omega, fixed)
      case None =>
      case Some(next) =>
        FormCounts(next, omega, fixed, eps, maxIt, out, d, Squares(d), it + 1);
    }
  }

  /**
    After at least one iteration the kept `delta` is out_omega - omega for
    the returned out_omega, and `error` holds its squares.
  */
  lemma {:induction false} FormLastDelta(t: Matrix, omega: seq<real>, fixed: set<(int, int)>, eps: real, maxIt: int,
                                         outOmega: seq<real>, delta: seq<real>, error: seq<real>, it: nat)
    requires IsMatrix(t, |omega|, |omega|) && |outOmega| == |omega|
    ensures var r := FormFrom(t, omega, fixed, eps, maxIt, outOmega, delta, error, it);
      r.it > it ==> r.delta == Residual(r.outOmega, omega) && r.error == Squares(r.delta)
    decreases if it < maxIt then maxIt - it else 0
  {
    var r := FormFrom(t, omega, fixed, eps, maxIt, outOmega, delta, error, it);
    if Unconverged(outOmega, omega, eps) && it < maxIt {
      var out := VecMat(omega, t, |omega|);
      var d := Residual(out, omega);
      match FormStep(t, omega, fixed)
      case None =>
        assert r == Formed(Subtracted(t, omega, fixed), out, d, Squares(d), it + 1, Failed(ZeroRowSum));
      case Some(next) =>
        assert r == FormFrom(next, omega, fixed, eps, maxIt, out, d, Squares(d), it + 1);
        FormLastDelta(next, omega, fixed, eps, maxIt, out, d, Squares(d), it + 1);
        FormCounts(next, omega, fixed, eps, maxIt, out, d, Squares(d), it + 1);
    }
  }

  /**
    What the loop does to theta on a normal return: every row sums to 1, a
    fixed zero is still zero, and a fully fixed row summing to 1 is
    unchanged.
  */
  lemma {:induction false} FormTheta(t: Matrix, omega: seq<real>, fixed: set<(int, int)>, eps: real, maxIt: int,
                                     outOmega: seq<real>, delta: seq<real>, error: seq<real>, it: nat)
    requires IsMatrix(t, |omega|, |omega|) && |outOmega| == |omega|
    ensures var r := FormFrom(t, omega, fixed, eps, maxIt, outOmega, delta, error, it);
      r.status == Returned ==>
        ZerosKept(t, r.theta, fixed, |omega|) && FixedRowsKept(t, r.theta, fixed, |omega|) &&
        (r.it > it ==> RowsSumToOne(r.theta))
    decreases if it < maxIt then maxIt - it else 0
  {
    var r := FormFrom(t, omega, fixed, eps, maxIt, outOmega, delta, error, it);
    if Unconverged(outOmega, omega, eps) && it < maxIt {
      var out := VecMat(omega, t, |omega|);
      var d := Residual(out, omega);
      match FormStep(t, omega, fixed)
      case None =>
      case Some(next) =>
        assert r == FormFrom(next, omega, fixed, eps, maxIt, out, d, Squares(d), it + 1);
        FormStepFacts(t, omega, fixed);
        FormTheta(next, omega, fixed, eps, maxIt, out, d, Squares(d), it + 1);
        FormCounts(next, omega, fixed, eps, maxIt, out, d, Squares(d), it + 1);
        if r.status == Returned {
          forall i | 0 <= i < |omega| && RowFixed(fixed, i, |omega|) && Sum(t[i]) == 1.0
            ensures r.theta[i] == t[i]
          {
            assert next[i] == t[i];
          }
        }
    }
  }

  /**
    The solver as a whole: it fails on the read of `delta` exactly when
    theta0 already meets the eps test or the budget is not positive; a
    normal return has run at most `max_it` iterations, ends with the
    residual within eps or the budget spent, keeps `delta` and `error` of
    the returned out_omega, and has a theta whose rows sum to 1 and whose
    zeros are those of theta0 and more.
  */
  lemma FindRoutingFacts(policy: Policy, w: Matrix, omega: seq<real>, eps: real, maxIt: int)
    requires IsMatrix(w, |omega|, |omega|) && InitialDefined(policy, w, omega)
    ensures var r, t0, n := FormSpec(policy, w, omega, eps, maxIt), StartTheta(policy, w, omega), |omega|;
      (r.status == Failed(UnboundDelta) <==> !Unconverged(VecMat(omega, t0, n), omega, eps) || maxIt <= 0) &&
      (r.status == Returned || r.status.Failed?) &&
      (r.status == Returned ==>
        0 < r.it <= maxIt && (!Unconverged(r.outOmega, omega, eps) || r.it == maxIt) &&
        r.delta == Residual(r.outOmega, omega) && r.error == Squares(r.delta) &&
        RowsSumToOne(r.theta) &&
        forall i, j :: 0 <= i < n && 0 <= j < n && t0[i][j] == 0.0 ==> r.theta[i][j] == 0.0)
  {
    var n := |omega|;
    var t0 := StartTheta(policy, w, omega);
    var fixed := FixedCells(t0, n, n);
    var out := VecMat(omega, t0, n);
    FormCounts(t0, omega, fixed, eps, maxIt, out, [], [], 0);
    FormLastDelta(t0, omega, fixed, eps, maxIt, out, [], [], 0);
    FormTheta(t0, omega, fixed, eps, maxIt, out, [], [], 0);
  }

  /**
    Steps 3 and 4 of one iteration on the array: returns out_omega, delta
    and error computed before the update, and whether no row summed to 0
    at the first normalisation.
  */
  method FormIteration(theta: array2<real>, omega: seq<real>, fixed: set<(int, int)>)
    returns (outOmega: seq<real>, delta: seq<real>, error: seq<real>, ok: bool)
    requires theta.Length0 == theta.Length1 == |omega| > 0
    modifies theta
    ensures outOmega == VecMat(omega, old(Snapshot(theta)), |omega|)
    ensures delta == Residual(outOmega, omega) && error == Squares(delta)
    ensures ok <==> FormStep(old(Snapshot(theta)), omega, fixed).Some?
    ensures ok ==> FormStep(old(Snapshot(theta)), omega, fixed) == Some(Snapshot(theta))
    ensures !ok ==> Snapshot(theta) == Subtracted(old(Snapshot(theta)), omega, fixed)
  {
    var n := |omega|;
    ghost var before := Snapshot(theta);
    outOmega := VecMat(omega, Snapshot(theta), n);
    delta, error := ResidualAndError(outOmega, omega);
    var wd := MaskedOuterProduct(omega, delta, fixed);
    // step 3
    SubtractInPlace(theta, wd);
    ghost var t1 := Snapshot(theta);
    assert t1 == Subtracted(before, omega, fixed);
    // step 4
    ok := RowSumsNonZero(Snapshot(theta));
    if ok {
      NormalizeRows(theta);
      NegativeShift(theta, fixed);
      ShiftedRowsAtLeastOne(t1, fixed, n);
      NormalizeRows(theta);
    }
  }

  /**
    The loop on the array: theta, out_omega, delta, error, the count and
    the status are those of FormFrom from the initial theta.
  */
  method Form(theta: array2<real>, omega: seq<real>, fixed: set<(int, int)>, eps: real, maxIt: int)
    returns (outOmega: seq<real>, delta: seq<real>, error: seq<real>, it: nat, status: Status)
    requires theta.Length0 == theta.Length1 == |omega|
    modifies theta
    ensures var t0 := old(Snapshot(theta));
      Formed(Snapshot(theta), outOmega, delta, error, it, status) ==
        FormFrom(t0, omega, fixed, eps, maxIt, VecMat(omega, t0, |omega|), [], [], 0)
  {
    var n := |omega|;
    ghost var goal := FormFrom(Snapshot(theta), omega, fixed, eps, maxIt, VecMat(omega, Snapshot(theta), n), [], [], 0);
    it := 0;
    delta, error := [], [];
    outOmega := VecMat(omega, Snapshot(theta), n);
    while Unconverged(outOmega, omega, eps) && it < maxIt
      invariant |outOmega| == n
      invariant FormFrom(Snapshot(theta), omega, fixed, eps, maxIt, outOmega, delta, error, it) == goal
      decreases if it < maxIt then maxIt - it else 0
    {
      var ok;
      it := it + 1;
      outOmega, delta, error, ok := FormIteration(theta, omega, fixed);
      if !ok {
        status := Failed(ZeroRowSum);
        return;
      }
    }
    status := Returned;
  }

  /**
    `find_routing_matrix`. The result is FormSpec, whose properties
    FindRoutingFacts states; the progress bar and the printing are left
    out.
  */
  /** The default budget of `find_routing_matrix`, `max_it = 10_000_000`; `eps` defaults to `10 ** (-10)`. */
  const FindRoutingDefaultMaxIt: int := 10000000

  method FindRoutingMatrix(omega: seq<real>, w: Matrix, policy: Policy,
                           eps: real := GradientDescent.DefaultEps, maxIt: int := FindRoutingDefaultMaxIt)
    returns (theta: array2<real>, outOmega: seq<real>, status: Status)
    requires IsMatrix(w, |omega|, |omega|) && InitialDefined(policy, w, omega)
    ensures fresh(theta) && theta.Length0 == theta.Length1 == |omega|
    ensures var r := FormSpec(policy, w, omega, eps, maxIt);
      Snapshot(theta) == r.theta && outOmega == r.outOmega && status == r.status
  {
    // step 1
    theta := GetInitialTheta(policy, w, omega);
    // step 2
    var fixed := ComputeFixed(theta);
    var delta, error, it;
    outOmega, delta, error, it, status := Form(theta, omega, fixed, eps, maxIt);
    // the final report reads `delta`, unbound when the loop never ran
    if it == 0 {
      status := Failed(UnboundDelta);
    }
  }

  /**
    The module's own copy of the uniform strategy, line for line the same
    as the one in `initial_theta.py`: `1 / deg(i)` where W holds a 1, 0
    elsewhere.
  */
  method GetUniformInitialTheta(w: Matrix, cols: nat, omega: seq<real>) returns (theta: array2<real>)
    requires IsMatrix(w, |w|, cols) && UniformDefined(w)
    ensures fresh(theta) && theta.Length0 == |w| && theta.Length1 == cols
    ensures forall i, j :: 0 <= i < |w| && 0 <= j < cols ==>
      theta[i, j] == if w[i][j] == 1.0 then 1.0 / Sum(w[i]) else 0.0
    ensures Snapshot(theta) == UniformTheta(w, cols)
  {
    theta := InitialTheta.GetUniformInitialTheta(w, cols, omega);
  }
}
