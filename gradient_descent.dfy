/**
  The gradient-descent solver. Starting from theta0 and its fixed cells, it
  repeats, while some component of omega . theta - omega exceeds eps and
  the budget is not spent:

  - compute out_omega = omega . theta, delta = out_omega - omega and the
    error sum(delta_i^2) / 2, appended to the error list;
  - subtract the outer product omega x delta, masked at the fixed cells;
  - apply the negative shift and normalise the rows.

  It returns theta, the out_omega of the last iteration (computed BEFORE
  that iteration's update), the error list and the iteration count.
*/
module GradientDescent {
  import opened Matrices
  import opened Steps
  import opened InitialTheta

  /** delta = omega . theta - omega. */
  function Delta(t: Matrix, omega: seq<real>): (d: seq<real>)
    requires IsMatrix(t, |omega|, |omega|)
    ensures |d| == |omega|
  {
    Residual(VecMat(omega, t, |omega|), omega)
  }

  /** The error recorded for an iteration on `t`: sum(delta_i^2) / 2. */
  function StepError(t: Matrix, omega: seq<real>): (e: real)
    requires IsMatrix(t, |omega|, |omega|)
    ensures e >= 0.0
  {
    SumSquares(Delta(t, omega)) / 2.0
  }

  /**
    One iteration's update of theta: the masked subtraction, the shift and
    the normalisation; None when a row to be normalised sums to 0.
  */
  function Step(t: Matrix, omega: seq<real>, fixed: set<(int, int)>): (r: Option<Matrix>)
    requires |omega| > 0 && IsMatrix(t, |omega|, |omega|)
    ensures r.Some? ==> IsMatrix(r.value, |omega|, |omega|)
  {
    var c := Corrected(t, omega, fixed);
    if RowSumsNonZero(c) then Some(Normalized(c)) else None
  }

  /** Every fixed cell that is 0 in `t0` is 0 in `r`. */
  predicate ZerosKept(t0: Matrix, r: Matrix, fixed: set<(int, int)>, n: nat)
    requires IsMatrix(t0, n, n) && IsMatrix(r, n, n)
  {
    forall i, j :: 0 <= i < n && 0 <= j < n && (i, j) in fixed && t0[i][j] == 0.0 ==> r[i][j] == 0.0
  }

  /** Every fully fixed row of `t0` that sums to 1 is the same row in `r`. */
  predicate FixedRowsKept(t0: Matrix, r: Matrix, fixed: set<(int, int)>, n: nat)
    requires IsMatrix(t0, n, n) && IsMatrix(r, n, n)
  {
    forall i :: 0 <= i < n && RowFixed(fixed, i, n) && Sum(t0[i]) == 1.0 ==> r[i] == t0[i]
  }

  /** The matrix after the subtraction and the shift, before normalisation. */
  function Corrected(t: Matrix, omega: seq<real>, fixed: set<(int, int)>): (r: Matrix)
    requires |omega| > 0 && IsMatrix(t, |omega|, |omega|)
    ensures IsMatrix(r, |omega|, |omega|)
  {
    var n := |omega|;
    Shifted(MatSub(t, WeightDeltas(omega, Delta(t, omega), fixed), n, n), fixed, n)
  }

  /** Subtraction and shift leave every fixed cell as it was and no entry negative. */
  lemma CorrectedFacts(t: Matrix, omega: seq<real>, fixed: set<(int, int)>)
    requires |omega| > 0 && IsMatrix(t, |omega|, |omega|)
    requires FixedNonNegative(t, fixed, |omega|)
    ensures var c := Corrected(t, omega, fixed);
      (forall i, j :: 0 <= i < |omega| && 0 <= j < |omega| && (i, j) in fixed ==> c[i][j] == t[i][j]) &&
      (forall i, j :: 0 <= i < |omega| && 0 <= j < |omega| ==> c[i][j] >= 0.0)
  {
    var n := |omega|;
    var t1 := MatSub(t, WeightDeltas(omega, Delta(t, omega), fixed), n, n);
    assert forall i, j :: 0 <= i < n && 0 <= j < n && (i, j) in fixed ==> t1[i][j] == t[i][j];
    ShiftedFacts(t1, fixed, n);
  }

  /**
    One iteration keeps the fixed cells non-negative, yields a row-stochastic
    matrix, keeps a fixed zero at zero, and leaves unchanged a fully fixed
    row that sums to 1.
  */
  lemma StepFacts(t: Matrix, omega: seq<real>, fixed: set<(int, int)>)
    requires |omega| > 0 && IsMatrix(t, |omega|, |omega|)
    requires FixedNonNegative(t, fixed, |omega|)
    requires Step(t, omega, fixed).Some?
    ensures var r := Step(t, omega, fixed).value;
      Stochastic(r) && FixedNonNegative(r, fixed, |omega|) &&
      ZerosKept(t, r, fixed, |omega|) && FixedRowsKept(t, r, fixed, |omega|)
  {
    var n := |omega|;
    var c := Corrected(t, omega, fixed);
    assert Step(t, omega, fixed) == Some(Normalized(c));
    CorrectedFacts(t, omega, fixed);
    NormalizedStochastic(c);
    NormalizedKeeps(c);
    forall i | 0 <= i < n && RowFixed(fixed, i, n) && Sum(t[i]) == 1.0
      ensures c[i] == t[i]
    {
      assert forall j :: 0 <= j < n ==> c[i][j] == t[i][j];
    }
  }

  /** When omega . theta == omega, delta is zero and the subtraction leaves theta as it is. */
  lemma SubtractionAtFixedPoint(t: Matrix, omega: seq<real>, fixed: set<(int, int)>)
    requires IsMatrix(t, |omega|, |omega|) && VecMat(omega, t, |omega|) == omega
    ensures MatSub(t, WeightDeltas(omega, Delta(t, omega), fixed), |omega|, |omega|) == t
  {
    var n := |omega|;
    var d := Delta(t, omega);
    assert forall k :: 0 <= k < n ==> d[k] == 0.0;
    var t1 := MatSub(t, WeightDeltas(omega, d, fixed), n, n);
    forall i | 0 <= i < n
      ensures t1[i] == t[i]
    {
      assert forall j :: 0 <= j < n ==> t1[i][j] == t[i][j];
    }
  }

  /**
    At an exact fixed point nothing moves: when theta is row-stochastic and
    omega . theta == omega, the subtraction is zero, the shift does not fire
    and the normalisation divides by 1.
  */
  lemma StepAtFixedPoint(t: Matrix, omega: seq<real>, fixed: set<(int, int)>)
    requires |omega| > 0 && IsMatrix(t, |omega|, |omega|) && Stochastic(t)
    requires VecMat(omega, t, |omega|) == omega
    ensures Step(t, omega, fixed) == Some(t)
  {
    SubtractionAtFixedPoint(t, omega, fixed);
    StochasticStable(t, fixed, |omega|);
  }

  /**
    Steps 3 to 5 of one iteration on the array: returns out_omega and the
    error computed before the update, and whether no row summed to 0.
  */
  method Iteration(theta: array2<real>, omega: seq<real>, fixed: set<(int, int)>)
    returns (outOmega: seq<real>, error: real, ok: bool)
    requires theta.Length0 == theta.Length1 == |omega| > 0
    modifies theta
    ensures outOmega == VecMat(omega, old(Snapshot(theta)), |omega|)
    ensures error == StepError(old(Snapshot(theta)), omega)
    ensures ok <==> Step(old(Snapshot(theta)), omega, fixed).Some?
    ensures ok ==> Step(old(Snapshot(theta)), omega, fixed) == Some(Snapshot(theta))
    ensures !ok ==> Snapshot(theta) == Corrected(old(Snapshot(theta)), omega, fixed)
  {
    var n := |omega|;
    ghost var before := Snapshot(theta);
    // step 3
    outOmega := VecMat(omega, Snapshot(theta), n);
    var delta := Residual(outOmega, omega);
    error := SumSquares(delta) / 2.0;
    var wd := MaskedOuterProduct(omega, delta, fixed);
    // step 4
    SubtractInPlace(theta, wd);
    // step 5
    NegativeShift(theta, fixed);
    assert Snapshot(theta) == Corrected(before, omega, fixed);
    ok := RowSumsNonZero(Snapshot(theta));
    if ok {
      NormalizeRows(theta);
    }
  }

  /** What the solver returns: theta, out_omega, the error list, the count and how it ended. */
  datatype Outcome = Outcome(theta: Matrix, outOmega: seq<real>, errors: seq<real>, it: nat, status: Status)

  /**
    The solver's loop as a function: from theta `t`, with the out_omega and
    the errors recorded so far after `it` iterations. The condition reads
    the out_omega of the previous iteration; each iteration records
    out_omega and the error of the theta it starts from, then updates
    theta. When a row to be normalised sums to 0 the run stops with the
    array holding the shifted, unnormalised matrix.
  */
  function DescendFrom(t: Matrix, omega: seq<real>, fixed: set<(int, int)>, eps: real, maxIt: int,
                       outOmega: seq<real>, errors: seq<real>, it: nat): (r: Outcome)
    requires IsMatrix(t, |omega|, |omega|) && |outOmega| == |omega|
    ensures IsMatrix(r.theta, |omega|, |omega|) && |r.outOmega| == |omega|
    decreases if it < maxIt then maxIt - it else 0
  {
    if Unconverged(outOmega, omega, eps) && it < maxIt then
      var out := VecMat(omega, t, |omega|);
      var errs := errors + [StepError(t, omega)];
      match Step(t, omega, fixed)
      case None => Outcome(Corrected(t, omega, fixed), out, errs, it + 1, Failed(ZeroRowSum))
      case Some(next) => DescendFrom(next, omega, fixed, eps, maxIt, out, errs, it + 1)
    else
      Outcome(t, outOmega, errors, it, Returned)
  }

  /** The whole solver: theta0 from the chosen strategy, its fixed cells, then the loop. */
  function SolveSpec(policy: Policy, w: Matrix, omega: seq<real>, eps: real, maxIt: int): Outcome
    requires IsMatrix(w, |omega|, |omega|) && InitialDefined(policy, w, omega)
  {
    var t0 := StartTheta(policy, w, omega);
    DescendFrom(t0, omega, FixedCells(t0, |omega|, |omega|), eps, maxIt, VecMat(omega, t0, |omega|), [], 0)
  }

  /**
    Counting: the loop runs only while the budget lasts and records one
    error per iteration; it fails only on a zero row sum and only after an
    iteration; when it returns normally the residual is within eps or the
    budget is spent; a run that makes no iteration returns its input.
  */
  lemma {:induction false} DescendCounts(t: Matrix, omega: seq<real>, fixed: set<(int, int)>, eps: real,
                                         maxIt: int, outOmega: seq<real>, errors: seq<real>, it: nat)
    requires IsMatrix(t, |omega|, |omega|) && |outOmega| == |omega|
    ensures var r := DescendFrom(t, omega, fixed, eps, maxIt, outOmega, errors, it);
      r.it >= it && (r.it > it ==> r.it <= maxIt) &&
      |r.errors| == |errors| + (r.it - it) &&
      (r.it > it ==> Unconverged(outOmega, omega, eps) && it < maxIt) &&
      (r.status == Returned || (r.status == Failed(ZeroRowSum) && r.it > it)) &&
      (r.status == Returned ==> !Unconverged(r.outOmega, omega, eps) || r.it >= maxIt) &&
      (r.it == it ==> r == Outcome(t, outOmega, errors, it, Returned))
    decreases if it < maxIt then maxIt - it else 0
  {
    if Unconverged(outOmega, omega, eps) && it < maxIt {
      var out := VecMat(omega, t, |omega|);
      var errs := errors + [StepError(t, omega)];
      match Step(t, omega, fixed)
      case None =>
      case Some(next) =>
        DescendCounts(next, omega, fixed, eps, maxIt, out, errs, it + 1);
    }
  }

  /** The errors given to the loop are kept as a prefix of those it returns. */
  lemma {:induction false} DescendKeepsPrefix(t: Matrix, omega: seq<real>, fixed: set<(int, int)>, eps: real,
                                              maxIt: int, outOmega: seq<real>, errors: seq<real>, it: nat)
    requires IsMatrix(t, |omega|, |omega|) && |outOmega| == |omega|
    ensures var r := DescendFrom(t, omega, fixed, eps, maxIt, outOmega, errors, it);
      |r.errors| >= |errors| && r.errors[..|errors|] == errors
    decreases if it < maxIt then maxIt - it else 0
  {
    if Unconverged(outOmega, omega, eps) && it < maxIt {
      var out := VecMat(omega, t, |omega|);
      var errs := errors + [StepError(t, omega)];
      match Step(t, omega, fixed)
      case None =>
      case Some(next) =>
        DescendKeepsPrefix(next, omega, fixed, eps, maxIt, out, errs, it + 1);
        var r := DescendFrom(next, omega, fixed, eps, maxIt, out, errs, it + 1);
        assert r.errors[..|errors|] == r.errors[..|errs|][..|errors|];
    }
  }

  /** The first error the loop adds is that of the theta it starts from. */
  lemma DescendFirstError(t: Matrix, omega: seq<real>, fixed: set<(int, int)>, eps: real,
                                              maxIt: int, outOmega: seq<real>, errors: seq<real>, it: nat)
    requires IsMatrix(t, |omega|, |omega|) && |outOmega| == |omega|
    ensures var r := DescendFrom(t, omega, fixed, eps, maxIt, outOmega, errors, it);
      |r.errors| > |errors| ==> r.errors[|errors|] == StepError(t, omega)
  {
    if Unconverged(outOmega, omega, eps) && it < maxIt {
      var out := VecMat(omega, t, |omega|);
      var errs := errors + [StepError(t, omega)];
      match Step(t, omega, fixed)
      case None =>
        assert DescendFrom(t, omega, fixed, eps, maxIt, outOmega, errors, it).errors == errs;
      case Some(next) =>
        DescendKeepsPrefix(next, omega, fixed, eps, maxIt, out, errs, it + 1);
        var r := DescendFrom(next, omega, fixed, eps, maxIt, out, errs, it + 1);
        assert DescendFrom(t, omega, fixed, eps, maxIt, outOmega, errors, it) == r;
        assert r.errors[|errors|] == errs[|errors|];
    }
  }

  /**
    What the loop does to theta: the fixed cells stay non-negative, a fixed
    zero stays zero, a fully fixed row summing to 1 is never changed, and
    after at least one iteration a normally returned theta is row-stochastic.
  */
  lemma {:induction false} DescendTheta(t: Matrix, omega: seq<real>, fixed: set<(int, int)>, eps: real,
                                        maxIt: int, outOmega: seq<real>, errors: seq<real>, it: nat)
    requires IsMatrix(t, |omega|, |omega|) && |outOmega| == |omega|
    requires FixedNonNegative(t, fixed, |omega|)
    ensures var r := DescendFrom(t, omega, fixed, eps, maxIt, outOmega, errors, it);
      r.status == Returned ==>
        FixedNonNegative(r.theta, fixed, |omega|) &&
        ZerosKept(t, r.theta, fixed, |omega|) && FixedRowsKept(t, r.theta, fixed, |omega|) &&
        (r.it > it ==> Stochastic(r.theta))
    decreases if it < maxIt then maxIt - it else 0
  {
    if Unconverged(outOmega, omega, eps) && it < maxIt {
      var out := VecMat(omega, t, |omega|);
      var errs := errors + [StepError(t, omega)];
      match Step(t, omega, fixed)
      case None =>
      case Some(next) =>
        StepFacts(t, omega, fixed);
        DescendTheta(next, omega, fixed, eps, maxIt, out, errs, it + 1);
        DescendCounts(next, omega, fixed, eps, maxIt, out, errs, it + 1);
        var r := DescendFrom(next, omega, fixed, eps, maxIt, out, errs, it + 1);
        if r.status == Returned {
          forall i | 0 <= i < |omega| && RowFixed(fixed, i, |omega|) && Sum(t[i]) == 1.0
            ensures r.theta[i] == t[i]
          {
            assert next[i] == t[i];
          }
        }
    }
  }

  /** Every error the loop records is non-negative. */
  lemma {:induction false} DescendErrorsNonNegative(t: Matrix, omega: seq<real>, fixed: set<(int, int)>, eps: real,
                                              maxIt: int, outOmega: seq<real>, errors: seq<real>, it: nat)
    requires IsMatrix(t, |omega|, |omega|) && |outOmega| == |omega|
    requires forall k :: 0 <= k < |errors| ==> errors[k] >= 0.0
    ensures var r := DescendFrom(t, omega, fixed, eps, maxIt, outOmega, errors, it);
      forall k :: 0 <= k < |r.errors| ==> r.errors[k] >= 0.0
    decreases if it < maxIt then maxIt - it else 0
  {
    if Unconverged(outOmega, omega, eps) && it < maxIt {
      var out := VecMat(omega, t, |omega|);
      var errs := errors + [StepError(t, omega)];
      assert forall k :: 0 <= k < |errs| ==> errs[k] >= 0.0;
      match Step(t, omega, fixed)
      case None =>
        assert DescendFrom(t, omega, fixed, eps, maxIt, outOmega, errors, it).errors == errs;
      case Some(next) =>
        DescendErrorsNonNegative(next, omega, fixed, eps, maxIt, out, errs, it + 1);
        assert DescendFrom(t, omega, fixed, eps, maxIt, outOmega, errors, it) ==
          DescendFrom(next, omega, fixed, eps, maxIt, out, errs, it + 1);
    }
  }

  /**
    The last iteration: when the loop runs once more from `t` and stops
    after it (a zero row sum, the residual of `t` within eps, or the budget
    spent), the returned out_omega is omega . t, that of the theta the
    iteration started from, not that of the theta it returns.
  */
  lemma DescendLastIteration(t: Matrix, omega: seq<real>, fixed: set<(int, int)>,
                             eps: real, maxIt: int, outOmega: seq<real>, errors: seq<real>, it: nat)
    requires |omega| > 0 && IsMatrix(t, |omega|, |omega|) && |outOmega| == |omega|
    requires Unconverged(outOmega, omega, eps) && it < maxIt
    requires Step(t, omega, fixed).None? || !Unconverged(VecMat(omega, t, |omega|), omega, eps) || it + 1 >= maxIt
    ensures var r := DescendFrom(t, omega, fixed, eps, maxIt, outOmega, errors, it);
      r.it == it + 1 && r.outOmega == VecMat(omega, t, |omega|) && r.errors == errors + [StepError(t, omega)] &&
      (r.status == Returned ==> Step(t, omega, fixed) == Some(r.theta)) &&
      (r.status != Returned ==> Step(t, omega, fixed) == None && r.theta == Corrected(t, omega, fixed))
  {
    var r := DescendFrom(t, omega, fixed, eps, maxIt, outOmega, errors, it);
    var out := VecMat(omega, t, |omega|);
    var errs := errors + [StepError(t, omega)];
    match Step(t, omega, fixed)
    case None =>
      assert r == Outcome(Corrected(t, omega, fixed), out, errs, it + 1, Failed(ZeroRowSum));
    case Some(next) =>
      assert r == DescendFrom(next, omega, fixed, eps, maxIt, out, errs, it + 1);
      assert r == Outcome(next, out, errs, it + 1, Returned);
  }

  /**
    The loop condition is tested on the out_omega of theta0 twice: a run
    from theta0 that returns after exactly one iteration had a budget of 1.
  */
  lemma OneIterationMeansBudgetOne(t0: Matrix, omega: seq<real>, fixed: set<(int, int)>, eps: real, maxIt: int)
    requires IsMatrix(t0, |omega|, |omega|)
    ensures var r := DescendFrom(t0, omega, fixed, eps, maxIt, VecMat(omega, t0, |omega|), [], 0);
      r.status == Returned && r.it == 1 ==> maxIt == 1
  {
    var out := VecMat(omega, t0, |omega|);
    var r := DescendFrom(t0, omega, fixed, eps, maxIt, out, [], 0);
    DescendCounts(t0, omega, fixed, eps, maxIt, out, [], 0);
    if r.status == Returned && r.it == 1 {
      var errs := [] + [StepError(t0, omega)];
      var next := Step(t0, omega, fixed).value;
      assert r == DescendFrom(next, omega, fixed, eps, maxIt, out, errs, 1);
      DescendCounts(next, omega, fixed, eps, maxIt, out, errs, 1);
    }
  }

  /**
    The solver's counters and error list: one error per iteration, the
    budget respected, failure only on a zero row sum, a normal return only
    with the residual within eps or the budget spent; a theta0 already
    within eps is returned with omega . theta0, no errors and no
    iteration; otherwise the first error is that of theta0, and no error is
    negative.
  */
  lemma SolveCounts(policy: Policy, w: Matrix, omega: seq<real>, eps: real, maxIt: int)
    requires IsMatrix(w, |omega|, |omega|) && InitialDefined(policy, w, omega)
    ensures var r, t0, n := SolveSpec(policy, w, omega, eps, maxIt), StartTheta(policy, w, omega), |omega|;
      |r.errors| == r.it && (r.it > 0 ==> r.it <= maxIt) &&
      (r.status == Returned || r.status == Failed(ZeroRowSum)) &&
      (r.status == Returned ==> !Unconverged(r.outOmega, omega, eps) || r.it >= maxIt) &&
      (r.it == 0 <==> !Unconverged(VecMat(omega, t0, n), omega, eps) || maxIt <= 0) &&
      (r.it == 0 ==> r == Outcome(t0, VecMat(omega, t0, n), [], 0, Returned)) &&
      (r.it > 0 ==> r.errors[0] == StepError(t0, omega)) &&
      (forall k :: 0 <= k < |r.errors| ==> r.errors[k] >= 0.0) &&
      (r.status == Returned && r.it == 1 ==> maxIt == 1)
  {
    var n := |omega|;
    var t0 := StartTheta(policy, w, omega);
    var fixed := FixedCells(t0, n, n);
    var out := VecMat(omega, t0, n);
    DescendCounts(t0, omega, fixed, eps, maxIt, out, [], 0);
    DescendFirstError(t0, omega, fixed, eps, maxIt, out, [], 0);
    DescendErrorsNonNegative(t0, omega, fixed, eps, maxIt, out, [], 0);
    OneIterationMeansBudgetOne(t0, omega, fixed, eps, maxIt);
  }

  /**
    What the solver does to theta on a normal return: after at least one
    iteration it is row-stochastic; every 0 of theta0 is still 0; and, when
    every 1 of theta0 sits in a row of 0s and 1s summing to 1, every 1 is
    still 1.
  */
  lemma SolveTheta(policy: Policy, w: Matrix, omega: seq<real>, eps: real, maxIt: int)
    requires IsMatrix(w, |omega|, |omega|) && InitialDefined(policy, w, omega)
    ensures var r, t0, n := SolveSpec(policy, w, omega, eps, maxIt), StartTheta(policy, w, omega), |omega|;
      (r.status == Returned && r.it > 0 ==> Stochastic(r.theta)) &&
      (r.status == Returned ==>
        forall i, j :: 0 <= i < n && 0 <= j < n && t0[i][j] == 0.0 ==> r.theta[i][j] == 0.0) &&
      (r.status == Returned && OnesAlone(t0) ==>
        forall i, j :: 0 <= i < n && 0 <= j < n && t0[i][j] == 1.0 ==> r.theta[i][j] == 1.0)
  {
    var n := |omega|;
    var t0 := StartTheta(policy, w, omega);
    var fixed := FixedCells(t0, n, n);
    var out := VecMat(omega, t0, n);
    DescendTheta(t0, omega, fixed, eps, maxIt, out, [], 0);
    var r := DescendFrom(t0, omega, fixed, eps, maxIt, out, [], 0);
    if r.status == Returned && OnesAlone(t0) {
      forall i, j | 0 <= i < n && 0 <= j < n && t0[i][j] == 1.0
        ensures r.theta[i][j] == 1.0
      {
        assert forall b :: 0 <= b < n ==> (i, b) in fixed;
        assert RowFixed(fixed, i, n);
      }
    }
  }

  /**
    The solver's loop on the array: theta, out_omega, the errors, the count
    and the status are those of DescendFrom from the initial theta.
  */
  method Descend(theta: array2<real>, omega: seq<real>, fixed: set<(int, int)>, eps: real, maxIt: int)
    returns (outOmega: seq<real>, errors: seq<real>, it: nat, status: Status)
    requires theta.Length0 == theta.Length1 == |omega|
    modifies theta
    ensures var t0 := old(Snapshot(theta));
      Outcome(Snapshot(theta), outOmega, errors, it, status) ==
        DescendFrom(t0, omega, fixed, eps, maxIt, VecMat(omega, t0, |omega|), [], 0)
  {
    var n := |omega|;
    ghost var goal := DescendFrom(Snapshot(theta), omega, fixed, eps, maxIt, VecMat(omega, Snapshot(theta), n), [], 0);
    it := 0;
    errors := [];
    outOmega := VecMat(omega, Snapshot(theta), n);
    status := Returned;
    while Unconverged(outOmega, omega, eps) && it < maxIt
      invariant |outOmega| == n
      invariant DescendFrom(Snapshot(theta), omega, fixed, eps, maxIt, outOmega, errors, it) == goal
      decreases if it < maxIt then maxIt - it else 0
    {
      var error, ok;
      it := it + 1;
      outOmega, error, ok := Iteration(theta, omega, fixed);
      errors := errors + [error];
      if !ok {
        status := Failed(ZeroRowSum);
        return;
      }
    }
  }

  /**
    The solver. `max_it` is `maxIt`; the logging parameter is left out.
    The result is SolveSpec, whose properties SolveCounts and SolveTheta state.
  */
  /** The defaults of `gradient_descent`: `eps = 10 ** (-10)`, `max_it = 2_000`. */
  const DefaultEps: real := 0.0000000001
  const DefaultMaxIt: int := 2000

  method Solve(omega: seq<real>, w: Matrix, policy: Policy, eps: real := DefaultEps, maxIt: int := DefaultMaxIt)
    returns (theta: array2<real>, outOmega: seq<real>, errors: seq<real>, it: nat, status: Status)
    requires IsMatrix(w, |omega|, |omega|) && InitialDefined(policy, w, omega)
    ensures fresh(theta) && theta.Length0 == theta.Length1 == |omega|
    ensures Outcome(Snapshot(theta), outOmega, errors, it, status) == SolveSpec(policy, w, omega, eps, maxIt)
  {
    // step 1
    theta := GetInitialTheta(policy, w, omega);
    // step 2
    var fixed := ComputeFixed(theta);
    outOmega, errors, it, status := Descend(theta, omega, fixed, eps, maxIt);
  }
}
