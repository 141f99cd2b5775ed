/**
  The conjugate-gradient variant, `conjugate`, and its step-size search
  `find_alpha`.

  `find_alpha` scans the 40 step sizes 0, 0.05, ..., 1.95 and keeps the
  first one with the smallest squared error of omega . (theta + a p)
  against omega.

  `conjugate` checks that omega sums to 1, builds theta0 and its fixed
  cells, and enters the same eps/budget loop as the other solvers. Inside
  the loop it records one error and calls `find_alpha`, then reaches
  `np.zeros(row_count, col_count)`, where numpy reads `col_count` as a
  dtype and raises a TypeError. So a call either fails there or returns
  theta0 without any iteration. The update the loop would go on to make
  (lines 91-105) is modelled on its own as Tail.
*/
module ConjugateGradient {
  import opened Matrices
  import opened Steps
  import opened InitialTheta
  import opened GradientDescent

  // ---------------------------------------------------------------------
  // find_alpha.

  /** A float that may be the `float("inf")` the scan starts from. */
  datatype Extended = Finite(value: real) | Infinity

  /** Python's `<` with `inf` above every finite value. */
  predicate Less(x: Extended, y: Extended) {
    match (x, y)
    case (Finite(a), Finite(b)) => a < b
    case (Finite(_), Infinity) => true
    case (Infinity, _) => false
  }

  /** `len(np.arange(0, 2, 0.05))`. */
  const CandidateCount: nat := 40

  /** The k-th step size of `np.arange(0, 2, 0.05)`. */
  function Candidate(k: nat): real {
    k as real * 0.05
  }

  /** `theta + c`, the scalar added to every cell. */
  function AddScalar(t: Matrix, c: real, cols: nat): (r: Matrix)
    requires IsMatrix(t, |t|, cols)
    ensures IsMatrix(r, |t|, cols)
  {
    seq(|t|, i requires 0 <= i < |t| => seq(cols, j requires 0 <= j < cols => t[i][j] + c))
  }

  /**
    The value `f` that `find_alpha` computes for step size `a`: half the
    sum of the squares of out - inp over the pairs `zip` forms, where
    out = inp . (theta + a p).
  */
  function Objective(t: Matrix, inp: seq<real>, cols: nat, p: real, a: real): (f: real)
    requires IsMatrix(t, |inp|, cols)
    ensures f >= 0.0
  {
    var out := VecMat(inp, AddScalar(t, a * p, cols), cols);
    var m := if cols < |inp| then cols else |inp|;
    SumSquares(Residual(out[..m], inp[..m])) / 2.0
  }

  /** `f` for every candidate step size, in scan order. */
  function Objectives(t: Matrix, inp: seq<real>, cols: nat, p: real): (fs: seq<real>)
    requires IsMatrix(t, |inp|, cols)
    ensures |fs| == CandidateCount
  {
    seq(CandidateCount, k requires 0 <= k < CandidateCount => Objective(t, inp, cols, p, Candidate(k)))
  }

  /** `k` holds a smallest value, and every earlier value is strictly larger. */
  predicate IsFirstMinimum(fs: seq<real>, k: nat) {
    k < |fs| &&
    (forall j :: 0 <= j < |fs| ==> fs[k] <= fs[j]) &&
    (forall j :: 0 <= j < k ==> fs[j] > fs[k])
  }

  /** Where a left-to-right scan that replaces only on a strictly smaller value stops. */
  function FirstArgMin(fs: seq<real>): (k: nat)
    requires |fs| > 0
    ensures k < |fs|
  {
    if |fs| == 1 then 0
    else
      var m := FirstArgMin(fs[..|fs| - 1]);
      if fs[|fs| - 1] < fs[m] then |fs| - 1 else m
  }

  /** The scan finds the first minimum. */
  lemma {:induction false} FirstArgMinIsFirstMinimum(fs: seq<real>)
    requires |fs| > 0
    ensures IsFirstMinimum(fs, FirstArgMin(fs))
  {
    if |fs| > 1 {
      var p := fs[..|fs| - 1];
      FirstArgMinIsFirstMinimum(p);
      assert forall j :: 0 <= j < |p| ==> p[j] == fs[j];
    }
  }

  /** There is only one first minimum, so the scan's answer is determined by the values. */
  lemma FirstMinimumUnique(fs: seq<real>, k: nat, l: nat)
    requires IsFirstMinimum(fs, k) && IsFirstMinimum(fs, l)
    ensures k == l
  {
    assert fs[k] <= fs[l] && fs[l] <= fs[k];
  }

  /**
    `find_alpha`: the step size is never the `inf` sentinel, it is one of
    the candidates, lies in [0, 2), and is the first candidate whose `f`
    is at most that of every candidate.
  */
  method FindAlpha(theta: array2<real>, inp: seq<real>, p: real) returns (alpha: Extended)
    requires theta.Length0 == |inp|
    ensures alpha.Finite? && 0.0 <= alpha.value < 2.0
    ensures var fs := Objectives(Snapshot(theta), inp, theta.Length1, p);
      exists k :: 0 <= k < CandidateCount && alpha.value == Candidate(k) && IsFirstMinimum(fs, k)
  {
    ghost var fs := Objectives(Snapshot(theta), inp, theta.Length1, p);
    var minF := Infinity;
    alpha := Infinity;
    var k := 0;
    while k < CandidateCount
      invariant 0 <= k <= CandidateCount
      invariant k == 0 ==> alpha == Infinity && minF == Infinity
      invariant k > 0 ==> alpha == Finite(Candidate(FirstArgMin(fs[..k]))) && minF == Finite(fs[FirstArgMin(fs[..k])])
    {
      var a := Candidate(k);
      // w = theta + a * p; out = inp . w; f = sum((o - i)^2) / 2
      var f := Objective(Snapshot(theta), inp, theta.Length1, p, a);
      assert fs[..k + 1][..k] == fs[..k];
      if Less(Finite(f), minF) {
        minF := Finite(f);
        alpha := Finite(a);
      }
      k := k + 1;
    }
    assert fs[..CandidateCount] == fs;
    FirstArgMinIsFirstMinimum(fs);
  }

  // ---------------------------------------------------------------------
  // The driver.

  /**
    The loop of `conjugate` from theta0 as a function: the TypeError inside
    the first iteration, with that iteration's count and error recorded,
    or theta0 returned as it is.
  */
  function ConjugateFrom(t0: Matrix, omega: seq<real>, eps: real, maxIt: int): Outcome
    requires IsMatrix(t0, |omega|, |omega|)
  {
    var out := VecMat(omega, t0, |omega|);
    if Unconverged(out, omega, eps) && 0 < maxIt then
      Outcome(t0, out, [StepError(t0, omega)], 1, Failed(TypeError))
    else
      Outcome(t0, out, [], 0, Returned)
  }

  /** `conjugate` as a function: the assertion on omega, theta0, then the loop. */
  function ConjugateSpec(policy: Policy, w: Matrix, omega: seq<real>, eps: real, maxIt: int): Outcome
    requires IsMatrix(w, |omega|, |omega|) && InitialDefined(policy, w, omega)
  {
    if Sum(omega) != 1.0 then
      Outcome([], [], [], 0, Failed(AssertionFailed))
    else
      ConjugateFrom(StartTheta(policy, w, omega), omega, eps, maxIt)
  }

  /**
    How `conjugate` ends. It returns exactly when omega sums to 1 and
    theta0 already meets the eps test or the budget is not positive, and
    then its result is what `gradient_descent` returns on the same input:
    theta0, omega . theta0, no errors and no iterations. Otherwise it fails,
    on the assertion when omega does not sum to 1 and on the TypeError
    after one recorded error when the loop is entered, so no iteration
    ever completes.
  */
  lemma ConjugateOutcomes(policy: Policy, w: Matrix, omega: seq<real>, eps: real, maxIt: int)
    requires IsMatrix(w, |omega|, |omega|) && InitialDefined(policy, w, omega)
    ensures var r, t0 := ConjugateSpec(policy, w, omega, eps, maxIt), StartTheta(policy, w, omega);
      (r.status == Returned <==>
        Sum(omega) == 1.0 && (!Unconverged(VecMat(omega, t0, |omega|), omega, eps) || maxIt <= 0)) &&
      (r.status == Returned ==> r == SolveSpec(policy, w, omega, eps, maxIt) && r.it == 0 && r.theta == t0) &&
      (r.status == Failed(AssertionFailed) <==> Sum(omega) != 1.0) &&
      (r.status == Failed(TypeError) ==> r.it == 1 && r.errors == [StepError(t0, omega)]) &&
      (r.status == Returned || r.status == Failed(AssertionFailed) || r.status == Failed(TypeError))
  {
    var t0 := StartTheta(policy, w, omega);
    if Sum(omega) == 1.0 && (!Unconverged(VecMat(omega, t0, |omega|), omega, eps) || maxIt <= 0) {
      SolveCounts(policy, w, omega, eps, maxIt);
    }
  }

  /**
    The loop of `conjugate` on the array, which it leaves as it is: the
    first iteration records its error, calls `find_alpha` and then fails.
  */
  method ConjugateLoop(theta: array2<real>, omega: seq<real>, eps: real, maxIt: int)
    returns (outOmega: seq<real>, errors: seq<real>, it: nat, status: Status)
    requires theta.Length0 == theta.Length1 == |omega|
    ensures Outcome(Snapshot(theta), outOmega, errors, it, status) == ConjugateFrom(Snapshot(theta), omega, eps, maxIt)
  {
    var n := |omega|;
    it := 0;
    errors := [];
    outOmega := VecMat(omega, Snapshot(theta), n);
    status := Returned;
    // the `while` of the source: its body never completes, so it runs at most once
    if Unconverged(outOmega, omega, eps) && it < maxIt {
      it := it + 1;
      var k := 0;
      // step 3
      var deltaPrev := Residual(outOmega, omega);
      outOmega := VecMat(omega, Snapshot(theta), n);
      var delta := Residual(outOmega, omega);
      var error := SumSquares(delta) / 2.0;
      errors := errors + [error];
      var alpha := FindAlpha(theta, omega, -error);
      if k == 0 {
        // np.zeros(row_count, col_count) takes col_count as the dtype
        status := Failed(TypeError);
        return;
      }
    }
  }

  /**
    `conjugate`. When the assertion fails no theta is built and an empty
    array stands for the missing result; the logging is left out.
  */
  /** The default budget of `conjugate`, `max_it = 100_000`; `eps` defaults to `10 ** (-10)`. */
  const ConjugateDefaultMaxIt: int := 100000

  method Conjugate(omega: seq<real>, w: Matrix, policy: Policy,
                   eps: real := GradientDescent.DefaultEps, maxIt: int := ConjugateDefaultMaxIt)
    returns (theta: array2<real>, outOmega: seq<real>, errors: seq<real>, it: nat, status: Status)
    requires IsMatrix(w, |omega|, |omega|) && InitialDefined(policy, w, omega)
    ensures fresh(theta)
    ensures Outcome(Snapshot(theta), outOmega, errors, it, status) == ConjugateSpec(policy, w, omega, eps, maxIt)
  {
    if Sum(omega) != 1.0 {
      theta := new real[0, 0];
      assert Snapshot(theta) == [];
      outOmega, errors, it, status := [], [], 0, Failed(AssertionFailed);
      return;
    }
    // step 1
    theta := GetInitialTheta(policy, w, omega);
    // step 2; the fixed set is first used after line 78
    var fixed := ComputeFixed(theta);
    outOmega, errors, it, status := ConjugateLoop(theta, omega, eps, maxIt);
  }

  // ---------------------------------------------------------------------
  // The update the loop would make after line 78.

  /**
    Line 92: `alpha * (p + theta) + prev`, the vector `p` added to every row
    of theta, with no mask on the fixed cells.
  */
  function TailDeltas(t: Matrix, alpha: real, p: seq<real>, prev: Matrix, n: nat): (d: Matrix)
    requires IsMatrix(t, n, n) && IsMatrix(prev, n, n) && |p| == n
    ensures IsMatrix(d, n, n)
  {
    seq(n, i requires 0 <= i < n => seq(n, j requires 0 <= j < n => alpha * (p[j] + t[i][j]) + prev[i][j]))
  }

  /** theta after line 94 and the shift of lines 96-100. */
  function TailShifted(t: Matrix, alpha: real, p: seq<real>, prev: Matrix, fixed: set<(int, int)>, n: nat): (r: Matrix)
    requires n > 0 && IsMatrix(t, n, n) && IsMatrix(prev, n, n) && |p| == n
    ensures IsMatrix(r, n, n)
  {
    Shifted(MatSub(t, TailDeltas(t, alpha, p, prev, n), n, n), fixed, n)
  }

  /** Lines 91-105 as a function: None when a row to be normalised sums to 0. */
  function Tail(t: Matrix, alpha: real, p: seq<real>, prev: Matrix, fixed: set<(int, int)>, n: nat): (r: Option<Matrix>)
    requires n > 0 && IsMatrix(t, n, n) && IsMatrix(prev, n, n) && |p| == n
    ensures r.Some? ==> IsMatrix(r.value, n, n)
  {
    var s := TailShifted(t, alpha, p, prev, fixed, n);
    if RowSumsNonZero(s) then Some(Normalized(s)) else None
  }

  /**
    The shift in the tail moves only non-fixed cells and lowers none, and
    a tail that can normalise leaves every row summing to 1.
  */
  lemma TailFacts(t: Matrix, alpha: real, p: seq<real>, prev: Matrix, fixed: set<(int, int)>, n: nat)
    requires n > 0 && IsMatrix(t, n, n) && IsMatrix(prev, n, n) && |p| == n
    ensures var t1, s := MatSub(t, TailDeltas(t, alpha, p, prev, n), n, n), TailShifted(t, alpha, p, prev, fixed, n);
      (forall i, j :: 0 <= i < n && 0 <= j < n && (i, j) in fixed ==> s[i][j] == t1[i][j]) &&
      (forall i, j :: 0 <= i < n && 0 <= j < n ==> s[i][j] >= t1[i][j])
    ensures Tail(t, alpha, p, prev, fixed, n).Some? ==> RowsSumToOne(Tail(t, alpha, p, prev, fixed, n).value)
  {
    ShiftedFacts(MatSub(t, TailDeltas(t, alpha, p, prev, n), n, n), fixed, n);
    var s := TailShifted(t, alpha, p, prev, fixed, n);
    if RowSumsNonZero(s) {
      NormalizedRowsSumToOne(s);
    }
  }

  /**
    Because line 92 is not masked, the tail can move a fixed cell: from a
    theta whose second row is the fixed (0, 1), one step with a negative
    `p` makes the fixed zero positive.
  */
  lemma TailCanMoveFixedCell()
    ensures var t, prev, p := [[0.5, 0.5], [0.0, 1.0]], [[0.0, 0.0], [0.0, 0.0]], [-0.1, -0.1];
      var fixed := FixedCells(t, 2, 2);
      (1, 0) in fixed && t[1][0] == 0.0 &&
      Tail(t, 0.05, p, prev, fixed, 2).Some? && Tail(t, 0.05, p, prev, fixed, 2).value[1][0] > 0.0
  {
    var t, prev, p := [[0.5, 0.5], [0.0, 1.0]], [[0.0, 0.0], [0.0, 0.0]], [-0.1, -0.1];
    var fixed := FixedCells(t, 2, 2);
    assert (1, 0) in fixed;
    var d := TailDeltas(t, 0.05, p, prev, 2);
    var t1 := MatSub(t, d, 2, 2);
    assert t1[0] == [0.48, 0.48] by {
      assert t1[0][0] == 0.48 && t1[0][1] == 0.48;
    }
    assert t1[1] == [0.005, 0.955] by {
      assert t1[1][0] == 0.005 && t1[1][1] == 0.955;
    }
    assert t1 == [[0.48, 0.48], [0.005, 0.955]];
    MatMinIsMin(t1);
    assert MatMin(t1) >= 0.0;
    assert TailShifted(t, 0.05, p, prev, fixed, 2) == t1;
    assert Sum(t1[0]) == 0.96 && Sum(t1[1]) == 0.96;
    assert Normalized(t1)[1][0] == 0.005 / 0.96;
  }

  /** Fills line 92's matrix cell by cell. */
  method TailWeightDeltas(theta: array2<real>, alpha: real, p: seq<real>, prev: array2<real>)
    returns (wd: array2<real>)
    requires theta.Length0 == theta.Length1 == prev.Length0 == prev.Length1 == |p|
    ensures fresh(wd) && wd.Length0 == wd.Length1 == |p|
    ensures Snapshot(wd) == TailDeltas(Snapshot(theta), alpha, p, Snapshot(prev), |p|)
  {
    var n := |p|;
    wd := new real[n, n];
    var i := 0;
    while i < n
      invariant 0 <= i <= n
      invariant forall a, b :: 0 <= a < i && 0 <= b < n ==> wd[a, b] == alpha * (p[b] + theta[a, b]) + prev[a, b]
    {
      var j := 0;
      while j < n
        invariant 0 <= j <= n
        invariant forall a, b :: 0 <= a < i && 0 <= b < n ==> wd[a, b] == alpha * (p[b] + theta[a, b]) + prev[a, b]
        invariant forall b :: 0 <= b < j ==> wd[i, b] == alpha * (p[b] + theta[i, b]) + prev[i, b]
      {
        wd[i, j] := alpha * (p[j] + theta[i, j]) + prev[i, j];
        j := j + 1;
      }
      i := i + 1;
    }
    SnapshotIs(wd, TailDeltas(Snapshot(theta), alpha, p, Snapshot(prev), n));
  }

  /**
    Lines 91-105 on the array: returns the new weight_deltas and whether no
    row summed to 0 at the normalisation.
  */
  method ConjugateTail(theta: array2<real>, alpha: real, p: seq<real>, prev: array2<real>, fixed: set<(int, int)>)
    returns (wd: array2<real>, ok: bool)
    requires theta.Length0 == theta.Length1 == prev.Length0 == prev.Length1 == |p| > 0
    requires prev != theta
    modifies theta
    ensures fresh(wd) && wd.Length0 == wd.Length1 == |p|
    ensures Snapshot(wd) == TailDeltas(old(Snapshot(theta)), alpha, p, Snapshot(prev), |p|)
    ensures var r := Tail(old(Snapshot(theta)), alpha, p, Snapshot(prev), fixed, |p|);
      (ok <==> r.Some?) && (ok ==> Snapshot(theta) == r.value) &&
      (!ok ==> Snapshot(theta) == TailShifted(old(Snapshot(theta)), alpha, p, Snapshot(prev), fixed, |p|))
  {
    ghost var before := Snapshot(theta);
    // lines 91-92
    wd := TailWeightDeltas(theta, alpha, p, prev);
    // line 94
    SubtractInPlace(theta, wd);
    // lines 96-100
    NegativeShift(theta, fixed);
    assert Snapshot(theta) == TailShifted(before, alpha, p, Snapshot(prev), fixed, |p|);
    // lines 102-105
    ok := RowSumsNonZero(Snapshot(theta));
    if ok {
      NormalizeRows(theta);
    }
  }
}
