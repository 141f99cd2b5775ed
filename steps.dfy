/**
  The pieces every solver applies to the routing matrix theta: the set of
  fixed cells derived once from the initial matrix, the masked outer-product
  correction, the in-place subtraction, the "negative shift" that repairs
  negative entries, and the in-place row normalisation.

  Each in-place operation is a method on an `array2<real>` whose new value
  is stated as a function of its old value; the properties the solvers rely
  on are lemmas about those functions.
*/
module Steps {
  import opened Matrices

  /** How a solver run ends: it returns, or it stops with the error the original raises or hits. */
  datatype Status = Returned | Failed(reason: Failure)

  datatype Failure =
    | ZeroRowSum        // a row sums to 0 when it is normalised (numpy would produce nan or ±inf)
    | AssertionFailed   // `assert sum(omega) == 1`
    | TypeError         // `np.zeros(row_count, col_count)` with an integer as dtype
    | UnboundDelta      // `delta` read after a loop that never ran

  // ---------------------------------------------------------------------
  // Fixed cells.

  /** The coordinates whose entry is exactly 0 or exactly 1. */
  function FixedCells(t: Matrix, rows: nat, cols: nat): set<(int, int)>
    requires IsMatrix(t, rows, cols)
  {
    set i, j | 0 <= i < rows && 0 <= j < cols && (t[i][j] == 0.0 || t[i][j] == 1.0) :: (i, j)
  }

  /** Builds the fixed set by scanning the matrix row by row. */
  method ComputeFixed(theta: array2<real>) returns (fixed: set<(int, int)>)
    ensures forall i, j :: (i, j) in fixed <==>
      0 <= i < theta.Length0 && 0 <= j < theta.Length1 && (theta[i, j] == 0.0 || theta[i, j] == 1.0)
    ensures fixed == FixedCells(Snapshot(theta), theta.Length0, theta.Length1)
  {
    fixed := {};
    var i := 0;
    while i < theta.Length0
      invariant 0 <= i <= theta.Length0
      invariant forall a, b :: (a, b) in fixed <==>
        0 <= a < i && 0 <= b < theta.Length1 && (theta[a, b] == 0.0 || theta[a, b] == 1.0)
    {
      var j := 0;
      while j < theta.Length1
        invariant 0 <= j <= theta.Length1
        invariant forall a, b :: (a, b) in fixed <==>
          ((0 <= a < i && 0 <= b < theta.Length1) || (a == i && 0 <= b < j)) &&
          (theta[a, b] == 0.0 || theta[a, b] == 1.0)
      {
        if theta[i, j] == 0.0 || theta[i, j] == 1.0 {
          fixed := fixed + {(i, j)};
        }
        j := j + 1;
      }
      i := i + 1;
    }
    ghost var f := FixedCells(Snapshot(theta), theta.Length0, theta.Length1);
    forall p | p in fixed
      ensures p in f
    {
      var a, b := p.0, p.1;
      assert p == (a, b);
      assert Snapshot(theta)[a][b] == theta[a, b];
    }
    assert fixed == f;
  }

  /** Every fixed cell of `t` holds a non-negative value. */
  predicate FixedNonNegative(t: Matrix, fixed: set<(int, int)>, n: nat)
    requires IsMatrix(t, n, n)
  {
    forall i, j :: 0 <= i < n && 0 <= j < n && (i, j) in fixed ==> t[i][j] >= 0.0
  }

  /** Every cell of row `i` is fixed. */
  predicate RowFixed(fixed: set<(int, int)>, i: int, n: nat) {
    forall j :: 0 <= j < n ==> (i, j) in fixed
  }

  // ---------------------------------------------------------------------
  // The masked outer product and the subtraction.

  /**
    The gradient correction: `omega[i] * delta[j]`, except 0 at a fixed cell.
  */
  function WeightDeltas(omega: seq<real>, delta: seq<real>, fixed: set<(int, int)>): (d: Matrix)
    ensures IsMatrix(d, |omega|, |delta|)
  {
    seq(|omega|, i requires 0 <= i < |omega| =>
      seq(|delta|, j requires 0 <= j < |delta| => if (i, j) in fixed then 0.0 else omega[i] * delta[j]))
  }

  /** Fills the outer product of `omega` and `delta`, then zeroes the fixed cells. */
  method MaskedOuterProduct(omega: seq<real>, delta: seq<real>, fixed: set<(int, int)>)
    returns (wd: array2<real>)
    ensures fresh(wd)
    ensures wd.Length0 == |omega| && wd.Length1 == |delta|
    ensures Snapshot(wd) == WeightDeltas(omega, delta, fixed)
  {
    wd := new real[|omega|, |delta|];
    var i := 0;
    while i < |omega|
      invariant 0 <= i <= |omega|
      invariant forall a, b :: 0 <= a < i && 0 <= b < |delta| ==> wd[a, b] == omega[a] * delta[b]
    {
      var j := 0;
      while j < |delta|
        invariant 0 <= j <= |delta|
        invariant forall a, b :: 0 <= a < i && 0 <= b < |delta| ==> wd[a, b] == omega[a] * delta[b]
        invariant forall b :: 0 <= b < j ==> wd[i, b] == omega[i] * delta[b]
      {
        wd[i, j] := omega[i] * delta[j];
        j := j + 1;
      }
      i := i + 1;
    }
    i := 0;
    while i < |omega|
      invariant 0 <= i <= |omega|
      invariant forall a, b :: 0 <= a < |omega| && 0 <= b < |delta| ==>
        wd[a, b] == if a < i && (a, b) in fixed then 0.0 else omega[a] * delta[b]
    {
      var j := 0;
      while j < |delta|
        invariant 0 <= j <= |delta|
        invariant forall a, b :: 0 <= a < |omega| && 0 <= b < |delta| ==>
          wd[a, b] == if (a < i || (a == i && b < j)) && (a, b) in fixed then 0.0 else omega[a] * delta[b]
      {
        if (i, j) in fixed {
          wd[i, j] := 0.0;
        }
        j := j + 1;
      }
      i := i + 1;
    }
    SnapshotIs(wd, WeightDeltas(omega, delta, fixed));
  }

  /** Cell-wise difference of two matrices of the same shape. */
  function MatSub(t: Matrix, d: Matrix, rows: nat, cols: nat): (r: Matrix)
    requires IsMatrix(t, rows, cols) && IsMatrix(d, rows, cols)
    ensures IsMatrix(r, rows, cols)
  {
    seq(rows, i requires 0 <= i < rows => seq(cols, j requires 0 <= j < cols => t[i][j] - d[i][j]))
  }

  /** `theta -= wd`, cell by cell. */
  method SubtractInPlace(theta: array2<real>, wd: array2<real>)
    requires wd != theta
    requires wd.Length0 == theta.Length0 && wd.Length1 == theta.Length1
    modifies theta
    ensures Snapshot(theta) == MatSub(old(Snapshot(theta)), Snapshot(wd), theta.Length0, theta.Length1)
  {
    ghost var t0 := Snapshot(theta);
    var i := 0;
    while i < theta.Length0
      invariant 0 <= i <= theta.Length0
      invariant forall a, b :: 0 <= a < theta.Length0 && 0 <= b < theta.Length1 ==>
        theta[a, b] == if a < i then t0[a][b] - wd[a, b] else t0[a][b]
    {
      var j := 0;
      while j < theta.Length1
        invariant 0 <= j <= theta.Length1
        invariant forall a, b :: 0 <= a < theta.Length0 && 0 <= b < theta.Length1 ==>
          theta[a, b] == if a < i || (a == i && b < j) then t0[a][b] - wd[a, b] else t0[a][b]
      {
        theta[i, j] := theta[i, j] - wd[i, j];
        j := j + 1;
      }
      i := i + 1;
    }
    SnapshotIs(theta, MatSub(t0, Snapshot(wd), theta.Length0, theta.Length1));
  }

  // ---------------------------------------------------------------------
  // The negative shift.

  /**
    One cell of the shift: a non-fixed cell grows by twice the absolute
    value of the smallest entry of the matrix as it is at that moment.
  */
  function ShiftCell(t: Matrix, fixed: set<(int, int)>, n: nat, i: nat, j: nat): (r: Matrix)
    requires n > 0 && IsMatrix(t, n, n) && i < n && j < n
    ensures IsMatrix(r, n, n)
  {
    if (i, j) in fixed then t
    else t[i := t[i][j := t[i][j] + Abs(MatMin(t)) * 2.0]]
  }

  /** The shift applied to the cells from (i, j) onwards, in row-major order. */
  function ShiftFrom(t: Matrix, fixed: set<(int, int)>, n: nat, i: nat, j: nat): (r: Matrix)
    requires n > 0 && IsMatrix(t, n, n) && i <= n && j <= n
    ensures IsMatrix(r, n, n)
    decreases n - i, n - j
  {
    if i == n then t
    else if j == n then ShiftFrom(t, fixed, n, i + 1, 0)
    else ShiftFrom(ShiftCell(t, fixed, n, i, j), fixed, n, i, j + 1)
  }

  /**
    The negative shift: when some entry is negative, every non-fixed cell,
    in row-major order, grows by twice the absolute value of the minimum,
    the minimum being re-read for each cell.
  */
  function Shifted(t: Matrix, fixed: set<(int, int)>, n: nat): (r: Matrix)
    requires n > 0 && IsMatrix(t, n, n)
    ensures IsMatrix(r, n, n)
  {
    if MatMin(t) < 0.0 then ShiftFrom(t, fixed, n, 0, 0) else t
  }

  /** The shift in place on the array. */
  method NegativeShift(theta: array2<real>, fixed: set<(int, int)>)
    requires theta.Length0 == theta.Length1 > 0
    modifies theta
    ensures Snapshot(theta) == Shifted(old(Snapshot(theta)), fixed, theta.Length0)
  {
    var n := theta.Length0;
    ghost var t0 := Snapshot(theta);
    if MatMin(Snapshot(theta)) < 0.0 {
      var i := 0;
      while i < n
        invariant 0 <= i <= n
        invariant ShiftFrom(Snapshot(theta), fixed, n, i, 0) == ShiftFrom(t0, fixed, n, 0, 0)
      {
        ShiftFromRow(Snapshot(theta), fixed, n, i, 0);
        ShiftRow(theta, fixed, i);
        i := i + 1;
      }
    }
  }

  /**
    The shift applied to the cells of row `i` from column `j` on, left to
    right; the other rows are left as they are.
  */
  function ShiftRowFrom(t: Matrix, fixed: set<(int, int)>, n: nat, i: nat, j: nat): (r: Matrix)
    requires n > 0 && IsMatrix(t, n, n) && i < n && j <= n
    ensures IsMatrix(r, n, n)
    ensures forall a :: 0 <= a < n && a != i ==> r[a] == t[a]
    decreases n - j
  {
    if j == n then t
    else ShiftRowFrom(ShiftCell(t, fixed, n, i, j), fixed, n, i, j + 1)
  }

  /** The shift from (i, j) on is the rest of row `i`, then the rows after it. */
  lemma {:induction false} ShiftFromRow(t: Matrix, fixed: set<(int, int)>, n: nat, i: nat, j: nat)
    requires n > 0 && IsMatrix(t, n, n) && i < n && j <= n
    ensures ShiftFrom(t, fixed, n, i, j) == ShiftFrom(ShiftRowFrom(t, fixed, n, i, j), fixed, n, i + 1, 0)
    decreases n - j
  {
    if j < n {
      ShiftFromRow(ShiftCell(t, fixed, n, i, j), fixed, n, i, j + 1);
    }
  }

  /** The inner loop of the shift: the cells of row `i`, left to right. */
  method ShiftRow(theta: array2<real>, fixed: set<(int, int)>, i: nat)
    requires theta.Length0 == theta.Length1 > 0 && i < theta.Length0
    modifies theta
    ensures Snapshot(theta) == ShiftRowFrom(old(Snapshot(theta)), fixed, theta.Length0, i, 0)
  {
    var n := theta.Length0;
    ghost var goal := ShiftRowFrom(Snapshot(theta), fixed, n, i, 0);
    var j := 0;
    while j < n
      invariant 0 <= j <= n
      invariant ShiftRowFrom(Snapshot(theta), fixed, n, i, j) == goal
    {
      ShiftOneCell(theta, fixed, i, j);
      j := j + 1;
    }
  }

  /** One step of the shift loop, on cell (i, j). */
  method ShiftOneCell(theta: array2<real>, fixed: set<(int, int)>, i: nat, j: nat)
    requires theta.Length0 == theta.Length1 > 0
    requires i < theta.Length0 && j < theta.Length0
    modifies theta
    ensures Snapshot(theta) == ShiftCell(old(Snapshot(theta)), fixed, theta.Length0, i, j)
  {
    ghost var s := Snapshot(theta);
    if (i, j) !in fixed {
      theta[i, j] := theta[i, j] + Abs(MatMin(Snapshot(theta))) * 2.0;
    }
    SnapshotIs(theta, ShiftCell(s, fixed, theta.Length0, i, j));
  }

  /** Cell (a, b) comes before cell (i, j) in row-major order. */
  predicate Before(a: int, b: int, i: int, j: int) {
    a < i || (a == i && b < j)
  }

  /**
    What the shift from (i, j) onwards does: fixed cells and the cells
    before (i, j) keep their value, no cell decreases, and if the cells
    before (i, j) and the fixed cells are non-negative then afterwards
    every cell is.
  */
  lemma {:induction false} ShiftFromFacts(t: Matrix, fixed: set<(int, int)>, n: nat, i: nat, j: nat)
    requires n > 0 && IsMatrix(t, n, n) && i <= n && j <= n
    ensures var r := ShiftFrom(t, fixed, n, i, j);
      (forall a, b :: 0 <= a < n && 0 <= b < n && (a, b) in fixed ==> r[a][b] == t[a][b]) &&
      (forall a, b :: 0 <= a < n && 0 <= b < n && Before(a, b, i, j) ==> r[a][b] == t[a][b]) &&
      (forall a, b :: 0 <= a < n && 0 <= b < n ==> r[a][b] >= t[a][b])
    ensures (FixedNonNegative(t, fixed, n) &&
             forall a, b :: 0 <= a < n && 0 <= b < n && Before(a, b, i, j) ==> t[a][b] >= 0.0) ==>
      forall a, b :: 0 <= a < n && 0 <= b < n ==> ShiftFrom(t, fixed, n, i, j)[a][b] >= 0.0
    decreases n - i, n - j
  {
    if i == n {
    } else if j == n {
      ShiftFromFacts(t, fixed, n, i + 1, 0);
    } else {
      var t' := ShiftCell(t, fixed, n, i, j);
      if (i, j) !in fixed {
        var m := MatMin(t);
        MatMinIsMin(t);
        assert m <= t[i][j];
        assert t'[i][j] == t[i][j] + Abs(m) * 2.0;
        assert t'[i][j] >= 0.0;
      }
      assert forall a, b :: 0 <= a < n && 0 <= b < n && !(a == i && b == j) ==> t'[a][b] == t[a][b];
      ShiftFromFacts(t', fixed, n, i, j + 1);
    }
  }

  /** The shift leaves a fully fixed row as it is. */
  lemma ShiftedFixedRow(t: Matrix, fixed: set<(int, int)>, n: nat, i: nat)
    requires n > 0 && IsMatrix(t, n, n) && i < n && RowFixed(fixed, i, n)
    ensures Shifted(t, fixed, n)[i] == t[i]
  {
    var r := Shifted(t, fixed, n);
    ShiftedFacts(t, fixed, n);
    forall j | 0 <= j < n
      ensures r[i][j] == t[i][j]
    {
      assert (i, j) in fixed;
    }
  }

  /**
    The negative shift changes no fixed cell, lowers no cell, is the
    identity when no entry is negative, and, provided the fixed cells are
    non-negative, leaves no negative entry.
  */
  lemma ShiftedFacts(t: Matrix, fixed: set<(int, int)>, n: nat)
    requires n > 0 && IsMatrix(t, n, n)
    ensures var r := Shifted(t, fixed, n);
      (forall i, j :: 0 <= i < n && 0 <= j < n && (i, j) in fixed ==> r[i][j] == t[i][j]) &&
      (forall i, j :: 0 <= i < n && 0 <= j < n ==> r[i][j] >= t[i][j])
    ensures (forall i, j :: 0 <= i < n && 0 <= j < n ==> t[i][j] >= 0.0) ==> Shifted(t, fixed, n) == t
    ensures FixedNonNegative(t, fixed, n) ==>
      forall i, j :: 0 <= i < n && 0 <= j < n ==> Shifted(t, fixed, n)[i][j] >= 0.0
  {
    ShiftFromFacts(t, fixed, n, 0, 0);
    MatMinIsMin(t);
    if MatMin(t) >= 0.0 {
      assert forall i, j :: 0 <= i < n && 0 <= j < n ==> t[i][j] >= 0.0;
    }
  }

  // ---------------------------------------------------------------------
  // Row normalisation.

  /** Every row divided by its own sum. */
  function Normalized(t: Matrix): (r: Matrix)
    requires RowSumsNonZero(t)
    ensures |r| == |t| && forall i :: 0 <= i < |t| ==> |r[i]| == |t[i]|
  {
    seq(|t|, i requires 0 <= i < |t| =>
      seq(|t[i]|, j requires 0 <= j < |t[i]| => t[i][j] / Sum(t[i])))
  }

  /** Divides every row of the array by the row's sum, taken before the row is changed. */
  method NormalizeRows(theta: array2<real>)
    requires RowSumsNonZero(Snapshot(theta))
    modifies theta
    ensures Snapshot(theta) == Normalized(old(Snapshot(theta)))
  {
    ghost var t0 := Snapshot(theta);
    var i := 0;
    while i < theta.Length0
      invariant 0 <= i <= theta.Length0
      invariant forall a, b :: 0 <= a < theta.Length0 && 0 <= b < theta.Length1 ==>
        theta[a, b] == if a < i then t0[a][b] / Sum(t0[a]) else t0[a][b]
    {
      assert Row(theta, i) == t0[i];
      var s := Sum(Row(theta, i));
      var j := 0;
      while j < theta.Length1
        invariant 0 <= j <= theta.Length1
        invariant forall a, b :: 0 <= a < theta.Length0 && 0 <= b < theta.Length1 ==>
          theta[a, b] == if Before(a, b, i, j) then t0[a][b] / Sum(t0[a]) else t0[a][b]
      {
        theta[i, j] := theta[i, j] / s;
        j := j + 1;
      }
      i := i + 1;
    }
    SnapshotIs(theta, Normalized(t0));
  }

  /** After normalisation every row sums to one. */
  lemma NormalizedRowsSumToOne(t: Matrix)
    requires RowSumsNonZero(t)
    ensures RowsSumToOne(Normalized(t))
  {
    var r := Normalized(t);
    forall i | 0 <= i < |t|
      ensures Sum(r[i]) == 1.0
    {
      var s := Sum(t[i]);
      assert forall j :: 0 <= j < |t[i]| ==> r[i][j] == (1.0 / s) * t[i][j];
      SumScaled(r[i], t[i], 1.0 / s);
    }
  }

  /** Normalisation leaves a row that already sums to one as it is, and zero cells at zero. */
  lemma NormalizedKeeps(t: Matrix)
    requires RowSumsNonZero(t)
    ensures forall i :: 0 <= i < |t| && Sum(t[i]) == 1.0 ==> Normalized(t)[i] == t[i]
    ensures forall i, j :: 0 <= i < |t| && 0 <= j < |t[i]| && t[i][j] == 0.0 ==> Normalized(t)[i][j] == 0.0
  {
    var r := Normalized(t);
    forall i | 0 <= i < |t| && Sum(t[i]) == 1.0
      ensures r[i] == t[i]
    {
      assert |r[i]| == |t[i]|;
    }
  }

  /** A row that already sums to one is its own normalisation. */
  lemma NormalizedUnitRow(t: Matrix, i: nat)
    requires RowSumsNonZero(t) && i < |t| && Sum(t[i]) == 1.0
    ensures Normalized(t)[i] == t[i]
  {
    assert |Normalized(t)[i]| == |t[i]|;
  }

  /** A matrix without negative entries becomes row-stochastic. */
  lemma NormalizedStochastic(t: Matrix)
    requires RowSumsNonZero(t)
    requires forall i, j :: 0 <= i < |t| && 0 <= j < |t[i]| ==> t[i][j] >= 0.0
    ensures Stochastic(Normalized(t))
  {
    var r := Normalized(t);
    NormalizedRowsSumToOne(t);
    forall i, j | 0 <= i < |t| && 0 <= j < |t[i]|
      ensures 0.0 <= r[i][j] <= 1.0
    {
      PairAtMostSum(t[i], j, j);
      SumNonNegative(t[i]);
      var s := Sum(t[i]);
      assert s > 0.0;
      assert t[i][j] <= s;
      DivideBelow(t[i][j], s);
    }
  }

  /** A matrix whose rows all sum to one is its own normalisation. */
  lemma NormalizedUnitRows(t: Matrix)
    requires RowsSumToOne(t)
    ensures RowSumsNonZero(t) && Normalized(t) == t
  {
    forall i | 0 <= i < |t|
      ensures Normalized(t)[i] == t[i]
    {
      NormalizedUnitRow(t, i);
    }
  }

  /** A row-stochastic matrix is left as it is by the shift and by the normalisation. */
  lemma StochasticStable(t: Matrix, fixed: set<(int, int)>, n: nat)
    requires n > 0 && IsMatrix(t, n, n) && Stochastic(t)
    ensures Shifted(t, fixed, n) == t
    ensures RowSumsNonZero(t) && Normalized(t) == t
  {
    assert forall i, j :: 0 <= i < n && 0 <= j < n ==> t[i][j] >= 0.0;
    ShiftedFacts(t, fixed, n);
    NormalizedUnitRows(t);
  }

  /** 0 <= x <= s with s > 0 gives 0 <= x / s <= 1. */
  lemma DivideBelow(x: real, s: real)
    requires 0.0 <= x <= s && s > 0.0
    ensures 0.0 <= x / s <= 1.0
  {
  }
}
