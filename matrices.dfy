/**
  Vectors and matrices of reals, the arithmetic the solvers need on them
  (sums, the vector-matrix product omega . theta, the residual and its
  squared norm, the smallest entry), and the bridge between a mutable
  `array2<real>` and its value as a sequence of rows.

  Reals stand in for the floating-point numbers of the original, so every
  `== 0` and `== 1` test is exact equality here.
*/
module Matrices {

  datatype Option<T> = None | Some(value: T)

  /** A matrix as a sequence of rows. */
  type Matrix = seq<seq<real>>

  predicate IsMatrix(m: Matrix, rows: nat, cols: nat) {
    |m| == rows && forall i :: 0 <= i < rows ==> |m[i]| == cols
  }

  function Abs(x: real): real {
    if x < 0.0 then -x else x
  }

  /** Python's `sum`, folding from the left. */
  function Sum(s: seq<real>): real {
    if |s| == 0 then 0.0 else Sum(s[..|s| - 1]) + s[|s| - 1]
  }

  /** The value held by a two-dimensional array, row by row. */
  function Snapshot(a: array2<real>): (m: Matrix)
    reads a
    ensures IsMatrix(m, a.Length0, a.Length1)
    ensures forall i, j :: 0 <= i < a.Length0 && 0 <= j < a.Length1 ==> m[i][j] == a[i, j]
  {
    seq(a.Length0, i requires 0 <= i < a.Length0 reads a =>
      seq(a.Length1, j requires 0 <= j < a.Length1 reads a => a[i, j]))
  }

  /** Row `i` of an array. */
  function Row(a: array2<real>, i: nat): (r: seq<real>)
    requires i < a.Length0
    reads a
    ensures |r| == a.Length1
    ensures forall j :: 0 <= j < a.Length1 ==> r[j] == a[i, j]
  {
    seq(a.Length1, j requires 0 <= j < a.Length1 reads a => a[i, j])
  }

  /** An array whose every cell agrees with `m` has `m` as its value. */
  lemma SnapshotIs(a: array2<real>, m: Matrix)
    requires IsMatrix(m, a.Length0, a.Length1)
    requires forall i, j :: 0 <= i < a.Length0 && 0 <= j < a.Length1 ==> a[i, j] == m[i][j]
    ensures Snapshot(a) == m
  {
    var s := Snapshot(a);
    forall i | 0 <= i < a.Length0
      ensures s[i] == m[i]
    {
      assert |s[i]| == |m[i]|;
    }
  }

  /** The column `j` of a matrix. */
  function Column(m: Matrix, j: nat): (c: seq<real>)
    requires forall i :: 0 <= i < |m| ==> j < |m[i]|
    ensures |c| == |m|
  {
    seq(|m|, i requires 0 <= i < |m| => m[i][j])
  }

  /** Inner product of two vectors of the same length. */
  function Dot(u: seq<real>, v: seq<real>): real
    requires |u| == |v|
  {
    if |u| == 0 then 0.0 else Dot(u[..|u| - 1], v[..|v| - 1]) + u[|u| - 1] * v[|v| - 1]
  }

  /** The row vector `v` times the matrix `m` (numpy's `v.dot(m)`). */
  function VecMat(v: seq<real>, m: Matrix, cols: nat): (r: seq<real>)
    requires IsMatrix(m, |v|, cols)
    ensures |r| == cols
  {
    seq(cols, j requires 0 <= j < cols => Dot(v, Column(m, j)))
  }

  /** Component-wise difference `out - target`. */
  function Residual(out: seq<real>, target: seq<real>): (d: seq<real>)
    requires |out| == |target|
    ensures |d| == |out|
  {
    seq(|out|, k requires 0 <= k < |out| => out[k] - target[k])
  }

  /** The sum of the squares of the components. */
  function SumSquares(d: seq<real>): (r: real)
    ensures r >= 0.0
  {
    if |d| == 0 then 0.0 else SumSquares(d[..|d| - 1]) + d[|d| - 1] * d[|d| - 1]
  }

  /**
    The loop condition shared by all solvers: some component of
    `out - target` is further than `eps` from zero.
  */
  predicate Unconverged(out: seq<real>, target: seq<real>, eps: real)
    requires |out| == |target|
  {
    exists k :: 0 <= k < |out| && Abs(out[k] - target[k]) > eps
  }

  /** Every row is non-empty. */
  predicate NonEmptyRows(m: Matrix) {
    |m| > 0 && forall i :: 0 <= i < |m| ==> |m[i]| > 0
  }

  /** The smallest entry of a non-empty vector. */
  function RowMin(r: seq<real>): real
    requires |r| > 0
  {
    if |r| == 1 then r[0]
    else
      var rest := RowMin(r[..|r| - 1]);
      if r[|r| - 1] < rest then r[|r| - 1] else rest
  }

  /** The smallest entry of a matrix (numpy's `np.min`). */
  function MatMin(t: Matrix): real
    requires NonEmptyRows(t)
  {
    if |t| == 1 then RowMin(t[0])
    else
      var rest := MatMin(t[..|t| - 1]);
      var last := RowMin(t[|t| - 1]);
      if last < rest then last else rest
  }

  /** RowMin is at most every entry and is one of them. */
  lemma {:induction false} RowMinIsMin(r: seq<real>)
    requires |r| > 0
    ensures forall j :: 0 <= j < |r| ==> RowMin(r) <= r[j]
    ensures exists j :: 0 <= j < |r| && RowMin(r) == r[j]
  {
    if |r| > 1 {
      var p := r[..|r| - 1];
      RowMinIsMin(p);
      assert forall j :: 0 <= j < |p| ==> p[j] == r[j];
      var k :| 0 <= k < |p| && RowMin(p) == p[k];
      assert RowMin(r) == r[k] || RowMin(r) == r[|r| - 1];
    } else {
      assert RowMin(r) == r[0];
    }
  }

  /** MatMin is at most every entry and is one of them. */
  lemma {:induction false} MatMinIsMin(t: Matrix)
    requires NonEmptyRows(t)
    ensures forall i, j :: 0 <= i < |t| && 0 <= j < |t[i]| ==> MatMin(t) <= t[i][j]
    ensures exists i, j :: 0 <= i < |t| && 0 <= j < |t[i]| && MatMin(t) == t[i][j]
  {
    var last := t[|t| - 1];
    RowMinIsMin(last);
    var b :| 0 <= b < |last| && RowMin(last) == last[b];
    if |t| > 1 {
      var p := t[..|t| - 1];
      MatMinIsMin(p);
      assert forall i :: 0 <= i < |p| ==> p[i] == t[i];
      var a, c :| 0 <= a < |p| && 0 <= c < |p[a]| && MatMin(p) == p[a][c];
      if MatMin(t) == RowMin(last) {
        assert MatMin(t) == t[|t| - 1][b];
      } else {
        assert MatMin(t) == t[a][c];
      }
    } else {
      assert MatMin(t) == t[0][b];
    }
  }

  /** Every row's sum is non-zero, so each row can be divided by it. */
  predicate RowSumsNonZero(t: Matrix) {
    forall i :: 0 <= i < |t| ==> Sum(t[i]) != 0.0
  }

  /** Every row sums to one. */
  predicate RowsSumToOne(t: Matrix) {
    forall i :: 0 <= i < |t| ==> Sum(t[i]) == 1.0
  }

  /** Every row sums to one and every entry lies in [0, 1]. */
  predicate Stochastic(t: Matrix) {
    RowsSumToOne(t) &&
    (forall i, j :: 0 <= i < |t| && 0 <= j < |t[i]| ==> 0.0 <= t[i][j] <= 1.0)
  }

  // ---------------------------------------------------------------------
  // Facts about Sum.

  /** Scaling every entry scales the sum. */
  lemma {:induction false} SumScaled(a: seq<real>, b: seq<real>, c: real)
    requires |a| == |b|
    requires forall j :: 0 <= j < |a| ==> a[j] == c * b[j]
    ensures Sum(a) == c * Sum(b)
  {
    if |a| > 0 {
      var n := |a| - 1;
      SumScaled(a[..n], b[..n], c);
      calc {
        Sum(a);
        Sum(a[..n]) + a[n];
        c * Sum(b[..n]) + c * b[n];
        c * (Sum(b[..n]) + b[n]);
        c * Sum(b);
      }
    }
  }

  lemma {:induction false} SumNonNegative(s: seq<real>)
    requires forall j :: 0 <= j < |s| ==> s[j] >= 0.0
    ensures Sum(s) >= 0.0
  {
    if |s| > 0 {
      SumNonNegative(s[..|s| - 1]);
    }
  }

  /** With no negative entry, any two distinct entries add up to at most the sum. */
  lemma {:induction false} PairAtMostSum(s: seq<real>, j: nat, k: nat)
    requires forall x :: 0 <= x < |s| ==> s[x] >= 0.0
    requires j < |s| && k < |s|
    ensures j != k ==> s[j] + s[k] <= Sum(s)
    ensures s[j] <= Sum(s)
  {
    var n := |s| - 1;
    var p := s[..n];
    SumNonNegative(p);
    if j == n || k == n {
      var other := if j == n then k else j;
      if other < n {
        PairAtMostSum(p, other, other);
      }
      if j != n {
        PairAtMostSum(p, j, j);
      }
    } else {
      PairAtMostSum(p, j, k);
    }
  }

  /** A vector that is component-wise at least another has at least its sum. */
  lemma {:induction false} SumMonotone(a: seq<real>, b: seq<real>)
    requires |a| == |b|
    requires forall j :: 0 <= j < |a| ==> a[j] >= b[j]
    ensures Sum(a) >= Sum(b)
  {
    if |a| > 0 {
      SumMonotone(a[..|a| - 1], b[..|b| - 1]);
    }
  }

  /** A vector that is zero except at `k` sums to its entry at `k`. */
  lemma {:induction false} SumSingle(s: seq<real>, k: nat)
    requires k < |s|
    requires forall j :: 0 <= j < |s| && j != k ==> s[j] == 0.0
    ensures Sum(s) == s[k]
  {
    var n := |s| - 1;
    if k < n {
      SumSingle(s[..n], k);
    } else {
      SumZero(s[..n]);
    }
  }

  lemma {:induction false} SumZero(s: seq<real>)
    requires forall j :: 0 <= j < |s| ==> s[j] == 0.0
    ensures Sum(s) == 0.0
  {
    if |s| > 0 {
      SumZero(s[..|s| - 1]);
    }
  }
}
