/**
  The two strategies for the starting routing matrix theta0, built from the
  topology matrix W (1 where a transition i -> j is permitted) and the
  intensity vector omega:

  - uniform: row i spreads its mass evenly over the permitted columns,
    `1 / deg(i)` where `deg(i)` is the sum of row i of W;
  - smart: row i holds `omega[j]` at the permitted columns, and each row is
    then divided by its sum.

  Both fill a zero buffer with nested loops; the smart strategy then
  normalises its rows in place.
*/
module InitialTheta {
  import opened Matrices
  import opened Steps

  /** Every entry of W is 0 or 1. */
  predicate IsBinary(w: Matrix) {
    forall i, j :: 0 <= i < |w| && 0 <= j < |w[i]| ==> w[i][j] == 0.0 || w[i][j] == 1.0
  }

  /** Row `i` of W has a 1 somewhere. */
  predicate HasSuccessor(w: Matrix, i: nat)
    requires i < |w|
  {
    exists j :: 0 <= j < |w[i]| && w[i][j] == 1.0
  }

  // ---------------------------------------------------------------------
  // Uniform strategy.

  /**
    The uniform strategy divides by `deg(i)` only in rows that hold a 1;
    those rows need a non-zero sum.
  */
  predicate UniformDefined(w: Matrix) {
    forall i, j :: 0 <= i < |w| && 0 <= j < |w[i]| && w[i][j] == 1.0 ==> Sum(w[i]) != 0.0
  }

  function UniformTheta(w: Matrix, cols: nat): (t: Matrix)
    requires IsMatrix(w, |w|, cols) && UniformDefined(w)
    ensures IsMatrix(t, |w|, cols)
  {
    seq(|w|, i requires 0 <= i < |w| =>
      seq(cols, j requires 0 <= j < cols => if w[i][j] == 1.0 then 1.0 / Sum(w[i]) else 0.0))
  }

  /**
    The uniform starting matrix: `1 / deg(i)` where W holds a 1, 0 elsewhere.
    `omega` is part of the strategies' common signature and is not used.
  */
  method GetUniformInitialTheta(w: Matrix, cols: nat, omega: seq<real>) returns (theta: array2<real>)
    requires IsMatrix(w, |w|, cols) && UniformDefined(w)
    ensures fresh(theta) && theta.Length0 == |w| && theta.Length1 == cols
    ensures forall i, j :: 0 <= i < |w| && 0 <= j < cols ==>
      theta[i, j] == if w[i][j] == 1.0 then 1.0 / Sum(w[i]) else 0.0
    ensures Snapshot(theta) == UniformTheta(w, cols)
  {
    theta := new real[|w|, cols]((i, j) => 0.0);
    var degrees: seq<real> := [];
    var i := 0;
    while i < |w|
      invariant 0 <= i <= |w| && |degrees| == i
      invariant forall k :: 0 <= k < i ==> degrees[k] == Sum(w[k])
    {
      degrees := degrees + [Sum(w[i])];
      i := i + 1;
    }
    i := 0;
    while i < |w|
      invariant 0 <= i <= |w|
      invariant forall a, b :: 0 <= a < |w| && 0 <= b < cols ==>
        theta[a, b] == if a < i && w[a][b] == 1.0 then 1.0 / Sum(w[a]) else 0.0
    {
      var j := 0;
      while j < cols
        invariant 0 <= j <= cols
        invariant forall a, b :: 0 <= a < |w| && 0 <= b < cols ==>
          theta[a, b] == if Before(a, b, i, j) && w[a][b] == 1.0 then 1.0 / Sum(w[a]) else 0.0
      {
        if w[i][j] == 1.0 {
          theta[i, j] := 1.0 / degrees[i];
        }
        j := j + 1;
      }
      i := i + 1;
    }
    SnapshotIs(theta, UniformTheta(w, cols));
  }

  /** A 0/1 topology always meets the uniform strategy's demand. */
  lemma BinaryUniformDefined(w: Matrix)
    requires IsBinary(w)
    ensures UniformDefined(w)
  {
    forall i, j | 0 <= i < |w| && 0 <= j < |w[i]| && w[i][j] == 1.0
      ensures Sum(w[i]) != 0.0
    {
      PairAtMostSum(w[i], j, j);
    }
  }

  /**
    For a 0/1 row of W, the uniform row sums to exactly 1 when W's row
    holds a 1, and is all zero (no division happens) when it holds none.
  */
  lemma UniformRowSum(w: Matrix, cols: nat, i: nat)
    requires IsMatrix(w, |w|, cols) && UniformDefined(w) && i < |w|
    requires forall j :: 0 <= j < cols ==> w[i][j] == 0.0 || w[i][j] == 1.0
    ensures HasSuccessor(w, i) ==> Sum(UniformTheta(w, cols)[i]) == 1.0
    ensures !HasSuccessor(w, i) ==>
      forall j :: 0 <= j < cols ==> UniformTheta(w, cols)[i][j] == 0.0
  {
    var r := UniformTheta(w, cols)[i];
    if HasSuccessor(w, i) {
      var k :| 0 <= k < cols && w[i][k] == 1.0;
      var d := Sum(w[i]);
      PairAtMostSum(w[i], k, k);
      assert d >= 1.0;
      forall j | 0 <= j < cols
        ensures r[j] == (1.0 / d) * w[i][j]
      {
      }
      SumScaled(r, w[i], 1.0 / d);
    }
  }

  /**
    A row of W with exactly one 1 gives a uniform row holding 1 there and 0
    elsewhere.
  */
  lemma UniformSingleSuccessor(w: Matrix, cols: nat, i: nat, k: nat)
    requires IsMatrix(w, |w|, cols) && UniformDefined(w) && i < |w| && k < cols
    requires w[i][k] == 1.0
    requires forall j :: 0 <= j < cols && j != k ==> w[i][j] == 0.0
    ensures UniformTheta(w, cols)[i][k] == 1.0
    ensures forall j :: 0 <= j < cols && j != k ==> UniformTheta(w, cols)[i][j] == 0.0
  {
    SumSingle(w[i], k);
  }

  // ---------------------------------------------------------------------
  // Smart (omega-weighted) strategy.

  /** Before normalisation: `omega[j]` where W holds a 1, 0 elsewhere. */
  function SmartRaw(w: Matrix, omega: seq<real>, cols: nat): (t: Matrix)
    requires IsMatrix(w, |w|, cols) && cols <= |omega|
    ensures IsMatrix(t, |w|, cols)
  {
    seq(|w|, i requires 0 <= i < |w| =>
      seq(cols, j requires 0 <= j < cols => if w[i][j] == 1.0 then omega[j] else 0.0))
  }

  /** The smart strategy divides every row by its permitted omega sum. */
  predicate SmartDefined(w: Matrix, omega: seq<real>, cols: nat)
    requires IsMatrix(w, |w|, cols) && cols <= |omega|
  {
    RowSumsNonZero(SmartRaw(w, omega, cols))
  }

  function SmartTheta(w: Matrix, omega: seq<real>, cols: nat): (t: Matrix)
    requires IsMatrix(w, |w|, cols) && cols <= |omega| && SmartDefined(w, omega, cols)
    ensures IsMatrix(t, |w|, cols)
  {
    Normalized(SmartRaw(w, omega, cols))
  }

  /** Fills `omega[j]` at the permitted cells of a zero buffer, then normalises the rows. */
  method GetSmartInitialTheta(w: Matrix, cols: nat, omega: seq<real>) returns (theta: array2<real>)
    requires IsMatrix(w, |w|, cols) && cols <= |omega| && SmartDefined(w, omega, cols)
    ensures fresh(theta) && theta.Length0 == |w| && theta.Length1 == cols
    ensures Snapshot(theta) == SmartTheta(w, omega, cols)
  {
    theta := new real[|w|, cols]((i, j) => 0.0);
    var i := 0;
    while i < |w|
      invariant 0 <= i <= |w|
      invariant forall a, b :: 0 <= a < |w| && 0 <= b < cols ==>
        theta[a, b] == if a < i && w[a][b] == 1.0 then omega[b] else 0.0
    {
      var j := 0;
      while j < cols
        invariant 0 <= j <= cols
        invariant forall a, b :: 0 <= a < |w| && 0 <= b < cols ==>
          theta[a, b] == if Before(a, b, i, j) && w[a][b] == 1.0 then omega[b] else 0.0
      {
        if w[i][j] == 1.0 {
          theta[i, j] := omega[j];
        }
        j := j + 1;
      }
      i := i + 1;
    }
    SnapshotIs(theta, SmartRaw(w, omega, cols));
    NormalizeRows(theta);
  }

  /**
    Each smart row sums to 1; cells where W holds no 1 are 0; and with a
    non-negative omega every entry lies in [0, 1].
  */
  lemma SmartFacts(w: Matrix, omega: seq<real>, cols: nat)
    requires IsMatrix(w, |w|, cols) && cols <= |omega| && SmartDefined(w, omega, cols)
    ensures forall i :: 0 <= i < |w| ==> Sum(SmartTheta(w, omega, cols)[i]) == 1.0
    ensures forall i, j :: 0 <= i < |w| && 0 <= j < cols && w[i][j] != 1.0 ==>
      SmartTheta(w, omega, cols)[i][j] == 0.0
    ensures (forall j :: 0 <= j < |omega| ==> omega[j] >= 0.0) ==> Stochastic(SmartTheta(w, omega, cols))
  {
    var raw := SmartRaw(w, omega, cols);
    NormalizedRowsSumToOne(raw);
    NormalizedKeeps(raw);
    if forall j :: 0 <= j < |omega| ==> omega[j] >= 0.0 {
      NormalizedStochastic(raw);
    }
  }

  // ---------------------------------------------------------------------
  // Rows holding a 1.

  /**
    A cell equal to 1 sits in a row whose entries are all 0 or 1 and which
    sums to 1: such a row is entirely fixed and stays as it is.
  */
  predicate OnesAlone(t: Matrix) {
    forall i, j :: 0 <= i < |t| && 0 <= j < |t[i]| && t[i][j] == 1.0 ==>
      (forall k :: 0 <= k < |t[i]| ==> t[i][k] == 0.0 || t[i][k] == 1.0) && Sum(t[i]) == 1.0
  }

  lemma UniformOnesAlone(w: Matrix, cols: nat)
    requires IsMatrix(w, |w|, cols) && IsBinary(w)
    ensures UniformDefined(w) && OnesAlone(UniformTheta(w, cols))
  {
    BinaryUniformDefined(w);
    var t := UniformTheta(w, cols);
    forall i, j | 0 <= i < |t| && 0 <= j < |t[i]| && t[i][j] == 1.0
      ensures forall k :: 0 <= k < |t[i]| ==> t[i][k] == 0.0 || t[i][k] == 1.0
      ensures Sum(t[i]) == 1.0
    {
      assert w[i][j] == 1.0;
      var d := Sum(w[i]);
      assert 1.0 / d == 1.0;
      forall k | 0 <= k < cols && k != j
        ensures w[i][k] == 0.0
      {
        PairAtMostSum(w[i], j, k);
      }
      UniformSingleSuccessor(w, cols, i, j);
      assert HasSuccessor(w, i);
      UniformRowSum(w, cols, i);
    }
  }

  lemma SmartOnesAlone(w: Matrix, omega: seq<real>, cols: nat)
    requires IsMatrix(w, |w|, cols) && cols <= |omega| && SmartDefined(w, omega, cols)
    requires forall j :: 0 <= j < |omega| ==> omega[j] >= 0.0
    ensures OnesAlone(SmartTheta(w, omega, cols))
  {
    var raw := SmartRaw(w, omega, cols);
    var t := SmartTheta(w, omega, cols);
    SmartFacts(w, omega, cols);
    forall i, j | 0 <= i < |t| && 0 <= j < |t[i]| && t[i][j] == 1.0
      ensures forall k :: 0 <= k < |t[i]| ==> t[i][k] == 0.0 || t[i][k] == 1.0
    {
      var s := Sum(raw[i]);
      assert raw[i][j] / s == 1.0;
      assert raw[i][j] == s;
      forall k | 0 <= k < cols && k != j
        ensures t[i][k] == 0.0
      {
        PairAtMostSum(raw[i], j, k);
        assert raw[i][k] == 0.0;
      }
    }
  }

  // ---------------------------------------------------------------------
  // Choosing a strategy.

  /** The callable the solvers receive, one of the two strategies. */
  datatype Policy = Uniform | Smart

  /** The chosen strategy's demand on a square W and omega of matching size. */
  predicate InitialDefined(policy: Policy, w: Matrix, omega: seq<real>)
    requires IsMatrix(w, |omega|, |omega|)
  {
    match policy
    case Uniform => UniformDefined(w)
    case Smart => SmartDefined(w, omega, |omega|)
  }

  function StartTheta(policy: Policy, w: Matrix, omega: seq<real>): (t: Matrix)
    requires IsMatrix(w, |omega|, |omega|) && InitialDefined(policy, w, omega)
    ensures IsMatrix(t, |omega|, |omega|)
  {
    match policy
    case Uniform => UniformTheta(w, |omega|)
    case Smart => SmartTheta(w, omega, |omega|)
  }

  /** `get_initial_theta(w, omega)` for the chosen strategy. */
  method GetInitialTheta(policy: Policy, w: Matrix, omega: seq<real>) returns (theta: array2<real>)
    requires IsMatrix(w, |omega|, |omega|) && InitialDefined(policy, w, omega)
    ensures fresh(theta) && theta.Length0 == theta.Length1 == |omega|
    ensures Snapshot(theta) == StartTheta(policy, w, omega)
  {
    match policy
    case Uniform =>
      theta := GetUniformInitialTheta(w, |omega|, omega);
    case Smart =>
      theta := GetSmartInitialTheta(w, |omega|, omega);
  }
}
