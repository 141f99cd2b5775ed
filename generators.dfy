/**
  The random topology generator `get_random_w`. Row by row it draws a bit
  for every off-diagonal cell, then sets one drawn column of the row to 1.

  The random draws are inputs: `bits[i][j]` is the `randint(0, 1)` drawn
  for the cell (i, j), i != j (the diagonal entry of `bits` is never read),
  and `picks[i]` is the `randint(0, n - 1)` drawn at the end of row i.
*/
module Generators {
  import opened Matrices
  import opened InitialTheta

  /** What `randint` can return: bits in {0, 1} off the diagonal, picks in [0, n). */
  predicate DrawsValid(n: nat, bits: seq<seq<int>>, picks: seq<int>) {
    |bits| == n && |picks| == n &&
    (forall i :: 0 <= i < n ==> |bits[i]| == n) &&
    (forall i, j :: 0 <= i < n && 0 <= j < n && i != j ==> 0 <= bits[i][j] <= 1) &&
    (forall i :: 0 <= i < n ==> 0 <= picks[i] < n)
  }

  /** The cell (i, j) of the generated W. */
  function Cell(bits: seq<seq<int>>, picks: seq<int>, n: nat, i: nat, j: nat): real
    requires DrawsValid(n, bits, picks) && i < n && j < n
  {
    if j == picks[i] then 1.0 else if i != j then bits[i][j] as real else 0.0
  }

  /** The generated W. */
  function RandomW(n: nat, bits: seq<seq<int>>, picks: seq<int>): (w: Matrix)
    requires DrawsValid(n, bits, picks)
    ensures IsMatrix(w, n, n)
  {
    seq(n, i requires 0 <= i < n => seq(n, j requires 0 <= j < n => Cell(bits, picks, n, i, j)))
  }

  /**
    W is binary and every row holds a 1; an off-diagonal cell holds its
    drawn bit unless it is the row's pick; a diagonal cell is 1 exactly
    when the row's pick is its own column.
  */
  lemma RandomWFacts(n: nat, bits: seq<seq<int>>, picks: seq<int>)
    requires DrawsValid(n, bits, picks)
    ensures var w := RandomW(n, bits, picks);
      IsBinary(w) && (forall i :: 0 <= i < n ==> HasSuccessor(w, i))
    ensures var w := RandomW(n, bits, picks);
      (forall i, j :: 0 <= i < n && 0 <= j < n && i != j && j != picks[i] ==> w[i][j] == bits[i][j] as real) &&
      (forall i :: 0 <= i < n ==> w[i][picks[i]] == 1.0) &&
      (forall i :: 0 <= i < n ==> (w[i][i] == 1.0 <==> picks[i] == i))
  {
    var w := RandomW(n, bits, picks);
    forall i | 0 <= i < n
      ensures HasSuccessor(w, i)
    {
      assert w[i][picks[i]] == 1.0;
    }
    forall i, j | 0 <= i < n && 0 <= j < n
      ensures w[i][j] == 0.0 || w[i][j] == 1.0
    {
      if j != picks[i] && i != j {
        assert bits[i][j] == 0 || bits[i][j] == 1;
      }
    }
  }

  /**
    A generated W meets what both initial strategies ask of it: the uniform
    one always, the smart one whenever every omega is positive.
  */
  lemma RandomWInitialDefined(n: nat, bits: seq<seq<int>>, picks: seq<int>, omega: seq<real>)
    requires DrawsValid(n, bits, picks) && |omega| == n
    ensures UniformDefined(RandomW(n, bits, picks))
    ensures (forall j :: 0 <= j < n ==> omega[j] > 0.0) ==> SmartDefined(RandomW(n, bits, picks), omega, n)
  {
    var w := RandomW(n, bits, picks);
    RandomWFacts(n, bits, picks);
    BinaryUniformDefined(w);
    if forall j :: 0 <= j < n ==> omega[j] > 0.0 {
      var raw := SmartRaw(w, omega, n);
      forall i | 0 <= i < n
        ensures Sum(raw[i]) != 0.0
      {
        var k := picks[i];
        assert raw[i][k] == omega[k];
        PairAtMostSum(raw[i], k, k);
      }
    }
  }

  /** `get_random_w`: fills a zero matrix row by row; row i is written only in pass i. */
  method GetRandomW(n: nat, bits: seq<seq<int>>, picks: seq<int>) returns (w: array2<real>)
    requires DrawsValid(n, bits, picks)
    ensures fresh(w) && w.Length0 == w.Length1 == n
    ensures Snapshot(w) == RandomW(n, bits, picks)
  {
    w := new real[n, n]((i, j) => 0.0);
    var i := 0;
    while i < n
      invariant 0 <= i <= n
      invariant forall a, b :: 0 <= a < n && 0 <= b < n ==>
        w[a, b] == if a < i then Cell(bits, picks, n, a, b) else 0.0
    {
      var j := 0;
      while j < n
        invariant 0 <= j <= n
        invariant forall a, b :: 0 <= a < n && 0 <= b < n ==>
          w[a, b] == if a < i then Cell(bits, picks, n, a, b)
                     else if a == i && b < j && a != b then bits[a][b] as real
                     else 0.0
      {
        if i != j {
          w[i, j] := bits[i][j] as real;
        }
        j := j + 1;
      }
      w[i, picks[i]] := 1.0;
      i := i + 1;
    }
    SnapshotIs(w, RandomW(n, bits, picks));
  }
}
