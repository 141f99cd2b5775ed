/**
  `utils.py` holds a second `get_random_w`, the same code as the one in
  `generators.py`; with the same draws it builds the same W.
*/
module Utils {
  import opened Matrices
  import Generators

  /** `get_random_w` of `utils.py`: the W of Generators.RandomW for the same draws. */
  method GetRandomW(n: nat, bits: seq<seq<int>>, picks: seq<int>) returns (w: array2<real>)
    requires Generators.DrawsValid(n, bits, picks)
    ensures fresh(w) && w.Length0 == w.Length1 == n
    ensures Snapshot(w) == Generators.RandomW(n, bits, picks)
  {
    w := Generators.GetRandomW(n, bits, picks);
  }
}
