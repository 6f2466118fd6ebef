/** Sequence helpers shared by several modules of the model. */
module Seqs {

  /** `n` copies of `x`: `new Array(n).fill(x)`, or `'='.repeat(n)` on characters. */
  function Repeat<T>(x: T, n: nat): (r: seq<T>)
    ensures |r| == n && forall i :: 0 <= i < n ==> r[i] == x
  {
    if n == 0 then [] else Repeat(x, n - 1) + [x]
  }
}
