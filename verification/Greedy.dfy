/** The longest initial run of successes, as a loop with an early exit finds it. */
module Greedy {

  /** How many of the first `len` tests pass in a row, `n` of them having passed already. */
  function Run(passes: nat -> bool, n: nat, len: nat): (k: nat)
    requires n <= len
    ensures n <= k <= len
    decreases len - n
  {
    if n < len && passes(n + 1) then Run(passes, n + 1, len) else n
  }

  lemma {:induction false} RunPasses(passes: nat -> bool, n: nat, len: nat)
    requires n <= len
    ensures var k := Run(passes, n, len);
            && (forall m :: n < m <= k ==> passes(m))
            && (k < len ==> !passes(k + 1))
    decreases len - n
  {
    if n < len && passes(n + 1) {
      RunPasses(passes, n + 1, len);
    }
  }

  /** If a failed test rules out all later ones, the run is everything that passes. */
  lemma RunIsMaximal(passes: nat -> bool, len: nat, m: nat)
    requires forall i: nat, j: nat :: 0 < i <= j <= len && passes(j) ==> passes(i)
    requires 0 < m <= len
    ensures m <= Run(passes, 0, len) <==> passes(m)
  {
    RunPasses(passes, 0, len);
  }
}
