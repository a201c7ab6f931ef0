/** Arithmetic of overlapping windows of `size` over n characters, one every `step`. */
module Windows {
  import opened Numbers
  function Start(step: nat, k: nat): nat {
    if k == 0 then 0 else Start(step, k - 1) + step
  }

  lemma {:induction false} StartIsMultiple(step: nat, k: nat)
    ensures Start(step, k) == k * step
  {
    if k > 0 {
      StartIsMultiple(step, k - 1);
    }
  }

  function End(n: nat, size: nat, step: nat, k: nat): nat {
    Min(Start(step, k) + size, n)
  }

  lemma StartNext(step: nat, k: nat)
    ensures Start(step, k + 1) == Start(step, k) + step
  {
  }

  lemma {:induction false} StartGrows(step: nat, j: nat, k: nat)
    requires j <= k
    ensures Start(step, j) <= Start(step, k) && (step > 0 && j < k ==> Start(step, j) < Start(step, k))
    decreases k
  {
    if j < k {
      StartGrows(step, j, k - 1);
      StartNext(step, k - 1);
    }
  }

  /** Windows are drawn until one reaches the end of a text that is not empty. */
  ghost predicate IsCount(n: nat, size: nat, step: nat, count: nat) {
    && count > 0 && Start(step, count - 1) < n && n <= Start(step, count - 1) + size
    && forall k: nat :: k + 1 < count ==> Start(step, k) + size < n
  }

  /** With neither gaps nor idle steps, the last window is the one whose end is the end of the text. */
  lemma WindowsCover(n: nat, size: nat, step: nat, count: nat, i: nat) returns (k: nat)
    requires IsCount(n, size, step, count) && 0 < step <= size && i < n
    ensures k < count && Start(step, k) <= i < End(n, size, step, k)
  {
    k := count - 1;
    while Start(step, k) > i
      invariant k < count && i < End(n, size, step, k)
    {
      StartNext(step, k - 1);
      k := k - 1;
    }
  }

  /** Neighbouring windows share exactly size - step characters, and only the last one reaches the end. */
  lemma NeighboursOverlap(n: nat, size: nat, step: nat, count: nat, k: nat)
    requires IsCount(n, size, step, count) && k + 1 < count
    ensures Start(step, k + 1) == End(n, size, step, k) - (size - step)
    ensures End(n, size, step, k) < n && End(n, size, step, count - 1) == n
  {
    StartNext(step, k);
  }

  lemma CountUnique(n: nat, size: nat, step: nat, a: nat, b: nat)
    requires IsCount(n, size, step, a) && IsCount(n, size, step, b)
    ensures a == b
  {
  }

  /** The number of windows, in closed form. */
  function Count(n: nat, size: nat, step: nat): nat
    requires step > 0
  {
    if n <= size then 1 else 1 + (n - size + step - 1) / step
  }

  lemma CountIs(n: nat, size: nat, step: nat)
    requires 0 < step <= size && n > 0
    ensures IsCount(n, size, step, Count(n, size, step))
  {
    var count := Count(n, size, step);
    if n > size {
      var q := (n - size + step - 1) / step;
      StartIsMultiple(step, q);
      assert q * step <= n - size + step - 1 < q * step + step;
      StartNext(step, q - 1);
      forall k: nat | k + 1 < count ensures Start(step, k) + size < n {
        StartGrows(step, k, q - 1);
      }
    }
  }
}
