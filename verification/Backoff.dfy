/** Delays between the retries of a rate-limited dispatch. The random factor is a parameter in [0, 1). */
module Backoff {
  import opened Numbers
  datatype Policy = Policy(base: real, max: real, jitter: real)

  function Power(n: nat): nat {
    if n == 0 then 1 else 2 * Power(n - 1)
  }

  function Doubled(p: Policy, attempt: nat): real
    requires attempt >= 1
  {
    MinReal(p.max, p.base * Power(attempt - 1) as real)
  }

  function Jitter(delay: real, ratio: real, random: real): real {
    delay * ratio * random
  }

  function Delay(p: Policy, attempt: nat, random: real): real
    requires attempt >= 1
  {
    var d := Doubled(p, attempt);
    if p.jitter <= 0.0 then d else MinReal(p.max, d + Jitter(d, p.jitter, random))
  }

  /** From one attempt to the next the delay without jitter doubles, until it stays at the maximum. */
  lemma DelayDoubles(p: Policy, attempt: nat)
    requires attempt >= 1 && p.base >= 0.0 && p.max >= 0.0
    ensures 0.0 <= Doubled(p, attempt) <= Doubled(p, attempt + 1) == MinReal(p.max, 2.0 * Doubled(p, attempt))
    ensures Doubled(p, 1) == if p.base <= p.max then p.base else p.max
  {
    var b, k := p.base, Power(attempt - 1) as real;
    assert Power(attempt) as real == 2.0 * k;
    ProductOf(b, k);
  }

  lemma ProductOf(b: real, k: real)
    requires b >= 0.0 && k >= 0.0
    ensures b * k >= 0.0 && b * (2.0 * k) == 2.0 * (b * k)
  {
  }

  /** Jitter only lengthens a delay, by at most its ratio, and never beyond the maximum. */
  lemma DelayWithin(p: Policy, attempt: nat, random: real)
    requires attempt >= 1 && p.base >= 0.0 && p.max >= 0.0 && 0.0 <= random < 1.0
    ensures Doubled(p, attempt) <= Delay(p, attempt, random) <= p.max
    ensures p.jitter > 0.0 ==> Delay(p, attempt, random) <= Doubled(p, attempt) + Jitter(Doubled(p, attempt), p.jitter, 1.0)
    ensures p.jitter <= 0.0 ==> Delay(p, attempt, random) == Doubled(p, attempt)
    ensures p.jitter > 0.0 ==>
              var d := Doubled(p, attempt);
              Delay(p, attempt, random) == if d + d * p.jitter * random <= p.max then d + d * p.jitter * random else p.max
  {
    DelayDoubles(p, attempt);
    if p.jitter > 0.0 {
      JitterWithin(Doubled(p, attempt), p.jitter, random);
    }
  }

  lemma JitterWithin(d: real, j: real, u: real)
    requires d >= 0.0 && j > 0.0 && 0.0 <= u < 1.0
    ensures 0.0 <= Jitter(d, j, u) <= Jitter(d, j, 1.0)
  {
    assert d * j >= 0.0;
    Shrinks(d * j, u);
  }

  lemma Shrinks(a: real, u: real)
    requires a >= 0.0 && 0.0 <= u < 1.0
    ensures 0.0 <= a * u <= a
  {
  }
}
