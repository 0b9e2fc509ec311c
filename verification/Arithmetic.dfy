/** Powers of two, for backoff and for shrinking rosters. */
module Arithmetic {

  function Pow2(n: nat): nat { if n == 0 then 1 else 2 * Pow2(n - 1) }

  lemma {:induction false} Pow2Grows(m: nat, n: nat)
    requires m <= n
    ensures 1 <= Pow2(m) <= Pow2(n)
  {
    if m < n {
      Pow2Grows(m, n - 1);
    } else if m > 0 {
      Pow2Grows(m - 1, m - 1);
    }
  }

  lemma HalfStep(a: nat, b: nat, p: nat)
    requires 2 * a >= b
    ensures a * (2 * p) >= b * p
  {
    assert a * (2 * p) == (2 * a) * p;
  }
}
