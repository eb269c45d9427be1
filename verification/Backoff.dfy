/** The delays a failing row waits (Repository.fail), one by one and added up. */
module Backoff {
  import opened WorkQueue

  /** Every delay lies between thirty seconds and six hours, and later tries wait no less. */
  lemma DelayIsBoundedAndGrows(a: nat, b: nat)
    requires a <= b
    ensures DELAY_FLOOR <= Delay(a) <= Delay(b) <= DELAY_CAP
  {
    Pow2Grows(0, if a == 0 then 0 else a - 1);
    Pow2Grows(if a == 0 then 0 else a - 1, if b == 0 then 0 else b - 1);
  }

  /** The cap bites from the eleventh attempt on, and not before. */
  lemma CapBitesFromEleven(a: nat)
    requires a >= 1
    ensures Delay(a) == DELAY_FLOOR * Pow2(a - 1) <==> a <= 10
  {
    assert Pow2(9) == 512 && Pow2(10) == 1024 by {
      assert Pow2(3) == 8 && Pow2(6) == 64;
    }
    if a <= 10 { Pow2Grows(a - 1, 9); } else { Pow2Grows(10, a - 1); }
  }

  /** Waiting imposed by the first `n` failures of a life that goes on. */
  function TotalDelay(n: nat): nat {
    if n == 0 then 0 else TotalDelay(n - 1) + Delay(n)
  }

  lemma {:induction false} TotalDelayUncapped(n: nat)
    ensures TotalDelay(n) <= DELAY_FLOOR * (Pow2(n) - 1)
    ensures n <= 10 ==> TotalDelay(n) == DELAY_FLOOR * (Pow2(n) - 1)
  {
    if n > 0 {
      TotalDelayUncapped(n - 1);
      CapBitesFromEleven(n);
    }
  }

  lemma {:induction false} TotalDelayCapped(n: nat)
    ensures TotalDelay(n) <= DELAY_CAP * n
  {
    if n > 0 { TotalDelayCapped(n - 1); }
  }

  /**
   * The whole wait imposed on a row that is tried `maxAttempts` times: at most both
   * min(30 * (2^(M-1) - 1), 21600 * (M - 1)), and exactly the first when M is at most 11.
   */
  lemma WaitOfOneLife(maxAttempts: nat)
    requires maxAttempts >= 1
    ensures TotalDelay(maxAttempts - 1)
            <= Min(DELAY_FLOOR * (Pow2(maxAttempts - 1) - 1), DELAY_CAP * (maxAttempts - 1))
    ensures maxAttempts <= 11 ==> TotalDelay(maxAttempts - 1) == DELAY_FLOOR * (Pow2(maxAttempts - 1) - 1)
  {
    TotalDelayUncapped(maxAttempts - 1);
    TotalDelayCapped(maxAttempts - 1);
  }
}
