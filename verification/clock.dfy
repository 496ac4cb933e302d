/** Simulated time: the clock and the leak timer both advance by adding the
    step length once per tick. */
module Clock {

  /** The time accumulated by `n` ticks of length `dt`, summed tick by tick. */
  function Elapsed(n: nat, dt: real): real
    decreases n
  {
    if n == 0 then 0.0 else Elapsed(n - 1, dt) + dt
  }

  /** Summing `n` equal steps gives `n * dt`. */
  lemma {:induction false} ElapsedIsProduct(n: nat, dt: real)
    ensures Elapsed(n, dt) == (n as real) * dt
    decreases n
  {
    if n > 0 {
      ElapsedIsProduct(n - 1, dt);
      assert (n as real) * dt == ((n - 1) as real) * dt + dt;
    }
  }

  /** With non-negative steps the accumulated time never decreases. */
  lemma {:induction false} ElapsedMonotone(m: nat, n: nat, dt: real)
    requires m <= n && dt >= 0.0
    ensures Elapsed(m, dt) <= Elapsed(n, dt)
    decreases n
  {
    if m < n {
      ElapsedMonotone(m, n - 1, dt);
    }
  }
}
