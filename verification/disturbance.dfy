/** The leak disturbance: an operator-applied leak rate that the simulation
    loop expires once its timer reaches the requested duration. */
module Disturbance {
  import opened Clock

  /** A number typed by the operator after `parseFloat`: either a real or NaN. */
  datatype Reading = Number(value: real) | NaN

  /** `currentLeak` (PSI/s), `leakTimer` (seconds the leak has been active) and
      `leakDuration` (seconds it should stay active). */
  datatype LeakState = LeakState(rate: real, timer: real, duration: real)

  /** No leak, as at page load. */
  const NoLeak: LeakState := LeakState(0.0, 0.0, 0.0)

  /** The "apply leak" command: a NaN or negative rate is rejected and changes
      nothing; otherwise the leak starts afresh with the given rate and duration. */
  function ApplyLeak(s: LeakState, v: Reading, d: real): (r: LeakState)
    ensures (v.NaN? || v.value < 0.0) ==> r == s
    ensures v.Number? && v.value >= 0.0 ==> r == LeakState(v.value, 0.0, d)
  {
    if v.NaN? || v.value < 0.0 then s
    else LeakState(v.value, 0.0, d)
  }

  /** The "clear leak" command stops the leak at once and touches nothing else. */
  function ClearLeak(s: LeakState): (r: LeakState)
    ensures r.rate == 0.0
    ensures r.timer == s.timer && r.duration == s.duration
  {
    s.(rate := 0.0)
  }

  /** Once-per-tick expiry: an active leak accumulates `dt` on its timer and is
      switched off (timer back to 0) as soon as the timer reaches the duration;
      an inactive leak is left alone. The duration is never changed. */
  function LeakTick(s: LeakState, dt: real): (r: LeakState)
    ensures s.rate <= 0.0 ==> r == s
    ensures s.rate > 0.0 && s.timer + dt >= s.duration ==> r == LeakState(0.0, 0.0, s.duration)
    ensures s.rate > 0.0 && s.timer + dt < s.duration ==> r == LeakState(s.rate, s.timer + dt, s.duration)
  {
    if s.rate > 0.0 then
      var timer := s.timer + dt;
      if timer >= s.duration then s.(rate := 0.0, timer := 0.0) else s.(timer := timer)
    else s
  }

  /** `n` consecutive ticks of the same length. */
  function LeakTicks(s: LeakState, dt: real, n: nat): LeakState
    decreases n
  {
    if n == 0 then s else LeakTicks(LeakTick(s, dt), dt, n - 1)
  }

  /** Each command and each tick keeps the leak rate non-negative. */
  lemma RateStaysNonNegative(s: LeakState, v: Reading, d: real, dt: real)
    requires s.rate >= 0.0
    ensures ApplyLeak(s, v, d).rate >= 0.0
    ensures ClearLeak(s).rate >= 0.0
    ensures LeakTick(s, dt).rate >= 0.0
  {
  }

  /** A cleared leak stays cleared under the loop's ticks, and its stale timer
      is irrelevant: the next accepted "apply leak" starts from timer 0 either way. */
  lemma ClearedLeakStaysCleared(s: LeakState, dt: real, n: nat, v: Reading, d: real)
    ensures LeakTicks(ClearLeak(s), dt, n) == ClearLeak(s)
    ensures v.Number? && v.value >= 0.0 ==> ApplyLeak(ClearLeak(s), v, d) == ApplyLeak(s, v, d)
  {
    InactiveLeakIsFixed(ClearLeak(s), dt, n);
  }

  /** An inactive leak stays inactive and unchanged under any number of ticks. */
  lemma {:induction false} InactiveLeakIsFixed(s: LeakState, dt: real, n: nat)
    requires s.rate == 0.0
    ensures LeakTicks(s, dt, n) == s
    decreases n
  {
    if n > 0 {
      InactiveLeakIsFixed(LeakTick(s, dt), dt, n - 1);
    }
  }

  /** While `k` ticks have not yet reached the duration, the leak keeps its
      rate and its timer has advanced by exactly `k` steps. */
  lemma {:induction false} LeakActiveWhileTimerShort(s: LeakState, dt: real, k: nat)
    requires s.rate > 0.0 && dt >= 0.0
    requires s.timer + Elapsed(k, dt) < s.duration
    ensures LeakTicks(s, dt, k) == LeakState(s.rate, s.timer + Elapsed(k, dt), s.duration)
    decreases k
  {
    if k > 0 {
      ElapsedMonotone(1, k, dt);
      var s1 := LeakTick(s, dt);
      assert s1 == LeakState(s.rate, s.timer + dt, s.duration);
      LeakActiveWhileTimerShort(s1, dt, k - 1);
    }
  }

  /** An active leak is switched off by the first tick whose accumulated time
      reaches the duration: after `n >= 1` ticks with `timer + n*dt >= duration`
      no leak is active, and the timer is back to 0. */
  lemma {:induction false} LeakExpires(s: LeakState, dt: real, n: nat)
    requires s.rate > 0.0 && dt >= 0.0 && n >= 1
    requires s.timer + Elapsed(n, dt) >= s.duration
    ensures LeakTicks(s, dt, n) == LeakState(0.0, 0.0, s.duration)
    decreases n
  {
    var s1 := LeakTick(s, dt);
    if s.timer + dt >= s.duration {
      assert s1 == LeakState(0.0, 0.0, s.duration);
      InactiveLeakIsFixed(s1, dt, n - 1);
    } else {
      assert n >= 2;
      LeakExpires(s1, dt, n - 1);
    }
  }

  /** The disturbance scenario end to end: a leak applied with rate `v > 0` and
      duration `d` is active for exactly the ticks whose accumulated time `n * dt`
      is below `d`, and gone after the first tick that reaches it (for `dt > 0`
      that is tick `max(1, ceil(d / dt))`). */
  lemma AppliedLeakLifetime(s: LeakState, v: real, d: real, dt: real, n: nat)
    requires v > 0.0 && dt > 0.0
    ensures (n as real) * dt < d ==> LeakTicks(ApplyLeak(s, Number(v), d), dt, n) == LeakState(v, (n as real) * dt, d)
    ensures n >= 1 && (n as real) * dt >= d ==> LeakTicks(ApplyLeak(s, Number(v), d), dt, n) == LeakState(0.0, 0.0, d)
  {
    var s0 := ApplyLeak(s, Number(v), d);
    ElapsedIsProduct(n, dt);
    if (n as real) * dt < d {
      LeakActiveWhileTimerShort(s0, dt, n);
    } else if n >= 1 {
      LeakExpires(s0, dt, n);
    }
  }
}
