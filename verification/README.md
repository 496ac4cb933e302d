# PI pressure-control simulator — Dafny model of the simulation engine

The repository is a browser simulator of a pressure loop. A PI controller with
clamp anti-windup drives a first-order pressure lag (plant gain `Kplant = 40`,
time constant `tau = 5`, as the header of script.js:5 fixes them). Sensor noise is added to the measurement, and the
operator can apply and clear a timed leak. This project models the engine in
`script.js`, with `real` in place of JavaScript doubles:

- `sat` (module `Saturation`);
- the controller half of `simStep`: error, provisional control from the old
  integral, the windup block, the rate-limited integral update, and the
  recomputed control (module `Controller`);
- the forward-Euler plant step (module `Plant`) and the clock (module `Clock`);
- the leak's apply / clear handlers and its per-tick expiry (module `Disturbance`);
- the page state, one whole tick, and `startSim` / `stopSim` / `resetSim`
  (module `Simulation`). Operator commands and timer firings are a `Command`
  sequence, and `Simulate` writes the interval loop as an explicit loop.

The noise sample `randn_bm(sigma)` is an input of each tick. `simStep`
re-reads `dt`, `setpoint`, `Kp` and `Ki` from the page on every tick, so an edit
takes effect on the next tick. `Kplant` and `tau`, by contrast, are read once
when the page loads and kept in constants (script.js:59-60); the shipped values
40 and 5 (script.js:5) are `Plant.KPLANT` and `Plant.TAU`. The model passes all of these to each tick
in one `Params` value, which generalises the source harmlessly: a session that
keeps `kplant` and `tau` fixed is exactly the source's behaviour. The total
time is carried in `Params` as well. The initial pressure `P0` is an argument
of start and reset.

The headline results:

- The control stays in [0, 1] in every reachable state (`RunKeepsInvariant`).
- One tick moves the integral by at most `dt/2` (`ControlStep`).
- A blocked tick leaves the integral unchanged (`SaturatedFreezesIntegral`,
  `SaturatedRunFreezesIntegral`).
- The anti-windup clamp plus the rate limit keep the integral in a band over a
  whole session, for any number of saturated ticks and for any `Ki` edits that
  stay at or above some `kiMin > 0` (`RunKeepsBand`). The band is
  `integral >= -maxDt/2` and `kiMin*integral <= 1 + kiMin*maxDt/2`.
- An applied leak is active for exactly the ticks whose accumulated time is
  below its duration (`AppliedLeakLifetime`).
- A run stops at the first tick whose clock reaches the total time (`HorizonExact`).
- Reset reinitialises exactly the clock, pressure, integral, control and leak
  rate, and is idempotent.

Three details of script.js that the model keeps:

- `startSim` and `resetSim` zero only `currentLeak`. They do not touch
  `leakTimer` or `leakDuration` (`Start`, `Reset`, `ClearedLeakStaysCleared`).
- The leak counts elapsed time upward in `leakTimer` and compares it with the
  duration. It does not decrement a remaining duration.
- The stop check runs before the leak expiry in the same tick. `stopSim` only
  clears the timer, so the rest of the tick, expiry included, still runs (`Step`).

## Model

| member | source | states |
|---|---|---|
| Saturation.Sat | script.js:22-24 | on a proper interval the result lies in [a, b]; a value inside is returned unchanged; below `a` gives `a`; above `b` gives `b` |
| Saturation.SatIsNearest | script.js:22-24 | the saturated value is the point of [a, b] closest to x |
| Saturation.SatMonotone | script.js:22-24 | saturation preserves the order of two inputs |
| Saturation.SatIdempotent | script.js:22-24 | saturating twice equals saturating once |
| Saturation.SatAtBound | script.js:189-193 | on [0, 1] the saturated value equals 1 exactly when the input is >= 1, and equals 0 exactly when it is <= 0; this is what the `u_sat === 1` / `u_sat === 0` tests detect |
| Controller.Control | script.js:189-190 | the PI law clipped to [0, 1]: exactly 1 when the law reaches 1, exactly 0 when it is <= 0, the law itself in between |
| Controller.LimitIncrement | script.js:196-200 | for dt >= 0 the clamped increment lies in [-dt/2, dt/2], keeps the sign of the raw increment and never exceeds it in size, and equals it when it is already within the limit |
| Controller.LimitIncrementIsSat | script.js:196-200 | for dt >= 0 the max-of-min clamp is `sat` of the increment into [-dt/2, dt/2]; for dt < 0 it always yields -dt/2 |
| Controller.WindupBlocked | script.js:192-193 | integration is blocked only for a non-zero error with the actuator at a bound, and then the bound is the one the error pushes towards (1 for a positive error, 0 for a negative one) |
| Controller.BlockedIffLawSaturated | script.js:189-193 | the block holds exactly when the error is positive and the unclipped PI law from the old integral is >= 1, or the error is negative and the law is <= 0 |
| Controller.ControlStep | script.js:186-206 | error = setpoint - measurement; control in [0, 1]; blocked exactly when the control from the OLD integral is saturated in the direction of the error; a blocked tick keeps the integral; for dt >= 0 the integral moves by at most dt/2 and in the direction of the error; the emitted control uses the NEW integral |
| Controller.UnblockedIntegration | script.js:196-201 | an unblocked update is Euler integration `integral + error*dt` while abs(error) <= 1/2, and a fixed slope of +-1/2 beyond that |
| Controller.SaturatedFreezesIntegral | script.js:189-202 | control saturated at 1 with error > 0, or at 0 with error < 0: the integral is unchanged and the emitted control equals the provisional one |
| Controller.SaturatedRunFreezesIntegral | script.js:189-202 | any number of consecutive ticks with positive error and the actuator saturated high leave the integral where it was |
| Controller.RisingIntegral | script.js:189-201 | the integral rises only on a positive error while the PI law from the old integral is below 1, and by at most dt/2 |
| Controller.FallingIntegral | script.js:189-201 | the integral falls only on a negative error while the PI law from the old integral is above 0, and by at most dt/2 |
| Controller.UpperBandStep | script.js:189-202 | with Kp >= 0, 0 < kiMin <= Ki and 0 <= dt <= maxDt, `kiMin*integral <= 1 + kiMin*maxDt/2` is preserved by one update |
| Controller.LowerBandStep | script.js:189-202 | with Kp >= 0, Ki > 0 and 0 <= dt <= maxDt, `integral >= -maxDt/2` is preserved by one update |
| Controller.ControlStepKeepsBand | script.js:189-202 | one update with Kp >= 0 and Ki >= kiMin > 0 keeps the integral inside the windup band of kiMin |
| Controller.IntegralStaysInBand | script.js:189-202 | any sequence of updates at fixed gains keeps the integral inside the windup band |
| Plant.PlantStep | script.js:208-211 | the Euler step `P + dt*(-P + Kplant*u - leak)/tau`, characterised by scaling the deviation from the equilibrium `Kplant*u - leak` by exactly `1 - dt/tau` |
| Plant.EquilibriumIsFixed | script.js:208-211 | the equilibrium pressure is a fixed point of the step |
| Plant.NoOvershoot | script.js:208-211 | for 0 <= dt <= tau the new pressure lies between the old pressure and the equilibrium, so the distance to the equilibrium never grows |
| Plant.StepMonotone | script.js:208-211 | more control or less leak never gives a lower next pressure (Kplant >= 0, tau > 0, dt >= 0) |
| Plant.ShippedPlantCeiling | script.js:5 | with the shipped `Kplant = 40`, `tau = 5`, a control in [0, 1], no negative leak and 0 <= dt <= 5, a pressure at or below 40 stays at or below 40 after the step |
| Clock.ElapsedIsProduct | script.js:213 | adding dt once per tick for n ticks accumulates exactly n*dt |
| Disturbance.ApplyLeak | script.js:322-331 | a NaN or negative rate changes nothing; otherwise rate := v, duration := d, timer := 0 |
| Disturbance.ClearLeak | script.js:332-335 | the rate becomes 0; timer and duration are untouched |
| Disturbance.LeakTick | script.js:239-245 | no active leak: no change; an active leak whose timer plus dt reaches the duration: rate and timer become 0; otherwise the timer grows by dt; the duration never changes |
| Disturbance.RateStaysNonNegative | script.js:322-335 | apply, clear and the tick never produce a negative leak rate |
| Disturbance.ClearedLeakStaysCleared | script.js:332-335 | a cleared leak stays cleared under ticks, and the next accepted apply does not depend on the stale timer |
| Disturbance.InactiveLeakIsFixed | script.js:239-245 | ticks leave an inactive leak unchanged |
| Disturbance.LeakActiveWhileTimerShort | script.js:239-245 | while timer + n steps is below the duration, the leak keeps its rate and the timer has grown by exactly n steps |
| Disturbance.LeakExpires | script.js:239-245 | after n >= 1 ticks with timer + n steps reaching the duration, the leak is off and its timer is 0 |
| Disturbance.AppliedLeakLifetime | script.js:239-245 | after applying rate v > 0 with duration d and step dt > 0: active with timer n*dt while n*dt < d, and off from the first tick n >= 1 with n*dt >= d |
| Simulation.Init | script.js:65-76 | the page-load state: idle, clock at 0, pressure P0, integral and control 0, no leak (rate, timer and duration all 0) |
| Simulation.Step | script.js:173-247 | one tick: measurement = P + noise; the clock advances by exactly dt; control in [0, 1]; running afterwards exactly when it was running and t + dt < total time; the new integral is the controller update from the old one (so it moves at most dt/2, and not at all when blocked); the plant uses the new control and the leak held at the start of the tick; the leak then ticks; the emitted record carries the pre-expiry leak |
| Simulation.Start | script.js:252-281 | no-op while running; from idle it runs with t = 0, P = P0, integral = 0, u = 0, leak rate 0, and the leak timer and duration untouched |
| Simulation.Stop | script.js:283-287 | the session is idle afterwards; no-op while idle; every other field is preserved |
| Simulation.Reset | script.js:289-308 | idle, t = 0, P = P0, integral = 0, u = 0, leak rate 0; leak timer and duration untouched |
| Simulation.ResetIdempotent | script.js:289-308 | resetting twice equals resetting once |
| Simulation.ResetForgetsRun | script.js:289-308 | two states with the same leak timer and duration reset to the same state |
| Simulation.StartIsResetThenRun | script.js:252-281 | starting from idle equals a reset with the run switched on |
| Simulation.InitIsReset | script.js:337-338 | the reset performed at page load leaves the initial state unchanged |
| Simulation.Handle | script.js:313-335 | each command does what its handler does: start, stop and reset are `Start`, `Stop` and `Reset`; apply leak is the guarded `ApplyLeak` on the leak state alone; clear leak zeroes only the rate; a timer firing is one `Step` while running and changes nothing while idle |
| Simulation.HandleKeepsInvariant | script.js:313-335 | every command keeps control in [0, 1] and the leak rate non-negative |
| Simulation.RunKeepsInvariant | script.js:313-335 | every session of commands keeps control in [0, 1] and the leak rate non-negative |
| Simulation.HandleKeepsBand | script.js:189-202 | every command keeps the integral inside the windup band of kiMin, for a tick whose Ki is at or above kiMin (start and reset set it to 0) |
| Simulation.RunKeepsBand | script.js:189-202 | over any session whose ticks use Kp >= 0, 0 <= dt <= maxDt and any Ki edits that stay at or above kiMin > 0, the integral never leaves the windup band of kiMin |
| Simulation.IdleTicksAreNoOps | script.js:283-287 | once stopped, no further timer firing changes the state |
| Simulation.TickClock | script.js:213-237 | a firing on a running session advances t by dt and keeps it running exactly when t + dt < total time |
| Simulation.RunsBeforeHorizon | script.js:233-237 | while t0 + n steps is below the total time, the run is still on after n ticks and its clock reads t0 + n steps |
| Simulation.StopsAtHorizon | script.js:233-237 | once t0 + n steps reaches the total time (n >= 1), the run is off after n ticks |
| Simulation.HorizonExact | script.js:233-237 | after n >= 1 ticks at a fixed step the run is on exactly when t0 + n steps is below the total time |
| Simulation.TraceLength | script.js:233-237 | the trace has at most one record per sample, at least one when the run is on and a sample comes, and is short only when the session has stopped |
| Simulation.TraceRecords | script.js:213-231 | every record of the trace has its control in [0, 1] and is stamped with the start time plus k + 1 steps |
| Simulation.TraceLast | script.js:213-231 | the last record shows the clock, pressure and control the session ends in |
| Simulation.Simulate | script.js:277-280 | the explicit tick loop ends in the same state as the timer-driven session, and its records are exactly the session's trace (record k is the record of the k-th tick); it emits at most one record per noise sample and stops early only when the run has stopped; every emitted control is in [0, 1]; record k is stamped with the start time plus k + 1 steps, so with dt > 0 the times strictly increase; the last record shows the final clock, pressure and control |

## Left out

- `randn_bm` (Box-Muller noise) uses `Math.random`, `log`, `sqrt` and `cos`. Each tick takes the noise sample as an input instead.
- Chart.js setup, the band plugin, `pushPoint` with its 20000-point buffer, and every `textContent` / `toFixed` status update. These are presentation over a library that is not part of this model. `Step` still returns the record a tick plots (`StepOutput`).
- DOM reads and `parseFloat`: parameters are reals passed to each tick, and NaN propagation is not modelled. The one exception is the NaN / negative guard on the leak rate (`Reading`). A NaN leak duration is also not modelled; in the source it would leave a leak active until it is cleared.
- `setInterval` / `clearInterval` and the interval floor `max(5, round(dt*1000))` ms are timer plumbing. The model keeps only the `running` flag: a timer exists exactly while running, so a firing while idle is a no-op.
- The global `dt` written by `startSim` is not state: every tick re-reads it before use.
- Floating point: `real` arithmetic is exact, and the clock and leak timer of the source accumulate rounding. Ten double additions of 0.1 give 0.9999999999999999 and fifty give 4.999999999999998, so a stop or expiry at 1 s or 5 s comes one tick later than the exact-arithmetic bound. Rounding can also move it one tick earlier: thirty additions give 3.0000000000000013, so a duration of 3.0000000000000005 expires at tick 30 with doubles and at tick 31 with reals. Convergence to the analytic first-order solution and steady-state tracking need exponentials and limits, and are not stated.
- `tau = 0`: the plant step requires `tau != 0`. The shipped constant is 5, and a zero would make the JavaScript produce infinities.
- Controller.ControlStep: the integral rate bound and the direction of integration are stated for `dt >= 0` only. For a negative `dt` the source's clamp always yields `-dt/2`, as `LimitIncrementIsSat` shows.
- Simulation.HorizonExact: states the horizon with the accumulated step sum `Elapsed(n, dt)`. `Clock.ElapsedIsProduct` equates that sum with `n * dt`.
