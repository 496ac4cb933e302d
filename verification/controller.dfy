/** The PI controller of one simulation tick: proportional-integral law with
    clamp-style anti-windup and a per-tick rate limit on the integral. */
module Controller {
  import opened Saturation
  import opened RealArith

  /** Proportional and integral gains, re-read from the operator every tick. */
  datatype Gains = Gains(kp: real, ki: real)

  /** What one controller update produces: the error it acted on, the integral
      after the update, the control emitted, and whether integration was blocked. */
  datatype PiOutput = PiOutput(error: real, integral: real, control: real, blocked: bool)

  /** The PI law clipped to the actuator range [0, 1]. */
  function Control(g: Gains, error: real, integral: real): (u: real)
    ensures 0.0 <= u <= 1.0
    ensures u == 1.0 <==> g.kp * error + g.ki * integral >= 1.0
    ensures u == 0.0 <==> g.kp * error + g.ki * integral <= 0.0
    ensures 0.0 < g.kp * error + g.ki * integral < 1.0 ==> u == g.kp * error + g.ki * integral
  {
    var x := g.kp * error + g.ki * integral;
    SatAtBound(x, 0.0, 1.0);
    Sat(x, 0.0, 1.0)
  }

  /** Integration is blocked when the actuator is already saturated in the
      direction the error pushes. */
  predicate WindupBlocked(uSat: real, error: real)
    ensures WindupBlocked(uSat, error) ==> error != 0.0 && (uSat == 0.0 || uSat == 1.0)
    ensures WindupBlocked(uSat, error) ==> (uSat == 1.0 <==> error > 0.0)
  {
    (uSat == 1.0 && error > 0.0) || (uSat == 0.0 && error < 0.0)
  }

  /** The block stated against the PI law: integration stops exactly when the
      unclipped law from the current integral is at or beyond the bound the
      error pushes towards. */
  lemma BlockedIffLawSaturated(g: Gains, error: real, integral: real)
    ensures WindupBlocked(Control(g, error, integral), error) <==>
              ((error > 0.0 && g.kp * error + g.ki * integral >= 1.0)
               || (error < 0.0 && g.kp * error + g.ki * integral <= 0.0))
  {
  }

  /** The rate limiter `Math.max(-m, Math.min(m, dI))` with `m = 0.5 * dt`. */
  function LimitIncrement(dI: real, dt: real): (r: real)
    ensures dt >= 0.0 ==> -0.5 * dt <= r <= 0.5 * dt
    ensures dt >= 0.0 && -0.5 * dt <= dI <= 0.5 * dt ==> r == dI
    ensures dt >= 0.0 && dI >= 0.5 * dt ==> r == 0.5 * dt
    ensures dt >= 0.0 && dI <= -0.5 * dt ==> r == -0.5 * dt
    ensures dt >= 0.0 && dI >= 0.0 ==> 0.0 <= r <= dI
    ensures dt >= 0.0 && dI <= 0.0 ==> dI <= r <= 0.0
  {
    Max(-0.5 * dt, Min(0.5 * dt, dI))
  }

  /** For a non-negative step the limiter is saturation of the increment into
      [-dt/2, dt/2]; for a negative step (max applied last) it always yields -dt/2. */
  lemma LimitIncrementIsSat(dI: real, dt: real)
    ensures dt >= 0.0 ==> LimitIncrement(dI, dt) == Sat(dI, -0.5 * dt, 0.5 * dt)
    ensures dt < 0.0 ==> LimitIncrement(dI, dt) == -0.5 * dt
  {
  }

  /** One controller update (the first half of a simulation tick): the windup
      decision uses the control computed from the integral BEFORE the update,
      the emitted control the integral AFTER it. */
  function ControlStep(g: Gains, setpoint: real, measurement: real, integral: real, dt: real): (r: PiOutput)
    ensures r.error == setpoint - measurement
    ensures 0.0 <= r.control <= 1.0
    ensures r.blocked <==> WindupBlocked(Control(g, r.error, integral), r.error)
    ensures r.blocked ==> r.integral == integral
    ensures dt >= 0.0 ==> Abs(r.integral - integral) <= 0.5 * dt
    ensures dt >= 0.0 && r.error >= 0.0 ==> r.integral >= integral
    ensures dt >= 0.0 && r.error <= 0.0 ==> r.integral <= integral
    ensures r.control == Control(g, r.error, r.integral)
  {
    var error := setpoint - measurement;
    var uSat := Control(g, error, integral);
    var blocked := WindupBlocked(uSat, error);
    var integral' := if blocked then integral else integral + LimitIncrement(error * dt, dt);
    PiOutput(error, integral', Control(g, error, integral'), blocked)
  }

  /** An unblocked update is forward-Euler integration of the error while
      |error| <= 1/2, and a fixed slope of +-1/2 beyond that. */
  lemma UnblockedIntegration(g: Gains, setpoint: real, measurement: real, integral: real, dt: real)
    requires dt >= 0.0
    requires !WindupBlocked(Control(g, setpoint - measurement, integral), setpoint - measurement)
    ensures var r := ControlStep(g, setpoint, measurement, integral, dt);
      && (Abs(r.error) <= 0.5 ==> r.integral == integral + r.error * dt)
      && (r.error > 0.5 ==> r.integral == integral + 0.5 * dt)
      && (r.error < -0.5 ==> r.integral == integral - 0.5 * dt)
  {
    ProductBounds(setpoint - measurement, dt);
  }

  /** For a non-negative step, bounds on the error carry over to the raw increment `e * dt`. */
  lemma ProductBounds(e: real, dt: real)
    ensures dt >= 0.0 && Abs(e) <= 0.5 ==> -0.5 * dt <= e * dt <= 0.5 * dt
    ensures dt >= 0.0 && e > 0.5 ==> e * dt >= 0.5 * dt
    ensures dt >= 0.0 && e < -0.5 ==> e * dt <= -0.5 * dt
  {
    if dt >= 0.0 {
      if e > 0.5 {
        assert (e - 0.5) * dt >= 0.0;
      } else if e < -0.5 {
        assert (-0.5 - e) * dt >= 0.0;
      } else {
        assert (0.5 - e) * dt >= 0.0;
        assert (e + 0.5) * dt >= 0.0;
      }
    }
  }

  /** Clamp anti-windup: an actuator saturated high with a positive error, or
      low with a negative error, freezes the integral. */
  lemma SaturatedFreezesIntegral(g: Gains, setpoint: real, measurement: real, integral: real, dt: real)
    requires var e := setpoint - measurement;
      (Control(g, e, integral) == 1.0 && e > 0.0) || (Control(g, e, integral) == 0.0 && e < 0.0)
    ensures ControlStep(g, setpoint, measurement, integral, dt).integral == integral
    ensures ControlStep(g, setpoint, measurement, integral, dt).control
         == Control(g, setpoint - measurement, integral)
  {
  }

  /** The integral after a sequence of controller updates at a fixed setpoint and step. */
  function IntegralAfter(g: Gains, setpoint: real, measurements: seq<real>, integral: real, dt: real): real
    decreases |measurements|
  {
    if |measurements| == 0 then integral
    else IntegralAfter(g, setpoint, measurements[1..],
                       ControlStep(g, setpoint, measurements[0], integral, dt).integral, dt)
  }

  /** Several consecutive ticks in which the actuator stays saturated high while
      the error stays positive leave the integral where it was. */
  lemma {:induction false} SaturatedRunFreezesIntegral(g: Gains, setpoint: real, measurements: seq<real>,
                                                      integral: real, dt: real)
    requires forall k :: 0 <= k < |measurements| ==>
      setpoint - measurements[k] > 0.0 && Control(g, setpoint - measurements[k], integral) == 1.0
    ensures IntegralAfter(g, setpoint, measurements, integral, dt) == integral
    decreases |measurements|
  {
    if |measurements| > 0 {
      var r := ControlStep(g, setpoint, measurements[0], integral, dt);
      assert r.blocked;
      SaturatedRunFreezesIntegral(g, setpoint, measurements[1..], integral, dt);
    }
  }

  /** The windup band for integral gain `ki` and steps no longer than `maxDt`:
      the integral never drops below -maxDt/2, and its contribution `ki * integral`
      never exceeds the full actuator range by more than one rate-limited step. */
  predicate InWindupBand(integral: real, ki: real, maxDt: real)
  {
    -0.5 * maxDt <= integral && BelowUpperBand(integral, ki, maxDt)
  }

  predicate BelowUpperBand(integral: real, ki: real, maxDt: real)
  {
    ki * integral <= 1.0 + ki * (0.5 * maxDt)
  }

  /** The arithmetic of the upper band: a PI law below 1 with a non-negative
      proportional part bounds `kb * integral` by 1 for every band gain `kb`
      at most the tick's `ki`, and one step adds at most `kb * m`. */
  lemma UpperBandArithMin(kp: real, ki: real, kb: real, e: real, i: real, i': real, m: real)
    requires kp >= 0.0 && 0.0 < kb <= ki && e > 0.0
    requires kp * e + ki * i < 1.0
    requires i' <= i + m
    ensures kb * i' <= 1.0 + kb * m
  {
    MulMono(kp, 0.0, e);
    MulMono(kb, i', i + m);
    assert kb * (i + m) == kb * i + kb * m;
    if i > 0.0 {
      MulMono(i, kb, ki);
      assert i * kb == kb * i && i * ki == ki * i;
    } else {
      MulMono(kb, i, 0.0);
    }
  }

  /** A lower integral stays below the upper band. */
  lemma UpperBandDown(ki: real, i: real, i': real, maxDt: real)
    requires ki > 0.0 && i' <= i
    requires BelowUpperBand(i, ki, maxDt)
    ensures BelowUpperBand(i', ki, maxDt)
  {
    MulMono(ki, i', i);
  }

  /** The arithmetic of the lower band: a PI law above 0 with a non-positive
      proportional part makes the integral positive. */
  lemma LowerBandArith(kp: real, ki: real, e: real, i: real)
    requires kp >= 0.0 && ki > 0.0 && e < 0.0
    requires kp * e + ki * i > 0.0
    ensures i > 0.0
  {
    MulMono(kp, e, 0.0);
    PositiveFactor(ki, i);
  }

  /** The integral rises only on a positive error while the PI law, computed
      from the integral before the step, is still below full actuation. */
  lemma RisingIntegral(g: Gains, setpoint: real, measurement: real, integral: real, dt: real)
    requires dt >= 0.0
    requires ControlStep(g, setpoint, measurement, integral, dt).integral > integral
    ensures var r := ControlStep(g, setpoint, measurement, integral, dt);
      && r.error > 0.0
      && g.kp * r.error + g.ki * integral < 1.0
      && r.integral <= integral + 0.5 * dt
  {
    var r := ControlStep(g, setpoint, measurement, integral, dt);
    assert !r.blocked && r.error > 0.0;
    assert Control(g, r.error, integral) != 1.0;
  }

  /** The integral falls only on a negative error while the PI law, computed
      from the integral before the step, is still above zero actuation. */
  lemma FallingIntegral(g: Gains, setpoint: real, measurement: real, integral: real, dt: real)
    requires dt >= 0.0
    requires ControlStep(g, setpoint, measurement, integral, dt).integral < integral
    ensures var r := ControlStep(g, setpoint, measurement, integral, dt);
      && r.error < 0.0
      && g.kp * r.error + g.ki * integral > 0.0
      && r.integral >= integral - 0.5 * dt
  {
    var r := ControlStep(g, setpoint, measurement, integral, dt);
    assert !r.blocked && r.error < 0.0;
    assert Control(g, r.error, integral) != 0.0;
  }

  /** Upper half of the band: integration upward only happens while the PI law
      is below 1, which bounds `ki * integral` before the step. */
  lemma UpperBandStep(g: Gains, setpoint: real, measurement: real, integral: real, dt: real,
                      maxDt: real, kiMin: real)
    requires g.kp >= 0.0 && 0.0 < kiMin <= g.ki
    requires 0.0 <= dt <= maxDt
    requires BelowUpperBand(integral, kiMin, maxDt)
    ensures BelowUpperBand(ControlStep(g, setpoint, measurement, integral, dt).integral, kiMin, maxDt)
  {
    var r := ControlStep(g, setpoint, measurement, integral, dt);
    if r.integral > integral {
      RisingIntegral(g, setpoint, measurement, integral, dt);
    }
    UpperBandReals(g.kp, g.ki, kiMin, r.error, integral, r.integral, dt, maxDt);
  }

  /** The upper half of the band on plain reals: a rise happens only on a
      positive error with the PI law below 1 and is at most dt/2. */
  lemma UpperBandReals(kp: real, ki: real, kiMin: real, e: real, i: real, next: real, dt: real, maxDt: real)
    requires kp >= 0.0 && 0.0 < kiMin <= ki && 0.0 <= dt <= maxDt
    requires next > i ==> e > 0.0 && kp * e + ki * i < 1.0 && next <= i + 0.5 * dt
    requires BelowUpperBand(i, kiMin, maxDt)
    ensures BelowUpperBand(next, kiMin, maxDt)
  {
    if next > i {
      UpperBandArithMin(kp, ki, kiMin, e, i, next, 0.5 * maxDt);
    } else {
      UpperBandDown(kiMin, i, next, maxDt);
    }
  }

  /** Lower half of the band: integration downward only happens while the PI law
      is above 0, which makes the integral positive before the step. */
  lemma LowerBandStep(g: Gains, setpoint: real, measurement: real, integral: real, dt: real, maxDt: real)
    requires g.kp >= 0.0 && g.ki > 0.0
    requires 0.0 <= dt <= maxDt
    requires -0.5 * maxDt <= integral
    ensures -0.5 * maxDt <= ControlStep(g, setpoint, measurement, integral, dt).integral
  {
    var r := ControlStep(g, setpoint, measurement, integral, dt);
    if r.integral < integral {
      FallingIntegral(g, setpoint, measurement, integral, dt);
      LowerBandArith(g.kp, g.ki, r.error, integral);
    }
  }

  /** One controller update keeps the integral inside the windup band of any
      band gain `kiMin` in (0, Ki], for non-negative proportional gain and a
      step in [0, maxDt]. */
  lemma ControlStepKeepsBand(g: Gains, setpoint: real, measurement: real,
                             integral: real, dt: real, maxDt: real, kiMin: real)
    requires g.kp >= 0.0 && 0.0 < kiMin <= g.ki
    requires 0.0 <= dt <= maxDt
    requires InWindupBand(integral, kiMin, maxDt)
    ensures InWindupBand(ControlStep(g, setpoint, measurement, integral, dt).integral, kiMin, maxDt)
  {
    UpperBandStep(g, setpoint, measurement, integral, dt, maxDt, kiMin);
    LowerBandStep(g, setpoint, measurement, integral, dt, maxDt);
  }

  /** Starting from a band value, any number of updates stays in the band. */
  lemma {:induction false} IntegralStaysInBand(g: Gains, setpoint: real, measurements: seq<real>,
                                               integral: real, dt: real, maxDt: real)
    requires g.kp >= 0.0 && g.ki > 0.0
    requires 0.0 <= dt <= maxDt
    requires InWindupBand(integral, g.ki, maxDt)
    ensures InWindupBand(IntegralAfter(g, setpoint, measurements, integral, dt), g.ki, maxDt)
    decreases |measurements|
  {
    if |measurements| > 0 {
      ControlStepKeepsBand(g, setpoint, measurements[0], integral, dt, maxDt, g.ki);
      IntegralStaysInBand(g, setpoint, measurements[1..],
                          ControlStep(g, setpoint, measurements[0], integral, dt).integral, dt, maxDt);
    }
  }
}
