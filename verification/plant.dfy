/** The simulated process: a first-order pressure lag
      dP/dt = (-P + Kplant * u - leak) / tau
    advanced by one forward-Euler step per tick. */
module Plant {
  import opened Saturation
  import opened RealArith

  /** The fixed plant gain and time constant the simulator ships with. */
  const KPLANT: real := 40.0
  const TAU: real := 5.0

  /** The pressure the lag settles to under constant control and leak. */
  function Equilibrium(u: real, leak: real, kplant: real): real
  {
    kplant * u - leak
  }

  /** One forward-Euler step of the lag: the deviation from the equilibrium
      is scaled by exactly `1 - dt/tau`. */
  function PlantStep(p: real, u: real, leak: real, kplant: real, tau: real, dt: real): (r: real)
    requires tau != 0.0
    ensures r - Equilibrium(u, leak, kplant) == (1.0 - dt / tau) * (p - Equilibrium(u, leak, kplant))
  {
    var dPdt := (-p + kplant * u - leak) / tau;
    EulerDeviation(p, Equilibrium(u, leak, kplant), tau, dt);
    assert -p + kplant * u - leak == Equilibrium(u, leak, kplant) - p;
    p + dPdt * dt
  }

  lemma EulerDeviation(p: real, eq: real, tau: real, dt: real)
    requires tau != 0.0
    ensures p + ((eq - p) / tau) * dt - eq == (1.0 - dt / tau) * (p - eq)
  {
    var d := p - eq;
    calc {
      p + ((eq - p) / tau) * dt - eq;
      d + ((-d) / tau) * dt;
      { assert (-d) / tau * dt == -(d * (dt / tau)); }
      d - d * (dt / tau);
      (1.0 - dt / tau) * d;
    }
  }

  /** The equilibrium is a fixed point of the step. */
  lemma EquilibriumIsFixed(u: real, leak: real, kplant: real, tau: real, dt: real)
    requires tau != 0.0
    ensures PlantStep(Equilibrium(u, leak, kplant), u, leak, kplant, tau, dt) == Equilibrium(u, leak, kplant)
  {
  }

  /** With a step no longer than the time constant the Euler step does not
      overshoot: the new pressure lies between the old one and the equilibrium,
      so the distance to the equilibrium never grows. */
  lemma NoOvershoot(p: real, u: real, leak: real, kplant: real, tau: real, dt: real)
    requires tau > 0.0 && 0.0 <= dt <= tau
    ensures var eq := Equilibrium(u, leak, kplant);
      var r := PlantStep(p, u, leak, kplant, tau, dt);
      && (p <= eq ==> p <= r <= eq)
      && (eq <= p ==> eq <= r <= p)
      && Abs(r - eq) <= Abs(p - eq)
  {
    var eq := Equilibrium(u, leak, kplant);
    var c := 1.0 - dt / tau;
    assert dt / tau <= 1.0 by {
      assert dt / tau * tau == dt;
    }
    assert 0.0 <= dt / tau;
    ScaleShrinks(c, p - eq);
    assert PlantStep(p, u, leak, kplant, tau, dt) - eq == c * (p - eq);
  }

  /** The Euler update is monotone in the drive term `kplant*u - leak`. */
  lemma EulerMonotone(p: real, a: real, b: real, tau: real, dt: real)
    requires tau > 0.0 && dt >= 0.0 && a <= b
    ensures p + ((-p + a) / tau) * dt <= p + ((-p + b) / tau) * dt
  {
    DivMono(-p + a, -p + b, tau);
    MulMono(dt, (-p + a) / tau, (-p + b) / tau);
    assert ((-p + a) / tau) * dt == dt * ((-p + a) / tau);
    assert ((-p + b) / tau) * dt == dt * ((-p + b) / tau);
  }

  /** More control effort, or less leak, never gives a lower next pressure
      (for a non-negative plant gain, positive time constant and step). */
  lemma StepMonotone(p: real, u1: real, u2: real, leak1: real, leak2: real, kplant: real, tau: real, dt: real)
    requires kplant >= 0.0 && tau > 0.0 && dt >= 0.0
    requires u1 <= u2 && leak2 <= leak1
    ensures PlantStep(p, u1, leak1, kplant, tau, dt) <= PlantStep(p, u2, leak2, kplant, tau, dt)
  {
    MulMono(kplant, u1, u2);
    DriveMonotone(kplant * u1, kplant * u2, leak1, leak2);
    EulerMonotone(p, kplant * u1 - leak1, kplant * u2 - leak2, tau, dt);
    assert -p + (kplant * u1 - leak1) == -p + kplant * u1 - leak1;
    assert -p + (kplant * u2 - leak2) == -p + kplant * u2 - leak2;
  }

  /** With the shipped plant (`KPLANT`, `TAU`), a control in [0, 1], no
      negative leak and a step no longer than `TAU`, the pressure never climbs
      above `KPLANT`, the equilibrium of a fully open actuator without leak. */
  lemma ShippedPlantCeiling(p: real, u: real, leak: real, dt: real)
    requires 0.0 <= u <= 1.0 && leak >= 0.0 && 0.0 <= dt <= TAU
    requires p <= KPLANT
    ensures Equilibrium(u, leak, KPLANT) <= KPLANT
    ensures PlantStep(p, u, leak, KPLANT, TAU, dt) <= KPLANT
  {
    NoOvershoot(p, u, leak, KPLANT, TAU, dt);
  }

  lemma DriveMonotone(x1: real, x2: real, leak1: real, leak2: real)
    requires x1 <= x2 && leak2 <= leak1
    ensures x1 - leak1 <= x2 - leak2
  {
  }
}
