/** The simulation engine: the state the page keeps between ticks, one tick of
    the loop (controller, plant, clock, stop check, leak expiry), the
    start / stop / reset lifecycle and the operator commands. */
module Simulation {
  import opened Saturation
  import opened Controller
  import opened Plant
  import opened Disturbance
  import opened Clock

  /** The parameters one tick reads from the page. The noise standard deviation
      is not among them: the noise sample itself is an input of the tick. */
  datatype Params = Params(setpoint: real, kp: real, ki: real, dt: real, totalTime: real,
                           kplant: real, tau: real)

  /** Everything the engine carries from one tick to the next. */
  datatype SimState = SimState(running: bool, t: real, pressure: real, integral: real,
                               control: real, leak: LeakState)

  /** The record a tick hands to the charts and the status line. */
  datatype StepOutput = StepOutput(t: real, pressure: real, measurement: real, error: real,
                                   control: real, leak: real, setpoint: real)

  datatype StepResult = StepResult(next: SimState, out: StepOutput)

  predicate Wellformed(p: Params)
  {
    p.tau != 0.0
  }

  /** The state right after the page loads: idle, clock at 0, pressure P0, no leak. */
  function Init(p0: real): (s: SimState)
    ensures !s.running && s.t == 0.0 && s.pressure == p0 && s.leak == NoLeak
    ensures s.integral == 0.0 && s.control == 0.0
  {
    SimState(false, 0.0, p0, 0.0, 0.0, NoLeak)
  }

  /** One tick. The measurement is the pressure plus the noise sample; the
      controller updates integral and control; the plant advances with the NEW
      control and the leak held at the START of the tick; the clock advances by
      dt; the run stops once the clock reaches the total time; finally the leak
      timer is advanced. */
  function Step(p: Params, s: SimState, noise: real): (r: StepResult)
    requires Wellformed(p)
    ensures r.next.t == s.t + p.dt
    ensures 0.0 <= r.next.control <= 1.0
    ensures r.next.running <==> s.running && s.t + p.dt < p.totalTime
    ensures r.out.measurement == s.pressure + noise
    ensures r.out.error == p.setpoint - r.out.measurement
    ensures r.next.control == Control(Gains(p.kp, p.ki), r.out.error, r.next.integral)
    ensures p.dt >= 0.0 ==> Abs(r.next.integral - s.integral) <= 0.5 * p.dt
    ensures WindupBlocked(Control(Gains(p.kp, p.ki), r.out.error, s.integral), r.out.error)
            ==> r.next.integral == s.integral
    ensures r.next.pressure == PlantStep(s.pressure, r.next.control, s.leak.rate, p.kplant, p.tau, p.dt)
    ensures r.next.leak == LeakTick(s.leak, p.dt)
    ensures r.next.integral == ControlStep(Gains(p.kp, p.ki), p.setpoint, r.out.measurement, s.integral, p.dt).integral
    ensures r.out == StepOutput(r.next.t, r.next.pressure, r.out.measurement, r.out.error,
                                r.next.control, s.leak.rate, p.setpoint)
  {
    var f := s.pressure + noise;
    var c := ControlStep(Gains(p.kp, p.ki), p.setpoint, f, s.integral, p.dt);
    var pressure := PlantStep(s.pressure, c.control, s.leak.rate, p.kplant, p.tau, p.dt);
    var t := s.t + p.dt;
    var out := StepOutput(t, pressure, f, c.error, c.control, s.leak.rate, p.setpoint);
    var s1 := s.(t := t, pressure := pressure, integral := c.integral, control := c.control);
    var s2 := if t >= p.totalTime then Stop(s1) else s1;
    StepResult(s2.(leak := LeakTick(s2.leak, p.dt)), out)
  }

  /** `startSim`: ignored while running; otherwise the clock, pressure,
      controller and leak rate are reinitialised and the run begins. The leak
      timer and duration are left as they were. */
  function Start(s: SimState, p0: real): (r: SimState)
    ensures s.running ==> r == s
    ensures !s.running ==> r.running && r.t == 0.0 && r.pressure == p0 && r.integral == 0.0
                           && r.control == 0.0 && r.leak.rate == 0.0
                           && r.leak.timer == s.leak.timer && r.leak.duration == s.leak.duration
  {
    if s.running then s
    else SimState(true, 0.0, p0, 0.0, 0.0, s.leak.(rate := 0.0))
  }

  /** `stopSim`: ignored while idle; otherwise the run halts with every other
      part of the state preserved. */
  function Stop(s: SimState): (r: SimState)
    ensures !r.running
    ensures !s.running ==> r == s
    ensures r.t == s.t && r.pressure == s.pressure && r.integral == s.integral
            && r.control == s.control && r.leak == s.leak
  {
    if !s.running then s else s.(running := false)
  }

  /** `resetSim`: stop, then reinitialise exactly the clock, pressure, integral,
      control and leak rate; the leak timer and duration are not touched. */
  function Reset(s: SimState, p0: real): (r: SimState)
    ensures !r.running && r.t == 0.0 && r.pressure == p0 && r.integral == 0.0 && r.control == 0.0
    ensures r.leak == LeakState(0.0, s.leak.timer, s.leak.duration)
  {
    var s1 := Stop(s);
    s1.(t := 0.0, pressure := p0, integral := 0.0, control := 0.0, leak := s1.leak.(rate := 0.0))
  }

  /** Resetting twice is resetting once. */
  lemma ResetIdempotent(s: SimState, p0: real)
    ensures Reset(Reset(s, p0), p0) == Reset(s, p0)
  {
  }

  /** A reset forgets the whole run: two states that agree on the leak timer
      and duration reset to the same state. */
  lemma ResetForgetsRun(s1: SimState, s2: SimState, p0: real)
    requires s1.leak.timer == s2.leak.timer && s1.leak.duration == s2.leak.duration
    ensures Reset(s1, p0) == Reset(s2, p0)
  {
  }

  /** Starting from idle is a reset followed by switching the run on. */
  lemma StartIsResetThenRun(s: SimState, p0: real)
    requires !s.running
    ensures Start(s, p0) == Reset(s, p0).(running := true)
  {
  }

  /** The load-time reset leaves the initial state as it is. */
  lemma InitIsReset(p0: real)
    ensures Reset(Init(p0), p0) == Init(p0)
  {
  }

  /** The operator's commands, and a firing of the interval timer. */
  datatype Command =
    | StartCmd(p0: real)
    | StopCmd
    | ResetCmd(p0: real)
    | ApplyLeakCmd(v: Reading, d: real)
    | ClearLeakCmd
    | TickCmd(p: Params, noise: real)

  predicate CommandOk(c: Command)
  {
    c.TickCmd? ==> Wellformed(c.p)
  }

  /** The effect of one command. The interval timer exists exactly while the
      run is on, so a tick only happens then. */
  function Handle(s: SimState, c: Command): (r: SimState)
    requires CommandOk(c)
    ensures c.StartCmd? ==> r == Start(s, c.p0)
    ensures c.StopCmd? ==> r == Stop(s)
    ensures c.ResetCmd? ==> r == Reset(s, c.p0)
    ensures c.ApplyLeakCmd? ==> r == s.(leak := ApplyLeak(s.leak, c.v, c.d))
    ensures c.ClearLeakCmd? ==> r == s.(leak := ClearLeak(s.leak))
    ensures c.TickCmd? && s.running ==> r == Step(c.p, s, c.noise).next
    ensures c.TickCmd? && !s.running ==> r == s
  {
    match c
    case StartCmd(p0) => Start(s, p0)
    case StopCmd => Stop(s)
    case ResetCmd(p0) => Reset(s, p0)
    case ApplyLeakCmd(v, d) => s.(leak := ApplyLeak(s.leak, v, d))
    case ClearLeakCmd => s.(leak := ClearLeak(s.leak))
    case TickCmd(p, noise) => if s.running then Step(p, s, noise).next else s
  }

  predicate CommandsOk(cmds: seq<Command>)
  {
    forall k :: 0 <= k < |cmds| ==> CommandOk(cmds[k])
  }

  /** A session: the commands applied in order. */
  function Run(s: SimState, cmds: seq<Command>): SimState
    requires CommandsOk(cmds)
    decreases |cmds|
  {
    if |cmds| == 0 then s else Run(Handle(s, cmds[0]), cmds[1..])
  }

  /** What holds of every reachable state: the control is inside the actuator
      range and no negative leak is ever active. */
  predicate Invariant(s: SimState)
  {
    0.0 <= s.control <= 1.0 && s.leak.rate >= 0.0
  }

  lemma HandleKeepsInvariant(s: SimState, c: Command)
    requires CommandOk(c) && Invariant(s)
    ensures Invariant(Handle(s, c))
  {
    RateStaysNonNegative(s.leak, if c.ApplyLeakCmd? then c.v else NaN,
                         if c.ApplyLeakCmd? then c.d else 0.0,
                         if c.TickCmd? then c.p.dt else 0.0);
  }

  /** Every session that begins at page load keeps the invariant. */
  lemma {:induction false} RunKeepsInvariant(s: SimState, cmds: seq<Command>)
    requires CommandsOk(cmds) && Invariant(s)
    ensures Invariant(Run(s, cmds))
    decreases |cmds|
  {
    if |cmds| > 0 {
      HandleKeepsInvariant(s, cmds[0]);
      RunKeepsInvariant(Handle(s, cmds[0]), cmds[1..]);
    }
  }

  /** The ticks of a session whose operator keeps the proportional gain
      non-negative, the integral gain at or above `kiMin` (edits between ticks
      allowed) and the step in [0, maxDt]. */
  predicate TicksWithin(cmds: seq<Command>, kiMin: real, maxDt: real)
  {
    forall k :: 0 <= k < |cmds| && cmds[k].TickCmd? ==>
      cmds[k].p.kp >= 0.0 && cmds[k].p.ki >= kiMin && 0.0 <= cmds[k].p.dt <= maxDt
  }

  lemma HandleKeepsBand(s: SimState, c: Command, kiMin: real, maxDt: real)
    requires CommandOk(c) && kiMin > 0.0 && maxDt >= 0.0
    requires c.TickCmd? ==> c.p.kp >= 0.0 && c.p.ki >= kiMin && 0.0 <= c.p.dt <= maxDt
    requires InWindupBand(s.integral, kiMin, maxDt)
    ensures InWindupBand(Handle(s, c).integral, kiMin, maxDt)
  {
    if c.TickCmd? && s.running {
      var p := c.p;
      ControlStepKeepsBand(Gains(p.kp, p.ki), p.setpoint, s.pressure + c.noise, s.integral, p.dt, maxDt, kiMin);
    }
  }

  /** Anti-windup over a whole session: however long the actuator stays
      saturated, and however the operator edits the integral gain (as long as
      it stays at or above `kiMin > 0`), the integral never leaves the windup
      band of `kiMin`. Start and reset put it at 0, which is inside the band. */
  lemma {:induction false} RunKeepsBand(s: SimState, cmds: seq<Command>, kiMin: real, maxDt: real)
    requires CommandsOk(cmds) && kiMin > 0.0 && maxDt >= 0.0
    requires TicksWithin(cmds, kiMin, maxDt)
    requires InWindupBand(s.integral, kiMin, maxDt)
    ensures InWindupBand(Run(s, cmds).integral, kiMin, maxDt)
    decreases |cmds|
  {
    if |cmds| > 0 {
      HandleKeepsBand(s, cmds[0], kiMin, maxDt);
      assert TicksWithin(cmds[1..], kiMin, maxDt) by {
        forall k | 0 <= k < |cmds[1..]| && cmds[1..][k].TickCmd?
          ensures cmds[1..][k].p.kp >= 0.0 && cmds[1..][k].p.ki >= kiMin && 0.0 <= cmds[1..][k].p.dt <= maxDt
        {
          assert cmds[1..][k] == cmds[k + 1];
        }
      }
      RunKeepsBand(Handle(s, cmds[0]), cmds[1..], kiMin, maxDt);
    }
  }

  /** Interval-timer firings with fixed parameters, one per noise sample. */
  function Ticks(p: Params, s: SimState, noises: seq<real>): SimState
    requires Wellformed(p)
    decreases |noises|
  {
    if |noises| == 0 then s else Ticks(p, Handle(s, TickCmd(p, noises[0])), noises[1..])
  }

  /** Once idle, the timer never fires again: further ticks change nothing. */
  lemma {:induction false} IdleTicksAreNoOps(p: Params, s: SimState, noises: seq<real>)
    requires Wellformed(p) && !s.running
    ensures Ticks(p, s, noises) == s
    decreases |noises|
  {
    if |noises| > 0 {
      IdleTicksAreNoOps(p, s, noises[1..]);
    }
  }

  /** The clock part of a timer firing on a running session. */
  lemma TickClock(p: Params, s: SimState, noise: real)
    requires Wellformed(p) && s.running
    ensures Handle(s, TickCmd(p, noise)).t == s.t + p.dt
    ensures Handle(s, TickCmd(p, noise)).running <==> s.t + p.dt < p.totalTime
  {
  }

  /** While the clock stays below the total time the run goes on, and the
      clock has advanced by exactly one step per tick. */
  lemma {:induction false} RunsBeforeHorizon(p: Params, s: SimState, noises: seq<real>)
    requires Wellformed(p) && s.running && p.dt >= 0.0
    requires s.t + Elapsed(|noises|, p.dt) < p.totalTime
    ensures Ticks(p, s, noises).running
    ensures Ticks(p, s, noises).t == s.t + Elapsed(|noises|, p.dt)
    decreases |noises|
  {
    if |noises| > 0 {
      ElapsedMonotone(1, |noises|, p.dt);
      TickClock(p, s, noises[0]);
      RunsBeforeHorizon(p, Handle(s, TickCmd(p, noises[0])), noises[1..]);
    }
  }

  /** The run stops at the first tick whose clock reaches the total time, and
      stays stopped. */
  lemma {:induction false} StopsAtHorizon(p: Params, s: SimState, noises: seq<real>)
    requires Wellformed(p) && s.running && p.dt >= 0.0 && |noises| >= 1
    requires s.t + Elapsed(|noises|, p.dt) >= p.totalTime
    ensures !Ticks(p, s, noises).running
    decreases |noises|
  {
    var s1 := Handle(s, TickCmd(p, noises[0]));
    TickClock(p, s, noises[0]);
    if s.t + p.dt >= p.totalTime {
      IdleTicksAreNoOps(p, s1, noises[1..]);
    } else {
      assert |noises| >= 2;
      StopsAtHorizon(p, s1, noises[1..]);
    }
  }

  /** The session horizon: started at clock `t0`, a run with a fixed
      non-negative step is still on after `n >= 1` ticks exactly when `t0` plus
      the `n` accumulated steps (`n * dt`, by `Clock.ElapsedIsProduct`) is below
      the total time. */
  lemma HorizonExact(p: Params, s: SimState, noises: seq<real>)
    requires Wellformed(p) && s.running && p.dt >= 0.0 && |noises| >= 1
    ensures Ticks(p, s, noises).running <==> s.t + Elapsed(|noises|, p.dt) < p.totalTime
  {
    if s.t + Elapsed(|noises|, p.dt) < p.totalTime {
      RunsBeforeHorizon(p, s, noises);
    } else {
      StopsAtHorizon(p, s, noises);
    }
  }

  /** The records the interval loop hands to the charts: one per firing,
      each the record of that tick, for as long as the run stays on. */
  function Trace(p: Params, s: SimState, noises: seq<real>): seq<StepOutput>
    requires Wellformed(p)
    decreases |noises|
  {
    if |noises| == 0 || !s.running then []
    else
      var r := Step(p, s, noises[0]);
      [r.out] + Trace(p, r.next, noises[1..])
  }

  /** One firing of a running session, seen from the rest of the samples. */
  lemma TraceUnfold(p: Params, s: SimState, noises: seq<real>, i: nat)
    requires Wellformed(p) && i < |noises| && s.running
    ensures Ticks(p, s, noises[i..]) == Ticks(p, Step(p, s, noises[i]).next, noises[i + 1..])
    ensures Trace(p, s, noises[i..]) == [Step(p, s, noises[i]).out] + Trace(p, Step(p, s, noises[i]).next, noises[i + 1..])
  {
    assert noises[i..][1..] == noises[i + 1..];
  }

  /** The trace has at most one record per sample, at least one when the run
      is on and a sample comes, and stops short only when the run has stopped. */
  lemma {:induction false} TraceLength(p: Params, s: SimState, noises: seq<real>)
    requires Wellformed(p)
    ensures |Trace(p, s, noises)| <= |noises|
    ensures s.running && |noises| > 0 ==> |Trace(p, s, noises)| > 0
    ensures |Trace(p, s, noises)| < |noises| ==> !Ticks(p, s, noises).running
    decreases |noises|
  {
    if |noises| > 0 {
      if s.running {
        TraceLength(p, Step(p, s, noises[0]).next, noises[1..]);
      } else {
        IdleTicksAreNoOps(p, s, noises);
      }
    }
  }

  /** Every record of the trace has its control in the actuator range and is
      stamped with the start time plus `k + 1` accumulated steps. */
  lemma {:induction false} TraceRecords(p: Params, s: SimState, noises: seq<real>)
    requires Wellformed(p)
    ensures forall k :: 0 <= k < |Trace(p, s, noises)| ==>
              0.0 <= Trace(p, s, noises)[k].control <= 1.0
              && Trace(p, s, noises)[k].t == s.t + Elapsed(k + 1, p.dt)
    decreases |noises|
  {
    if |noises| > 0 && s.running {
      var r := Step(p, s, noises[0]);
      var rest := Trace(p, r.next, noises[1..]);
      TraceRecords(p, r.next, noises[1..]);
      assert Trace(p, s, noises) == [r.out] + rest;
      forall k | 0 <= k < |Trace(p, s, noises)|
        ensures 0.0 <= Trace(p, s, noises)[k].control <= 1.0
        ensures Trace(p, s, noises)[k].t == s.t + Elapsed(k + 1, p.dt)
      {
        if k > 0 {
          assert Trace(p, s, noises)[k] == rest[k - 1];
        }
      }
    }
  }

  /** The last record shows the state the session ends in. */
  lemma {:induction false} TraceLast(p: Params, s: SimState, noises: seq<real>)
    requires Wellformed(p)
    ensures var tr := Trace(p, s, noises);
      var e := Ticks(p, s, noises);
      |tr| > 0 ==> tr[|tr| - 1].t == e.t && tr[|tr| - 1].pressure == e.pressure
                   && tr[|tr| - 1].control == e.control
    decreases |noises|
  {
    if |noises| > 0 && s.running {
      var r := Step(p, s, noises[0]);
      var rest := Trace(p, r.next, noises[1..]);
      assert Trace(p, s, noises) == [r.out] + rest;
      assert Ticks(p, s, noises) == Ticks(p, r.next, noises[1..]);
      if |rest| > 0 {
        TraceLast(p, r.next, noises[1..]);
      } else if |noises[1..]| > 0 {
        assert !r.next.running;
        IdleTicksAreNoOps(p, r.next, noises[1..]);
      }
    }
  }

  /** The interval loop made explicit: tick once per noise sample while the run
      is on, collecting the emitted records. The records are exactly the
      session's trace; record `k` is stamped with the start time plus `k + 1`
      accumulated steps, and the last record shows the state the loop ends in. */
  method Simulate(p: Params, s0: SimState, noises: seq<real>) returns (s: SimState, outs: seq<StepOutput>)
    requires Wellformed(p)
    ensures s == Ticks(p, s0, noises)
    ensures outs == Trace(p, s0, noises)
    ensures |outs| <= |noises|
    ensures |outs| < |noises| ==> !s.running
    ensures s0.running && |noises| > 0 ==> |outs| > 0
    ensures forall k :: 0 <= k < |outs| ==> 0.0 <= outs[k].control <= 1.0
    ensures forall k :: 0 <= k < |outs| ==> outs[k].t == s0.t + Elapsed(k + 1, p.dt)
    ensures p.dt > 0.0 ==> forall j, k :: 0 <= j < k < |outs| ==> outs[j].t < outs[k].t
    ensures |outs| > 0 ==> outs[|outs| - 1].t == s.t && outs[|outs| - 1].pressure == s.pressure
                           && outs[|outs| - 1].control == s.control
  {
    s, outs := TickLoop(p, s0, noises);
    SimulateFacts(p, s0, noises);
  }

  /** The loop itself: it ends in the session's state with the session's trace. */
  method TickLoop(p: Params, s0: SimState, noises: seq<real>) returns (s: SimState, outs: seq<StepOutput>)
    requires Wellformed(p)
    ensures s == Ticks(p, s0, noises)
    ensures outs == Trace(p, s0, noises)
  {
    s := s0;
    outs := [];
    var i := 0;
    assert noises[0..] == noises;
    while i < |noises| && s.running
      invariant 0 <= i <= |noises|
      invariant Ticks(p, s, noises[i..]) == Ticks(p, s0, noises)
      invariant outs + Trace(p, s, noises[i..]) == Trace(p, s0, noises)
      decreases |noises| - i
    {
      var r := Step(p, s, noises[i]);
      TraceUnfold(p, s, noises, i);
      assert outs + Trace(p, s, noises[i..]) == (outs + [r.out]) + Trace(p, r.next, noises[i + 1..]);
      s := r.next;
      outs := outs + [r.out];
      i := i + 1;
    }
    LoopExit(p, s, noises, i);
  }

  /** When the loop leaves off (samples used up, or the run stopped), the
      remaining samples change nothing and emit nothing. */
  lemma LoopExit(p: Params, s: SimState, noises: seq<real>, i: nat)
    requires Wellformed(p) && i <= |noises|
    requires i == |noises| || !s.running
    ensures Ticks(p, s, noises[i..]) == s
    ensures Trace(p, s, noises[i..]) == []
  {
    if i < |noises| {
      IdleTicksAreNoOps(p, s, noises[i..]);
    } else {
      assert noises[i..] == [];
    }
  }

  /** Everything the loop promises about its records, stated on the trace. */
  lemma SimulateFacts(p: Params, s0: SimState, noises: seq<real>)
    requires Wellformed(p)
    ensures var tr := Trace(p, s0, noises);
      var e := Ticks(p, s0, noises);
      && |tr| <= |noises|
      && (|tr| < |noises| ==> !e.running)
      && (s0.running && |noises| > 0 ==> |tr| > 0)
      && (forall k :: 0 <= k < |tr| ==> 0.0 <= tr[k].control <= 1.0)
      && (forall k :: 0 <= k < |tr| ==> tr[k].t == s0.t + Elapsed(k + 1, p.dt))
      && (p.dt > 0.0 ==> forall j, k :: 0 <= j < k < |tr| ==> tr[j].t < tr[k].t)
      && (|tr| > 0 ==> tr[|tr| - 1].t == e.t && tr[|tr| - 1].pressure == e.pressure
                       && tr[|tr| - 1].control == e.control)
  {
    var tr := Trace(p, s0, noises);
    TraceLength(p, s0, noises);
    TraceRecords(p, s0, noises);
    TraceLast(p, s0, noises);
    if p.dt > 0.0 {
      RecordTimesIncrease(p.dt, s0.t, tr);
    }
  }

  /** Time stamps of consecutive steps strictly increase when the step is positive. */
  lemma RecordTimesIncrease(dt: real, t0: real, outs: seq<StepOutput>)
    requires dt > 0.0
    requires forall k :: 0 <= k < |outs| ==> outs[k].t == t0 + Elapsed(k + 1, dt)
    ensures forall j, k :: 0 <= j < k < |outs| ==> outs[j].t < outs[k].t
  {
    forall j, k | 0 <= j < k < |outs|
      ensures outs[j].t < outs[k].t
    {
      ElapsedMonotone(j + 1, k, dt);
    }
  }
}
