/**
 What a reported kill means: when a step that the monitor reports killed is really stopped, from
 whatever state an earlier invocation left the controller in.
 */
module PauseCycleKills {
  import opened Attribution
  import opened Metering
  import opened Controller
  import opened EnergyStates
  import opened PauseCycles
  import opened PauseCycleLaws
  import opened PauseCycleOutcomes

  /** The states a controller can be left in between two calls. */
  predicate AtRest(c: Ctl) {
    c.state == Running || c.state == Frozen || c.state == Stopped || c.state == Unknown
  }

  /** The cgroup is frozen for this pause after the freeze is asked for. */
  predicate Freezes(c: Ctl, env: CycleEnv) {
    if c.state == Frozen then c.lastPauseID == env.pauseID else c.state == Running && env.freezeOk
  }

  /** A kill that ends a cycle begun in this controller state stops the process. */
  predicate CycleKillStops(c: Ctl, env: CycleEnv) {
    if Freezes(c, env) then
      env.polls != [] && env.polls[0].killOk && !Authorizes(env.polls[0].answer, env.pauseID)
    else
      c.state == Stopped || (c.state == Frozen && env.killOk)
  }

  /** A kill that ends this tick stops the process. */
  predicate KillStops(m: Monitor, t: Tick) {
    if m.energy.pauseEnabled then CycleKillStops(m.exec.ctl, t.cycle)
    else m.exec.ctl.state == Stopped || ((m.exec.ctl.state == Running || m.exec.ctl.state == Frozen) && t.killOk)
  }

  /** The process is stopped exactly when the condition holds, and is in an unknown state otherwise. */
  predicate StoppedExactlyWhen(c: Ctl, condition: bool) {
    c.state == if condition then Stopped else Unknown
  }

  lemma CycleKilledMeansStopped(s: Socket, e: EnergyState, x: Exec, stepJ: real, env: CycleEnv)
    requires AtRest(x.ctl) && RunPauseCycle(s, e, x, stepJ, env).exit.Killed?
    ensures StoppedExactlyWhen(RunPauseCycle(s, e, x, stepJ, env).exec.ctl, CycleKillStops(x.ctl, env))
  {
    CycleNeverKillsUnkillable(s, e, x, stepJ, env);
    hide Obey, CloseSegment, NeverKill;
    var reply := FreezeReply(x.ctl, env.pauseID, env.freezeOk);
    assert reply.failed <==> !Freezes(x.ctl, env);
    if !reply.failed && env.polls != [] {
      var (x2, cycle2) := EnterFreeze(s, e, x.(ctl := reply.ctl), stepJ, NewCycle(e, env.pauseID, e.consumedBeforeJ + stepJ), env.freezeSample);
      KillableObeys(s, e, x2, cycle2, env.polls[0]);
    }
  }

  lemma CycleNeverKillsUnkillable(s: Socket, e: EnergyState, x: Exec, stepJ: real, env: CycleEnv)
    ensures RunPauseCycle(s, e, x, stepJ, env).exit.Killed? ==> !NeverKill(e)
  {
    hide RunPauseCycle, NeverKill;
    if NeverKill(e) {
      CycleNeverKills(s, e, x, stepJ, env);
    }
  }

  lemma TickKilledMeansStopped(s: Socket, m: Monitor, t: Tick)
    requires AtRest(m.exec.ctl) && OnTick(s, m, t).status.StepKilled?
    ensures StoppedExactlyWhen(OnTick(s, m, t).monitor.exec.ctl, KillStops(m, t))
  {
    hide RunPauseCycle, MeterUJ, NeverKill, CycleKillStops;
    var stepJ := Joules(MeterUJ(s, m.exec.book.meter, t.sample.At(t.sample.energyUJ.value)));
    if m.energy.pauseEnabled {
      CycleKilledMeansStopped(s, m.energy, m.exec, stepJ, t.cycle);
    }
  }

  /** How many ticks went by before the one that ended the monitoring, or all of them. */
  function QuietTicks(s: Socket, m: Monitor, ticks: seq<Tick>): (n: nat)
    ensures n <= |ticks|
    decreases |ticks|
  {
    if ticks == [] || !OnTick(s, m, ticks[0]).status.Monitoring? then 0
    else 1 + QuietTicks(s, OnTick(s, m, ticks[0]).monitor, ticks[1..])
  }

  /** The monitor as the last tick it looked at found it. */
  function AtLastTick(s: Socket, m: Monitor, ticks: seq<Tick>): Monitor {
    MonitorEnergy(s, m, ticks[..QuietTicks(s, m, ticks)]).monitor
  }

  lemma ExplainedIsAtRest(c: Ctl)
    requires Explained(c)
    ensures AtRest(c)
  {}

  /** A killable step still monitored has a running cgroup, if it had one to begin with. */
  lemma KillableTickKeepsRunning(s: Socket, m: Monitor, t: Tick)
    requires !NeverKill(m.energy) && m.exec.ctl.state == Running && OnTick(s, m, t).status.Monitoring?
    ensures OnTick(s, m, t).monitor.exec.ctl.state == Running && !NeverKill(OnTick(s, m, t).monitor.energy)
  {
    hide RunPauseCycle, MeterUJ;
    if t.sample.energyUJ.Some? {
      var stepJ := Joules(MeterUJ(s, m.exec.book.meter, t.sample.At(t.sample.energyUJ.value)));
      KillableCycleClassified(s, m.energy, m.exec, stepJ, t.cycle);
    }
  }

  /**
   A run that ends in a reported kill, local or by a cycle, from any controller an executor can
   have: the process is stopped exactly when the last tick's kill stops it, as its kernel outcomes
   and the state it found tell; otherwise the state is unknown.
   */
  lemma {:induction false} KilledMeansStoppedExactlyWhen(s: Socket, m: Monitor, ticks: seq<Tick>)
    requires Explained(m.exec.ctl) && MonitorEnergy(s, m, ticks).status.StepKilled?
    ensures var n := QuietTicks(s, m, ticks);
            && n < |ticks|
            && StoppedExactlyWhen(MonitorEnergy(s, m, ticks).monitor.exec.ctl, KillStops(AtLastTick(s, m, ticks), ticks[n]))
    ensures m.exec.ctl.state == Running && !NeverKill(m.energy) ==> AtLastTick(s, m, ticks).exec.ctl.state == Running
    decreases |ticks|
  {
    hide OnTick, KillStops, NeverKill, Explained;
    ExplainedIsAtRest(m.exec.ctl);
    var r := OnTick(s, m, ticks[0]);
    if r.status.Monitoring? {
      TickAccounts(s, m, ticks[0]);
      KilledMeansStoppedExactlyWhen(s, r.monitor, ticks[1..]);
      var n := QuietTicks(s, r.monitor, ticks[1..]);
      assert ticks[..n + 1][0] == ticks[0] && ticks[..n + 1][1..] == ticks[1..][..n];
      if m.exec.ctl.state == Running && !NeverKill(m.energy) {
        KillableTickKeepsRunning(s, m, ticks[0]);
      }
    } else {
      TickKilledMeansStopped(s, m, ticks[0]);
    }
  }

  /**
   A controller left unknown by an earlier invocation: a killable step reaching its threshold is
   reported killed at once, by cycle or locally, whatever the kernel would do, and nothing reaches
   the kernel.
   */
  lemma KilledWithoutEffect(s: Socket, m: Monitor, t: Tick)
    requires m.exec.ctl.state == Unknown && !NeverKill(m.energy)
    requires t.sample.energyUJ.Some?
    requires m.energy.consumedBeforeJ + Joules(MeterUJ(s, m.exec.book.meter, t.sample.At(t.sample.energyUJ.value)))
             >= m.energy.executionThresholdJ
    ensures var r := OnTick(s, m, t);
            r.status.StepKilled? && r.monitor.result.killed && r.monitor.exec == m.exec
  {
    hide MeterUJ, PollLoop, EnterFreeze, NeverKill;
  }
}
