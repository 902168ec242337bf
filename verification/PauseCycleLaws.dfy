/**
 What holds of every run of the monitor: for all ticks, kernel outcomes and scheduler answers.
 */
module PauseCycleLaws {
  import opened Attribution
  import opened Metering
  import opened Controller
  import opened EnergyStates
  import opened PauseCycles

  // --------------------------------------------------------------------- unkillable means unkilled

  predicate KillFree(events: seq<Event>) {
    forall i :: 0 <= i < |events| ==>
      !events[i].KillCalled? && !(events[i].Kernel? && events[i].op.kind == KillGroup)
  }

  lemma ObeyNeverKills(s: Socket, e: EnergyState, x: Exec, cycle: PauseCycle, p: Poll)
    requires NeverKill(e)
    ensures KillFree(Obey(s, e, x, cycle, p).events)
    ensures !Obey(s, e, x, cycle, p).exit.Killed? && !Obey(s, e, x, cycle, p).exit.Unfrozen?
  {
    hide Obey, NeverKill, RefineCycle, OpenSegment;
    ObeyIs(s, e, x, cycle, p);
  }

  lemma {:induction false} PollLoopNeverKills(s: Socket, e: EnergyState, x: Exec, cycle: PauseCycle, postedJ: real, polls: seq<Poll>)
    requires NeverKill(e)
    ensures var p := PollLoop(s, e, x, cycle, postedJ, polls);
            KillFree(p.events) && !p.exit.Killed? && !p.exit.Unfrozen?
    decreases |polls|
  {
    hide Obey;
    if polls != [] {
      ObeyNeverKills(s, e, x, cycle, polls[0]);
      var p := Obey(s, e, x, cycle, polls[0]);
      if p.exit.Again? {
        PollLoopNeverKills(s, e, p.exec, p.cycle, postedJ, polls[1..]);
      }
    }
  }

  lemma TickNeverKills(s: Socket, m: Monitor, t: Tick)
    requires NeverKill(m.energy) && !m.result.killed
    ensures var r := OnTick(s, m, t);
            KillFree(r.events) && !r.monitor.result.killed && !r.status.StepKilled? && NeverKill(r.monitor.energy)
  {
    hide PollLoop, MeterUJ, CloseSegment;
    if t.sample.energyUJ.Some? {
      var stepJ := Joules(MeterUJ(s, m.exec.book.meter, t.sample.At(t.sample.energyUJ.value)));
      CycleNeverKills(s, m.energy, m.exec, stepJ, t.cycle);
    }
  }

  lemma CycleNeverKills(s: Socket, e: EnergyState, x: Exec, stepJ: real, env: CycleEnv)
    requires NeverKill(e)
    ensures var p := RunPauseCycle(s, e, x, stepJ, env);
            && KillFree(p.events)
            && !p.exit.Killed?
            && (p.exit.Unfrozen? <==> FreezeReply(x.ctl, env.pauseID, env.freezeOk).failed)
  {
    hide PollLoop, EnterFreeze;
    var x1 := x.(ctl := FreezeReply(x.ctl, env.pauseID, env.freezeOk).ctl);
    var (x2, cycle2) := EnterFreeze(s, e, x1, stepJ, NewCycle(e, env.pauseID, e.consumedBeforeJ + stepJ), env.freezeSample);
    PollLoopNeverKills(s, e, x2, cycle2, cycle2.energyAtEffectiveFreezeJ, env.polls);
  }

  /**
   Whatever the kernel does and whatever the scheduler answers, an explicit KILL_EXECUTION
   included, a step that must never be killed is never killed and never reported killed: no kill
   is even attempted.
   */
  lemma {:induction false} UnkillableIsNeverKilled(s: Socket, m: Monitor, ticks: seq<Tick>)
    requires NeverKill(m.energy) && !m.result.killed
    ensures var r := MonitorEnergy(s, m, ticks);
            KillFree(r.events) && !r.monitor.result.killed && !r.status.StepKilled?
    decreases |ticks|
  {
    hide OnTick, NeverKill;
    if ticks != [] {
      TickNeverKills(s, m, ticks[0]);
      var r := OnTick(s, m, ticks[0]);
      if r.status.Monitoring? {
        UnkillableIsNeverKilled(s, r.monitor, ticks[1..]);
      }
    }
  }

  // -------------------------------------------------------------------- resume needs authorization

  /**
   An unfreeze directly follows the command that authorizes it, which answers the report of this very
   pause, and puts that command's threshold in force.
   */
  predicate AuthorizedAt(events: seq<Event>, i: nat)
    requires i < |events|
  {
    events[i].Kernel? && events[i].op.kind == UnfreezeGroup ==>
      && i > 1
      && events[i - 2].Paused?
      && events[i - 2].pauseID == events[i].op.pauseID
      && events[i - 1].Answered?
      && events[i - 1].answer.Command?
      && events[i - 1].answer.command == "RESUME_EXECUTION"
      && events[i - 1].answer.pauseID == events[i].op.pauseID
      && (events[i].op.ok ==> i + 1 < |events| && events[i + 1] == InForce(events[i - 1].answer.newThresholdJ))
  }

  predicate Authorized(events: seq<Event>) {
    forall i :: 0 <= i < |events| ==> AuthorizedAt(events, i)
  }

  lemma AuthorizedConcat(a: seq<Event>, b: seq<Event>)
    requires Authorized(a) && Authorized(b)
    ensures Authorized(a + b)
  {
    forall i | 0 <= i < |a + b|
      ensures AuthorizedAt(a + b, i)
    {
      if i < |a| {
        assert AuthorizedAt(a, i);
      } else {
        assert AuthorizedAt(b, i - |a|);
      }
    }
  }

  /** A cycle's events, completed by what the monitor does right after a resume. */
  function Completed(p: Progress): seq<Event> {
    p.events + if p.exit.Resumed? then [InForce(p.exit.thresholdJ)] else []
  }

  predicate NoUnfreeze(events: seq<Event>) {
    forall i :: 0 <= i < |events| ==> !(events[i].Kernel? && events[i].op.kind == UnfreezeGroup)
  }

  lemma KillFrozenIssuesNoUnfreeze(s: Socket, e: EnergyState, x: Exec, cycle: PauseCycle, p: Poll, cause: string)
    ensures NoUnfreeze(KillFrozen(s, e, x, cycle, p, cause).events)
    ensures KillFrozen(s, e, x, cycle, p, cause).exit.Killed?
  {
    hide AttributionDetail, RefineSegment;
  }

  /** An answer makes the runtime unfreeze only if it is the resume command of this very pause. */
  lemma ObeyUnfreezesOnResumeOnly(s: Socket, e: EnergyState, x: Exec, cycle: PauseCycle, p: Poll)
    ensures var q := Obey(s, e, x, cycle, p);
            NoUnfreeze(q.events)
            || (&& p.answer.Command? && p.answer.command == "RESUME_EXECUTION" && p.answer.pauseID == cycle.pauseID
                && NoUnfreeze(q.events[1..])
                && q.events[0].Kernel? && q.events[0].op.pauseID == cycle.pauseID
                && (q.events[0].op.ok ==> q.events[1..] == [] && q.exit == Resumed(p.answer.newThresholdJ))
                && (!q.events[0].op.ok ==> !q.exit.Resumed?))
  {
    hide Obey, KillFrozen, RefineCycle, OpenSegment, NeverKill;
    var cause := CauseOf(p.answer, cycle.pauseID);
    ObeyIs(s, e, x, cycle, p);
    KillFrozenIssuesNoUnfreeze(s, e, x, cycle, p, cause);
    if Authorizes(p.answer, cycle.pauseID) {
      var (x1, cycle1) := RefineCycle(s, e, x, cycle, p.ticksBeforeUnfreeze);
      var x2 := x1.(ctl := ResumeReply(x1.ctl, cycle.pauseID, p.unfreezeOk).ctl);
      KillFrozenIssuesNoUnfreeze(s, e, x2, cycle1, p, "RESUME_FAILED");
      var killed := KillFrozen(s, e, x2, cycle1, p, "RESUME_FAILED");
      var issued := Issued(x1.ctl, x2.ctl);
      assert issued == [] ==> issued + killed.events == killed.events;
      assert issued != [] ==> (issued + killed.events)[1..] == killed.events;
    }
  }

  lemma ObeyAuthorized(s: Socket, e: EnergyState, x: Exec, cycle: PauseCycle, p: Poll, postedJ: real)
    ensures Authorized(Completed(Obey(s, e, x, cycle, p).After([Paused(cycle.pauseID, postedJ), Answered(p.answer)])))
  {
    ObeyUnfreezesOnResumeOnly(s, e, x, cycle, p);
    hide Obey;
    var q := Obey(s, e, x, cycle, p);
    var prefix := [Paused(cycle.pauseID, postedJ), Answered(p.answer)];
    var events := Completed(q.After(prefix));
    forall i | 0 <= i < |events|
      ensures AuthorizedAt(events, i)
    {
      if 2 < i < 2 + |q.events| {
        assert events[i] == q.events[i - 2];
        assert q.events[i - 2] == q.events[1..][i - 3];
      }
    }
  }

  lemma {:induction false} PollLoopAuthorized(s: Socket, e: EnergyState, x: Exec, cycle: PauseCycle, postedJ: real, polls: seq<Poll>)
    ensures Authorized(Completed(PollLoop(s, e, x, cycle, postedJ, polls)))
    decreases |polls|
  {
    hide Obey;
    if polls != [] {
      ObeyAuthorized(s, e, x, cycle, polls[0], postedJ);
      var p := Obey(s, e, x, cycle, polls[0]).After([Paused(cycle.pauseID, postedJ), Answered(polls[0].answer)]);
      if p.exit.Again? {
        PollLoopAuthorized(s, e, p.exec, p.cycle, postedJ, polls[1..]);
        var rest := PollLoop(s, e, p.exec, p.cycle, postedJ, polls[1..]);
        assert Completed(p) == p.events;
        AuthorizedConcat(p.events, Completed(rest));
        assert Completed(rest.After(p.events)) == p.events + Completed(rest);
      }
    }
  }

  lemma CycleAuthorized(s: Socket, e: EnergyState, x: Exec, stepJ: real, env: CycleEnv)
    ensures Authorized(Completed(RunPauseCycle(s, e, x, stepJ, env)))
  {
    hide PollLoop, EnterFreeze;
    var ctl := FreezeReply(x.ctl, env.pauseID, env.freezeOk).ctl;
    var x1 := x.(ctl := ctl);
    var (x2, cycle2) := EnterFreeze(s, e, x1, stepJ, NewCycle(e, env.pauseID, e.consumedBeforeJ + stepJ), env.freezeSample);
    var loop := PollLoop(s, e, x2, cycle2, cycle2.energyAtEffectiveFreezeJ, env.polls);
    PollLoopAuthorized(s, e, x2, cycle2, cycle2.energyAtEffectiveFreezeJ, env.polls);
    var issued := Issued(x.ctl, ctl);
    AuthorizedConcat(issued, Completed(loop));
    assert Completed(loop.After(issued)) == issued + Completed(loop);
  }

  lemma TickAuthorized(s: Socket, m: Monitor, t: Tick)
    ensures Authorized(OnTick(s, m, t).events)
  {
    hide RunPauseCycle, MeterUJ;
    if t.sample.energyUJ.Some? {
      var stepJ := Joules(MeterUJ(s, m.exec.book.meter, t.sample.At(t.sample.energyUJ.value)));
      CycleAuthorized(s, m.energy, m.exec, stepJ, t.cycle);
      var p := RunPauseCycle(s, m.energy, m.exec, stepJ, t.cycle);
      if !p.exit.Resumed? {
        assert Completed(p) == p.events;
        AuthorizedConcat(p.events, [InForce(m.energy.executionThresholdJ)]);
      }
    }
  }

  /**
   Against any stream of answers, replays of earlier cycles' commands included, the cgroup is
   unfrozen for a pause only right after a RESUME_EXECUTION carrying that pause's id, and the
   threshold then put in force is that very command's.
   */
  lemma {:induction false} ResumeNeedsAuthorization(s: Socket, m: Monitor, ticks: seq<Tick>)
    ensures Authorized(MonitorEnergy(s, m, ticks).events)
    decreases |ticks|
  {
    hide OnTick;
    if ticks != [] {
      TickAuthorized(s, m, ticks[0]);
      var r := OnTick(s, m, ticks[0]);
      if r.status.Monitoring? {
        ResumeNeedsAuthorization(s, r.monitor, ticks[1..]);
        AuthorizedConcat(r.events, MonitorEnergy(s, r.monitor, ticks[1..]).events);
      }
    }
  }

  // ------------------------------------------------------------------------ the threshold in force

  function LastInForce(before: real, events: seq<Event>): real {
    if events == [] then before
    else
      var last := events[|events| - 1];
      if last.InForce? then last.thresholdJ else LastInForce(before, events[..|events| - 1])
  }

  predicate NoneInForce(events: seq<Event>) {
    forall i :: 0 <= i < |events| ==> !events[i].InForce?
  }

  lemma {:induction false} LastInForceConcat(before: real, a: seq<Event>, b: seq<Event>)
    ensures LastInForce(before, a + b) == LastInForce(LastInForce(before, a), b)
  {
    if b == [] {
      assert a + b == a;
    } else {
      assert (a + b)[..|a + b| - 1] == a + b[..|b| - 1];
      LastInForceConcat(before, a, b[..|b| - 1]);
    }
  }

  lemma {:induction false} NoneInForceKeeps(before: real, events: seq<Event>)
    requires NoneInForce(events)
    ensures LastInForce(before, events) == before
  {
    if events != [] {
      NoneInForceKeeps(before, events[..|events| - 1]);
    }
  }

  lemma ObeyGrantsNothing(s: Socket, e: EnergyState, x: Exec, cycle: PauseCycle, p: Poll)
    ensures NoneInForce(Obey(s, e, x, cycle, p).events)
  {
    hide Obey, NeverKill, RefineCycle, OpenSegment;
    ObeyIs(s, e, x, cycle, p);
  }

  lemma {:induction false} PollLoopGrantsNothing(s: Socket, e: EnergyState, x: Exec, cycle: PauseCycle, postedJ: real, polls: seq<Poll>)
    ensures NoneInForce(PollLoop(s, e, x, cycle, postedJ, polls).events)
    decreases |polls|
  {
    if polls != [] {
      ObeyGrantsNothing(s, e, x, cycle, polls[0]);
      hide Obey;
      var p := Obey(s, e, x, cycle, polls[0]);
      if p.exit.Again? {
        PollLoopGrantsNothing(s, e, p.exec, p.cycle, postedJ, polls[1..]);
      }
    }
  }

  lemma CycleGrantsNothing(s: Socket, e: EnergyState, x: Exec, stepJ: real, env: CycleEnv)
    ensures NoneInForce(RunPauseCycle(s, e, x, stepJ, env).events)
  {
    hide PollLoop, EnterFreeze;
    var x1 := x.(ctl := FreezeReply(x.ctl, env.pauseID, env.freezeOk).ctl);
    var (x2, cycle2) := EnterFreeze(s, e, x1, stepJ, NewCycle(e, env.pauseID, e.consumedBeforeJ + stepJ), env.freezeSample);
    PollLoopGrantsNothing(s, e, x2, cycle2, cycle2.energyAtEffectiveFreezeJ, env.polls);
  }

  /** The local threshold and the one to be published both follow what was put in force. */
  predicate FollowsGrants(before: Monitor, events: seq<Event>, after: Monitor) {
    && after.energy == before.energy.(executionThresholdJ := LastInForce(before.energy.executionThresholdJ, events))
    && (after.result.thresholdUpdated <==> before.result.thresholdUpdated || !NoneInForce(events))
    && after.result.thresholdJ == LastInForce(before.result.thresholdJ, events)
  }

  lemma TickFollowsGrants(s: Socket, m: Monitor, t: Tick)
    ensures var r := OnTick(s, m, t); FollowsGrants(m, r.events, r.monitor)
  {
    hide RunPauseCycle, MeterUJ;
    var r := OnTick(s, m, t);
    if t.sample.energyUJ.Some? {
      var stepJ := Joules(MeterUJ(s, m.exec.book.meter, t.sample.At(t.sample.energyUJ.value)));
      CycleGrantsNothing(s, m.energy, m.exec, stepJ, t.cycle);
    }
    if NoneInForce(r.events) {
      NoneInForceKeeps(m.energy.executionThresholdJ, r.events);
      NoneInForceKeeps(m.result.thresholdJ, r.events);
    } else {
      assert r.events[|r.events| - 1].InForce?;
    }
  }

  /**
   At the end of any run, the threshold the step runs under is the last one granted, or the
   dispatched one if none was; the value to publish exists exactly when one was granted and is
   that one; and nothing else of the energy state has moved.
   */
  lemma {:induction false} ThresholdFollowsGrants(s: Socket, m: Monitor, ticks: seq<Tick>)
    ensures var r := MonitorEnergy(s, m, ticks); FollowsGrants(m, r.events, r.monitor)
    decreases |ticks|
  {
    hide OnTick;
    if ticks != [] {
      TickFollowsGrants(s, m, ticks[0]);
      var r := OnTick(s, m, ticks[0]);
      if r.status.Monitoring? {
        ThresholdFollowsGrants(s, r.monitor, ticks[1..]);
        var rest := MonitorEnergy(s, r.monitor, ticks[1..]).events;
        LastInForceConcat(m.energy.executionThresholdJ, r.events, rest);
        LastInForceConcat(m.result.thresholdJ, r.events, rest);
        NoneInForceConcat(r.events, rest);
      }
    }
  }

  lemma NoneInForceConcat(a: seq<Event>, b: seq<Event>)
    ensures NoneInForce(a + b) <==> NoneInForce(a) && NoneInForce(b)
  {
    assert forall i :: 0 <= i < |a| ==> (a + b)[i] == a[i];
    assert forall i :: 0 <= i < |b| ==> (a + b)[|a| + i] == b[i];
  }
}
