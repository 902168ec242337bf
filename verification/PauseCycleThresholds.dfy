/**
 When the monitor acts, and what the scheduler's commands move: it acts exactly when the threshold
 in force is reached, only a resume command moves that threshold, and none is obeyed twice.
 */
module PauseCycleThresholds {
  import opened Attribution
  import opened Numbers
  import opened Options
  import opened Metering
  import opened Controller
  import opened EnergyStates
  import opened PauseCycles
  import opened PauseCycleLaws

  // ------------------------------------------------------------------------------ never early, never missed

  /** The step's cumulative energy at a readable tick, as the monitor sees it. */
  function SeenJ(s: Socket, m: Monitor, t: Tick): real
    requires t.sample.energyUJ.Some?
  {
    m.energy.consumedBeforeJ + Joules(MeterUJ(s, m.exec.book.meter, t.sample.At(t.sample.energyUJ.value)))
  }

  /** A tick is enforced exactly when it is readable and the threshold in force is reached. */
  lemma ActsExactlyAtThreshold(s: Socket, m: Monitor, t: Tick)
    ensures OnTick(s, m, t) != Run(m, [], Monitoring)
       <==> t.sample.energyUJ.Some? && SeenJ(s, m, t) >= m.energy.executionThresholdJ
  {}

  lemma {:induction false} LoopKeepsRecordedThreshold(s: Socket, e: EnergyState, x: Exec, cycle: PauseCycle, postedJ: real, polls: seq<Poll>)
    ensures var c := PollLoop(s, e, x, cycle, postedJ, polls).cycle;
            c.executionThresholdJ == cycle.executionThresholdJ && c.energyAtThresholdJ == cycle.energyAtThresholdJ
    decreases |polls|
  {
    hide Obey;
    if polls != [] {
      ObeyKeepsRecordedThreshold(s, e, x, cycle, polls[0]);
      var q := Obey(s, e, x, cycle, polls[0]);
      LoopKeepsRecordedThreshold(s, e, q.exec, q.cycle, postedJ, polls[1..]);
    }
  }

  lemma ObeyKeepsRecordedThreshold(s: Socket, e: EnergyState, x: Exec, cycle: PauseCycle, p: Poll)
    ensures var c := Obey(s, e, x, cycle, p).cycle;
            c.executionThresholdJ == cycle.executionThresholdJ && c.energyAtThresholdJ == cycle.energyAtThresholdJ
  {
    hide Obey, NeverKill, RefineSegment, OpenSegment;
    ObeyIs(s, e, x, cycle, p);
  }

  predicate AtOrOverThreshold(cycles: seq<PauseCycle>) {
    forall i :: 0 <= i < |cycles| ==> cycles[i].energyAtThresholdJ >= cycles[i].executionThresholdJ
  }

  lemma TickKeepsAtThreshold(s: Socket, m: Monitor, t: Tick)
    requires AtOrOverThreshold(m.result.cycles)
    ensures AtOrOverThreshold(OnTick(s, m, t).monitor.result.cycles)
  {
    hide PollLoop, MeterUJ, CloseSegment, NeverKill;
    if t.sample.energyUJ.Some? {
      var stepJ := Joules(MeterUJ(s, m.exec.book.meter, t.sample.At(t.sample.energyUJ.value)));
      var e, env := m.energy, t.cycle;
      var x1 := m.exec.(ctl := FreezeReply(m.exec.ctl, env.pauseID, env.freezeOk).ctl);
      var (x2, cycle2) := EnterFreeze(s, e, x1, stepJ, NewCycle(e, env.pauseID, e.consumedBeforeJ + stepJ), env.freezeSample);
      LoopKeepsRecordedThreshold(s, e, x2, cycle2, cycle2.energyAtEffectiveFreezeJ, env.polls);
    }
  }

  /** No pause ever begins below the threshold then in force, over whole runs. */
  lemma {:induction false} PausesNeverEarly(s: Socket, m: Monitor, ticks: seq<Tick>)
    requires AtOrOverThreshold(m.result.cycles)
    ensures AtOrOverThreshold(MonitorEnergy(s, m, ticks).monitor.result.cycles)
    decreases |ticks|
  {
    hide OnTick, AtOrOverThreshold;
    if ticks != [] {
      TickKeepsAtThreshold(s, m, ticks[0]);
      var r := OnTick(s, m, ticks[0]);
      if r.status.Monitoring? {
        PausesNeverEarly(s, r.monitor, ticks[1..]);
      }
    }
  }

  // ------------------------------------------------------------------------- only commands move the threshold

  /** The events end with the command granting `thresholdJ` and the unfreeze it authorized. */
  predicate EndsWithGrant(events: seq<Event>, thresholdJ: real) {
    var n := |events|;
    && n >= 2
    && events[n - 1].Kernel?
    && events[n - 1].op.kind == UnfreezeGroup
    && events[n - 1].op.ok
    && events[n - 2].Answered?
    && Authorizes(events[n - 2].answer, events[n - 1].op.pauseID)
    && events[n - 2].answer.newThresholdJ == thresholdJ
  }

  predicate HeldFor(ctl: Ctl, pauseID: string) {
    ctl.state == Unknown || (ctl.state == Frozen && ctl.lastPauseID == pauseID)
  }

  lemma ObeyHolds(s: Socket, e: EnergyState, x: Exec, cycle: PauseCycle, p: Poll)
    requires HeldFor(x.ctl, cycle.pauseID)
    ensures var q := Obey(s, e, x, cycle, p);
            && q.cycle.pauseID == cycle.pauseID
            && (q.exit.Again? ==> HeldFor(q.exec.ctl, cycle.pauseID))
            && (q.exit.Resumed? ==>
                  && Authorizes(p.answer, cycle.pauseID)
                  && q.exit.thresholdJ == p.answer.newThresholdJ
                  && q.events == [Kernel(KernelOp(UnfreezeGroup, cycle.pauseID, true))])
  {
    hide Obey, NeverKill, RefineSegment, OpenSegment;
    ObeyIs(s, e, x, cycle, p);
  }

  lemma {:induction false} LoopResumesWithGrant(s: Socket, e: EnergyState, x: Exec, cycle: PauseCycle, postedJ: real, polls: seq<Poll>)
    requires HeldFor(x.ctl, cycle.pauseID)
    ensures var q := PollLoop(s, e, x, cycle, postedJ, polls);
            q.exit.Resumed? ==> EndsWithGrant(q.events, q.exit.thresholdJ)
    decreases |polls|
  {
    hide Obey;
    if polls != [] {
      ObeyHolds(s, e, x, cycle, polls[0]);
      var q := Obey(s, e, x, cycle, polls[0]);
      if q.exit.Again? {
        LoopResumesWithGrant(s, e, q.exec, q.cycle, postedJ, polls[1..]);
      }
    }
  }

  lemma CycleResumesWithGrant(s: Socket, e: EnergyState, x: Exec, stepJ: real, env: CycleEnv)
    ensures var q := RunPauseCycle(s, e, x, stepJ, env);
            q.exit.Resumed? ==> EndsWithGrant(q.events, q.exit.thresholdJ)
  {
    hide PollLoop, CloseSegment, NeverKill;
    var x1 := x.(ctl := FreezeReply(x.ctl, env.pauseID, env.freezeOk).ctl);
    var (x2, cycle2) := EnterFreeze(s, e, x1, stepJ, NewCycle(e, env.pauseID, e.consumedBeforeJ + stepJ), env.freezeSample);
    if !FreezeReply(x.ctl, env.pauseID, env.freezeOk).failed {
      LoopResumesWithGrant(s, e, x2, cycle2, cycle2.energyAtEffectiveFreezeJ, env.polls);
    }
  }

  /** A threshold put in force was granted by the command just before, or was in force already. */
  predicate MovedByCommandAt(before: real, events: seq<Event>, i: nat)
    requires i < |events|
  {
    events[i].InForce? ==>
      EndsWithGrant(events[..i], events[i].thresholdJ) || events[i].thresholdJ == LastInForce(before, events[..i])
  }

  predicate MovedByCommand(before: real, events: seq<Event>) {
    forall i :: 0 <= i < |events| ==> MovedByCommandAt(before, events, i)
  }

  lemma MovedByCommandConcat(before: real, a: seq<Event>, b: seq<Event>)
    requires MovedByCommand(before, a) && MovedByCommand(LastInForce(before, a), b)
    ensures MovedByCommand(before, a + b)
  {
    hide EndsWithGrant, LastInForce;
    forall i | 0 <= i < |a + b|
      ensures MovedByCommandAt(before, a + b, i)
    {
      if i < |a| {
        assert MovedByCommandAt(before, a, i);
        assert (a + b)[..i] == a[..i];
      } else {
        var j := i - |a|;
        assert MovedByCommandAt(LastInForce(before, a), b, j);
        assert (a + b)[..i] == a + b[..j];
        LastInForceConcat(before, a, b[..j]);
        if (a + b)[i].InForce? {
          GrantAfterPrefix(a, b[..j], (a + b)[i]);
        }
      }
    }
  }

  lemma GrantAfterPrefix(a: seq<Event>, b: seq<Event>, granted: Event)
    requires granted.InForce?
    ensures EndsWithGrant(b, granted.thresholdJ) ==> EndsWithGrant(a + b, granted.thresholdJ)
  {}

  lemma QuietMovesNothing(before: real, events: seq<Event>)
    requires NoneInForce(events)
    ensures MovedByCommand(before, events)
  {}

  lemma TickMovedByCommand(s: Socket, m: Monitor, t: Tick)
    ensures MovedByCommand(m.energy.executionThresholdJ, OnTick(s, m, t).events)
  {
    hide RunPauseCycle, MeterUJ, NeverKill;
    var before, events := m.energy.executionThresholdJ, OnTick(s, m, t).events;
    if t.sample.energyUJ.Some? {
      var stepJ := Joules(MeterUJ(s, m.exec.book.meter, t.sample.At(t.sample.energyUJ.value)));
      CycleResumesWithGrant(s, m.energy, m.exec, stepJ, t.cycle);
      CycleGrantsNothing(s, m.energy, m.exec, stepJ, t.cycle);
      var p := RunPauseCycle(s, m.energy, m.exec, stepJ, t.cycle);
      NoneInForceKeeps(before, p.events);
      forall i | 0 <= i < |events|
        ensures MovedByCommandAt(before, events, i)
      {
        if events[i].InForce? {
          assert events[..i] == p.events;
        }
      }
    }
  }

  /**
   Over any run, every threshold put in force either comes from the resume command that the
   unfreeze just before it obeyed, or restates the one already in force (an unkillable step whose
   freeze failed goes on under its old threshold).
   */
  lemma {:induction false} OnlyCommandsMoveTheThreshold(s: Socket, m: Monitor, ticks: seq<Tick>)
    ensures MovedByCommand(m.energy.executionThresholdJ, MonitorEnergy(s, m, ticks).events)
    decreases |ticks|
  {
    hide OnTick, MovedByCommand, FollowsGrants;
    if ticks == [] {
      QuietMovesNothing(m.energy.executionThresholdJ, []);
    } else {
      TickMovedByCommand(s, m, ticks[0]);
      TickThreshold(s, m, ticks[0]);
      var r := OnTick(s, m, ticks[0]);
      if r.status.Monitoring? {
        OnlyCommandsMoveTheThreshold(s, r.monitor, ticks[1..]);
        MovedByCommandConcat(m.energy.executionThresholdJ, r.events, MonitorEnergy(s, r.monitor, ticks[1..]).events);
      }
    }
  }

  lemma TickThreshold(s: Socket, m: Monitor, t: Tick)
    ensures OnTick(s, m, t).monitor.energy.executionThresholdJ == LastInForce(m.energy.executionThresholdJ, OnTick(s, m, t).events)
  {
    hide OnTick;
    TickFollowsGrants(s, m, t);
  }

  // --------------------------------------------------------------------------- no command obeyed twice

  /** The pauses that were unfrozen for, in order, each time the kernel was asked. */
  function UnfrozenFor(events: seq<Event>): seq<string> {
    if events == [] then []
    else
      (if events[0].Kernel? && events[0].op.kind == UnfreezeGroup then [events[0].op.pauseID] else []) + UnfrozenFor(events[1..])
  }

  lemma {:induction false} UnfrozenForConcat(a: seq<Event>, b: seq<Event>)
    ensures UnfrozenFor(a + b) == UnfrozenFor(a) + UnfrozenFor(b)
  {
    if a == [] {
      assert a + b == b;
    } else {
      assert (a + b)[1..] == a[1..] + b;
      UnfrozenForConcat(a[1..], b);
    }
  }

  lemma {:induction false} NoUnfreezeNone(events: seq<Event>)
    requires NoUnfreeze(events)
    ensures UnfrozenFor(events) == []
  {
    if events != [] {
      NoUnfreezeNone(events[1..]);
    }
  }

  /** At most one unfreeze for this pause. */
  predicate AtMostOnce(ids: seq<string>, pauseID: string) {
    ids == [] || ids == [pauseID]
  }

  /** An answer gets at most one unfreeze, after which the pause is over or its controller unknown. */
  lemma ObeyUnfreezesOnce(s: Socket, e: EnergyState, x: Exec, cycle: PauseCycle, p: Poll)
    requires HeldFor(x.ctl, cycle.pauseID)
    ensures var q := Obey(s, e, x, cycle, p);
            && AtMostOnce(UnfrozenFor(q.events), cycle.pauseID)
            && (x.ctl.state == Unknown ==> UnfrozenFor(q.events) == [])
            && (q.exit.Again? && UnfrozenFor(q.events) != [] ==> q.exec.ctl.state == Unknown)
            && (q.exit.Again? && x.ctl.state == Unknown ==> q.exec.ctl.state == Unknown)
  {
    ObeyIs(s, e, x, cycle, p);
    ObeyUnfreezesOnResumeOnly(s, e, x, cycle, p);
    var q := Obey(s, e, x, cycle, p);
    if NoUnfreeze(q.events) {
      NoUnfreezeNone(q.events);
    } else {
      NoUnfreezeNone(q.events[1..]);
    }
    KillFrozenIssuesNoUnfreeze(s, e, x, cycle, p, CauseOf(p.answer, cycle.pauseID));
    if x.ctl.state == Unknown {
      UnknownUnfreezesNothing(s, e, x, cycle, p);
    }
    hide Obey, KillFrozen, NeverKill, RefineSegment, OpenSegment;
  }

  lemma UnknownUnfreezesNothing(s: Socket, e: EnergyState, x: Exec, cycle: PauseCycle, p: Poll)
    requires x.ctl.state == Unknown
    ensures NoUnfreeze(Obey(s, e, x, cycle, p).events)
  {
    hide Obey, NeverKill, RefineSegment, OpenSegment;
    ObeyIs(s, e, x, cycle, p);
  }

  lemma {:induction false} LoopUnfreezesOnce(s: Socket, e: EnergyState, x: Exec, cycle: PauseCycle, postedJ: real, polls: seq<Poll>)
    requires HeldFor(x.ctl, cycle.pauseID)
    ensures var ids := UnfrozenFor(PollLoop(s, e, x, cycle, postedJ, polls).events);
            AtMostOnce(ids, cycle.pauseID) && (x.ctl.state == Unknown ==> ids == [])
    decreases |polls|
  {
    hide Obey, HeldFor;
    if polls != [] {
      ObeyUnfreezesOnce(s, e, x, cycle, polls[0]);
      ObeyHolds(s, e, x, cycle, polls[0]);
      var q := Obey(s, e, x, cycle, polls[0]);
      var asked := [Paused(cycle.pauseID, postedJ), Answered(polls[0].answer)];
      NoUnfreezeNone(asked);
      UnfrozenForConcat(asked, q.events);
      if q.exit.Again? {
        LoopUnfreezesOnce(s, e, q.exec, q.cycle, postedJ, polls[1..]);
        UnfrozenForConcat(asked + q.events, PollLoop(s, e, q.exec, q.cycle, postedJ, polls[1..]).events);
      }
    }
  }

  lemma CycleUnfreezesOnce(s: Socket, e: EnergyState, x: Exec, stepJ: real, env: CycleEnv)
    ensures AtMostOnce(UnfrozenFor(RunPauseCycle(s, e, x, stepJ, env).events), env.pauseID)
  {
    hide PollLoop, CloseSegment, NeverKill;
    var reply := FreezeReply(x.ctl, env.pauseID, env.freezeOk);
    var issued := Issued(x.ctl, reply.ctl);
    NoUnfreezeNone(issued);
    if reply.failed {
      NoUnfreezeNone(RunPauseCycle(s, e, x, stepJ, env).events);
    } else {
      var (x2, cycle2) := EnterFreeze(s, e, x.(ctl := reply.ctl), stepJ, NewCycle(e, env.pauseID, e.consumedBeforeJ + stepJ), env.freezeSample);
      LoopUnfreezesOnce(s, e, x2, cycle2, cycle2.energyAtEffectiveFreezeJ, env.polls);
      UnfrozenForConcat(issued, PollLoop(s, e, x2, cycle2, cycle2.energyAtEffectiveFreezeJ, env.polls).events);
    }
  }

  lemma ConcludeUnfreezesNothing(m: Monitor, stepJ: real, p: Progress)
    ensures UnfrozenFor(Conclude(m, stepJ, p).events) == UnfrozenFor(p.events)
  {
    var thresholdJ := if p.exit.Resumed? then p.exit.thresholdJ else m.energy.executionThresholdJ;
    NoUnfreezeNone([InForce(thresholdJ)]);
    UnfrozenForConcat(p.events, [InForce(thresholdJ)]);
    assert UnfrozenFor(p.events) + [] == UnfrozenFor(p.events);
    hide UnfrozenFor;
  }

  lemma LocalKillUnfreezesNothing(m: Monitor, stepJ: real, killOk: bool)
    ensures UnfrozenFor(KillLocally(m, stepJ, killOk).events) == []
  {
    NoUnfreezeNone(KillLocally(m, stepJ, killOk).events);
  }

  lemma TickUnfreezesOnce(s: Socket, m: Monitor, t: Tick)
    ensures AtMostOnce(UnfrozenFor(OnTick(s, m, t).events), t.cycle.pauseID)
  {
    hide RunPauseCycle, MeterUJ, NeverKill, Conclude, KillLocally, UnfrozenFor;
    NoUnfreezeNone([]);
    if t.sample.energyUJ.Some? {
      var stepJ := Joules(MeterUJ(s, m.exec.book.meter, t.sample.At(t.sample.energyUJ.value)));
      CycleUnfreezesOnce(s, m.energy, m.exec, stepJ, t.cycle);
      ConcludeUnfreezesNothing(m, stepJ, RunPauseCycle(s, m.energy, m.exec, stepJ, t.cycle));
      LocalKillUnfreezesNothing(m, stepJ, t.killOk);
    }
  }

  predicate Fresh(ticks: seq<Tick>) {
    forall i, j :: 0 <= i < j < |ticks| ==> ticks[i].cycle.pauseID != ticks[j].cycle.pauseID
  }

  predicate NoneTwice(ids: seq<string>) {
    forall i, j :: 0 <= i < j < |ids| ==> ids[i] != ids[j]
  }

  predicate IDsOf(ids: seq<string>, ticks: seq<Tick>) {
    forall i :: 0 <= i < |ids| ==> exists j :: 0 <= j < |ticks| && ids[i] == ticks[j].cycle.pauseID
  }

  /**
   With fresh pause ids, no resume command is obeyed twice over a run, however often it is replayed
   and whatever the kernel makes of it: the kernel is asked at most once to unfreeze for each pause.
   */
  lemma {:induction false} NoCommandObeyedTwice(s: Socket, m: Monitor, ticks: seq<Tick>)
    requires Fresh(ticks)
    ensures NoneTwice(UnfrozenFor(MonitorEnergy(s, m, ticks).events))
    ensures IDsOf(UnfrozenFor(MonitorEnergy(s, m, ticks).events), ticks)
    decreases |ticks|
  {
    hide OnTick;
    if ticks != [] {
      var t, rest := ticks[0], ticks[1..];
      TickUnfreezesOnce(s, m, t);
      var r := OnTick(s, m, t);
      if r.status.Monitoring? {
        NoCommandObeyedTwice(s, r.monitor, rest);
        var later := MonitorEnergy(s, r.monitor, rest).events;
        UnfrozenForConcat(r.events, later);
        OneMoreTick(UnfrozenFor(r.events), t, UnfrozenFor(later), rest);
        assert [t] + rest == ticks;
      } else {
        OneMoreTick(UnfrozenFor(r.events), t, [], rest);
        assert UnfrozenFor(r.events) + [] == UnfrozenFor(r.events);
        assert [t] + rest == ticks;
      }
    }
  }

  lemma OneMoreTick(now: seq<string>, t: Tick, later: seq<string>, rest: seq<Tick>)
    requires AtMostOnce(now, t.cycle.pauseID) && NoneTwice(later) && IDsOf(later, rest) && Fresh([t] + rest)
    ensures NoneTwice(now + later) && IDsOf(now + later, [t] + rest)
  {
    var ids, ticks := now + later, [t] + rest;
    forall i | 0 <= i < |later|
      ensures later[i] != t.cycle.pauseID && exists j :: 0 <= j < |ticks| && later[i] == ticks[j].cycle.pauseID
    {
      var j :| 0 <= j < |rest| && later[i] == rest[j].cycle.pauseID;
      assert ticks[j + 1] == rest[j] && ticks[0] == t;
    }
    forall i | 0 <= i < |ids|
      ensures exists j :: 0 <= j < |ticks| && ids[i] == ticks[j].cycle.pauseID
    {
      if i < |now| {
        assert ids[i] == ticks[0].cycle.pauseID;
      } else {
        assert ids[i] == later[i - |now|];
      }
    }
  }

  // ------------------------------------------------------------------------------- leaving a freeze

  /**
   However a measured freeze is left, the CPU time the kernel reported late is counted in the
   segment the freeze closed: a kill settles with it, and a resume restarts from it, at the energy
   of the resume if that reading is usable and of the freeze otherwise.
   */
  lemma LateTicksAreCounted(s: Socket, e: EnergyState, x: Exec, cycle: PauseCycle, p: Poll)
    requires x.book.meter.frozen
    ensures var q := Obey(s, e, x, cycle, p);
            var m := x.book.meter;
            && (q.exit.Killed? ==>
                  var seen := if Authorizes(p.answer, cycle.pauseID) then Max(m.frozenAt.ticks, p.ticksBeforeUnfreeze) else m.frozenAt.ticks;
                  && q.exec.book.meter.frozen
                  && q.exec.book.meter.frozenAt == m.frozenAt.(ticks := Max(seen, p.ticksBeforeKill))
                  && q.cycle.cpuUsecWhileFrozen == Some(Max(seen, p.ticksBeforeKill) - seen))
            && (q.exit.Resumed? ==>
                  var ticks := Max(m.frozenAt.ticks, p.ticksBeforeUnfreeze);
                  var usable := p.resumeSample.energyUJ.Some? && p.resumeSample.ticks >= ticks;
                  && q.exec.book.meter.segment.ticks == ticks
                  && q.exec.book.meter.segment.wallNs == (if p.resumeSample.wallNs == 0 then p.nowNs else p.resumeSample.wallNs)
                  && q.cycle.cpuUsecWhileFrozen == Some(ticks - m.frozenAt.ticks)
                  && q.exec.book.meter.segment.energyUJ == if usable then p.resumeSample.energyUJ.value else m.frozenAt.energyUJ)
  {
    hide Obey, NeverKill, AttributionDetail;
    ObeyIs(s, e, x, cycle, p);
  }
}
