/**
 The monitor in the source's own form (openwhisk/energyMonitor.go, openwhisk/energySegments.go):
 an executor that updates its controller, the meter, the marks and the result in place. Each
 method is proved to reach what `PauseCycles` specifies; `events` is the history of the call.
 */
module Monitors {
  import opened Attribution
  import opened Options
  import opened Metering
  import opened Controller
  import opened EnergyStates
  import opened PauseCycles

  class EnergyMonitorResult {
    var killed: bool
    var consumedJ: real
    var pauseID: string
    var thresholdJ: real
    var thresholdUpdated: bool
    var killCause: string
    var cycles: seq<PauseCycle>

    function Value(): Result
      reads this
    {
      Result(killed, consumedJ, pauseID, thresholdJ, thresholdUpdated, killCause, cycles)
    }

    constructor ()
      ensures Value() == NO_RESULT
    {
      killed, consumedJ, pauseID := false, 0.0, "";
      thresholdJ, thresholdUpdated := 0.0, false;
      killCause, cycles := "", [];
    }

    method SetKilled(consumedJ: real, pauseID: string)
      modifies this
      ensures Value() == old(Value()).(killed := true, consumedJ := consumedJ, pauseID := pauseID)
    {
      this.killed, this.consumedJ, this.pauseID := true, consumedJ, pauseID;
    }

    method SetThreshold(thresholdJ: real)
      modifies this
      ensures Value() == old(Value()).(thresholdJ := thresholdJ, thresholdUpdated := true)
    {
      this.thresholdJ, this.thresholdUpdated := thresholdJ, true;
    }

    method AddCycle(cycle: PauseCycle)
      modifies this
      ensures Value() == old(Value()).(cycles := old(cycles) + [cycle])
    {
      cycles := cycles + [cycle];
    }

    method NoteKill(cause: string)
      modifies this
      ensures Value() == old(Value()).(killCause := cause)
    {
      killCause := cause;
    }
  }

  class Executor {
    const controller: ActivationController
    const marks: FreezeMarks

    constructor ()
      ensures fresh(controller) && fresh(marks)
      ensures controller.Value() == STARTED && marks.marks == []
    {
      controller := new ActivationController();
      marks := new FreezeMarks();
    }

    ghost function Value(meter: StepMeter): Exec
      reads controller, marks, meter
    {
      Exec(controller.Value(), Book(meter.Value(), marks.marks))
    }

    method CloseSegmentAtFreeze(s: Socket, meter: StepMeter, sample: Sample) returns (closed: bool)
      modifies meter, marks
      ensures Value(meter).book == CloseSegment(s, old(Value(meter)).book, sample)
      ensures closed == FreezeUsable(old(Value(meter)).book, sample)
    {
      if sample.energyUJ.None? || sample.ticks < meter.segment.ticks {
        return false;
      }
      meter.Close(s, sample.At(sample.energyUJ.value));
      marks.Freeze(sample.At(sample.energyUJ.value));
      return true;
    }

    method RefineFrozenSegment(s: Socket, meter: StepMeter, ticks: int) returns (late: int, ok: bool)
      modifies meter, marks
      ensures Value(meter).book == RefineSegment(s, old(Value(meter)).book, ticks)
      ensures ok == old(meter.frozen)
      ensures late == LateTicks(old(meter.Value()), ticks)
    {
      if !meter.frozen {
        return 0, false;
      }
      late := meter.RefineFrozenCPU(s, ticks);
      marks.RefineFreezeCPU(ticks);
      ok := true;
    }

    method RefineCycleWhileFrozen(s: Socket, meter: StepMeter, cycle: PauseCycle, energy: EnergyState, ticks: int)
      returns (cycle': PauseCycle)
      modifies meter, marks
      ensures (Value(meter), cycle') == RefineCycle(s, energy, old(Value(meter)), cycle, ticks)
    {
      var late, ok := RefineFrozenSegment(s, meter, ticks);
      if !ok {
        return cycle;
      }
      cycle' := cycle.(cpuUsecWhileFrozen := Some(late),
                       energyAtEffectiveFreezeJ := energy.consumedBeforeJ + Joules(meter.closedUJ));
    }

    method OpenSegmentAtResume(meter: StepMeter, sample: Sample, nowNs: int) returns (ok: bool)
      modifies meter, marks
      ensures Value(meter).book == OpenSegment(old(Value(meter)).book, sample, nowNs)
      ensures ok == (old(meter.frozen) && ResumeUsable(old(Value(meter)).book, sample))
    {
      if !meter.frozen {
        return false;
      }
      ok := sample.energyUJ.Some? && sample.ticks >= meter.frozenAt.ticks;
      var energyUJ := if ok then sample.energyUJ.value else meter.frozenAt.energyUJ;
      var start := Reading(energyUJ, meter.frozenAt.ticks, sample.wallNs);
      if start.wallNs == 0 {
        start := start.(wallNs := nowNs);
      }
      meter.Open(start);
      marks.Resume(start);
    }

    /** A call of the controller's kill, with what it leaves in the history. */
    method Kill(pauseID: string, kernelOk: bool) returns (ghost events: seq<Event>)
      modifies controller
      ensures controller.Value() == KillReply(old(controller.Value()), pauseID, kernelOk).ctl
      ensures events == [KillCalled(pauseID)] + Issued(old(controller.Value()), controller.Value())
    {
      var failed := controller.KillExecution(pauseID, kernelOk);
      events := [KillCalled(pauseID)] + Issued(old(controller.Value()), controller.Value());
    }

    method KillWhileFrozen(s: Socket, energy: EnergyState, meter: StepMeter, cycle: PauseCycle, p: Poll, cause: string,
                           result: EnergyMonitorResult)
      returns (cycle': PauseCycle, ghost events: seq<Event>)
      modifies controller, marks, meter, result
      ensures Progress(Value(meter), cycle', events, Killed(cause)) == KillFrozen(s, energy, old(Value(meter)), cycle, p, cause)
      ensures result.Value() == old(result.Value()).(killCause := cause)
    {
      cycle' := RefineCycleWhileFrozen(s, meter, cycle, energy, p.ticksBeforeKill);
      events := Kill(cycle.pauseID, p.killOk);
      result.NoteKill(cause);
    }

    /** Returns false when the step was killed, true when the caller must ask again. */
    method KillOrRetryPoll(s: Socket, energy: EnergyState, meter: StepMeter, cycle: PauseCycle, p: Poll, cause: string,
                           result: EnergyMonitorResult)
      returns (retry: bool, cycle': PauseCycle, ghost events: seq<Event>)
      modifies controller, marks, meter, result
      ensures Progress(Value(meter), cycle', events, if retry then Again else Killed(cause))
           == KillOrRetry(s, energy, old(Value(meter)), cycle, p, cause)
      ensures result.Value() == if retry then old(result.Value()) else old(result.Value()).(killCause := cause)
    {
      if NeverKill(energy) {
        return true, cycle, [];
      }
      cycle', events := KillWhileFrozen(s, energy, meter, cycle, p, cause, result);
      retry := false;
    }

    /** Obeys one answer; `exit` says how the loop goes on. */
    method ObeyAnswer(s: Socket, energy: EnergyState, meter: StepMeter, cycle: PauseCycle, p: Poll, result: EnergyMonitorResult)
      returns (exit: Exit, cycle': PauseCycle, ghost events: seq<Event>)
      modifies controller, marks, meter, result
      ensures Progress(Value(meter), cycle', events, exit) == Obey(s, energy, old(Value(meter)), cycle, p)
      ensures !exit.Unfrozen?
      ensures result.Value() == if exit.Killed? then old(result.Value()).(killCause := exit.cause) else old(result.Value())
    {
      var retry;
      if p.answer.ChannelFailed? {
        retry, cycle', events := KillOrRetryPoll(s, energy, meter, cycle, p, "PAUSE_CHANNEL_FAILED", result);
        return if retry then Again else Killed("PAUSE_CHANNEL_FAILED"), cycle', events;
      }
      if p.answer.pauseID != cycle.pauseID {
        retry, cycle', events := KillOrRetryPoll(s, energy, meter, cycle, p, "PAUSE_ID_MISMATCH", result);
        return if retry then Again else Killed("PAUSE_ID_MISMATCH"), cycle', events;
      }
      match p.answer.command {
        case "RESUME_EXECUTION" =>
          exit, cycle', events := ObeyResumeCommand(s, energy, meter, cycle, p, result);
        case "WAIT_EXECUTION" =>
          if !NeverKill(energy) {
            retry, cycle', events := KillOrRetryPoll(s, energy, meter, cycle, p, "UNEXPECTED_WAIT_COMMAND", result);
            exit := if retry then Again else Killed("UNEXPECTED_WAIT_COMMAND");
          } else {
            exit, cycle', events := Again, cycle.(outcome := "queued_wait"), [];
          }
        case "KILL_EXECUTION" =>
          if NeverKill(energy) {
            exit, cycle', events := Again, cycle, [];
          } else {
            var cause := "SCHEDULER_COMMAND:" + p.answer.reason;
            cycle', events := KillWhileFrozen(s, energy, meter, cycle, p, cause, result);
            exit := Killed(cause);
          }
        case _ =>
          retry, cycle', events := KillOrRetryPoll(s, energy, meter, cycle, p, "UNKNOWN_SCHEDULER_COMMAND", result);
          exit := if retry then Again else Killed("UNKNOWN_SCHEDULER_COMMAND");
      }
    }

    method ObeyResumeCommand(s: Socket, energy: EnergyState, meter: StepMeter, cycle: PauseCycle, p: Poll, result: EnergyMonitorResult)
      returns (exit: Exit, cycle': PauseCycle, ghost events: seq<Event>)
      requires p.answer.Command?
      modifies controller, marks, meter, result
      ensures Progress(Value(meter), cycle', events, exit) == ObeyResume(s, energy, old(Value(meter)), cycle, p)
      ensures !exit.Unfrozen?
      ensures result.Value() == if exit.Killed? then old(result.Value()).(killCause := exit.cause) else old(result.Value())
    {
      cycle' := RefineCycleWhileFrozen(s, meter, cycle, energy, p.ticksBeforeUnfreeze);
      var failed := controller.ResumeExecution(cycle.pauseID, p.unfreezeOk);
      ghost var issued := Issued(old(controller.Value()), controller.Value());
      if failed {
        var retry;
        retry, cycle', events := KillOrRetryPoll(s, energy, meter, cycle', p, "RESUME_FAILED", result);
        return if retry then Again else Killed("RESUME_FAILED"), cycle', issued + events;
      }
      var _ := OpenSegmentAtResume(meter, p.resumeSample, p.nowNs);
      cycle' := cycle'.(energyAtResumeEffectiveJ := cycle'.energyAtEffectiveFreezeJ, outcome := "resumed");
      return Resumed(p.answer.newThresholdJ), cycle', issued;
    }

    /** Reports the freeze and obeys, until an answer ends the cycle or no more answers come. */
    method ReportAndObey(s: Socket, energy: EnergyState, meter: StepMeter, record: PauseCycle, postedJ: real, polls: seq<Poll>,
                         result: EnergyMonitorResult)
      returns (exit: Exit, cycle: PauseCycle, ghost events: seq<Event>)
      modifies controller, marks, meter, result
      ensures Progress(Value(meter), cycle, events, exit) == PollLoop(s, energy, old(Value(meter)), record, postedJ, polls)
      ensures !exit.Unfrozen?
      ensures result.Value() == if exit.Killed? then old(result.Value()).(killCause := exit.cause) else old(result.Value())
    {
      hide Obey;
      ghost var whole := PollLoop(s, energy, Value(meter), record, postedJ, polls);
      exit, cycle, events := Again, record, [];
      var i := 0;
      while i < |polls|
        invariant 0 <= i <= |polls|
        invariant exit == Again
        invariant whole == PollLoop(s, energy, Value(meter), cycle, postedJ, polls[i..]).After(events)
        invariant result.Value() == old(result.Value())
      {
        var p := polls[i];
        assert polls[i..][0] == p && polls[i..][1..] == polls[i + 1..];
        ghost var more;
        ghost var asked := [Paused(cycle.pauseID, postedJ), Answered(p.answer)];
        exit, cycle, more := ObeyAnswer(s, energy, meter, cycle, p, result);
        AfterTwice(PollLoop(s, energy, Value(meter), cycle, postedJ, polls[i + 1..]), events, asked + more);
        events := events + (asked + more);
        if exit != Again {
          return;
        }
        i := i + 1;
      }
    }

    /** Closes the segment at the freeze and notes its energy; the estimate stands if it cannot. */
    method EnterFreeze(s: Socket, energy: EnergyState, stepJ: real, meter: StepMeter, record: PauseCycle, sample: Sample)
      returns (record': PauseCycle)
      modifies marks, meter
      ensures (Value(meter), record') == PauseCycles.EnterFreeze(s, energy, old(Value(meter)), stepJ, record, sample)
    {
      var frozenStepJ := stepJ;
      var closed := CloseSegmentAtFreeze(s, meter, sample);
      if closed {
        frozenStepJ := Joules(meter.closedUJ);
      }
      record' := record.(energyAtEffectiveFreezeJ := energy.consumedBeforeJ + frozenStepJ);
    }

    /** One freeze, report, wait, resume-or-kill cycle; `returned` is false while it still waits. */
    method RunPauseCycle(s: Socket, energy: EnergyState, stepJ: real, result: EnergyMonitorResult, meter: StepMeter, env: CycleEnv)
      returns (newThresholdJ: real, killed: bool, returned: bool, ghost cycle: PauseCycle, ghost events: seq<Event>)
      modifies controller, marks, meter, result
      ensures var q := PauseCycles.RunPauseCycle(s, energy, old(Value(meter)), stepJ, env);
              && Value(meter) == q.exec && cycle == q.cycle && events == q.events
              && returned == !q.exit.Again?
              && killed == q.exit.Killed?
              && (q.exit.Resumed? ==> newThresholdJ == q.exit.thresholdJ)
              && (q.exit.Unfrozen? ==> newThresholdJ == energy.executionThresholdJ)
              && result.Value() == match q.exit
                   case Again => old(result.Value())
                   case Killed(cause) => old(result.Value()).(cycles := old(result.cycles) + [q.cycle], killCause := cause)
                   case _ => old(result.Value()).(cycles := old(result.cycles) + [q.cycle])
    {
      hide PollLoop, PauseCycles.EnterFreeze, NeverKill, FreezeReply, KillReply, Issued;
      var record := NewCycle(energy, env.pauseID, energy.consumedBeforeJ + stepJ);
      var failed := controller.FreezeExecution(env.pauseID, env.freezeOk);
      events := Issued(old(controller.Value()), controller.Value());
      if failed {
        if NeverKill(energy) {
          result.AddCycle(record);
          return energy.executionThresholdJ, false, true, record, events;
        }
        ghost var killEvents := Kill(env.pauseID, env.killOk);
        result.NoteKill("FREEZE_FAILED");
        result.AddCycle(record);
        return 0.0, true, true, record, events + killEvents;
      }
      record := EnterFreeze(s, energy, stepJ, meter, record, env.freezeSample);
      var exit;
      ghost var more;
      exit, record, more := ReportAndObey(s, energy, meter, record, record.energyAtEffectiveFreezeJ, env.polls, result);
      events := events + more;
      if exit == Again {
        return 0.0, false, false, record, events;
      }
      result.AddCycle(record);
      match exit {
        case Resumed(thresholdJ) =>
          return thresholdJ, false, true, record, events;
        case _ =>
          return 0.0, true, true, record, events;
      }
    }

    /**
     The monitor of one invocation. `start` is its first reading and `ticks` are those that came
     before it was told to stop; the caller's energy state is only copied.
     */
    method MonitorEnergy(s: Socket, initialEnergy: EnergyState, start: Sample, ticks: seq<Tick>, result: EnergyMonitorResult)
      returns (status: Status, ghost finalThresholdJ: real, ghost book: Book, ghost events: seq<Event>)
      requires marks.marks == [] && result.Value() == NO_RESULT
      modifies controller, marks, result
      ensures start.energyUJ.None? ==>
                status.Monitoring? && events == [] && controller.Value() == old(controller.Value())
                && marks.marks == [] && result.Value() == NO_RESULT
      ensures start.energyUJ.Some? ==>
                var m := Started(old(controller.Value()), start.At(start.energyUJ.value), initialEnergy);
                var r := PauseCycles.MonitorEnergy(s, m, ticks);
                && Run(Monitor(Exec(controller.Value(), book), initialEnergy.(executionThresholdJ := finalThresholdJ), result.Value()),
                       events, status) == r
                && book.marks == marks.marks
    {
      events, finalThresholdJ := [], initialEnergy.executionThresholdJ;
      book := Book(NewMeter(ZERO), []);
      if start.energyUJ.None? {
        return Monitoring, finalThresholdJ, book, [];
      }
      var meter := new StepMeter(start.At(start.energyUJ.value));
      var energy := initialEnergy;
      ghost var whole := PauseCycles.MonitorEnergy(s, Monitor(Value(meter), energy, result.Value()), ticks);
      var i := 0;
      while i < |ticks|
        invariant 0 <= i <= |ticks|
        invariant energy == initialEnergy.(executionThresholdJ := energy.executionThresholdJ)
        invariant whole == PauseCycles.MonitorEnergy(s, Monitor(Value(meter), energy, result.Value()), ticks[i..]).After(events)
      {
        assert ticks[i..][0] == ticks[i] && ticks[i..][1..] == ticks[i + 1..];
        ghost var before := events;
        ghost var more;
        status, energy, more := HandleTick(s, energy, meter, ticks[i], result);
        RunAfterTwice(PauseCycles.MonitorEnergy(s, Monitor(Value(meter), energy, result.Value()), ticks[i + 1..]), events, more);
        events := events + more;
        if !status.Monitoring? {
          return status, energy.executionThresholdJ, Value(meter).book, events;
        }
        i := i + 1;
      }
      return Monitoring, energy.executionThresholdJ, Value(meter).book, events;
    }

    /** The body of the ticker's case. */
    method HandleTick(s: Socket, energy: EnergyState, meter: StepMeter, t: Tick, result: EnergyMonitorResult)
      returns (status: Status, energy': EnergyState, ghost events: seq<Event>)
      modifies controller, marks, meter, result
      ensures Run(Monitor(Value(meter), energy', result.Value()), events, status)
           == OnTick(s, Monitor(old(Value(meter)), energy, old(result.Value())), t)
      ensures energy' == energy.(executionThresholdJ := energy'.executionThresholdJ)
    {
      hide PauseCycles.RunPauseCycle;
      if t.sample.energyUJ.None? {
        return Monitoring, energy, [];
      }
      var stepUJ := meter.StepUJ(s, t.sample.At(t.sample.energyUJ.value));
      var stepJ := Joules(stepUJ);
      if energy.consumedBeforeJ + stepJ < energy.executionThresholdJ {
        return Monitoring, energy, [];
      }
      if !energy.pauseEnabled {
        if NeverKill(energy) {
          return LocalKillRefused, energy, [];
        }
        events := Kill("", t.killOk);
        result.NoteKill("THRESHOLD_NO_PAUSE");
        result.SetKilled(stepJ, "");
        return StepKilled, energy, events;
      }
      var newThresholdJ, killed, returned;
      ghost var cycle;
      newThresholdJ, killed, returned, cycle, events := RunPauseCycle(s, energy, stepJ, result, meter, t.cycle);
      if !returned {
        return Waiting, energy, events;
      }
      if killed {
        var killedStepJ := stepJ;
        if meter.frozen {
          killedStepJ := Joules(meter.closedUJ);
        }
        CycleCarriesItsID(s, energy, old(Value(meter)), stepJ, t.cycle);
        result.SetKilled(killedStepJ, t.cycle.pauseID);
        return StepKilled, energy, events;
      }
      result.SetThreshold(newThresholdJ);
      return Monitoring, energy.(executionThresholdJ := newThresholdJ), events + [InForce(newThresholdJ)];
    }
  }

  lemma RunAfterTwice(r: Run, first: seq<Event>, second: seq<Event>)
    ensures r.After(second).After(first) == r.After(first + second)
  {
    assert first + (second + r.events) == (first + second) + r.events;
  }

  lemma {:induction false} LoopCarriesItsID(s: Socket, e: EnergyState, x: Exec, cycle: PauseCycle, postedJ: real, polls: seq<Poll>)
    ensures PollLoop(s, e, x, cycle, postedJ, polls).cycle.pauseID == cycle.pauseID
    decreases |polls|
  {
    hide Obey;
    if polls != [] {
      assert Obey(s, e, x, cycle, polls[0]).cycle.pauseID == cycle.pauseID by {
        hide NeverKill, RefineSegment, OpenSegment;
        ObeyIs(s, e, x, cycle, polls[0]);
      }
      var q := Obey(s, e, x, cycle, polls[0]);
      LoopCarriesItsID(s, e, q.exec, q.cycle, postedJ, polls[1..]);
    }
  }

  lemma CycleCarriesItsID(s: Socket, e: EnergyState, x: Exec, stepJ: real, env: CycleEnv)
    ensures PauseCycles.RunPauseCycle(s, e, x, stepJ, env).cycle.pauseID == env.pauseID
  {
    hide PollLoop, CloseSegment;
    var x1 := x.(ctl := FreezeReply(x.ctl, env.pauseID, env.freezeOk).ctl);
    var (x2, cycle2) := EnterFreeze(s, e, x1, stepJ, NewCycle(e, env.pauseID, e.consumedBeforeJ + stepJ), env.freezeSample);
    LoopCarriesItsID(s, e, x2, cycle2, cycle2.energyAtEffectiveFreezeJ, env.polls);
  }
}
