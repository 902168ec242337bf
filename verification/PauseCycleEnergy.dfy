/**
 The energy side of every run of the monitor: the meter and the marks never part, and a kill is
 settled at the energy of its freeze.
 */
module PauseCycleEnergy {
  import opened Attribution
  import opened Options
  import opened Segments
  import opened Metering
  import opened Controller
  import opened EnergyStates
  import opened PauseCycles

  // -------------------------------------------------------------- the meter agrees with the marks

  lemma RefineCycleKeepsCoupling(s: Socket, start: Reading, e: EnergyState, x: Exec, cycle: PauseCycle, ticks: int)
    requires Coupled(s, start, x.book)
    ensures var (x', cycle') := RefineCycle(s, e, x, cycle, ticks);
            && Coupled(s, start, x'.book)
            && x'.ctl == x.ctl
            && x'.book.meter.frozen == x.book.meter.frozen
            && x'.book.meter.closedUJ >= x.book.meter.closedUJ
            && cycle'.pauseID == cycle.pauseID
  {
    RefineKeepsCoupling(s, start, x.book, ticks);
  }

  /** What a cycle keeps while it waits: its record shows the energy of the freeze. */
  ghost predicate Settled(s: Socket, start: Reading, e: EnergyState, stepJ: real, postedJ: real, x: Exec, cycle: PauseCycle) {
    && Coupled(s, start, x.book)
    && cycle.energyAtEffectiveFreezeJ
       == e.consumedBeforeJ + (if x.book.meter.frozen then Joules(x.book.meter.closedUJ) else stepJ)
    && postedJ <= cycle.energyAtEffectiveFreezeJ
  }

  lemma JoulesMonotone(a: int, b: int)
    requires a <= b
    ensures Joules(a) <= Joules(b)
  {}

  lemma RefineKeepsSettled(s: Socket, start: Reading, e: EnergyState, stepJ: real, postedJ: real, x: Exec, cycle: PauseCycle, ticks: int)
    requires Settled(s, start, e, stepJ, postedJ, x, cycle)
    ensures var (x', cycle') := RefineCycle(s, e, x, cycle, ticks);
            && Settled(s, start, e, stepJ, postedJ, x', cycle')
            && x'.ctl == x.ctl
            && cycle'.pauseID == cycle.pauseID
  {
    hide Coupled, RefineSegment;
    RefineCycleKeepsCoupling(s, start, e, x, cycle, ticks);
    var book := RefineSegment(s, x.book, ticks);
    if x.book.meter.frozen {
      JoulesMonotone(x.book.meter.closedUJ, book.meter.closedUJ);
    }
  }

  lemma SettledIgnoresController(s: Socket, start: Reading, e: EnergyState, stepJ: real, postedJ: real, x: Exec, cycle: PauseCycle, ctl: Ctl, outcome: string)
    requires Settled(s, start, e, stepJ, postedJ, x, cycle)
    ensures Settled(s, start, e, stepJ, postedJ, x.(ctl := ctl), cycle.(outcome := outcome))
  {}

  lemma KillFrozenSettles(s: Socket, start: Reading, e: EnergyState, stepJ: real, postedJ: real,
                          x: Exec, cycle: PauseCycle, p: Poll, cause: string)
    requires Settled(s, start, e, stepJ, postedJ, x, cycle)
    ensures var q := KillFrozen(s, e, x, cycle, p, cause);
            Settled(s, start, e, stepJ, postedJ, q.exec, q.cycle) && q.cycle.pauseID == cycle.pauseID && q.exit == Killed(cause)
  {
    hide Settled, RefineCycle;
    RefineKeepsSettled(s, start, e, stepJ, postedJ, x, cycle, p.ticksBeforeKill);
    var (x', cycle') := RefineCycle(s, e, x, cycle, p.ticksBeforeKill);
    SettledIgnoresController(s, start, e, stepJ, postedJ, x', cycle', KillReply(x'.ctl, cycle.pauseID, p.killOk).ctl, cycle'.outcome);
  }

  /** After an answer the record is still right, unless the step resumed, which reopens the meter. */
  ghost predicate Obeyed(s: Socket, start: Reading, e: EnergyState, stepJ: real, postedJ: real, pauseID: string, q: Progress) {
    && q.cycle.pauseID == pauseID
    && !q.exit.Unfrozen?
    && if q.exit.Resumed? then
         Coupled(s, start, q.exec.book) && !q.exec.book.meter.frozen
       else
         Settled(s, start, e, stepJ, postedJ, q.exec, q.cycle)
  }

  lemma ObeyResumeKeeps(s: Socket, start: Reading, e: EnergyState, stepJ: real, postedJ: real, x: Exec, cycle: PauseCycle, p: Poll)
    requires Settled(s, start, e, stepJ, postedJ, x, cycle) && p.answer.Command?
    ensures Obeyed(s, start, e, stepJ, postedJ, cycle.pauseID, ObeyResume(s, e, x, cycle, p))
  {
    RefineKeepsSettled(s, start, e, stepJ, postedJ, x, cycle, p.ticksBeforeUnfreeze);
    var (x1, cycle1) := RefineCycle(s, e, x, cycle, p.ticksBeforeUnfreeze);
    OpenKeepsCoupling(s, start, x1.book, p.resumeSample, p.nowNs);
    hide Settled, Coupled, RefineCycle, KillFrozen, OpenSegment;
    var x2 := x1.(ctl := ResumeReply(x1.ctl, cycle.pauseID, p.unfreezeOk).ctl);
    SettledIgnoresController(s, start, e, stepJ, postedJ, x1, cycle1, x2.ctl, cycle1.outcome);
    KillFrozenSettles(s, start, e, stepJ, postedJ, x2, cycle1, p, "RESUME_FAILED");
  }

  lemma ObeyKeeps(s: Socket, start: Reading, e: EnergyState, stepJ: real, postedJ: real, x: Exec, cycle: PauseCycle, p: Poll)
    requires Settled(s, start, e, stepJ, postedJ, x, cycle)
    ensures Obeyed(s, start, e, stepJ, postedJ, cycle.pauseID, Obey(s, e, x, cycle, p))
  {
    hide Settled, Obey, KillFrozen, ObeyResume, NeverKill;
    var cause, outcome := CauseOf(p.answer, cycle.pauseID), OutcomeOf(p.answer, cycle);
    ObeyIs(s, e, x, cycle, p);
    KillFrozenSettles(s, start, e, stepJ, postedJ, x, cycle, p, cause);
    SettledIgnoresController(s, start, e, stepJ, postedJ, x, cycle, x.ctl, outcome);
    if p.answer.Command? {
      ObeyResumeKeeps(s, start, e, stepJ, postedJ, x, cycle, p);
    }
  }

  lemma {:induction false} PollLoopKeeps(s: Socket, start: Reading, e: EnergyState, stepJ: real, postedJ: real,
                                         x: Exec, cycle: PauseCycle, polls: seq<Poll>)
    requires Settled(s, start, e, stepJ, postedJ, x, cycle)
    ensures Obeyed(s, start, e, stepJ, postedJ, cycle.pauseID, PollLoop(s, e, x, cycle, postedJ, polls))
    decreases |polls|
  {
    hide Settled, Obey;
    if polls != [] {
      ObeyKeeps(s, start, e, stepJ, postedJ, x, cycle, polls[0]);
      var q := Obey(s, e, x, cycle, polls[0]);
      if q.exit.Again? {
        PollLoopKeeps(s, start, e, stepJ, postedJ, q.exec, q.cycle, polls[1..]);
      }
    }
  }

  lemma EnterFreezeSettles(s: Socket, start: Reading, e: EnergyState, x: Exec, stepJ: real, cycle: PauseCycle, sample: Sample)
    requires Coupled(s, start, x.book) && !x.book.meter.frozen
    ensures var (x', cycle') := EnterFreeze(s, e, x, stepJ, cycle, sample);
            && Settled(s, start, e, stepJ, cycle'.energyAtEffectiveFreezeJ, x', cycle')
            && cycle'.pauseID == cycle.pauseID
  {
    hide Coupled, CloseSegment;
    CloseKeepsCoupling(s, start, x.book, sample);
    assert !FreezeUsable(x.book, sample) ==> CloseSegment(s, x.book, sample) == x.book by {
      UnusableFreezeKeepsBook(s, x.book, sample);
    }
  }

  lemma UnusableFreezeKeepsBook(s: Socket, b: Book, sample: Sample)
    ensures !FreezeUsable(b, sample) ==> CloseSegment(s, b, sample) == b
  {}

  /** A cycle started on a running meter either leaves it running or settles the record. */
  lemma CycleKeeps(s: Socket, start: Reading, e: EnergyState, x: Exec, stepJ: real, env: CycleEnv)
    requires Coupled(s, start, x.book) && !x.book.meter.frozen
    ensures var q := RunPauseCycle(s, e, x, stepJ, env);
            && q.cycle.pauseID == env.pauseID
            && Coupled(s, start, q.exec.book)
            && (q.exit.Resumed? || q.exit.Unfrozen? ==> !q.exec.book.meter.frozen)
            && (FreezeReply(x.ctl, env.pauseID, env.freezeOk).failed ==> q.exec.book == x.book)
            && (!FreezeReply(x.ctl, env.pauseID, env.freezeOk).failed ==>
                  exists postedJ :: Obeyed(s, start, e, stepJ, postedJ, env.pauseID, q) && Posted(q.events, postedJ, env.polls != []))
  {
    hide PollLoop, EnterFreeze, Coupled;
    var ctl := FreezeReply(x.ctl, env.pauseID, env.freezeOk).ctl;
    var cycle := NewCycle(e, env.pauseID, e.consumedBeforeJ + stepJ);
    var x1 := x.(ctl := ctl);
    EnterFreezeSettles(s, start, e, x1, stepJ, cycle, env.freezeSample);
    var (x2, cycle2) := EnterFreeze(s, e, x1, stepJ, cycle, env.freezeSample);
    var postedJ := cycle2.energyAtEffectiveFreezeJ;
    PollLoopKeeps(s, start, e, stepJ, postedJ, x2, cycle2, env.polls);
    PollLoopPosts(s, e, x2, cycle2, postedJ, env.polls);
    var q := RunPauseCycle(s, e, x, stepJ, env);
    if !FreezeReply(x.ctl, env.pauseID, env.freezeOk).failed {
      var loop := PollLoop(s, e, x2, cycle2, postedJ, env.polls);
      assert q == loop.After(Issued(x.ctl, ctl));
      assert Obeyed(s, start, e, stepJ, postedJ, env.pauseID, q);
      LastPostedConcat(Issued(x.ctl, ctl), loop.events);
      assert Posted(q.events, postedJ, env.polls != []);
    }
  }

  /** The energy of the last EXECUTION_PAUSED posted, if any. */
  function LastPosted(events: seq<Event>): Option<real> {
    if events == [] then None
    else
      var last := events[|events| - 1];
      if last.Paused? then Some(last.energyConsumedJ) else LastPosted(events[..|events| - 1])
  }

  predicate Posted(events: seq<Event>, postedJ: real, any: bool) {
    LastPosted(events) == if any then Some(postedJ) else None
  }

  lemma {:induction false} LastPostedConcat(a: seq<Event>, b: seq<Event>)
    ensures LastPosted(a + b) == if LastPosted(b).Some? then LastPosted(b) else LastPosted(a)
  {
    if b == [] {
      assert a + b == a;
    } else {
      assert (a + b)[..|a + b| - 1] == a + b[..|b| - 1];
      LastPostedConcat(a, b[..|b| - 1]);
    }
  }

  lemma {:induction false} PollLoopPosts(s: Socket, e: EnergyState, x: Exec, cycle: PauseCycle, postedJ: real, polls: seq<Poll>)
    ensures Posted(PollLoop(s, e, x, cycle, postedJ, polls).events, postedJ, polls != [])
    decreases |polls|
  {
    if polls != [] {
      ObeyPostsNothing(s, e, x, cycle, polls[0]);
      hide Obey;
      var q := Obey(s, e, x, cycle, polls[0]);
      var paused, answered := Paused(cycle.pauseID, postedJ), Answered(polls[0].answer);
      assert [paused, answered][..1] == [paused];
      assert LastPosted([paused, answered]) == LastPosted([paused]) == Some(postedJ);
      LastPostedConcat([paused, answered], q.events);
      if q.exit.Again? {
        PollLoopPosts(s, e, q.exec, q.cycle, postedJ, polls[1..]);
        LastPostedConcat([paused, answered] + q.events, PollLoop(s, e, q.exec, q.cycle, postedJ, polls[1..]).events);
      }
    }
  }

  lemma ObeyPostsNothing(s: Socket, e: EnergyState, x: Exec, cycle: PauseCycle, p: Poll)
    ensures LastPosted(Obey(s, e, x, cycle, p).events) == None
  {
    hide Obey, NeverKill, RefineCycle, OpenSegment;
    var cause := CauseOf(p.answer, cycle.pauseID);
    ObeyIs(s, e, x, cycle, p);
    NothingPosted(Obey(s, e, x, cycle, p).events);
  }

  lemma {:induction false} NothingPosted(events: seq<Event>)
    requires forall i :: 0 <= i < |events| ==> !events[i].Paused?
    ensures LastPosted(events) == None
  {
    if events != [] {
      NothingPosted(events[..|events| - 1]);
    }
  }

  /** Between two ticks the meter runs and agrees with the marks. */
  ghost predicate Ready(s: Socket, start: Reading, m: Monitor) {
    Coupled(s, start, m.exec.book) && !m.exec.book.meter.frozen
  }

  /** How a kill that followed an effective freeze is settled, and what was reported before it. */
  predicate SettledKill(m: Monitor, events: seq<Event>) {
    var cycles := m.result.cycles;
    m.result.killCause != "FREEZE_FAILED" && m.energy.pauseEnabled ==>
      && cycles != []
      && m.result.pauseID == cycles[|cycles| - 1].pauseID
      && m.result.consumedJ + m.energy.consumedBeforeJ == cycles[|cycles| - 1].energyAtEffectiveFreezeJ
      && LastPosted(events).Some?
      && LastPosted(events).value <= cycles[|cycles| - 1].energyAtEffectiveFreezeJ
  }

  lemma TickKeeps(s: Socket, start: Reading, m: Monitor, t: Tick)
    requires Ready(s, start, m)
    ensures var r := OnTick(s, m, t);
            && Coupled(s, start, r.monitor.exec.book)
            && (r.status.Monitoring? ==> Ready(s, start, r.monitor))
            && (r.status.StepKilled? ==> SettledKill(r.monitor, r.events))
  {
    hide Coupled, RunPauseCycle, MeterUJ;
    if t.sample.energyUJ.Some? {
      var stepJ := Joules(MeterUJ(s, m.exec.book.meter, t.sample.At(t.sample.energyUJ.value)));
      CycleKeeps(s, start, m.energy, m.exec, stepJ, t.cycle);
      var p := RunPauseCycle(s, m.energy, m.exec, stepJ, t.cycle);
      FailedFreezeIsItsCause(s, m.energy, m.exec, stepJ, t.cycle);
      if p.exit.Killed? && p.exit.cause != "FREEZE_FAILED" {
        var postedJ :| Obeyed(s, start, m.energy, stepJ, postedJ, t.cycle.pauseID, p) && Posted(p.events, postedJ, t.cycle.polls != []);
        assert Settled(s, start, m.energy, stepJ, postedJ, p.exec, p.cycle);
      }
    }
  }

  lemma FailedFreezeIsItsCause(s: Socket, e: EnergyState, x: Exec, stepJ: real, env: CycleEnv)
    ensures var q := RunPauseCycle(s, e, x, stepJ, env);
            && (FreezeReply(x.ctl, env.pauseID, env.freezeOk).failed ==> q.exit == Unfrozen || q.exit == Killed("FREEZE_FAILED"))
            && (env.polls == [] && q.exit.Killed? ==> q.exit == Killed("FREEZE_FAILED"))
  {
    hide EnterFreeze, Obey;
  }

  /**
   Through any run of the monitor, the live meter and the batch formula over the freeze marks
   give the same energy at every moment, so what the threshold was compared with is what the
   step is settled at; between ticks the meter is never left frozen.
   */
  lemma {:induction false} MonitorKeepsCoupling(s: Socket, start: Reading, m: Monitor, ticks: seq<Tick>)
    requires Ready(s, start, m)
    ensures var r := MonitorEnergy(s, m, ticks);
            && Coupled(s, start, r.monitor.exec.book)
            && (r.status.Monitoring? ==> Ready(s, start, r.monitor))
    decreases |ticks|
  {
    hide OnTick, Coupled;
    if ticks != [] {
      TickKeeps(s, start, m, ticks[0]);
      var r := OnTick(s, m, ticks[0]);
      if r.status.Monitoring? {
        MonitorKeepsCoupling(s, start, r.monitor, ticks[1..]);
      }
    }
  }

  lemma MonitorAgreesWithBatch(s: Socket, start: Reading, ctl: Ctl, energy: EnergyState, ticks: seq<Tick>, now: Reading)
    ensures var book := MonitorEnergy(s, Started(ctl, start, energy), ticks).monitor.exec.book;
            MeterUJ(s, book.meter, now) == Segmented(s, start, now, book.marks).attributedUJ
  {
    hide MonitorEnergy;
    CoupledAtStart(s, start);
    MonitorKeepsCoupling(s, start, Started(ctl, start, energy), ticks);
    MeterShowsSegmented(s, start, MonitorEnergy(s, Started(ctl, start, energy), ticks).monitor.exec.book, now);
  }

  /** The marks a run leaves count the container's CPU time once: see `CPUTimeCountedOnce`. */
  lemma MonitorCountsCPUOnce(s: Socket, start: Reading, ctl: Ctl, energy: EnergyState, ticks: seq<Tick>, end: Reading)
    ensures var book := MonitorEnergy(s, Started(ctl, start, energy), ticks).monitor.exec.book;
            (!book.meter.frozen ==> end.ticks >= book.meter.segment.ticks) ==>
              && Segmented(s, start, end, book.marks).processUsec <= Stop(end, book.marks).ticks - start.ticks
              && (Segmented(s, start, end, book.marks).processUsec == Stop(end, book.marks).ticks - start.ticks
                  <==> NoBlindSegment(s, Executed(start, end, book.marks)))
  {
    hide MonitorEnergy;
    CoupledAtStart(s, start);
    MonitorKeepsCoupling(s, start, Started(ctl, start, energy), ticks);
    var book := MonitorEnergy(s, Started(ctl, start, energy), ticks).monitor.exec.book;
    if !book.meter.frozen ==> end.ticks >= book.meter.segment.ticks {
      CoupledCountsCPUOnce(s, start, book, end);
    }
  }

  // -------------------------------------------------------------------------------- kill settlement

  /**
   Whenever a step is killed after an effective freeze, what it is settled at, with what the
   sequence consumed before it, is the final energy-at-freeze of that cycle's record, and at
   least what the last EXECUTION_PAUSED announced; also when the freeze could not be measured.
   */
  lemma {:induction false} KillSettlement(s: Socket, start: Reading, m: Monitor, ticks: seq<Tick>)
    requires Ready(s, start, m)
    ensures var r := MonitorEnergy(s, m, ticks); r.status.StepKilled? ==> SettledKill(r.monitor, r.events)
    decreases |ticks|
  {
    hide OnTick, Coupled;
    if ticks != [] {
      TickKeeps(s, start, m, ticks[0]);
      var r := OnTick(s, m, ticks[0]);
      if r.status.Monitoring? {
        KillSettlement(s, start, r.monitor, ticks[1..]);
        LastPostedConcat(r.events, MonitorEnergy(s, r.monitor, ticks[1..]).events);
      }
    }
  }
}
