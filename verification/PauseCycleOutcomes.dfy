/**
 How a pause cycle can end: which exits are possible, what state they leave the controller in,
 and what the cycle's record says of them.
 */
module PauseCycleOutcomes {
  import opened Attribution
  import opened Options
  import opened Metering
  import opened Controller
  import opened EnergyStates
  import opened PauseCycles

  // ----------------------------------------------------------------------------- killable classes

  lemma KillFrozenFromFrozen(s: Socket, e: EnergyState, x: Exec, cycle: PauseCycle, p: Poll, cause: string)
    ensures var q := KillFrozen(s, e, x, cycle, p, cause);
            && q.exit == Killed(cause)
            && q.cycle.outcome == cycle.outcome
            && (x.ctl.state == Frozen ==> q.exec.ctl.state == if p.killOk then Stopped else Unknown)
            && (x.ctl.state == Unknown ==> q.exec.ctl == x.ctl)
  {
    hide AttributionDetail, RefineSegment;
  }

  lemma KillableResumes(s: Socket, e: EnergyState, x: Exec, cycle: PauseCycle, p: Poll)
    requires !NeverKill(e) && x.ctl.state == Frozen && x.ctl.lastPauseID == cycle.pauseID && p.answer.Command?
    ensures var q := ObeyResume(s, e, x, cycle, p);
            if p.unfreezeOk then
              q.exit == Resumed(p.answer.newThresholdJ) && q.exec.ctl.state == Running && q.cycle.outcome == "resumed"
            else
              q.exit.Killed? && q.exec.ctl.state == Unknown && q.cycle.outcome == cycle.outcome
  {
    hide KillFrozen, RefineSegment, OpenSegment, NeverKill;
    var (x1, cycle1) := RefineCycle(s, e, x, cycle, p.ticksBeforeUnfreeze);
    var x2 := x1.(ctl := ResumeReply(x1.ctl, cycle.pauseID, p.unfreezeOk).ctl);
    KillFrozenFromFrozen(s, e, x2, cycle1, p, "RESUME_FAILED");
  }

  /** One answer to a frozen, killable step decides everything. */
  lemma KillableObeys(s: Socket, e: EnergyState, x: Exec, cycle: PauseCycle, p: Poll)
    requires !NeverKill(e) && x.ctl.state == Frozen && x.ctl.lastPauseID == cycle.pauseID
    ensures var q := Obey(s, e, x, cycle, p);
            if !Authorizes(p.answer, cycle.pauseID) then
              q.exit.Killed? && q.exec.ctl.state == (if p.killOk then Stopped else Unknown) && q.cycle.outcome == cycle.outcome
            else if p.unfreezeOk then
              q.exit == Resumed(p.answer.newThresholdJ) && q.exec.ctl.state == Running && q.cycle.outcome == "resumed"
            else
              q.exit.Killed? && q.exec.ctl.state == Unknown && q.cycle.outcome == cycle.outcome
  {
    hide Obey, KillFrozen, ObeyResume, NeverKill;
    var cause := CauseOf(p.answer, cycle.pauseID);
    ObeyIs(s, e, x, cycle, p);
    if Authorizes(p.answer, cycle.pauseID) {
      KillableResumes(s, e, x, cycle, p);
    } else {
      KillFrozenFromFrozen(s, e, x, cycle, p, cause);
    }
  }

  /**
   The whole behaviour of a pause cycle of a killable step, from a running controller: at most
   one answer is ever asked for, and each case leaves one exit and one controller state.
   */
  lemma KillableCycleClassified(s: Socket, e: EnergyState, x: Exec, stepJ: real, env: CycleEnv)
    requires !NeverKill(e) && x.ctl.state == Running
    ensures var q := RunPauseCycle(s, e, x, stepJ, env);
            if !env.freezeOk then
              q.exit == Killed("FREEZE_FAILED") && q.exec.ctl.state == Unknown && q.cycle.outcome == "killed"
            else if env.polls == [] then
              q.exit == Again && q.exec.ctl.state == Frozen
            else if !Authorizes(env.polls[0].answer, env.pauseID) then
              q.exit.Killed? && q.exec.ctl.state == (if env.polls[0].killOk then Stopped else Unknown) && q.cycle.outcome == "killed"
            else if env.polls[0].unfreezeOk then
              q.exit == Resumed(env.polls[0].answer.newThresholdJ) && q.exec.ctl.state == Running && q.cycle.outcome == "resumed"
            else
              q.exit.Killed? && q.exec.ctl.state == Unknown && q.cycle.outcome == "killed"
    ensures RunPauseCycle(s, e, x, stepJ, env)
         == RunPauseCycle(s, e, x, stepJ, env.(polls := if env.polls == [] then [] else [env.polls[0]]))
  {
    hide Obey, CloseSegment, NeverKill;
    if env.freezeOk && env.polls != [] {
      var ctl := FreezeReply(x.ctl, env.pauseID, env.freezeOk).ctl;
      var (x2, cycle2) := EnterFreeze(s, e, x.(ctl := ctl), stepJ, NewCycle(e, env.pauseID, e.consumedBeforeJ + stepJ), env.freezeSample);
      KillableObeys(s, e, x2, cycle2, env.polls[0]);
      assert [env.polls[0]][0] == env.polls[0];
    }
  }

  /** A failed freeze: the step is reported killed, yet no kill reached the kernel. */
  lemma ReportedKilledYetAlive(s: Socket, e: EnergyState, start: Reading)
    requires !NeverKill(e)
    ensures var env := CycleEnv("pause-1", false, Sample(None, 0, 0), true, []);
            var q := RunPauseCycle(s, e, Exec(STARTED, Book(NewMeter(start), [])), 0.0, env);
            && q.exit.Killed?
            && q.exec.ctl.state != Stopped
            && forall i :: 0 <= i < |q.exec.ctl.ops| ==> q.exec.ctl.ops[i].kind != KillGroup
  {
    hide PollLoop, EnterFreeze;
  }

  // --------------------------------------------------------------------------- the unkillable class

  /** The first answer that authorizes the pause, or the number of answers. */
  function FirstAuthorization(polls: seq<Poll>, pauseID: string): (k: nat)
    ensures k <= |polls|
    ensures k < |polls| ==> Authorizes(polls[k].answer, pauseID)
    ensures forall i :: 0 <= i < k ==> !Authorizes(polls[i].answer, pauseID)
  {
    if polls == [] || Authorizes(polls[0].answer, pauseID) then 0 else 1 + FirstAuthorization(polls[1..], pauseID)
  }

  lemma UnkillableObeys(s: Socket, e: EnergyState, x: Exec, cycle: PauseCycle, p: Poll)
    requires NeverKill(e)
    ensures var q := Obey(s, e, x, cycle, p);
            && q.cycle.pauseID == cycle.pauseID
            && (!Authorizes(p.answer, cycle.pauseID) ==> q.exit == Again && q.exec.ctl == x.ctl)
            && (x.ctl.state == Unknown ==> q.exit == Again && q.exec.ctl == x.ctl)
            && (Authorizes(p.answer, cycle.pauseID) && x.ctl.state == Frozen && x.ctl.lastPauseID == cycle.pauseID ==>
                  if p.unfreezeOk then
                    q.exit == Resumed(p.answer.newThresholdJ) && q.exec.ctl.state == Running && q.cycle.outcome == "resumed"
                  else
                    q.exit == Again && q.exec.ctl.state == Unknown)
  {
    hide Obey, NeverKill, RefineSegment, OpenSegment;
    ObeyIs(s, e, x, cycle, p);
  }

  /** Once an unfreeze failed, no answer whatever lets the step go on: the wait never ends. */
  lemma {:induction false} StuckAfterFailedUnfreeze(s: Socket, e: EnergyState, x: Exec, cycle: PauseCycle, postedJ: real, polls: seq<Poll>)
    requires NeverKill(e) && x.ctl.state == Unknown
    ensures var q := PollLoop(s, e, x, cycle, postedJ, polls); q.exit == Again && q.exec.ctl == x.ctl
    decreases |polls|
  {
    hide Obey, NeverKill;
    if polls != [] {
      UnkillableObeys(s, e, x, cycle, polls[0]);
      var q := Obey(s, e, x, cycle, polls[0]);
      StuckAfterFailedUnfreeze(s, e, q.exec, q.cycle, postedJ, polls[1..]);
    }
  }

  lemma {:induction false} UnkillableLoopClassified(s: Socket, e: EnergyState, x: Exec, cycle: PauseCycle, postedJ: real, polls: seq<Poll>)
    requires NeverKill(e) && x.ctl.state == Frozen && x.ctl.lastPauseID == cycle.pauseID
    ensures var q := PollLoop(s, e, x, cycle, postedJ, polls);
            var k := FirstAuthorization(polls, cycle.pauseID);
            if k == |polls| then
              q.exit == Again && q.exec.ctl.state == Frozen
            else if polls[k].unfreezeOk then
              q.exit == Resumed(polls[k].answer.newThresholdJ) && q.exec.ctl.state == Running && q.cycle.outcome == "resumed"
            else
              q.exit == Again && q.exec.ctl.state == Unknown
    decreases |polls|
  {
    hide Obey, NeverKill;
    if polls != [] {
      UnkillableObeys(s, e, x, cycle, polls[0]);
      var q := Obey(s, e, x, cycle, polls[0]);
      if !Authorizes(polls[0].answer, cycle.pauseID) {
        UnkillableLoopClassified(s, e, q.exec, q.cycle, postedJ, polls[1..]);
      } else if !polls[0].unfreezeOk {
        StuckAfterFailedUnfreeze(s, e, q.exec, q.cycle, postedJ, polls[1..]);
      }
    }
  }

  /**
   The whole behaviour of a pause cycle of an unkillable step, from a running controller. As every
   moment of the wait is the end of some shorter list of answers, the controller is frozen or
   unknown all along; the cycle ends only by a failed freeze or by the first authorization, and
   never ends if the kernel fails that one.
   */
  lemma UnkillableCycleClassified(s: Socket, e: EnergyState, x: Exec, stepJ: real, env: CycleEnv)
    requires NeverKill(e) && x.ctl.state == Running
    ensures var q := RunPauseCycle(s, e, x, stepJ, env);
            var k := FirstAuthorization(env.polls, env.pauseID);
            if !env.freezeOk then
              q.exit == Unfrozen && q.exec.ctl.state == Unknown && q.cycle.outcome == "killed"
            else if k == |env.polls| then
              q.exit == Again && q.exec.ctl.state == Frozen
            else if env.polls[k].unfreezeOk then
              q.exit == Resumed(env.polls[k].answer.newThresholdJ) && q.exec.ctl.state == Running && q.cycle.outcome == "resumed"
            else
              q.exit == Again && q.exec.ctl.state == Unknown
  {
    hide PollLoop, CloseSegment, NeverKill;
    if env.freezeOk {
      var ctl := FreezeReply(x.ctl, env.pauseID, env.freezeOk).ctl;
      var (x2, cycle2) := EnterFreeze(s, e, x.(ctl := ctl), stepJ, NewCycle(e, env.pauseID, e.consumedBeforeJ + stepJ), env.freezeSample);
      UnkillableLoopClassified(s, e, x2, cycle2, cycle2.energyAtEffectiveFreezeJ, env.polls);
    }
  }

  // ------------------------------------------------------------------------------- the cycle's record

  /** What the record of a cycle says once the cycle has ended. */
  predicate TellsOutcome(p: Progress) {
    p.exit != Again ==> p.cycle.outcome == if p.exit.Resumed? then "resumed" else "killed"
  }

  lemma {:induction false} LoopTellsOutcome(s: Socket, e: EnergyState, x: Exec, cycle: PauseCycle, postedJ: real, polls: seq<Poll>)
    requires NeverKill(e) || cycle.outcome == "killed"
    ensures TellsOutcome(PollLoop(s, e, x, cycle, postedJ, polls))
    decreases |polls|
  {
    hide Obey, NeverKill;
    if polls != [] {
      assert TellsOutcome(Obey(s, e, x, cycle, polls[0])) && (NeverKill(e) || !Obey(s, e, x, cycle, polls[0]).exit.Again?) by {
        hide RefineSegment, OpenSegment;
        ObeyIs(s, e, x, cycle, polls[0]);
      }
      var q := Obey(s, e, x, cycle, polls[0]);
      if q.exit.Again? {
        LoopTellsOutcome(s, e, q.exec, q.cycle, postedJ, polls[1..]);
      }
    }
  }

  /**
   What a returned cycle's record says, whatever state it began in: "resumed" exactly when it
   resumed, otherwise "killed" - also for an unkillable step whose freeze failed and which was not
   killed. "queued_wait" is never recorded, since a cycle that still waits has not returned.
   */
  lemma RecordedOutcome(s: Socket, e: EnergyState, x: Exec, stepJ: real, env: CycleEnv)
    ensures TellsOutcome(RunPauseCycle(s, e, x, stepJ, env))
  {
    hide PollLoop, CloseSegment, NeverKill;
    var x1 := x.(ctl := FreezeReply(x.ctl, env.pauseID, env.freezeOk).ctl);
    var (x2, cycle2) := EnterFreeze(s, e, x1, stepJ, NewCycle(e, env.pauseID, e.consumedBeforeJ + stepJ), env.freezeSample);
    LoopTellsOutcome(s, e, x2, cycle2, cycle2.energyAtEffectiveFreezeJ, env.polls);
  }

  /** The record of a resumed cycle. */
  predicate NothingWhilePaused(p: Progress) {
    p.exit.Resumed? ==> p.cycle.energyAtResumeEffectiveJ == p.cycle.energyAtEffectiveFreezeJ
  }

  lemma {:induction false} LoopRecordsNothingWhilePaused(s: Socket, e: EnergyState, x: Exec, cycle: PauseCycle, postedJ: real, polls: seq<Poll>)
    ensures NothingWhilePaused(PollLoop(s, e, x, cycle, postedJ, polls))
    decreases |polls|
  {
    hide Obey;
    if polls != [] {
      assert NothingWhilePaused(Obey(s, e, x, cycle, polls[0])) by {
        hide NeverKill, RefineCycle, OpenSegment;
        ObeyIs(s, e, x, cycle, polls[0]);
      }
      var q := Obey(s, e, x, cycle, polls[0]);
      if q.exit.Again? {
        LoopRecordsNothingWhilePaused(s, e, q.exec, q.cycle, postedJ, polls[1..]);
      }
    }
  }

  /** Whatever the node burned meanwhile, a resumed cycle records the same energy at both its ends. */
  lemma CycleRecordsNothingWhilePaused(s: Socket, e: EnergyState, x: Exec, stepJ: real, env: CycleEnv)
    ensures NothingWhilePaused(RunPauseCycle(s, e, x, stepJ, env))
  {
    hide PollLoop, EnterFreeze;
    var x1 := x.(ctl := FreezeReply(x.ctl, env.pauseID, env.freezeOk).ctl);
    var (x2, cycle2) := EnterFreeze(s, e, x1, stepJ, NewCycle(e, env.pauseID, e.consumedBeforeJ + stepJ), env.freezeSample);
    LoopRecordsNothingWhilePaused(s, e, x2, cycle2, cycle2.energyAtEffectiveFreezeJ, env.polls);
  }

  /**
   When the resume of a killable step fails, the freeze control is read twice and the second
   reading replaces the first: the record holds all the CPU time found during the freeze exactly
   when the first reading found none.
   */
  lemma FailedResumeControl(s: Socket, e: EnergyState, x: Exec, cycle: PauseCycle, p: Poll)
    requires !NeverKill(e) && x.ctl.state == Frozen && x.ctl.lastPauseID == cycle.pauseID
    requires Authorizes(p.answer, cycle.pauseID) && !p.unfreezeOk && x.book.meter.frozen
    ensures var q := Obey(s, e, x, cycle, p);
            && q.cycle.cpuUsecWhileFrozen.Some?
            && (q.cycle.cpuUsecWhileFrozen.value == q.exec.book.meter.frozenAt.ticks - x.book.meter.frozenAt.ticks
                <==> p.ticksBeforeUnfreeze <= x.book.meter.frozenAt.ticks)
  {
    hide AttributionDetail;
  }

  // --------------------------------------------------------------- events tell the kernel's history

  function OpsOf(events: seq<Event>): seq<KernelOp> {
    if events == [] then []
    else (if events[0].Kernel? then [events[0].op] else []) + OpsOf(events[1..])
  }

  lemma {:induction false} OpsOfConcat(a: seq<Event>, b: seq<Event>)
    ensures OpsOf(a + b) == OpsOf(a) + OpsOf(b)
  {
    if a == [] {
      assert a + b == b;
    } else {
      var first := if a[0].Kernel? then [a[0].op] else [];
      assert (a + b)[0] == a[0] && (a + b)[1..] == a[1..] + b;
      OpsOfConcat(a[1..], b);
      assert first + OpsOf(a[1..] + b) == (first + OpsOf(a[1..])) + OpsOf(b);
    }
  }

  /** The controller went from one state to another by calls that issued exactly these operations. */
  predicate Accounts(before: Ctl, events: seq<Event>, after: Ctl) {
    && after.ops == before.ops + OpsOf(events)
    && (Explained(before) ==> Explained(after))
  }

  lemma AccountsConcat(a: Ctl, e1: seq<Event>, b: Ctl, e2: seq<Event>, c: Ctl)
    requires Accounts(a, e1, b) && Accounts(b, e2, c)
    ensures Accounts(a, e1 + e2, c)
  {
    hide Explained;
    OpsOfConcat(e1, e2);
  }

  lemma CallAccounts(c: Ctl, call: Call)
    ensures Accounts(c, Issued(c, Apply(c, call).ctl), Apply(c, call).ctl)
    ensures !Apply(c, call).failed || Apply(c, call).ctl == c || |Apply(c, call).ctl.ops| == |c.ops| + 1
  {
    if Explained(c) {
      CallKeepsExplained(c, call);
    }
  }

  lemma QuietEvents(c: Ctl, events: seq<Event>)
    requires forall i :: 0 <= i < |events| ==> !events[i].Kernel?
    ensures Accounts(c, events, c)
  {
    hide Explained;
    if events != [] {
      QuietEvents(c, events[1..]);
    }
  }

  lemma RefineCycleKeepsController(s: Socket, e: EnergyState, x: Exec, cycle: PauseCycle, ticks: int)
    ensures RefineCycle(s, e, x, cycle, ticks).0.ctl == x.ctl
  {}

  lemma KillFrozenAccounts(s: Socket, e: EnergyState, x: Exec, cycle: PauseCycle, p: Poll, cause: string)
    ensures Accounts(x.ctl, KillFrozen(s, e, x, cycle, p, cause).events, KillFrozen(s, e, x, cycle, p, cause).exec.ctl)
  {
    hide RefineCycle, Accounts;
    RefineCycleKeepsController(s, e, x, cycle, p.ticksBeforeKill);
    var killCalled := [KillCalled(cycle.pauseID)];
    QuietEvents(x.ctl, killCalled);
    var call := Call(KillGroup, cycle.pauseID, p.killOk);
    CallAccounts(x.ctl, call);
    AccountsConcat(x.ctl, killCalled, x.ctl, Issued(x.ctl, Apply(x.ctl, call).ctl), Apply(x.ctl, call).ctl);
  }

  lemma ObeyResumeAccounts(s: Socket, e: EnergyState, x: Exec, cycle: PauseCycle, p: Poll)
    requires p.answer.Command?
    ensures Accounts(x.ctl, ObeyResume(s, e, x, cycle, p).events, ObeyResume(s, e, x, cycle, p).exec.ctl)
  {
    hide KillFrozen, RefineCycle, Accounts, OpenSegment, NeverKill;
    RefineCycleKeepsController(s, e, x, cycle, p.ticksBeforeUnfreeze);
    var (x1, cycle1) := RefineCycle(s, e, x, cycle, p.ticksBeforeUnfreeze);
    var call := Call(UnfreezeGroup, cycle.pauseID, p.unfreezeOk);
    CallAccounts(x1.ctl, call);
    var x2 := x1.(ctl := Apply(x1.ctl, call).ctl);
    var issued := Issued(x1.ctl, x2.ctl);
    KillFrozenAccounts(s, e, x2, cycle1, p, "RESUME_FAILED");
    var killed := KillFrozen(s, e, x2, cycle1, p, "RESUME_FAILED");
    AccountsConcat(x1.ctl, issued, x2.ctl, killed.events, killed.exec.ctl);
    assert issued + [] == issued;
  }

  lemma ObeyAccounts(s: Socket, e: EnergyState, x: Exec, cycle: PauseCycle, p: Poll)
    ensures Accounts(x.ctl, Obey(s, e, x, cycle, p).events, Obey(s, e, x, cycle, p).exec.ctl)
  {
    hide Obey, ObeyResume, KillFrozen, Accounts, NeverKill;
    var cause := CauseOf(p.answer, cycle.pauseID);
    ObeyIs(s, e, x, cycle, p);
    KillFrozenAccounts(s, e, x, cycle, p, cause);
    QuietEvents(x.ctl, []);
    if p.answer.Command? {
      ObeyResumeAccounts(s, e, x, cycle, p);
    }
  }

  lemma {:induction false} PollLoopAccounts(s: Socket, e: EnergyState, x: Exec, cycle: PauseCycle, postedJ: real, polls: seq<Poll>)
    ensures var q := PollLoop(s, e, x, cycle, postedJ, polls); Accounts(x.ctl, q.events, q.exec.ctl)
    decreases |polls|
  {
    hide Obey, Accounts;
    if polls == [] {
      QuietEvents(x.ctl, []);
    } else {
      ObeyAccounts(s, e, x, cycle, polls[0]);
      var q := Obey(s, e, x, cycle, polls[0]);
      var asked := [Paused(cycle.pauseID, postedJ), Answered(polls[0].answer)];
      QuietEvents(x.ctl, asked);
      AccountsConcat(x.ctl, asked, x.ctl, q.events, q.exec.ctl);
      if q.exit.Again? {
        PollLoopAccounts(s, e, q.exec, q.cycle, postedJ, polls[1..]);
        var rest := PollLoop(s, e, q.exec, q.cycle, postedJ, polls[1..]);
        AccountsConcat(x.ctl, asked + q.events, q.exec.ctl, rest.events, rest.exec.ctl);
      }
    }
  }

  lemma CycleAccounts(s: Socket, e: EnergyState, x: Exec, stepJ: real, env: CycleEnv)
    ensures var q := RunPauseCycle(s, e, x, stepJ, env); Accounts(x.ctl, q.events, q.exec.ctl)
  {
    hide PollLoop, CloseSegment, Accounts;
    var freeze, kill := Call(FreezeGroup, env.pauseID, env.freezeOk), Call(KillGroup, env.pauseID, env.killOk);
    CallAccounts(x.ctl, freeze);
    var c1 := Apply(x.ctl, freeze).ctl;
    var issued := Issued(x.ctl, c1);
    var (x2, cycle2) := EnterFreeze(s, e, x.(ctl := c1), stepJ, NewCycle(e, env.pauseID, e.consumedBeforeJ + stepJ), env.freezeSample);
    PollLoopAccounts(s, e, x2, cycle2, cycle2.energyAtEffectiveFreezeJ, env.polls);
    var loop := PollLoop(s, e, x2, cycle2, cycle2.energyAtEffectiveFreezeJ, env.polls);
    AccountsConcat(x.ctl, issued, c1, loop.events, loop.exec.ctl);
    CallAccounts(c1, kill);
    var c2 := Apply(c1, kill).ctl;
    QuietEvents(c1, [KillCalled(env.pauseID)]);
    AccountsConcat(x.ctl, issued, c1, [KillCalled(env.pauseID)], c1);
    AccountsConcat(x.ctl, issued + [KillCalled(env.pauseID)], c1, Issued(c1, c2), c2);
  }

  lemma TickAccounts(s: Socket, m: Monitor, t: Tick)
    ensures var r := OnTick(s, m, t); Accounts(m.exec.ctl, r.events, r.monitor.exec.ctl)
  {
    hide RunPauseCycle, MeterUJ, Accounts;
    var c := m.exec.ctl;
    QuietEvents(c, []);
    var kill := Call(KillGroup, "", t.killOk);
    CallAccounts(c, kill);
    QuietEvents(c, [KillCalled("")]);
    AccountsConcat(c, [KillCalled("")], c, Issued(c, Apply(c, kill).ctl), Apply(c, kill).ctl);
    if t.sample.energyUJ.Some? {
      var stepJ := Joules(MeterUJ(s, m.exec.book.meter, t.sample.At(t.sample.energyUJ.value)));
      CycleAccounts(s, m.energy, m.exec, stepJ, t.cycle);
      var p := RunPauseCycle(s, m.energy, m.exec, stepJ, t.cycle);
      forall thresholdJ: real
        ensures Accounts(c, p.events + [InForce(thresholdJ)], p.exec.ctl)
      {
        QuietEvents(p.exec.ctl, [InForce(thresholdJ)]);
        AccountsConcat(c, p.events, p.exec.ctl, [InForce(thresholdJ)], p.exec.ctl);
      }
    }
  }

  /**
   Through any run of the monitor, the kernel operations seen in the events are exactly those the
   controller issued, and they form a history of the kernel language.
   */
  lemma {:induction false} RunAccounts(s: Socket, m: Monitor, ticks: seq<Tick>)
    ensures var r := MonitorEnergy(s, m, ticks); Accounts(m.exec.ctl, r.events, r.monitor.exec.ctl)
    decreases |ticks|
  {
    hide OnTick, Accounts;
    if ticks == [] {
      QuietEvents(m.exec.ctl, []);
    } else {
      TickAccounts(s, m, ticks[0]);
      var r := OnTick(s, m, ticks[0]);
      if r.status.Monitoring? {
        RunAccounts(s, r.monitor, ticks[1..]);
        var rest := MonitorEnergy(s, r.monitor, ticks[1..]);
        AccountsConcat(m.exec.ctl, r.events, r.monitor.exec.ctl, rest.events, rest.monitor.exec.ctl);
      }
    }
  }

  lemma RunSpeaksKernelLanguage(s: Socket, start: Reading, energy: EnergyState, ticks: seq<Tick>)
    ensures InLanguage(OpsOf(MonitorEnergy(s, Started(STARTED, start, energy), ticks).events))
  {
    hide MonitorEnergy;
    var r := MonitorEnergy(s, Started(STARTED, start, energy), ticks);
    RunAccounts(s, Started(STARTED, start, energy), ticks);
    assert [] + OpsOf(r.events) == OpsOf(r.events);
  }
}
