/**
 What the monitor tells others - reports of pauses, settled kills, records of cycles - measured
 against the batch formula over the freeze marks: each figure, on every path, is the step's energy
 at the moment it claims to be of.
 */
module PauseCycleReports {
  import opened Attribution
  import opened Segments
  import opened Metering
  import opened Controller
  import opened EnergyStates
  import opened PauseCycles
  import opened PauseCycleEnergy
  import opened PauseCycleKills

  /** The sequence's energy when the step has come to `now`, by the formula over the marks so far. */
  function CumulativeJ(s: Socket, start: Reading, m: Monitor, now: Reading): real {
    m.energy.consumedBeforeJ + Joules(Segmented(s, start, now, m.exec.book.marks).attributedUJ)
  }

  /** The reading on which the monitor decided. */
  function DecidedAt(t: Tick): Reading {
    match t.sample.energyUJ
    case Some(uj) => t.sample.At(uj)
    case None => ZERO
  }

  /** The reading of the effective freeze, or the decision's if the freeze could not be measured. */
  function FrozenAt(m: Monitor, t: Tick): Reading {
    var sample := t.cycle.freezeSample;
    if sample.energyUJ.Some? && sample.ticks >= m.exec.book.meter.segment.ticks then
      Reading(sample.energyUJ.value, sample.ticks, sample.wallNs)
    else
      DecidedAt(t)
  }

  /** The threshold in force is reached on this tick. */
  predicate Reached(s: Socket, start: Reading, m: Monitor, t: Tick) {
    t.sample.energyUJ.Some? && CumulativeJ(s, start, m, DecidedAt(t)) >= m.energy.executionThresholdJ
  }

  lemma MeterIsFormula(s: Socket, start: Reading, m: Monitor, now: Reading)
    requires Coupled(s, start, m.exec.book)
    ensures m.energy.consumedBeforeJ + Joules(MeterUJ(s, m.exec.book.meter, now)) == CumulativeJ(s, start, m, now)
  {
    MeterShowsSegmented(s, start, m.exec.book, now);
    hide Coupled, Segmented, MeterUJ;
  }

  // ------------------------------------------------------------------------------ reports of pauses

  /** Every report is of this pause, at this energy. */
  predicate Reports(events: seq<Event>, pauseID: string, energyJ: real) {
    forall i :: 0 <= i < |events| && events[i].Paused? ==> events[i] == Paused(pauseID, energyJ)
  }

  predicate NoReport(events: seq<Event>) {
    forall i :: 0 <= i < |events| ==> !events[i].Paused?
  }

  lemma ObeyReportsNothing(s: Socket, e: EnergyState, x: Exec, cycle: PauseCycle, p: Poll)
    ensures NoReport(Obey(s, e, x, cycle, p).events) && Obey(s, e, x, cycle, p).cycle.pauseID == cycle.pauseID
  {
    hide Obey, NeverKill, RefineSegment, OpenSegment;
    ObeyIs(s, e, x, cycle, p);
  }

  lemma {:induction false} LoopReports(s: Socket, e: EnergyState, x: Exec, cycle: PauseCycle, postedJ: real, polls: seq<Poll>)
    ensures Reports(PollLoop(s, e, x, cycle, postedJ, polls).events, cycle.pauseID, postedJ)
    decreases |polls|
  {
    hide Obey;
    if polls != [] {
      ObeyReportsNothing(s, e, x, cycle, polls[0]);
      var q := Obey(s, e, x, cycle, polls[0]);
      if q.exit.Again? {
        LoopReports(s, e, q.exec, q.cycle, postedJ, polls[1..]);
      }
    }
  }

  /** The energy at the freeze is what the formula gives at the reading of the freeze. */
  lemma FreezeEnergy(s: Socket, start: Reading, m: Monitor, t: Tick, x: Exec, cycle: PauseCycle)
    requires Ready(s, start, m) && t.sample.energyUJ.Some? && x.book == m.exec.book
    ensures var stepJ := Joules(MeterUJ(s, m.exec.book.meter, DecidedAt(t)));
            EnterFreeze(s, m.energy, x, stepJ, cycle, t.cycle.freezeSample).1
            == cycle.(energyAtEffectiveFreezeJ := CumulativeJ(s, start, m, FrozenAt(m, t)))
  {
    MeterIsFormula(s, start, m, FrozenAt(m, t));
    hide AttributedUJ, Coupled, Segmented;
  }

  lemma CycleReports(s: Socket, start: Reading, m: Monitor, t: Tick)
    requires Ready(s, start, m) && t.sample.energyUJ.Some?
    ensures var stepJ := Joules(MeterUJ(s, m.exec.book.meter, DecidedAt(t)));
            Reports(RunPauseCycle(s, m.energy, m.exec, stepJ, t.cycle).events, t.cycle.pauseID, CumulativeJ(s, start, m, FrozenAt(m, t)))
  {
    hide PollLoop, EnterFreeze, MeterUJ, CumulativeJ, FrozenAt, Ready, NeverKill, DecidedAt;
    var stepJ := Joules(MeterUJ(s, m.exec.book.meter, DecidedAt(t)));
    var e, env := m.energy, t.cycle;
    var ctl := FreezeReply(m.exec.ctl, env.pauseID, env.freezeOk).ctl;
    var x1, cycle := m.exec.(ctl := ctl), NewCycle(e, env.pauseID, e.consumedBeforeJ + stepJ);
    FreezeEnergy(s, start, m, t, x1, cycle);
    var (x2, cycle2) := EnterFreeze(s, e, x1, stepJ, cycle, env.freezeSample);
    LoopReports(s, e, x2, cycle2, cycle2.energyAtEffectiveFreezeJ, env.polls);
  }

  lemma TickReports(s: Socket, start: Reading, m: Monitor, t: Tick)
    requires Ready(s, start, m)
    ensures t.sample.energyUJ.Some? ==> Reports(OnTick(s, m, t).events, t.cycle.pauseID, CumulativeJ(s, start, m, FrozenAt(m, t)))
    ensures t.sample.energyUJ.None? ==> NoReport(OnTick(s, m, t).events)
  {
    hide RunPauseCycle, MeterUJ, CumulativeJ, FrozenAt, Ready, NeverKill;
    if t.sample.energyUJ.Some? {
      CycleReports(s, start, m, t);
    }
  }

  /** The monitor as it was when it took the tick `n`. */
  function MonitorAt(s: Socket, m: Monitor, ticks: seq<Tick>, n: nat): Monitor
    requires n <= |ticks|
  {
    MonitorEnergy(s, m, ticks[..n]).monitor
  }

  /**
   Over any run, for resumed, killed and waiting pauses alike, every EXECUTION_PAUSED posts the pause
   of some tick and exactly the sequence's energy at that pause's effective freeze - at the decision
   if the freeze could not be measured.
   */
  lemma {:induction false} EveryReportIsTrue(s: Socket, start: Reading, m: Monitor, ticks: seq<Tick>, i: nat) returns (n: nat)
    requires Ready(s, start, m)
    requires i < |MonitorEnergy(s, m, ticks).events| && MonitorEnergy(s, m, ticks).events[i].Paused?
    ensures n < |ticks| && ticks[n].sample.energyUJ.Some?
    ensures MonitorEnergy(s, m, ticks).events[i]
         == Paused(ticks[n].cycle.pauseID, CumulativeJ(s, start, MonitorAt(s, m, ticks, n), FrozenAt(MonitorAt(s, m, ticks, n), ticks[n])))
    decreases |ticks|
  {
    hide OnTick, CumulativeJ, FrozenAt, Coupled;
    TickReports(s, start, m, ticks[0]);
    var r := OnTick(s, m, ticks[0]);
    if i < |r.events| {
      n := 0;
      assert ticks[..0] == [];
    } else {
      TickKeeps(s, start, m, ticks[0]);
      var k := EveryReportIsTrue(s, start, r.monitor, ticks[1..], i - |r.events|);
      n := k + 1;
      assert ticks[..n][0] == ticks[0] && ticks[..n][1..] == ticks[1..][..k];
    }
  }

  // --------------------------------------------------------------------------------- settled kills

  /** A pause that was not measured changes nothing of the meter and the marks; a measured one stays frozen until resumed. */
  predicate KeepsMeasure(before: Book, q: Progress) {
    && (!before.meter.frozen ==> q.exec.book == before)
    && (before.meter.frozen && !q.exit.Resumed? ==> q.exec.book.meter.frozen)
  }

  lemma ObeyKeepsMeasure(s: Socket, e: EnergyState, x: Exec, cycle: PauseCycle, p: Poll)
    ensures KeepsMeasure(x.book, Obey(s, e, x, cycle, p))
  {
    hide Obey, NeverKill, AttributionDetail;
    ObeyIs(s, e, x, cycle, p);
  }

  lemma {:induction false} LoopKeepsMeasure(s: Socket, e: EnergyState, x: Exec, cycle: PauseCycle, postedJ: real, polls: seq<Poll>)
    ensures KeepsMeasure(x.book, PollLoop(s, e, x, cycle, postedJ, polls))
    decreases |polls|
  {
    hide Obey;
    if polls != [] {
      ObeyKeepsMeasure(s, e, x, cycle, polls[0]);
      var q := Obey(s, e, x, cycle, polls[0]);
      if q.exit.Again? {
        LoopKeepsMeasure(s, e, q.exec, q.cycle, postedJ, polls[1..]);
      }
    }
  }

  /** A cycle killed without a measured freeze leaves the meter and the marks as it found them. */
  lemma KilledUnmeasured(s: Socket, e: EnergyState, x: Exec, stepJ: real, env: CycleEnv)
    requires !x.book.meter.frozen
    ensures var q := RunPauseCycle(s, e, x, stepJ, env);
            q.exit.Killed? && !q.exec.book.meter.frozen ==> q.exec.book == x.book
  {
    hide PollLoop, NeverKill, AttributedUJ;
    var ctl := FreezeReply(x.ctl, env.pauseID, env.freezeOk).ctl;
    var (x2, cycle2) := EnterFreeze(s, e, x.(ctl := ctl), stepJ, NewCycle(e, env.pauseID, e.consumedBeforeJ + stepJ), env.freezeSample);
    LoopKeepsMeasure(s, e, x2, cycle2, cycle2.energyAtEffectiveFreezeJ, env.polls);
  }

  /** The settled energy of a kill is the step's, by the formula over the marks it leaves. */
  predicate SettledByFormula(s: Socket, start: Reading, m: Monitor, t: Tick) {
    && t.sample.energyUJ.Some?
    && m.result.consumedJ == Joules(Segmented(s, start, DecidedAt(t), m.exec.book.marks).attributedUJ)
    && m.result.pauseID == if m.energy.pauseEnabled then t.cycle.pauseID else ""
  }

  lemma CycleNamesItsPause(s: Socket, e: EnergyState, x: Exec, stepJ: real, env: CycleEnv)
    ensures RunPauseCycle(s, e, x, stepJ, env).cycle.pauseID == env.pauseID
  {
    hide PollLoop, CloseSegment, NeverKill;
    var ctl := FreezeReply(x.ctl, env.pauseID, env.freezeOk).ctl;
    var (x2, cycle2) := EnterFreeze(s, e, x.(ctl := ctl), stepJ, NewCycle(e, env.pauseID, e.consumedBeforeJ + stepJ), env.freezeSample);
    LoopNamesItsPause(s, e, x2, cycle2, cycle2.energyAtEffectiveFreezeJ, env.polls);
  }

  lemma {:induction false} LoopNamesItsPause(s: Socket, e: EnergyState, x: Exec, cycle: PauseCycle, postedJ: real, polls: seq<Poll>)
    ensures PollLoop(s, e, x, cycle, postedJ, polls).cycle.pauseID == cycle.pauseID
    decreases |polls|
  {
    hide Obey;
    if polls != [] {
      ObeyReportsNothing(s, e, x, cycle, polls[0]);
      var q := Obey(s, e, x, cycle, polls[0]);
      LoopNamesItsPause(s, e, q.exec, q.cycle, postedJ, polls[1..]);
    }
  }

  lemma TickSettles(s: Socket, start: Reading, m: Monitor, t: Tick)
    requires Ready(s, start, m) && OnTick(s, m, t).status.StepKilled?
    ensures SettledByFormula(s, start, OnTick(s, m, t).monitor, t)
  {
    hide Coupled, RunPauseCycle, MeterUJ, Segmented, NeverKill;
    var at := DecidedAt(t);
    var stepJ := Joules(MeterUJ(s, m.exec.book.meter, at));
    MeterShowsSegmented(s, start, m.exec.book, at);
    CycleKeeps(s, start, m.energy, m.exec, stepJ, t.cycle);
    KilledUnmeasured(s, m.energy, m.exec, stepJ, t.cycle);
    CycleNamesItsPause(s, m.energy, m.exec, stepJ, t.cycle);
    var p := RunPauseCycle(s, m.energy, m.exec, stepJ, t.cycle);
    FrozenShowsSegmented(s, start, p.exec.book, at);
  }

  lemma FrozenShowsSegmented(s: Socket, start: Reading, b: Book, now: Reading)
    requires Coupled(s, start, b)
    ensures b.meter.frozen ==> Segmented(s, start, now, b.marks).attributedUJ == b.meter.closedUJ
  {
    MeterShowsSegmented(s, start, b, now);
    hide Segmented, Coupled;
  }

  /**
   Every kill, by a cycle or locally, with an effective freeze or without, is settled at the step's
   energy by the formula: at its freeze if it was measured, at the reading that decided it otherwise;
   and under its own pause's id, none for a local one.
   */
  lemma {:induction false} EveryKillIsSettledByFormula(s: Socket, start: Reading, m: Monitor, ticks: seq<Tick>)
    requires Ready(s, start, m) && MonitorEnergy(s, m, ticks).status.StepKilled?
    ensures var n := QuietTicks(s, m, ticks);
            n < |ticks| && SettledByFormula(s, start, MonitorEnergy(s, m, ticks).monitor, ticks[n])
    decreases |ticks|
  {
    hide OnTick, Coupled, SettledByFormula;
    var r := OnTick(s, m, ticks[0]);
    if r.status.Monitoring? {
      TickKeeps(s, start, m, ticks[0]);
      EveryKillIsSettledByFormula(s, start, r.monitor, ticks[1..]);
    } else {
      TickSettles(s, start, m, ticks[0]);
    }
  }

  /** The recorded cause of a kill is the cycle's, or says that there was none. */
  lemma TickKillCause(s: Socket, m: Monitor, t: Tick)
    requires OnTick(s, m, t).status.StepKilled?
    ensures var stepJ := Joules(MeterUJ(s, m.exec.book.meter, DecidedAt(t)));
            var exit := RunPauseCycle(s, m.energy, m.exec, stepJ, t.cycle).exit;
            if m.energy.pauseEnabled then exit == Killed(OnTick(s, m, t).monitor.result.killCause)
            else OnTick(s, m, t).monitor.result.killCause == "THRESHOLD_NO_PAUSE"
  {
    hide RunPauseCycle, MeterUJ, NeverKill;
  }

  /** Why a cycle killed, in the words the record and the logs use. */
  lemma KillCauses(s: Socket, e: EnergyState, x: Exec, stepJ: real, env: CycleEnv)
    requires x.ctl.state == Running && RunPauseCycle(s, e, x, stepJ, env).exit.Killed?
    ensures var cause := RunPauseCycle(s, e, x, stepJ, env).exit.cause;
            if !env.freezeOk then cause == "FREEZE_FAILED"
            else
              env.polls != [] &&
              match env.polls[0].answer
              case ChannelFailed => cause == "PAUSE_CHANNEL_FAILED"
              case Command(command, pauseID, _, reason) =>
                if pauseID != env.pauseID then cause == "PAUSE_ID_MISMATCH"
                else if command == "RESUME_EXECUTION" then cause == "RESUME_FAILED"
                else if command == "KILL_EXECUTION" then cause == "SCHEDULER_COMMAND:" + reason
                else if command == "WAIT_EXECUTION" then cause == "UNEXPECTED_WAIT_COMMAND"
                else cause == "UNKNOWN_SCHEDULER_COMMAND"
  {
    CycleNeverKillsUnkillable(s, e, x, stepJ, env);
    hide CloseSegment, Obey, NeverKill, RefineCycle, OpenSegment;
    if env.freezeOk && env.polls != [] {
      var ctl := FreezeReply(x.ctl, env.pauseID, env.freezeOk).ctl;
      var (x2, cycle2) := EnterFreeze(s, e, x.(ctl := ctl), stepJ, NewCycle(e, env.pauseID, e.consumedBeforeJ + stepJ), env.freezeSample);
      ObeyIs(s, e, x2, cycle2, env.polls[0]);
    }
  }

  // -------------------------------------------------------------------------------- recorded cycles

  /** What a cycle keeps of its record while it waits and when it ends. */
  predicate RecordKept(before: PauseCycle, after: PauseCycle) {
    && after.pauseID == before.pauseID
    && after.energyAtThresholdJ == before.energyAtThresholdJ
    && after.executionThresholdJ == before.executionThresholdJ
  }

  /** The energy at the freeze follows the closed segments of a measured pause, and stays put otherwise. */
  predicate FreezeEnergyKept(e: EnergyState, x: Exec, cycle: PauseCycle, q: Progress) {
    q.cycle.energyAtEffectiveFreezeJ
    == if x.book.meter.frozen then e.consumedBeforeJ + Joules(q.exec.book.meter.closedUJ) else cycle.energyAtEffectiveFreezeJ
  }

  lemma ObeyKeepsRecord(s: Socket, e: EnergyState, x: Exec, cycle: PauseCycle, p: Poll)
    requires x.book.meter.frozen ==> cycle.energyAtEffectiveFreezeJ == e.consumedBeforeJ + Joules(x.book.meter.closedUJ)
    ensures RecordKept(cycle, Obey(s, e, x, cycle, p).cycle) && FreezeEnergyKept(e, x, cycle, Obey(s, e, x, cycle, p))
  {
    hide Obey, NeverKill, AttributionDetail;
    ObeyIs(s, e, x, cycle, p);
  }

  lemma {:induction false} LoopKeepsRecord(s: Socket, e: EnergyState, x: Exec, cycle: PauseCycle, postedJ: real, polls: seq<Poll>)
    requires x.book.meter.frozen ==> cycle.energyAtEffectiveFreezeJ == e.consumedBeforeJ + Joules(x.book.meter.closedUJ)
    ensures var q := PollLoop(s, e, x, cycle, postedJ, polls);
            RecordKept(cycle, q.cycle) && FreezeEnergyKept(e, x, cycle, q)
    decreases |polls|
  {
    hide Obey;
    if polls != [] {
      ObeyKeepsRecord(s, e, x, cycle, polls[0]);
      ObeyKeepsMeasure(s, e, x, cycle, polls[0]);
      var q := Obey(s, e, x, cycle, polls[0]);
      if q.exit.Again? {
        LoopKeepsRecord(s, e, q.exec, q.cycle, postedJ, polls[1..]);
      }
    }
  }

  /** The freeze was effective and its reading usable. */
  predicate Measured(m: Monitor, t: Tick) {
    FrozenFor(m, t) && t.cycle.freezeSample.energyUJ.Some? && t.cycle.freezeSample.ticks >= m.exec.book.meter.segment.ticks
  }

  predicate FrozenFor(m: Monitor, t: Tick) {
    !FreezeReply(m.exec.ctl, t.cycle.pauseID, t.cycle.freezeOk).failed
  }

  /** The record of this tick's cycle, as it stands at the end of the tick. */
  predicate TrueRecord(s: Socket, start: Reading, m: Monitor, t: Tick, after: Book, c: PauseCycle) {
    && c.pauseID == t.cycle.pauseID
    && c.energyAtThresholdJ == CumulativeJ(s, start, m, DecidedAt(t))
    && c.executionThresholdJ == m.energy.executionThresholdJ
    && c.energyAtEffectiveFreezeJ
       == if Measured(m, t) then m.energy.consumedBeforeJ + Joules(Total(s, Closed(start, after.marks)).attributedUJ)
          else if FrozenFor(m, t) then CumulativeJ(s, start, m, DecidedAt(t))
          else 0.0
  }

  lemma CycleKeepsRecord(s: Socket, e: EnergyState, x: Exec, stepJ: real, env: CycleEnv)
    requires !x.book.meter.frozen
    ensures var q := RunPauseCycle(s, e, x, stepJ, env);
            && q.cycle.pauseID == env.pauseID
            && q.cycle.energyAtThresholdJ == e.consumedBeforeJ + stepJ
            && q.cycle.executionThresholdJ == e.executionThresholdJ
            && q.cycle.energyAtEffectiveFreezeJ
               == if FreezeReply(x.ctl, env.pauseID, env.freezeOk).failed then 0.0
                  else if FreezeUsable(x.book, env.freezeSample) then e.consumedBeforeJ + Joules(q.exec.book.meter.closedUJ)
                  else e.consumedBeforeJ + stepJ
  {
    hide PollLoop, AttributedUJ, NeverKill, Joules;
    var reply := FreezeReply(x.ctl, env.pauseID, env.freezeOk);
    var (x2, cycle2) := EnterFreeze(s, e, x.(ctl := reply.ctl), stepJ, NewCycle(e, env.pauseID, e.consumedBeforeJ + stepJ), env.freezeSample);
    LoopKeepsRecord(s, e, x2, cycle2, cycle2.energyAtEffectiveFreezeJ, env.polls);
  }

  lemma CoupledClosed(s: Socket, start: Reading, b: Book)
    requires Coupled(s, start, b)
    ensures b.meter.closedUJ == Total(s, Closed(start, b.marks)).attributedUJ
  {}

  lemma CycleRecord(s: Socket, start: Reading, m: Monitor, t: Tick)
    requires Ready(s, start, m) && t.sample.energyUJ.Some?
    ensures var p := RunPauseCycle(s, m.energy, m.exec, Joules(MeterUJ(s, m.exec.book.meter, DecidedAt(t))), t.cycle);
            TrueRecord(s, start, m, t, p.exec.book, p.cycle)
  {
    hide RunPauseCycle, Total, Closed, Coupled, CumulativeJ, MeterUJ, DecidedAt, FreezeReply;
    var stepJ := Joules(MeterUJ(s, m.exec.book.meter, DecidedAt(t)));
    MeterIsFormula(s, start, m, DecidedAt(t));
    CycleKeeps(s, start, m.energy, m.exec, stepJ, t.cycle);
    CycleKeepsRecord(s, m.energy, m.exec, stepJ, t.cycle);
    CoupledClosed(s, start, RunPauseCycle(s, m.energy, m.exec, stepJ, t.cycle).exec.book);
  }

  /**
   A tick adds one record exactly when it ends a pause cycle, and that record tells the pause's id,
   the sequence's energy at the decision and at the freeze, late CPU time included, and the threshold
   that was in force.
   */
  lemma TickRecords(s: Socket, start: Reading, m: Monitor, t: Tick)
    requires Ready(s, start, m)
    ensures var r := OnTick(s, m, t);
            var before, after := m.result.cycles, r.monitor.result.cycles;
            if Reached(s, start, m, t) && m.energy.pauseEnabled && !r.status.Waiting? then
              && |after| == |before| + 1 && after[..|before|] == before
              && TrueRecord(s, start, m, t, r.monitor.exec.book, after[|before|])
            else
              after == before
  {
    if t.sample.energyUJ.Some? {
      CycleRecord(s, start, m, t);
      MeterIsFormula(s, start, m, DecidedAt(t));
    }
    hide RunPauseCycle, MeterUJ, Segmented, TrueRecord, Ready, NeverKill;
  }

  // --------------------------------------------------------------------------------- whose events

  /** Every operation, kill and report in these events is for this pause. */
  predicate NamedFor(events: seq<Event>, pauseID: string) {
    forall i :: 0 <= i < |events| ==>
      match events[i]
      case Kernel(op) => op.pauseID == pauseID
      case KillCalled(id) => id == pauseID
      case Paused(id, _) => id == pauseID
      case _ => true
  }

  lemma ObeyNames(s: Socket, e: EnergyState, x: Exec, cycle: PauseCycle, p: Poll)
    ensures NamedFor(Obey(s, e, x, cycle, p).events, cycle.pauseID)
  {
    hide Obey, NeverKill, RefineSegment, OpenSegment;
    ObeyIs(s, e, x, cycle, p);
  }

  lemma {:induction false} LoopNames(s: Socket, e: EnergyState, x: Exec, cycle: PauseCycle, postedJ: real, polls: seq<Poll>)
    ensures NamedFor(PollLoop(s, e, x, cycle, postedJ, polls).events, cycle.pauseID)
    decreases |polls|
  {
    hide Obey;
    if polls != [] {
      ObeyNames(s, e, x, cycle, polls[0]);
      ObeyReportsNothing(s, e, x, cycle, polls[0]);
      var q := Obey(s, e, x, cycle, polls[0]);
      if q.exit.Again? {
        LoopNames(s, e, q.exec, q.cycle, postedJ, polls[1..]);
      }
    }
  }

  lemma NamedConcat(a: seq<Event>, b: seq<Event>, pauseID: string)
    requires NamedFor(a, pauseID) && NamedFor(b, pauseID)
    ensures NamedFor(a + b, pauseID)
  {}

  lemma IssuedIsNamed(before: Ctl, call: Call)
    ensures NamedFor(Issued(before, Apply(before, call).ctl), call.pauseID)
  {}

  lemma CycleNames(s: Socket, e: EnergyState, x: Exec, stepJ: real, env: CycleEnv)
    ensures NamedFor(RunPauseCycle(s, e, x, stepJ, env).events, env.pauseID)
  {
    var freeze, kill := Call(FreezeGroup, env.pauseID, env.freezeOk), Call(KillGroup, env.pauseID, env.killOk);
    var c1 := Apply(x.ctl, freeze).ctl;
    var c2 := Apply(c1, kill).ctl;
    hide PollLoop, CloseSegment, NeverKill, NamedFor, Issued;
    IssuedIsNamed(x.ctl, freeze);
    IssuedIsNamed(c1, kill);
    KillCallIsNamed(env.pauseID);
    NamedConcat(Issued(x.ctl, c1), [KillCalled(env.pauseID)], env.pauseID);
    NamedConcat(Issued(x.ctl, c1) + [KillCalled(env.pauseID)], Issued(c1, c2), env.pauseID);
    var (x2, cycle2) := EnterFreeze(s, e, x.(ctl := c1), stepJ, NewCycle(e, env.pauseID, e.consumedBeforeJ + stepJ), env.freezeSample);
    LoopNames(s, e, x2, cycle2, cycle2.energyAtEffectiveFreezeJ, env.polls);
    NamedConcat(Issued(x.ctl, c1), PollLoop(s, e, x2, cycle2, cycle2.energyAtEffectiveFreezeJ, env.polls).events, env.pauseID);
  }

  lemma KillCallIsNamed(pauseID: string)
    ensures NamedFor([KillCalled(pauseID)], pauseID)
  {}

  /** All a tick does to the kernel and says of pauses is for its own pause, or for none if it kills locally. */
  lemma TickNames(s: Socket, m: Monitor, t: Tick)
    ensures NamedFor(OnTick(s, m, t).events, if m.energy.pauseEnabled then t.cycle.pauseID else "")
  {
    hide RunPauseCycle, MeterUJ, NeverKill;
    if t.sample.energyUJ.Some? {
      CycleNames(s, m.energy, m.exec, Joules(MeterUJ(s, m.exec.book.meter, DecidedAt(t))), t.cycle);
    }
  }
}
