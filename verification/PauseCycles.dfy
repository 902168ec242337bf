/**
 The energy monitor and its pause cycles (openwhisk/energyMonitor.go), against an arbitrary
 scheduler and kernel.

 Everything the outside world decides is a parameter: the readings of each tick, whether each
 kernel operation succeeds, and what the scheduler answers to each EXECUTION_PAUSED. A run is
 given by finitely many ticks and answers; as every finite prefix of an endless wait is such a
 run, what holds of all runs holds at every moment of every wait.
 */
module PauseCycles {
  import opened Attribution
  import opened Options
  import opened Metering
  import opened Controller
  import opened EnergyStates

  function Joules(uj: int): real {
    uj as real / 1000000.0
  }

  // ------------------------------------------------------------------------ interruption class

  const UNKILLABLE := "UNKILLABLE"

  /** The class map was carried but this step's own name could not be decoded. */
  predicate ClassUnresolved(e: EnergyState) {
    e.interruptionClass.Some? && e.resolvedActionName == ""
  }

  /** This step must never be killed: declared so, or its class cannot be known. */
  predicate NeverKill(e: EnergyState) {
    match e.interruptionClass
    case None => false
    case Some(classes) =>
      e.resolvedActionName == ""
      || (e.resolvedActionName in classes && classes[e.resolvedActionName] == UNKILLABLE)
  }

  predicate ShouldMonitor(energy: Option<EnergyState>) {
    match energy
    case None => false
    case Some(e) => e.executionThresholdJ > 0.0 && !ClassUnresolved(e)
  }

  /** Only a genuinely unkillable step is monitored as one; a name absent from the map is enforced. */
  lemma MonitoredMeansResolved(e: EnergyState)
    requires ShouldMonitor(Some(e))
    ensures NeverKill(e) <==> e.interruptionClass.Some? && (e.resolvedActionName, UNKILLABLE) in e.interruptionClass.value.Items
  {}

  // -------------------------------------------------------------------- the outside world's part

  datatype Answer =
    | ChannelFailed
    | Command(command: string, pauseID: string, newThresholdJ: real, reason: string)

  /** One EXECUTION_PAUSED round trip, and what its branch will find if it touches the cgroup. */
  datatype Poll = Poll(
    answer: Answer,
    ticksBeforeUnfreeze: int,
    unfreezeOk: bool,
    resumeSample: Sample,
    nowNs: int,
    ticksBeforeKill: int,
    killOk: bool)

  datatype CycleEnv = CycleEnv(pauseID: string, freezeOk: bool, freezeSample: Sample, killOk: bool, polls: seq<Poll>)

  datatype Tick = Tick(sample: Sample, killOk: bool, cycle: CycleEnv)

  /** What an observer of the runtime sees, in order. */
  datatype Event =
    | Kernel(op: KernelOp)
    | KillCalled(pauseID: string)
    | Paused(pauseID: string, energyConsumedJ: real)
    | Answered(answer: Answer)
    | InForce(thresholdJ: real)

  // ---------------------------------------------------------------------------- one pause cycle

  datatype PauseCycle = PauseCycle(
    pauseID: string,
    energyAtThresholdJ: real,
    executionThresholdJ: real,
    energyAtEffectiveFreezeJ: real,
    cpuUsecWhileFrozen: Option<int>,
    energyAtResumeEffectiveJ: real,
    outcome: string)

  /** The controller, the meter and the marks: what a cycle works on. */
  datatype Exec = Exec(ctl: Ctl, book: Book)

  datatype Exit =
    | Again                       // poll again
    | Resumed(thresholdJ: real)
    | Unfrozen                    // freeze failed, step goes on
    | Killed(cause: string)

  datatype Progress = Progress(exec: Exec, cycle: PauseCycle, events: seq<Event>, exit: Exit) {
    function After(events': seq<Event>): Progress {
      this.(events := events' + events)
    }
  }

  lemma AfterTwice(p: Progress, first: seq<Event>, second: seq<Event>)
    ensures p.After(second).After(first) == p.After(first + second)
  {
    assert first + (second + p.events) == (first + second) + p.events;
  }

  function Issued(before: Ctl, after: Ctl): seq<Event> {
    if |after.ops| > |before.ops| then [Kernel(after.ops[|after.ops| - 1])] else []
  }

  /** The last reading before leaving a freeze, reported in the cycle's record. */
  function RefineCycle(s: Socket, e: EnergyState, x: Exec, cycle: PauseCycle, ticks: int): (Exec, PauseCycle) {
    if !x.book.meter.frozen then
      (x, cycle)
    else
      var book := RefineSegment(s, x.book, ticks);
      (x.(book := book),
       cycle.(cpuUsecWhileFrozen := Some(LateTicks(x.book.meter, ticks)),
              energyAtEffectiveFreezeJ := e.consumedBeforeJ + Joules(book.meter.closedUJ)))
  }

  function KillFrozen(s: Socket, e: EnergyState, x: Exec, cycle: PauseCycle, p: Poll, cause: string): Progress {
    var (x', cycle') := RefineCycle(s, e, x, cycle, p.ticksBeforeKill);
    var ctl := KillReply(x'.ctl, cycle.pauseID, p.killOk).ctl;
    Progress(x'.(ctl := ctl), cycle', [KillCalled(cycle.pauseID)] + Issued(x'.ctl, ctl), Killed(cause))
  }

  /** "Cannot safely continue": kill, unless the step must never be killed, which polls again. */
  function KillOrRetry(s: Socket, e: EnergyState, x: Exec, cycle: PauseCycle, p: Poll, cause: string): Progress {
    if NeverKill(e) then Progress(x, cycle, [], Again) else KillFrozen(s, e, x, cycle, p, cause)
  }

  function ObeyResume(s: Socket, e: EnergyState, x: Exec, cycle: PauseCycle, p: Poll): Progress
    requires p.answer.Command?
  {
    var (x1, cycle1) := RefineCycle(s, e, x, cycle, p.ticksBeforeUnfreeze);
    var reply := ResumeReply(x1.ctl, cycle.pauseID, p.unfreezeOk);
    var x2, issued := x1.(ctl := reply.ctl), Issued(x1.ctl, reply.ctl);
    if reply.failed then
      KillOrRetry(s, e, x2, cycle1, p, "RESUME_FAILED").After(issued)
    else
      Progress(x2.(book := OpenSegment(x2.book, p.resumeSample, p.nowNs)),
               cycle1.(energyAtResumeEffectiveJ := cycle1.energyAtEffectiveFreezeJ, outcome := "resumed"),
               issued,
               Resumed(p.answer.newThresholdJ))
  }

  /** What the runtime does with one answer. */
  function Obey(s: Socket, e: EnergyState, x: Exec, cycle: PauseCycle, p: Poll): Progress {
    match p.answer
    case ChannelFailed => KillOrRetry(s, e, x, cycle, p, "PAUSE_CHANNEL_FAILED")
    case Command(command, pauseID, _, reason) =>
      if pauseID != cycle.pauseID then
        KillOrRetry(s, e, x, cycle, p, "PAUSE_ID_MISMATCH")
      else if command == "RESUME_EXECUTION" then
        ObeyResume(s, e, x, cycle, p)
      else if command == "WAIT_EXECUTION" then
        if !NeverKill(e) then KillOrRetry(s, e, x, cycle, p, "UNEXPECTED_WAIT_COMMAND")
        else Progress(x, cycle.(outcome := "queued_wait"), [], Again)
      else if command == "KILL_EXECUTION" then
        if NeverKill(e) then Progress(x, cycle, [], Again)
        else KillFrozen(s, e, x, cycle, p, "SCHEDULER_COMMAND:" + reason)
      else
        KillOrRetry(s, e, x, cycle, p, "UNKNOWN_SCHEDULER_COMMAND")
  }

  /** The one answer that lets a paused step go on. */
  predicate Authorizes(a: Answer, pauseID: string) {
    a.Command? && a.pauseID == pauseID && a.command == "RESUME_EXECUTION"
  }

  /** Why an answer that does not authorize this pause gets a killable step killed. */
  function CauseOf(a: Answer, pauseID: string): string {
    match a
    case ChannelFailed => "PAUSE_CHANNEL_FAILED"
    case Command(command, id, _, reason) =>
      if id != pauseID then "PAUSE_ID_MISMATCH"
      else if command == "WAIT_EXECUTION" then "UNEXPECTED_WAIT_COMMAND"
      else if command == "KILL_EXECUTION" then "SCHEDULER_COMMAND:" + reason
      else "UNKNOWN_SCHEDULER_COMMAND"
  }

  /** The outcome noted in the record of a pause that goes on. */
  function OutcomeOf(a: Answer, cycle: PauseCycle): string {
    if a.Command? && a.pauseID == cycle.pauseID && a.command == "WAIT_EXECUTION" then "queued_wait" else cycle.outcome
  }

  /** Every answer but the authorization has one effect: kill, or stay frozen and ask again. */
  lemma ObeyIs(s: Socket, e: EnergyState, x: Exec, cycle: PauseCycle, p: Poll)
    ensures Obey(s, e, x, cycle, p)
         == if Authorizes(p.answer, cycle.pauseID) then ObeyResume(s, e, x, cycle, p)
            else if NeverKill(e) then Progress(x, cycle.(outcome := OutcomeOf(p.answer, cycle)), [], Again)
            else KillFrozen(s, e, x, cycle, p, CauseOf(p.answer, cycle.pauseID))
  {
    hide KillFrozen, ObeyResume, NeverKill;
  }

  /** Report the freeze and obey, until an answer ends the cycle; `Again` when answers run out. */
  function PollLoop(s: Socket, e: EnergyState, x: Exec, cycle: PauseCycle, postedJ: real, polls: seq<Poll>): Progress
    decreases |polls|
  {
    if polls == [] then
      Progress(x, cycle, [], Again)
    else
      var p := Obey(s, e, x, cycle, polls[0]).After([Paused(cycle.pauseID, postedJ), Answered(polls[0].answer)]);
      if p.exit.Again? then
        PollLoop(s, e, p.exec, p.cycle, postedJ, polls[1..]).After(p.events)
      else
        p
  }

  function NewCycle(e: EnergyState, pauseID: string, energyAtThresholdJ: real): PauseCycle {
    PauseCycle(pauseID, energyAtThresholdJ, e.executionThresholdJ, 0.0, None, 0.0, "killed")
  }

  /** Once the cgroup is confirmed frozen: close the segment and note the energy at the freeze. */
  function EnterFreeze(s: Socket, e: EnergyState, x: Exec, stepJ: real, cycle: PauseCycle, sample: Sample): (Exec, PauseCycle) {
    var book := CloseSegment(s, x.book, sample);
    var frozenStepJ := if FreezeUsable(x.book, sample) then Joules(book.meter.closedUJ) else stepJ;
    (x.(book := book), cycle.(energyAtEffectiveFreezeJ := e.consumedBeforeJ + frozenStepJ))
  }

  function RunPauseCycle(s: Socket, e: EnergyState, x: Exec, stepJ: real, env: CycleEnv): Progress {
    var cycle := NewCycle(e, env.pauseID, e.consumedBeforeJ + stepJ);
    var reply := FreezeReply(x.ctl, env.pauseID, env.freezeOk);
    var x1, issued := x.(ctl := reply.ctl), Issued(x.ctl, reply.ctl);
    if reply.failed then
      if NeverKill(e) then
        Progress(x1, cycle, issued, Unfrozen)
      else
        var ctl := KillReply(x1.ctl, env.pauseID, env.killOk).ctl;
        Progress(x1.(ctl := ctl), cycle, issued + [KillCalled(env.pauseID)] + Issued(x1.ctl, ctl), Killed("FREEZE_FAILED"))
    else
      var (x2, cycle2) := EnterFreeze(s, e, x1, stepJ, cycle, env.freezeSample);
      PollLoop(s, e, x2, cycle2, cycle2.energyAtEffectiveFreezeJ, env.polls).After(issued)
  }

  // --------------------------------------------------------------------------------- the monitor

  datatype Result = Result(
    killed: bool,
    consumedJ: real,
    pauseID: string,
    thresholdJ: real,
    thresholdUpdated: bool,
    killCause: string,
    cycles: seq<PauseCycle>)

  const NO_RESULT := Result(false, 0.0, "", 0.0, false, "", [])

  /** The monitor's private state; `energy` is its own copy, whose threshold evolves. */
  datatype Monitor = Monitor(exec: Exec, energy: EnergyState, result: Result)

  datatype Status =
    | Monitoring
    | Waiting        // frozen, no further answer yet
    | LocalKillRefused
    | StepKilled

  datatype Run = Run(monitor: Monitor, events: seq<Event>, status: Status) {
    function After(events': seq<Event>): Run {
      this.(events := events' + events)
    }
  }

  function KillLocally(m: Monitor, stepJ: real, killOk: bool): Run {
    var ctl := KillReply(m.exec.ctl, "", killOk).ctl;
    Run(m.(exec := m.exec.(ctl := ctl),
           result := m.result.(killed := true, consumedJ := stepJ, pauseID := "", killCause := "THRESHOLD_NO_PAUSE")),
        [KillCalled("")] + Issued(m.exec.ctl, ctl),
        StepKilled)
  }

  /** What the monitor does with the end of a pause cycle. */
  function Conclude(m: Monitor, stepJ: real, p: Progress): Run {
    var recorded := m.result.(cycles := m.result.cycles + [p.cycle]);
    match p.exit
    case Again => Run(m.(exec := p.exec), p.events, Waiting)
    case Killed(cause) =>
      var killedStepJ := if p.exec.book.meter.frozen then Joules(p.exec.book.meter.closedUJ) else stepJ;
      Run(m.(exec := p.exec,
             result := recorded.(killed := true, consumedJ := killedStepJ, pauseID := p.cycle.pauseID, killCause := cause)),
          p.events,
          StepKilled)
    case _ =>
      var thresholdJ := if p.exit.Resumed? then p.exit.thresholdJ else m.energy.executionThresholdJ;
      Run(Monitor(p.exec, m.energy.(executionThresholdJ := thresholdJ),
                  recorded.(thresholdJ := thresholdJ, thresholdUpdated := true)),
          p.events + [InForce(thresholdJ)],
          Monitoring)
  }

  function OnTick(s: Socket, m: Monitor, t: Tick): Run {
    if t.sample.energyUJ.None? then
      Run(m, [], Monitoring)
    else
      var stepJ := Joules(MeterUJ(s, m.exec.book.meter, t.sample.At(t.sample.energyUJ.value)));
      if m.energy.consumedBeforeJ + stepJ < m.energy.executionThresholdJ then
        Run(m, [], Monitoring)
      else if !m.energy.pauseEnabled then
        if NeverKill(m.energy) then Run(m, [], LocalKillRefused) else KillLocally(m, stepJ, t.killOk)
      else
        Conclude(m, stepJ, RunPauseCycle(s, m.energy, m.exec, stepJ, t.cycle))
  }

  /** All ticks until the monitor stops; `Monitoring` when told to stop between two ticks. */
  function MonitorEnergy(s: Socket, m: Monitor, ticks: seq<Tick>): Run
    decreases |ticks|
  {
    if ticks == [] then
      Run(m, [], Monitoring)
    else
      var r := OnTick(s, m, ticks[0]);
      if r.status.Monitoring? then MonitorEnergy(s, r.monitor, ticks[1..]).After(r.events) else r
  }

  /** The monitor of an invocation: its own meter, no mark yet, a copy of the caller's state. */
  function Started(ctl: Ctl, start: Reading, energy: EnergyState): Monitor {
    Monitor(Exec(ctl, Book(NewMeter(start), [])), energy, NO_RESULT)
  }
}
