/**
 One executor serving invocations one after the other (openwhisk/executor.go): the interleavings
 of Interact, the monitor it starts, the action's answer and the process's exit.

 Each action below is one step of one of these four; a run is any sequence of enabled actions. The
 monitor is the one of `PauseCycles`, cut where others can come in between: at each tick, and
 inside a pause at each answer of the scheduler. It returns only where its code does: stopped
 between two ticks, after a kill, after a local kill it refused, or when it has no first reading.

 The exit is a closed channel, which nothing can use up (see `ExitBroadcast`).
 */
module Interactions {
  import opened Attribution
  import opened Options
  import opened Segments
  import opened Metering
  import opened Controller
  import opened EnergyStates
  import opened PauseCycles
  import opened PauseCycleLaws
  import opened PauseCycleOutcomes
  import opened PauseCycleThresholds
  import opened RunHandler

  datatype Action =
    // Interact
    | Begin(energy: Option<EnergyState>)   // reset the marks, start the monitor
    | Select                               // an answer or the exit is received; stop the monitor
    | Join                                 // the monitor has finished: read its kill
    | Publish                              // hand the last threshold back to the caller
    | Release                              // the caller is done with this invocation
    // the monitor
    | MonitorStarts(start: Sample)         // copy the caller's state, take the first reading
    | MonitorTicks(tick: Tick)             // up to the first report of a pause, if it begins one
    | MonitorObeys(poll: Poll)             // one answer, obeyed up to the next report
    | MonitorStops                         // the stop is seen between two ticks
    // the child process
    | ActionAnswers
    | ProcessExits

  datatype Pc = Idle | Selecting | Joining | Publishing | Returned

  /**
   While it pauses, `m` is the monitor as the tick `tick` found it, and the answers so far are in
   `tick`. `Finished(None)` is a monitor whose first reading failed.
   */
  datatype MonitorPhase =
    | Absent
    | Starting
    | Watching(m: Monitor)
    | Pausing(m: Monitor, tick: Tick)
    | Finished(last: Option<Monitor>)

  /**
   `energy` is the caller's own state and `killInfo` what Interact reports. `dispatched`, `ctl`,
   `start` and `ticks` keep what the invocation began with and what the monitor has read since.
   */
  datatype State = State(
    pc: Pc,
    monitor: MonitorPhase,
    energy: Option<EnergyState>,
    stopped: bool,
    answered: bool,
    exited: bool,
    killInfo: Option<KillInfo>,
    dispatched: Option<EnergyState>,
    ctl: Ctl,
    start: Sample,
    ticks: seq<Tick>)

  const NO_READING := Sample(None, 0, 0)

  const INITIAL := State(Idle, Absent, None, false, false, false, None, None, STARTED, NO_READING, [])

  /** The monitor's fields as they are now, inside a pause included. */
  function MonitorNow(s: Socket, st: State): Option<Monitor> {
    match st.monitor
    case Watching(m) => Some(m)
    case Pausing(m, tick) => Some(OnTick(s, m, tick).monitor)
    case Finished(last) => last
    case _ => None
  }

  function ControllerNow(s: Socket, st: State): Ctl {
    match MonitorNow(s, st)
    case Some(m) => m.exec.ctl
    case None => st.ctl
  }

  function MarksNow(s: Socket, st: State): seq<FreezeMark> {
    match MonitorNow(s, st)
    case Some(m) => m.exec.book.marks
    case None => []
  }

  predicate Enabled(st: State, a: Action) {
    match a
    case Begin(_) => st.pc == Idle
    case Select => st.pc == Selecting && (st.answered || st.exited)
    case Join => st.pc == Joining && st.monitor.Finished?
    case Publish => st.pc == Publishing
    case Release => st.pc == Returned
    case MonitorStarts(_) => st.monitor.Starting?
    case MonitorTicks(tick) => st.monitor.Watching? && tick.cycle.polls == []
    case MonitorObeys(_) => st.monitor.Pausing?
    case MonitorStops => st.monitor.Watching? && st.stopped
    case ActionAnswers => true
    case ProcessExits => true
  }

  /** Where the monitor stands once it has taken `tick` with the answers in it. */
  function PhaseAfter(s: Socket, m: Monitor, tick: Tick): MonitorPhase {
    var r := OnTick(s, m, tick);
    match r.status
    case Monitoring => Watching(r.monitor)
    case Waiting => Pausing(m, tick)
    case _ => Finished(Some(r.monitor))
  }

  function WithAnswer(tick: Tick, poll: Poll): Tick {
    tick.(cycle := tick.cycle.(polls := tick.cycle.polls + [poll]))
  }

  function ButLast<T>(xs: seq<T>): seq<T> {
    if xs == [] then [] else xs[..|xs| - 1]
  }

  function Act(s: Socket, st: State, a: Action): State
    requires Enabled(st, a)
  {
    match a
    case Begin(energy) =>
      State(Selecting, if ShouldMonitor(energy) then Starting else Absent, energy, false, false, st.exited, None,
            energy, ControllerNow(s, st), NO_READING, [])
    case Select => st.(pc := if st.monitor.Absent? then Returned else Joining, stopped := true)
    case Join =>
      st.(pc := Publishing,
          killInfo := match st.monitor.last
            case Some(m) => if m.result.killed then Some(KillInfo(m.result.consumedJ, m.result.pauseID)) else None
            case None => None)
    case Publish =>
      st.(pc := Returned,
          energy := match MonitorNow(s, st)
            case Some(m) =>
              if st.energy.Some? && m.result.thresholdUpdated then
                Some(st.energy.value.(executionThresholdJ := m.result.thresholdJ))
              else
                st.energy
            case None => st.energy)
    case Release => st.(pc := Idle)
    case MonitorStarts(start) =>
      if start.energyUJ.None? || st.energy.None? then
        st.(monitor := Finished(None), start := start.(energyUJ := None))
      else
        st.(monitor := Watching(Started(st.ctl, start.At(start.energyUJ.value), st.energy.value)), start := start)
    case MonitorTicks(tick) => st.(monitor := PhaseAfter(s, st.monitor.m, tick), ticks := st.ticks + [tick])
    case MonitorObeys(poll) =>
      var tick := WithAnswer(st.monitor.tick, poll);
      st.(monitor := PhaseAfter(s, st.monitor.m, tick), ticks := ButLast(st.ticks) + [tick])
    case MonitorStops => st.(monitor := Finished(Some(st.monitor.m)))
    case ActionAnswers => st.(answered := true)
    case ProcessExits => st.(exited := true)
  }

  /** The state after these actions, if each was enabled when taken. */
  function ActAll(s: Socket, st: State, actions: seq<Action>): Option<State>
    decreases |actions|
  {
    if actions == [] then Some(st)
    else if Enabled(st, actions[0]) then ActAll(s, Act(s, st, actions[0]), actions[1..])
    else None
  }

  // ---------------------------------------------------------------------------------- the invariant

  /** The run of the monitor that this invocation has seen so far. */
  function RunOf(s: Socket, st: State): Option<Run> {
    MonitoredBy(s, st.ctl, st.dispatched, st.start, st.ticks)
  }

  /** The monitor stands where `PauseCycles` says it does after the same readings and answers. */
  predicate Follows(s: Socket, st: State) {
    var run := RunOf(s, st);
    match st.monitor
    case Absent => run == None
    case Starting => ShouldMonitor(st.dispatched) && st.ticks == []
    case Watching(m) => run.Some? && run.value.monitor == m && run.value.status.Monitoring?
    case Pausing(m, tick) =>
      && st.ticks != []
      && st.ticks[|st.ticks| - 1] == tick
      && FollowedBy(MonitoredBy(s, st.ctl, st.dispatched, st.start, ButLast(st.ticks)), m)
      && OnTick(s, m, tick).status.Waiting?
    case Finished(None) => run == None
    case Finished(Some(m)) => run.Some? && run.value.monitor == m && !run.value.status.Waiting?
  }

  predicate FollowedBy(run: Option<Run>, m: Monitor) {
    run.Some? && run.value.monitor == m && run.value.status.Monitoring?
  }

  predicate MonitorOver(st: State) {
    st.monitor.Absent? || st.monitor.Finished?
  }

  /** Who may hold what while the four of them interleave. */
  predicate Orderly(s: Socket, st: State) {
    && (st.pc == Idle || st.pc == Publishing || st.pc == Returned ==> MonitorOver(st))
    && (st.pc == Joining || st.pc == Publishing ==> !st.monitor.Absent?)
    && (st.pc == Selecting ==> !st.stopped)
    && (st.pc == Joining ==> st.stopped)
    && (st.pc == Selecting || st.pc == Joining || st.pc == Publishing ==> st.energy == st.dispatched)
    && (st.pc == Selecting || st.pc == Joining ==> st.killInfo == None)
    && (st.pc == Publishing ==> st.killInfo == KillInfoOf(RunOf(s, st)))
    && (st.pc == Returned ==> st.killInfo == KillInfoOf(RunOf(s, st)) && st.energy == EnergyAfter(st.dispatched, RunOf(s, st)))
  }

  predicate Sound(s: Socket, st: State) {
    Follows(s, st) && Orderly(s, st)
  }

  lemma {:induction false} MonitorEnergySnoc(s: Socket, m: Monitor, ticks: seq<Tick>, tick: Tick)
    requires MonitorEnergy(s, m, ticks).status.Monitoring?
    ensures var before := MonitorEnergy(s, m, ticks);
            MonitorEnergy(s, m, ticks + [tick]) == OnTick(s, before.monitor, tick).After(before.events)
    decreases |ticks|
  {
    hide OnTick;
    if ticks == [] {
      assert [tick][1..] == [];
      var r := OnTick(s, m, tick);
      assert Run(r.monitor, [], Monitoring).After(r.events) == Run(r.monitor, r.events, Monitoring);
      assert r.After([]) == r;
      assert ticks + [tick] == [tick];
    } else {
      var r := OnTick(s, m, ticks[0]);
      MonitorEnergySnoc(s, r.monitor, ticks[1..], tick);
      var rest := MonitorEnergy(s, r.monitor, ticks[1..]);
      var last := OnTick(s, rest.monitor, tick);
      assert (ticks + [tick])[0] == ticks[0] && (ticks + [tick])[1..] == ticks[1..] + [tick];
      assert r.events + (rest.events + last.events) == (r.events + rest.events) + last.events;
    }
  }

  /** Taking one more tick, with the answers it got, is one more tick of the run. */
  lemma TickFollowed(s: Socket, st: State, before: seq<Tick>, m: Monitor, tick: Tick)
    requires FollowedBy(MonitoredBy(s, st.ctl, st.dispatched, st.start, before), m)
    ensures Follows(s, st.(monitor := PhaseAfter(s, m, tick), ticks := before + [tick]))
  {
    hide OnTick, MonitorEnergy;
    var started := Started(st.ctl, st.start.At(st.start.energyUJ.value), st.dispatched.value);
    MonitorEnergySnoc(s, started, before, tick);
    assert ButLast(before + [tick]) == before;
  }

  lemma ActKeepsFollows(s: Socket, st: State, a: Action)
    requires Sound(s, st) && Enabled(st, a)
    ensures Follows(s, Act(s, st, a))
  {
    hide OnTick, MonitorEnergy, ShouldMonitor, PhaseAfter;
    match a {
      case Begin(energy) =>
        assert !ShouldMonitor(energy) ==> RunOf(s, Act(s, st, a)) == None;
      case MonitorStarts(start) => FollowsFromStart(s, st, start);
      case MonitorTicks(tick) => TickFollowed(s, st, st.ticks, st.monitor.m, tick);
      case MonitorObeys(poll) =>
        TickFollowed(s, st, ButLast(st.ticks), st.monitor.m, WithAnswer(st.monitor.tick, poll));
      case _ =>
    }
  }

  lemma FollowsFromStart(s: Socket, st: State, start: Sample)
    requires Sound(s, st) && st.monitor.Starting?
    ensures Follows(s, Act(s, st, MonitorStarts(start)))
  {
    hide OnTick;
  }

  lemma ActKeepsOrderly(s: Socket, st: State, a: Action)
    requires Sound(s, st) && Enabled(st, a)
    ensures Orderly(s, Act(s, st, a))
  {
    hide OnTick, MonitorEnergy, ShouldMonitor;
  }

  lemma {:induction false} RunKeepsSound(s: Socket, st: State, actions: seq<Action>)
    requires Sound(s, st) && ActAll(s, st, actions).Some?
    ensures Sound(s, ActAll(s, st, actions).value)
    decreases |actions|
  {
    if actions != [] {
      ActKeepsFollows(s, st, actions[0]);
      ActKeepsOrderly(s, st, actions[0]);
      hide Act, Enabled, Follows, Orderly;
      RunKeepsSound(s, Act(s, st, actions[0]), actions[1..]);
    }
  }

  lemma ReachedIsSound(s: Socket, actions: seq<Action>)
    requires ActAll(s, INITIAL, actions).Some?
    ensures Sound(s, ActAll(s, INITIAL, actions).value)
  {
    RunKeepsSound(s, INITIAL, actions);
  }

  /**
   Under every interleaving, over any number of invocations: until Interact publishes, the caller's
   state is the dispatched one; when it returns, the monitor is over, and what Interact hands back
   - the kill, the caller's state under the last threshold granted, the marks, the controller - is
   what `RunHandler.Interact` specifies for the readings and answers the monitor took.
   */
  lemma EveryInterleaving(s: Socket, actions: seq<Action>)
    requires ActAll(s, INITIAL, actions).Some?
    ensures var st := ActAll(s, INITIAL, actions).value;
            var run := RunOf(s, st);
            && (st.pc == Selecting || st.pc == Joining || st.pc == Publishing ==> st.energy == st.dispatched)
            && (st.pc == Returned ==>
                  && !(run.Some? && run.value.status.Waiting?)
                  && st.killInfo == KillInfoOf(run)
                  && st.energy == EnergyAfter(st.dispatched, run)
                  && MarksNow(s, st) == MarksOf(run)
                  && ControllerNow(s, st) == if run.Some? then run.value.monitor.exec.ctl else st.ctl)
  {
    hide ActAll, OnTick, MonitorEnergy, ShouldMonitor;
    ReachedIsSound(s, actions);
  }

  /** The monitor only ever decides on the dispatched threshold or on one granted since. */
  lemma MonitorNeverReadsALaterThreshold(s: Socket, actions: seq<Action>)
    requires ActAll(s, INITIAL, actions).Some?
    ensures var st := ActAll(s, INITIAL, actions).value;
            st.monitor.Watching? ==>
              && st.dispatched.Some? && RunOf(s, st).Some?
              && st.monitor.m.energy.executionThresholdJ
                 == LastInForce(st.dispatched.value.executionThresholdJ, RunOf(s, st).value.events)
  {
    hide ActAll, OnTick, MonitorEnergy;
    ReachedIsSound(s, actions);
    var st := ActAll(s, INITIAL, actions).value;
    if st.monitor.Watching? {
      ThresholdFollowsGrants(s, Started(st.ctl, st.start.At(st.start.energyUJ.value), st.dispatched.value), st.ticks);
    }
  }

  // --------------------------------------------------------------------- one more answer in a pause

  /** After a freeze the answers come to a controller frozen for the pause, or unknown for good. */
  predicate WaitsOn(e: EnergyState, x: Exec, pauseID: string) {
    HeldFor(x.ctl, pauseID) && (x.ctl.state == Unknown ==> NeverKill(e))
  }

  lemma ObeyWaitsOn(s: Socket, e: EnergyState, x: Exec, cycle: PauseCycle, p: Poll)
    requires WaitsOn(e, x, cycle.pauseID)
    ensures var q := Obey(s, e, x, cycle, p);
            && q.cycle.pauseID == cycle.pauseID
            && (q.exit.Again? ==> WaitsOn(e, q.exec, cycle.pauseID))
            && (x.ctl.state == Unknown ==> q.exit.Again? && q.exec.ctl == x.ctl)
            && (x.ctl.state == Frozen && Authorizes(p.answer, cycle.pauseID) && p.unfreezeOk ==> q.exit.Resumed?)
  {
    hide Obey, NeverKill;
    ObeyHolds(s, e, x, cycle, p);
    if NeverKill(e) {
      UnkillableObeys(s, e, x, cycle, p);
    } else {
      KillableObeys(s, e, x, cycle, p);
    }
  }

  lemma {:induction false} PollLoopSnoc(s: Socket, e: EnergyState, x: Exec, cycle: PauseCycle, postedJ: real, polls: seq<Poll>, p: Poll)
    requires WaitsOn(e, x, cycle.pauseID)
    requires PollLoop(s, e, x, cycle, postedJ, polls).exit.Again?
    ensures var q := PollLoop(s, e, x, cycle, postedJ, polls);
            var after := PollLoop(s, e, x, cycle, postedJ, polls + [p]);
            && q.cycle.pauseID == cycle.pauseID
            && WaitsOn(e, q.exec, cycle.pauseID)
            && after.exit == Obey(s, e, q.exec, q.cycle, p).exit
            && after.exec == Obey(s, e, q.exec, q.cycle, p).exec
    decreases |polls|
  {
    hide Obey, WaitsOn;
    if polls == [] {
      assert polls + [p] == [p] && [p][1..] == [];
    } else {
      assert (polls + [p])[0] == polls[0] && (polls + [p])[1..] == polls[1..] + [p];
      ObeyWaitsOn(s, e, x, cycle, polls[0]);
      var q := Obey(s, e, x, cycle, polls[0]);
      PollLoopSnoc(s, e, q.exec, q.cycle, postedJ, polls[1..], p);
    }
  }

  /** What one more answer does to a pause that waits. */
  lemma PauseTakesAnswer(s: Socket, m: Monitor, tick: Tick, p: Poll)
    requires OnTick(s, m, tick).status.Waiting?
    ensures var now := OnTick(s, m, tick).monitor.exec.ctl;
            var after := OnTick(s, m, WithAnswer(tick, p));
            && (now.state == Unknown ==> after.status.Waiting? && after.monitor.exec.ctl.state == Unknown)
            && (now.state != Unknown && Authorizes(p.answer, tick.cycle.pauseID) && p.unfreezeOk ==> after.status.Monitoring?)
  {
    hide PollLoop, MeterUJ, CloseSegment, Obey, NeverKill;
    var stepJ := Joules(MeterUJ(s, m.exec.book.meter, tick.sample.At(tick.sample.energyUJ.value)));
    var e, env := m.energy, tick.cycle;
    var ctl := FreezeReply(m.exec.ctl, env.pauseID, env.freezeOk).ctl;
    var (x2, cycle2) := EnterFreeze(s, e, m.exec.(ctl := ctl), stepJ, NewCycle(e, env.pauseID, e.consumedBeforeJ + stepJ), env.freezeSample);
    var postedJ := cycle2.energyAtEffectiveFreezeJ;
    PollLoopSnoc(s, e, x2, cycle2, postedJ, env.polls, p);
    var q := PollLoop(s, e, x2, cycle2, postedJ, env.polls);
    ObeyWaitsOn(s, e, q.exec, q.cycle, p);
  }

  lemma {:induction false} LoopHistoryGrows(s: Socket, e: EnergyState, x: Exec, cycle: PauseCycle, postedJ: real, polls: seq<Poll>, p: Poll)
    requires WaitsOn(e, x, cycle.pauseID) && PollLoop(s, e, x, cycle, postedJ, polls).exit.Again?
    ensures PollLoop(s, e, x, cycle, postedJ, polls).exec.ctl.ops <= PollLoop(s, e, x, cycle, postedJ, polls + [p]).exec.ctl.ops
  {
    hide PollLoop, Obey, WaitsOn, Explained;
    PollLoopSnoc(s, e, x, cycle, postedJ, polls, p);
    var q := PollLoop(s, e, x, cycle, postedJ, polls);
    ObeyAccounts(s, e, q.exec, q.cycle, p);
  }

  /** One more answer in a pause only adds to what the kernel was asked. */
  lemma PauseHistoryGrows(s: Socket, m: Monitor, tick: Tick, p: Poll)
    requires OnTick(s, m, tick).status.Waiting?
    ensures OnTick(s, m, tick).monitor.exec.ctl.ops <= OnTick(s, m, WithAnswer(tick, p)).monitor.exec.ctl.ops
  {
    hide PollLoop, MeterUJ, CloseSegment, Obey, NeverKill;
    var stepJ := Joules(MeterUJ(s, m.exec.book.meter, tick.sample.At(tick.sample.energyUJ.value)));
    var e, env := m.energy, tick.cycle;
    var ctl := FreezeReply(m.exec.ctl, env.pauseID, env.freezeOk).ctl;
    var (x2, cycle2) := EnterFreeze(s, e, m.exec.(ctl := ctl), stepJ, NewCycle(e, env.pauseID, e.consumedBeforeJ + stepJ), env.freezeSample);
    LoopHistoryGrows(s, e, x2, cycle2, cycle2.energyAtEffectiveFreezeJ, env.polls, p);
  }

  // ------------------------------------------------------------------------------ who can still return

  predicate InProgress(st: State) {
    st.pc == Selecting || st.pc == Joining || st.pc == Publishing
  }

  predicate LostTrack(s: Socket, m: Monitor, tick: Tick) {
    OnTick(s, m, tick).monitor.exec.ctl.state == Unknown
  }

  /** The monitor waits in a pause whose controller no longer knows the state of the cgroup. */
  predicate Stuck(s: Socket, st: State) {
    st.monitor.Pausing? && LostTrack(s, st.monitor.m, st.monitor.tick)
  }

  /** Steps of Interact and of the monitor, with the readings and answers the latter gets. */
  predicate Internal(a: Action) {
    a.Select? || a.Join? || a.Publish? || a.MonitorStarts? || a.MonitorTicks? || a.MonitorObeys? || a.MonitorStops?
  }

  predicate AllInternal(actions: seq<Action>) {
    forall i :: 0 <= i < |actions| ==> Internal(actions[i])
  }

  /** Interact can return without any further help from the action or the process. */
  ghost predicate CanReturn(s: Socket, st: State) {
    exists actions: seq<Action> ::
      AllInternal(actions) && ActAll(s, st, actions).Some? && ActAll(s, st, actions).value.pc == Returned
  }

  lemma StuckStays(s: Socket, st: State, a: Action)
    requires Sound(s, st) && Stuck(s, st) && st.pc != Returned && Enabled(st, a)
    ensures Stuck(s, Act(s, st, a)) && Act(s, st, a).pc != Returned
  {
    hide OnTick, MonitorEnergy, ShouldMonitor;
    if a.MonitorObeys? {
      PauseTakesAnswer(s, st.monitor.m, st.monitor.tick, a.poll);
    }
  }

  /** Whatever happens next, a stuck invocation never returns. */
  lemma {:induction false} StuckForGood(s: Socket, st: State, actions: seq<Action>)
    requires Sound(s, st) && Stuck(s, st) && st.pc != Returned && ActAll(s, st, actions).Some?
    ensures Stuck(s, ActAll(s, st, actions).value) && ActAll(s, st, actions).value.pc != Returned
    decreases |actions|
  {
    hide Act, Enabled, Sound, Stuck;
    if actions != [] {
      StuckStays(s, st, actions[0]);
      assert Sound(s, Act(s, st, actions[0])) by {
        ActKeepsSound(s, st, actions[0]);
      }
      StuckForGood(s, Act(s, st, actions[0]), actions[1..]);
    }
  }

  lemma ActKeepsSound(s: Socket, st: State, a: Action)
    requires Sound(s, st) && Enabled(st, a)
    ensures Sound(s, Act(s, st, a))
  {
    ActKeepsFollows(s, st, a);
    ActKeepsOrderly(s, st, a);
    hide Act, Enabled, Follows, Orderly;
  }

  function StepsToReturn(st: State): nat {
    match st.pc
    case Selecting => 3
    case Joining => 2
    case Publishing => 1
    case _ => 0
  }

  function StepsToFinish(monitor: MonitorPhase): nat {
    match monitor
    case Pausing(_, _) => 2
    case Watching(_) => 1
    case Starting => 1
    case _ => 0
  }

  /** The resume command that the pause in progress waits for, obeyed by the kernel. */
  function Resuming(pauseID: string): Poll {
    Poll(Command("RESUME_EXECUTION", pauseID, 0.0, ""), 0, true, NO_READING, 0, 0, true)
  }

  function NextTowardsReturn(st: State): Action
    requires InProgress(st)
  {
    match st.pc
    case Selecting => Select
    case Publishing => Publish
    case _ =>
      match st.monitor
      case Starting => MonitorStarts(NO_READING)
      case Watching(_) => MonitorStops
      case Pausing(_, tick) => MonitorObeys(Resuming(tick.cycle.pauseID))
      case _ => Join
  }

  /** Interact has something to select on, or is past that point. */
  predicate Unblocked(st: State) {
    st.pc == Selecting ==> st.answered || st.exited
  }

  lemma NextIsProgress(s: Socket, st: State)
    requires Sound(s, st) && InProgress(st) && Unblocked(st) && !Stuck(s, st)
    ensures var a := NextTowardsReturn(st);
            && Enabled(st, a)
            && Internal(a)
            && (InProgress(Act(s, st, a)) || Act(s, st, a).pc == Returned)
            && Unblocked(Act(s, st, a))
            && !Stuck(s, Act(s, st, a))
            && (|| StepsToReturn(Act(s, st, a)) < StepsToReturn(st)
                || (StepsToReturn(Act(s, st, a)) == StepsToReturn(st)
                    && StepsToFinish(Act(s, st, a).monitor) < StepsToFinish(st.monitor)))
  {
    hide OnTick, MonitorEnergy, ShouldMonitor;
    if st.pc == Joining && st.monitor.Pausing? {
      PauseTakesAnswer(s, st.monitor.m, st.monitor.tick, Resuming(st.monitor.tick.cycle.pauseID));
    }
  }

  lemma {:induction false} WayOut(s: Socket, st: State) returns (actions: seq<Action>)
    requires Sound(s, st) && (InProgress(st) || st.pc == Returned) && Unblocked(st) && !Stuck(s, st)
    ensures AllInternal(actions) && ActAll(s, st, actions).Some? && ActAll(s, st, actions).value.pc == Returned
    decreases StepsToReturn(st), StepsToFinish(st.monitor)
  {
    hide Act, Enabled, Sound, Stuck, NextTowardsReturn, Unblocked;
    if st.pc == Returned {
      actions := [];
    } else {
      var a := NextTowardsReturn(st);
      NextIsProgress(s, st);
      ActKeepsSound(s, st, a);
      var rest := WayOut(s, Act(s, st, a));
      actions := [a] + rest;
      assert actions[1..] == rest;
    }
  }

  /** Without an answer or an exit, Interact's own steps and the monitor's leave it selecting. */
  lemma {:induction false} BlockedStays(s: Socket, st: State, actions: seq<Action>)
    requires st.pc == Selecting && !Unblocked(st) && AllInternal(actions) && ActAll(s, st, actions).Some?
    ensures ActAll(s, st, actions).value.pc == Selecting
    decreases |actions|
  {
    hide OnTick, PhaseAfter, ShouldMonitor;
    if actions != [] {
      assert Internal(actions[0]);
      var rest := actions[1..];
      assert forall i :: 0 <= i < |rest| ==> rest[i] == actions[i + 1];
      BlockedStays(s, Act(s, st, actions[0]), rest);
    }
  }

  /**
   An invocation in progress can return, by steps of Interact and the monitor alone, exactly when it
   has an answer or an exit to go on with and its monitor is not in a pause that an unfreeze failed:
   such a pause waits for good, and Interact with it, whether the action answered or its process died.
   */
  lemma ReturnsExactlyUnlessStuck(s: Socket, actions: seq<Action>)
    requires ActAll(s, INITIAL, actions).Some? && InProgress(ActAll(s, INITIAL, actions).value)
    ensures var st := ActAll(s, INITIAL, actions).value;
            CanReturn(s, st) <==> Unblocked(st) && !Stuck(s, st)
  {
    var st := ActAll(s, INITIAL, actions).value;
    ReachedIsSound(s, actions);
    hide Sound, Stuck, Act, Enabled, ActAll, AllInternal, Unblocked;
    if Stuck(s, st) {
      forall more: seq<Action> | ActAll(s, st, more).Some?
        ensures ActAll(s, st, more).value.pc != Returned
      {
        StuckForGood(s, st, more);
      }
    } else if !Unblocked(st) {
      forall more: seq<Action> | AllInternal(more) && ActAll(s, st, more).Some?
        ensures ActAll(s, st, more).value.pc != Returned
      {
        BlockedIsSelecting(st);
        BlockedStays(s, st, more);
      }
    } else {
      var more := WayOut(s, st);
    }
  }

  lemma BlockedIsSelecting(st: State)
    ensures !Unblocked(st) ==> st.pc == Selecting
  {}

  // ------------------------------------------------------------------ one controller for all invocations

  /** The controller explains its history, at every moment and as the current pause found it. */
  predicate Historic(s: Socket, st: State) {
    && Explained(st.ctl)
    && Explained(ControllerNow(s, st))
    && (st.monitor.Pausing? ==> Explained(st.monitor.m.exec.ctl))
  }

  lemma ActKeepsHistoric(s: Socket, st: State, a: Action)
    requires Sound(s, st) && Historic(s, st) && Enabled(st, a)
    ensures Historic(s, Act(s, st, a))
    ensures ControllerNow(s, st).ops <= ControllerNow(s, Act(s, st, a)).ops
  {
    hide OnTick, MonitorEnergy, ShouldMonitor, Explained, Orderly;
    match a {
      case MonitorTicks(tick) => TickAccounts(s, st.monitor.m, tick);
      case MonitorObeys(poll) =>
        TickAccounts(s, st.monitor.m, WithAnswer(st.monitor.tick, poll));
        PauseHistoryGrows(s, st.monitor.m, st.monitor.tick, poll);
      case _ =>
    }
  }

  lemma {:induction false} HistoryGrows(s: Socket, st: State, actions: seq<Action>)
    requires Sound(s, st) && Historic(s, st) && ActAll(s, st, actions).Some?
    ensures Historic(s, ActAll(s, st, actions).value)
    ensures ControllerNow(s, st).ops <= ControllerNow(s, ActAll(s, st, actions).value).ops
    decreases |actions|
  {
    hide Act, Enabled, Sound, Historic, ControllerNow;
    if actions != [] {
      ActKeepsHistoric(s, st, actions[0]);
      ActKeepsSound(s, st, actions[0]);
      HistoryGrows(s, Act(s, st, actions[0]), actions[1..]);
    }
  }

  /**
   One executor keeps one controller over all its invocations: under every interleaving, all that
   its kernel was ever asked is one history of the kernel language, which later invocations only add
   to. So an invocation begins in whatever state the ones before it left.
   */
  lemma ExecutorKeepsOneHistory(s: Socket, actions: seq<Action>, more: seq<Action>)
    requires ActAll(s, INITIAL, actions).Some? && ActAll(s, ActAll(s, INITIAL, actions).value, more).Some?
    ensures var earlier := ControllerNow(s, ActAll(s, INITIAL, actions).value);
            var later := ControllerNow(s, ActAll(s, ActAll(s, INITIAL, actions).value, more).value);
            InLanguage(earlier.ops) && InLanguage(later.ops) && earlier.ops <= later.ops
  {
    ReachedIsSound(s, []);
    ReachedIsSound(s, actions);
    assert Historic(s, INITIAL);
    hide ActAll, Sound, InLanguage;
    HistoryGrows(s, INITIAL, actions);
    HistoryGrows(s, ActAll(s, INITIAL, actions).value, more);
  }

  // ------------------------------------------------------------------------------ a run that gets stuck

  /** A step that must never be killed and arrives at its threshold already reached. */
  predicate PausesAtOnce(e: EnergyState) {
    && ShouldMonitor(Some(e))
    && NeverKill(e)
    && e.pauseEnabled
    && e.consumedBeforeJ >= e.executionThresholdJ
  }

  const STEP_AT_THRESHOLD := EnergyState("trace", "reservation", "forward", 1.0, 1.0, true, "hold", 0, 0,
                                         Some(map["act" := UNKILLABLE]), "act")

  function PausingTick(pauseID: string): Tick {
    Tick(Sample(Some(0), 0, 0), true, CycleEnv(pauseID, true, NO_READING, true, []))
  }

  /** The matching resume command, which the kernel fails to carry out. */
  function FailedResume(pauseID: string): Poll {
    Poll(Command("RESUME_EXECUTION", pauseID, 2.0, ""), 0, false, NO_READING, 0, 0, true)
  }

  /** The step pauses, its authorized resume fails in the kernel, and then the process exits. */
  function StuckRun(e: EnergyState, pauseID: string): seq<Action> {
    [Begin(Some(e)), MonitorStarts(Sample(Some(0), 0, 0)), MonitorTicks(PausingTick(pauseID)), MonitorObeys(FailedResume(pauseID)), ProcessExits]
  }

  lemma StuckRunPauses(s: Socket, m: Monitor, pauseID: string)
    requires PausesAtOnce(m.energy) && m.exec.ctl.state == Running
    requires !m.exec.book.meter.frozen && m.exec.book.meter.closedUJ == 0
    ensures Waits(s, m, PausingTick(pauseID))
    ensures Waits(s, m, WithAnswer(PausingTick(pauseID), FailedResume(pauseID)))
    ensures LostTrack(s, m, WithAnswer(PausingTick(pauseID), FailedResume(pauseID)))
  {
    var tick := PausingTick(pauseID);
    var t := WithAnswer(tick, FailedResume(pauseID));
    var stepUJ := MeterUJ(s, m.exec.book.meter, tick.sample.At(0));
    assert stepUJ >= 0;
    hide MeterUJ, NeverKill;
    UnkillableCycleClassified(s, m.energy, m.exec, Joules(stepUJ), tick.cycle);
    UnkillableCycleClassified(s, m.energy, m.exec, Joules(stepUJ), t.cycle);
    hide RunPauseCycle;
  }

  lemma ActAllCons(s: Socket, st: State, a: Action, rest: seq<Action>)
    requires Enabled(st, a)
    ensures ActAll(s, st, [a] + rest) == ActAll(s, Act(s, st, a), rest)
  {
    hide Act, Enabled;
    assert ([a] + rest)[1..] == rest;
  }

  lemma ThreeActions(s: Socket, st: State, a: Action, b: Action, c: Action)
    requires Enabled(st, a) && Enabled(Act(s, st, a), b) && Enabled(Act(s, Act(s, st, a), b), c)
    ensures ActAll(s, st, [a, b, c]) == Some(Act(s, Act(s, Act(s, st, a), b), c))
  {
    hide Act, Enabled;
    assert [a, b, c] == [a] + ([b] + ([c] + []));
    ActAllCons(s, st, a, [b] + ([c] + []));
    ActAllCons(s, Act(s, st, a), b, [c] + []);
    ActAllCons(s, Act(s, Act(s, st, a), b), c, []);
  }

  predicate Waits(s: Socket, m: Monitor, tick: Tick) {
    OnTick(s, m, tick).status.Waiting?
  }

  lemma WaitingIsPausing(s: Socket, m: Monitor, tick: Tick)
    requires Waits(s, m, tick)
    ensures PhaseAfter(s, m, tick) == Pausing(m, tick)
  {
    hide OnTick;
  }

  /** A watching monitor's pause begins, one answer leaves it unknown, and the process exits. */
  lemma PauseGetsStuck(s: Socket, st: State, tick: Tick, poll: Poll)
    requires st.monitor.Watching? && tick.cycle.polls == [] && Waits(s, st.monitor.m, tick)
    requires Waits(s, st.monitor.m, WithAnswer(tick, poll)) && LostTrack(s, st.monitor.m, WithAnswer(tick, poll))
    ensures var after := ActAll(s, st, [MonitorTicks(tick), MonitorObeys(poll), ProcessExits]);
            after.Some? && after.value.pc == st.pc && after.value.exited && Stuck(s, after.value)
  {
    hide Waits, LostTrack, WithAnswer, ActAll, PhaseAfter;
    WaitingIsPausing(s, st.monitor.m, tick);
    WaitingIsPausing(s, st.monitor.m, WithAnswer(tick, poll));
    ThreeActions(s, st, MonitorTicks(tick), MonitorObeys(poll), ProcessExits);
  }

  lemma StuckRunReached(s: Socket, e: EnergyState, pauseID: string)
    requires PausesAtOnce(e)
    ensures var after := ActAll(s, INITIAL, StuckRun(e, pauseID));
            after.Some? && after.value.pc == Selecting && after.value.exited && Stuck(s, after.value)
  {
    var begin, starts := Begin(Some(e)), MonitorStarts(Sample(Some(0), 0, 0));
    var rest := [MonitorTicks(PausingTick(pauseID)), MonitorObeys(FailedResume(pauseID)), ProcessExits];
    hide ActAll, Stuck, Waits, LostTrack;
    var s1 := Act(s, INITIAL, begin);
    var s2 := Act(s, s1, starts);
    ActAllCons(s, INITIAL, begin, [starts] + rest);
    ActAllCons(s, s1, starts, rest);
    assert StuckRun(e, pauseID) == [begin] + ([starts] + rest);
    StuckRunPauses(s, s2.monitor.m, pauseID);
    PauseGetsStuck(s, s2, PausingTick(pauseID), FailedResume(pauseID));
  }

  /**
   An unkillable step pauses, its authorized resume fails in the kernel, and the process then exits:
   Interact never returns, whatever happens next.
   */
  lemma ExitCanLeaveInteractStuck(s: Socket, e: EnergyState, pauseID: string, more: seq<Action>)
    ensures PausesAtOnce(STEP_AT_THRESHOLD)
    ensures PausesAtOnce(e) ==>
              var reached := ActAll(s, INITIAL, StuckRun(e, pauseID));
              && reached.Some? && reached.value.exited
              && (ActAll(s, reached.value, more).Some? ==> ActAll(s, reached.value, more).value.pc != Returned)
  {
    assert PausesAtOnce(STEP_AT_THRESHOLD);
    if PausesAtOnce(e) {
      StuckRunReached(s, e, pauseID);
      ReachedIsSound(s, StuckRun(e, pauseID));
      hide ActAll, Stuck, Sound, PausesAtOnce;
      var st := ActAll(s, INITIAL, StuckRun(e, pauseID)).value;
      if ActAll(s, st, more).Some? {
        StuckForGood(s, st, more);
      }
    }
  }
}
