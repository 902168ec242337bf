/**
 What the handler measures for a request (openwhisk/runHandler.go, openwhisk/metrics_helpers.go),
 compared with what the monitor enforced and what a kill is settled at. The handler takes its own
 first reading before the monitor takes its own, so the two differ in the first segment only.
 */
module MeasurementLaws {
  import opened Attribution
  import opened Options
  import opened Segments
  import opened Metering
  import opened Controller
  import opened EnergyStates
  import opened PauseCycles
  import opened PauseCycleLaws
  import opened PauseCycleEnergy
  import opened RunHandler

  // ----------------------------------------------------------------------- what is recorded of a kill

  /** A kill whose step was frozen when it came. */
  predicate KilledFrozen(s: Socket, ctl: Ctl, params: JSONObject, actionName: string, inv: Invocation) {
    && HandleRun(s, ctl, params, actionName, inv).KilledResponse?
    && Monitored(s, ctl, StateFor(params, actionName), inv).value.monitor.exec.book.meter.frozen
  }

  /** The monitor's own first reading, later than the handler's. */
  function MonitorStart(inv: Invocation): Reading {
    match inv.monitorStart.energyUJ
    case Some(uj) => inv.monitorStart.At(uj)
    case None => inv.start
  }

  /** How much more the first segment, which ends at `stop`, gets from the handler's start than from the monitor's. */
  function StartGapUJ(s: Socket, inv: Invocation, stop: Reading): int {
    AttributedUJ(s, inv.start, stop) - AttributedUJ(s, MonitorStart(inv), stop)
  }

  /**
   What a step killed while frozen is recorded at, and settled at, whatever the readings taken after
   its death: the record is the settled energy corrected by the first segment, which the handler
   starts at its own reading. The two are equal exactly when that segment gets the same from both
   starts, or when the record would be zero and the settled energy stands in.
   */
  lemma KillRecordedAsSettled(s: Socket, ctl: Ctl, params: JSONObject, actionName: string, inv: Invocation)
    requires KilledFrozen(s, ctl, params, actionName, inv)
    ensures var book := Monitored(s, ctl, StateFor(params, actionName), inv).value.monitor.exec.book;
            var settledUJ := book.meter.closedUJ;
            var event := HandleRun(s, ctl, params, actionName, inv).event;
            var recordedUJ := RunRecord(s, ctl, params, actionName, inv).entry.attributedUJ;
            && StateFor(params, actionName).Some?
            && book.marks != []
            && var gapUJ := StartGapUJ(s, inv, book.marks[0].freeze);
            var consumedBeforeJ := StateFor(params, actionName).value.consumedBeforeJ;
            && event.energyConsumedJ == consumedBeforeJ + Joules(settledUJ)
            && recordedUJ == WithFallback(settledUJ + gapUJ, Joules(settledUJ))
            && (event.energyConsumedJ == consumedBeforeJ + Joules(recordedUJ) <==> gapUJ == 0 || settledUJ + gapUJ == 0)
  {
    KilledFrozenEnergies(s, ctl, params, actionName, inv);
    var book := Monitored(s, ctl, StateFor(params, actionName), inv).value.monitor.exec.book;
    RecordedVersusSettled(book.meter.closedUJ, StartGapUJ(s, inv, book.marks[0].freeze));
    hide Monitored, HandleRun, StateFor, StartGapUJ, Segmented, WithFallback, MeasuredTrace, Extract, Joules;
  }

  /** The settled energy, and the batch formula that the record is taken from. */
  lemma KilledFrozenEnergies(s: Socket, ctl: Ctl, params: JSONObject, actionName: string, inv: Invocation)
    requires KilledFrozen(s, ctl, params, actionName, inv)
    ensures var run := Monitored(s, ctl, StateFor(params, actionName), inv);
            var book := run.value.monitor.exec.book;
            && StateFor(params, actionName).Some?
            && book.marks != []
            && book.meter.closedUJ >= 0
            && FallbackJ(run) == Joules(book.meter.closedUJ)
            && HandleRun(s, ctl, params, actionName, inv).event.energyConsumedJ
               == StateFor(params, actionName).value.consumedBeforeJ + Joules(book.meter.closedUJ)
            && Segmented(s, inv.start, inv.recordEnd, MarksOf(run)).attributedUJ
               == book.meter.closedUJ + StartGapUJ(s, inv, book.marks[0].freeze)
  {
    hide MonitorEnergy, Extract, ShortActionName;
    var e := StateFor(params, actionName).value;
    var book := Monitored(s, ctl, StateFor(params, actionName), inv).value.monitor.exec.book;
    var start := MonitorStart(inv);
    var m := Started(ctl, start, e);
    ThresholdFollowsGrants(s, m, inv.ticks);
    KilledMeansStatus(s, m, inv.ticks);
    KilledAtFrozenEnergy(s, m, inv.ticks);
    FrozenRunEnergies(s, start, ctl, e, inv.ticks, inv.start, inv.recordEnd);
    hide Segmented, AttributedUJ, Joules, LastInForce, NoneInForce;
  }

  /** A run that ends frozen: the batch formula from another start, whatever the end reading. */
  lemma FrozenRunEnergies(s: Socket, start: Reading, ctl: Ctl, e: EnergyState, ticks: seq<Tick>, start': Reading, end: Reading)
    requires MonitorEnergy(s, Started(ctl, start, e), ticks).monitor.exec.book.meter.frozen
    ensures var book := MonitorEnergy(s, Started(ctl, start, e), ticks).monitor.exec.book;
            && book.marks != []
            && book.meter.closedUJ >= 0
            && Segmented(s, start', end, book.marks).attributedUJ
               == book.meter.closedUJ + AttributedUJ(s, start', book.marks[0].freeze) - AttributedUJ(s, start, book.marks[0].freeze)
  {
    hide MonitorEnergy, Segmented, AttributedUJ;
    var book := MonitorEnergy(s, Started(ctl, start, e), ticks).monitor.exec.book;
    CoupledAtStart(s, start);
    MonitorKeepsCoupling(s, start, Started(ctl, start, e), ticks);
    MeterShowsSegmented(s, start, book, end);
    FirstSegmentDecides(s, start, start', end, book.marks);
    FrozenClosedNonNegative(s, start, book);
  }

  lemma FrozenClosedNonNegative(s: Socket, start: Reading, book: Book)
    requires Coupled(s, start, book)
    ensures book.meter.closedUJ >= 0 && (book.meter.frozen ==> book.marks != [])
  {}

  lemma RecordedVersusSettled(settledUJ: int, gapUJ: int)
    requires settledUJ >= 0
    ensures Joules(settledUJ) == Joules(WithFallback(settledUJ + gapUJ, Joules(settledUJ)))
       <==> gapUJ == 0 || settledUJ + gapUJ == 0
  {
    assert (Joules(settledUJ) * 1000000.0).Floor == settledUJ;
  }

  /** A killable step that reaches its threshold at once and finds no scheduler to answer. */
  predicate KilledAtOnce(e: EnergyState) {
    && ShouldMonitor(Some(e))
    && !NeverKill(e)
    && e.pauseEnabled
    && e.consumedBeforeJ >= e.executionThresholdJ
  }

  function UnansweredTick(sample: Sample): Tick {
    Tick(sample, true, CycleEnv("pause-1", true, sample, true,
                                [Poll(ChannelFailed, sample.ticks, true, Sample(None, 0, 0), 0, sample.ticks, true)]))
  }

  lemma UnansweredPauseKills(s: Socket, m: Monitor, sample: Sample)
    requires KilledAtOnce(m.energy) && m.exec.ctl.state == Running
    requires !m.exec.book.meter.frozen && m.exec.book.meter.closedUJ >= 0 && FreezeUsable(m.exec.book, sample)
    ensures var r := OnTick(s, m, UnansweredTick(sample));
            r.status.StepKilled? && r.monitor.result.killed && r.monitor.exec.book == CloseSegment(s, m.exec.book, sample)
  {
    var t := UnansweredTick(sample);
    var stepUJ := MeterUJ(s, m.exec.book.meter, sample.At(sample.energyUJ.value));
    var p := t.cycle.polls[0];
    var e, env := m.energy, t.cycle;
    var ctl := FreezeReply(m.exec.ctl, env.pauseID, true).ctl;
    hide AttributionDetail;
    assert stepUJ >= 0;
    var (x2, cycle2) := EnterFreeze(s, e, m.exec.(ctl := ctl), Joules(stepUJ), NewCycle(e, env.pauseID, e.consumedBeforeJ + Joules(stepUJ)), sample);
    assert RefineSegment(s, x2.book, sample.ticks) == x2.book;
    ObeyIs(s, e, x2, cycle2, p);
    hide Obey, EnterFreeze, MeterUJ, RefineSegment, NeverKill;
  }

  const SMALL_SOCKET: Socket := SocketParams(1000000, 900000, 1)

  const HANDLER_START := Reading(0, 0, 0)

  const LATE_START := Sample(Some(100), 0, 1000000)

  const FREEZE_SAMPLE := Sample(Some(1100), 1000, 2000000)

  function LateMonitor(): Invocation {
    Invocation(0, "", false, LATE_START, [UnansweredTick(FREEZE_SAMPLE)], HANDLER_START, HANDLER_START, HANDLER_START, NoAnswer)
  }

  lemma AttributedIs(s: Socket, from: Reading, to: Reading, deltaUJ: int, durationUsec: int)
    requires deltaUJ == DeltaRAPL(s, from.energyUJ, to.energyUJ) > 0 && to.ticks > from.ticks
    requires durationUsec == TruncDiv(to.wallNs - from.wallNs, 1000) > 0 && s.cores == 1
    ensures AttributedUJ(s, from, to) == Share(deltaUJ, to.ticks - from.ticks, durationUsec)
  {
    hide DeltaRAPL, TruncDiv, Share;
  }

  lemma ShareNumbers()
    ensures Share(1000, 1000, 1000) == 1000 && Share(1100, 1000, 2000) == 550
  {}

  lemma LateNumbers()
    ensures AttributedUJ(SMALL_SOCKET, LATE_START.At(100), FREEZE_SAMPLE.At(1100)) == 1000
    ensures AttributedUJ(SMALL_SOCKET, HANDLER_START, FREEZE_SAMPLE.At(1100)) == 550
  {
    hide Share, AttributedUJ, AttributionDetail;
    ShareNumbers();
    AttributedIs(SMALL_SOCKET, LATE_START.At(100), FREEZE_SAMPLE.At(1100), 1000, 1000);
    AttributedIs(SMALL_SOCKET, HANDLER_START, FREEZE_SAMPLE.At(1100), 1100, 2000);
  }

  lemma LateClose()
    ensures var book := CloseSegment(SMALL_SOCKET, Book(NewMeter(LATE_START.At(100)), []), FREEZE_SAMPLE);
            && book.meter.frozen && book.meter.closedUJ == 1000
            && book.marks == [FreezeMark(FREEZE_SAMPLE.At(1100), false, ZERO)]
  {
    LateNumbers();
    hide AttributedUJ;
  }

  lemma LateRun(ctl: Ctl, e: EnergyState)
    requires KilledAtOnce(e) && ctl.state == Running
    ensures var r := MonitorEnergy(SMALL_SOCKET, Started(ctl, LATE_START.At(100), e), [UnansweredTick(FREEZE_SAMPLE)]);
            && r.status.StepKilled? && r.monitor.result.killed
            && r.monitor.exec.book == CloseSegment(SMALL_SOCKET, Book(NewMeter(LATE_START.At(100)), []), FREEZE_SAMPLE)
  {
    UnansweredPauseKills(SMALL_SOCKET, Started(ctl, LATE_START.At(100), e), FREEZE_SAMPLE);
    hide OnTick, CloseSegment, UnansweredTick;
  }

  lemma KilledRunAnswersKilled(s: Socket, ctl: Ctl, params: JSONObject, actionName: string, inv: Invocation)
    requires !inv.exited
    requires var run := Monitored(s, ctl, StateFor(params, actionName), inv);
             run.Some? && run.value.status.StepKilled? && run.value.monitor.result.killed
    ensures HandleRun(s, ctl, params, actionName, inv).KilledResponse?
  {
    hide Monitored, StateFor, Published, Arguments;
  }

  lemma LateMonitored(ctl: Ctl, e: EnergyState)
    requires ShouldMonitor(Some(e))
    ensures Monitored(SMALL_SOCKET, ctl, Some(e), LateMonitor())
         == Some(MonitorEnergy(SMALL_SOCKET, Started(ctl, LATE_START.At(100), e), [UnansweredTick(FREEZE_SAMPLE)]))
  {
    hide MonitorEnergy, ShouldMonitor, UnansweredTick, Started;
  }

  lemma LateKill(ctl: Ctl, params: JSONObject, actionName: string)
    requires StateFor(params, actionName).Some? && KilledAtOnce(StateFor(params, actionName).value) && ctl.state == Running
    ensures KilledFrozen(SMALL_SOCKET, ctl, params, actionName, LateMonitor())
    ensures Monitored(SMALL_SOCKET, ctl, StateFor(params, actionName), LateMonitor()).value.monitor.exec.book
         == CloseSegment(SMALL_SOCKET, Book(NewMeter(LATE_START.At(100)), []), FREEZE_SAMPLE)
  {
    var e := StateFor(params, actionName).value;
    assert KilledAtOnce(e) ==> ShouldMonitor(Some(e));
    hide MonitorEnergy, CloseSegment, UnansweredTick, StateFor, ShouldMonitor, Monitored, HandleRun, NewMeter, Started, KilledAtOnce;
    LateRun(ctl, e);
    LateClose();
    LateMonitored(ctl, e);
    assert Some(e) == StateFor(params, actionName);
    assert !LateMonitor().exited;
    KilledRunAnswersKilled(SMALL_SOCKET, ctl, params, actionName, LateMonitor());
  }

  /**
   The two do differ: here the monitor starts a millisecond after the handler, in which the node
   used 100 microjoules and the container did not compute. The kill is settled at 1000 microjoules
   and recorded at 550.
   */
  lemma KillRecordedBelowSettlement(ctl: Ctl, params: JSONObject, actionName: string)
    requires StateFor(params, actionName).Some? && KilledAtOnce(StateFor(params, actionName).value) && ctl.state == Running
    ensures KilledFrozen(SMALL_SOCKET, ctl, params, actionName, LateMonitor())
    ensures HandleRun(SMALL_SOCKET, ctl, params, actionName, LateMonitor()).event.energyConsumedJ
         == StateFor(params, actionName).value.consumedBeforeJ + Joules(1000)
    ensures RunRecord(SMALL_SOCKET, ctl, params, actionName, LateMonitor()).entry.attributedUJ == 550
  {
    LateKill(ctl, params, actionName);
    LateClose();
    LateNumbers();
    KillRecordedAsSettled(SMALL_SOCKET, ctl, params, actionName, LateMonitor());
    assert MonitorStart(LateMonitor()) == LATE_START.At(100) && LateMonitor().start == HANDLER_START;
    hide Monitored, HandleRun, StateFor, CloseSegment, AttributedUJ, RunRecord, Joules, KilledFrozen, KilledAtOnce, LateMonitor, MonitorStart;
  }

  lemma {:induction false} KilledAtFrozenEnergy(s: Socket, m: Monitor, ticks: seq<Tick>)
    requires !m.result.killed && !m.exec.book.meter.frozen
    ensures var r := MonitorEnergy(s, m, ticks);
            r.status.StepKilled? && r.monitor.exec.book.meter.frozen
            ==> r.monitor.result.consumedJ == Joules(r.monitor.exec.book.meter.closedUJ)
    decreases |ticks|
  {
    if ticks != [] {
      TickKilledAtFrozenEnergy(s, m, ticks[0]);
      hide OnTick;
      var r := OnTick(s, m, ticks[0]);
      if r.status.Monitoring? {
        KilledAtFrozenEnergy(s, r.monitor, ticks[1..]);
      }
    }
  }

  lemma TickKilledAtFrozenEnergy(s: Socket, m: Monitor, t: Tick)
    requires !m.result.killed && !m.exec.book.meter.frozen
    ensures var r := OnTick(s, m, t);
            && (r.status.StepKilled? && r.monitor.exec.book.meter.frozen ==>
                  r.monitor.result.consumedJ == Joules(r.monitor.exec.book.meter.closedUJ))
            && (r.status.Monitoring? ==> !r.monitor.result.killed && !r.monitor.exec.book.meter.frozen)
  {
    hide RunPauseCycle, MeterUJ;
    if t.sample.energyUJ.Some? {
      var stepJ := Joules(MeterUJ(s, m.exec.book.meter, t.sample.At(t.sample.energyUJ.value)));
      CycleLeavesRunning(s, m.energy, m.exec, stepJ, t.cycle);
    }
  }

  lemma {:induction false} LoopLeavesRunning(s: Socket, e: EnergyState, x: Exec, cycle: PauseCycle, postedJ: real, polls: seq<Poll>)
    ensures PollLoop(s, e, x, cycle, postedJ, polls).exit.Resumed? ==> !PollLoop(s, e, x, cycle, postedJ, polls).exec.book.meter.frozen
    ensures !PollLoop(s, e, x, cycle, postedJ, polls).exit.Unfrozen?
    decreases |polls|
  {
    hide Obey;
    if polls != [] {
      assert (Obey(s, e, x, cycle, polls[0]).exit.Resumed? ==> !Obey(s, e, x, cycle, polls[0]).exec.book.meter.frozen)
             && !Obey(s, e, x, cycle, polls[0]).exit.Unfrozen? by {
        hide NeverKill, RefineCycle;
        ObeyIs(s, e, x, cycle, polls[0]);
      }
      var q := Obey(s, e, x, cycle, polls[0]);
      LoopLeavesRunning(s, e, q.exec, q.cycle, postedJ, polls[1..]);
    }
  }

  lemma CycleLeavesRunning(s: Socket, e: EnergyState, x: Exec, stepJ: real, env: CycleEnv)
    requires !x.book.meter.frozen
    ensures var q := RunPauseCycle(s, e, x, stepJ, env); q.exit.Resumed? || q.exit.Unfrozen? ==> !q.exec.book.meter.frozen
  {
    hide PollLoop, EnterFreeze;
    var x1 := x.(ctl := FreezeReply(x.ctl, env.pauseID, env.freezeOk).ctl);
    var (x2, cycle2) := EnterFreeze(s, e, x1, stepJ, NewCycle(e, env.pauseID, e.consumedBeforeJ + stepJ), env.freezeSample);
    LoopLeavesRunning(s, e, x2, cycle2, cycle2.energyAtEffectiveFreezeJ, env.polls);
  }

  // --------------------------------------------------------------------- what is measured of a step

  /**
   The energy reinjected for the next step is what the monitor's meter shows at the end of this one,
   corrected by the first segment.
   */
  lemma MeasuredVersusEnforced(s: Socket, ctl: Ctl, energy: Option<EnergyState>, inv: Invocation)
    requires Monitored(s, ctl, energy, inv).Some?
    ensures var run := Monitored(s, ctl, energy, inv);
            MeasuredForStep(s, inv, run)
            == Joules(MeterUJ(s, run.value.monitor.exec.book.meter, inv.end) + StartGapUJ(s, inv, FirstStop(inv.end, MarksOf(run))))
  {
    hide MonitorEnergy, Segmented, AttributedUJ, MeterUJ;
    var start := MonitorStart(inv);
    MonitorAgreesWithBatch(s, start, ctl, energy.value, inv.ticks, inv.end);
    FirstSegmentDecides(s, start, inv.start, inv.end, MarksOf(Monitored(s, ctl, energy, inv)));
  }

  /** The container's CPU counter never runs backwards from the handler's start to its end. */
  predicate TicksInOrder(inv: Invocation, run: Option<Run>) {
    match run
    case None => inv.start.ticks <= inv.end.ticks
    case Some(r) =>
      var meter := r.monitor.exec.book.meter;
      inv.start.ticks <= MonitorStart(inv).ticks && (!meter.frozen ==> meter.segment.ticks <= inv.end.ticks)
  }

  /**
   Over a whole request, from the handler's own start and over any number of pauses, CPU time is
   counted once: never more than the container used, and all of it exactly when no segment with CPU
   time shows zero energy or zero duration.
   */
  lemma StepCountsCPUOnce(s: Socket, ctl: Ctl, energy: Option<EnergyState>, inv: Invocation)
    requires TicksInOrder(inv, Monitored(s, ctl, energy, inv))
    ensures var marks := MarksOf(Monitored(s, ctl, energy, inv));
            var detail := Segmented(s, inv.start, inv.end, marks);
            && detail.processUsec <= Stop(inv.end, marks).ticks - inv.start.ticks
            && (detail.processUsec == Stop(inv.end, marks).ticks - inv.start.ticks
                <==> NoBlindSegment(s, Executed(inv.start, inv.end, marks)))
  {
    hide MonitorEnergy, Segmented, NoBlindSegment;
    var run := Monitored(s, ctl, energy, inv);
    var marks := MarksOf(run);
    if run.Some? {
      var start := MonitorStart(inv);
      CoupledAtStart(s, start);
      MonitorKeepsCoupling(s, start, Started(ctl, start, energy.value), inv.ticks);
      CoupledTicksAdvance(s, start, run.value.monitor.exec.book, inv.end);
      EarlierStartAdvances(start, inv.start, inv.end, marks);
    }
    CPUTimeCountedOnce(s, inv.start, inv.end, marks);
  }

  lemma EarlierStartAdvances(start: Reading, start': Reading, end: Reading, marks: seq<FreezeMark>)
    requires start'.ticks <= start.ticks && TicksAdvance(Executed(start, end, marks))
    ensures TicksAdvance(Executed(start', end, marks))
  {
    var a, b := Executed(start, end, marks), Executed(start', end, marks);
    forall i | 0 <= i < |b|
      ensures b[i].from.ticks <= b[i].to.ticks
    {
      ExecutedAt(start, end, marks, i);
      ExecutedAt(start', end, marks, i);
      assert a[i].from.ticks <= a[i].to.ticks;
    }
  }

  /** Without wrapping, a step hands on at most what the node used from its start to its stop, freezes excluded. */
  lemma StepMeasuredWithinNode(s: Socket, inv: Invocation, run: Option<Run>)
    requires NonWrapping(Executed(inv.start, inv.end, MarksOf(run)))
    ensures var marks := MarksOf(run);
            0.0 <= MeasuredForStep(s, inv, run)
                <= Joules(Stop(inv.end, marks).energyUJ - inv.start.energyUJ - GainedFrozen((r: Reading) => r.energyUJ, Finished(marks)))
  {
    StepConservesNodeEnergy(s, inv.start, inv.end, MarksOf(run));
  }
}
