/**
 Handling one /run request (openwhisk/runHandler.go, openwhisk/executor.go): extract the energy
 state, interact with the action under the monitor, then either report a kill or reinject the
 state for the next step.

 The action and the monitor run side by side; here the monitor's ticks are those it took before
 it was stopped, and Interact joins it (see `Interactions` for all the interleavings).
 */
module RunHandler {
  import opened Attribution
  import opened Options
  import opened Segments
  import opened Metering
  import opened Controller
  import opened EnergyStates
  import opened PauseCycles
  import opened PauseCycleLaws
  import opened PauseCycleEnergy
  import opened Monitors
  import opened Records

  // ---------------------------------------------------------------------------- the action's name

  /** The text after the last '/', everything if there is none. */
  function ShortActionName(qualified: string): string {
    if qualified == "" then ""
    else
      var n := |qualified| - 1;
      if qualified[n] == '/' then "" else ShortActionName(qualified[..n]) + [qualified[n]]
  }

  lemma {:induction false} ShortNameIsLastSegment(qualified: string)
    ensures var name := ShortActionName(qualified);
            var k := |qualified| - |name|;
            && 0 <= k
            && '/' !in name
            && qualified[k..] == name
            && (k == 0 || qualified[k - 1] == '/')
  {
    if qualified != "" {
      ShortNameIsLastSegment(qualified[..|qualified| - 1]);
    }
  }

  // ----------------------------------------------------------------------------- the specification

  /** What the action process answers. */
  datatype Business =
    | NoAnswer                         // it exited or closed its output
    | Garbage                          // neither an object nor an array
    | Unattachable                     // an array or null: nowhere to attach the hidden field
    | ObjectResult(fields: JSONObject)

  /**
   The outside world's part in one invocation: whether the process was found dead on arrival, and
   what happened since. `start`, `end` and `recordEnd` are the handler's own readings: when the
   request came, when the result is sent on, and when the measurement is recorded.
   */
  datatype Invocation = Invocation(
    requestedNs: int,
    activationID: string,
    exited: bool,
    monitorStart: Sample,
    ticks: seq<Tick>,
    start: Reading,
    end: Reading,
    recordEnd: Reading,
    business: Business)

  datatype KilledEvent = KilledEvent(
    traceID: string,
    reservationID: string,
    pauseID: string,
    actionName: string,
    executionPhase: string,
    energyConsumedJ: real,
    originalArguments: JSONObject)

  datatype Response =
    | NoAction
    | AlreadyExited
    | StillPaused
    | KilledResponse(event: KilledEvent)
    | CommandExited
    | BadGateway
    | PassedThrough
    | Completed(body: JSONObject)

  /** The decoded state of this step, with its own name resolved. */
  function StateFor(params: JSONObject, actionName: string): Option<EnergyState> {
    match Extract(params).state
    case None => None
    case Some(e) => Some(e.(resolvedActionName := ShortActionName(actionName)))
  }

  /** The arguments the business code receives: cleaned only when a state was decoded. */
  function Arguments(params: JSONObject): JSONObject {
    if Extract(params).state.Some? then Extract(params).cleaned else params
  }

  /** The monitor's run; it does nothing when not started or when its first reading fails. */
  function MonitoredBy(s: Socket, ctl: Ctl, energy: Option<EnergyState>, start: Sample, ticks: seq<Tick>): Option<Run> {
    if !ShouldMonitor(energy) || start.energyUJ.None? then None
    else Some(MonitorEnergy(s, Started(ctl, start.At(start.energyUJ.value), energy.value), ticks))
  }

  function Monitored(s: Socket, ctl: Ctl, energy: Option<EnergyState>, inv: Invocation): Option<Run> {
    MonitoredBy(s, ctl, energy, inv.monitorStart, inv.ticks)
  }

  function MarksOf(run: Option<Run>): seq<FreezeMark> {
    if run.Some? then run.value.monitor.exec.book.marks else []
  }

  /** The caller's energy state once the monitor was joined. */
  function Published(e: EnergyState, run: Option<Run>): EnergyState {
    if run.Some? && run.value.monitor.result.thresholdUpdated then
      e.(executionThresholdJ := run.value.monitor.result.thresholdJ)
    else
      e
  }

  datatype KillInfo = KillInfo(energyConsumedJ: real, pauseID: string)

  function KillInfoOf(run: Option<Run>): Option<KillInfo> {
    if run.Some? && run.value.monitor.result.killed then
      Some(KillInfo(run.value.monitor.result.consumedJ, run.value.monitor.result.pauseID))
    else
      None
  }

  function EnergyAfter(energy: Option<EnergyState>, run: Option<Run>): Option<EnergyState> {
    if energy.Some? then Some(Published(energy.value, run)) else None
  }

  function LifecycleOf(run: Option<Run>): Lifecycle {
    if run.Some? then Lifecycle(run.value.monitor.result.cycles, run.value.monitor.result.killCause) else Lifecycle([], "")
  }

  function MeasuredForStep(s: Socket, inv: Invocation, run: Option<Run>): real {
    Joules(Segmented(s, inv.start, inv.end, MarksOf(run)).attributedUJ)
  }

  function ResponseTo(business: Business, energy: Option<EnergyState>, measuredJ: real): Response {
    match business
    case NoAnswer => CommandExited
    case Garbage => BadGateway
    case Unattachable => PassedThrough
    case ObjectResult(fields) => Completed(Reinject(fields, energy, measuredJ))
  }

  function HandleRun(s: Socket, ctl: Ctl, params: JSONObject, actionName: string, inv: Invocation): Response {
    var energy := StateFor(params, actionName);
    var run := Monitored(s, ctl, energy, inv);
    if inv.exited then
      AlreadyExited
    else if run.Some? && run.value.status.Waiting? then
      StillPaused
    else if run.Some? && run.value.monitor.result.killed then
      var e, result := Published(energy.value, run), run.value.monitor.result;
      KilledResponse(KilledEvent(e.traceID, e.reservationID, result.pauseID, e.resolvedActionName, e.executionPhase,
                                 result.consumedJ + e.consumedBeforeJ, Arguments(params)))
    else
      ResponseTo(inv.business, EnergyAfter(energy, run), MeasuredForStep(s, inv, run))
  }

  // ------------------------------------------------------------------- what the handler guarantees

  function GrantsOf(events: seq<Event>): seq<real> {
    if events == [] then []
    else
      var last := events[|events| - 1];
      GrantsOf(events[..|events| - 1]) + if last.InForce? then [last.thresholdJ] else []
  }

  lemma {:induction false} LastInForceIsLastGranted(before: real, events: seq<Event>)
    ensures LastInForce(before, events) == LastGranted(before, GrantsOf(events))
    ensures NoneInForce(events) <==> GrantsOf(events) == []
  {
    if events != [] {
      var n := |events| - 1;
      LastInForceIsLastGranted(before, events[..n]);
      NoneInForceConcat(events[..n], [events[n]]);
      assert events == events[..n] + [events[n]];
      LastOneInForce(events[n]);
      hide NoneInForce;
    }
  }

  lemma LastOneInForce(event: Event)
    ensures NoneInForce([event]) <==> !event.InForce?
  {
    assert [event][0] == event;
  }

  function GrantsDuring(run: Option<Run>): seq<real> {
    if run.Some? then GrantsOf(run.value.events) else []
  }

  /** What the caller is handed back is the dispatched state under the last threshold granted. */
  lemma PublishedIsLastGranted(s: Socket, ctl: Ctl, e: EnergyState, inv: Invocation)
    ensures var run := Monitored(s, ctl, Some(e), inv);
            Published(e, run) == e.(executionThresholdJ := LastGranted(e.executionThresholdJ, GrantsDuring(run)))
  {
    hide MonitorEnergy, ShouldMonitor;
    var run := Monitored(s, ctl, Some(e), inv);
    if run.Some? {
      var m := Started(ctl, inv.monitorStart.At(inv.monitorStart.energyUJ.value), e);
      ThresholdFollowsGrants(s, m, inv.ticks);
      var events := run.value.events;
      LastInForceIsLastGranted(e.executionThresholdJ, events);
      LastInForceIsLastGranted(0.0, events);
    }
  }

  /** The step's own name never reaches the wire. */
  lemma NameStaysLocal(result: JSONObject, e: EnergyState, name: string, measuredJ: real)
    ensures Reinject(result, Some(e.(resolvedActionName := name)), measuredJ) == Reinject(result, Some(e), measuredJ)
  {}

  /** This request as a step of its sequence. */
  function StepOf(s: Socket, ctl: Ctl, params: JSONObject, actionName: string, inv: Invocation): Step
    requires inv.business.ObjectResult?
  {
    var run := Monitored(s, ctl, StateFor(params, actionName), inv);
    Step(GrantsDuring(run), MeasuredForStep(s, inv, run), inv.business.fields)
  }

  /**
   A completed request hands the next step exactly what `SequenceCarries` is about: the energy
   measured by segments is added, never a negative amount, and the last granted threshold rides
   along.
   */
  lemma CompletedRunIsSequenceStep(s: Socket, ctl: Ctl, params: JSONObject, actionName: string, inv: Invocation)
    requires HandleRun(s, ctl, params, actionName, inv).Completed?
    ensures inv.business.ObjectResult?
    ensures var step := StepOf(s, ctl, params, actionName, inv);
            && HandleRun(s, ctl, params, actionName, inv).body == AfterStep(params, step)
            && step.measuredJ >= 0.0
  {
    hide MonitorEnergy, Extract, Segmented, ShouldMonitor, ShortActionName, Monitored, GrantsDuring, LastGranted;
    var extracted := Extract(params).state;
    var run := Monitored(s, ctl, StateFor(params, actionName), inv);
    SegmentedNonNegative(s, inv.start, inv.end, MarksOf(run));
    if extracted.Some? {
      var e := StateFor(params, actionName).value;
      PublishedIsLastGranted(s, ctl, e, inv);
      var published := extracted.value.(executionThresholdJ := LastGranted(e.executionThresholdJ, GrantsDuring(run)));
      assert Published(e, run) == published.(resolvedActionName := e.resolvedActionName);
      NameStaysLocal(inv.business.fields, published, e.resolvedActionName, MeasuredForStep(s, inv, run));
    }
  }

  lemma SegmentedNonNegative(s: Socket, start: Reading, end: Reading, marks: seq<FreezeMark>)
    ensures Joules(Segmented(s, start, end, marks).attributedUJ) >= 0.0
  {}

  /** One request of a chain: the controller it runs on, its action and its outside world. */
  datatype Request = Request(ctl: Ctl, actionName: string, inv: Invocation)

  /** The parameters after a chain of requests that all completed. */
  function Chain(s: Socket, params: JSONObject, requests: seq<Request>): Option<JSONObject>
    decreases |requests|
  {
    if requests == [] then Some(params)
    else
      var r := HandleRun(s, requests[0].ctl, params, requests[0].actionName, requests[0].inv);
      if r.Completed? then Chain(s, r.body, requests[1..]) else None
  }

  /** The steps of a chain: what each request granted, measured and answered. */
  function StepsOf(s: Socket, params: JSONObject, requests: seq<Request>): seq<Step>
    requires Chain(s, params, requests).Some?
    decreases |requests|
  {
    if requests == [] then []
    else
      var q := requests[0];
      [StepOf(s, q.ctl, params, q.actionName, q.inv)]
      + StepsOf(s, HandleRun(s, q.ctl, params, q.actionName, q.inv).body, requests[1..])
  }

  lemma {:induction false} ChainIsSequence(s: Socket, params: JSONObject, requests: seq<Request>)
    requires Chain(s, params, requests).Some?
    ensures var steps := StepsOf(s, params, requests);
            && |steps| == |requests|
            && Chain(s, params, requests) == Some(AfterSteps(params, steps))
            && forall i :: 0 <= i < |steps| ==>
                 && steps[i].measuredJ >= 0.0
                 && requests[i].inv.business == ObjectResult(steps[i].result)
    decreases |requests|
  {
    hide AfterStep, Monitored, MeasuredForStep;
    if requests != [] {
      var q := requests[0];
      CompletedRunIsSequenceStep(s, q.ctl, params, q.actionName, q.inv);
      hide HandleRun;
      ChainIsSequence(s, HandleRun(s, q.ctl, params, q.actionName, q.inv).body, requests[1..]);
    }
  }

  /**
   Over any chain of completed requests whose results lack the anchor parameter, the state that
   reaches the last step is the dispatched one with all the measured energy added, under the last
   threshold granted on the way; the consumption never goes down and nothing else moves.
   */
  lemma ChainCarries(s: Socket, params: JSONObject, requests: seq<Request>, e: EnergyState)
    requires Extract(params).state == Some(e)
    requires Chain(s, params, requests).Some?
    requires forall i :: 0 <= i < |requests| && requests[i].inv.business.ObjectResult? ==>
               FIRST_STEP_ANCHOR_KEY !in requests[i].inv.business.fields
    ensures var steps := StepsOf(s, params, requests);
            && MeasuredJ(steps) >= 0.0
            && Extract(Chain(s, params, requests).value).state
               == Some(e.(consumedBeforeJ := e.consumedBeforeJ + MeasuredJ(steps),
                          executionThresholdJ := LastGranted(e.executionThresholdJ, AllGrants(steps))))
  {
    hide Chain, StepsOf, Extract;
    var steps := StepsOf(s, params, requests);
    ChainIsSequence(s, params, requests);
    assert forall i :: 0 <= i < |steps| ==> requests[i].inv.business == ObjectResult(steps[i].result);
    SequenceCarries(params, steps, e);
    MeasuredNeverNegative(steps);
  }

  /**
   The total reported for a step killed after an effective freeze is the final energy-at-freeze
   of its cycle's record, under that cycle's pause id, and at least what the last
   EXECUTION_PAUSED had announced.
   */
  lemma KilledEventIsSettledAtFreeze(s: Socket, ctl: Ctl, params: JSONObject, actionName: string, inv: Invocation)
    requires HandleRun(s, ctl, params, actionName, inv).KilledResponse?
    requires var energy := StateFor(params, actionName);
             energy.value.pauseEnabled && Monitored(s, ctl, energy, inv).value.monitor.result.killCause != "FREEZE_FAILED"
    ensures var event := HandleRun(s, ctl, params, actionName, inv).event;
            var run := Monitored(s, ctl, StateFor(params, actionName), inv).value;
            var cycles := run.monitor.result.cycles;
            && cycles != []
            && event.pauseID == cycles[|cycles| - 1].pauseID
            && event.energyConsumedJ == cycles[|cycles| - 1].energyAtEffectiveFreezeJ
            && LastPosted(run.events).Some?
            && LastPosted(run.events).value <= event.energyConsumedJ
  {
    hide MonitorEnergy, Extract, ShortActionName;
    var e := StateFor(params, actionName).value;
    var start := inv.monitorStart.At(inv.monitorStart.energyUJ.value);
    var m := Started(ctl, start, e);
    CoupledAtStart(s, start);
    KillSettlement(s, start, m, inv.ticks);
    ThresholdFollowsGrants(s, m, inv.ticks);
    KilledMeansStatus(s, m, inv.ticks);
  }

  /** A recorded kill is how the monitor ended. */
  lemma {:induction false} KilledMeansStatus(s: Socket, m: Monitor, ticks: seq<Tick>)
    requires !m.result.killed
    ensures var r := MonitorEnergy(s, m, ticks); r.monitor.result.killed <==> r.status.StepKilled?
    decreases |ticks|
  {
    if ticks != [] {
      TickKilledMeansStatus(s, m, ticks[0]);
      hide OnTick;
      var r := OnTick(s, m, ticks[0]);
      if r.status.Monitoring? {
        KilledMeansStatus(s, r.monitor, ticks[1..]);
      }
    }
  }

  lemma TickKilledMeansStatus(s: Socket, m: Monitor, t: Tick)
    requires !m.result.killed
    ensures var r := OnTick(s, m, t); r.monitor.result.killed <==> r.status.StepKilled?
  {
    hide RunPauseCycle, MeterUJ;
  }

  /** An unkillable step, or one whose class cannot be known, is never answered as killed. */
  lemma UnkillableIsNeverAnsweredKilled(s: Socket, ctl: Ctl, params: JSONObject, actionName: string, inv: Invocation)
    requires StateFor(params, actionName).Some? && NeverKill(StateFor(params, actionName).value)
    ensures !HandleRun(s, ctl, params, actionName, inv).KilledResponse?
  {
    hide MonitorEnergy, Extract, NeverKill, ShouldMonitor;
    var e := StateFor(params, actionName).value;
    if inv.monitorStart.energyUJ.Some? {
      UnkillableIsNeverKilled(s, Started(ctl, inv.monitorStart.At(inv.monitorStart.energyUJ.value), e), inv.ticks);
    }
  }

  /**
   The business code sees no energy bookkeeping exactly when there was none, or when a state was
   decoded and the two carriers were not mixed.
   */
  lemma ArgumentsCleanExactlyWhen(params: JSONObject)
    ensures PlumbingFree(Arguments(params))
       <==> || PlumbingFree(params)
            || (&& Extract(params).state.Some?
                && !(FIRST_STEP_ANCHOR_KEY in params && ENERGY_STATE_KEY in params)
                && (FIRST_STEP_ANCHOR_KEY !in params ==> forall k :: k in WIRE_KEYS ==> ParamKey(k) !in params))
  {}

  // ------------------------------------------------------------------------ what measurements are tagged with

  /** The trace a measurement is tagged with: the request's own parameter, or the carried state's. */
  function MeasuredTrace(params: JSONObject): string {
    var own := match Field(params, FIRST_STEP_ANCHOR_KEY)
      case String(trace) => trace
      case _ => "";
    match Extract(params).state
    case Some(e) => if own == "" then e.traceID else own
    case None => own
  }

  /** Whenever a state is decoded, the measurement and the state agree on the trace. */
  lemma MeasuredTraceIsStates(params: JSONObject)
    requires Extract(params).state.Some?
    ensures MeasuredTrace(params) == Extract(params).state.value.traceID
  {
    if FIRST_STEP_ANCHOR_KEY in params {
      assert ParamKey("trace_id") == FIRST_STEP_ANCHOR_KEY;
      assert Field(Bare(params), "trace_id") == params[FIRST_STEP_ANCHOR_KEY];
    }
  }

  /** Every step of a chain is measured under the dispatched trace and execution phase. */
  lemma ChainKeepsTrace(s: Socket, params: JSONObject, requests: seq<Request>, e: EnergyState)
    requires Extract(params).state == Some(e)
    requires Chain(s, params, requests).Some?
    requires forall i :: 0 <= i < |requests| && requests[i].inv.business.ObjectResult? ==>
               FIRST_STEP_ANCHOR_KEY !in requests[i].inv.business.fields
    ensures var last := Chain(s, params, requests).value;
            && MeasuredTrace(last) == e.traceID
            && Extract(last).state.Some?
            && Extract(last).state.value.executionPhase == e.executionPhase
  {
    hide Chain, Extract, StepsOf;
    ChainCarries(s, params, requests, e);
    MeasuredTraceIsStates(Chain(s, params, requests).value);
  }

  // ------------------------------------------------------------------------------ the order of effects

  datatype Effect =
    | Pushed(record: Record)   // and arrived, before going on
    | ExecutorDropped
    | KilledPosted(event: KilledEvent)
    | Responded(response: Response)

  /** A kill settled at some energy is never recorded as zero: the settled energy stands in. */
  function WithFallback(attributedUJ: int, fallbackJ: real): int {
    if attributedUJ == 0 && fallbackJ > 0.0 then (fallbackJ * 1000000.0).Floor else attributedUJ
  }

  /** The measurement of one request. */
  function EntryOf(s: Socket, params: JSONObject, inv: Invocation, marks: seq<FreezeMark>, lifecycle: Lifecycle, fallbackJ: real): Entry {
    var detail := Segmented(s, inv.start, inv.recordEnd, marks);
    Entry(inv.requestedNs,
          inv.recordEnd.wallNs,
          MeasuredTrace(params),
          inv.activationID,
          match Extract(params).state { case Some(e) => e.executionPhase case None => "" },
          WithFallback(detail.attributedUJ, fallbackJ),
          detail,
          lifecycle)
  }

  /** The energy a kill was settled at, which stands in for a measurement of zero. */
  function FallbackJ(run: Option<Run>): real {
    match KillInfoOf(run)
    case Some(info) => info.energyConsumedJ
    case None => 0.0
  }

  function RunRecord(s: Socket, ctl: Ctl, params: JSONObject, actionName: string, inv: Invocation): Record {
    var run := Monitored(s, ctl, StateFor(params, actionName), inv);
    Record("/run", EntryOf(s, params, inv, MarksOf(run), LifecycleOf(run), FallbackJ(run)))
  }

  /** The answers that follow a recorded measurement. */
  predicate IsRecorded(response: Response) {
    response.KilledResponse? || response.Completed? || response.PassedThrough?
  }

  function AllPushed(records: seq<Record>): (effects: seq<Effect>)
    ensures |effects| == |records|
  {
    seq(|records|, i requires 0 <= i < |records| => Pushed(records[i]))
  }

  /** What others see of a request that ends this way, in order; `pushes` if it is recorded. */
  function EffectsOf(response: Response, pushes: seq<Record>): seq<Effect> {
    match response
    case StillPaused => []
    case KilledResponse(event) => AllPushed(pushes) + [ExecutorDropped, KilledPosted(event), Responded(response)]
    case CommandExited => [ExecutorDropped, Responded(response)]
    case PassedThrough => AllPushed(pushes) + [Responded(response)]
    case Completed(_) => AllPushed(pushes) + [Responded(response)]
    case _ => [Responded(response)]
  }

  /** Everything the handler does for one request that others can see, in order. */
  function Effects(s: Socket, l: Ledger, ctl: Ctl, params: JSONObject, actionName: string, inv: Invocation): seq<Effect> {
    EffectsOf(HandleRun(s, ctl, params, actionName, inv), PushesOf(l, RunRecord(s, ctl, params, actionName, inv)))
  }

  function LedgerAfter(s: Socket, l: Ledger, limit: int, ctl: Ctl, params: JSONObject, actionName: string, inv: Invocation): Ledger {
    if IsRecorded(HandleRun(s, ctl, params, actionName, inv)) then
      RecordMetrics(l, limit, RunRecord(s, ctl, params, actionName, inv))
    else
      l
  }

  /** The records that reached the collector among these effects. */
  function PushesIn(effects: seq<Effect>): seq<Record> {
    if effects == [] then []
    else (if effects[0].Pushed? then [effects[0].record] else []) + PushesIn(effects[1..])
  }

  lemma {:induction false} PushesInAll(records: seq<Record>, rest: seq<Effect>)
    ensures PushesIn(AllPushed(records) + rest) == records + PushesIn(rest)
  {
    var effects := AllPushed(records) + rest;
    if records == [] {
      assert effects == rest;
    } else {
      assert effects[1..] == AllPushed(records[1..]) + rest;
      PushesInAll(records[1..], rest);
      assert records == [records[0]] + records[1..];
    }
  }

  lemma {:induction false} NoPushIn(effects: seq<Effect>)
    requires forall i :: 0 <= i < |effects| ==> !effects[i].Pushed?
    ensures PushesIn(effects) == []
  {
    if effects != [] {
      NoPushIn(effects[1..]);
    }
  }

  lemma PushesThenOthers(records: seq<Record>, others: seq<Effect>, n: nat)
    requires n <= |others| && forall i :: 0 <= i < |others| ==> !others[i].Pushed?
    ensures PushesIn((AllPushed(records) + others)[..|records| + n]) == records
  {
    assert (AllPushed(records) + others)[..|records| + n] == AllPushed(records) + others[..n];
    PushesInAll(records, others[..n]);
    NoPushIn(others[..n]);
  }

  /** Someone else can act on this: the event is posted, a recorded answer given, the executor given up after a kill. */
  predicate Tells(response: Response, effect: Effect) {
    IsRecorded(response) && !effect.Pushed?
  }

  /** The effects of a request push exactly what is due, and everything else comes after it. */
  lemma PushedFirst(response: Response, pushes: seq<Record>, i: nat)
    requires i < |EffectsOf(response, pushes)|
    ensures var effects := EffectsOf(response, pushes);
            && PushesIn(effects) == (if IsRecorded(response) then pushes else [])
            && (Tells(response, effects[i]) ==> PushesIn(effects[..i]) == pushes)
            && (effects[i].Responded? <==> i == |effects| - 1)
  {
    hide PushesIn;
    var effects := EffectsOf(response, pushes);
    if IsRecorded(response) {
      var others := effects[|pushes|..];
      assert effects == AllPushed(pushes) + others;
      PushesThenOthers(pushes, others, |others|);
      assert effects[..|pushes| + |others|] == effects;
      if !effects[i].Pushed? {
        PushesThenOthers(pushes, others, i - |pushes|);
      }
    } else {
      NoPushIn(effects);
    }
  }

  /**
   Whoever learns of a request finds its measurement in the ledger: before the executor of a killed
   step is given up, its event posted, or a killed, completed or passed-through request answered,
   everything this request pushes has been pushed - the held-back /init first, then its /run - and
   nothing else ever is.
   */
  lemma RecordedBeforeTold(s: Socket, l: Ledger, limit: int, ctl: Ctl, params: JSONObject, actionName: string, inv: Invocation, i: nat)
    requires i < |Effects(s, l, ctl, params, actionName, inv)|
    ensures var effects := Effects(s, l, ctl, params, actionName, inv);
            var after := LedgerAfter(s, l, limit, ctl, params, actionName, inv);
            && after.pushes == l.pushes + PushesIn(effects)
            && (Tells(HandleRun(s, ctl, params, actionName, inv), effects[i]) ==>
                  && after.pushes == l.pushes + PushesIn(effects[..i])
                  && after.pushes[|after.pushes| - 1] == RunRecord(s, ctl, params, actionName, inv)
                  && after.pending == None)
            && (effects[i].Responded? <==> i == |effects| - 1)
  {
    hide HandleRun, EntryOf, PushesIn, EffectsOf, AddEntry;
    var r := RunRecord(s, ctl, params, actionName, inv);
    PushedFirst(HandleRun(s, ctl, params, actionName, inv), PushesOf(l, r), i);
    assert l.pushes + [] == l.pushes;
  }

  // --------------------------------------------------------------------------- the source's objects

  /** Runs the action under the monitor and joins it; `finished` is false while it is paused. */
  method Interact(proc: Executor, s: Socket, energy: Option<EnergyState>, inv: Invocation)
    returns (answer: Business, killInfo: Option<KillInfo>, lifecycle: Lifecycle, energy': Option<EnergyState>, finished: bool)
    modifies proc.controller, proc.marks
    ensures var run := Monitored(s, old(proc.controller.Value()), energy, inv);
            && finished == !(run.Some? && run.value.status.Waiting?)
            && (finished ==>
                  && answer == inv.business
                  && proc.marks.marks == MarksOf(run)
                  && killInfo == KillInfoOf(run)
                  && lifecycle == LifecycleOf(run)
                  && energy' == EnergyAfter(energy, run))
            && proc.controller.Value() == if run.Some? then run.value.monitor.exec.ctl else old(proc.controller.Value())
  {
    hide MonitorEnergy;
    proc.marks.Reset();
    answer, killInfo, lifecycle, energy', finished := inv.business, None, Lifecycle([], ""), energy, true;
    if ShouldMonitor(energy) {
      var result := new EnergyMonitorResult();
      var status, _, _, _ := proc.MonitorEnergy(s, energy.value, inv.monitorStart, inv.ticks, result);
      if status.Waiting? {
        return NoAnswer, None, lifecycle, energy, false;
      }
      if result.killed {
        killInfo := Some(KillInfo(result.consumedJ, result.pauseID));
      }
      if result.thresholdUpdated {
        energy' := Some(energy.value.(executionThresholdJ := result.thresholdJ));
      }
      lifecycle := Lifecycle(result.cycles, result.killCause);
    }
  }

  class ActionProxy {
    var theExecutor: Executor?
    const recorder: Recorder

    constructor (proc: Executor?, limit: int)
      ensures theExecutor == proc && fresh(recorder) && fresh(recorder.metrics)
      ensures recorder.Value() == EMPTY && recorder.metrics.limit == limit
    {
      theExecutor := proc;
      recorder := new Recorder(limit);
    }

    method Handle(s: Socket, params: JSONObject, actionName: string, inv: Invocation)
      returns (response: Response, effects: seq<Effect>)
      modifies this, recorder, recorder.metrics, if theExecutor == null then {} else {theExecutor.controller, theExecutor.marks}
      ensures old(theExecutor) == null ==>
                response == NoAction && theExecutor == null && effects == [Responded(NoAction)] && recorder.Value() == old(recorder.Value())
      ensures old(theExecutor) != null ==>
                var ctl, l := old(theExecutor.controller.Value()), old(recorder.Value());
                && response == HandleRun(s, ctl, params, actionName, inv)
                && effects == Effects(s, l, ctl, params, actionName, inv)
                && recorder.Value() == LedgerAfter(s, l, recorder.metrics.limit, ctl, params, actionName, inv)
                && theExecutor == if response.KilledResponse? || response.CommandExited? then null else old(theExecutor)
    {
      hide MonitorEnergy, Segmented, Extract, EntryOf, Reinject, ShortActionName, RecordMetrics, PushesOf, AllPushed;
      if theExecutor == null {
        return NoAction, [Responded(NoAction)];
      }
      if inv.exited {
        return AlreadyExited, [Responded(AlreadyExited)];
      }
      var extracted, cleaned := ExtractEnergyState(params);
      var arguments := params;
      var energy: Option<EnergyState> := None;
      if extracted.Some? {
        arguments := cleaned;
        energy := Some(extracted.value.(resolvedActionName := ShortActionName(actionName)));
      }
      var answer, killInfo, lifecycle, energy', finished := Interact(theExecutor, s, energy, inv);
      if !finished {
        return StillPaused, [];
      }
      if killInfo.Some? {
        var e := energy'.value;
        var event := KilledEvent(e.traceID, e.reservationID, killInfo.value.pauseID, e.resolvedActionName,
                                 e.executionPhase, killInfo.value.energyConsumedJ + e.consumedBeforeJ, arguments);
        effects := RecordRun(s, params, inv, lifecycle, killInfo.value.energyConsumedJ);
        theExecutor := null;
        response := KilledResponse(event);
        effects := effects + [ExecutorDropped, KilledPosted(event), Responded(response)];
        return;
      }
      response, effects := Answer(s, params, inv, answer, lifecycle, energy');
    }

    /** The end of a request that was not killed. */
    method Answer(s: Socket, params: JSONObject, inv: Invocation, answer: Business, lifecycle: Lifecycle, energy: Option<EnergyState>)
      returns (response: Response, effects: seq<Effect>)
      requires theExecutor != null
      modifies this, recorder, recorder.metrics
      ensures response == ResponseTo(answer, energy, Joules(Segmented(s, inv.start, inv.end, old(theExecutor.marks.marks)).attributedUJ))
      ensures var r := Record("/run", EntryOf(s, params, inv, old(theExecutor.marks.marks), lifecycle, 0.0));
              && effects == EffectsOf(response, PushesOf(old(recorder.Value()), r))
              && recorder.Value() == if IsRecorded(response) then RecordMetrics(old(recorder.Value()), recorder.metrics.limit, r)
                                     else old(recorder.Value())
      ensures theExecutor == if response.CommandExited? then null else old(theExecutor)
    {
      hide Segmented, EntryOf, Reinject, RecordMetrics, PushesOf, AllPushed;
      match answer {
        case NoAnswer =>
          theExecutor := null;
          return CommandExited, [ExecutorDropped, Responded(CommandExited)];
        case Garbage =>
          return BadGateway, [Responded(BadGateway)];
        case Unattachable =>
          response := PassedThrough;
        case ObjectResult(fields) =>
          var attribution := SegmentedAttribution(s, inv.start, inv.end, theExecutor.marks.marks);
          var body := ReinjectEnergyState(fields, energy, Joules(attribution.attributedUJ));
          response := Completed(body);
      }
      effects := RecordRun(s, params, inv, lifecycle, 0.0);
      effects := effects + [Responded(response)];
    }

    /** Records the request from the marks of the executor still at hand, and pushes what is due. */
    method RecordRun(s: Socket, params: JSONObject, inv: Invocation, lifecycle: Lifecycle, fallbackJ: real)
      returns (effects: seq<Effect>)
      requires theExecutor != null
      modifies recorder, recorder.metrics
      ensures var r := Record("/run", EntryOf(s, params, inv, theExecutor.marks.marks, lifecycle, fallbackJ));
              && recorder.Value() == RecordMetrics(old(recorder.Value()), recorder.metrics.limit, r)
              && effects == AllPushed(PushesOf(old(recorder.Value()), r))
    {
      hide Segmented, Extract, MeasuredTrace, AllPushed;
      var detail := SegmentedAttribution(s, inv.start, inv.recordEnd, theExecutor.marks.marks);
      var attributedUJ := detail.attributedUJ;
      if attributedUJ == 0 && fallbackJ > 0.0 {
        attributedUJ := (fallbackJ * 1000000.0).Floor;
      }
      var extracted, _ := ExtractEnergyState(params);
      var phase := match extracted { case Some(e) => e.executionPhase case None => "" };
      var entry := Entry(inv.requestedNs, inv.recordEnd.wallNs, MeasuredTrace(params), inv.activationID, phase,
                         attributedUJ, detail, lifecycle);
      var before := |recorder.pushes|;
      recorder.RecordCall("/run", entry);
      assert recorder.pushes[before..] == PushesOf(old(recorder.Value()), Record("/run", entry));
      effects := AllPushed(recorder.pushes[before..]);
    }
  }
}
