/**
 What one /run request does (openwhisk/runHandler.go), told from its own parameters and action name:
 when it is monitored, whom it may kill, what its events and answers carry.
 */
module RequestLaws {
  import opened Attribution
  import opened Options
  import opened Segments
  import opened Metering
  import opened Controller
  import opened EnergyStates
  import opened PauseCycles
  import opened PauseCycleLaws
  import opened PauseCycleKills
  import opened PauseCycleReports
  import opened Records
  import opened RunHandler
  import opened MeasurementLaws

  // ------------------------------------------------------------------------------ the step's own name

  /** The action is called `name`, alone or behind its namespace and package. */
  predicate Called(actionName: string, name: string) {
    && '/' !in name
    && (actionName == name
        || (|actionName| > |name| && actionName[|actionName| - |name|..] == name && actionName[|actionName| - |name| - 1] == '/'))
  }

  /** There is one such name, and it is the one the request resolves. */
  lemma {:induction false} CalledByItsShortName(actionName: string, name: string)
    requires Called(actionName, name)
    ensures ShortActionName(actionName) == name
  {
    if name != "" {
      var shorter, n := actionName[..|actionName| - 1], |name| - 1;
      assert actionName[|actionName| - 1] == name[n];
      assert actionName == name ==> shorter == name[..n];
      assert actionName != name ==> shorter[|shorter| - n..] == name[..n];
      CalledByItsShortName(shorter, name[..n]);
      assert name == name[..n] + [name[n]];
    }
  }

  /**
   A step whose class map declares its action's name UNKILLABLE is never answered as killed, whatever
   the kernel does and the scheduler commands.
   */
  lemma DeclaredUnkillableIsNeverAnsweredKilled(s: Socket, ctl: Ctl, params: JSONObject, actionName: string, inv: Invocation,
                                                classes: map<string, string>, name: string)
    requires Extract(params).state.Some? && Extract(params).state.value.interruptionClass == Some(classes)
    requires Called(actionName, name) && name in classes && classes[name] == "UNKILLABLE"
    ensures !HandleRun(s, ctl, params, actionName, inv).KilledResponse?
  {
    CalledByItsShortName(actionName, name);
    hide HandleRun, Extract, ShortActionName;
    UnkillableIsNeverAnsweredKilled(s, ctl, params, actionName, inv);
  }

  // ------------------------------------------------------------------------- which requests are monitored

  /**
   A request is monitored exactly when it carries a state with a positive threshold, its first
   reading can be taken, and its action has a name if the state has a class map: the name is missing
   only when the action's ends in '/' or is empty.
   */
  lemma MonitoredExactlyWhen(s: Socket, ctl: Ctl, params: JSONObject, actionName: string, inv: Invocation)
    ensures Monitored(s, ctl, StateFor(params, actionName), inv).Some?
       <==> && Extract(params).state.Some?
            && var e := Extract(params).state.value;
            && e.executionThresholdJ > 0.0
            && (e.interruptionClass.Some? ==> actionName != "" && actionName[|actionName| - 1] != '/')
            && inv.monitorStart.energyUJ.Some?
  {
    hide MonitorEnergy, Extract;
  }

  // ------------------------------------------------------------------------------------- what a kill tells

  /**
   Every EXECUTION_KILLED carries the trace, reservation and phase the request came with, the short
   name of its action, the arguments freed of energy bookkeeping, and the energy consumed before the
   step plus the step's own by the formula over its freeze marks: whether it was killed by a pause
   cycle, after a failed freeze or locally.
   */
  lemma KilledEventCarries(s: Socket, ctl: Ctl, params: JSONObject, actionName: string, inv: Invocation, name: string)
    requires HandleRun(s, ctl, params, actionName, inv).KilledResponse? && Called(actionName, name)
    ensures Extract(params).state.Some? && Monitored(s, ctl, StateFor(params, actionName), inv).Some?
    ensures var event := HandleRun(s, ctl, params, actionName, inv).event;
            var e := Extract(params).state.value;
            && event.traceID == e.traceID
            && event.reservationID == e.reservationID
            && event.executionPhase == e.executionPhase
            && event.actionName == name
            && event.originalArguments == Extract(params).cleaned
    ensures var event := HandleRun(s, ctl, params, actionName, inv).event;
            var e := Extract(params).state.value;
            var run := Monitored(s, ctl, StateFor(params, actionName), inv).value;
            var n := QuietTicks(s, Started(ctl, MonitorStart(inv), StateFor(params, actionName).value), inv.ticks);
            && n < |inv.ticks| && inv.ticks[n].sample.energyUJ.Some?
            && event.energyConsumedJ == e.consumedBeforeJ
                 + Joules(Segmented(s, MonitorStart(inv), DecidedAt(inv.ticks[n]), run.monitor.exec.book.marks).attributedUJ)
            && event.pauseID == if e.pauseEnabled then inv.ticks[n].cycle.pauseID else ""
  {
    CalledByItsShortName(actionName, name);
    hide MonitorEnergy, Extract, ShortActionName, QuietTicks, Segmented, DecidedAt;
    var e := StateFor(params, actionName).value;
    var start := MonitorStart(inv);
    var m := Started(ctl, start, e);
    ThresholdFollowsGrants(s, m, inv.ticks);
    KilledMeansStatus(s, m, inv.ticks);
    CoupledAtStart(s, start);
    EveryKillIsSettledByFormula(s, start, m, inv.ticks);
    hide Coupled, LastInForce, NoneInForce;
  }

  // ------------------------------------------------------------------------------------ how requests end

  /** The step went through: it was neither found dead, nor killed, nor left paused. */
  predicate WentThrough(s: Socket, ctl: Ctl, params: JSONObject, actionName: string, inv: Invocation) {
    var run := Monitored(s, ctl, StateFor(params, actionName), inv);
    && !inv.exited
    && (run.Some? ==> !run.value.status.Waiting? && !run.value.monitor.result.killed)
  }

  /**
   A request whose process was alive, and whose step was neither killed nor left paused, ends by what
   the action answered: nothing gives up the executor, an unreadable answer is refused, an array or
   null is passed through, and an object goes on with its own fields, under the hidden state exactly
   when a state came in.
   */
  lemma AnsweredByTheAction(s: Socket, ctl: Ctl, params: JSONObject, actionName: string, inv: Invocation)
    requires WentThrough(s, ctl, params, actionName, inv)
    ensures var response := HandleRun(s, ctl, params, actionName, inv);
            && (response.CommandExited? <==> inv.business.NoAnswer?)
            && (response.BadGateway? <==> inv.business.Garbage?)
            && (response.PassedThrough? <==> inv.business.Unattachable?)
            && (response.Completed? <==> inv.business.ObjectResult?)
            && (response.Completed? ==>
                  && response.body - {"__energy_state"} == inv.business.fields - {"__energy_state"}
                  && (Extract(params).state.None? ==> response.body == inv.business.fields)
                  && (Extract(params).state.Some? ==> "__energy_state" in response.body))
  {
    hide MonitorEnergy, Extract, ShortActionName, Monitored, MeasuredForStep, EncodeEnergyState;
    if inv.business.ObjectResult? {
      var run := Monitored(s, ctl, StateFor(params, actionName), inv);
      OnlyTheHiddenField(inv.business.fields, EnergyAfter(StateFor(params, actionName), run), MeasuredForStep(s, inv, run));
    }
    hide Reinject;
  }

  lemma OnlyTheHiddenField(result: JSONObject, previous: Option<EnergyState>, measuredJ: real)
    ensures Reinject(result, previous, measuredJ) - {"__energy_state"} == result - {"__energy_state"}
    ensures previous.None? ==> Reinject(result, previous, measuredJ) == result
    ensures previous.Some? ==> "__energy_state" in Reinject(result, previous, measuredJ)
  {
    hide EncodeEnergyState;
  }

  /** The other ends: found dead, still paused, or killed. */
  lemma NotAnsweredByTheAction(s: Socket, ctl: Ctl, params: JSONObject, actionName: string, inv: Invocation)
    ensures var response, run := HandleRun(s, ctl, params, actionName, inv), Monitored(s, ctl, StateFor(params, actionName), inv);
            && (response.AlreadyExited? <==> inv.exited)
            && (response.StillPaused? <==> !inv.exited && run.Some? && run.value.status.Waiting?)
            && (response.KilledResponse? <==> !inv.exited && run.Some? && run.value.status.StepKilled?)
            && !response.NoAction?
  {
    hide MonitorEnergy, Extract, ShortActionName, Published, MeasuredForStep;
    if StateFor(params, actionName).Some? {
      KilledMeansStatus(s, Started(ctl, MonitorStart(inv), StateFor(params, actionName).value), inv.ticks);
    }
  }

  /** Something is recorded exactly for killed, passed-through and completed requests. */
  lemma RecordedExactlyWhen(s: Socket, l: Ledger, ctl: Ctl, params: JSONObject, actionName: string, inv: Invocation)
    ensures var effects, response := Effects(s, l, ctl, params, actionName, inv), HandleRun(s, ctl, params, actionName, inv);
            && (PushesIn(effects) != [] <==> response.KilledResponse? || response.PassedThrough? || response.Completed?)
            && (ExecutorDropped in effects <==> response.KilledResponse? || response.CommandExited?)
            && (forall event: KilledEvent :: KilledPosted(event) in effects <==> response == KilledResponse(event))
  {
    hide HandleRun, RunRecord, PushesIn;
    var effects, response := Effects(s, l, ctl, params, actionName, inv), HandleRun(s, ctl, params, actionName, inv);
    var pushes := PushesOf(l, RunRecord(s, ctl, params, actionName, inv));
    NoPushIn([]);
    if effects != [] {
      PushedFirst(response, pushes, |effects| - 1);
    }
    RunIsARun(s, ctl, params, actionName, inv);
    MembersOf(response, pushes);
  }

  lemma RunIsARun(s: Socket, ctl: Ctl, params: JSONObject, actionName: string, inv: Invocation)
    ensures RunRecord(s, ctl, params, actionName, inv).IsRun()
  {}

  lemma MembersOf(response: Response, pushes: seq<Record>)
    ensures ExecutorDropped in EffectsOf(response, pushes) <==> response.KilledResponse? || response.CommandExited?
    ensures forall event: KilledEvent :: KilledPosted(event) in EffectsOf(response, pushes) <==> response == KilledResponse(event)
  {
    var effects := EffectsOf(response, pushes);
    match response {
      case KilledResponse(event) =>
        assert effects[|pushes|] == ExecutorDropped && effects[|pushes| + 1] == KilledPosted(event);
      case CommandExited =>
        assert effects[0] == ExecutorDropped;
      case _ =>
    }
  }

  // -------------------------------------------------------------------------------- what is recorded

  /**
   The record of a request tells when it came and ended, its activation, the trace and phase it
   carries, the cycles of its pauses; and, when its closing reading is the one the result was sent on
   with, the very energy handed on to the next step.
   */
  lemma RecordTells(s: Socket, ctl: Ctl, params: JSONObject, actionName: string, inv: Invocation)
    requires Extract(params).state.Some?
    ensures var entry := RunRecord(s, ctl, params, actionName, inv).entry;
            var e, run := Extract(params).state.value, Monitored(s, ctl, StateFor(params, actionName), inv);
            && entry.start == inv.requestedNs && entry.end == inv.recordEnd.wallNs
            && entry.activationID == inv.activationID
            && entry.traceID == e.traceID && entry.executionPhase == e.executionPhase
            && (run.Some? ==> entry.lifecycle == Lifecycle(run.value.monitor.result.cycles, run.value.monitor.result.killCause))
            && (inv.recordEnd == inv.end && (run.None? || !run.value.monitor.result.killed) ==>
                  Joules(entry.attributedUJ) == MeasuredForStep(s, inv, run))
  {
    MeasuredTraceIsStates(params);
    hide MonitorEnergy, Extract, Segmented, MeasuredTrace;
  }
}
