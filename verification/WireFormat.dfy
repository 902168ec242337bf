/**
 The names and types under which the energy state travels (openwhisk/energy_state.go): ten energy_*
 parameters on the first step of a sequence, one `__energy_state` object on the later ones. Every
 name is written out here.
 */
module WireFormat {
  import opened Options
  import opened EnergyStates

  const FIRST_STEP_NAMES: set<string> := {
    "energy_trace_id", "energy_reservation_id", "energy_execution_phase", "energy_execution_threshold_j",
    "energy_consumed_before_j", "energy_pause_enabled", "energy_pause_mode", "energy_max_pause_duration_ms",
    "energy_max_pause_count", "energy_interruption_class"
  }

  lemma ShortKeysWrittenOut()
    ensures ParamKey("trace_id") == "energy_trace_id"
    ensures ParamKey("pause_mode") == "energy_pause_mode"
    ensures ParamKey("pause_enabled") == "energy_pause_enabled"
    ensures ParamKey("reservation_id") == "energy_reservation_id"
  {}

  lemma LongKeysWrittenOut()
    ensures ParamKey("execution_phase") == "energy_execution_phase"
    ensures ParamKey("max_pause_count") == "energy_max_pause_count"
  {}

  lemma ConsumedKeyWrittenOut()
    ensures ParamKey("consumed_before_j") == "energy_consumed_before_j"
  {}

  lemma ClassKeyWrittenOut()
    ensures ParamKey("interruption_class") == "energy_interruption_class"
  {}

  lemma ThresholdKeyWrittenOut()
    ensures ParamKey("execution_threshold_j") == "energy_execution_threshold_j"
  {}

  lemma DurationKeyWrittenOut()
    ensures ParamKey("max_pause_duration_ms") == "energy_max_pause_duration_ms"
  {}

  lemma ParamKeysWrittenOut()
    ensures ParamKey("trace_id") == "energy_trace_id"
    ensures ParamKey("reservation_id") == "energy_reservation_id"
    ensures ParamKey("execution_phase") == "energy_execution_phase"
    ensures ParamKey("execution_threshold_j") == "energy_execution_threshold_j"
    ensures ParamKey("consumed_before_j") == "energy_consumed_before_j"
    ensures ParamKey("pause_enabled") == "energy_pause_enabled"
    ensures ParamKey("pause_mode") == "energy_pause_mode"
    ensures ParamKey("max_pause_duration_ms") == "energy_max_pause_duration_ms"
    ensures ParamKey("max_pause_count") == "energy_max_pause_count"
    ensures ParamKey("interruption_class") == "energy_interruption_class"
  {
    hide ParamKey;
    ShortKeysWrittenOut();
    LongKeysWrittenOut();
    ConsumedKeyWrittenOut();
    ClassKeyWrittenOut();
    ThresholdKeyWrittenOut();
    DurationKeyWrittenOut();
  }

  lemma ParamKeysAreFirstStepNames()
    ensures PARAM_KEYS == FIRST_STEP_NAMES
  {
    ParamKeysWrittenOut();
    hide ParamKey;
    forall name | name in FIRST_STEP_NAMES
      ensures name in PARAM_KEYS
    {}
    forall name | name in PARAM_KEYS
      ensures name in FIRST_STEP_NAMES
    {}
  }

  // ------------------------------------------------------------------------------- well-typed fields

  predicate TextOrNull(j: JSON) {
    j.Null? || j.String?
  }

  predicate NumberOrNull(j: JSON) {
    j.Null? || j.Number?
  }

  predicate IsWhole(n: real, i: int) {
    n == i as real
  }

  /** A whole number that fits in 64 bits. */
  ghost predicate WholeOrNull(j: JSON) {
    j.Null? || (j.Number? && exists i: int :: IsWhole(j.n, i) && -9223372036854775808 <= i <= 9223372036854775807)
  }

  predicate ClassesOrNull(j: JSON) {
    j.Null? || (j.Object? && forall k :: k in j.fields ==> TextOrNull(j.fields[k]))
  }

  ghost predicate WellTypedStep(params: JSONObject) {
    && TextOrNull(Field(params, "energy_trace_id"))
    && TextOrNull(Field(params, "energy_reservation_id"))
    && TextOrNull(Field(params, "energy_execution_phase"))
    && NumberOrNull(Field(params, "energy_execution_threshold_j"))
    && NumberOrNull(Field(params, "energy_consumed_before_j"))
    && (Field(params, "energy_pause_enabled").Null? || Field(params, "energy_pause_enabled").Bool?)
    && TextOrNull(Field(params, "energy_pause_mode"))
    && WholeOrNull(Field(params, "energy_max_pause_duration_ms"))
    && WholeOrNull(Field(params, "energy_max_pause_count"))
    && ClassesOrNull(Field(params, "energy_interruption_class"))
  }

  lemma WholeNumbersDecode(j: JSON)
    ensures DecodeInt64(j).Some? <==> WholeOrNull(j)
  {
    if DecodeInt64(j).Some? && j.Number? {
      assert IsWhole(j.n, j.n.Floor);
    }
  }

  lemma ClassesDecode(j: JSON)
    ensures DecodeClasses(j).Some? <==> ClassesOrNull(j)
  {}

  /** What the decoder sees of a parameter is what was sent under its full name. */
  lemma BareField(params: JSONObject, wireKey: string)
    requires wireKey in WIRE_KEYS
    ensures Field(Bare(params), wireKey) == Field(params, ParamKey(wireKey))
  {
    hide ParamKey;
  }

  lemma BareFields(params: JSONObject)
    ensures var bare := Bare(params);
            && Field(bare, "trace_id") == Field(params, "energy_trace_id")
            && Field(bare, "reservation_id") == Field(params, "energy_reservation_id")
            && Field(bare, "execution_phase") == Field(params, "energy_execution_phase")
            && Field(bare, "execution_threshold_j") == Field(params, "energy_execution_threshold_j")
            && Field(bare, "consumed_before_j") == Field(params, "energy_consumed_before_j")
            && Field(bare, "pause_enabled") == Field(params, "energy_pause_enabled")
            && Field(bare, "pause_mode") == Field(params, "energy_pause_mode")
            && Field(bare, "max_pause_duration_ms") == Field(params, "energy_max_pause_duration_ms")
            && Field(bare, "max_pause_count") == Field(params, "energy_max_pause_count")
            && Field(bare, "interruption_class") == Field(params, "energy_interruption_class")
  {
    ParamKeysWrittenOut();
    hide ParamKey, Field, Bare;
    BareField(params, "trace_id");
    BareField(params, "reservation_id");
    BareField(params, "execution_phase");
    BareField(params, "execution_threshold_j");
    BareField(params, "consumed_before_j");
    BareField(params, "pause_enabled");
    BareField(params, "pause_mode");
    BareField(params, "max_pause_duration_ms");
    BareField(params, "max_pause_count");
    BareField(params, "interruption_class");
  }

  /** A first step's state is decoded exactly when each of its parameters is missing, null or well typed. */
  lemma DecodedExactlyWhenWellTyped(params: JSONObject)
    requires "energy_trace_id" in params
    ensures Extract(params).state.Some? <==> WellTypedStep(params)
  {
    BareFields(params);
    WholeNumbersDecode(Field(params, "energy_max_pause_duration_ms"));
    WholeNumbersDecode(Field(params, "energy_max_pause_count"));
    ClassesDecode(Field(params, "energy_interruption_class"));
    hide Field, Bare, DecodeInt64, WholeOrNull, DecodeClasses, ClassesOrNull;
  }

  // -------------------------------------------------------------------------------- the first step

  /** The parameter says this value, or it is missing or null and this is the zero value. */
  predicate Says(params: JSONObject, name: string, value: JSON, zero: bool) {
    Field(params, name) == value || (zero && Field(params, name).Null?)
  }

  function ClassesSent(classes: map<string, string>): JSON {
    Object(map k | k in classes :: String(classes[k]))
  }

  predicate SaysClasses(params: JSONObject, classes: Option<map<string, string>>) {
    Field(params, "energy_interruption_class") == match classes { case None => Null case Some(m) => ClassesSent(m) }
  }

  /** The ten parameters of a first step hold this state. */
  predicate FirstStepSays(params: JSONObject, e: EnergyState) {
    && Says(params, "energy_trace_id", String(e.traceID), e.traceID == "")
    && Says(params, "energy_reservation_id", String(e.reservationID), e.reservationID == "")
    && Says(params, "energy_execution_phase", String(e.executionPhase), e.executionPhase == "")
    && Says(params, "energy_execution_threshold_j", Number(e.executionThresholdJ), e.executionThresholdJ == 0.0)
    && Says(params, "energy_consumed_before_j", Number(e.consumedBeforeJ), e.consumedBeforeJ == 0.0)
    && Says(params, "energy_pause_enabled", Bool(e.pauseEnabled), !e.pauseEnabled)
    && Says(params, "energy_pause_mode", String(e.pauseMode), e.pauseMode == "")
    && Says(params, "energy_max_pause_duration_ms", Number(e.maxPauseDurationMs as real), e.maxPauseDurationMs == 0)
    && Says(params, "energy_max_pause_count", Number(e.maxPauseCount as real), e.maxPauseCount == 0)
    && SaysClasses(params, e.interruptionClass)
  }

  lemma ClassesReceived(classes: map<string, string>)
    ensures DecodeClasses(ClassesSent(classes)) == Some(Some(classes))
  {
    var fields := ClassesSent(classes).fields;
    assert forall k :: k in fields ==> fields[k] == String(classes[k]);
    assert (map k | k in fields :: DecodeString(fields[k]).value) == classes;
  }

  lemma ValuesDecode(text: string, number: real, flag: bool, whole: int64)
    ensures DecodeString(String(text)) == Some(text) && DecodeString(Null) == Some("")
    ensures DecodeReal(Number(number)) == Some(number) && DecodeReal(Null) == Some(0.0)
    ensures DecodeBool(Bool(flag)) == Some(flag) && DecodeBool(Null) == Some(false)
    ensures DecodeInt64(Number(whole as real)) == Some(whole) && DecodeInt64(Null) == Some(0)
  {}

  lemma SaysText(params: JSONObject, name: string, text: string)
    ensures Says(params, name, String(text), text == "") ==> DecodeString(Field(params, name)) == Some(text)
  {
    ValuesDecode(text, 0.0, false, 0);
  }

  lemma SaysNumber(params: JSONObject, name: string, number: real)
    ensures Says(params, name, Number(number), number == 0.0) ==> DecodeReal(Field(params, name)) == Some(number)
  {
    ValuesDecode("", number, false, 0);
  }

  lemma SaysFlag(params: JSONObject, name: string, flag: bool)
    ensures Says(params, name, Bool(flag), !flag) ==> DecodeBool(Field(params, name)) == Some(flag)
  {
    ValuesDecode("", 0.0, flag, 0);
  }

  lemma SaysWhole(params: JSONObject, name: string, whole: int64)
    ensures Says(params, name, Number(whole as real), whole == 0) ==> DecodeInt64(Field(params, name)) == Some(whole)
  {
    ValuesDecode("", 0.0, false, whole);
  }

  lemma SaysItsClasses(params: JSONObject, classes: Option<map<string, string>>)
    requires SaysClasses(params, classes)
    ensures DecodeClasses(Field(params, "energy_interruption_class")) == Some(classes)
  {
    if classes.Some? {
      ClassesReceived(classes.value);
    }
  }

  lemma FirstStepDecodes(params: JSONObject, e: EnergyState)
    requires FirstStepSays(params, e)
    ensures DecodeEnergyState(Bare(params)) == Some(e.(resolvedActionName := ""))
  {
    hide Field, Bare, ClassesSent, Says, SaysClasses, DecodeString, DecodeReal, DecodeBool, DecodeInt64, DecodeClasses;
    BareFields(params);
    SaysText(params, "energy_trace_id", e.traceID);
    SaysText(params, "energy_reservation_id", e.reservationID);
    SaysText(params, "energy_execution_phase", e.executionPhase);
    SaysNumber(params, "energy_execution_threshold_j", e.executionThresholdJ);
    SaysNumber(params, "energy_consumed_before_j", e.consumedBeforeJ);
    SaysFlag(params, "energy_pause_enabled", e.pauseEnabled);
    SaysText(params, "energy_pause_mode", e.pauseMode);
    SaysWhole(params, "energy_max_pause_duration_ms", e.maxPauseDurationMs);
    SaysWhole(params, "energy_max_pause_count", e.maxPauseCount);
    SaysItsClasses(params, e.interruptionClass);
  }

  /**
   The first step of a sequence: whatever state the ten parameters hold, missing and null ones
   standing for zero values, is extracted in full, and the business parameters are left as they are,
   a hidden state among them included: the parameters win over it.
   */
  lemma FirstStepExtraction(business: JSONObject, sent: JSONObject, e: EnergyState)
    requires business.Keys !! FIRST_STEP_NAMES
    requires sent.Keys <= FIRST_STEP_NAMES && "energy_trace_id" in sent && FirstStepSays(sent, e)
    ensures Extract(business + sent) == Extraction(Some(e.(resolvedActionName := "")), business)
  {
    var params := business + sent;
    forall name | name in FIRST_STEP_NAMES
      ensures Field(params, name) == Field(sent, name)
    {}
    assert FirstStepSays(params, e) by {
      hide Field, ClassesSent;
    }
    FirstStepDecodes(params, e);
    ParamKeysAreFirstStepNames();
    assert params - FIRST_STEP_NAMES == business;
    hide Bare, DecodeEnergyState, FirstStepSays;
  }

  // --------------------------------------------------------------------------------- the later steps

  /** A hidden state that is not an object, or does not decode, is stripped and counts as none. */
  lemma CorruptedStateIsDropped(params: JSONObject)
    requires "energy_trace_id" !in params && "__energy_state" in params
    ensures Extract(params).cleaned == params - {"__energy_state"}
    ensures !params["__energy_state"].Object? ==> Extract(params).state.None?
    ensures params["__energy_state"].Object? ==> Extract(params).state == DecodeEnergyState(params["__energy_state"].fields)
  {}

  /** What a completed step hands to the next one, name by name; the step's own name is not sent. */
  lemma ReinjectedAs(result: JSONObject, e: EnergyState, measuredJ: real)
    ensures var out := Reinject(result, Some(e), measuredJ);
            && out - {"__energy_state"} == result - {"__energy_state"}
            && "__energy_state" in out
            && out["__energy_state"] == Object(map[
                 "trace_id" := String(e.traceID),
                 "reservation_id" := String(e.reservationID),
                 "execution_phase" := String(e.executionPhase),
                 "execution_threshold_j" := Number(e.executionThresholdJ),
                 "consumed_before_j" := Number(e.consumedBeforeJ + measuredJ),
                 "pause_enabled" := Bool(e.pauseEnabled),
                 "pause_mode" := String(e.pauseMode),
                 "max_pause_duration_ms" := Number(e.maxPauseDurationMs as real),
                 "max_pause_count" := Number(e.maxPauseCount as real),
                 "interruption_class" := match e.interruptionClass { case None => Null case Some(m) => ClassesSent(m) }])
  {
    var out := Reinject(result, Some(e), measuredJ);
    assert out - {"__energy_state"} == result - {"__energy_state"};
  }
}
