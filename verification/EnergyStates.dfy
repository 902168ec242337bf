/**
 The energy state carried from one step of a sequence to the next (openwhisk/energy_state.go):
 the scheduler's energy_* parameters on the first step, the hidden `__energy_state` field of the
 previous step's result on the later ones.

 JSON values are a datatype; JSON text is not modelled. Joules are exact reals.
 */
module EnergyStates {
  import opened Options

  datatype JSON =
    | Null
    | Bool(b: bool)
    | Number(n: real)
    | String(s: string)
    | Array(items: seq<JSON>)
    | Object(fields: map<string, JSON>)

  type JSONObject = map<string, JSON>

  type int64 = i: int | -0x8000_0000_0000_0000 <= i < 0x8000_0000_0000_0000

  datatype EnergyState = EnergyState(
    traceID: string,
    reservationID: string,
    executionPhase: string,
    executionThresholdJ: real,
    consumedBeforeJ: real,
    pauseEnabled: bool,
    pauseMode: string,
    maxPauseDurationMs: int64,
    maxPauseCount: int64,
    interruptionClass: Option<map<string, string>>,
    resolvedActionName: string)

  const ENERGY_STATE_KEY := "__energy_state"
  const FIRST_STEP_ANCHOR_KEY := "energy_trace_id"
  const PARAM_PREFIX := "energy_"

  /** The bare names of the ten carried fields. */
  const WIRE_KEYS: set<string> := {
    "trace_id", "reservation_id", "execution_phase", "execution_threshold_j", "consumed_before_j",
    "pause_enabled", "pause_mode", "max_pause_duration_ms", "max_pause_count", "interruption_class"
  }

  /** Every energy_* parameter is the bare field name behind one fixed prefix. */
  function ParamKey(wireKey: string): string {
    PARAM_PREFIX + wireKey
  }

  const PARAM_KEYS: set<string> := set k | k in WIRE_KEYS :: ParamKey(k)

  lemma ParamKeyInjective(a: string, b: string)
    ensures ParamKey(a) == ParamKey(b) ==> a == b
    ensures ParamKey(a) != ENERGY_STATE_KEY
  {
    assert ParamKey(a)[|PARAM_PREFIX|..] == a;
    assert ParamKey(b)[|PARAM_PREFIX|..] == b;
    assert ParamKey(a)[0] == 'e';
  }

  // ---------------------------------------------------------------------- decoding and encoding

  function Field(m: JSONObject, key: string): JSON {
    if key in m then m[key] else Null
  }

  /** A missing field or a null leaves the zero value; any other type is a decoding error. */
  function DecodeString(j: JSON): Option<string> {
    match j
    case Null => Some("")
    case String(s) => Some(s)
    case _ => None
  }

  function DecodeReal(j: JSON): Option<real> {
    match j
    case Null => Some(0.0)
    case Number(n) => Some(n)
    case _ => None
  }

  function DecodeBool(j: JSON): Option<bool> {
    match j
    case Null => Some(false)
    case Bool(b) => Some(b)
    case _ => None
  }

  function DecodeInt64(j: JSON): Option<int64> {
    match j
    case Null => Some(0)
    case Number(n) =>
      if n.Floor as real == n && -0x8000_0000_0000_0000 <= n.Floor < 0x8000_0000_0000_0000 then Some(n.Floor) else None
    case _ => None
  }

  function DecodeClasses(j: JSON): Option<Option<map<string, string>>> {
    match j
    case Null => Some(None)
    case Object(fields) =>
      if forall k :: k in fields ==> DecodeString(fields[k]).Some? then
        Some(Some(map k | k in fields :: DecodeString(fields[k]).value))
      else
        None
    case _ => None
  }

  function DecodeEnergyState(m: JSONObject): Option<EnergyState> {
    var trace, reservation := DecodeString(Field(m, "trace_id")), DecodeString(Field(m, "reservation_id"));
    var phase, mode := DecodeString(Field(m, "execution_phase")), DecodeString(Field(m, "pause_mode"));
    var threshold, consumed := DecodeReal(Field(m, "execution_threshold_j")), DecodeReal(Field(m, "consumed_before_j"));
    var pause := DecodeBool(Field(m, "pause_enabled"));
    var duration, count := DecodeInt64(Field(m, "max_pause_duration_ms")), DecodeInt64(Field(m, "max_pause_count"));
    var classes := DecodeClasses(Field(m, "interruption_class"));
    if trace.Some? && reservation.Some? && phase.Some? && mode.Some? && threshold.Some? && consumed.Some?
       && pause.Some? && duration.Some? && count.Some? && classes.Some? then
      Some(EnergyState(trace.value, reservation.value, phase.value, threshold.value, consumed.value, pause.value,
                       mode.value, duration.value, count.value, classes.value, ""))
    else
      None
  }

  function EncodeClasses(classes: Option<map<string, string>>): JSON {
    match classes
    case None => Null
    case Some(m) => Object(map k | k in m :: String(m[k]))
  }

  /** The wire form: every field but the step-local action name. */
  function EncodeEnergyState(e: EnergyState): JSONObject {
    map[
      "trace_id" := String(e.traceID),
      "reservation_id" := String(e.reservationID),
      "execution_phase" := String(e.executionPhase),
      "execution_threshold_j" := Number(e.executionThresholdJ),
      "consumed_before_j" := Number(e.consumedBeforeJ),
      "pause_enabled" := Bool(e.pauseEnabled),
      "pause_mode" := String(e.pauseMode),
      "max_pause_duration_ms" := Number(e.maxPauseDurationMs as real),
      "max_pause_count" := Number(e.maxPauseCount as real),
      "interruption_class" := EncodeClasses(e.interruptionClass)
    ]
  }

  lemma ClassesSurviveTheWire(classes: Option<map<string, string>>)
    ensures DecodeClasses(EncodeClasses(classes)) == Some(classes)
  {
    if classes.Some? {
      var m := classes.value;
      var fields := EncodeClasses(classes).fields;
      assert forall k :: k in fields ==> fields[k] == String(m[k]);
      assert (map k | k in fields :: DecodeString(fields[k]).value) == m;
    }
  }

  lemma StateSurvivesTheWire(e: EnergyState)
    ensures DecodeEnergyState(EncodeEnergyState(e)) == Some(e.(resolvedActionName := ""))
  {
    ClassesSurviveTheWire(e.interruptionClass);
  }

  // ------------------------------------------------------------------------------- extraction

  /** The energy_* parameters present, under their bare names. */
  function Bare(params: JSONObject): JSONObject {
    map k | k in WIRE_KEYS && ParamKey(k) in params :: params[ParamKey(k)]
  }

  datatype Extraction = Extraction(state: Option<EnergyState>, cleaned: JSONObject)

  function Extract(params: JSONObject): Extraction {
    if FIRST_STEP_ANCHOR_KEY in params then
      Extraction(DecodeEnergyState(Bare(params)), params - PARAM_KEYS)
    else if ENERGY_STATE_KEY in params then
      Extraction(match params[ENERGY_STATE_KEY]
                 case Object(fields) => DecodeEnergyState(fields)
                 case _ => None,
                 params - {ENERGY_STATE_KEY})
    else
      Extraction(None, params)
  }

  /** Neither an energy_* parameter nor the hidden state field. */
  predicate PlumbingFree(m: JSONObject) {
    ENERGY_STATE_KEY !in m && forall k :: k in WIRE_KEYS ==> ParamKey(k) !in m
  }

  /**
   The extracted parameters are promised to hold no energy bookkeeping "in every case". They do
   exactly when the two carriers are not mixed: no hidden state beside the anchor parameter, and
   no energy_* parameter without the anchor.
   */
  lemma CleanedExactlyWhenNotMixed(params: JSONObject)
    ensures PlumbingFree(Extract(params).cleaned)
       <==> && !(FIRST_STEP_ANCHOR_KEY in params && ENERGY_STATE_KEY in params)
            && (FIRST_STEP_ANCHOR_KEY !in params ==> forall k :: k in WIRE_KEYS ==> ParamKey(k) !in params)
  {}

  /** The concrete failures: a hidden state beside the anchor, and an energy_* parameter without it. */
  lemma MixedCarriersLeak()
    ensures ENERGY_STATE_KEY in Extract(map["energy_trace_id" := String("t"), "__energy_state" := Null]).cleaned
    ensures "energy_pause_mode" in Extract(map["energy_pause_mode" := String("hold")]).cleaned
    ensures !PlumbingFree(Extract(map["energy_pause_mode" := String("hold")]).cleaned)
  {
    ParamKeyInjective("pause_mode", "trace_id");
    assert ParamKey("pause_mode") == "energy_pause_mode";
    assert "energy_pause_mode"[7] != FIRST_STEP_ANCHOR_KEY[7] && "energy_pause_mode"[0] != ENERGY_STATE_KEY[0];
    assert ENERGY_STATE_KEY !in PARAM_KEYS;
  }

  /** A business parameter is never lost and never altered by the extraction. */
  lemma BusinessParametersUntouched(params: JSONObject, key: string)
    requires key != ENERGY_STATE_KEY && key !in PARAM_KEYS
    ensures key in Extract(params).cleaned <==> key in params
    ensures key in params ==> Extract(params).cleaned[key] == params[key]
  {}

  // ------------------------------------------------------------------------------ reinjection

  function Reinject(result: JSONObject, previous: Option<EnergyState>, measuredJ: real): JSONObject {
    match previous
    case None => result
    case Some(e) =>
      result[ENERGY_STATE_KEY := Object(EncodeEnergyState(e.(consumedBeforeJ := e.consumedBeforeJ + measuredJ)))]
  }

  /**
   The next step extracts what this one reinjected: the previous state with the measured energy
   added and the step-local name cleared, and the business result without the hidden field.
   */
  lemma ReinjectThenExtract(result: JSONObject, previous: EnergyState, measuredJ: real)
    requires FIRST_STEP_ANCHOR_KEY !in result
    ensures Extract(Reinject(result, Some(previous), measuredJ))
         == Extraction(Some(previous.(consumedBeforeJ := previous.consumedBeforeJ + measuredJ, resolvedActionName := "")),
                       result - {ENERGY_STATE_KEY})
  {
    var updated := previous.(consumedBeforeJ := previous.consumedBeforeJ + measuredJ);
    var out := Reinject(result, Some(previous), measuredJ);
    StateSurvivesTheWire(updated);
    assert ENERGY_STATE_KEY != FIRST_STEP_ANCHOR_KEY by {
      assert ENERGY_STATE_KEY[0] == '_';
    }
    assert out - {ENERGY_STATE_KEY} == result - {ENERGY_STATE_KEY};
  }

  // -------------------------------------------------------------------------- the source's loops

  method CopyOf(m: JSONObject) returns (copy: JSONObject)
    ensures copy == m
  {
    copy := map[];
    var keys := m.Keys;
    while keys != {}
      invariant keys <= m.Keys && copy.Keys == m.Keys - keys
      invariant forall k :: k in copy ==> copy[k] == m[k]
      decreases |keys|
    {
      var k :| k in keys;
      copy := copy[k := m[k]];
      keys := keys - {k};
    }
  }

  function TakenParams(params: JSONObject, wireKeys: set<string>): JSONObject {
    map k | k in wireKeys && ParamKey(k) in params :: params[ParamKey(k)]
  }

  function ParamKeysOf(wireKeys: set<string>): set<string> {
    set k | k in wireKeys :: ParamKey(k)
  }

  /** Moves the named parameters out of `params`, under their bare names. */
  method TakeParams(params: JSONObject, wireKeys: set<string>) returns (bare: JSONObject, cleaned: JSONObject)
    ensures bare == map k | k in wireKeys && ParamKey(k) in params :: params[ParamKey(k)]
    ensures cleaned == params - set k | k in wireKeys :: ParamKey(k)
  {
    bare, cleaned := map[], params;
    var rest := wireKeys;
    while rest != {}
      invariant rest <= wireKeys
      invariant bare == TakenParams(params, wireKeys - rest)
      invariant cleaned == params - ParamKeysOf(wireKeys - rest)
      decreases |rest|
    {
      hide *;
      var k :| k in rest;
      OneMoreTaken(params, wireKeys - rest, k);
      assert wireKeys - (rest - {k}) == (wireKeys - rest) + {k};
      if ParamKey(k) in cleaned {
        bare := bare[k := cleaned[ParamKey(k)]];
      }
      cleaned := cleaned - {ParamKey(k)};
      rest := rest - {k};
    }
    assert wireKeys - rest == wireKeys;
  }

  /** A parameter not taken yet has not been deleted by taking the others. */
  lemma OneMoreTaken(params: JSONObject, taken: set<string>, k: string)
    requires k !in taken
    ensures var cleaned := params - ParamKeysOf(taken);
            && (ParamKey(k) in cleaned <==> ParamKey(k) in params)
            && cleaned - {ParamKey(k)} == params - ParamKeysOf(taken + {k})
            && TakenParams(params, taken + {k})
               == if ParamKey(k) in cleaned then TakenParams(params, taken)[k := cleaned[ParamKey(k)]] else TakenParams(params, taken)
  {
    forall j | j in taken
      ensures ParamKey(j) != ParamKey(k)
    {
      ParamKeyInjective(j, k);
    }
    hide ParamKey;
    assert ParamKeysOf(taken + {k}) == ParamKeysOf(taken) + {ParamKey(k)};
  }

  method ExtractEnergyState(params: JSONObject) returns (state: Option<EnergyState>, cleaned: JSONObject)
    ensures Extraction(state, cleaned) == Extract(params)
  {
    cleaned := CopyOf(params);
    if FIRST_STEP_ANCHOR_KEY in cleaned {
      var bare;
      bare, cleaned := TakeParams(cleaned, WIRE_KEYS);
      return DecodeEnergyState(bare), cleaned;
    }
    if ENERGY_STATE_KEY in cleaned {
      var raw := cleaned[ENERGY_STATE_KEY];
      cleaned := cleaned - {ENERGY_STATE_KEY};
      if !raw.Object? {
        return None, cleaned;
      }
      return DecodeEnergyState(raw.fields), cleaned;
    }
    return None, cleaned;
  }

  method ReinjectEnergyState(result: JSONObject, previous: Option<EnergyState>, measuredJ: real) returns (out: JSONObject)
    ensures out == Reinject(result, previous, measuredJ)
  {
    if previous.None? {
      return result;
    }
    var updated := previous.value.(consumedBeforeJ := previous.value.consumedBeforeJ + measuredJ);
    out := CopyOf(result);
    out := out[ENERGY_STATE_KEY := Object(EncodeEnergyState(updated))];
  }

  // --------------------------------------------------------------------------- a whole sequence

  /** What one completed step contributes: thresholds granted, energy measured, object result. */
  datatype Step = Step(grants: seq<real>, measuredJ: real, result: JSONObject)

  function LastGranted(before: real, grants: seq<real>): real {
    if grants == [] then before else grants[|grants| - 1]
  }

  /** The parameters the next step receives. */
  function AfterStep(params: JSONObject, step: Step): JSONObject {
    match Extract(params).state
    case None => Reinject(step.result, None, step.measuredJ)
    case Some(e) =>
      var published := e.(executionThresholdJ := LastGranted(e.executionThresholdJ, step.grants));
      Reinject(step.result, Some(published), step.measuredJ)
  }

  function AfterSteps(params: JSONObject, steps: seq<Step>): JSONObject
    decreases |steps|
  {
    if steps == [] then params else AfterSteps(AfterStep(params, steps[0]), steps[1..])
  }

  function MeasuredJ(steps: seq<Step>): real {
    if steps == [] then 0.0 else steps[0].measuredJ + MeasuredJ(steps[1..])
  }

  function AllGrants(steps: seq<Step>): seq<real> {
    if steps == [] then [] else steps[0].grants + AllGrants(steps[1..])
  }

  /**
   Over any chain of completed steps, the carried consumption is the dispatched one plus all the
   energy measured, the carried threshold is the last one granted in any earlier step or else the
   dispatched one, and every other field is carried unchanged.
   */
  lemma {:induction false} SequenceCarries(params: JSONObject, steps: seq<Step>, e: EnergyState)
    requires Extract(params).state == Some(e)
    requires forall i :: 0 <= i < |steps| ==> FIRST_STEP_ANCHOR_KEY !in steps[i].result
    ensures Extract(AfterSteps(params, steps)).state
         == Some(e.(consumedBeforeJ := e.consumedBeforeJ + MeasuredJ(steps),
                    executionThresholdJ := LastGranted(e.executionThresholdJ, AllGrants(steps))))
    decreases |steps|
  {
    hide Extract, Reinject, AfterStep;
    if steps != [] {
      StepCarries(params, steps[0], e);
      var e' := e.(consumedBeforeJ := e.consumedBeforeJ + steps[0].measuredJ,
                   executionThresholdJ := LastGranted(e.executionThresholdJ, steps[0].grants));
      SequenceCarries(AfterStep(params, steps[0]), steps[1..], e');
      LastGrantedOfConcatenation(e.executionThresholdJ, steps[0].grants, AllGrants(steps[1..]));
      assert AfterSteps(params, steps) == AfterSteps(AfterStep(params, steps[0]), steps[1..]);
    }
  }

  lemma LastGrantedOfConcatenation(before: real, a: seq<real>, b: seq<real>)
    ensures LastGranted(before, a + b) == LastGranted(LastGranted(before, a), b)
  {}

  lemma ExtractedNameIsCleared(params: JSONObject)
    ensures Extract(params).state.Some? ==> Extract(params).state.value.resolvedActionName == ""
  {}

  lemma StepCarries(params: JSONObject, step: Step, e: EnergyState)
    requires Extract(params).state == Some(e)
    requires FIRST_STEP_ANCHOR_KEY !in step.result
    ensures Extract(AfterStep(params, step)).state
         == Some(e.(consumedBeforeJ := e.consumedBeforeJ + step.measuredJ,
                    executionThresholdJ := LastGranted(e.executionThresholdJ, step.grants)))
  {
    ExtractedNameIsCleared(params);
    hide Extract, Reinject;
    var published := e.(executionThresholdJ := LastGranted(e.executionThresholdJ, step.grants));
    ReinjectThenExtract(step.result, published, step.measuredJ);
  }

  lemma {:induction false} MeasuredNeverNegative(steps: seq<Step>)
    requires forall i :: 0 <= i < |steps| ==> steps[i].measuredJ >= 0.0
    ensures MeasuredJ(steps) >= 0.0
  {
    if steps != [] {
      MeasuredNeverNegative(steps[1..]);
    }
  }

  /** Along a sequence, the carried consumption never goes down. */
  lemma ConsumptionNeverDecreases(params: JSONObject, earlier: seq<Step>, later: seq<Step>, e: EnergyState)
    requires Extract(params).state == Some(e)
    requires forall i :: 0 <= i < |earlier| ==> FIRST_STEP_ANCHOR_KEY !in earlier[i].result
    requires forall i :: 0 <= i < |later| ==> FIRST_STEP_ANCHOR_KEY !in later[i].result && later[i].measuredJ >= 0.0
    ensures var before := Extract(AfterSteps(params, earlier)).state;
            var after := Extract(AfterSteps(AfterSteps(params, earlier), later)).state;
            before.Some? && after.Some? && before.value.consumedBeforeJ <= after.value.consumedBeforeJ
  {
    SequenceCarries(params, earlier, e);
    var carried := Extract(AfterSteps(params, earlier)).state.value;
    SequenceCarries(AfterSteps(params, earlier), later, carried);
    MeasuredNeverNegative(later);
  }
}
