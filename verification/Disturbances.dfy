/**
 What the rest of the node can change about a run of the monitor: nothing. Whatever other
 containers burn while the step is frozen, however long it stays frozen, and wherever the energy
 register wraps, the monitor takes the same decisions, posts the same values and settles the same
 energy as it would alone on an unbounded counter.
 */
module Disturbances {
  import opened Attribution
  import opened Options
  import opened Segments
  import opened Metering
  import opened Controller
  import opened EnergyStates
  import opened PauseCycles

  /** What others used, and how long went by, in the pauses so far. */
  datatype Shift = Shift(energyUJ: nat, wallNs: nat) {
    function Plus(more: Shift): Shift {
      Shift(energyUJ + more.energyUJ, wallNs + more.wallNs)
    }
  }

  const NO_SHIFT := Shift(0, 0)

  // ------------------------------------------------------------------------ the same world, disturbed

  /** What the register shows for a reading of the undisturbed, unbounded counter. */
  function SeenUJ(s: Socket, uj: int, d: Shift): int {
    if uj >= 0 then Register(s, uj + d.energyUJ) else uj
  }

  function Seen(s: Socket, r: Reading, d: Shift): Reading {
    Reading(SeenUJ(s, r.energyUJ, d), r.ticks, r.wallNs + d.wallNs)
  }

  function SampleSeen(s: Socket, sample: Sample, d: Shift): Sample {
    Sample(match sample.energyUJ { case Some(uj) => Some(SeenUJ(s, uj, d)) case None => None },
           sample.ticks, sample.wallNs + d.wallNs)
  }

  /** A resume reading; a clock that could not be read stays unread. */
  function ResumeSeen(s: Socket, sample: Sample, d: Shift): Sample {
    SampleSeen(s, sample, d).(wallNs := if sample.wallNs == 0 then 0 else sample.wallNs + d.wallNs)
  }

  function PollSeen(s: Socket, p: Poll, after: Shift): Poll {
    p.(resumeSample := ResumeSeen(s, p.resumeSample, after), nowNs := p.nowNs + after.wallNs)
  }

  function PollsSeen(s: Socket, polls: seq<Poll>, after: Shift): (seen: seq<Poll>)
    ensures |seen| == |polls|
  {
    if polls == [] then [] else [PollSeen(s, polls[0], after)] + PollsSeen(s, polls[1..], after)
  }

  function TickSeen(s: Socket, t: Tick, d: Shift, after: Shift): Tick {
    t.(sample := SampleSeen(s, t.sample, d),
       cycle := t.cycle.(freezeSample := SampleSeen(s, t.cycle.freezeSample, d), polls := PollsSeen(s, t.cycle.polls, after)))
  }

  // ------------------------------------------------------------------------------- which pauses count

  /**
   The shift after a resume: a pause that was not measured, or whose resume has no usable energy, is
   part of the running segment by design, so nothing of it may be attributed to others.
   */
  function ResumeShift(b: Book, p: Poll, d: Shift, after: Shift): Shift {
    if !b.meter.frozen then d
    else Shift(if ResumeUsable(b, p.resumeSample) then after.energyUJ else d.energyUJ, after.wallNs)
  }

  function ObeyShift(s: Socket, e: EnergyState, x: Exec, cycle: PauseCycle, p: Poll, d: Shift, after: Shift): Shift {
    if Obey(s, e, x, cycle, p).exit.Resumed? then
      ResumeShift(RefineCycle(s, e, x, cycle, p.ticksBeforeUnfreeze).0.book, p, d, after)
    else
      d
  }

  function LoopShift(s: Socket, e: EnergyState, x: Exec, cycle: PauseCycle, polls: seq<Poll>, d: Shift, after: Shift): Shift
    decreases |polls|
  {
    if polls == [] then d
    else
      var q := Obey(s, e, x, cycle, polls[0]);
      if q.exit.Again? then LoopShift(s, e, q.exec, q.cycle, polls[1..], d, after)
      else ObeyShift(s, e, x, cycle, polls[0], d, after)
  }

  function CycleShift(s: Socket, e: EnergyState, x: Exec, stepJ: real, env: CycleEnv, d: Shift, after: Shift): Shift {
    var reply := FreezeReply(x.ctl, env.pauseID, env.freezeOk);
    if reply.failed then d
    else
      var (x2, cycle2) := EnterFreeze(s, e, x.(ctl := reply.ctl), stepJ, NewCycle(e, env.pauseID, e.consumedBeforeJ + stepJ), env.freezeSample);
      LoopShift(s, e, x2, cycle2, env.polls, d, after)
  }

  function TickShift(s: Socket, m: Monitor, t: Tick, d: Shift, after: Shift): Shift {
    if t.sample.energyUJ.None? || !m.energy.pauseEnabled then d
    else
      var stepJ := Joules(MeterUJ(s, m.exec.book.meter, t.sample.At(t.sample.energyUJ.value)));
      if m.energy.consumedBeforeJ + stepJ < m.energy.executionThresholdJ then d
      else CycleShift(s, m.energy, m.exec, stepJ, t.cycle, d, after)
  }

  /** The readings of the whole run as the disturbed register gives them; `extras` is for each tick's pause. */
  function TicksSeen(s: Socket, m: Monitor, ticks: seq<Tick>, d: Shift, extras: seq<Shift>): (seen: seq<Tick>)
    requires |extras| == |ticks|
    ensures |seen| == |ticks|
    decreases |ticks|
  {
    if ticks == [] then []
    else
      var after := d.Plus(extras[0]);
      [TickSeen(s, ticks[0], d, after)]
      + TicksSeen(s, OnTick(s, m, ticks[0]).monitor, ticks[1..], TickShift(s, m, ticks[0], d, after), extras[1..])
  }

  // ----------------------------------------------------------------------------- the premise on a run

  /** A running segment that stays within the headroom above the overflow bound. */
  predicate Window(s: Socket, fromUJ: int, toUJ: int) {
    0 <= fromUJ && 0 <= toUJ - fromUJ <= s.max - s.threshold
  }

  predicate ReadsWithin(s: Socket, segment: Reading, sample: Sample) {
    sample.energyUJ.Some? ==> Window(s, segment.energyUJ, sample.energyUJ.value)
  }

  predicate TruePoll(p: Poll) {
    (p.resumeSample.energyUJ.Some? ==> p.resumeSample.energyUJ.value >= 0) && p.resumeSample.wallNs >= 0
  }

  predicate TruePolls(polls: seq<Poll>) {
    forall i :: 0 <= i < |polls| ==> TruePoll(polls[i])
  }

  predicate TrueTick(s: Socket, m: Monitor, t: Tick) {
    && ReadsWithin(s, m.exec.book.meter.segment, t.sample)
    && ReadsWithin(s, m.exec.book.meter.segment, t.cycle.freezeSample)
    && TruePolls(t.cycle.polls)
  }

  /** Readings of a true counter, each running segment within the headroom. */
  predicate TrueRun(s: Socket, m: Monitor, ticks: seq<Tick>)
    decreases |ticks|
  {
    ticks == [] || (TrueTick(s, m, ticks[0]) && TrueRun(s, OnTick(s, m, ticks[0]).monitor, ticks[1..]))
  }

  // ------------------------------------------------------------------------------- meters that agree

  lemma SeenWindow(s: Socket, from: Reading, to: Reading, d: Shift)
    requires s.threshold > 0 && Window(s, from.energyUJ, to.energyUJ)
    ensures AttributedUJ(s, Seen(s, from, d), Seen(s, to, d)) == AttributedUJ(s, from, to)
  {
    var later, later' := Later(from, d.energyUJ, d.wallNs), Later(to, d.energyUJ, d.wallNs);
    WindowThroughRegister(s, later, later');
    AttributionDependsOnGains(s, from, to, later, later');
    hide AttributionDetail, Register;
  }

  /** The two meters read the same, each in its own world. */
  predicate Alike(s: Socket, m: Meter, m': Meter, d: Shift) {
    && m'.closedUJ == m.closedUJ
    && m'.frozen == m.frozen
    && m.segment.energyUJ >= 0
    && m'.segment == Seen(s, m.segment, d)
    && (m.frozen ==>
          && Window(s, m.lastFrom.energyUJ, m.frozenAt.energyUJ)
          && m'.lastFrom == Seen(s, m.lastFrom, d)
          && m'.frozenAt == Seen(s, m.frozenAt, d)
          && m'.lastUJ == m.lastUJ)
  }

  predicate ExecAlike(s: Socket, x: Exec, x': Exec, d: Shift) {
    x'.ctl == x.ctl && Alike(s, x.book.meter, x'.book.meter, d)
  }

  lemma CloseAlike(s: Socket, b: Book, b': Book, sample: Sample, d: Shift)
    requires s.threshold > 0 && Alike(s, b.meter, b'.meter, d) && ReadsWithin(s, b.meter.segment, sample)
    ensures FreezeUsable(b', SampleSeen(s, sample, d)) == FreezeUsable(b, sample)
    ensures Alike(s, CloseSegment(s, b, sample).meter, CloseSegment(s, b', SampleSeen(s, sample, d)).meter, d)
  {
    hide AttributionDetail, Register, DeltaRAPL;
    if sample.energyUJ.Some? {
      SeenWindow(s, b.meter.segment, sample.At(sample.energyUJ.value), d);
    }
  }

  lemma RefineAlike(s: Socket, b: Book, b': Book, ticks: int, d: Shift)
    requires s.threshold > 0 && Alike(s, b.meter, b'.meter, d)
    ensures Alike(s, RefineSegment(s, b, ticks).meter, RefineSegment(s, b', ticks).meter, d)
    ensures LateTicks(b'.meter, ticks) == LateTicks(b.meter, ticks)
  {
    hide AttributionDetail, Register, DeltaRAPL;
    if b.meter.frozen {
      SeenWindow(s, b.meter.lastFrom, b.meter.frozenAt.(ticks := ticks), d);
    }
  }

  lemma OpenAlike(s: Socket, b: Book, b': Book, p: Poll, d: Shift, after: Shift)
    requires Alike(s, b.meter, b'.meter, d) && TruePoll(p)
    ensures var q := PollSeen(s, p, after);
            Alike(s, OpenSegment(b, p.resumeSample, p.nowNs).meter, OpenSegment(b', q.resumeSample, q.nowNs).meter,
                  ResumeShift(b, p, d, after))
  {
    hide Register;
  }

  lemma StepAlike(s: Socket, m: Meter, m': Meter, sample: Sample, d: Shift)
    requires s.threshold > 0 && Alike(s, m, m', d) && ReadsWithin(s, m.segment, sample) && sample.energyUJ.Some?
    ensures MeterUJ(s, m', SampleSeen(s, sample, d).At(SampleSeen(s, sample, d).energyUJ.value))
         == MeterUJ(s, m, sample.At(sample.energyUJ.value))
  {
    hide AttributionDetail, Register;
    SeenWindow(s, m.segment, sample.At(sample.energyUJ.value), d);
  }

  // ------------------------------------------------------------------------------- pauses that agree

  predicate ProgressAlike(s: Socket, q: Progress, q': Progress, d: Shift) {
    q'.cycle == q.cycle && q'.events == q.events && q'.exit == q.exit && ExecAlike(s, q.exec, q'.exec, d)
  }

  lemma RefineCycleAlike(s: Socket, e: EnergyState, x: Exec, x': Exec, cycle: PauseCycle, ticks: int, d: Shift)
    requires s.threshold > 0 && ExecAlike(s, x, x', d)
    ensures RefineCycle(s, e, x', cycle, ticks).1 == RefineCycle(s, e, x, cycle, ticks).1
    ensures ExecAlike(s, RefineCycle(s, e, x, cycle, ticks).0, RefineCycle(s, e, x', cycle, ticks).0, d)
  {
    RefineAlike(s, x.book, x'.book, ticks, d);
    hide RefineSegment, LateTicks, Seen, Window;
  }

  lemma KillFrozenAlike(s: Socket, e: EnergyState, x: Exec, x': Exec, cycle: PauseCycle, p: Poll, cause: string, d: Shift, after: Shift)
    requires s.threshold > 0 && ExecAlike(s, x, x', d)
    ensures ProgressAlike(s, KillFrozen(s, e, x, cycle, p, cause), KillFrozen(s, e, x', cycle, PollSeen(s, p, after), cause), d)
  {
    RefineCycleAlike(s, e, x, x', cycle, p.ticksBeforeKill, d);
    hide RefineCycle, Alike, SampleSeen;
  }

  lemma ObeyResumeAlike(s: Socket, e: EnergyState, x: Exec, x': Exec, cycle: PauseCycle, p: Poll, d: Shift, after: Shift)
    requires s.threshold > 0 && ExecAlike(s, x, x', d) && TruePoll(p) && p.answer.Command?
    ensures var q := ObeyResume(s, e, x, cycle, p);
            ProgressAlike(s, q, ObeyResume(s, e, x', cycle, PollSeen(s, p, after)),
                          if q.exit.Resumed? then ResumeShift(RefineCycle(s, e, x, cycle, p.ticksBeforeUnfreeze).0.book, p, d, after) else d)
  {
    var p' := PollSeen(s, p, after);
    RefineCycleAlike(s, e, x, x', cycle, p.ticksBeforeUnfreeze, d);
    var (x1, cycle1) := RefineCycle(s, e, x, cycle, p.ticksBeforeUnfreeze);
    var (x1', _) := RefineCycle(s, e, x', cycle, p.ticksBeforeUnfreeze);
    OpenAlike(s, x1.book, x1'.book, p, d, after);
    hide RefineCycle, Alike, ResumeSeen, OpenSegment, ResumeShift, NeverKill, KillFrozen;
    var x2 := x1.(ctl := ResumeReply(x1.ctl, cycle.pauseID, p.unfreezeOk).ctl);
    var x2' := x1'.(ctl := x2.ctl);
    KillFrozenAlike(s, e, x2, x2', cycle1, p, "RESUME_FAILED", d, after);
  }

  lemma ObeyAlike(s: Socket, e: EnergyState, x: Exec, x': Exec, cycle: PauseCycle, p: Poll, d: Shift, after: Shift)
    requires s.threshold > 0 && ExecAlike(s, x, x', d) && TruePoll(p)
    ensures ProgressAlike(s, Obey(s, e, x, cycle, p), Obey(s, e, x', cycle, PollSeen(s, p, after)), ObeyShift(s, e, x, cycle, p, d, after))
  {
    var p' := PollSeen(s, p, after);
    assert p'.answer == p.answer;
    ObeyIs(s, e, x, cycle, p);
    ObeyIs(s, e, x', cycle, p');
    KillFrozenAlike(s, e, x, x', cycle, p, CauseOf(p.answer, cycle.pauseID), d, after);
    if p.answer.Command? {
      ObeyResumeAlike(s, e, x, x', cycle, p, d, after);
    }
    assert KillFrozen(s, e, x, cycle, p, CauseOf(p.answer, cycle.pauseID)).exit.Killed?;
    hide Obey, KillFrozen, ObeyResume, NeverKill, PollSeen, ExecAlike, RefineCycle, ResumeShift, CauseOf;
  }

  lemma {:induction false} LoopAlike(s: Socket, e: EnergyState, x: Exec, x': Exec, cycle: PauseCycle, postedJ: real, polls: seq<Poll>,
                                     d: Shift, after: Shift)
    requires s.threshold > 0 && ExecAlike(s, x, x', d) && TruePolls(polls)
    ensures ProgressAlike(s, PollLoop(s, e, x, cycle, postedJ, polls), PollLoop(s, e, x', cycle, postedJ, PollsSeen(s, polls, after)),
                          LoopShift(s, e, x, cycle, polls, d, after))
    decreases |polls|
  {
    if polls != [] {
      ObeyAlike(s, e, x, x', cycle, polls[0], d, after);
      var seen := PollsSeen(s, polls, after);
      assert seen[0] == PollSeen(s, polls[0], after) && seen[0].answer == polls[0].answer && seen[1..] == PollsSeen(s, polls[1..], after);
      var q, q' := Obey(s, e, x, cycle, polls[0]), Obey(s, e, x', cycle, seen[0]);
      assert q.exit.Again? ==> ObeyShift(s, e, x, cycle, polls[0], d, after) == d;
      hide Obey, ExecAlike, PollSeen, ObeyShift, TruePoll;
      if q.exit.Again? {
        LoopAlike(s, e, q.exec, q'.exec, q.cycle, postedJ, polls[1..], d, after);
      }
    }
  }

  lemma EnterFreezeAlike(s: Socket, e: EnergyState, x: Exec, x': Exec, stepJ: real, cycle: PauseCycle, sample: Sample, d: Shift)
    requires s.threshold > 0 && ExecAlike(s, x, x', d) && ReadsWithin(s, x.book.meter.segment, sample)
    ensures var y, y' := EnterFreeze(s, e, x, stepJ, cycle, sample), EnterFreeze(s, e, x', stepJ, cycle, SampleSeen(s, sample, d));
            y'.1 == y.1 && ExecAlike(s, y.0, y'.0, d)
  {
    CloseAlike(s, x.book, x'.book, sample, d);
    SameClosed(s, CloseSegment(s, x.book, sample).meter, CloseSegment(s, x'.book, SampleSeen(s, sample, d)).meter, d);
    hide CloseSegment, FreezeUsable, Alike, SampleSeen;
  }

  lemma CycleAlike(s: Socket, e: EnergyState, x: Exec, x': Exec, stepJ: real, env: CycleEnv, d: Shift, after: Shift)
    requires s.threshold > 0 && ExecAlike(s, x, x', d)
    requires ReadsWithin(s, x.book.meter.segment, env.freezeSample) && TruePolls(env.polls)
    ensures var env' := env.(freezeSample := SampleSeen(s, env.freezeSample, d), polls := PollsSeen(s, env.polls, after));
            ProgressAlike(s, RunPauseCycle(s, e, x, stepJ, env), RunPauseCycle(s, e, x', stepJ, env'),
                          CycleShift(s, e, x, stepJ, env, d, after))
  {
    hide PollLoop, LoopShift, EnterFreeze, NeverKill, Alike, PollsSeen, TruePolls, SampleSeen;
    var reply := FreezeReply(x.ctl, env.pauseID, env.freezeOk);
    if !reply.failed {
      var cycle := NewCycle(e, env.pauseID, e.consumedBeforeJ + stepJ);
      EnterFreezeAlike(s, e, x.(ctl := reply.ctl), x'.(ctl := reply.ctl), stepJ, cycle, env.freezeSample, d);
      var (x2, cycle2) := EnterFreeze(s, e, x.(ctl := reply.ctl), stepJ, cycle, env.freezeSample);
      var (x2', _) := EnterFreeze(s, e, x'.(ctl := reply.ctl), stepJ, cycle, SampleSeen(s, env.freezeSample, d));
      LoopAlike(s, e, x2, x2', cycle2, cycle2.energyAtEffectiveFreezeJ, env.polls, d, after);
    }
  }

  lemma SameClosed(s: Socket, m: Meter, m': Meter, d: Shift)
    requires Alike(s, m, m', d)
    ensures m'.closedUJ == m.closedUJ && m'.frozen == m.frozen
  {}

  // --------------------------------------------------------------------------------- runs that agree

  predicate MonitorAlike(s: Socket, m: Monitor, m': Monitor, d: Shift) {
    ExecAlike(s, m.exec, m'.exec, d) && m'.energy == m.energy && m'.result == m.result
  }

  lemma TickAlike(s: Socket, m: Monitor, m': Monitor, t: Tick, d: Shift, after: Shift)
    requires s.threshold > 0 && MonitorAlike(s, m, m', d) && TrueTick(s, m, t)
    ensures var r, r' := OnTick(s, m, t), OnTick(s, m', TickSeen(s, t, d, after));
            && r'.events == r.events && r'.status == r.status
            && MonitorAlike(s, r.monitor, r'.monitor, TickShift(s, m, t, d, after))
  {
    if t.sample.energyUJ.Some? {
      StepAlike(s, m.exec.book.meter, m'.exec.book.meter, t.sample, d);
      var stepJ := Joules(MeterUJ(s, m.exec.book.meter, t.sample.At(t.sample.energyUJ.value)));
      CycleAlike(s, m.energy, m.exec, m'.exec, stepJ, t.cycle, d, after);
      var p := RunPauseCycle(s, m.energy, m.exec, stepJ, t.cycle);
      var p' := RunPauseCycle(s, m.energy, m'.exec, stepJ, TickSeen(s, t, d, after).cycle);
      SameClosed(s, p.exec.book.meter, p'.exec.book.meter, CycleShift(s, m.energy, m.exec, stepJ, t.cycle, d, after));
    }
    hide RunPauseCycle, MeterUJ, NeverKill, Alike, CycleShift, TrueTick, SeenUJ;
  }

  /** The two runs decide, post, record and settle the same. */
  predicate SameDecisions(r: Run, r': Run) {
    && r'.events == r.events
    && r'.status == r.status
    && r'.monitor.result == r.monitor.result
    && r'.monitor.energy == r.monitor.energy
    && r'.monitor.exec.ctl == r.monitor.exec.ctl
    && r'.monitor.exec.book.meter.closedUJ == r.monitor.exec.book.meter.closedUJ
  }

  lemma {:induction false} RunAlike(s: Socket, m: Monitor, m': Monitor, ticks: seq<Tick>, d: Shift, extras: seq<Shift>)
    requires s.threshold > 0 && |extras| == |ticks| && MonitorAlike(s, m, m', d) && TrueRun(s, m, ticks)
    ensures SameDecisions(MonitorEnergy(s, m, ticks), MonitorEnergy(s, m', TicksSeen(s, m, ticks, d, extras)))
    decreases |ticks|
  {
    SameClosed(s, m.exec.book.meter, m'.exec.book.meter, d);
    if ticks != [] {
      var after := d.Plus(extras[0]);
      TickAlike(s, m, m', ticks[0], d, after);
      var r, r' := OnTick(s, m, ticks[0]), OnTick(s, m', TickSeen(s, ticks[0], d, after));
      var d' := TickShift(s, m, ticks[0], d, after);
      SameClosed(s, r.monitor.exec.book.meter, r'.monitor.exec.book.meter, d');
      hide OnTick, Alike, TickSeen, TickShift, TrueTick;
      var seen := TicksSeen(s, m, ticks, d, extras);
      assert seen[0] == TickSeen(s, ticks[0], d, after) && seen[1..] == TicksSeen(s, r.monitor, ticks[1..], d', extras[1..]);
      if r.status.Monitoring? {
        RunAlike(s, r.monitor, r'.monitor, ticks[1..], d', extras[1..]);
      }
    }
  }

  /**
   The monitor of a disturbed step, on the register that wraps, decides as it would have for the
   same step undisturbed on an unbounded counter, as long as each running segment stays within the
   headroom above the overflow bound.
   */
  lemma MonitorIsUndisturbed(s: Socket, ctl: Ctl, start: Reading, energy: EnergyState, ticks: seq<Tick>, extras: seq<Shift>)
    requires s.threshold > 0 && |extras| == |ticks| && start.energyUJ >= 0
    requires TrueRun(s, Started(ctl, start, energy), ticks)
    ensures var m := Started(ctl, start, energy);
            SameDecisions(MonitorEnergy(s, m, ticks),
                          MonitorEnergy(s, Started(ctl, OnRegister(s, start), energy), TicksSeen(s, m, ticks, NO_SHIFT, extras)))
  {
    RunAlike(s, Started(ctl, start, energy), Started(ctl, OnRegister(s, start), energy), ticks, NO_SHIFT, extras);
  }

  /** So no two disturbances of the same step can be told apart by what the monitor does. */
  lemma OthersCannotInterfere(s: Socket, ctl: Ctl, start: Reading, energy: EnergyState, ticks: seq<Tick>,
                              extras: seq<Shift>, others: seq<Shift>)
    requires s.threshold > 0 && |extras| == |others| == |ticks| && start.energyUJ >= 0
    requires TrueRun(s, Started(ctl, start, energy), ticks)
    ensures var m, m' := Started(ctl, start, energy), Started(ctl, OnRegister(s, start), energy);
            SameDecisions(MonitorEnergy(s, m', TicksSeen(s, m, ticks, NO_SHIFT, extras)),
                          MonitorEnergy(s, m', TicksSeen(s, m, ticks, NO_SHIFT, others)))
  {
    hide MonitorEnergy, TicksSeen, TrueRun;
    MonitorIsUndisturbed(s, ctl, start, energy, ticks, extras);
    MonitorIsUndisturbed(s, ctl, start, energy, ticks, others);
  }
}
