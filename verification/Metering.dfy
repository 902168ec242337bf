/**
 The incremental energy meter and the log of freeze marks (openwhisk/energySegments.go), updated
 side by side at every boundary of a pause cycle.

 The first part gives both as values and proves that the meter always shows what the batch
 formula computes from the log. The second part is the source's own form: objects updated in
 place, each method proved against the value it must reach.
 */
module Metering {
  import opened Attribution
  import opened Options
  import opened Segments

  const ZERO := Reading(0, 0, 0)

  /**
   `segment` is where the running segment started; `frozenAt` the reading of the freeze in
   progress; `lastFrom` and `lastUJ` the start and share of the segment that freeze closed.
   */
  datatype Meter = Meter(closedUJ: int, segment: Reading, frozen: bool, frozenAt: Reading, lastFrom: Reading, lastUJ: int)

  function NewMeter(start: Reading): Meter {
    Meter(0, start, false, ZERO, ZERO, 0)
  }

  function MeterUJ(s: Socket, m: Meter, now: Reading): int {
    if m.frozen then m.closedUJ else m.closedUJ + AttributedUJ(s, m.segment, now)
  }

  function CloseAt(s: Socket, m: Meter, r: Reading): Meter {
    var uj := AttributedUJ(s, m.segment, r);
    Meter(m.closedUJ + uj, m.segment, true, r, m.segment, uj)
  }

  /** A later CPU reading taken during the freeze completes the segment the freeze closed. */
  function RefineMeter(s: Socket, m: Meter, ticks: int): (m': Meter) {
    if !m.frozen || ticks <= m.frozenAt.ticks then m
    else
      var at := m.frozenAt.(ticks := ticks);
      var refined := AttributedUJ(s, m.lastFrom, at);
      m.(frozenAt := at, closedUJ := m.closedUJ + (refined - m.lastUJ), lastUJ := refined)
  }

  /** The CPU time a late reading adds. */
  function LateTicks(m: Meter, ticks: int): (late: int) {
    if !m.frozen || ticks <= m.frozenAt.ticks then 0 else ticks - m.frozenAt.ticks
  }

  function OpenAt(m: Meter, r: Reading): Meter {
    m.(segment := r, frozen := false)
  }

  predicate OpenMark(marks: seq<FreezeMark>) {
    marks != [] && !marks[|marks| - 1].resumed
  }

  function NoteFreeze(marks: seq<FreezeMark>, r: Reading): seq<FreezeMark> {
    marks + [FreezeMark(r, false, ZERO)]
  }

  function NoteResume(marks: seq<FreezeMark>, r: Reading): seq<FreezeMark> {
    if OpenMark(marks) then
      marks[|marks| - 1 := marks[|marks| - 1].(resumed := true, resume := r)]
    else
      marks
  }

  function RefineMark(marks: seq<FreezeMark>, ticks: int): seq<FreezeMark> {
    if OpenMark(marks) && ticks > marks[|marks| - 1].freeze.ticks then
      var last := marks[|marks| - 1];
      marks[|marks| - 1 := last.(freeze := last.freeze.(ticks := ticks))]
    else
      marks
  }

  // --------------------------------------------------------------- the three segment boundaries

  /** What a boundary reads: the energy register may be unreadable, CPU time and clock are not. */
  datatype Sample = Sample(energyUJ: Option<int>, ticks: int, wallNs: int) {
    function At(energyUJ: int): Reading {
      Reading(energyUJ, ticks, wallNs)
    }
  }

  datatype Book = Book(meter: Meter, marks: seq<FreezeMark>)

  predicate FreezeUsable(b: Book, sample: Sample) {
    sample.energyUJ.Some? && sample.ticks >= b.meter.segment.ticks
  }

  function CloseSegment(s: Socket, b: Book, sample: Sample): Book {
    if FreezeUsable(b, sample) then
      var r := sample.At(sample.energyUJ.value);
      Book(CloseAt(s, b.meter, r), NoteFreeze(b.marks, r))
    else
      b
  }

  function RefineSegment(s: Socket, b: Book, ticks: int): Book {
    if b.meter.frozen then Book(RefineMeter(s, b.meter, ticks), RefineMark(b.marks, ticks)) else b
  }

  predicate ResumeUsable(b: Book, sample: Sample) {
    sample.energyUJ.Some? && sample.ticks >= b.meter.frozenAt.ticks
  }

  /** The new segment restarts from the CPU time of the freeze, never from the one just read. */
  function RestartReading(b: Book, sample: Sample, nowNs: int): Reading {
    Reading(if ResumeUsable(b, sample) then sample.energyUJ.value else b.meter.frozenAt.energyUJ,
            b.meter.frozenAt.ticks,
            if sample.wallNs == 0 then nowNs else sample.wallNs)
  }

  function OpenSegment(b: Book, sample: Sample, nowNs: int): Book {
    if b.meter.frozen then
      var r := RestartReading(b, sample, nowNs);
      Book(OpenAt(b.meter, r), NoteResume(b.marks, r))
    else
      b
  }

  // ------------------------------------------------------------------------ meter refines formula

  /**
   The meter and the marks tell the same story: every mark but possibly the last was resumed, the
   meter is frozen exactly when the last one was not, and the closed energy is that of the marks.
   */
  ghost predicate Coupled(s: Socket, start: Reading, b: Book) {
    var n := |b.marks|;
    && (forall i :: 0 <= i < n - 1 ==> b.marks[i].resumed)
    && (b.meter.frozen <==> OpenMark(b.marks))
    && b.meter.closedUJ == Total(s, Closed(start, b.marks)).attributedUJ
    && CarriesTicks(b.marks)
    && TicksAdvance(Closed(start, b.marks))
    && if b.meter.frozen then
         && b.meter.frozenAt == b.marks[n - 1].freeze
         && b.meter.lastFrom == StartOf(start, b.marks, n - 1)
         && b.meter.lastUJ == AttributedUJ(s, b.meter.lastFrom, b.meter.frozenAt)
       else
         b.meter.segment == StartOf(start, b.marks, n)
  }

  lemma CoupledAtStart(s: Socket, start: Reading)
    ensures Coupled(s, start, Book(NewMeter(start), []))
  {}

  lemma ClosedSnoc(s: Socket, start: Reading, marks: seq<FreezeMark>, m: FreezeMark)
    ensures Closed(start, marks + [m]) == Closed(start, marks) + [Segment(StartOf(start, marks, |marks|), m.freeze)]
    ensures Total(s, Closed(start, marks + [m])).attributedUJ
         == Total(s, Closed(start, marks)).attributedUJ + AttributedUJ(s, StartOf(start, marks, |marks|), m.freeze)
  {
    hide AttributionDetail;
    var last := Segment(StartOf(start, marks, |marks|), m.freeze);
    assert Closed(start, marks + [m]) == Closed(start, marks) + [last];
    TotalSnoc(s, Closed(start, marks), last);
  }

  lemma CloseKeepsCoupling(s: Socket, start: Reading, b: Book, sample: Sample)
    requires Coupled(s, start, b) && !b.meter.frozen
    ensures Coupled(s, start, CloseSegment(s, b, sample))
    ensures CloseSegment(s, b, sample).meter.frozen <==> FreezeUsable(b, sample)
  {
    hide AttributionDetail;
    if FreezeUsable(b, sample) {
      var m := FreezeMark(sample.At(sample.energyUJ.value), false, ZERO);
      ClosedSnoc(s, start, b.marks, m);
    }
  }

  lemma RefineKeepsCoupling(s: Socket, start: Reading, b: Book, ticks: int)
    requires Coupled(s, start, b)
    ensures Coupled(s, start, RefineSegment(s, b, ticks))
    ensures RefineSegment(s, b, ticks).meter.frozen == b.meter.frozen
    ensures RefineSegment(s, b, ticks).meter.closedUJ >= b.meter.closedUJ
  {
    hide AttributionDetail;
    if b.meter.frozen && ticks > b.meter.frozenAt.ticks {
      var n := |b.marks| - 1;
      var before, last := b.marks[..n], b.marks[n];
      var last' := last.(freeze := last.freeze.(ticks := ticks));
      assert b.marks == before + [last];
      assert RefineMark(b.marks, ticks) == before + [last'];
      ClosedSnoc(s, start, before, last);
      ClosedSnoc(s, start, before, last');
      AttributionMonotoneInTicks(s, b.meter.lastFrom, last.freeze, ticks);
      assert Closed(start, b.marks)[n].from.ticks <= last.freeze.ticks;
    }
  }

  lemma OpenKeepsCoupling(s: Socket, start: Reading, b: Book, sample: Sample, nowNs: int)
    requires Coupled(s, start, b)
    ensures Coupled(s, start, OpenSegment(b, sample, nowNs))
    ensures !OpenSegment(b, sample, nowNs).meter.frozen
  {
    hide AttributionDetail;
    if b.meter.frozen {
      assert Closed(start, OpenSegment(b, sample, nowNs).marks) == Closed(start, b.marks);
    }
  }

  /**
   The fast form refines the simple one: at any moment the meter shows exactly what the batch
   formula gives for the marks noted so far, whether the step is running or frozen.
   */
  lemma MeterShowsSegmented(s: Socket, start: Reading, b: Book, now: Reading)
    requires Coupled(s, start, b)
    ensures MeterUJ(s, b.meter, now) == Segmented(s, start, now, b.marks).attributedUJ
  {
    hide AttributionDetail;
    assert b.marks[..|b.marks|] == b.marks;
    if b.meter.frozen {
      assert Counted(b.marks) == |b.marks|;
      assert Executed(start, now, b.marks) == Closed(start, b.marks);
    } else {
      assert AllResumed(b.marks);
      TotalSnoc(s, Closed(start, b.marks), Segment(b.meter.segment, now));
    }
  }

  lemma CoupledTicksAdvance(s: Socket, start: Reading, b: Book, end: Reading)
    requires Coupled(s, start, b)
    requires !b.meter.frozen ==> end.ticks >= b.meter.segment.ticks
    ensures CarriesTicks(b.marks) && TicksAdvance(Executed(start, end, b.marks))
  {
    var closed := Closed(start, b.marks);
    assert b.marks[..|b.marks|] == b.marks;
    assert b.meter.frozen ==> Counted(b.marks) == |b.marks|;
    assert !b.meter.frozen ==> AllResumed(b.marks);
    forall i | 0 <= i < |Executed(start, end, b.marks)|
      ensures Executed(start, end, b.marks)[i].from.ticks <= Executed(start, end, b.marks)[i].to.ticks
    {
      ExecutedAt(start, end, b.marks, i);
      if i < |b.marks| {
        assert closed[i].from.ticks <= closed[i].to.ticks;
      }
    }
  }

  /** The log a coupled book leaves behind satisfies what `CPUTimeCountedOnce` asks of it. */
  lemma CoupledCountsCPUOnce(s: Socket, start: Reading, b: Book, end: Reading)
    requires Coupled(s, start, b)
    requires !b.meter.frozen ==> end.ticks >= b.meter.segment.ticks
    ensures Segmented(s, start, end, b.marks).processUsec <= Stop(end, b.marks).ticks - start.ticks
    ensures Segmented(s, start, end, b.marks).processUsec == Stop(end, b.marks).ticks - start.ticks
       <==> NoBlindSegment(s, Executed(start, end, b.marks))
  {
    CoupledTicksAdvance(s, start, b, end);
    CPUTimeCountedOnce(s, start, end, b.marks);
  }

  // ----------------------------------------------------------------- any sequence of boundaries

  datatype Boundary =
    | Freeze(sample: Sample)
    | Refine(ticks: int)
    | Resume(sample: Sample, nowNs: int)

  function Cross(s: Socket, b: Book, e: Boundary): Book {
    match e
    case Freeze(sample) => CloseSegment(s, b, sample)
    case Refine(ticks) => RefineSegment(s, b, ticks)
    case Resume(sample, nowNs) => OpenSegment(b, sample, nowNs)
  }

  function CrossAll(s: Socket, b: Book, es: seq<Boundary>): Book
    decreases |es|
  {
    if es == [] then b else CrossAll(s, Cross(s, b, es[0]), es[1..])
  }

  /** No freeze is noted while the previous one is still in progress; unusable readings note nothing. */
  predicate OneFreezeAtATime(s: Socket, b: Book, es: seq<Boundary>)
    decreases |es|
  {
    es == []
    || (&& !NotesFreezeDuringFreeze(b, es[0])
        && OneFreezeAtATime(s, Cross(s, b, es[0]), es[1..]))
  }

  predicate NotesFreezeDuringFreeze(b: Book, e: Boundary) {
    e.Freeze? && b.meter.frozen && FreezeUsable(b, e.sample)
  }

  lemma BoundaryKeepsCoupling(s: Socket, start: Reading, b: Book, e: Boundary)
    requires Coupled(s, start, b) && !NotesFreezeDuringFreeze(b, e)
    ensures Coupled(s, start, Cross(s, b, e))
  {
    hide Coupled, AttributionDetail;
    match e {
      case Freeze(sample) =>
        if !b.meter.frozen {
          CloseKeepsCoupling(s, start, b, sample);
        }
      case Refine(ticks) => RefineKeepsCoupling(s, start, b, ticks);
      case Resume(sample, nowNs) => OpenKeepsCoupling(s, start, b, sample, nowNs);
    }
  }

  lemma {:induction false} BoundariesKeepCoupling(s: Socket, start: Reading, b: Book, es: seq<Boundary>)
    requires Coupled(s, start, b) && OneFreezeAtATime(s, b, es)
    ensures Coupled(s, start, CrossAll(s, b, es))
    decreases |es|
  {
    hide Coupled, Cross, NotesFreezeDuringFreeze;
    if es != [] {
      BoundaryKeepsCoupling(s, start, b, es[0]);
      BoundariesKeepCoupling(s, start, Cross(s, b, es[0]), es[1..]);
    }
  }

  predicate Agrees(s: Socket, start: Reading, b: Book, now: Reading) {
    MeterUJ(s, b.meter, now) == Segmented(s, start, now, b.marks).attributedUJ
  }

  /**
   After any interleaving of closes, late refinements and resumes, with any readings unusable,
   the incremental meter equals the batch formula over the marks, unless a freeze was noted during
   a freeze.
   */
  lemma MeterRefinesBatch(s: Socket, start: Reading, es: seq<Boundary>, now: Reading)
    requires OneFreezeAtATime(s, Book(NewMeter(start), []), es)
    ensures Agrees(s, start, CrossAll(s, Book(NewMeter(start), []), es), now)
  {
    CoupledAtStart(s, start);
    BoundariesKeepCoupling(s, start, Book(NewMeter(start), []), es);
    MeterShowsSegmented(s, start, CrossAll(s, Book(NewMeter(start), []), es), now);
  }

  /** Whatever disciplined boundaries follow and at any moment, the two forms agree. */
  ghost predicate AgreesFromHere(s: Socket, start: Reading, b: Book) {
    forall rest: seq<Boundary>, now: Reading ::
      OneFreezeAtATime(s, b, rest) ==> Agrees(s, start, CrossAll(s, b, rest), now)
  }

  lemma CoupledAgreesFromHere(s: Socket, start: Reading, b: Book)
    requires Coupled(s, start, b)
    ensures AgreesFromHere(s, start, b)
  {
    hide Agrees, Coupled, OneFreezeAtATime, CrossAll;
    forall rest: seq<Boundary>, now: Reading | OneFreezeAtATime(s, b, rest)
      ensures Agrees(s, start, CrossAll(s, b, rest), now)
    {
      BoundariesKeepCoupling(s, start, b, rest);
      MeterShowsSegmented(s, start, CrossAll(s, b, rest), now);
      AgreesIs(s, start, CrossAll(s, b, rest), now);
    }
  }

  lemma AgreesIs(s: Socket, start: Reading, b: Book, now: Reading)
    ensures Agrees(s, start, b, now) <==> MeterUJ(s, b.meter, now) == Segmented(s, start, now, b.marks).attributedUJ
  {}

  /** A mark that nothing can complete any more, because another one follows it. */
  predicate Orphaned(marks: seq<FreezeMark>) {
    exists i :: 0 <= i < |marks| - 1 && !marks[i].resumed
  }

  lemma BoundaryKeepsOrphan(s: Socket, b: Book, e: Boundary)
    requires Orphaned(b.marks)
    ensures Orphaned(Cross(s, b, e).marks)
  {
    hide AttributionDetail;
    var i :| 0 <= i < |b.marks| - 1 && !b.marks[i].resumed;
    assert Cross(s, b, e).marks[i] == b.marks[i];
  }

  lemma {:induction false} BoundariesKeepOrphan(s: Socket, b: Book, es: seq<Boundary>)
    requires Orphaned(b.marks)
    ensures Orphaned(CrossAll(s, b, es).marks)
    decreases |es|
  {
    hide Cross, Orphaned;
    if es != [] {
      BoundaryKeepsOrphan(s, b, es[0]);
      BoundariesKeepOrphan(s, Cross(s, b, es[0]), es[1..]);
    }
  }

  /** A freeze noted during a freeze leaves the earlier mark an orphan for good. */
  lemma {:induction false} IndisciplineOrphans(s: Socket, start: Reading, b: Book, es: seq<Boundary>)
    requires Coupled(s, start, b) && !OneFreezeAtATime(s, b, es)
    ensures Orphaned(CrossAll(s, b, es).marks)
    decreases |es|
  {
    hide AttributionDetail;
    if NotesFreezeDuringFreeze(b, es[0]) {
      var n := |b.marks|;
      assert Cross(s, b, es[0]).marks[n - 1] == b.marks[n - 1];
      BoundariesKeepOrphan(s, Cross(s, b, es[0]), es[1..]);
    } else {
      BoundaryKeepsCoupling(s, start, b, es[0]);
      hide Coupled, Cross, NotesFreezeDuringFreeze, Orphaned;
      IndisciplineOrphans(s, start, Cross(s, b, es[0]), es[1..]);
    }
  }

  /** One microjoule used, all of it by this container, from the start of a running segment. */
  function OneMicrojouleLater(s: Socket, r: Reading): Reading {
    Reading(r.energyUJ + 1, r.ticks + s.cores, r.wallNs + 1000)
  }

  lemma OneMicrojouleCounts(s: Socket, r: Reading)
    ensures AttributedUJ(s, r, OneMicrojouleLater(s, r)) == 1 && AttributedUJ(s, r, r) == 0
  {
    QuotientOfProduct(1, s.cores);
  }

  /** With an orphan the batch formula stands still while the meter of a running step goes on. */
  lemma OrphanDisagrees(s: Socket, start: Reading, b: Book) returns (rest: seq<Boundary>, now: Reading)
    requires Orphaned(b.marks)
    ensures OneFreezeAtATime(s, b, rest) && !Agrees(s, start, CrossAll(s, b, rest), now)
  {
    hide AttributionDetail;
    var resume := Resume(Sample(None, 0, 0), 0);
    rest := if b.meter.frozen then [resume] else [];
    var b' := if b.meter.frozen then Cross(s, b, resume) else b;
    assert [resume][1..] == [];
    assert CrossAll(s, Cross(s, b, resume), []) == Cross(s, b, resume);
    assert CrossAll(s, b, rest) == b';
    BoundaryKeepsOrphan(s, b, resume);
    assert !AllResumed(b'.marks);
    var r := b'.meter.segment;
    OneMicrojouleCounts(s, r);
    now := if Agrees(s, start, b', r) then OneMicrojouleLater(s, r) else r;
    assert Executed(start, r, b'.marks) == Executed(start, OneMicrojouleLater(s, r), b'.marks);
  }

  /**
   The two forms agree at every moment from here on exactly when no freeze was noted during a
   freeze: nothing in the meter itself prevents it, and only the pause cycle's discipline does.
   */
  lemma RefinesExactlyWhen(s: Socket, start: Reading, es: seq<Boundary>)
    ensures AgreesFromHere(s, start, CrossAll(s, Book(NewMeter(start), []), es))
       <==> OneFreezeAtATime(s, Book(NewMeter(start), []), es)
  {
    var b0 := Book(NewMeter(start), []);
    CoupledAtStart(s, start);
    hide Coupled, Agrees, Segmented, NewMeter;
    if OneFreezeAtATime(s, b0, es) {
      BoundariesKeepCoupling(s, start, b0, es);
      hide OneFreezeAtATime, CrossAll, AgreesFromHere;
      CoupledAgreesFromHere(s, start, CrossAll(s, b0, es));
    } else {
      IndisciplineOrphans(s, start, b0, es);
      var rest, now := OrphanDisagrees(s, start, CrossAll(s, b0, es));
    }
  }

  /** A concrete pair of freezes without a resume in between, after which the two forms differ. */
  lemma FreezingTwiceBreaksRefinement()
    ensures var s: Socket := SocketParams(1000, 900, 1);
            var start := Reading(0, 0, 0);
            var es := [Freeze(Sample(Some(100), 1, 1000)), Freeze(Sample(Some(200), 1, 1000))];
            var b := CrossAll(s, Book(NewMeter(start), []), es);
            MeterUJ(s, b.meter, start) > Segmented(s, start, start, b.marks).attributedUJ
  {
    var s: Socket := SocketParams(1000, 900, 1);
    var start := Reading(0, 0, 0);
    var f, g := Freeze(Sample(Some(100), 1, 1000)), Freeze(Sample(Some(200), 1, 1000));
    var b0 := Book(NewMeter(start), []);
    var b1 := Cross(s, b0, f);
    var b2 := Cross(s, b1, g);
    assert [f, g][1..] == [g] && [g][1..] == [];
    assert CrossAll(s, b0, [f, g]) == CrossAll(s, b1, [g]) == CrossAll(s, b2, []) == b2;
    assert AttributedUJ(s, start, Reading(100, 1, 1000)) == 100;
    assert AttributedUJ(s, start, Reading(200, 1, 1000)) == 200;
    assert b2.meter.closedUJ == 300;
    var first := Segment(start, Reading(100, 1, 1000));
    assert !b2.marks[0].resumed && Counted(b2.marks) == 1;
    assert Executed(start, start, b2.marks) == [] + [first];
    TotalSnoc(s, [], first);
  }

  // -------------------------------------------------------------------------- late refinements

  function RefineAll(s: Socket, m: Meter, readings: seq<int>): Meter
    decreases |readings|
  {
    if readings == [] then m else RefineAll(s, RefineMeter(s, m, readings[0]), readings[1..])
  }

  function LateTicksAll(s: Socket, m: Meter, readings: seq<int>): int
    decreases |readings|
  {
    if readings == [] then 0
    else LateTicks(m, readings[0]) + LateTicksAll(s, RefineMeter(s, m, readings[0]), readings[1..])
  }

  function Highest(first: int, readings: seq<int>): (h: int)
    ensures h >= first && forall i :: 0 <= i < |readings| ==> readings[i] <= h
    ensures h == first || h in readings
    decreases |readings|
  {
    if readings == [] then first
    else Highest(if readings[0] > first then readings[0] else first, readings[1..])
  }

  /**
   Any sequence of late readings during one freeze amounts to having closed the segment with the
   highest of them, at the freeze's own instant and energy; the amounts handed back add up to
   the CPU time gained; and the closed energy never goes down.
   */
  lemma {:induction false} LateRefinementIsOrderFree(s: Socket, m: Meter, r: Reading, readings: seq<int>)
    ensures RefineAll(s, CloseAt(s, m, r), readings) == CloseAt(s, m, r.(ticks := Highest(r.ticks, readings)))
    ensures LateTicksAll(s, CloseAt(s, m, r), readings) == Highest(r.ticks, readings) - r.ticks
    ensures RefineAll(s, CloseAt(s, m, r), readings).closedUJ >= CloseAt(s, m, r).closedUJ
    decreases |readings|
  {
    if readings != [] {
      var higher := r.(ticks := if readings[0] > r.ticks then readings[0] else r.ticks);
      assert RefineMeter(s, CloseAt(s, m, r), readings[0]) == CloseAt(s, m, higher);
      LateRefinementIsOrderFree(s, m, higher, readings[1..]);
      AttributionMonotoneInTicks(s, m.segment, r, higher.ticks);
    }
  }

  // ------------------------------------------------------------------------- the source's objects

  class FreezeMarks {
    var marks: seq<FreezeMark>

    constructor ()
      ensures marks == []
    {
      marks := [];
    }

    method Reset()
      modifies this
      ensures marks == []
    {
      marks := [];
    }

    method Freeze(r: Reading)
      modifies this
      ensures marks == NoteFreeze(old(marks), r)
    {
      marks := marks + [FreezeMark(r, false, ZERO)];
    }

    method Resume(r: Reading)
      modifies this
      ensures marks == NoteResume(old(marks), r)
    {
      var n := |marks|;
      if n > 0 && !marks[n - 1].resumed {
        marks := marks[n - 1 := marks[n - 1].(resumed := true, resume := r)];
      }
    }

    method RefineFreezeCPU(ticks: int)
      modifies this
      ensures marks == RefineMark(old(marks), ticks)
    {
      var n := |marks|;
      if n > 0 && !marks[n - 1].resumed && ticks > marks[n - 1].freeze.ticks {
        marks := marks[n - 1 := marks[n - 1].(freeze := marks[n - 1].freeze.(ticks := ticks))];
      }
    }
  }

  class StepMeter {
    var closedUJ: int
    var segment: Reading
    var frozen: bool
    var frozenAt: Reading
    var lastFrom: Reading
    var lastUJ: int

    function Value(): Meter
      reads this
    {
      Meter(closedUJ, segment, frozen, frozenAt, lastFrom, lastUJ)
    }

    constructor (start: Reading)
      ensures Value() == NewMeter(start)
    {
      closedUJ, segment, frozen, frozenAt, lastFrom, lastUJ := 0, start, false, ZERO, ZERO, 0;
    }

    method StepUJ(s: Socket, now: Reading) returns (uj: int)
      ensures uj == MeterUJ(s, Value(), now)
    {
      if frozen {
        return closedUJ;
      }
      return closedUJ + AttributedUJ(s, segment, now);
    }

    method Close(s: Socket, r: Reading)
      modifies this
      ensures Value() == CloseAt(s, old(Value()), r)
    {
      lastFrom := segment;
      lastUJ := AttributedUJ(s, segment, r);
      closedUJ := closedUJ + lastUJ;
      frozen, frozenAt := true, r;
    }

    method RefineFrozenCPU(s: Socket, ticks: int) returns (late: int)
      modifies this
      ensures Value() == RefineMeter(s, old(Value()), ticks)
      ensures late == LateTicks(old(Value()), ticks)
    {
      if !frozen || ticks <= frozenAt.ticks {
        return 0;
      }
      late := ticks - frozenAt.ticks;
      frozenAt := frozenAt.(ticks := ticks);
      var refined := AttributedUJ(s, lastFrom, frozenAt);
      closedUJ := closedUJ + (refined - lastUJ);
      lastUJ := refined;
    }

    method Open(r: Reading)
      modifies this
      ensures Value() == OpenAt(old(Value()), r)
    {
      segment, frozen := r, false;
    }
  }

  /** The energy attributed to a step from its readings and the marks of its freezes. */
  method SegmentedAttribution(s: Socket, start: Reading, end: Reading, marks: seq<FreezeMark>)
    returns (total: Breakdown)
    ensures total == Segmented(s, start, end, marks)
  {
    hide AttributionDetail;
    NeverFrozenIsOneWindow(s, start, end);
    if |marks| == 0 {
      return AttributionDetail(s, start, end);
    }
    var sums := Sums(0, 0, 0);
    var current := start;
    var running := true;
    var counted := 0;
    for i := 0 to |marks|
      invariant counted == i && running
      invariant forall j :: 0 <= j < i ==> marks[j].resumed
      invariant current == StartOf(start, marks, i)
      invariant sums == Total(s, Closed(start, marks[..i]))
    {
      ClosedStep(s, start, marks, i);
      counted := i + 1;
      sums := sums.Add(AttributionDetail(s, current, marks[i].freeze));
      if !marks[i].resumed {
        running := false;
        break;
      }
      current := marks[i].resume;
    }
    CountedIs(marks, counted, running);
    ExecutedIs(s, start, end, marks, counted, running);
    if running {
      sums := sums.Add(AttributionDetail(s, current, end));
    }
    total := sums.ToBreakdown();
  }

  lemma ClosedStep(s: Socket, start: Reading, marks: seq<FreezeMark>, i: nat)
    requires i < |marks|
    ensures Total(s, Closed(start, marks[..i + 1]))
         == Total(s, Closed(start, marks[..i])).Add(AttributionDetail(s, StartOf(start, marks, i), marks[i].freeze))
  {
    var closed := Segment(StartOf(start, marks, i), marks[i].freeze);
    assert Closed(start, marks[..i + 1]) == Closed(start, marks[..i]) + [closed];
    TotalSnoc(s, Closed(start, marks[..i]), closed);
  }

  lemma ExecutedIs(s: Socket, start: Reading, end: Reading, marks: seq<FreezeMark>, i: nat, running: bool)
    requires i == Counted(marks) && AllResumed(marks) == running
    ensures Total(s, Executed(start, end, marks))
         == var closed := Total(s, Closed(start, marks[..i]));
            if running then closed.Add(AttributionDetail(s, StartOf(start, marks, |marks|), end)) else closed
  {
    var closed := Closed(start, marks[..i]);
    if running {
      TotalSnoc(s, closed, Segment(StartOf(start, marks, |marks|), end));
    } else {
      assert Executed(start, end, marks) == closed;
    }
  }

  lemma CountedIs(marks: seq<FreezeMark>, i: nat, running: bool)
    requires i <= |marks|
    requires running ==> i == |marks| && AllResumed(marks)
    requires !running ==> i > 0 && !marks[i - 1].resumed && forall j :: 0 <= j < i - 1 ==> marks[j].resumed
    ensures Counted(marks) == i && AllResumed(marks) == running
  {}
}
