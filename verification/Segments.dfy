/**
 Energy by execution segments (openwhisk/energySegments.go): an effective freeze closes the
 running segment, an effective resume opens the next one, and nothing is attributed in between.

 `Segmented` is the batch formula over the log of freeze marks; `Meter` is the incremental form
 the monitor keeps. This module holds both as values, and the laws that relate them.
 */
module Segments {
  import opened Attribution

  datatype FreezeMark = FreezeMark(freeze: Reading, resumed: bool, resume: Reading)

  datatype Segment = Segment(from: Reading, to: Reading)

  // ------------------------------------------------------------------------ the batch formula

  predicate AllResumed(marks: seq<FreezeMark>) {
    forall i :: 0 <= i < |marks| ==> marks[i].resumed
  }

  /** The reading from which the segment after the first `i` marks runs. */
  function StartOf(start: Reading, marks: seq<FreezeMark>, i: nat): Reading
    requires i <= |marks|
  {
    if i == 0 then start else marks[i - 1].resume
  }

  /** The segments closed by each mark. */
  function Closed(start: Reading, marks: seq<FreezeMark>): (segments: seq<Segment>)
    ensures |segments| == |marks|
  {
    seq(|marks|, i requires 0 <= i < |marks| => Segment(StartOf(start, marks, i), marks[i].freeze))
  }

  /** How many marks count: all of them up to the first one that was never resumed. */
  function Counted(marks: seq<FreezeMark>): (n: nat)
    ensures n <= |marks|
    ensures AllResumed(marks) ==> n == |marks|
    ensures !AllResumed(marks) ==> n > 0 && !marks[n - 1].resumed
    ensures forall i :: 0 <= i < n - 1 ==> marks[i].resumed
  {
    if marks == [] then 0
    else if !marks[0].resumed then 1
    else 1 + Counted(marks[1..])
  }

  /** The execution segments of a step, in order; a step that ends frozen has no last one. */
  function Executed(start: Reading, end: Reading, marks: seq<FreezeMark>): seq<Segment> {
    Closed(start, marks[..Counted(marks)])
    + if AllResumed(marks) then [Segment(StartOf(start, marks, |marks|), end)] else []
  }

  lemma ExecutedAt(start: Reading, end: Reading, marks: seq<FreezeMark>, i: nat)
    ensures |Executed(start, end, marks)| == Counted(marks) + if AllResumed(marks) then 1 else 0
    ensures i < Counted(marks) ==>
              Executed(start, end, marks)[i] == Segment(StartOf(start, marks, i), marks[i].freeze)
    ensures i == |marks| && AllResumed(marks) ==>
              Executed(start, end, marks)[i] == Segment(StartOf(start, marks, i), end)
  {}

  datatype Sums = Sums(attributedUJ: int, processUsec: int, capacityUsec: int) {
    function Add(b: Breakdown): Sums {
      Sums(attributedUJ + b.attributedUJ, processUsec + b.processUsec, capacityUsec + b.capacityUsec)
    }

    /** The ratio of the summed inputs, capped at one; zero when nothing was measurable. */
    function Ratio(): real {
      if capacityUsec > 0 then CPURatio(processUsec, capacityUsec) else 0.0
    }

    function ToBreakdown(): Breakdown {
      Breakdown(attributedUJ, processUsec, capacityUsec, Ratio())
    }
  }

  function Total(s: Socket, segments: seq<Segment>): (t: Sums)
    ensures t.attributedUJ >= 0 && t.processUsec >= 0 && t.capacityUsec >= 0
  {
    if segments == [] then
      Sums(0, 0, 0)
    else
      var last := segments[|segments| - 1];
      Total(s, segments[..|segments| - 1]).Add(AttributionDetail(s, last.from, last.to))
  }

  function Segmented(s: Socket, start: Reading, end: Reading, marks: seq<FreezeMark>): Breakdown {
    Total(s, Executed(start, end, marks)).ToBreakdown()
  }

  lemma TotalSnoc(s: Socket, segments: seq<Segment>, last: Segment)
    ensures Total(s, segments + [last]) == Total(s, segments).Add(AttributionDetail(s, last.from, last.to))
  {
    assert (segments + [last])[..|segments|] == segments;
  }

  function Summed(f: Breakdown -> int, s: Socket, segments: seq<Segment>): int {
    if segments == [] then 0
    else f(AttributionDetail(s, segments[0].from, segments[0].to)) + Summed(f, s, segments[1..])
  }

  lemma {:induction false} SummedSnoc(f: Breakdown -> int, s: Socket, segments: seq<Segment>, last: Segment)
    ensures Summed(f, s, segments + [last]) == Summed(f, s, segments) + f(AttributionDetail(s, last.from, last.to))
  {
    hide AttributionDetail;
    if segments == [] {
      assert [] + [last] == [last];
    } else {
      assert (segments + [last])[1..] == segments[1..] + [last];
      SummedSnoc(f, s, segments[1..], last);
    }
  }

  lemma {:induction false} TotalIsSum(s: Socket, segments: seq<Segment>)
    ensures Total(s, segments).attributedUJ == Summed((b: Breakdown) => b.attributedUJ, s, segments)
    ensures Total(s, segments).processUsec == Summed((b: Breakdown) => b.processUsec, s, segments)
    ensures Total(s, segments).capacityUsec == Summed((b: Breakdown) => b.capacityUsec, s, segments)
  {
    hide AttributionDetail;
    if segments != [] {
      var n := |segments| - 1;
      TotalIsSum(s, segments[..n]);
      assert segments == segments[..n] + [segments[n]];
      SummedSnoc((b: Breakdown) => b.attributedUJ, s, segments[..n], segments[n]);
      SummedSnoc((b: Breakdown) => b.processUsec, s, segments[..n], segments[n]);
      SummedSnoc((b: Breakdown) => b.capacityUsec, s, segments[..n], segments[n]);
    }
  }

  /**
   Over any number of segments energy, CPU time and capacity add up, so frozen time is in none of
   them, and the reported ratio is that of the summed CPU time and capacity, at most one.
   */
  lemma SegmentedSums(s: Socket, start: Reading, end: Reading, marks: seq<FreezeMark>)
    ensures var b, segments := Segmented(s, start, end, marks), Executed(start, end, marks);
            && b.attributedUJ == Summed((d: Breakdown) => d.attributedUJ, s, segments)
            && b.processUsec == Summed((d: Breakdown) => d.processUsec, s, segments)
            && b.capacityUsec == Summed((d: Breakdown) => d.capacityUsec, s, segments)
            && (b.processUsec <= b.capacityUsec && b.capacityUsec > 0 ==> b.ratio * b.capacityUsec as real == b.processUsec as real)
            && (b.processUsec > b.capacityUsec > 0 ==> b.ratio == 1.0)
            && (b.capacityUsec == 0 ==> b.ratio == 0.0)
  {
    TotalIsSum(s, Executed(start, end, marks));
    hide AttributionDetail, Executed;
  }

  /** A step that was never frozen is measured on its whole interval, ratio included. */
  lemma NeverFrozenIsOneWindow(s: Socket, start: Reading, end: Reading)
    ensures Segmented(s, start, end, []) == AttributionDetail(s, start, end)
  {
    var whole := Segment(start, end);
    assert Executed(start, end, []) == [] + [whole];
    TotalSnoc(s, [], whole);
    if Measurable(s, start, end) {
      ProductPositive(TruncDiv(end.wallNs - start.wallNs, 1000), s.cores);
    }
  }

  // --------------------------------------------------------------- comparing lists of segments

  lemma {:induction false} TotalPointwiseEqual(s: Socket, a: seq<Segment>, b: seq<Segment>)
    requires |a| == |b|
    requires forall i :: 0 <= i < |a| ==>
               AttributionDetail(s, a[i].from, a[i].to) == AttributionDetail(s, b[i].from, b[i].to)
    ensures Total(s, a) == Total(s, b)
  {
    if a != [] {
      TotalPointwiseEqual(s, a[..|a| - 1], b[..|b| - 1]);
    }
  }

  lemma {:induction false} TotalPointwiseMonotone(s: Socket, a: seq<Segment>, b: seq<Segment>)
    requires |a| == |b|
    requires forall i :: 0 <= i < |a| ==>
               AttributedUJ(s, a[i].from, a[i].to) <= AttributedUJ(s, b[i].from, b[i].to)
    ensures Total(s, a).attributedUJ <= Total(s, b).attributedUJ
  {
    if a != [] {
      var n := |a| - 1;
      TotalPointwiseMonotone(s, a[..n], b[..n]);
      assert AttributedUJ(s, a[n].from, a[n].to) <= AttributedUJ(s, b[n].from, b[n].to);
    }
  }

  /** What `f` gained over all segments. */
  function Gained(f: Reading -> int, segments: seq<Segment>): int {
    if segments == [] then 0
    else
      var last := segments[|segments| - 1];
      Gained(f, segments[..|segments| - 1]) + f(last.to) - f(last.from)
  }

  /** What `f` gained between each freeze and the resume that ended it. */
  function GainedFrozen(f: Reading -> int, marks: seq<FreezeMark>): int {
    if marks == [] then 0
    else
      var last := marks[|marks| - 1];
      GainedFrozen(f, marks[..|marks| - 1]) + f(last.resume) - f(last.freeze)
  }

  lemma GainedSnoc(f: Reading -> int, segments: seq<Segment>, last: Segment)
    ensures Gained(f, segments + [last]) == Gained(f, segments) + f(last.to) - f(last.from)
  {
    assert (segments + [last])[..|segments|] == segments;
  }

  lemma ClosedPrefix(start: Reading, marks: seq<FreezeMark>)
    requires marks != []
    ensures Closed(start, marks) == Closed(start, marks[..|marks| - 1])
                                    + [Segment(StartOf(start, marks, |marks| - 1), marks[|marks| - 1].freeze)]
  {}

  lemma {:induction false} ClosedTelescopes(f: Reading -> int, start: Reading, marks: seq<FreezeMark>)
    ensures Gained(f, Closed(start, marks)) + GainedFrozen(f, marks) == f(StartOf(start, marks, |marks|)) - f(start)
  {
    if marks != [] {
      var n := |marks| - 1;
      ClosedPrefix(start, marks);
      GainedSnoc(f, Closed(start, marks[..n]), Segment(StartOf(start, marks, n), marks[n].freeze));
      ClosedTelescopes(f, start, marks[..n]);
    }
  }

  /** Where a step's measurement stops: its end, or the freeze it never left. */
  function Stop(end: Reading, marks: seq<FreezeMark>): Reading {
    if AllResumed(marks) then end else marks[Counted(marks) - 1].freeze
  }

  /** The freezes that were followed by a resume, before any freeze that was not. */
  function Finished(marks: seq<FreezeMark>): seq<FreezeMark> {
    if AllResumed(marks) then marks else marks[..Counted(marks) - 1]
  }

  /** Over any number of pauses, running gains plus frozen gains add up to the whole gain. */
  lemma RunningPlusFrozenIsWhole(f: Reading -> int, start: Reading, end: Reading, marks: seq<FreezeMark>)
    ensures Gained(f, Executed(start, end, marks)) + GainedFrozen(f, Finished(marks)) == f(Stop(end, marks)) - f(start)
  {
    var n := Counted(marks);
    if AllResumed(marks) {
      assert marks[..n] == marks;
      ClosedTelescopes(f, start, marks);
      GainedSnoc(f, Closed(start, marks), Segment(StartOf(start, marks, n), end));
    } else {
      assert marks[..n][..n - 1] == marks[..n - 1];
      ClosedPrefix(start, marks[..n]);
      ClosedTelescopes(f, start, marks[..n - 1]);
      GainedSnoc(f, Closed(start, marks[..n - 1]), Segment(StartOf(start, marks, n - 1), marks[n - 1].freeze));
      assert Executed(start, end, marks) == Closed(start, marks[..n]);
    }
  }

  // ------------------------------------------------------------------------- laws of the formula

  predicate NonWrapping(segments: seq<Segment>) {
    forall i :: 0 <= i < |segments| ==> segments[i].from.energyUJ <= segments[i].to.energyUJ
  }

  lemma {:induction false} TotalWithinGain(s: Socket, segments: seq<Segment>)
    requires NonWrapping(segments)
    ensures Total(s, segments).attributedUJ <= Gained((r: Reading) => r.energyUJ, segments)
  {
    if segments != [] {
      var n := |segments| - 1;
      TotalWithinGain(s, segments[..n]);
      AttributionWithinDelta(s, segments[n].from, segments[n].to);
    }
  }

  /**
   A step is charged at most what the node used from its start to its stop, minus all the node
   used between its freezes and resumes.
   */
  lemma StepConservesNodeEnergy(s: Socket, start: Reading, end: Reading, marks: seq<FreezeMark>)
    requires NonWrapping(Executed(start, end, marks))
    ensures 0 <= Segmented(s, start, end, marks).attributedUJ
              <= Stop(end, marks).energyUJ - start.energyUJ
                 - GainedFrozen((r: Reading) => r.energyUJ, Finished(marks))
  {
    var energy := (r: Reading) => r.energyUJ;
    TotalWithinGain(s, Executed(start, end, marks));
    RunningPlusFrozenIsWhole(energy, start, end, marks);
  }

  /** Where the first segment of a step ends. */
  function FirstStop(end: Reading, marks: seq<FreezeMark>): Reading {
    if marks == [] then end else marks[0].freeze
  }

  lemma {:induction false} TotalFirst(s: Socket, first: Segment, rest: seq<Segment>)
    ensures Total(s, [first] + rest).attributedUJ == AttributedUJ(s, first.from, first.to) + Total(s, rest).attributedUJ
  {
    hide AttributionDetail;
    if rest == [] {
      assert [first] + rest == [] + [first];
      TotalSnoc(s, [], first);
    } else {
      var n := |rest| - 1;
      assert ([first] + rest)[..n + 1] == [first] + rest[..n];
      TotalFirst(s, first, rest[..n]);
    }
  }

  /** Two measurements of one step that start at different readings differ only in its first segment. */
  lemma FirstSegmentDecides(s: Socket, start: Reading, start': Reading, end: Reading, marks: seq<FreezeMark>)
    ensures var stop := FirstStop(end, marks);
            Segmented(s, start', end, marks).attributedUJ - AttributedUJ(s, start', stop)
            == Segmented(s, start, end, marks).attributedUJ - AttributedUJ(s, start, stop)
  {
    var a, b := Executed(start, end, marks), Executed(start', end, marks);
    ExecutedAt(start, end, marks, 0);
    ExecutedAt(start', end, marks, 0);
    assert a[1..] == b[1..];
    assert a == [a[0]] + a[1..] && b == [b[0]] + b[1..];
    hide Executed, AttributionDetail;
    TotalFirst(s, a[0], a[1..]);
    TotalFirst(s, b[0], b[1..]);
  }

  function Prefix(xs: seq<int>, n: nat): int
    requires n <= |xs|
  {
    if n == 0 then 0 else Prefix(xs, n - 1) + xs[n - 1]
  }

  function Later(r: Reading, energyUJ: int, wallNs: int): Reading {
    r.(energyUJ := r.energyUJ + energyUJ, wallNs := r.wallNs + wallNs)
  }

  /** The same run, where the node used `extra[i]` more, for `idle[i]` longer, during freeze `i`. */
  function Disturbed(marks: seq<FreezeMark>, extra: seq<int>, idle: seq<int>): (marks': seq<FreezeMark>)
    requires |extra| == |idle| == |marks|
    ensures |marks'| == |marks|
  {
    seq(|marks|, i requires 0 <= i < |marks| =>
      FreezeMark(Later(marks[i].freeze, Prefix(extra, i), Prefix(idle, i)),
                 marks[i].resumed,
                 Later(marks[i].resume, Prefix(extra, i + 1), Prefix(idle, i + 1))))
  }

  lemma CountedDependsOnResumes(a: seq<FreezeMark>, b: seq<FreezeMark>)
    requires |a| == |b|
    requires forall i :: 0 <= i < |a| ==> a[i].resumed == b[i].resumed
    ensures Counted(a) == Counted(b) && AllResumed(a) == AllResumed(b)
  {}

  /**
   Whatever other containers burn while the step is frozen, and however long it stays frozen,
   its measurement is unchanged.
   */
  lemma EnergyDuringFreezesNeverCounts(s: Socket, start: Reading, end: Reading, marks: seq<FreezeMark>,
                                       extra: seq<int>, idle: seq<int>)
    requires |extra| == |idle| == |marks|
    requires NonWrapping(Executed(start, end, marks))
    ensures Segmented(s, start, Later(end, Prefix(extra, |marks|), Prefix(idle, |marks|)), Disturbed(marks, extra, idle))
         == Segmented(s, start, end, marks)
  {
    var marks' := Disturbed(marks, extra, idle);
    var end' := Later(end, Prefix(extra, |marks|), Prefix(idle, |marks|));
    var a, b := Executed(start, end, marks), Executed(start, end', marks');
    DisturbedSegment(start, end, marks, extra, idle, 0);
    forall i | 0 <= i < |a|
      ensures AttributionDetail(s, a[i].from, a[i].to) == AttributionDetail(s, b[i].from, b[i].to)
    {
      DisturbedSegment(start, end, marks, extra, idle, i);
      AttributionDependsOnGains(s, a[i].from, a[i].to, b[i].from, b[i].to);
    }
    TotalPointwiseEqual(s, a, b);
  }

  /** Disturbing the freezes moves each segment as a whole. */
  lemma DisturbedSegment(start: Reading, end: Reading, marks: seq<FreezeMark>, extra: seq<int>, idle: seq<int>, i: nat)
    requires |extra| == |idle| == |marks|
    ensures var a := Executed(start, end, marks);
            var b := Executed(start, Later(end, Prefix(extra, |marks|), Prefix(idle, |marks|)), Disturbed(marks, extra, idle));
            && |a| == |b| <= |marks| + 1
            && (i < |a| ==>
                 && b[i].from == Later(a[i].from, Prefix(extra, i), Prefix(idle, i))
                 && b[i].to == Later(a[i].to, Prefix(extra, i), Prefix(idle, i)))
  {
    hide Executed, StartOf, Counted, Prefix;
    var marks' := Disturbed(marks, extra, idle);
    var end' := Later(end, Prefix(extra, |marks|), Prefix(idle, |marks|));
    CountedDependsOnResumes(marks, marks');
    hide Disturbed;
    ExecutedAt(start, end, marks, i);
    ExecutedAt(start, end', marks', i);
    DisturbedStart(start, marks, extra, idle, i);
    if i < Counted(marks) {
      DisturbedAt(marks, extra, idle, i);
    }
  }

  lemma DisturbedAt(marks: seq<FreezeMark>, extra: seq<int>, idle: seq<int>, j: nat)
    requires |extra| == |idle| == |marks| && j < |marks|
    ensures Disturbed(marks, extra, idle)[j]
         == FreezeMark(Later(marks[j].freeze, Prefix(extra, j), Prefix(idle, j)),
                       marks[j].resumed,
                       Later(marks[j].resume, Prefix(extra, j + 1), Prefix(idle, j + 1)))
  {
    hide Prefix;
  }

  lemma DisturbedStart(start: Reading, marks: seq<FreezeMark>, extra: seq<int>, idle: seq<int>, i: nat)
    requires |extra| == |idle| == |marks|
    ensures i <= |marks| ==> StartOf(start, Disturbed(marks, extra, idle), i)
                             == Later(StartOf(start, marks, i), Prefix(extra, i), Prefix(idle, i))
  {
    hide Disturbed;
    if 0 < i <= |marks| {
      DisturbedAt(marks, extra, idle, i - 1);
    }
  }

  /**
   When the reading of one resume is unusable, the next segment restarts from the energy of the
   freeze: compared with any usable reading, the step can only be charged more.
   */
  lemma FailedResumeOnlyRaises(s: Socket, start: Reading, end: Reading, marks: seq<FreezeMark>, k: nat)
    requires k < |marks| && marks[k].freeze.energyUJ <= marks[k].resume.energyUJ
    requires NonWrapping(Executed(start, end, marks))
    ensures Segmented(s, start, end, marks).attributedUJ
         <= Segmented(s, start, end, marks[k := marks[k].(resume := marks[k].resume.(energyUJ := marks[k].freeze.energyUJ))]).attributedUJ
  {
    var marks' := marks[k := marks[k].(resume := marks[k].resume.(energyUJ := marks[k].freeze.energyUJ))];
    CountedDependsOnResumes(marks, marks');
    var a, b := Executed(start, end, marks), Executed(start, end, marks');
    forall i | 0 <= i < |a|
      ensures AttributedUJ(s, a[i].from, a[i].to) <= AttributedUJ(s, b[i].from, b[i].to)
    {
      assert b[i].to == a[i].to;
      if i == k + 1 {
        assert b[i].from == a[i].from.(energyUJ := marks[k].freeze.energyUJ);
        AttributionMonotoneInEnergy(s, a[i].from, a[i].to, marks[k].freeze.energyUJ);
      } else {
        assert b[i].from == a[i].from;
      }
    }
    TotalPointwiseMonotone(s, a, b);
  }

  /**
   The same on the wrapping register, where the promise holds for a resume whose freeze, reading
   and end of segment are `FallbackSafe`; the other segments may wrap as they like.
   */
  lemma FailedResumeOnRegister(s: Socket, start: Reading, end: Reading, marks: seq<FreezeMark>, k: nat)
    requires k < |marks|
    requires k + 1 < |Executed(start, end, marks)| ==>
               var endUJ := Executed(start, end, marks)[k + 1].to.energyUJ;
               && Shown(s, marks[k].freeze.energyUJ) && Shown(s, marks[k].resume.energyUJ) && Shown(s, endUJ)
               && FallbackSafe(s, marks[k].freeze.energyUJ, marks[k].resume.energyUJ, endUJ)
    ensures Segmented(s, start, end, marks).attributedUJ
         <= Segmented(s, start, end, marks[k := marks[k].(resume := marks[k].resume.(energyUJ := marks[k].freeze.energyUJ))]).attributedUJ
  {
    var marks' := marks[k := marks[k].(resume := marks[k].resume.(energyUJ := marks[k].freeze.energyUJ))];
    CountedDependsOnResumes(marks, marks');
    var a, b := Executed(start, end, marks), Executed(start, end, marks');
    forall i | 0 <= i < |a|
      ensures AttributedUJ(s, a[i].from, a[i].to) <= AttributedUJ(s, b[i].from, b[i].to)
    {
      hide AttributionDetail, DeltaRAPL, FallbackSafe;
      assert b[i].to == a[i].to;
      if i == k + 1 {
        assert b[i].from == a[i].from.(energyUJ := marks[k].freeze.energyUJ);
        FallbackDelta(s, marks[k].freeze.energyUJ, a[i].from.energyUJ, a[i].to.energyUJ);
        AttributionMonotoneInDelta(s, a[i].from, a[i].to, marks[k].freeze.energyUJ);
      } else {
        assert b[i].from == a[i].from;
      }
    }
    TotalPointwiseMonotone(s, a, b);
  }

  /**
   A failed resume reading that loses energy: the register wraps during a freeze taken far below
   the top, and the step ends below the freeze's reading.
   */
  lemma FailedResumeCanLose()
    ensures var s: Socket := SocketParams(1000, 900, 1);
            var mark := FreezeMark(Reading(500, 10, 1000000), true, Reading(50, 10, 2000000));
            var fallback := mark.(resume := Reading(500, 10, 2000000));
            var start, end := Reading(0, 0, 0), Reading(100, 1010, 3000000);
            Segmented(s, start, end, [fallback]).attributedUJ < Segmented(s, start, end, [mark]).attributedUJ
  {
    var s: Socket := SocketParams(1000, 900, 1);
    var mark := FreezeMark(Reading(500, 10, 1000000), true, Reading(50, 10, 2000000));
    var fallback := mark.(resume := Reading(500, 10, 2000000));
    var start, end := Reading(0, 0, 0), Reading(100, 1010, 3000000);
    TwoSegments(s, start, end, mark);
    TwoSegments(s, start, end, fallback);
    assert AttributedUJ(s, mark.resume, end) == 50;
    assert AttributedUJ(s, fallback.resume, end) == 0;
  }

  lemma TwoSegments(s: Socket, start: Reading, end: Reading, mark: FreezeMark)
    requires mark.resumed
    ensures Segmented(s, start, end, [mark]).attributedUJ == AttributedUJ(s, start, mark.freeze) + AttributedUJ(s, mark.resume, end)
  {
    hide AttributionDetail;
    var first, second := Segment(start, mark.freeze), Segment(mark.resume, end);
    assert AllResumed([mark]) && Counted([mark]) == 1;
    assert Executed(start, end, [mark]) == [first] + [second];
    assert [first] == [] + [first];
    TotalSnoc(s, [], first);
    TotalSnoc(s, [first], second);
  }

  /** Each segment restarts from the CPU time at which the previous one was closed. */
  predicate CarriesTicks(marks: seq<FreezeMark>) {
    forall i :: 0 <= i < |marks| && marks[i].resumed ==> marks[i].resume.ticks == marks[i].freeze.ticks
  }

  predicate TicksAdvance(segments: seq<Segment>) {
    forall i :: 0 <= i < |segments| ==> segments[i].from.ticks <= segments[i].to.ticks
  }

  /** Every segment in which the container computed also shows node energy and elapsed time. */
  predicate NoBlindSegment(s: Socket, segments: seq<Segment>) {
    forall i :: 0 <= i < |segments| && segments[i].from.ticks != segments[i].to.ticks ==>
      Measurable(s, segments[i].from, segments[i].to)
  }

  lemma {:induction false} ProcessTimeOfSegments(s: Socket, segments: seq<Segment>)
    requires TicksAdvance(segments)
    ensures Total(s, segments).processUsec <= Gained((r: Reading) => r.ticks, segments)
    ensures Total(s, segments).processUsec == Gained((r: Reading) => r.ticks, segments) <==> NoBlindSegment(s, segments)
  {
    if segments != [] {
      ProcessTimeOfSegments(s, segments[..|segments| - 1]);
    }
  }

  lemma {:induction false} NoTicksWhileFrozen(marks: seq<FreezeMark>)
    requires CarriesTicks(marks) && AllResumed(marks)
    ensures GainedFrozen((r: Reading) => r.ticks, marks) == 0
  {
    if marks != [] {
      NoTicksWhileFrozen(marks[..|marks| - 1]);
    }
  }

  /**
   The container's CPU time is counted once and only once: over any number of pauses the
   reported CPU time never exceeds last minus first reading, and equals it exactly when no
   segment with CPU time shows zero energy or zero duration.
   */
  lemma CPUTimeCountedOnce(s: Socket, start: Reading, end: Reading, marks: seq<FreezeMark>)
    requires CarriesTicks(marks)
    requires TicksAdvance(Executed(start, end, marks))
    ensures Segmented(s, start, end, marks).processUsec <= Stop(end, marks).ticks - start.ticks
    ensures Segmented(s, start, end, marks).processUsec == Stop(end, marks).ticks - start.ticks
       <==> NoBlindSegment(s, Executed(start, end, marks))
  {
    ProcessTimeOfSegments(s, Executed(start, end, marks));
    NoTicksWhileFrozen(Finished(marks));
    RunningPlusFrozenIsWhole((r: Reading) => r.ticks, start, end, marks);
  }

  // ----------------------------------------------------------------------- the wrapping register

  predicate TrueReading(r: Reading) {
    r.energyUJ >= 0
  }

  function OnRegister(s: Socket, r: Reading): Reading
    requires TrueReading(r)
  {
    r.(energyUJ := Register(s, r.energyUJ))
  }

  predicate TrueMarks(marks: seq<FreezeMark>) {
    forall i :: 0 <= i < |marks| ==> TrueReading(marks[i].freeze) && TrueReading(marks[i].resume)
  }

  function MarksOnRegister(s: Socket, marks: seq<FreezeMark>): (marks': seq<FreezeMark>)
    requires TrueMarks(marks)
    ensures |marks'| == |marks|
  {
    seq(|marks|, i requires 0 <= i < |marks| =>
      FreezeMark(OnRegister(s, marks[i].freeze), marks[i].resumed, OnRegister(s, marks[i].resume)))
  }

  predicate Recoverable(s: Socket, segments: seq<Segment>) {
    forall i :: 0 <= i < |segments| ==>
      0 <= segments[i].to.energyUJ - segments[i].from.energyUJ <= s.max - s.threshold
  }

  /**
   Measured on a register that wraps, a step gets what it would get on the unbounded counter, as
   long as each segment uses no more than the headroom above the overflow bound.
   */
  lemma SegmentedThroughRegister(s: Socket, start: Reading, end: Reading, marks: seq<FreezeMark>)
    requires s.threshold > 0
    requires TrueReading(start) && TrueReading(end) && TrueMarks(marks)
    requires Recoverable(s, Executed(start, end, marks))
    ensures Segmented(s, OnRegister(s, start), OnRegister(s, end), MarksOnRegister(s, marks))
         == Segmented(s, start, end, marks)
  {
    var marks' := MarksOnRegister(s, marks);
    CountedDependsOnResumes(marks, marks');
    var a := Executed(start, end, marks);
    var b := Executed(OnRegister(s, start), OnRegister(s, end), marks');
    forall i | 0 <= i < |a|
      ensures AttributionDetail(s, b[i].from, b[i].to) == AttributionDetail(s, a[i].from, a[i].to)
    {
      hide AttributionDetail, OnRegister, Register;
      assert TrueReading(a[i].from) && TrueReading(a[i].to);
      assert b[i].from == OnRegister(s, a[i].from) && b[i].to == OnRegister(s, a[i].to);
      WindowThroughRegister(s, a[i].from, a[i].to);
    }
    TotalPointwiseEqual(s, a, b);
  }

  /** Conservation on the wrapping register: the bound is the true counter's. */
  lemma StepConservesThroughRegister(s: Socket, start: Reading, end: Reading, marks: seq<FreezeMark>)
    requires s.threshold > 0
    requires TrueReading(start) && TrueReading(end) && TrueMarks(marks)
    requires Recoverable(s, Executed(start, end, marks))
    ensures Segmented(s, OnRegister(s, start), OnRegister(s, end), MarksOnRegister(s, marks)).attributedUJ
         <= Stop(end, marks).energyUJ - start.energyUJ - GainedFrozen((r: Reading) => r.energyUJ, Finished(marks))
  {
    SegmentedThroughRegister(s, start, end, marks);
    StepConservesNodeEnergy(s, start, end, marks);
  }

  /**
   On the wrapping register too, whatever others burn during the freezes leaves the measurement
   unchanged, even when it makes the register wrap while the step is frozen.
   */
  lemma FreezesNeverCountThroughRegister(s: Socket, start: Reading, end: Reading, marks: seq<FreezeMark>,
                                         extra: seq<int>, idle: seq<int>)
    requires s.threshold > 0
    requires |extra| == |idle| == |marks|
    requires TrueReading(start) && TrueReading(end) && TrueMarks(marks)
    requires forall i :: 0 <= i < |extra| ==> extra[i] >= 0
    requires Recoverable(s, Executed(start, end, marks))
    ensures var end' := Later(end, Prefix(extra, |marks|), Prefix(idle, |marks|));
            var marks' := Disturbed(marks, extra, idle);
            && TrueReading(end') && TrueMarks(marks')
            && Segmented(s, OnRegister(s, start), OnRegister(s, end'), MarksOnRegister(s, marks'))
               == Segmented(s, OnRegister(s, start), OnRegister(s, end), MarksOnRegister(s, marks))
  {
    hide Executed, OnRegister, MarksOnRegister, Segmented, Prefix;
    var end' := Later(end, Prefix(extra, |marks|), Prefix(idle, |marks|));
    var marks' := Disturbed(marks, extra, idle);
    PrefixesNonNegative(extra);
    DisturbedSegment(start, end, marks, extra, idle, 0);
    var a, b := Executed(start, end, marks), Executed(start, end', marks');
    forall i | 0 <= i < |b|
      ensures 0 <= b[i].to.energyUJ - b[i].from.energyUJ <= s.max - s.threshold
    {
      DisturbedSegment(start, end, marks, extra, idle, i);
    }
    SegmentedThroughRegister(s, start, end, marks);
    SegmentedThroughRegister(s, start, end', marks');
    EnergyDuringFreezesNeverCounts(s, start, end, marks, extra, idle);
  }

  lemma PrefixesNonNegative(xs: seq<int>)
    requires forall i :: 0 <= i < |xs| ==> xs[i] >= 0
    ensures forall n: nat :: n <= |xs| ==> Prefix(xs, n) >= 0
  {
    forall n: nat | n <= |xs|
      ensures Prefix(xs, n) >= 0
    {
      PrefixNonNegative(xs, n);
    }
  }

  lemma {:induction false} PrefixNonNegative(xs: seq<int>, n: nat)
    requires n <= |xs| && forall i :: 0 <= i < n ==> xs[i] >= 0
    ensures Prefix(xs, n) >= 0
  {
    if n > 0 {
      PrefixNonNegative(xs, n - 1);
    }
  }

  lemma WindowThroughRegister(s: Socket, from: Reading, to: Reading)
    requires s.threshold > 0
    requires TrueReading(from) && TrueReading(to)
    requires 0 <= to.energyUJ - from.energyUJ <= s.max - s.threshold
    ensures AttributionDetail(s, OnRegister(s, from), OnRegister(s, to)) == AttributionDetail(s, from, to)
  {
    WrapRecoveredWithinHeadroom(s, from.energyUJ, to.energyUJ);
    DeltaRAPLDecides(s, OnRegister(s, from), OnRegister(s, to), from, to);
  }

  /** The energy readings enter the attribution only through their corrected difference. */
  lemma DeltaRAPLDecides(s: Socket, from: Reading, to: Reading, from': Reading, to': Reading)
    requires DeltaRAPL(s, from.energyUJ, to.energyUJ) == DeltaRAPL(s, from'.energyUJ, to'.energyUJ)
    requires from.ticks == from'.ticks && to.ticks == to'.ticks && from.wallNs == from'.wallNs && to.wallNs == to'.wallNs
    ensures AttributionDetail(s, from, to) == AttributionDetail(s, from', to')
  {}
}
