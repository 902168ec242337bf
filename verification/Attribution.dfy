/**
 Energy attributed to one container over one measurement window: the node's energy on the
 window times the container's share of the socket's CPU capacity (openwhisk/metrics_helpers.go).

 Energies are integer microjoules, CPU times integer microseconds, wall-clock times integer
 nanoseconds. The machine's fixed parameters are a `Socket`.
 */
module Attribution {
  import opened Numbers

  /** One boundary reading: the node's energy register, the container's CPU time, the clock. */
  datatype Reading = Reading(energyUJ: int, ticks: int, wallNs: int)

  /** `max` is max_energy_range_uj; `threshold` is the overflow-proximity bound derived from it. */
  datatype SocketParams = SocketParams(max: int, threshold: int, cores: int) {
    predicate Sane() {
      0 < max && 0 <= threshold <= max && 0 < cores
    }
  }

  type Socket = s: SocketParams | s.Sane() witness SocketParams(1, 1, 1)

  /** Go's integer division, which truncates toward zero. */
  function TruncDiv(a: int, b: int): int
    requires b > 0
  {
    if a >= 0 then a / b else -((-a) / b)
  }

  /** Node energy between two register readings, corrected for one register overflow. */
  function DeltaRAPL(s: Socket, start: int, end: int): int {
    if end >= start then
      end - start
    else if start >= s.threshold then
      (s.max - start) + end
    else
      0
  }

  /** Share of `delta` for `ticks` out of `capacity`, never more than the whole. */
  function Share(delta: int, ticks: int, capacity: int): int
    requires capacity > 0
  {
    delta * Min(ticks, capacity) / capacity
  }

  function CPURatio(ticks: int, capacity: int): real
    requires capacity > 0
  {
    if ticks > capacity then 1.0 else ticks as real / capacity as real
  }

  /** The result of the attribution together with the inputs it was computed from. */
  datatype Breakdown = Breakdown(attributedUJ: int, processUsec: int, capacityUsec: int, ratio: real)

  const NOTHING := Breakdown(0, 0, 0, 0.0)

  function CapacityUsec(s: Socket, from: Reading, to: Reading): int {
    TruncDiv(to.wallNs - from.wallNs, 1000) * s.cores
  }

  /** A window can be attributed when energy, CPU time and duration all advanced. */
  predicate Measurable(s: Socket, from: Reading, to: Reading) {
    && DeltaRAPL(s, from.energyUJ, to.energyUJ) > 0
    && to.ticks > from.ticks
    && TruncDiv(to.wallNs - from.wallNs, 1000) > 0
  }

  function AttributionDetail(s: Socket, from: Reading, to: Reading): (b: Breakdown)
    ensures b.attributedUJ >= 0 && b.processUsec >= 0 && b.capacityUsec >= 0
  {
    var delta := DeltaRAPL(s, from.energyUJ, to.energyUJ);
    var ticks := to.ticks - from.ticks;
    var durationUsec := TruncDiv(to.wallNs - from.wallNs, 1000);
    if delta <= 0 || ticks <= 0 || durationUsec <= 0 then
      NOTHING
    else
      ProductPositive(durationUsec, s.cores);
      var capacity := durationUsec * s.cores;
      ShareBounds(delta, ticks, capacity);
      Breakdown(Share(delta, ticks, capacity), ticks, capacity, CPURatio(ticks, capacity))
  }

  function AttributedUJ(s: Socket, from: Reading, to: Reading): (uj: int)
    ensures uj >= 0
  {
    AttributionDetail(s, from, to).attributedUJ
  }

  // ---------------------------------------------------------------- the share of one window

  lemma ProductPositive(a: int, b: int)
    requires a > 0 && b > 0
    ensures a * b > 0
  {}

  lemma Scale(a: int, b: int, c: int)
    requires c > 0
    ensures a <= b ==> a * c <= b * c
    ensures a * c < b * c ==> a < b
  {}

  lemma Distribute(a: int, b: int, c: int)
    ensures (a + b) * c == a * c + b * c
    ensures c * (a + b) == c * a + c * b
  {}

  /** The quotient and remainder of `a` by `c`, written without `%`. */
  lemma Quotient(a: int, c: int) returns (q: int)
    requires c > 0
    ensures q == a / c && q * c <= a < (q + 1) * c
  {
    q := a / c;
    Distribute(q, 1, c);
  }

  lemma QuotientMonotone(a: int, b: int, c: int)
    requires a <= b && c > 0
    ensures a / c <= b / c
  {
    var p := Quotient(a, c);
    var q := Quotient(b, c);
    Scale(p, q + 1, c);
  }

  lemma QuotientOfProduct(a: int, c: int)
    requires c > 0
    ensures a * c / c == a
  {
    var q := Quotient(a * c, c);
    Scale(q, a, c);
    Scale(a, q + 1, c);
    Scale(a, q, c);
  }

  lemma ProductMonotone(a: int, b: int, x: int, y: int)
    requires 0 <= a <= b && 0 <= x <= y
    ensures 0 <= a * x <= b * y
  {
    assert a * x <= b * x <= b * y;
  }

  /** A container never gets more than the node used, and never a negative amount. */
  lemma ShareBounds(delta: int, ticks: int, capacity: int)
    requires delta >= 0 && ticks >= 0 && capacity > 0
    ensures 0 <= Share(delta, ticks, capacity) <= delta
  {
    var t := Min(ticks, capacity);
    ProductMonotone(delta, delta, 0, t);
    ProductMonotone(delta, delta, t, capacity);
    QuotientMonotone(0, delta * t, capacity);
    QuotientMonotone(delta * t, delta * capacity, capacity);
    QuotientOfProduct(delta, capacity);
  }

  /** More energy or more CPU time in the same window never lowers the share. */
  lemma ShareMonotone(delta: int, delta': int, ticks: int, ticks': int, capacity: int)
    requires 0 <= delta <= delta' && 0 <= ticks <= ticks' && capacity > 0
    ensures Share(delta, ticks, capacity) <= Share(delta', ticks', capacity)
  {
    ProductMonotone(delta, delta', Min(ticks, capacity), Min(ticks', capacity));
    QuotientMonotone(delta * Min(ticks, capacity), delta' * Min(ticks', capacity), capacity);
  }

  /**
   The source multiplies the energy by a ratio capped at 1.0 and truncates; in exact arithmetic
   that is the integer share used here.
   */
  lemma ShareIsTruncatedRatio(delta: int, ticks: int, capacity: int)
    requires delta >= 0 && ticks >= 0 && capacity > 0
    ensures Share(delta, ticks, capacity) == (delta as real * CPURatio(ticks, capacity)).Floor
  {
    var t := Min(ticks, capacity);
    var q := Quotient(delta * t, capacity);
    var r := CPURatio(ticks, capacity);
    RatioTimesCapacity(delta, ticks, capacity);
    hide CPURatio;
    FloorOfQuotient(delta * t, capacity, q, delta as real * r);
  }

  lemma RatioTimesCapacity(delta: int, ticks: int, capacity: int)
    requires ticks >= 0 && capacity > 0
    ensures delta as real * CPURatio(ticks, capacity) * capacity as real == (delta * Min(ticks, capacity)) as real
  {
    var d, c, r, t := delta as real, capacity as real, CPURatio(ticks, capacity), Min(ticks, capacity) as real;
    assert r * c == t;
    hide CPURatio;
    assert (d * r) * c == d * (r * c);
  }

  lemma FloorOfQuotient(a: int, c: int, q: int, x: real)
    requires c > 0 && q * c <= a < (q + 1) * c && x * c as real == a as real
    ensures x.Floor == q
  {
    var lo, hi, width := q as real, (q + 1) as real, c as real;
    assert lo * width == (q * c) as real <= a as real;
    assert hi * width == ((q + 1) * c) as real > a as real;
    RealBetween(lo, x, hi, width);
  }

  lemma RealBetween(lo: real, x: real, hi: real, width: real)
    requires width > 0.0 && lo * width <= x * width < hi * width
    ensures lo <= x < hi
  {
    RealScale(x, lo, width);
    RealScale(hi, x, width);
  }

  lemma RealScale(a: real, b: real, c: real)
    requires c > 0.0
    ensures a < b ==> a * c < b * c
    ensures a <= b ==> a * c <= b * c
  {
    var gap := b - a;
    assert gap * c == b * c - a * c;
  }

  /**
   The formula in full, in its own terms: a window on which energy, CPU time and at least one whole
   microsecond went by has the capacity of that many microseconds on every core, the ratio of the
   CPU time to it, at most one, and that ratio of the energy, rounded down; any other window has
   nothing.
   */
  lemma AttributionFormula(s: Socket, from: Reading, to: Reading) returns (usec: int)
    ensures var b := AttributionDetail(s, from, to);
            var delta, ticks := DeltaRAPL(s, from.energyUJ, to.energyUJ), to.ticks - from.ticks;
            if delta > 0 && ticks > 0 && to.wallNs - from.wallNs >= 1000 then
              && usec * 1000 <= to.wallNs - from.wallNs < (usec + 1) * 1000
              && b.capacityUsec == usec * s.cores > 0
              && b.processUsec == ticks
              && (ticks <= b.capacityUsec ==> b.ratio * b.capacityUsec as real == ticks as real)
              && (ticks > b.capacityUsec ==> b.ratio == 1.0)
              && b.attributedUJ == (delta as real * b.ratio).Floor
            else
              b.attributedUJ == b.processUsec == b.capacityUsec == 0 && b.ratio == 0.0
  {
    usec := TruncDiv(to.wallNs - from.wallNs, 1000);
    if Measurable(s, from, to) {
      ProductPositive(usec, s.cores);
      ShareIsTruncatedRatio(DeltaRAPL(s, from.energyUJ, to.energyUJ), to.ticks - from.ticks, usec * s.cores);
    }
  }

  /** On one window, attribution grows with the closing CPU time. */
  lemma AttributionMonotoneInTicks(s: Socket, from: Reading, to: Reading, ticks: int)
    requires to.ticks <= ticks
    ensures AttributedUJ(s, from, to) <= AttributedUJ(s, from, to.(ticks := ticks))
  {
    if Measurable(s, from, to) {
      var delta := DeltaRAPL(s, from.energyUJ, to.energyUJ);
      ProductPositive(TruncDiv(to.wallNs - from.wallNs, 1000), s.cores);
      ShareMonotone(delta, delta, to.ticks - from.ticks, ticks - from.ticks, CapacityUsec(s, from, to));
    }
  }

  /** Starting a window from an earlier energy reading can only raise what it attributes. */
  lemma AttributionMonotoneInEnergy(s: Socket, from: Reading, to: Reading, earlierUJ: int)
    requires earlierUJ <= from.energyUJ <= to.energyUJ
    ensures AttributedUJ(s, from, to) <= AttributedUJ(s, from.(energyUJ := earlierUJ), to)
  {
    if Measurable(s, from, to) {
      ProductPositive(TruncDiv(to.wallNs - from.wallNs, 1000), s.cores);
      ShareMonotone(to.energyUJ - from.energyUJ, to.energyUJ - earlierUJ,
                    to.ticks - from.ticks, to.ticks - from.ticks, CapacityUsec(s, from, to));
    }
  }

  /** With the same CPU time and clock, more corrected node energy never lowers the attribution. */
  lemma AttributionMonotoneInDelta(s: Socket, from: Reading, to: Reading, startUJ: int)
    requires DeltaRAPL(s, from.energyUJ, to.energyUJ) <= DeltaRAPL(s, startUJ, to.energyUJ)
    ensures AttributedUJ(s, from, to) <= AttributedUJ(s, from.(energyUJ := startUJ), to)
  {
    hide DeltaRAPL;
    if Measurable(s, from, to) {
      ProductPositive(TruncDiv(to.wallNs - from.wallNs, 1000), s.cores);
      ShareMonotone(DeltaRAPL(s, from.energyUJ, to.energyUJ), DeltaRAPL(s, startUJ, to.energyUJ),
                    to.ticks - from.ticks, to.ticks - from.ticks, CapacityUsec(s, from, to));
    }
  }

  /** A window whose container saturated the socket for a microsecond is charged all its energy. */
  lemma SaturatedWindow(s: Socket, startUJ: int, endUJ: int)
    requires DeltaRAPL(s, startUJ, endUJ) >= 0
    ensures AttributedUJ(s, Reading(startUJ, 0, 0), Reading(endUJ, s.cores, 1000)) == DeltaRAPL(s, startUJ, endUJ)
  {
    hide DeltaRAPL;
    QuotientOfProduct(DeltaRAPL(s, startUJ, endUJ), s.cores);
  }

  /** A window never attributes more than the node consumed on it. */
  lemma AttributionWithinDelta(s: Socket, from: Reading, to: Reading)
    ensures 0 <= AttributedUJ(s, from, to)
    ensures AttributedUJ(s, from, to) <= DeltaRAPL(s, from.energyUJ, to.energyUJ) || AttributedUJ(s, from, to) == 0
  {
    if Measurable(s, from, to) {
      ProductPositive(TruncDiv(to.wallNs - from.wallNs, 1000), s.cores);
      ShareBounds(DeltaRAPL(s, from.energyUJ, to.energyUJ), to.ticks - from.ticks, CapacityUsec(s, from, to));
    }
  }

  /** Without wrapping, only what each quantity gained on the window matters. */
  lemma AttributionDependsOnGains(s: Socket, from: Reading, to: Reading, from': Reading, to': Reading)
    requires from.energyUJ <= to.energyUJ
    requires to'.energyUJ - from'.energyUJ == to.energyUJ - from.energyUJ
    requires to'.ticks - from'.ticks == to.ticks - from.ticks
    requires to'.wallNs - from'.wallNs == to.wallNs - from.wallNs
    ensures AttributionDetail(s, from, to) == AttributionDetail(s, from', to')
  {}

  // ------------------------------------------------------------- several containers, one node

  function SharesOf(delta: int, ticks: seq<int>, capacity: int): (shares: seq<int>)
    requires capacity > 0
    ensures |shares| == |ticks|
  {
    if ticks == [] then [] else [Share(delta, ticks[0], capacity)] + SharesOf(delta, ticks[1..], capacity)
  }

  lemma {:induction false} SumNonNegative(xs: seq<int>)
    requires forall i :: 0 <= i < |xs| ==> xs[i] >= 0
    ensures SumOf(xs) >= 0
  {
    if xs != [] {
      SumNonNegative(xs[1..]);
    }
  }

  lemma {:induction false} SharesScaled(delta: int, ticks: seq<int>, capacity: int)
    requires delta >= 0 && capacity > 0
    requires forall i :: 0 <= i < |ticks| ==> ticks[i] >= 0
    ensures SumOf(SharesOf(delta, ticks, capacity)) * capacity <= delta * SumOf(ticks)
  {
    if ticks != [] {
      var rest := SharesOf(delta, ticks[1..], capacity);
      SharesScaled(delta, ticks[1..], capacity);
      var share := Share(delta, ticks[0], capacity);
      assert SharesOf(delta, ticks, capacity)[1..] == rest;
      ProductMonotone(delta, delta, Min(ticks[0], capacity), ticks[0]);
      assert share * capacity <= delta * Min(ticks[0], capacity) <= delta * ticks[0];
      Distribute(share, SumOf(rest), capacity);
      Distribute(ticks[0], SumOf(ticks[1..]), delta);
    }
  }

  lemma SharesConserve(delta: int, ticks: seq<int>, capacity: int)
    requires delta >= 0 && capacity > 0
    requires forall i :: 0 <= i < |ticks| ==> ticks[i] >= 0
    requires SumOf(ticks) <= capacity
    ensures SumOf(SharesOf(delta, ticks, capacity)) <= delta
  {
    SharesScaled(delta, ticks, capacity);
    SumNonNegative(ticks);
    ProductMonotone(delta, delta, SumOf(ticks), capacity);
    var total := SumOf(SharesOf(delta, ticks, capacity));
    Distribute(delta, 1, capacity);
    Scale(total, delta + 1, capacity);
  }

  /** The CPU readings of one container at the two ends of a window shared with others. */
  datatype CPUSpan = CPUSpan(start: int, end: int) {
    function Used(): int {
      if end > start then end - start else 0
    }
  }

  function CPUTimes(spans: seq<CPUSpan>): (times: seq<int>)
    ensures |times| == |spans|
    ensures forall i :: 0 <= i < |times| ==> times[i] >= 0
  {
    if spans == [] then [] else [spans[0].Used()] + CPUTimes(spans[1..])
  }

  /** What each container measured on the window from `from` to `to` is charged. */
  function Charges(s: Socket, from: Reading, to: Reading, spans: seq<CPUSpan>): (charges: seq<int>)
    ensures |charges| == |spans|
  {
    if spans == [] then []
    else
      [AttributedUJ(s, from.(ticks := spans[0].start), to.(ticks := spans[0].end))] + Charges(s, from, to, spans[1..])
  }

  lemma {:induction false} ChargesAreShares(s: Socket, from: Reading, to: Reading, spans: seq<CPUSpan>)
    requires DeltaRAPL(s, from.energyUJ, to.energyUJ) > 0 && CapacityUsec(s, from, to) > 0
    ensures Charges(s, from, to, spans)
         == SharesOf(DeltaRAPL(s, from.energyUJ, to.energyUJ), CPUTimes(spans), CapacityUsec(s, from, to))
  {
    if spans != [] {
      ChargesAreShares(s, from, to, spans[1..]);
      var delta, capacity := DeltaRAPL(s, from.energyUJ, to.energyUJ), CapacityUsec(s, from, to);
      ChargeIsShare(s, from.(ticks := spans[0].start), to.(ticks := spans[0].end), spans[0]);
      assert CPUTimes(spans)[1..] == CPUTimes(spans[1..]);
    }
  }

  lemma ChargeIsShare(s: Socket, from: Reading, to: Reading, span: CPUSpan)
    requires span == CPUSpan(from.ticks, to.ticks)
    requires DeltaRAPL(s, from.energyUJ, to.energyUJ) > 0 && CapacityUsec(s, from, to) > 0
    ensures AttributedUJ(s, from, to)
         == Share(DeltaRAPL(s, from.energyUJ, to.energyUJ), span.Used(), CapacityUsec(s, from, to))
  {
    var delta, capacity := DeltaRAPL(s, from.energyUJ, to.energyUJ), CapacityUsec(s, from, to);
    Scale(TruncDiv(to.wallNs - from.wallNs, 1000), 0, s.cores);
    QuotientOfProduct(0, capacity);
    assert delta * 0 == 0;
  }

  lemma {:induction false} NothingToCharge(s: Socket, from: Reading, to: Reading, spans: seq<CPUSpan>)
    requires DeltaRAPL(s, from.energyUJ, to.energyUJ) <= 0 || CapacityUsec(s, from, to) <= 0
    ensures SumOf(Charges(s, from, to, spans)) == 0
  {
    Scale(0, TruncDiv(to.wallNs - from.wallNs, 1000), s.cores);
    if spans != [] {
      NothingToCharge(s, from, to, spans[1..]);
      if TruncDiv(to.wallNs - from.wallNs, 1000) > 0 {
        ProductPositive(TruncDiv(to.wallNs - from.wallNs, 1000), s.cores);
      }
      assert Charges(s, from, to, spans)[1..] == Charges(s, from, to, spans[1..]);
    }
  }

  /**
   Containers measured on one window, whose CPU times together fit in the socket's capacity, are
   charged all together at most the energy the node used on that window.
   */
  lemma ContainersConserveNodeEnergy(s: Socket, from: Reading, to: Reading, spans: seq<CPUSpan>)
    requires SumOf(CPUTimes(spans)) <= CapacityUsec(s, from, to)
    ensures var delta := DeltaRAPL(s, from.energyUJ, to.energyUJ);
            SumOf(Charges(s, from, to, spans)) <= if delta > 0 then delta else 0
  {
    var delta, capacity := DeltaRAPL(s, from.energyUJ, to.energyUJ), CapacityUsec(s, from, to);
    if delta > 0 && capacity > 0 {
      ChargesAreShares(s, from, to, spans);
      SharesConserve(delta, CPUTimes(spans), capacity);
    } else {
      NothingToCharge(s, from, to, spans);
    }
  }

  // --------------------------------------------------------------------- the wrapping register

  /** What the register shows when the node has consumed `trueUJ` since the counter was zero. */
  function Register(s: Socket, trueUJ: nat): (r: int)
    ensures 0 <= r < s.max
  {
    trueUJ % s.max
  }

  lemma RegisterTurns(s: Socket, trueUJ: nat) returns (turns: int)
    ensures turns == trueUJ / s.max && trueUJ == turns * s.max + Register(s, trueUJ)
  {
    turns := trueUJ / s.max;
  }

  /** Readings of a register always give a consumption a register can hold. */
  lemma DeltaStaysInRange(s: Socket, start: int, end: int)
    requires 0 <= start < s.max && 0 <= end < s.max
    ensures 0 <= DeltaRAPL(s, start, end) < s.max
  {}

  /**
   Between two moments of the true counter, the register readings give the true consumption
   exactly when it is less than one full turn and, if the register wrapped, its start was
   already near the top.
   */
  lemma WrapRecoveredExactlyWhen(s: Socket, from: nat, to: nat)
    requires from <= to
    ensures DeltaRAPL(s, Register(s, from), Register(s, to)) == to - from
       <==> to - from < s.max && (from / s.max == to / s.max || Register(s, from) >= s.threshold)
  {
    var a := RegisterTurns(s, from);
    var b := RegisterTurns(s, to);
    Distribute(b, 1, s.max);
    Distribute(a, 1, s.max);
    Distribute(a, 2, s.max);
    Scale(a, b + 1, s.max);
    Scale(b, a + 2, s.max);
    DeltaStaysInRange(s, Register(s, from), Register(s, to));
  }

  /** A window that uses no more than the headroom above the bound is always recovered. */
  lemma WrapRecoveredWithinHeadroom(s: Socket, from: nat, to: nat)
    requires s.threshold > 0
    requires from <= to && to - from <= s.max - s.threshold
    ensures DeltaRAPL(s, Register(s, from), Register(s, to)) == to - from
  {
    WrapRecoveredExactlyWhen(s, from, to);
    var a := RegisterTurns(s, from);
    var b := RegisterTurns(s, to);
    Distribute(a, 1, s.max);
    Distribute(b, 1, s.max);
    Scale(a, b + 1, s.max);
    Scale(a + 1, b, s.max);
  }

  // ------------------------------------------------- restarting from the freeze on the register

  predicate Shown(s: Socket, reading: int) {
    0 <= reading < s.max
  }

  /**
   Register readings of a freeze, of the resume and of the end of the resumed segment, for which
   restarting from the freeze cannot lose energy: nothing is measurable after the resume anyway, or
   the three follow each other without a turn, or with the one turn that the correction makes up
   for because the freeze was already near the top.
   */
  predicate FallbackSafe(s: Socket, freezeUJ: int, resumeUJ: int, endUJ: int) {
    || DeltaRAPL(s, resumeUJ, endUJ) == 0
    || freezeUJ <= resumeUJ <= endUJ
    || (freezeUJ >= s.threshold && (resumeUJ <= endUJ < freezeUJ || endUJ < freezeUJ <= resumeUJ))
  }

  lemma FallbackDelta(s: Socket, freezeUJ: int, resumeUJ: int, endUJ: int)
    requires Shown(s, freezeUJ) && Shown(s, resumeUJ) && Shown(s, endUJ)
    ensures DeltaRAPL(s, resumeUJ, endUJ) <= DeltaRAPL(s, freezeUJ, endUJ) <==> FallbackSafe(s, freezeUJ, resumeUJ, endUJ)
  {}

  /** The segment restarted from the freeze is charged at least what a usable resume reading gives. */
  ghost predicate FallbackNeverLoses(s: Socket, freezeUJ: int, resumeUJ: int, endUJ: int) {
    forall from: Reading, to: Reading :: from.energyUJ == resumeUJ && to.energyUJ == endUJ ==>
      AttributedUJ(s, from, to) <= AttributedUJ(s, from.(energyUJ := freezeUJ), to)
  }

  /**
   The fallback of a failed resume reading is promised to overestimate, never to lose. On the
   register it keeps that promise, for all CPU times and clocks, exactly when `FallbackSafe`.
   */
  lemma FallbackNeverLosesExactlyWhen(s: Socket, freezeUJ: int, resumeUJ: int, endUJ: int)
    requires Shown(s, freezeUJ) && Shown(s, resumeUJ) && Shown(s, endUJ)
    ensures FallbackNeverLoses(s, freezeUJ, resumeUJ, endUJ) <==> FallbackSafe(s, freezeUJ, resumeUJ, endUJ)
  {
    FallbackDelta(s, freezeUJ, resumeUJ, endUJ);
    DeltaStaysInRange(s, freezeUJ, endUJ);
    DeltaStaysInRange(s, resumeUJ, endUJ);
    hide DeltaRAPL, AttributionDetail, FallbackSafe;
    forall from: Reading, to: Reading | from.energyUJ == resumeUJ && to.energyUJ == endUJ
      ensures FallbackSafe(s, freezeUJ, resumeUJ, endUJ) ==> AttributedUJ(s, from, to) <= AttributedUJ(s, from.(energyUJ := freezeUJ), to)
    {
      if FallbackSafe(s, freezeUJ, resumeUJ, endUJ) {
        AttributionMonotoneInDelta(s, from, to, freezeUJ);
      }
    }
    SaturatedWindow(s, resumeUJ, endUJ);
    SaturatedWindow(s, freezeUJ, endUJ);
    var from, to := Reading(resumeUJ, 0, 0), Reading(endUJ, s.cores, 1000);
    assert from.(energyUJ := freezeUJ) == Reading(freezeUJ, 0, 0);
  }

  /** The register never shows more than what was truly consumed. */
  lemma DeltaWithinTruth(s: Socket, from: nat, to: nat)
    requires from <= to
    ensures DeltaRAPL(s, Register(s, from), Register(s, to)) <= to - from
  {
    var a := RegisterTurns(s, from);
    var b := RegisterTurns(s, to);
    QuotientMonotone(from, to, s.max);
    TurnsApart(s, a, b);
    hide Register;
  }

  lemma TurnsApart(s: Socket, a: int, b: int)
    requires a <= b
    ensures a == b || b * s.max >= a * s.max + s.max
  {
    Distribute(a, 1, s.max);
    Scale(a + 1, b, s.max);
  }

  /** Whenever the consumption from freeze to end is itself recovered, the fallback cannot lose. */
  lemma FallbackSafeWhenRecovered(s: Socket, freeze: nat, resume: nat, end: nat)
    requires freeze <= resume <= end
    requires end - freeze < s.max && (freeze / s.max == end / s.max || Register(s, freeze) >= s.threshold)
    ensures FallbackSafe(s, Register(s, freeze), Register(s, resume), Register(s, end))
  {
    WrapRecoveredExactlyWhen(s, freeze, end);
    DeltaWithinTruth(s, resume, end);
    FallbackDelta(s, Register(s, freeze), Register(s, resume), Register(s, end));
    hide Register, DeltaRAPL, FallbackSafe;
  }
}
