/**
 Recording measurements (openwhisk/metrics_helpers.go, openwhisk/metricHandler.go): the bounded
 history kept per endpoint, and the /init measurement held back until the /run it belongs to.

 Pushing to the collector is modelled by the order of the pushes, which are synchronous for /run.
 */
module Records {
  import opened Attribution
  import opened Options
  import opened PauseCycles

  /** What is reported of the pauses: the cycles' records, and why the step was killed if it was. */
  datatype Lifecycle = Lifecycle(cycles: seq<PauseCycle>, killCause: string)

  datatype Entry = Entry(
    start: int,
    end: int,
    traceID: string,
    activationID: string,
    executionPhase: string,
    attributedUJ: int,
    detail: Breakdown,
    lifecycle: Lifecycle) {
    function TaggedLike(run: Entry): Entry {
      this.(traceID := run.traceID, activationID := run.activationID, executionPhase := run.executionPhase)
    }
  }

  datatype Record = Record(endpoint: string, entry: Entry) {
    predicate IsRun() {
      endpoint == "/run"
    }
  }

  // ------------------------------------------------------------------------ the per-endpoint history

  /** An entry that never started nor ended is not stored. */
  predicate Stored(e: Entry) {
    e.start != 0 || e.end != 0
  }

  /** Everything accepted for one endpoint, oldest first. */
  function Accepted(history: seq<Record>, endpoint: string): seq<Entry> {
    if history == [] then []
    else
      var last := history[|history| - 1];
      Accepted(history[..|history| - 1], endpoint)
      + if last.endpoint == endpoint && Stored(last.entry) then [last.entry] else []
  }

  /** The last `limit` elements; all of them when the limit is not positive. */
  function Newest<T>(s: seq<T>, limit: int): seq<T> {
    if limit > 0 && |s| > limit then s[|s| - limit..] else s
  }

  function AddEntry(data: map<string, seq<Entry>>, limit: int, endpoint: string, e: Entry): map<string, seq<Entry>> {
    if !Stored(e) then data
    else data[endpoint := Newest((if endpoint in data then data[endpoint] else []) + [e], limit)]
  }

  lemma NewestOfExtended<T>(s: seq<T>, limit: int, x: T)
    ensures Newest(Newest(s, limit) + [x], limit) == Newest(s + [x], limit)
  {}

  // ------------------------------------------------------------------------------ the held-back /init

  datatype Ledger = Ledger(pending: Option<Entry>, pushes: seq<Record>, data: map<string, seq<Entry>>)

  const EMPTY := Ledger(None, [], map[])

  /** What one recorded call pushes: a /run goes out, after the record held back for it. */
  function PushesOf(l: Ledger, r: Record): seq<Record> {
    if !r.IsRun() then []
    else
      match l.pending
      case None => [r]
      case Some(e) => [Record("/init", e.TaggedLike(r.entry)), r]
  }

  function RecordMetrics(l: Ledger, limit: int, r: Record): Ledger {
    Ledger(if r.IsRun() then None else Some(r.entry),
           l.pushes + PushesOf(l, r),
           AddEntry(l.data, limit, r.endpoint, r.entry))
  }

  function RecordAll(limit: int, history: seq<Record>): Ledger {
    if history == [] then EMPTY
    else RecordMetrics(RecordAll(limit, history[..|history| - 1]), limit, history[|history| - 1])
  }

  /**
   What should reach the collector for the record at `i`: a /run is sent, and the record just
   before it is sent first, as its /init, unless that one was a /run too.
   */
  function PushedFor(history: seq<Record>, i: nat): seq<Record>
    requires i < |history|
  {
    if !history[i].IsRun() then []
    else if i > 0 && !history[i - 1].IsRun() then
      [Record("/init", history[i - 1].entry.TaggedLike(history[i].entry)), history[i]]
    else
      [history[i]]
  }

  function PushedUpTo(history: seq<Record>, n: nat): seq<Record>
    requires n <= |history|
  {
    if n == 0 then [] else PushedUpTo(history, n - 1) + PushedFor(history, n - 1)
  }

  lemma {:induction false} PushedUpToPrefix(history: seq<Record>, m: nat, n: nat)
    requires n <= m <= |history|
    ensures PushedUpTo(history[..m], n) == PushedUpTo(history, n)
  {
    if n > 0 {
      PushedUpToPrefix(history, m, n - 1);
    }
  }

  /**
   Over any sequence of recorded calls: each /run is pushed once, in order, and a held-back record
   is pushed only with the /run that directly follows it, tagged like it, and so never twice.
   A record held back and then replaced by another one is never pushed.
   */
  lemma {:induction false} PushesOfHistory(limit: int, history: seq<Record>)
    ensures var l := RecordAll(limit, history);
            && l.pushes == PushedUpTo(history, |history|)
            && l.pending == (if history == [] || history[|history| - 1].IsRun() then None
                             else Some(history[|history| - 1].entry))
  {
    hide AddEntry;
    if history != [] {
      var n := |history| - 1;
      PushesOfHistory(limit, history[..n]);
      PushedUpToPrefix(history, n, n);
      assert n > 0 ==> history[..n][n - 1] == history[n - 1];
    }
  }

  /** Each endpoint keeps exactly the last `limit` accepted entries of its whole history. */
  lemma {:induction false} StoredOfHistory(limit: int, history: seq<Record>, endpoint: string)
    ensures StoredFor(RecordAll(limit, history), endpoint) == Newest(Accepted(history, endpoint), limit)
  {
    if history != [] {
      var n := |history| - 1;
      var before, last := history[..n], history[n];
      StoredOfHistory(limit, before, endpoint);
      NewestOfExtended(Accepted(before, endpoint), limit, last.entry);
      assert Accepted(before, endpoint) + [] == Accepted(before, endpoint);
      StoredAfterOne(RecordAll(limit, before), limit, last, endpoint);
    }
  }

  lemma StoredAfterOne(l: Ledger, limit: int, r: Record, endpoint: string)
    ensures StoredFor(RecordMetrics(l, limit, r), endpoint)
         == if r.endpoint == endpoint && Stored(r.entry) then Newest(StoredFor(l, endpoint) + [r.entry], limit)
            else StoredFor(l, endpoint)
  {
    hide Newest;
  }

  function StoredFor(l: Ledger, endpoint: string): seq<Entry> {
    if endpoint in l.data then l.data[endpoint] else []
  }

  function Runs(records: seq<Record>): seq<Record> {
    if records == [] then []
    else
      var last := records[|records| - 1];
      Runs(records[..|records| - 1]) + if last.IsRun() then [last] else []
  }

  lemma {:induction false} RunsConcat(a: seq<Record>, b: seq<Record>)
    ensures Runs(a + b) == Runs(a) + Runs(b)
  {
    if b == [] {
      assert a + b == a;
    } else {
      assert (a + b)[..|a + b| - 1] == a + b[..|b| - 1];
      RunsConcat(a, b[..|b| - 1]);
    }
  }

  /** Over any history, the /run pushes are the /run records, each once and in order. */
  lemma EveryRunPushedOnce(limit: int, history: seq<Record>)
    ensures Runs(RecordAll(limit, history).pushes) == Runs(history)
  {
    PushesOfHistory(limit, history);
    RunsPushedUpTo(history, |history|);
    assert history[..|history|] == history;
  }

  lemma {:induction false} RunsPushedUpTo(history: seq<Record>, n: nat)
    requires n <= |history|
    ensures Runs(PushedUpTo(history, n)) == Runs(history[..n])
  {
    if n > 0 {
      RunsPushedUpTo(history, n - 1);
      RunsConcat(PushedUpTo(history, n - 1), PushedFor(history, n - 1));
      assert history[..n][..n - 1] == history[..n - 1];
      assert Runs(PushedFor(history, n - 1)) == if history[n - 1].IsRun() then [history[n - 1]] else [] by {
        RunsOfPair(PushedFor(history, n - 1));
      }
    }
  }

  lemma RunsOfOne(r: Record)
    ensures Runs([r]) == if r.IsRun() then [r] else []
  {
    assert [r][..0] == [];
    assert Runs([]) == [];
  }

  lemma RunsOfPair(records: seq<Record>)
    requires |records| <= 2
    ensures |records| == 1 ==> Runs(records) == if records[0].IsRun() then [records[0]] else []
    ensures |records| == 2 ==> Runs(records) == (if records[0].IsRun() then [records[0]] else [])
                                                + (if records[1].IsRun() then [records[1]] else [])
  {
    hide Runs;
    if |records| == 1 {
      RunsOfOne(records[0]);
      assert records == [records[0]];
    } else if |records| == 2 {
      RunsOfOne(records[0]);
      RunsOfOne(records[1]);
      RunsConcat([records[0]], [records[1]]);
      assert records == [records[0]] + [records[1]];
    }
  }

  predicate SameInvocation(init: Record, run: Record) {
    && init.endpoint == "/init"
    && run.IsRun()
    && init.entry.traceID == run.entry.traceID
    && init.entry.activationID == run.entry.activationID
    && init.entry.executionPhase == run.entry.executionPhase
  }

  /**
   Over any history, whatever is pushed is a /run, or is an /init directly followed by the /run of
   its own invocation.
   */
  lemma InitDirectlyPrecedesItsRun(limit: int, history: seq<Record>, k: nat)
    requires k < |RecordAll(limit, history).pushes|
    ensures var pushes := RecordAll(limit, history).pushes;
            pushes[k].IsRun() || (k + 1 < |pushes| && SameInvocation(pushes[k], pushes[k + 1]))
  {
    PushesOfHistory(limit, history);
    InitPrecedesUpTo(history, |history|, k);
  }

  lemma {:induction false} InitPrecedesUpTo(history: seq<Record>, n: nat, k: nat)
    requires n <= |history| && k < |PushedUpTo(history, n)|
    ensures var pushes := PushedUpTo(history, n);
            pushes[k].IsRun() || (k + 1 < |pushes| && SameInvocation(pushes[k], pushes[k + 1]))
  {
    if n > 0 {
      var before := PushedUpTo(history, n - 1);
      if k < |before| {
        InitPrecedesUpTo(history, n - 1, k);
      }
    }
  }

  /** Two records of one measurement: what was measured is the same, field by field. */
  predicate SameMeasurement(a: Entry, b: Entry) {
    a.start == b.start && a.end == b.end && a.attributedUJ == b.attributedUJ && a.detail == b.detail && a.lifecycle == b.lifecycle
  }

  /** The push at `k` is the measurement recorded directly before the /run pushed next. */
  predicate HeldBackFor(history: seq<Record>, pushes: seq<Record>, k: nat, i: nat)
    requires k + 1 < |pushes| && i + 1 < |history|
  {
    && !history[i].IsRun()
    && pushes[k].endpoint == "/init"
    && SameMeasurement(pushes[k].entry, history[i].entry)
    && pushes[k + 1] == history[i + 1]
  }

  /**
   Over any history, an /init that reaches the collector keeps its own measurement - when it began
   and ended, its energy, its breakdown - whatever the /run it is tagged like measured.
   */
  lemma InitKeepsItsMeasurement(limit: int, history: seq<Record>, k: nat) returns (i: nat)
    requires k < |RecordAll(limit, history).pushes| && !RecordAll(limit, history).pushes[k].IsRun()
    ensures i + 1 < |history| && k + 1 < |RecordAll(limit, history).pushes|
    ensures HeldBackFor(history, RecordAll(limit, history).pushes, k, i)
  {
    PushesOfHistory(limit, history);
    i := HeldBackUpTo(history, |history|, k);
  }

  lemma {:induction false} HeldBackUpTo(history: seq<Record>, n: nat, k: nat) returns (i: nat)
    requires n <= |history| && k < |PushedUpTo(history, n)| && !PushedUpTo(history, n)[k].IsRun()
    ensures i + 1 < |history| && k + 1 < |PushedUpTo(history, n)|
    ensures HeldBackFor(history, PushedUpTo(history, n), k, i)
  {
    var before := PushedUpTo(history, n - 1);
    if k < |before| {
      i := HeldBackUpTo(history, n - 1, k);
    } else {
      i := n - 2;
    }
  }

  /** Each endpoint keeps the end of its accepted history, entry by entry, at most `limit` of them. */
  lemma StoredIsTheEnd(limit: int, history: seq<Record>, endpoint: string)
    ensures var all, kept := Accepted(history, endpoint), StoredFor(RecordAll(limit, history), endpoint);
            && |kept| == (if 0 < limit < |all| then limit else |all|)
            && forall i :: 0 <= i < |kept| ==> kept[i] == all[|all| - |kept| + i]
  {
    StoredOfHistory(limit, history, endpoint);
    NewestIsTheEnd(Accepted(history, endpoint), limit);
    hide Newest, Accepted, RecordAll, StoredFor;
  }

  lemma NewestIsTheEnd<T>(s: seq<T>, limit: int)
    ensures |Newest(s, limit)| == if 0 < limit < |s| then limit else |s|
    ensures forall i :: 0 <= i < |Newest(s, limit)| ==> Newest(s, limit)[i] == s[|s| - |Newest(s, limit)| + i]
  {}

  /** An entry is accepted, as the last one of its endpoint, unless it neither started nor ended. */
  lemma AcceptedUnlessBlank(history: seq<Record>, r: Record, endpoint: string)
    ensures Accepted(history + [r], endpoint)
         == if endpoint == r.endpoint && !(r.entry.start == 0 && r.entry.end == 0) then Accepted(history, endpoint) + [r.entry]
            else Accepted(history, endpoint)
  {
    assert (history + [r])[..|history|] == history;
  }

  // ----------------------------------------------------------------------------- the source's objects

  class Metrics {
    var data: map<string, seq<Entry>>
    const limit: int

    constructor (limit: int)
      ensures data == map[] && this.limit == limit
    {
      data := map[];
      this.limit := limit;
    }

    method Add(endpoint: string, entry: Entry)
      modifies this
      ensures data == AddEntry(old(data), limit, endpoint, entry)
    {
      if entry.start == 0 && entry.end == 0 {
        return;
      }
      var s := if endpoint in data then data[endpoint] else [];
      s := s + [entry];
      if limit > 0 && |s| > limit {
        s := s[|s| - limit..];
      }
      data := data[endpoint := s];
    }

    method Snapshot() returns (out: map<string, seq<Entry>>)
      ensures out == data
    {
      out := map[];
      var keys := data.Keys;
      while keys != {}
        invariant keys <= data.Keys && out.Keys == data.Keys - keys
        invariant forall k :: k in out ==> out[k] == data[k]
        decreases |keys|
      {
        var k :| k in keys;
        out := out[k := data[k]];
        keys := keys - {k};
      }
    }
  }

  class Recorder {
    const metrics: Metrics
    var pendingInitEntry: Option<Entry>
    var pushes: seq<Record>

    constructor (limit: int)
      ensures fresh(metrics) && metrics.limit == limit && Value() == EMPTY
    {
      metrics := new Metrics(limit);
      pendingInitEntry, pushes := None, [];
    }

    function Value(): Ledger
      reads this, metrics
    {
      Ledger(pendingInitEntry, pushes, metrics.data)
    }

    method RecordCall(endpoint: string, entry: Entry)
      modifies this, metrics
      ensures Value() == RecordMetrics(old(Value()), metrics.limit, Record(endpoint, entry))
    {
      metrics.Add(endpoint, entry);
      if endpoint == "/run" {
        if pendingInitEntry.Some? {
          var pending := pendingInitEntry.value.TaggedLike(entry);
          pendingInitEntry := None;
          pushes := pushes + [Record("/init", pending)];
        }
        pushes := pushes + [Record("/run", entry)];
      } else {
        pendingInitEntry := Some(entry);
      }
    }
  }
}
