/**
 The channel to the scheduler (openwhisk/schedulerChannel.go): the background resolution of its
 address with capped backoff, the delivery of EXECUTION_KILLED with bounded retries, and the one
 cached address shared by the dials and the background resolver.

 Sleeping is modelled by the list of the waits. Name lookups and HTTP outcomes are parameters.
 */
module SchedulerChannel {
  import opened Numbers
  import opened Options

  function Pow2(n: nat): (p: int)
    ensures p >= 1
  {
    if n == 0 then 1 else 2 * Pow2(n - 1)
  }

  // ------------------------------------------------------------------------ background resolution

  /** The wait after the (i + 1)-th failed attempt. */
  function Backoff(base: int, max: int, i: nat): int {
    if i == 0 then base else Min(2 * Backoff(base, max, i - 1), max)
  }

  lemma BackoffStep(base: int, max: int, i: nat)
    ensures Backoff(base, max, 0) == base
    ensures Backoff(base, max, i + 1) == Min(2 * Backoff(base, max, i), max)
  {}

  /** The waits double up to the cap; the first one is never capped. */
  lemma {:induction false} BackoffIsCappedDoubling(base: int, max: int, i: nat)
    requires base > 0 && max > 0
    ensures Backoff(base, max, i) == if i == 0 then base else Min(Doubling(base, i), max)
    ensures base <= max ==> Backoff(base, max, i) == Min(Doubling(base, i), max)
  {
    DoublingDoubles(base, i);
    hide Doubling;
    if i > 0 {
      BackoffIsCappedDoubling(base, max, i - 1);
    }
  }

  /** `base` times two to the `i`. */
  function Doubling(base: int, i: nat): int {
    base * Pow2(i)
  }

  lemma DoublingDoubles(base: int, i: nat)
    requires base > 0
    ensures Doubling(base, 0) == base
    ensures i > 0 ==> Doubling(base, i) == 2 * Doubling(base, i - 1) && Doubling(base, i - 1) > 0
  {
    assert Pow2(0) == 1;
    if i > 0 {
      var p := Pow2(i - 1);
      assert base * (2 * p) == 2 * (base * p);
      assert base * p > 0;
    }
  }

  /** The waits made all respect the cap exactly when the base does, or when there was no wait at all. */
  lemma WaitsCappedExactlyWhen(base: int, max: int, waits: seq<int>)
    requires base > 0 && max > 0
    requires forall i :: 0 <= i < |waits| ==> waits[i] == Backoff(base, max, i)
    ensures (forall i :: 0 <= i < |waits| ==> waits[i] <= max) <==> base <= max || waits == []
  {
    if waits != [] {
      assert waits[0] == base;
    }
  }

  /** The first successful lookup among the attempts allowed, or how many were allowed. */
  function FirstResolved(lookups: seq<Option<string>>): (k: nat)
    ensures k <= |lookups|
    ensures k < |lookups| ==> lookups[k].Some?
    ensures forall i :: 0 <= i < k ==> lookups[i].None?
  {
    if lookups == [] || lookups[0].Some? then 0 else 1 + FirstResolved(lookups[1..])
  }

  /**
   The resolver's loop. It stops at the first success or after the allowed attempts, waits
   `Backoff(i)` between two attempts and never after the last.
   */
  method ResolveInBackground(lookups: seq<Option<string>>, maxAttempts: nat, base: int, max: int)
    returns (ip: Option<string>, attempts: nat, waits: seq<int>)
    requires maxAttempts > 0 && |lookups| == maxAttempts && base > 0 && max > 0
    ensures var k := FirstResolved(lookups);
            && ip == (if k < maxAttempts then lookups[k] else None)
            && attempts == Min(k + 1, maxAttempts)
    ensures |waits| == attempts - 1
    ensures forall i :: 0 <= i < |waits| ==> waits[i] == Backoff(base, max, i)
    ensures (forall i :: 0 <= i < |waits| ==> waits[i] <= max) <==> base <= max || attempts == 1
  {
    hide Backoff;
    BackoffStep(base, max, 0);
    var backoff := base;
    attempts, waits := 0, [];
    while attempts < maxAttempts
      invariant 0 <= attempts <= maxAttempts
      invariant attempts < maxAttempts ==> |waits| == attempts && backoff == Backoff(base, max, attempts)
      invariant attempts == maxAttempts ==> |waits| == attempts - 1
      invariant forall i :: 0 <= i < attempts ==> lookups[i].None?
      invariant forall i :: 0 <= i < |waits| ==> waits[i] == Backoff(base, max, i)
    {
      attempts := attempts + 1;
      if lookups[attempts - 1].Some? {
        assert FirstResolved(lookups) == attempts - 1;
        WaitsCappedExactlyWhen(base, max, waits);
        return lookups[attempts - 1], attempts, waits;
      }
      if attempts == maxAttempts {
        break;
      }
      BackoffStep(base, max, attempts - 1);
      waits := waits + [backoff];
      backoff := backoff * 2;
      if backoff > max {
        backoff := max;
      }
    }
    assert FirstResolved(lookups) == maxAttempts;
    WaitsCappedExactlyWhen(base, max, waits);
    ip := None;
  }

  // ------------------------------------------------------------------- delivery of EXECUTION_KILLED

  datatype Response = TransportError | Status(code: int)

  predicate Accepted(r: Response) {
    r.Status? && 200 <= r.code < 300
  }

  /** A 4xx is a refusal of this very payload: retrying cannot change it. */
  predicate Refused(r: Response) {
    r.Status? && 400 <= r.code < 500
  }

  /** The first answer that settles the delivery, or how many attempts were allowed. */
  function FirstSettled(responses: seq<Response>): (k: nat)
    ensures k <= |responses|
    ensures k < |responses| ==> Accepted(responses[k]) || Refused(responses[k])
    ensures forall i :: 0 <= i < k ==> !Accepted(responses[i]) && !Refused(responses[i])
  {
    if responses == [] || Accepted(responses[0]) || Refused(responses[0]) then 0 else 1 + FirstSettled(responses[1..])
  }

  lemma {:induction false} DoublingSum(base: int, waits: seq<int>)
    requires forall i :: 0 <= i < |waits| ==> waits[i] == Doubling(base, i)
    ensures SumOf(waits) == base * (Pow2(|waits|) - 1)
  {
    if waits == [] {
      assert Pow2(0) == 1;
    } else {
      var n := |waits| - 1;
      DoublingSum(base, waits[..n]);
      SumOfSnoc(waits[..n], waits[n]);
      assert waits == waits[..n] + [waits[n]];
      var p := Pow2(n);
      assert base * (2 * p - 1) == base * (p - 1) + base * p;
    }
  }

  /**
   Delivers the event: stops at the first success or refusal, gives up after the allowed
   attempts, and raises the undelivered incident exactly when it was not delivered. That incident
   always reports the allowed number of attempts, also when a refusal ended them earlier.
   */
  method PostExecutionKilled(responses: seq<Response>, maxAttempts: nat, base: int)
    returns (delivered: bool, attempts: nat, waits: seq<int>, reportedAttempts: Option<nat>)
    requires maxAttempts > 0 && |responses| == maxAttempts && base > 0
    ensures var k := FirstSettled(responses);
            && delivered == (k < maxAttempts && Accepted(responses[k]))
            && attempts == Min(k + 1, maxAttempts)
    ensures reportedAttempts == if delivered then None else Some(maxAttempts)
    ensures |waits| == attempts - 1
    ensures SumOf(waits) == base * (Pow2(attempts - 1) - 1)
    ensures forall i :: 0 <= i < attempts - 1 ==>
              responses[i].TransportError? || responses[i].code < 200 || 300 <= responses[i].code < 400 || responses[i].code >= 500
    ensures delivered ==> responses[attempts - 1].Status? && 200 <= responses[attempts - 1].code <= 299
    ensures !delivered && attempts < maxAttempts ==> responses[attempts - 1].Status? && 400 <= responses[attempts - 1].code <= 499
    ensures !delivered ==> responses[attempts - 1].TransportError? || responses[attempts - 1].code < 200 || responses[attempts - 1].code >= 300
  {
    hide Doubling, Pow2, SumOf, FirstSettled;
    attempts, waits := 0, [];
    while attempts < maxAttempts
      invariant 0 <= attempts <= maxAttempts
      invariant |waits| == if attempts == 0 then 0 else attempts - 1
      invariant forall i :: 0 <= i < |waits| ==> waits[i] == Doubling(base, i)
      invariant forall i :: 0 <= i < attempts ==> !Accepted(responses[i]) && !Refused(responses[i])
    {
      if attempts > 0 {
        waits := waits + [Doubling(base, attempts - 1)];
      }
      var r := responses[attempts];
      attempts := attempts + 1;
      if r.TransportError? {
        continue;
      }
      if r.code >= 200 && r.code < 300 {
        assert FirstSettled(responses) == attempts - 1;
        DoublingSum(base, waits);
        return true, attempts, waits, None;
      }
      if r.code >= 400 && r.code < 500 {
        assert FirstSettled(responses) == attempts - 1;
        DoublingSum(base, waits);
        return false, attempts, waits, Some(maxAttempts);
      }
    }
    assert FirstSettled(responses) == maxAttempts;
    DoublingSum(base, waits);
    return false, attempts, waits, Some(maxAttempts);
  }

  // ----------------------------------------------------------------------------- the cached address

  /** The target kept for one "name:port", and whether a background resolution is under way. */
  datatype Address = Address(hostport: string, ipport: string, resolving: bool) {
    function Get(name: string): string {
      if hostport == name then ipport else ""
    }

    function Set(name: string, target: string): Address {
      this.(hostport := name, ipport := target)
    }

    function Forget(name: string): Address {
      if hostport == name then this.(ipport := "") else this
    }
  }

  const UNKNOWN_ADDRESS := Address("", "", false)

  /**
   A dial in progress: the address asked for, and the one aimed at. `forgotten` marks a dial that
   failed at a kept address and has forgotten it, but not yet asked for a new resolution.
   */
  datatype Dial = Dial(addr: string, target: string, cached: bool, forgotten: bool)

  /** A background resolver; `done` once a lookup succeeded. */
  datatype Resolver = Resolver(hostport: string, attempts: nat, done: bool)

  /**
   The cache, every background resolver and every dial alive. `resolved` is the history of what
   names were resolved to, by anyone.
   */
  datatype Channel = Channel(
    cache: Address,
    resolvers: seq<Resolver>,
    dials: seq<Dial>,
    resolved: set<(string, string)>)

  const COLD := Channel(UNKNOWN_ADDRESS, [], [], {})

  datatype Move =
    | ResolveAsync(hostport: string, isName: bool)
    | AttemptFails(resolver: nat)
    | AttemptSucceeds(resolver: nat, ipport: string)
    | ResolverStops(resolver: nat)
    | DialCached(addr: string)
    | DialResolving(addr: string, ipport: string)    // the name is resolved in place
    | DialLiteral(addr: string)                      // the address needs no resolution
    | DialConnects(dial: nat)
    | DialFails(dial: nat)
    | DialRestarts(dial: nat)                        // a failed dial asks for a new resolution

  predicate Possible(c: Channel, maxAttempts: nat, m: Move) {
    match m
    case ResolveAsync(_, _) => true
    case AttemptFails(r) => r < |c.resolvers| && !c.resolvers[r].done && c.resolvers[r].attempts < maxAttempts
    case AttemptSucceeds(r, ipport) =>
      r < |c.resolvers| && !c.resolvers[r].done && c.resolvers[r].attempts < maxAttempts && ipport != ""
    case ResolverStops(r) => r < |c.resolvers| && (c.resolvers[r].done || c.resolvers[r].attempts == maxAttempts)
    case DialCached(addr) => c.cache.Get(addr) != ""
    case DialResolving(addr, ipport) => c.cache.Get(addr) == "" && ipport != ""
    case DialLiteral(addr) => c.cache.Get(addr) == ""
    case DialConnects(d) => d < |c.dials| && !c.dials[d].forgotten
    case DialFails(d) => d < |c.dials| && !c.dials[d].forgotten
    case DialRestarts(d) => d < |c.dials| && c.dials[d].forgotten
  }

  function Without<T>(s: seq<T>, i: nat): seq<T>
    requires i < |s|
  {
    s[..i] + s[i + 1..]
  }

  /** Checking and setting the flag is one step, under the cache's lock. */
  function StartResolving(c: Channel, hostport: string): Channel {
    if c.cache.resolving then c
    else c.(cache := c.cache.(resolving := true), resolvers := c.resolvers + [Resolver(hostport, 0, false)])
  }

  function Take(c: Channel, maxAttempts: nat, m: Move): Channel
    requires Possible(c, maxAttempts, m)
  {
    match m
    case ResolveAsync(hostport, isName) => if isName then StartResolving(c, hostport) else c
    case AttemptFails(r) => c.(resolvers := c.resolvers[r := c.resolvers[r].(attempts := c.resolvers[r].attempts + 1)])
    case AttemptSucceeds(r, ipport) =>
      var name := c.resolvers[r].hostport;
      c.(cache := c.cache.Set(name, ipport), resolved := c.resolved + {(name, ipport)},
         resolvers := c.resolvers[r := Resolver(name, c.resolvers[r].attempts + 1, true)])
    case ResolverStops(r) => c.(cache := c.cache.(resolving := false), resolvers := Without(c.resolvers, r))
    case DialCached(addr) => c.(dials := c.dials + [Dial(addr, c.cache.ipport, true, false)])
    case DialResolving(addr, ipport) =>
      c.(dials := c.dials + [Dial(addr, ipport, false, false)], resolved := c.resolved + {(addr, ipport)})
    case DialLiteral(addr) => c.(dials := c.dials + [Dial(addr, addr, false, false)])
    case DialConnects(d) =>
      var dial := c.dials[d];
      var rest := c.(dials := Without(c.dials, d));
      if !dial.cached && dial.target != dial.addr then rest.(cache := rest.cache.Set(dial.addr, dial.target)) else rest
    case DialFails(d) =>
      var dial := c.dials[d];
      if dial.cached then c.(cache := c.cache.Forget(dial.addr), dials := c.dials[d := dial.(forgotten := true)])
      else c.(dials := Without(c.dials, d))
    case DialRestarts(d) => StartResolving(c.(dials := Without(c.dials, d)), c.dials[d].addr)
  }

  function TakeAll(c: Channel, maxAttempts: nat, moves: seq<Move>): Option<Channel>
    decreases |moves|
  {
    if moves == [] then Some(c)
    else if Possible(c, maxAttempts, moves[0]) then TakeAll(Take(c, maxAttempts, moves[0]), maxAttempts, moves[1..])
    else None
  }

  predicate Trusted(c: Channel, maxAttempts: nat) {
    && |c.resolvers| == (if c.cache.resolving then 1 else 0)
    && (forall i :: 0 <= i < |c.resolvers| ==> c.resolvers[i].attempts <= maxAttempts)
    && (c.cache.ipport != "" ==> (c.cache.hostport, c.cache.ipport) in c.resolved)
    && (forall i :: 0 <= i < |c.dials| ==> Known(c, c.dials[i]))
  }

  /** A dial aims at the address itself, or at what that very name was resolved to. */
  predicate Known(c: Channel, d: Dial) {
    (!d.cached && d.target == d.addr) || (d.addr, d.target) in c.resolved
  }

  lemma MoveKeepsTrusted(c: Channel, maxAttempts: nat, m: Move)
    requires Trusted(c, maxAttempts) && Possible(c, maxAttempts, m)
    ensures Trusted(Take(c, maxAttempts, m), maxAttempts)
  {
    var c' := Take(c, maxAttempts, m);
    forall i | 0 <= i < |c'.dials|
      ensures Known(c', c'.dials[i])
    {
      assert c'.dials[i] in c.dials ==> Known(c, c'.dials[i]);
    }
  }

  lemma {:induction false} MovesKeepTrusted(c: Channel, maxAttempts: nat, moves: seq<Move>)
    requires Trusted(c, maxAttempts) && TakeAll(c, maxAttempts, moves).Some?
    ensures Trusted(TakeAll(c, maxAttempts, moves).value, maxAttempts)
    decreases |moves|
  {
    hide Take, Possible, Trusted;
    if moves != [] {
      MoveKeepsTrusted(c, maxAttempts, moves[0]);
      MovesKeepTrusted(Take(c, maxAttempts, moves[0]), maxAttempts, moves[1..]);
    }
  }

  /**
   Under any interleaving of dials, failures and background resolution: at most one resolver is
   alive, it makes at most the allowed attempts, and an address found in the cache for a name
   was obtained by resolving that very name.
   */
  lemma CacheIsTrustworthy(maxAttempts: nat, moves: seq<Move>)
    requires TakeAll(COLD, maxAttempts, moves).Some?
    ensures var c := TakeAll(COLD, maxAttempts, moves).value;
            && |c.resolvers| <= 1
            && (forall i :: 0 <= i < |c.resolvers| ==> c.resolvers[i].attempts <= maxAttempts)
            && forall name :: c.cache.Get(name) != "" ==> (name, c.cache.Get(name)) in c.resolved
  {
    hide TakeAll;
    MovesKeepTrusted(COLD, maxAttempts, moves);
  }

  // --------------------------------------------------------------------------- the source's object

  /** What one dial, run without interference, makes of the cache. */
  function AfterDial(a: Address, addr: string, isName: bool, resolved: Option<string>, connects: bool): Address {
    if a.Get(addr) != "" then
      if connects then a
      else if isName then a.Forget(addr).(resolving := true)
      else a.Forget(addr)
    else if isName && resolved.Some? && connects && resolved.value != addr then
      a.Set(addr, resolved.value)
    else
      a
  }

  /** How a dial run on its own moves the channel: it aims, concludes, and may ask for a resolution. */
  function DialMoves(c: Channel, addr: string, isName: bool, resolved: Option<string>, connects: bool): seq<Move>
    requires c.cache.Get(addr) == "" && isName ==> resolved.Some?
  {
    var d := |c.dials|;
    if c.cache.Get(addr) != "" then
      if connects then [DialCached(addr), DialConnects(d)] else [DialCached(addr), DialFails(d), DialRestarts(d)]
    else
      [if isName then DialResolving(addr, resolved.value) else DialLiteral(addr),
       if connects then DialConnects(d) else DialFails(d)]
  }

  /** A dial run on its own is one run of the channel, so what holds of every run holds of it. */
  lemma DialIsChannelRun(c: Channel, maxAttempts: nat, addr: string, isName: bool, resolved: Option<string>, connects: bool)
    requires isName ==> resolved.None? || resolved.value != ""
    requires c.cache.Get(addr) == "" && isName ==> resolved.Some?
    requires c.cache.Get(addr) != "" ==> isName
    ensures var after := TakeAll(c, maxAttempts, DialMoves(c, addr, isName, resolved, connects));
            && after.Some?
            && after.value.cache == AfterDial(c.cache, addr, isName, resolved, connects)
            && after.value.dials == c.dials
  {
    var moves := DialMoves(c, addr, isName, resolved, connects);
    var c1 := Take(c, maxAttempts, moves[0]);
    var c2 := Take(c1, maxAttempts, moves[1]);
    assert c1.dials[..|c.dials|] == c.dials;
    assert moves[1..][0] == moves[1];
    if |moves| == 3 {
      var c3 := Take(c2, maxAttempts, moves[2]);
      assert moves[1..][1..] == [moves[2]] && [moves[2]][1..] == [];
      assert TakeAll(c2, maxAttempts, [moves[2]]) == TakeAll(c3, maxAttempts, []) == Some(c3);
      assert Without(c2.dials, |c.dials|) == c.dials;
    } else {
      assert moves[1..][1..] == [];
      assert TakeAll(c1, maxAttempts, moves[1..]) == TakeAll(c2, maxAttempts, []) == Some(c2);
      assert Without(c1.dials, |c.dials|) == c.dials;
    }
  }

  /**
   What a dial that fails at a kept address leaves behind, wherever it is interleaved: that address
   is forgotten for good until resolved again, no other name's is touched, and a resolution of that
   very name is then under way unless another one was.
   */
  lemma FailedKeptAddressIsGone(c: Channel, maxAttempts: nat, d: nat, name: string)
    requires d < |c.dials| && c.dials[d].cached && !c.dials[d].forgotten
    ensures var addr := c.dials[d].addr;
            var failed := Take(c, maxAttempts, DialFails(d));
            && failed.cache.Get(addr) == ""
            && (name != addr ==> failed.cache.Get(name) == c.cache.Get(name))
            && Possible(failed, maxAttempts, DialRestarts(d))
            && var restarted := Take(failed, maxAttempts, DialRestarts(d));
            && restarted.cache.Get(name) == failed.cache.Get(name)
            && restarted.cache.resolving
            && (!c.cache.resolving ==> restarted.resolvers == c.resolvers + [Resolver(addr, 0, false)])
  {}

  /** A dial that connects after resolving a name keeps the target for that name; others never change the cache. */
  lemma ConnectedDialIsKept(c: Channel, maxAttempts: nat, d: nat)
    requires d < |c.dials| && !c.dials[d].forgotten
    ensures var dial, after := c.dials[d], Take(c, maxAttempts, DialConnects(d)).cache;
            if dial.cached || dial.target == dial.addr then after == c.cache
            else after.Get(dial.addr) == dial.target && after.resolving == c.cache.resolving
  {}

  class AddrCache {
    var hostport: string
    var ipport: string
    var resolving: bool

    constructor ()
      ensures Value() == UNKNOWN_ADDRESS
    {
      hostport, ipport, resolving := "", "", false;
    }

    function Value(): Address
      reads this
    {
      Address(hostport, ipport, resolving)
    }

    method Get(name: string) returns (target: string)
      ensures target == Value().Get(name)
    {
      if hostport == name {
        return ipport;
      }
      return "";
    }

    method Set(name: string, target: string)
      modifies this
      ensures Value() == old(Value()).Set(name, target)
    {
      hostport, ipport := name, target;
    }

    method Forget(name: string)
      modifies this
      ensures Value() == old(Value()).Forget(name)
    {
      if hostport == name {
        ipport := "";
      }
    }

    /** Starts a background resolver unless one is running or nothing is to be resolved. */
    method StartResolving(isName: bool) returns (started: bool)
      modifies this
      ensures started <==> isName && !old(resolving)
      ensures Value() == old(Value()).(resolving := old(resolving) || isName)
    {
      if !isName || resolving {
        return false;
      }
      resolving := true;
      return true;
    }

    /** The background resolver itself: it leaves the flag down however it ends. */
    method RunResolver(name: string, lookups: seq<Option<string>>, maxAttempts: nat, base: int, max: int)
      returns (attempts: nat, waits: seq<int>)
      requires maxAttempts > 0 && |lookups| == maxAttempts && base > 0 && max > 0
      modifies this
      ensures var k := FirstResolved(lookups);
              && Value() == (if k < maxAttempts then old(Value()).Set(name, lookups[k].value) else old(Value())).(resolving := false)
              && attempts == Min(k + 1, maxAttempts)
      ensures |waits| == attempts - 1
      ensures forall i :: 0 <= i < |waits| ==> waits[i] == Backoff(base, max, i)
    {
      var ip;
      ip, attempts, waits := ResolveInBackground(lookups, maxAttempts, base, max);
      if ip.Some? {
        Set(name, ip.value);
      }
      resolving := false;
    }

    /**
     Resolves in place by attempts chained without waiting: it stops at the first success, when
     the caller's time is over, or after the allowed attempts.
     */
    static method ResolveInPlace(lookups: seq<Option<string>>, expired: seq<bool>, maxAttempts: nat)
      returns (ip: Option<string>, attempts: nat)
      requires maxAttempts > 0 && |lookups| == |expired| == maxAttempts
      ensures 0 < attempts <= maxAttempts && ip == lookups[attempts - 1]
      ensures forall i :: 0 <= i < attempts - 1 ==> lookups[i].None? && !expired[i]
      ensures attempts < maxAttempts ==> ip.Some? || expired[attempts - 1]
    {
      attempts := 1;
      ip := lookups[0];
      while !(ip.Some? || expired[attempts - 1] || attempts >= maxAttempts)
        invariant 0 < attempts <= maxAttempts && ip == lookups[attempts - 1]
        invariant forall i :: 0 <= i < attempts - 1 ==> lookups[i].None? && !expired[i]
        decreases maxAttempts - attempts
      {
        attempts := attempts + 1;
        ip := lookups[attempts - 1];
      }
    }

    /** Opens a connection: at the kept address if there is one, else resolving on the spot. */
    method DialContext(addr: string, isName: bool, lookups: seq<Option<string>>, expired: seq<bool>, maxAttempts: nat, connects: bool)
      returns (target: Option<string>, connected: bool, started: bool)
      requires maxAttempts > 0 && |lookups| == |expired| == maxAttempts
      modifies this
      ensures old(Value().Get(addr)) != "" ==> target == Some(old(Value().Get(addr)))
      ensures old(Value().Get(addr)) == "" && !isName ==> target == Some(addr)
      ensures old(Value().Get(addr)) == "" && isName && target.Some? ==> target in lookups
      ensures connected <==> target.Some? && connects
      ensures started <==> old(Value().Get(addr)) != "" && !connects && isName && !old(resolving)
      ensures Value() == AfterDial(old(Value()), addr, isName, target, connects)
    {
      var kept := Get(addr);
      started := false;
      if kept != "" {
        if !connects {
          Forget(addr);
          started := StartResolving(isName);
        }
        return Some(kept), connects, started;
      }
      target := Some(addr);
      if isName {
        var ip, _ := ResolveInPlace(lookups, expired, maxAttempts);
        if ip.None? {
          return None, false, false;
        }
        target := ip;
      }
      connected := connects;
      if connects && target.value != addr {
        Set(addr, target.value);
      }
    }
  }
}
