/**
 How the death of the child process reaches everyone who waits for it (openwhisk/executor.go): a
 channel without buffer, with one goroutine that signals on it and any number of receivers.

 The executor closes the channel. Sending one value on it instead is modelled beside it: the two
 differ only in what a reception leaves behind.
 */
module ExitBroadcast {
  import opened Options

  datatype Signal = SendOnce | Close

  /** `Blocked` is the sender with its value on offer; it is gone once the value is taken. */
  datatype Channel = Quiet | Offered | Taken | Closed

  /** `waiting` are the blocked receivers, `released` those that went on. */
  datatype State = State(channel: Channel, waiting: set<nat>, released: set<nat>)

  const START := State(Quiet, {}, {})

  datatype Action =
    | Waits(receiver: nat)      // Interact or the start-up blocks on the channel
    | ChildDies
    | Receives(receiver: nat)   // a blocked receiver goes on
    | Polls                     // Exited(): a reception that never blocks

  predicate CanReceive(s: State) {
    s.channel == Offered || s.channel == Closed
  }

  predicate Enabled(s: State, a: Action) {
    match a
    case Waits(r) => r !in s.waiting && r !in s.released
    case ChildDies => s.channel == Quiet
    case Receives(r) => r in s.waiting && CanReceive(s)
    case Polls => true
  }

  /** A reception uses up an offered value, and leaves a closed channel as it is. */
  function AfterReception(c: Channel): Channel {
    if c == Offered then Taken else c
  }

  function Step(signal: Signal, s: State, a: Action): State
    requires Enabled(s, a)
  {
    match a
    case Waits(r) => s.(waiting := s.waiting + {r})
    case ChildDies => s.(channel := if signal == Close then Closed else Offered)
    case Receives(r) => State(AfterReception(s.channel), s.waiting - {r}, s.released + {r})
    case Polls => s.(channel := AfterReception(s.channel))
  }

  function After(signal: Signal, s: State, actions: seq<Action>): Option<State>
    decreases |actions|
  {
    if actions == [] then Some(s)
    else if Enabled(s, actions[0]) then After(signal, Step(signal, s, actions[0]), actions[1..])
    else None
  }

  function Receptions(rs: seq<nat>): seq<Action> {
    if rs == [] then [] else [Receives(rs[0])] + Receptions(rs[1..])
  }

  predicate Distinct(rs: seq<nat>) {
    forall i, j :: 0 <= i < j < |rs| ==> rs[i] != rs[j]
  }

  lemma {:induction false} ClosedReleasesAll(s: State, rs: seq<nat>)
    requires s.channel == Closed && Distinct(rs) && forall i :: 0 <= i < |rs| ==> rs[i] in s.waiting
    ensures After(Close, s, Receptions(rs)).Some?
    ensures forall i :: 0 <= i < |rs| ==> rs[i] in After(Close, s, Receptions(rs)).value.released
    ensures s.released <= After(Close, s, Receptions(rs)).value.released
    decreases |rs|
  {
    if rs != [] {
      var s' := Step(Close, s, Receives(rs[0]));
      assert Receptions(rs)[0] == Receives(rs[0]) && Receptions(rs)[1..] == Receptions(rs[1..]);
      forall i | 0 <= i < |rs[1..]|
        ensures rs[1..][i] in s'.waiting
      {
        assert rs[1..][i] == rs[i + 1];
      }
      ClosedReleasesAll(s', rs[1..]);
      assert rs[0] in s'.released;
      forall i | 0 <= i < |rs|
        ensures rs[i] in After(Close, s, Receptions(rs)).value.released
      {
        assert i > 0 ==> rs[i] == rs[1..][i - 1];
      }
    }
  }

  predicate NoOffer(s: State) {
    s.channel == Quiet || s.channel == Closed
  }

  lemma {:induction false} CloseNeverOffers(s: State, actions: seq<Action>)
    requires NoOffer(s) && After(Close, s, actions).Some?
    ensures NoOffer(After(Close, s, actions).value)
    ensures s.channel == Closed || ChildDies in actions ==> After(Close, s, actions).value.channel == Closed
    decreases |actions|
  {
    if actions != [] {
      CloseNeverOffers(Step(Close, s, actions[0]), actions[1..]);
      assert ChildDies in actions ==> actions[0] == ChildDies || ChildDies in actions[1..];
    }
  }

  /**
   Closing is a broadcast: whatever receivers waited, polled or received before, once the child is
   dead all those still waiting can be released, in any order.
   */
  lemma CloseReleasesEveryone(actions: seq<Action>, rs: seq<nat>)
    requires After(Close, START, actions).Some? && ChildDies in actions
    requires Distinct(rs) && forall i :: 0 <= i < |rs| ==> rs[i] in After(Close, START, actions).value.waiting
    ensures var s := After(Close, START, actions).value;
            && After(Close, s, Receptions(rs)).Some?
            && forall i :: 0 <= i < |rs| ==> rs[i] in After(Close, s, Receptions(rs)).value.released
  {
    CloseNeverOffers(START, actions);
    ClosedReleasesAll(After(Close, START, actions).value, rs);
  }

  /** What one send can still do for those who wait. */
  predicate OneRelease(s: State) {
    && s.channel != Closed
    && (s.channel == Quiet || s.channel == Offered ==> s.released == {})
    && (s.channel == Taken ==> |s.released| <= 1)
  }

  lemma {:induction false} SendKeepsOneRelease(s: State, actions: seq<Action>)
    requires OneRelease(s) && After(SendOnce, s, actions).Some?
    ensures OneRelease(After(SendOnce, s, actions).value)
    ensures s.channel == Taken ==> After(SendOnce, s, actions).value.channel == Taken
                                   && After(SendOnce, s, actions).value.released == s.released
    decreases |actions|
  {
    if actions != [] {
      SendKeepsOneRelease(Step(SendOnce, s, actions[0]), actions[1..]);
    }
  }

  /**
   Sending one value instead releases at most one receiver, ever; and when a poll or another
   receiver took it, those still waiting wait for good.
   */
  lemma SendReleasesAtMostOne(actions: seq<Action>, more: seq<Action>)
    requires After(SendOnce, START, actions).Some?
    requires After(SendOnce, After(SendOnce, START, actions).value, more).Some?
    ensures var s := After(SendOnce, START, actions).value;
            && |s.released| <= 1
            && (s.channel == Taken ==> After(SendOnce, s, more).value.released == s.released)
  {
    SendKeepsOneRelease(START, actions);
    SendKeepsOneRelease(After(SendOnce, START, actions).value, more);
  }

  /** Interact waits, the child dies, one poll of Exited() takes the value: nobody is released. */
  lemma PollStarvesInteract(more: seq<Action>)
    requires var starved := After(SendOnce, START, [Waits(0), ChildDies, Polls]);
             starved.Some? && After(SendOnce, starved.value, more).Some?
    ensures After(SendOnce, After(SendOnce, START, [Waits(0), ChildDies, Polls]).value, more).value.released == {}
  {
    var first, second, third := Waits(0), ChildDies, Polls;
    var actions := [first, second, third];
    assert actions[1..] == [second, third] && [second, third][1..] == [third] && [third][1..] == [];
    var s1 := Step(SendOnce, START, first);
    var s2 := Step(SendOnce, s1, second);
    var s3 := Step(SendOnce, s2, third);
    assert After(SendOnce, START, actions) == After(SendOnce, s1, [second, third])
        == After(SendOnce, s2, [third]) == After(SendOnce, s3, []) == Some(s3);
    SendKeepsOneRelease(s3, more);
  }
}
