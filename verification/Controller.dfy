/**
 The state machine around one activation's cgroup (openwhisk/cgroupFreezer.go): freeze, resume
 and kill, each backed by one kernel operation that can fail.

 The kernel's answers are parameters. `ops` is the history of kernel operations actually issued.
 */
module Controller {

  datatype RuntimeState = Running | Freezing | Frozen | Resuming | Killing | Stopped | Unknown

  datatype Kind = FreezeGroup | UnfreezeGroup | KillGroup

  datatype KernelOp = KernelOp(kind: Kind, pauseID: string, ok: bool)

  datatype Ctl = Ctl(state: RuntimeState, lastPauseID: string, ops: seq<KernelOp>) {
    function Issue(op: KernelOp, next: RuntimeState): Ctl {
      Ctl(if op.ok then next else Unknown,
          if op.ok then op.pauseID else lastPauseID,
          ops + [op])
    }
  }

  const STARTED := Ctl(Running, "", [])

  /** Outcome of one call: whether it reported an error, and the state it left. */
  datatype Reply = Reply(failed: bool, ctl: Ctl)

  function FreezeReply(c: Ctl, pauseID: string, kernelOk: bool): Reply {
    if c.state == Frozen && c.lastPauseID == pauseID then Reply(false, c)
    else if c.state != Running then Reply(true, c)
    else Reply(!kernelOk, c.Issue(KernelOp(FreezeGroup, pauseID, kernelOk), Frozen))
  }

  function ResumeReply(c: Ctl, pauseID: string, kernelOk: bool): Reply {
    if c.state == Running && c.lastPauseID == pauseID then Reply(false, c)
    else if c.state != Frozen || pauseID != c.lastPauseID then Reply(true, c)
    else Reply(!kernelOk, c.Issue(KernelOp(UnfreezeGroup, pauseID, kernelOk), Running))
  }

  function KillReply(c: Ctl, pauseID: string, kernelOk: bool): Reply {
    if c.state == Stopped then Reply(false, c)
    else if c.state != Running && c.state != Frozen then Reply(true, c)
    else Reply(!kernelOk, c.Issue(KernelOp(KillGroup, pauseID, kernelOk), Stopped))
  }

  datatype Call = Call(kind: Kind, pauseID: string, kernelOk: bool)

  function Apply(c: Ctl, call: Call): Reply {
    match call.kind
    case FreezeGroup => FreezeReply(c, call.pauseID, call.kernelOk)
    case UnfreezeGroup => ResumeReply(c, call.pauseID, call.kernelOk)
    case KillGroup => KillReply(c, call.pauseID, call.kernelOk)
  }

  function ApplyAll(c: Ctl, calls: seq<Call>): Ctl
    decreases |calls|
  {
    if calls == [] then c else ApplyAll(Apply(c, calls[0]).ctl, calls[1..])
  }

  // ------------------------------------------------------ the language of the kernel operations

  /**
   The prefixes of (freeze unfreeze)* [freeze] [kill] in which an unfreeze carries the pause id
   of its freeze and only the last operation may have failed.
   */
  predicate InLanguage(ops: seq<KernelOp>) {
    forall i :: 0 <= i < |ops| ==> Fits(ops, i)
  }

  predicate Fits(ops: seq<KernelOp>, i: nat)
    requires i < |ops|
  {
    && (ops[i].kind == FreezeGroup ==> i % 2 == 0)
    && (ops[i].kind == UnfreezeGroup ==> i % 2 == 1 && ops[i].pauseID == ops[i - 1].pauseID)
    && (ops[i].kind == KillGroup ==> i == |ops| - 1)
    && (!ops[i].ok ==> i == |ops| - 1)
  }

  /** The state that a history of kernel operations leaves visible. */
  function StateAfter(ops: seq<KernelOp>): RuntimeState {
    if ops == [] then Running
    else
      var last := ops[|ops| - 1];
      if !last.ok then Unknown
      else match last.kind
           case FreezeGroup => Frozen
           case UnfreezeGroup => Running
           case KillGroup => Stopped
  }

  /** The invariant every call keeps: the history is in the language and explains the state. */
  predicate Explained(c: Ctl) {
    && InLanguage(c.ops)
    && c.state == StateAfter(c.ops)
    && (c.ops != [] && c.ops[|c.ops| - 1].ok ==> c.lastPauseID == c.ops[|c.ops| - 1].pauseID)
  }

  /** A live state tells the parity of the history and rules out a failure or a kill in it. */
  lemma LiveState(c: Ctl)
    requires Explained(c) && (c.state == Running || c.state == Frozen)
    ensures c.state == Running <==> |c.ops| % 2 == 0
    ensures c.state == Frozen ==> c.lastPauseID == c.ops[|c.ops| - 1].pauseID
    ensures forall i :: 0 <= i < |c.ops| ==> c.ops[i].ok && c.ops[i].kind != KillGroup
  {
    forall i | 0 <= i < |c.ops|
      ensures c.ops[i].ok && c.ops[i].kind != KillGroup
    {
      assert Fits(c.ops, i);
    }
    assert c.ops != [] ==> Fits(c.ops, |c.ops| - 1);
  }

  lemma CallKeepsExplained(c: Ctl, call: Call)
    requires Explained(c)
    ensures Explained(Apply(c, call).ctl)
  {
    var c' := Apply(c, call).ctl;
    if c'.ops != c.ops {
      LiveState(c);
      assert c'.ops == c.ops + [KernelOp(call.kind, call.pauseID, call.kernelOk)];
      forall i | 0 <= i < |c'.ops|
        ensures Fits(c'.ops, i)
      {
        assert i < |c.ops| ==> Fits(c.ops, i);
      }
    }
  }

  lemma {:induction false} CallsKeepExplained(c: Ctl, calls: seq<Call>)
    requires Explained(c)
    ensures Explained(ApplyAll(c, calls))
    decreases |calls|
  {
    if calls != [] {
      CallKeepsExplained(c, calls[0]);
      CallsKeepExplained(Apply(c, calls[0]).ctl, calls[1..]);
    }
  }

  /** Replaying the operations of a history as calls issues exactly that history. */
  lemma {:induction false} LanguageIsReachable(ops: seq<KernelOp>, n: nat)
    requires InLanguage(ops) && n <= |ops|
    ensures var calls := seq(n, i requires 0 <= i < n => Call(ops[i].kind, ops[i].pauseID, ops[i].ok));
            ApplyAll(STARTED, calls).ops == ops[..n] && Explained(ApplyAll(STARTED, calls))
  {
    var calls := seq(n, i requires 0 <= i < n => Call(ops[i].kind, ops[i].pauseID, ops[i].ok));
    CallsKeepExplained(STARTED, calls);
    if n > 0 {
      var before := seq(n - 1, i requires 0 <= i < n - 1 => Call(ops[i].kind, ops[i].pauseID, ops[i].ok));
      var call := Call(ops[n - 1].kind, ops[n - 1].pauseID, ops[n - 1].ok);
      LanguageIsReachable(ops, n - 1);
      assert calls == before + [call];
      ApplyAllSnoc(STARTED, before, call);
      NextOperationIssued(ops, n - 1, ApplyAll(STARTED, before));
    }
  }

  lemma NextOperationIssued(ops: seq<KernelOp>, n: nat, c: Ctl)
    requires InLanguage(ops) && n < |ops| && Explained(c) && c.ops == ops[..n]
    ensures Apply(c, Call(ops[n].kind, ops[n].pauseID, ops[n].ok)).ctl.ops == ops[..n + 1]
  {
    assert Fits(ops, n) && (n > 0 ==> Fits(ops, n - 1) && c.ops[n - 1] == ops[n - 1]);
    LiveState(c);
    assert ops[..n + 1] == c.ops + [ops[n]];
  }

  lemma {:induction false} ApplyAllSnoc(c: Ctl, calls: seq<Call>, last: Call)
    ensures ApplyAll(c, calls + [last]) == Apply(ApplyAll(c, calls), last).ctl
    decreases |calls|
  {
    if calls == [] {
      assert calls + [last] == [last];
      assert [last][1..] == [];
    } else {
      assert (calls + [last])[1..] == calls[1..] + [last];
      ApplyAllSnoc(Apply(c, calls[0]).ctl, calls[1..], last);
    }
  }

  ghost predicate Issuable(ops: seq<KernelOp>) {
    exists calls: seq<Call> :: ApplyAll(STARTED, calls).ops == ops
  }

  /**
   The kernel operations form exactly this language: any calls, with any ids and any kernel
   outcomes, issue a history in it, and every history in it is issued by some calls.
   */
  lemma KernelLanguage(ops: seq<KernelOp>)
    ensures Issuable(ops) <==> InLanguage(ops)
  {
    if Issuable(ops) {
      var calls: seq<Call> :| ApplyAll(STARTED, calls).ops == ops;
      CallsKeepExplained(STARTED, calls);
    }
    if InLanguage(ops) {
      LanguageIsReachable(ops, |ops|);
      var calls := seq(|ops|, i requires 0 <= i < |ops| => Call(ops[i].kind, ops[i].pauseID, ops[i].ok));
      assert ApplyAll(STARTED, calls).ops == ops[..|ops|] == ops;
    }
  }

  /** Between calls, only four of the seven states are ever visible, each told by the last operation. */
  lemma VisibleStates(calls: seq<Call>)
    ensures var c := ApplyAll(STARTED, calls);
            && c.state in {Running, Frozen, Stopped, Unknown}
            && (c.state == Unknown <==> c.ops != [] && !c.ops[|c.ops| - 1].ok)
            && (c.state == Frozen <==> |c.ops| % 2 == 1 && c.ops[|c.ops| - 1].kind == FreezeGroup && c.ops[|c.ops| - 1].ok)
            && (c.state == Stopped <==> c.ops != [] && c.ops[|c.ops| - 1].kind == KillGroup && c.ops[|c.ops| - 1].ok)
  {
    CallsKeepExplained(STARTED, calls);
    var c := ApplyAll(STARTED, calls);
    assert c.ops != [] ==> Fits(c.ops, |c.ops| - 1);
  }

  /**
   A controller that stopped, or that no longer knows its state after a failed kernel operation,
   never leaves that state: in particular no later kill reaches the kernel after a failed freeze.
   */
  lemma {:induction false} DeadStatesAreFinal(c: Ctl, calls: seq<Call>)
    requires c.state == Stopped || c.state == Unknown
    ensures ApplyAll(c, calls) == c
    decreases |calls|
  {
    if calls != [] {
      DeadStatesAreFinal(c, calls[1..]);
    }
  }

  /** The state each call is for. */
  function Goal(kind: Kind): RuntimeState {
    match kind
    case FreezeGroup => Frozen
    case UnfreezeGroup => Running
    case KillGroup => Stopped
  }

  /**
   A call reports success exactly when it leaves the controller where it was meant to, for this very
   pause - except for a kill, which may have been another one's. One that fails leaves the pause id.
   */
  lemma CallSucceedsExactlyWhen(c: Ctl, call: Call)
    requires Explained(c)
    ensures var after := Apply(c, call).ctl;
            !Apply(c, call).failed
            <==> after.state == Goal(call.kind) && (call.kind != KillGroup ==> after.lastPauseID == call.pauseID)
    ensures Apply(c, call).failed ==> Apply(c, call).ctl.lastPauseID == c.lastPauseID
  {
    hide InLanguage;
  }

  /** Repeating a call that succeeded succeeds again, whatever the kernel, and changes nothing. */
  lemma RepeatedCallIsNoOp(c: Ctl, call: Call, kernelOk: bool)
    requires !Apply(c, call).failed
    ensures var again := Apply(Apply(c, call).ctl, call.(kernelOk := kernelOk));
            !again.failed && again.ctl == Apply(c, call).ctl
  {}

  // -------------------------------------------------------------------------- the source's object

  class ActivationController {
    var state: RuntimeState
    var lastPauseID: string
    ghost var ops: seq<KernelOp>

    ghost function Value(): Ctl
      reads this
    {
      Ctl(state, lastPauseID, ops)
    }

    constructor ()
      ensures Value() == STARTED
    {
      state, lastPauseID, ops := Running, "", [];
    }

    method FreezeExecution(pauseID: string, kernelOk: bool) returns (failed: bool)
      modifies this
      ensures Reply(failed, Value()) == FreezeReply(old(Value()), pauseID, kernelOk)
    {
      if state == Frozen && lastPauseID == pauseID {
        return false;
      }
      if state != Running {
        return true;
      }
      state := Freezing;
      ops := ops + [KernelOp(FreezeGroup, pauseID, kernelOk)];
      if !kernelOk {
        state := Unknown;
        return true;
      }
      state, lastPauseID := Frozen, pauseID;
      return false;
    }

    method ResumeExecution(pauseID: string, kernelOk: bool) returns (failed: bool)
      modifies this
      ensures Reply(failed, Value()) == ResumeReply(old(Value()), pauseID, kernelOk)
    {
      if state == Running && lastPauseID == pauseID {
        return false;
      }
      if state != Frozen {
        return true;
      }
      if pauseID != lastPauseID {
        return true;
      }
      state := Resuming;
      ops := ops + [KernelOp(UnfreezeGroup, pauseID, kernelOk)];
      if !kernelOk {
        state := Unknown;
        return true;
      }
      state, lastPauseID := Running, pauseID;
      return false;
    }

    method KillExecution(pauseID: string, kernelOk: bool) returns (failed: bool)
      modifies this
      ensures Reply(failed, Value()) == KillReply(old(Value()), pauseID, kernelOk)
    {
      if state == Stopped {
        return false;
      }
      if state != Running && state != Frozen {
        return true;
      }
      state := Killing;
      ops := ops + [KernelOp(KillGroup, pauseID, kernelOk)];
      if !kernelOk {
        state := Unknown;
        return true;
      }
      state, lastPauseID := Stopped, pauseID;
      return false;
    }
  }
}
