// What the gateway returns from a takeover, read off the steps of the whole run.
module TakeoverOutcome {
  import opened Common
  import opened TakeoverSession
  import opened TakeoverGateway
  import opened TakeoverHistory

  // ---------------------------------------------------------------- the session's own run

  // What the plugin host sees of a step: its own steps, and the commands that the gateway delivers.
  function Seen(s: System, st: SysStep): seq<Step>
    requires SysEnabled(s, st)
  {
    if st.Host? then [st.step]
    else if st.SendWait? then [StartWait]
    else if st.DeliverComplete? then [StartComplete(ErrorText(s.gateway.err))]
    else []
  }

  ghost function HostSteps(s: System, steps: seq<SysStep>): seq<Step>
    requires SysRun(s, steps)
    decreases |steps|
  {
    if steps == [] then [] else Seen(s, steps[0]) + HostSteps(SysApply(s, steps[0]), steps[1..])
  }

  lemma {:induction false} HostRuns(s: System, steps: seq<SysStep>)
    requires SysRun(s, steps)
    ensures var hs := HostSteps(s, steps); RunFrom(s.host, hs) && After(s.host, hs) == SysAfter(s, steps).host
    ensures forall err :: HandlerReturns(err) in HostSteps(s, steps) <==> Host(HandlerReturns(err)) in steps
    decreases |steps|
  {
    hide SysApply, SysEnabled;
    if steps != [] {
      var next := SysApply(s, steps[0]);
      HostRuns(next, steps[1..]);
      HostRunsStep(s, steps[0], HostSteps(next, steps[1..]));
      assert steps == [steps[0]] + steps[1..];
      forall err
        ensures HandlerReturns(err) in Seen(s, steps[0]) <==> Host(HandlerReturns(err)) == steps[0]
      {
      }
    }
  }

  lemma HostRunsStep(s: System, st: SysStep, rest: seq<Step>)
    requires SysEnabled(s, st) && RunFrom(SysApply(s, st).host, rest)
    ensures RunFrom(s.host, Seen(s, st) + rest)
    ensures After(s.host, Seen(s, st) + rest) == After(SysApply(s, st).host, rest)
  {
    hide Apply, Enabled, RunFrom, After;
    if Seen(s, st) == [] {
      assert [] + rest == rest;
    } else {
      ListedCanStart(s.host, if s.gateway.Completing? then ErrorText(s.gateway.err) else "");
      HostRunsCons(s.host, Seen(s, st)[0], rest);
    }
  }

  lemma ListedCanStart(s: Session, text: string)
    ensures s.listed <==> Enabled(s, StartWait)
    ensures s.listed <==> Enabled(s, StartComplete(text))
  {
  }

  lemma HostRunsCons(s: Session, step: Step, rest: seq<Step>)
    requires Enabled(s, step) && RunFrom(Apply(s, step), rest)
    ensures RunFrom(s, [step] + rest) && After(s, [step] + rest) == After(Apply(s, step), rest)
  {
    hide Apply, Enabled;
    assert ([step] + rest)[1..] == rest;
  }

  // ---------------------------------------------------------------- the downstream error

  // What the downstream part ended with: the error of the flow, or the failure to dial.
  function DownstreamError(steps: seq<SysStep>): GoError {
    if steps == [] then None
    else
      match steps[|steps| - 1]
      case RunFlow(err) => err
      case DialFails(text) => Some(text)
      case _ => DownstreamError(steps[..|steps| - 1])
  }

  lemma {:induction false} SysSnoc(s: System, steps: seq<SysStep>)
    requires SysRun(s, steps) && steps != []
    ensures var before, last := steps[..|steps| - 1], steps[|steps| - 1];
            && SysRun(s, before) && SysEnabled(SysAfter(s, before), last)
            && SysAfter(s, steps) == SysApply(SysAfter(s, before), last)
    decreases |steps|
  {
    if |steps| > 1 {
      assert steps[1..][..|steps| - 2] == steps[..|steps| - 1][1..];
      SysSnoc(SysApply(s, steps[0]), steps[1..]);
    }
  }

  function FlowsIn(steps: seq<SysStep>): nat {
    if steps == [] then 0
    else FlowsIn(steps[..|steps| - 1]) + if steps[|steps| - 1].RunFlow? then 1 else 0
  }

  // The recorded outcome is that of the run's steps, and every run of the flow is recorded.
  lemma {:induction false} OutcomeIsDownstreams(budget: nat, steps: seq<SysStep>)
    requires SysRun(Start(budget), steps)
    ensures SysAfter(Start(budget), steps).outcome == DownstreamError(steps)
    ensures |SysAfter(Start(budget), steps).flows| == FlowsIn(steps)
    decreases |steps|
  {
    hide Apply, Enabled;
    if steps != [] {
      SysSnoc(Start(budget), steps);
      OutcomeIsDownstreams(budget, steps[..|steps| - 1]);
    }
  }

  // ---------------------------------------------------------------- giving up

  // The connection may fail at every point at which the gateway needs it, and which loss it is follows
  // from the commands delivered so far.
  lemma LossPoints(s: System, text: string)
    requires SysInv(s)
    ensures SysEnabled(s, AbandonBeforeWait(text)) <==> !s.gateway.Over? && !s.waitSent
    ensures SysEnabled(s, LoseReply(text)) <==> !s.gateway.Over? && s.completeSent
    ensures SysEnabled(s, LoseAnswer(text)) || SysEnabled(s, AbandonComplete(text)) <==>
              !s.gateway.Over? && !s.gateway.Downstream? && s.waitSent && !s.completeSent
    ensures SysEnabled(s, LoseAnswer(text)) ==> s.flows == []
    ensures SysEnabled(s, AbandonComplete(text)) ==> s.host.waits[0].Answered? && s.host.waits[0].action.Continue?
  {
    hide Enabled, Inv;
  }

  // The error that the gateway gives up with: the downstream error where there is one.
  predicate GivesUpWith(s: System, st: SysStep) {
    match st
    case AbandonBeforeWait(text) => s.gateway == Over(Some(text))
    case LoseAnswer(text) => s.gateway == Over(Some(text))
    case AbandonComplete(text) => s.gateway == Over(if s.outcome.Some? then s.outcome else Some(text))
    case LoseReply(text) => s.gateway == Over(if s.outcome.Some? then s.outcome else Some(text))
    case _ => true
  }

  lemma GiveUpStep(s: System, st: SysStep, past: SysStep)
    requires SysInv(s) && SysEnabled(s, st) && GivesUpWith(s, past)
    ensures GivesUpWith(SysApply(s, st), st) && GivesUpWith(SysApply(s, st), past)
  {
    hide Apply, Enabled, Inv;
  }

  // A gateway that gives up returns the error it gave up with, or the downstream error.
  lemma {:induction false} GivingUpReturnsError(budget: nat, steps: seq<SysStep>, k: nat)
    requires SysRun(Start(budget), steps) && k < |steps|
    ensures GivesUpWith(SysAfter(Start(budget), steps), steps[k])
    decreases |steps|
  {
    hide SysApply, SysEnabled, SysInv, GivesUpWith;
    var n := |steps| - 1;
    var before := steps[..n];
    SysSnoc(Start(budget), steps);
    StartKeepsInv(budget, before);
    var s := SysAfter(Start(budget), before);
    if k < n {
      assert before[k] == steps[k];
      GivingUpReturnsError(budget, before, k);
      GiveUpStep(s, steps[n], steps[k]);
    } else {
      NothingGivenUp(s);
      GiveUpStep(s, steps[n], SendWait);
    }
  }

  lemma NothingGivenUp(s: System)
    ensures GivesUpWith(s, SendWait)
  {
  }

  lemma StartKeepsInv(budget: nat, steps: seq<SysStep>)
    requires SysRun(Start(budget), steps)
    ensures SysInv(SysAfter(Start(budget), steps))
  {
    SysRunKeepsInv(Start(budget), steps);
  }

  // ---------------------------------------------------------------- the result

  predicate HasResult(pc: CallPc) {
    pc.Finishing? || pc.Returned?
  }

  // The action that the wait command brought decides who the gateway listens to.
  lemma ResultByAction(t: System)
    requires SysInv(t) && t.gateway.Over? && !t.abandoned && !t.replyLost
    ensures t.host.handler.Finished?
    ensures t.completeSent ==>
              t.gateway.result == if t.outcome.Some? then t.outcome else ErrorFromText(ErrorText(t.host.handler.err))
    ensures !t.completeSent ==>
              |t.host.actionLog| == 1 && t.host.actionLog[0].Handled?
              && t.gateway.result == ErrorFromText(t.host.actionLog[0].text)
    ensures !t.completeSent && t.host.claimant.Some? ==>
              && t.host.claimant.value < |t.host.calls| && HasResult(t.host.calls[t.host.claimant.value].pc)
              && t.host.actionLog[0].text == ErrorText(t.host.calls[t.host.claimant.value].pc.result)
  {
    hide Enabled, Apply;
    if !t.completeSent {
      assert t.host.waits[0].Answered? && t.host.actionLog == [t.host.waits[0].action];
    }
  }

  // A handler returned err and the gateway stayed to the end. If the plugin ended the connection itself,
  // the gateway returns err, or the local failure of a claimed call; if the plugin continued, the
  // downstream error, or else the handler's: err, or that a call outlived it.
  lemma GatewayReturns(budget: nat, steps: seq<SysStep>, err: GoError) returns (hs: seq<Step>, j: nat)
    requires SysRun(Start(budget), steps) && Host(HandlerReturns(err)) in steps
    requires var t := SysAfter(Start(budget), steps); t.gateway.Over? && !t.abandoned && !t.replyLost
    ensures hs == HostSteps(Start(budget), steps) && SettledAt(hs, j) && RunFrom(Opened(), hs[..j])
    ensures var t := SysAfter(Start(budget), steps);
            && (t.completeSent ==>
                  t.gateway.result ==
                  if DownstreamError(steps).Some? then DownstreamError(steps)
                  else ErrorFromText(ErrorText(FinalError(err, After(Opened(), hs[..j])))))
            && (!t.completeSent && t.host.claimant.None? ==> t.gateway.result == ErrorFromText(ErrorText(err)))
            && (!t.completeSent && t.host.claimant.Some? ==>
                  && t.host.claimant.value < |t.host.calls| && HasResult(t.host.calls[t.host.claimant.value].pc)
                  && t.gateway.result
                     == ErrorFromText(ErrorText(t.host.calls[t.host.claimant.value].pc.result)))
  {
    hide Apply, Enabled, FinalError, SysApply, SysEnabled, SysInv, ErrorText, ErrorFromText;
    var t := SysAfter(Start(budget), steps);
    hs := HostSteps(Start(budget), steps);
    HostRuns(Start(budget), steps);
    StartKeepsInv(budget, steps);
    ResultByAction(t);
    OutcomeIsDownstreams(budget, steps);
    var i: nat;
    i, j := HandlerErrorIsReturned(hs);
    assert HandlerReturns(err) in hs;
    var k :| 0 <= k < |hs| && hs[k] == HandlerReturns(err);
    assert k == i;
    if t.host.claimant.None? {
      var i2 := UnclaimedAnnouncesReturn(hs);
      assert i2 == i;
    }
  }
}
