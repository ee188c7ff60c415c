// Progress of a takeover: every run of plugin, host and gateway is finite, and where it stops is known.
module TakeoverProgress {
  import opened Common
  import opened TakeoverSession
  import opened TakeoverGateway

  // ---------------------------------------------------------------- someone can always move

  // All that is left of the plugin is a continuation waiting for a complete command.
  predicate PluginBlocked(s: Session) {
    && (forall c :: 0 <= c < |s.calls| ==> Ended(s.calls[c].pc) || (s.calls[c].pc.AwaitComplete? && s.complete == []))
    && (s.handler.Finished? || (s.handler.InHandler? && HandlerBusy(s)))
  }

  predicate IsPluginStep(step: Step) {
    !step.StartWait? && !step.StartComplete? && !step.Spawn?
  }

  lemma PluginCanStep(s: Session) returns (step: Step)
    requires Inv(s) && !PluginBlocked(s)
    ensures IsPluginStep(step) && Enabled(s, step)
  {
    if c :| 0 <= c < |s.calls| && !Ended(s.calls[c].pc) && !(s.calls[c].pc.AwaitComplete? && s.complete == []) {
      match s.calls[c].pc {
        case Entered => step := Enter(c);
        case Claiming => step := Act(c, None);
        case AwaitComplete => step := Resume(c);
        case Finishing(_) => step := Finish(c);
      }
    } else {
      match s.handler {
        case InHandler => step := HandlerReturns(None);
        case Unwound(_) => step := Settle;
        case Settled(_) => step := SendHandled;
        case Announced(_) => step := SendDone;
        case Finished(_) => assert false;
      }
    }
  }

  // Once the plugin is blocked, its message on session.action has been sent, and either it is over or a
  // claimed call awaits the complete command.
  lemma BlockedPluginHasSpoken(s: Session)
    requires Inv(s) && PluginBlocked(s)
    ensures |s.actionLog| == 1
    ensures s.actionLog[0].Handled? || s.resumed ==> s.handler.Finished? && |s.doneLog| == 1
    ensures s.actionLog[0].Continue? && !s.resumed ==>
              s.claimant.Some? && s.calls[s.claimant.value].pc.AwaitComplete?
  {
    if s.handler.InHandler? {
      var c :| 0 <= c < |s.calls| && s.calls[c].inHandler && !Ended(s.calls[c].pc);
      assert HoldsFlow(s.calls[c].pc);
    }
  }

  // The gateway delivered what the protocol asks of it: the wait command, and, when the plugin chose to
  // continue, the complete command.
  predicate Followed(s: System) {
    s.waitSent && |s.host.actionLog| > 0 && (s.host.actionLog[0].Handled? || s.completeSent)
  }

  // The steps by which the gateway loses a connection to the plugin host or runs into a deadline.
  predicate GivesUp(st: SysStep) {
    st.AbandonBeforeWait? || st.LoseAnswer? || st.AbandonComplete? || st.LoseReply?
  }

  predicate AllDone(s: System) {
    && s.host.handler.Finished?
    && (forall c :: 0 <= c < |s.host.calls| ==> Ended(s.host.calls[c].pc))
    && (forall w :: 0 <= w < |s.host.waits| ==> s.host.waits[w].Answered?)
    && (forall k :: 0 <= k < |s.host.completes| ==> s.host.completes[k].Replied?)
    && !s.host.listed
  }

  predicate AtRest(s: System) {
    s.gateway.Over? && (if Followed(s) then AllDone(s) else s.host.listed)
  }

  lemma CommandCanStep(s: System) returns (step: Step)
    requires SysInv(s) && PluginBlocked(s.host)
    requires (s.waitSent && !s.host.waits[0].Answered?) || (s.completeSent && !s.host.completes[0].Replied?)
    ensures IsPluginStep(step) && Enabled(s.host, step)
  {
    BlockedPluginHasSpoken(s.host);
    if !s.host.waits[0].Answered? {
      match s.host.waits[0] {
        case AwaitAction => step := RecvAction(0);
        case AwaitDone(_) => step := WaitRecvDone(0);
        case Deleting(_) => step := WaitDelete(0);
      }
    } else {
      match s.host.completes[0] {
        case Sending(_) => step := SendComplete(0);
        case AwaitFinal => step := CompleteRecvDone(0);
        case Removing(_) => step := CompleteDelete(0);
      }
    }
  }

  // While the gateway has not abandoned the session, the protocol's own next step is enabled: the wait
  // and complete commands always find the session.
  lemma CommandsFindTheSession(s: System)
    requires SysInv(s)
    ensures s.gateway.Connected? ==> SysEnabled(s, SendWait)
    ensures s.gateway.Completing? ==> SysEnabled(s, DeliverComplete)
  {
  }

  lemma GatewayCanStep(s: System) returns (st: SysStep)
    requires SysInv(s) && PluginBlocked(s.host) && !s.gateway.Over?
    requires s.waitSent ==> s.host.waits[0].Answered?
    requires s.completeSent ==> s.host.completes[0].Replied?
    ensures SysEnabled(s, st) && !GivesUp(st) && !st.DialFails?
  {
    CommandsFindTheSession(s);
    match s.gateway {
      case Connected => st := SendWait;
      case AwaitWait => st := RecvAnswer;
      case Downstream(_, _) => st := RunFlow(None);
      case Completing(_) => st := DeliverComplete;
      case AwaitReply(_) => st := RecvReply;
    }
  }

  // Nobody hangs: short of rest, something other than a failure of the gateway's connections can happen.
  lemma SystemCanStep(s: System) returns (st: SysStep)
    requires SysInv(s) && !AtRest(s)
    ensures SysEnabled(s, st) && !GivesUp(st) && !st.DialFails?
  {
    if !PluginBlocked(s.host) {
      var step := PluginCanStep(s.host);
      st := Host(step);
    } else if (s.waitSent && !s.host.waits[0].Answered?) || (s.completeSent && !s.host.completes[0].Replied?) {
      var step := CommandCanStep(s);
      st := Host(step);
    } else if !s.gateway.Over? {
      st := GatewayCanStep(s);
    } else {
      BlockedPluginHasSpoken(s.host);
      DelistingNeedsFollowing(s);
      assert false;
    }
  }

  // The table entry can only go if the gateway followed the protocol.
  lemma DelistingNeedsFollowing(s: System)
    requires SysInv(s) && !s.host.listed
    ensures Followed(s)
  {
  }

  // ---------------------------------------------------------------- termination

  function CallRank(pc: CallPc): nat {
    match pc
    case Entered => 4
    case Claiming => 3
    case AwaitComplete => 2
    case Finishing(_) => 1
    case _ => 0
  }

  function CallsRank(calls: seq<Call>): nat {
    if calls == [] then 0 else CallsRank(calls[..|calls| - 1]) + CallRank(calls[|calls| - 1].pc)
  }

  function HandlerRank(pc: HandlerPc): nat {
    match pc
    case InHandler => 4
    case Unwound(_) => 3
    case Settled(_) => 2
    case Announced(_) => 1
    case Finished(_) => 0
  }

  function WaitRank(s: Session): nat {
    if s.waits == [] then 0 else
      match s.waits[0]
      case AwaitAction => 4
      case AwaitDone(_) => 3
      case Deleting(_) => 2
      case Answered(_) => 1
  }

  function CompleteRank(s: Session): nat {
    if s.completes == [] then 0 else
      match s.completes[0]
      case Sending(_) => 4
      case AwaitFinal => 3
      case Removing(_) => 2
      case Replied(_) => 1
  }

  function GatewayRank(pc: GatewayPc): nat {
    match pc
    case Connected => 17
    case AwaitWait => 12
    case Downstream(_, _) => 7
    case Completing(_) => 6
    case AwaitReply(_) => 1
    case Over(_) => 0
  }

  function Measure(s: System): nat {
    5 * s.budget + CallsRank(s.host.calls) + HandlerRank(s.host.handler)
    + WaitRank(s.host) + CompleteRank(s.host) + GatewayRank(s.gateway)
  }

  lemma {:induction false} CallsRankUpdate(calls: seq<Call>, c: nat, call: Call)
    requires c < |calls|
    ensures CallsRank(calls[c := call]) + CallRank(calls[c].pc) == CallsRank(calls) + CallRank(call.pc)
  {
    var n := |calls| - 1;
    if c == n {
      assert calls[c := call][..n] == calls[..n];
    } else {
      assert calls[c := call][..n] == calls[..n][c := call];
      CallsRankUpdate(calls[..n], c, call);
    }
  }

  lemma CallsRankAppend(calls: seq<Call>, call: Call)
    ensures CallsRank(calls + [call]) == CallsRank(calls) + CallRank(call.pc)
  {
    assert (calls + [call])[..|calls|] == calls;
  }

  predicate IsCallStep(step: Step) {
    step.Spawn? || step.Enter? || step.Act? || step.Resume? || step.Finish?
  }

  predicate IsHandlerStep(step: Step) {
    step.HandlerReturns? || step.Settle? || step.SendHandled? || step.SendDone?
  }

  predicate SameCommands(a: Session, b: Session) {
    a.waits == b.waits && a.completes == b.completes
  }

  // A step of call c moves that call forward and touches no other call.
  lemma CallMovesForward(s: Session, step: Step)
    requires Enabled(s, step) && IsCallStep(step) && !step.Spawn?
    ensures SameCommands(s, Apply(s, step)) && Apply(s, step).handler == s.handler
    ensures |Apply(s, step).calls| == |s.calls|
    ensures Apply(s, step).calls == s.calls[step.c := Apply(s, step).calls[step.c]]
    ensures CallRank(Apply(s, step).calls[step.c].pc) < CallRank(s.calls[step.c].pc)
  {
  }

  lemma CallStepRank(s: Session, step: Step)
    requires Enabled(s, step) && IsCallStep(step)
    ensures SameCommands(s, Apply(s, step)) && Apply(s, step).handler == s.handler
    ensures CallsRank(Apply(s, step).calls) <= CallsRank(s.calls) + (if step.Spawn? then 4 else -1)
  {
    if step.Spawn? {
      CallsRankAppend(s.calls, Apply(s, step).calls[|s.calls|]);
    } else {
      CallMovesForward(s, step);
      CallsRankUpdate(s.calls, step.c, Apply(s, step).calls[step.c]);
    }
  }

  lemma HandlerStepRank(s: Session, step: Step)
    requires Enabled(s, step) && IsHandlerStep(step)
    ensures SameCommands(s, Apply(s, step)) && Apply(s, step).calls == s.calls
    ensures HandlerRank(Apply(s, step).handler) < HandlerRank(s.handler)
  {
  }

  lemma CommandStepRank(s: Session, step: Step)
    requires Enabled(s, step) && !IsCallStep(step) && !IsHandlerStep(step)
    requires IsPluginStep(step) && |s.waits| <= 1 && |s.completes| <= 1
    ensures Apply(s, step).calls == s.calls && Apply(s, step).handler == s.handler
    ensures WaitRank(Apply(s, step)) + CompleteRank(Apply(s, step)) < WaitRank(s) + CompleteRank(s)
  {
  }

  lemma HostStepDecreases(s: System, step: Step)
    requires CommandInv(s) && SysEnabled(s, Host(step))
    ensures Measure(SysApply(s, Host(step))) < Measure(s)
  {
    if IsCallStep(step) {
      CallStepRank(s.host, step);
    } else if IsHandlerStep(step) {
      HandlerStepRank(s.host, step);
    } else {
      CommandStepRank(s.host, step);
    }
  }

  // Every step of the composition, whoever takes it, decreases the measure.
  lemma StepDecreases(s: System, st: SysStep)
    requires CommandInv(s) && GatewayInv(s) && SysEnabled(s, st)
    ensures Measure(SysApply(s, st)) < Measure(s)
  {
    match st
    case Host(step) => HostStepDecreases(s, step);
    case _ =>
  }

  lemma {:induction false} RunDecreases(s: System, steps: seq<SysStep>)
    requires SysInv(s) && SysRun(s, steps)
    ensures |steps| + Measure(SysAfter(s, steps)) <= Measure(s)
    decreases |steps|
  {
    if steps != [] {
      StepDecreases(s, steps[0]);
      match steps[0] {
        case Host(step) => HostStepKeepsSysInv(s, step);
        case _ => GatewayStepKeepsSysInv(s, steps[0]);
      }
      RunDecreases(SysApply(s, steps[0]), steps[1..]);
    }
  }

  // ---------------------------------------------------------------- main results

  ghost predicate Quiescent(s: System) {
    forall st: SysStep :: !SysEnabled(s, st)
  }

  // Nothing can happen any more unless a connection fails.
  ghost predicate Stalled(s: System) {
    forall st: SysStep :: SysEnabled(s, st) ==> GivesUp(st) || st.DialFails?
  }

  // Every interleaving of a plugin that makes finitely many calls is finite, with an explicit bound.
  lemma RunsAreFinite(budget: nat, steps: seq<SysStep>)
    requires SysRun(Start(budget), steps)
    ensures |steps| <= 5 * budget + 21
  {
    RunDecreases(Start(budget), steps);
  }

  // Where a run stops, even if it could still give up: there the gateway is over. The session has left
  // the table exactly when the gateway delivered the wait command and, if the plugin chose to continue,
  // the complete command; then everything else is over too. A gateway that never gave up always
  // delivered both.
  lemma TakeoverEnds(budget: nat, steps: seq<SysStep>)
    requires SysRun(Start(budget), steps) && Stalled(SysAfter(Start(budget), steps))
    ensures var t := SysAfter(Start(budget), steps);
            && t.gateway.Over?
            && (!t.host.listed <==> Followed(t))
            && (Followed(t) ==> AllDone(t))
            && (!t.abandoned ==> Followed(t))
  {
    var t := SysAfter(Start(budget), steps);
    SysRunKeepsInv(Start(budget), steps);
    if !AtRest(t) {
      var st := SystemCanStep(t);
    }
  }

  // Only a step that gives up makes the gateway abandon the session or lose the reply.
  lemma {:induction false} OnlyGivingUpAbandons(s: System, steps: seq<SysStep>)
    requires SysRun(s, steps) && !s.abandoned && !s.replyLost
    requires forall i :: 0 <= i < |steps| ==> !GivesUp(steps[i])
    ensures !SysAfter(s, steps).abandoned && !SysAfter(s, steps).replyLost
    decreases |steps|
  {
    if steps != [] {
      assert !GivesUp(steps[0]);
      OnlyGivingUpAbandons(SysApply(s, steps[0]), steps[1..]);
    }
  }

  // A run in which the gateway never gives up, dial failures included, goes on until the session has left
  // the table, the handler, every call and every command are over, and the gateway has returned.
  lemma LossFreeTakeoverEnds(budget: nat, steps: seq<SysStep>)
    requires SysRun(Start(budget), steps) && Stalled(SysAfter(Start(budget), steps))
    requires forall i :: 0 <= i < |steps| ==> !GivesUp(steps[i])
    ensures var t := SysAfter(Start(budget), steps);
            t.gateway.Over? && AllDone(t) && !t.abandoned && !t.replyLost
  {
    TakeoverEnds(budget, steps);
    OnlyGivingUpAbandons(Start(budget), steps);
  }

  lemma BusyPluginIsNotStalled(s: System)
    requires SysInv(s) && !PluginBlocked(s.host)
    ensures !Stalled(s)
  {
    var step := PluginCanStep(s.host);
    assert SysEnabled(s, Host(step));
  }

  // Giving up after a continuing plugin spoke leaves it stuck: its claimed call never returns, its
  // handler cannot report, and the session stays in the table.
  lemma AbandonedTakeoverIsStuck(budget: nat, steps: seq<SysStep>)
    requires SysRun(Start(budget), steps) && Stalled(SysAfter(Start(budget), steps))
    requires SysAfter(Start(budget), steps).host.actionLog != []
    requires SysAfter(Start(budget), steps).host.actionLog[0].Continue?
    ensures var t := SysAfter(Start(budget), steps);
            !t.completeSent <==> t.host.claimant.Some? && t.host.claimant.value < |t.host.calls|
                                 && t.host.calls[t.host.claimant.value].pc.AwaitComplete?
  {
    var t := SysAfter(Start(budget), steps);
    SysRunKeepsInv(Start(budget), steps);
    TakeoverEnds(budget, steps);
    if !PluginBlocked(t.host) {
      BusyPluginIsNotStalled(t);
    }
    BlockedPluginHasSpoken(t.host);
  }

  lemma FlowFacts(t: System, c: nat)
    requires SysInv(t)
    ensures |t.flows| <= 1
    ensures c < |t.host.calls| && HoldsFlow(t.host.calls[c].pc) && t.flows != [] ==>
              t.flows == [(t.host.calls[c].kind, t.host.calls[c].info)]
    ensures c < |t.host.calls| && t.host.calls[c].pc.Returned? && t.host.resumed ==>
              t.host.calls[c].pc.result == ErrorFromText(ErrorText(t.outcome))
  {
  }

  lemma GatewayResult(t: System)
    requires SysInv(t) && t.gateway.Over? && !t.abandoned && !t.replyLost
    ensures t.host.handler.Finished?
    ensures t.completeSent ==>
              t.gateway.result == Prefer(t.outcome, ErrorFromText(ErrorText(t.host.handler.err)))
    ensures !t.completeSent ==>
              exists text :: t.host.actionLog == [Handled(text)] && t.gateway.result == ErrorFromText(text)
  {
    if !t.completeSent {
      assert t.host.actionLog == [Handled(t.host.waits[0].action.text)];
    }
  }

  // The downstream flow runs at most once, with the kind and connection state the claiming call
  // announced; that call returns the downstream error as it survives the wire; and the gateway that
  // stayed to the end returns the downstream error or else the handler's.
  lemma ErrorsReachTheirOwner(budget: nat, steps: seq<SysStep>, c: nat)
    requires SysRun(Start(budget), steps)
    ensures var t := SysAfter(Start(budget), steps);
            && |t.flows| <= 1
            && (c < |t.host.calls| && HoldsFlow(t.host.calls[c].pc) && t.flows != [] ==>
                  t.flows == [(t.host.calls[c].kind, t.host.calls[c].info)])
            && (c < |t.host.calls| && t.host.calls[c].pc.Returned? && t.host.resumed ==>
                  t.host.calls[c].pc.result == ErrorFromText(ErrorText(t.outcome)))
            && (t.gateway.Over? && !t.abandoned && !t.replyLost ==>
                  && t.host.handler.Finished?
                  && (if t.completeSent
                      then t.gateway.result == Prefer(t.outcome, ErrorFromText(ErrorText(t.host.handler.err)))
                      else exists text :: t.host.actionLog == [Handled(text)]
                                          && t.gateway.result == ErrorFromText(text)))
  {
    assert SysInv(Start(budget));
    hide SysInv, HoldsFlow;
    SysRunKeepsInv(Start(budget), steps);
    var t := SysAfter(Start(budget), steps);
    FlowFacts(t, c);
    if t.gateway.Over? && !t.abandoned && !t.replyLost {
      GatewayResult(t);
    }
  }

  // A concrete run of that kind: the handler calls Next, the wait command takes the action, and the
  // gateway's connection dies before the answer arrives.
  const PLUGIN_SPEAKS: seq<SysStep> := [Host(Spawn(Next, true, "", true)), Host(Enter(0)), Host(Act(0, None))]
  const GATEWAY_DIES: seq<SysStep> := [SendWait, Host(RecvAction(0)), LoseAnswer("i/o timeout")]

  const SPOKEN: System :=
    Start(0).(host := Opened().(
      flow := Running, calls := [Call(Next, true, "", true, AwaitComplete)], claimant := Some(0),
      action := [Continue(Next, "")], actionLog := [Continue(Next, "")]))

  const LEAKED: System :=
    SPOKEN.(gateway := Over(Some("i/o timeout")), waitSent := true, abandoned := true,
            host := SPOKEN.host.(action := [], waits := [Answered(Continue(Next, ""))], actionTaker := Some(0)))

  lemma {:induction false} RunConcat(s: System, first: seq<SysStep>, second: seq<SysStep>)
    requires SysRun(s, first) && SysRun(SysAfter(s, first), second)
    ensures SysRun(s, first + second) && SysAfter(s, first + second) == SysAfter(SysAfter(s, first), second)
    decreases |first|
  {
    hide SysApply, SysEnabled;
    if first == [] {
      assert first + second == second;
    } else {
      assert (first + second)[1..] == first[1..] + second;
      RunConcat(SysApply(s, first[0]), first[1..], second);
    }
  }

  lemma StepThenRun(s: System, st: SysStep, next: System, rest: seq<SysStep>)
    requires SysEnabled(s, st) && SysApply(s, st) == next && SysRun(next, rest)
    ensures SysRun(s, [st] + rest) && SysAfter(s, [st] + rest) == SysAfter(next, rest)
  {
    assert ([st] + rest)[1..] == rest;
  }

  lemma ThreeSteps(s: System, a: SysStep, b: SysStep, c: SysStep, s1: System, s2: System, s3: System)
    requires SysEnabled(s, a) && SysApply(s, a) == s1
    requires SysEnabled(s1, b) && SysApply(s1, b) == s2
    requires SysEnabled(s2, c) && SysApply(s2, c) == s3
    ensures SysRun(s, [a, b, c]) && SysAfter(s, [a, b, c]) == s3
  {
    StepThenRun(s2, c, s3, []);
    StepThenRun(s1, b, s2, [c]);
    StepThenRun(s, a, s1, [b] + [c]);
    assert [a] + ([b] + [c]) == [a, b, c];
  }

  lemma PluginSpeaksReaches()
    ensures SysRun(Start(1), PLUGIN_SPEAKS) && SysAfter(Start(1), PLUGIN_SPEAKS) == SPOKEN
  {
    var s1 := Start(0).(host := Opened().(calls := [Call(Next, true, "", true, Entered)]));
    var call := Call(Next, true, "", true, Claiming);
    var s2 := s1.(host := s1.host.(calls := [call], flow := Running, claimant := Some(0)));
    ThreeSteps(Start(1), PLUGIN_SPEAKS[0], PLUGIN_SPEAKS[1], PLUGIN_SPEAKS[2], s1, s2, SPOKEN);
  }

  lemma GatewayDiesReaches()
    ensures SysRun(SPOKEN, GATEWAY_DIES) && SysAfter(SPOKEN, GATEWAY_DIES) == LEAKED
  {
    var s1 := SPOKEN.(host := SPOKEN.host.(waits := [AwaitAction]), gateway := AwaitWait, waitSent := true);
    var s2 := s1.(host := LEAKED.host);
    ThreeSteps(SPOKEN, GATEWAY_DIES[0], GATEWAY_DIES[1], GATEWAY_DIES[2], s1, s2, LEAKED);
  }

  lemma LeakedIsQuiescent()
    ensures Quiescent(LEAKED)
  {
    assert HandlerBusy(LEAKED.host) by {
      assert LEAKED.host.calls[0].inHandler && !Ended(LEAKED.host.calls[0].pc);
    }
  }

  // After these six steps nothing can step any more, the handler has not returned, and the session is
  // still in the table.
  lemma AbandonedSessionLeaks()
    ensures SysRun(Start(1), PLUGIN_SPEAKS + GATEWAY_DIES)
    ensures SysAfter(Start(1), PLUGIN_SPEAKS + GATEWAY_DIES) == LEAKED
    ensures Quiescent(LEAKED) && LEAKED.host.listed && LEAKED.host.handler.InHandler?
  {
    PluginSpeaksReaches();
    GatewayDiesReaches();
    RunConcat(Start(1), PLUGIN_SPEAKS, GATEWAY_DIES);
    LeakedIsQuiescent();
  }
}
