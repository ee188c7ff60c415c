// The gateway half of a takeover (RunPluginHostTakeover) composed with one session of the plugin host.
//
// The gateway opens the session, sends the wait command, runs its own downstream flow if the answer asks
// for it, and sends the complete command. It may give up where the source gives up: before the wait
// command is delivered, while waiting for the answer, before the complete command is delivered, or while
// waiting for the final reply. Byte relays are taken to end once complete is delivered.
module TakeoverGateway {
  import opened Common
  import opened TakeoverSession

  datatype GatewayPc =
    | Connected                             // takeover opened and acknowledged
    | AwaitWait                             // wait command delivered
    | Downstream(kind: Kind, info: string)  // about to dial the replacement and run req.Flow
    | Completing(err: GoError)              // downstream over, complete not yet delivered
    | AwaitReply(err: GoError)              // complete command delivered
    | Over(result: GoError)

  datatype System = System(
    host: Session,
    gateway: GatewayPc,
    budget: nat,          // continuation calls the plugin will still make
    waitSent: bool,
    completeSent: bool,
    abandoned: bool,      // gave up before wait/complete was delivered or before the answer arrived
    replyLost: bool,      // gave up on the final reply only
    flows: seq<(Kind, string)>,
    outcome: GoError)     // what the downstream part ended with

  function Start(budget: nat): System {
    System(Opened(), Connected, budget, false, false, false, false, [], None)
  }

  datatype SysStep =
    | Host(step: Step)
    | SendWait
    | AbandonBeforeWait(text: string)
    | RecvAnswer
    | LoseAnswer(text: string)
    | DialFails(text: string)
    | RunFlow(err: GoError)
    | DeliverComplete
    | AbandonComplete(text: string)
    | RecvReply
    | LoseReply(text: string)

  predicate SysEnabled(s: System, st: SysStep) {
    match st
    case Host(step) =>
      && !step.StartWait? && !step.StartComplete?
      && (step.Spawn? ==> s.budget > 0)
      && Enabled(s.host, step)
    case SendWait => s.gateway.Connected? && Enabled(s.host, StartWait)
    case AbandonBeforeWait(_) => s.gateway.Connected?
    case RecvAnswer => s.gateway.AwaitWait? && |s.host.waits| > 0 && s.host.waits[0].Answered?
    case LoseAnswer(_) => s.gateway.AwaitWait?
    case DialFails(_) => s.gateway.Downstream?
    case RunFlow(_) => s.gateway.Downstream?
    case DeliverComplete => s.gateway.Completing? && s.host.listed
    case AbandonComplete(_) => s.gateway.Completing?
    case RecvReply => s.gateway.AwaitReply? && |s.host.completes| > 0 && s.host.completes[0].Replied?
    case LoseReply(_) => s.gateway.AwaitReply?
  }

  // The downstream error wins; otherwise the error of the complete command is reported.
  function Prefer(err: GoError, completeErr: GoError): GoError {
    if err.Some? then err else completeErr
  }

  function SysApply(s: System, st: SysStep): System
    requires SysEnabled(s, st)
  {
    match st
    case Host(step) =>
      s.(host := Apply(s.host, step), budget := if step.Spawn? then s.budget - 1 else s.budget)
    case SendWait => s.(host := Apply(s.host, StartWait), gateway := AwaitWait, waitSent := true)
    case AbandonBeforeWait(text) => s.(gateway := Over(Some(text)), abandoned := true)
    case RecvAnswer =>
      (match s.host.waits[0].action
       case Handled(text) => s.(gateway := Over(ErrorFromText(text)))
       case Continue(kind, info) => s.(gateway := Downstream(kind, info)))
    case LoseAnswer(text) => s.(gateway := Over(Some(text)), abandoned := true)
    case DialFails(text) => s.(gateway := Completing(Some(text)), outcome := Some(text))
    case RunFlow(err) =>
      s.(gateway := Completing(err), outcome := err, flows := s.flows + [(s.gateway.kind, s.gateway.info)])
    case DeliverComplete =>
      s.(host := Apply(s.host, StartComplete(ErrorText(s.gateway.err))),
         gateway := AwaitReply(s.gateway.err), completeSent := true)
    case AbandonComplete(text) =>
      s.(gateway := Over(Prefer(s.gateway.err, Some(text))), abandoned := true)
    case RecvReply =>
      s.(gateway := Over(Prefer(s.gateway.err, ErrorFromText(ErrorText(s.host.completes[0].final)))))
    case LoseReply(text) =>
      s.(gateway := Over(Prefer(s.gateway.err, Some(text))), replyLost := true)
  }

  ghost predicate SysRun(s: System, steps: seq<SysStep>)
    decreases |steps|
  {
    steps != [] ==> SysEnabled(s, steps[0]) && SysRun(SysApply(s, steps[0]), steps[1..])
  }

  ghost function SysAfter(s: System, steps: seq<SysStep>): System
    requires SysRun(s, steps)
    decreases |steps|
  {
    if steps == [] then s else SysAfter(SysApply(s, steps[0]), steps[1..])
  }

  // ---------------------------------------------------------------- invariant of the composition

  // The error the downstream part ended with, as it reaches the plugin.
  function Delivered(s: System): GoError {
    ErrorFromText(ErrorText(s.outcome))
  }

  predicate CommandInv(s: System) {
    && |s.host.waits| == (if s.waitSent then 1 else 0)
    && |s.host.completes| == (if s.completeSent then 1 else 0)
    && (s.completeSent ==> s.waitSent && s.host.waits[0].Answered? && s.host.waits[0].action.Continue?)
    && (!s.completeSent ==> s.host.completeLog == [])
    && (s.completeSent ==>
          if s.host.completes[0].Sending? then s.host.completes[0].err == Delivered(s) && s.host.completeLog == []
          else s.host.completeLog == [Delivered(s)])
  }

  predicate GatewayInv(s: System)
    requires CommandInv(s)
  {
    match s.gateway
    case Connected => !s.waitSent && !s.completeSent && s.flows == [] && !s.abandoned && !s.replyLost
    case AwaitWait => s.waitSent && !s.completeSent && s.flows == [] && !s.abandoned && !s.replyLost
    case Downstream(kind, info) =>
      && s.waitSent && !s.completeSent && s.flows == [] && !s.abandoned && !s.replyLost
      && s.host.waits[0] == Answered(Continue(kind, info))
    case Completing(err) =>
      && s.waitSent && !s.completeSent && !s.abandoned && !s.replyLost
      && s.host.waits[0].Answered? && s.host.waits[0].action.Continue?
      && err == s.outcome
    case AwaitReply(err) => s.completeSent && !s.abandoned && !s.replyLost && err == s.outcome
    case Over(result) =>
      !s.abandoned ==>
        && s.waitSent && s.host.waits[0].Answered?
        && (match s.host.waits[0].action
            case Handled(text) => !s.completeSent && result == ErrorFromText(text)
            case Continue(_, _) =>
              && s.completeSent
              && (!s.replyLost ==>
                    && s.host.completes[0].Replied?
                    && result == Prefer(s.outcome, ErrorFromText(ErrorText(s.host.completes[0].final)))))
  }

  predicate SysInv(s: System) {
    && Inv(s.host)
    && CommandInv(s)
    && GatewayInv(s)
    && |s.flows| <= 1
    && (s.flows != [] ==> s.host.actionLog == [Continue(s.flows[0].0, s.flows[0].1)])
  }

  // What a step of the plugin or of a running command leaves alone.
  predicate Frame(a: Session, b: Session) {
    && |b.waits| == |a.waits| && |b.completes| == |a.completes|
    && (forall w :: 0 <= w < |a.waits| && a.waits[w].Answered? ==> b.waits[w] == a.waits[w])
    && (forall k :: 0 <= k < |a.completes| && a.completes[k].Replied? ==> b.completes[k] == a.completes[k])
    && (a.actionLog != [] ==> b.actionLog == a.actionLog)
  }

  // The complete commands and the log of the values they sent move together.
  predicate SendFrame(a: Session, b: Session)
    requires |b.completes| == |a.completes|
  {
    || (b.completeLog == a.completeLog
        && forall k :: 0 <= k < |a.completes| ==>
             (b.completes[k].Sending? <==> a.completes[k].Sending?)
             && (a.completes[k].Sending? ==> b.completes[k] == a.completes[k]))
    || (exists k :: 0 <= k < |a.completes| && a.completes[k].Sending? && b.completes[k].AwaitFinal?
                    && b.completeLog == a.completeLog + [a.completes[k].err])
  }

  lemma StepFrame(s: Session, step: Step)
    requires Inv(s) && Enabled(s, step) && !step.StartWait? && !step.StartComplete?
    ensures Frame(s, Apply(s, step))
  {
    ActionLogOnlyGrows(s, step);
  }

  lemma StepSendFrame(s: Session, step: Step)
    requires Enabled(s, step) && !step.StartWait? && !step.StartComplete?
    ensures |Apply(s, step).completes| == |s.completes| && SendFrame(s, Apply(s, step))
  {
    if step.SendComplete? {
      assert s.completes[step.k].Sending? && Apply(s, step).completes[step.k].AwaitFinal?;
    }
  }

  lemma FrameKeepsSysInv(s: System, h: Session, budget: nat)
    requires SysInv(s) && Inv(h) && Frame(s.host, h) && SendFrame(s.host, h)
    ensures SysInv(s.(host := h, budget := budget))
  {
  }

  lemma HostStepKeepsSysInv(s: System, step: Step)
    requires SysInv(s) && SysEnabled(s, Host(step))
    ensures SysInv(SysApply(s, Host(step)))
  {
    StepKeepsInv(s.host, step);
    StepFrame(s.host, step);
    StepSendFrame(s.host, step);
    FrameKeepsSysInv(s, Apply(s.host, step), SysApply(s, Host(step)).budget);
  }

  lemma ActionLogOnlyGrows(s: Session, step: Step)
    requires Inv(s) && Enabled(s, step)
    ensures s.actionLog != [] ==> Apply(s, step).actionLog == s.actionLog
  {
    StepKeepsInv(s, step);
    assert |Apply(s, step).actionLog| <= 1;
  }

  lemma GatewayStepKeepsSysInv(s: System, st: SysStep)
    requires SysInv(s) && SysEnabled(s, st) && !st.Host?
    ensures SysInv(SysApply(s, st))
  {
    if st.SendWait? {
      StepKeepsInv(s.host, StartWait);
    } else if st.DeliverComplete? {
      StepKeepsInv(s.host, StartComplete(ErrorText(s.gateway.err)));
    }
  }

  lemma {:induction false} SysRunKeepsInv(s: System, steps: seq<SysStep>)
    requires SysInv(s) && SysRun(s, steps)
    ensures SysInv(SysAfter(s, steps))
    decreases |steps|
  {
    if steps != [] {
      match steps[0] {
        case Host(step) => HostStepKeepsSysInv(s, step);
        case _ => GatewayStepKeepsSysInv(s, steps[0]);
      }
      SysRunKeepsInv(SysApply(s, steps[0]), steps[1..]);
    }
  }
}
