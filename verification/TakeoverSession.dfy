// One takeover session inside the plugin host, as a labelled state machine.
//
// Every lock region and every channel operation of the source is one atomic step. The session is
// driven by three kinds of goroutines: the plugin handler, any number of continuation calls
// (Next/Core, from the handler or from any goroutine it leaked), and any number of control commands
// (takeover wait and complete) sent by arbitrary clients.
module TakeoverSession {
  import opened Common

  // ---------------------------------------------------------------- errors on the wire

  // errorString in the source: the text put into a message.
  function ErrorText(err: GoError): string {
    if err.Some? then err.value else ""
  }

  // The receiver rebuilds an error only from a non-empty text.
  function ErrorFromText(text: string): GoError {
    if text != "" then Some(text) else None
  }

  // An error survives the wire exactly when it is not an error with an empty text.
  lemma WireKeepsError(err: GoError)
    ensures ErrorFromText(ErrorText(err)) == err <==> err != Some("")
  {
    if err != Some("") && err.Some? {
      assert err.value != "";
    }
  }

  // ---------------------------------------------------------------- the one-shot continuation

  datatype FlowState = Available | Running | RunningAfterHandlerReturn | Used | Expired

  datatype ClaimResult = Claimed | AlreadyUsed | NoLongerAvailable

  // First lock region of continueWith.
  function ClaimFlow(flow: FlowState): (FlowState, ClaimResult) {
    match flow
    case Available => (Running, Claimed)
    case Expired => (Expired, NoLongerAvailable)
    case _ => (flow, AlreadyUsed)
  }

  datatype Settlement = Settlement(used: bool, running: bool)

  // Lock region of handlerReturned.
  function SettleFlow(flow: FlowState): (FlowState, Settlement) {
    match flow
    case Available => (Expired, Settlement(false, false))
    case Running => (RunningAfterHandlerReturn, Settlement(true, true))
    case RunningAfterHandlerReturn => (flow, Settlement(true, true))
    case Used => (flow, Settlement(true, false))
    case Expired => (flow, Settlement(false, false))
  }

  // Used exactly when it was claimed, running exactly while the claim lasts; asking again changes nothing.
  lemma SettleAgain(flow: FlowState)
    ensures var (after, told) := SettleFlow(flow);
            && SettleFlow(after) == (after, told)
            && (told.used <==> !flow.Available? && !flow.Expired?)
            && (told.running <==> flow.Running? || flow.RunningAfterHandlerReturn?)
            && (told.used || flow.Expired? || after.Expired?)
            && (after != flow <==> flow.Available? || flow.Running?)
  {
  }

  // The source's object: a mutex-guarded state. Each method is one lock region.
  class TakeoverFlow {
    var state: FlowState

    constructor ()
      ensures state == Available
    {
      state := Available;
    }

    method Claim() returns (result: ClaimResult)
      modifies this
      ensures (state, result) == ClaimFlow(old(state))
      ensures result == Claimed <==> old(state) == Available
      ensures result != Claimed ==> state == old(state)
    {
      match state {
        case Running => result := AlreadyUsed;
        case RunningAfterHandlerReturn => result := AlreadyUsed;
        case Used => result := AlreadyUsed;
        case Expired => result := NoLongerAvailable;
        case Available =>
          state := Running;
          result := Claimed;
      }
    }

    // Deferred lock region of continueWith.
    method Release()
      modifies this
      ensures state == Used
    {
      state := Used;
    }

    method HandlerReturned() returns (used: bool, running: bool)
      modifies this
      ensures (state, Settlement(used, running)) == SettleFlow(old(state))
      ensures state != Available && state != Running
      ensures used <==> old(state) != Available && old(state) != Expired
      ensures running <==> state == RunningAfterHandlerReturn
    {
      match state {
        case Available =>
          state := Expired;
          used, running := false, false;
        case Running =>
          state := RunningAfterHandlerReturn;
          used, running := true, true;
        case RunningAfterHandlerReturn => used, running := true, true;
        case Used => used, running := true, false;
        case Expired => used, running := false, false;
      }
    }
  }

  // ---------------------------------------------------------------- session state

  datatype Kind = Next | Core

  // Message on session.action. info stands for the source address and metadata that travel along.
  datatype Action = Handled(text: string) | Continue(kind: Kind, info: string)

  datatype CallPc =
    | Entered
    | Refused(reason: ClaimResult)
    | Claiming                    // flow claimed, nothing sent yet
    | AwaitComplete               // action sent, blocked on session.complete
    | Finishing(result: GoError)  // about to run the deferred lock region
    | Returned(result: GoError)

  datatype Call = Call(kind: Kind, hasStream: bool, info: string, inHandler: bool, pc: CallPc)

  datatype HandlerPc =
    | InHandler
    | Unwound(err: GoError)    // handler function returned or panicked
    | Settled(err: GoError)    // handlerReturned said "not used": must announce
    | Announced(err: GoError)  // only session.done is left to send
    | Finished(err: GoError)

  datatype WaitPc =
    | AwaitAction
    | AwaitDone(action: Action)
    | Deleting(action: Action)
    | Answered(action: Action)

  datatype CompletePc =
    | Sending(err: GoError)
    | AwaitFinal
    | Removing(final: GoError)
    | Replied(final: GoError)

  datatype Taker = ByWait(w: nat) | ByComplete(k: nat)

  datatype Session = Session(
    flow: FlowState,
    handler: HandlerPc,
    calls: seq<Call>,
    waits: seq<WaitPc>,
    completes: seq<CompletePc>,
    // the three channels, each of capacity 1
    action: seq<Action>,
    complete: seq<GoError>,
    done: seq<GoError>,
    // whether the session table still holds this session
    listed: bool,
    // history: everything ever sent, who claimed the flow, who received what
    actionLog: seq<Action>,
    completeLog: seq<GoError>,
    doneLog: seq<GoError>,
    claimant: Option<nat>,
    resumed: bool,
    actionTaker: Option<nat>,
    doneTaker: Option<Taker>)

  // A session as openTakeover publishes it.
  function Opened(): Session {
    Session(Available, InHandler, [], [], [], [], [], [], true, [], [], [], None, false, None, None)
  }

  const OUTLIVED_ERROR: string := "takeover continuation outlived its handler invocation"
  const NIL_STREAM_ERROR: string := "takeover replacement stream is nil"

  datatype Step =
    | Spawn(kind: Kind, hasStream: bool, info: string, inHandler: bool)
    | Enter(c: nat)
    | Act(c: nat, listenErr: GoError)
    | Resume(c: nat)
    | Finish(c: nat)
    | HandlerReturns(err: GoError)
    | Settle
    | SendHandled
    | SendDone
    | StartWait
    | RecvAction(w: nat)
    | WaitRecvDone(w: nat)
    | WaitDelete(w: nat)
    | StartComplete(text: string)
    | SendComplete(k: nat)
    | CompleteRecvDone(k: nat)
    | CompleteDelete(k: nat)

  predicate Ended(pc: CallPc) {
    pc.Returned? || pc.Refused?
  }

  // A call made on the handler's own goroutine that has not returned yet.
  predicate HandlerBusy(s: Session) {
    exists c :: 0 <= c < |s.calls| && s.calls[c].inHandler && !Ended(s.calls[c].pc)
  }

  predicate Enabled(s: Session, step: Step) {
    match step
    case Spawn(_, _, _, inHandler) => inHandler ==> s.handler.InHandler? && !HandlerBusy(s)
    case Enter(c) => c < |s.calls| && s.calls[c].pc.Entered?
    // A claimed call always ends in exactly one send on session.action, which needs room.
    case Act(c, _) => c < |s.calls| && s.calls[c].pc.Claiming? && |s.action| < 1
    case Resume(c) => c < |s.calls| && s.calls[c].pc.AwaitComplete? && |s.complete| > 0
    case Finish(c) => c < |s.calls| && s.calls[c].pc.Finishing?
    case HandlerReturns(_) => s.handler.InHandler? && !HandlerBusy(s)
    case Settle => s.handler.Unwound?
    case SendHandled => s.handler.Settled? && |s.action| < 1
    case SendDone => s.handler.Announced? && |s.done| < 1
    // Lookups that miss are answered "not found" and touch nothing.
    case StartWait => s.listed
    case RecvAction(w) => w < |s.waits| && s.waits[w].AwaitAction? && |s.action| > 0
    case WaitRecvDone(w) => w < |s.waits| && s.waits[w].AwaitDone? && |s.done| > 0
    case WaitDelete(w) => w < |s.waits| && s.waits[w].Deleting?
    case StartComplete(_) => s.listed
    case SendComplete(k) => k < |s.completes| && s.completes[k].Sending? && |s.complete| < 1
    case CompleteRecvDone(k) => k < |s.completes| && s.completes[k].AwaitFinal? && |s.done| > 0
    case CompleteDelete(k) => k < |s.completes| && s.completes[k].Removing?
  }

  function SetCall(s: Session, c: nat, pc: CallPc): Session
    requires c < |s.calls|
  {
    s.(calls := s.calls[c := s.calls[c].(pc := pc)])
  }

  function SendAction(s: Session, a: Action): Session {
    s.(action := s.action + [a], actionLog := s.actionLog + [a])
  }

  // A control command that found the session in the table.
  function AddWait(s: Session): Session {
    s.(waits := s.waits + [AwaitAction])
  }

  function AddComplete(s: Session, text: string): Session {
    s.(completes := s.completes + [Sending(ErrorFromText(text))])
  }

  function Apply(s: Session, step: Step): Session
    requires Enabled(s, step)
  {
    match step
    case Spawn(kind, hasStream, info, inHandler) =>
      s.(calls := s.calls + [Call(kind, hasStream, info, inHandler, Entered)])
    case Enter(c) =>
      var (flow, result) := ClaimFlow(s.flow);
      if result == Claimed then SetCall(s, c, Claiming).(flow := flow, claimant := Some(c))
      else SetCall(s, c, Refused(result)).(flow := flow)
    case Act(c, listenErr) =>
      var call := s.calls[c];
      if !call.hasStream then
        SendAction(SetCall(s, c, Finishing(Some(NIL_STREAM_ERROR))), Handled(NIL_STREAM_ERROR))
      else if listenErr.Some? then
        SendAction(SetCall(s, c, Finishing(listenErr)), Handled(ErrorText(listenErr)))
      else
        SendAction(SetCall(s, c, AwaitComplete), Continue(call.kind, call.info))
    case Resume(c) =>
      SetCall(s, c, Finishing(s.complete[0])).(complete := s.complete[1..], resumed := true)
    case Finish(c) => SetCall(s, c, Returned(s.calls[c].pc.result)).(flow := Used)
    case HandlerReturns(err) => s.(handler := Unwound(err))
    case Settle =>
      var (flow, verdict) := SettleFlow(s.flow);
      var err := s.handler.err;
      var finalErr := if verdict.running && err == None then Some(OUTLIVED_ERROR) else err;
      s.(flow := flow, handler := if verdict.used then Announced(finalErr) else Settled(finalErr))
    case SendHandled =>
      SendAction(s, Handled(ErrorText(s.handler.err))).(handler := Announced(s.handler.err))
    case SendDone =>
      s.(done := s.done + [s.handler.err], doneLog := s.doneLog + [s.handler.err],
         handler := Finished(s.handler.err))
    case StartWait => AddWait(s)
    case RecvAction(w) =>
      var a := s.action[0];
      s.(action := s.action[1..], actionTaker := Some(w),
         waits := s.waits[w := if a.Handled? then AwaitDone(a) else Answered(a)])
    case WaitRecvDone(w) =>
      s.(done := s.done[1..], doneTaker := Some(ByWait(w)), waits := s.waits[w := Deleting(s.waits[w].action)])
    case WaitDelete(w) => s.(listed := false, waits := s.waits[w := Answered(s.waits[w].action)])
    case StartComplete(text) => AddComplete(s, text)
    case SendComplete(k) =>
      var err := s.completes[k].err;
      s.(complete := s.complete + [err], completeLog := s.completeLog + [err],
         completes := s.completes[k := AwaitFinal])
    case CompleteRecvDone(k) =>
      s.(done := s.done[1..], doneTaker := Some(ByComplete(k)), completes := s.completes[k := Removing(s.done[0])])
    case CompleteDelete(k) =>
      s.(listed := false, completes := s.completes[k := Replied(s.completes[k].final)])
  }

  // ---------------------------------------------------------------- the inductive invariant

  predicate HoldsFlow(pc: CallPc) {
    pc.Claiming? || pc.AwaitComplete? || pc.Finishing? || pc.Returned?
  }

  // The flow state is a function of who claimed it and how far that call got.
  predicate FlowInv(s: Session) {
    && (s.claimant.None? ==> s.flow.Available? || s.flow.Expired?)
    && (s.claimant.Some? ==>
          && s.claimant.value < |s.calls|
          && HoldsFlow(s.calls[s.claimant.value].pc)
          && !s.flow.Available? && !s.flow.Expired?
          && (s.flow.Used? <==> s.calls[s.claimant.value].pc.Returned?))
    && (forall d :: 0 <= d < |s.calls| && s.claimant != Some(d) ==> !HoldsFlow(s.calls[d].pc))
  }

  predicate HandlerInv(s: Session) {
    match s.handler
    case InHandler => !s.flow.Expired? && !s.flow.RunningAfterHandlerReturn?
    case Unwound(_) => !s.flow.Expired? && !s.flow.RunningAfterHandlerReturn?
    case Settled(_) => s.flow.Expired?
    case _ => !s.flow.Available? && !s.flow.Running?
  }

  // What the claiming call has sent on session.action so far.
  function ClaimantSent(call: Call, resumed: bool): seq<Action> {
    match call.pc
    case AwaitComplete => [Continue(call.kind, call.info)]
    case Finishing(err) => if resumed then [Continue(call.kind, call.info)] else [Handled(ErrorText(err))]
    case Returned(err) => if resumed then [Continue(call.kind, call.info)] else [Handled(ErrorText(err))]
    case _ => []
  }

  // Everything ever sent on session.action is determined by the claimant or, without one, the handler.
  function ExpectedActions(s: Session): seq<Action>
    requires FlowInv(s)
  {
    if s.claimant.Some? then ClaimantSent(s.calls[s.claimant.value], s.resumed)
    else if s.flow.Expired? && (s.handler.Announced? || s.handler.Finished?) then
      [Handled(ErrorText(s.handler.err))]
    else []
  }

  predicate ActionInv(s: Session)
    requires FlowInv(s)
  {
    && s.actionLog == ExpectedActions(s)
    && s.action == (if s.actionTaker.None? then s.actionLog else [])
    && (s.actionTaker.Some? ==> s.actionTaker.value < |s.waits| && |s.actionLog| == 1)
    && (forall w :: 0 <= w < |s.waits| ==> (s.waits[w].AwaitAction? <==> s.actionTaker != Some(w)))
    && (s.actionTaker.Some? ==> s.waits[s.actionTaker.value].action == s.actionLog[0])
  }

  predicate CompleteInv(s: Session)
    requires FlowInv(s)
  {
    && |s.complete| <= 1
    && (s.resumed ==>
          && s.claimant.Some?
          && |s.completeLog| > 0
          && (s.calls[s.claimant.value].pc == Finishing(s.completeLog[0])
              || s.calls[s.claimant.value].pc == Returned(s.completeLog[0])))
    && s.complete == (if s.resumed then s.completeLog[1..] else s.completeLog)
    && (!s.resumed && s.claimant.Some? ==> (match s.calls[s.claimant.value].pc
                                             case Finishing(err) => err.Some?
                                             case Returned(err) => err.Some?
                                             case _ => true))
  }

  predicate DoneInv(s: Session) {
    && s.doneLog == (if s.handler.Finished? then [s.handler.err] else [])
    && s.done == (if s.doneTaker.None? then s.doneLog else [])
    && (s.doneTaker.Some? ==> |s.doneLog| == 1)
  }

  // The table entry disappears only through the one command that received session.done.
  predicate TableInv(s: Session) {
    && (!s.listed ==> s.doneTaker.Some?)
    && (forall w :: 0 <= w < |s.waits| ==>
          match s.waits[w]
          case AwaitAction => s.doneTaker != Some(ByWait(w))
          case AwaitDone(a) => a.Handled? && s.doneTaker != Some(ByWait(w))
          case Deleting(a) => a.Handled? && s.doneTaker == Some(ByWait(w)) && s.listed
          case Answered(a) => if a.Handled? then s.doneTaker == Some(ByWait(w)) && !s.listed
                              else s.doneTaker != Some(ByWait(w)))
    && (forall k :: 0 <= k < |s.completes| ==>
          match s.completes[k]
          case Removing(final) => s.doneTaker == Some(ByComplete(k)) && s.listed && s.doneLog == [final]
          case Replied(final) => s.doneTaker == Some(ByComplete(k)) && !s.listed && s.doneLog == [final]
          case _ => s.doneTaker != Some(ByComplete(k)))
    && (s.doneTaker.Some? ==>
          match s.doneTaker.value
          case ByWait(w) => w < |s.waits|
          case ByComplete(k) => k < |s.completes|)
  }

  predicate Inv(s: Session) {
    && FlowInv(s)
    && HandlerInv(s)
    && ActionInv(s)
    && CompleteInv(s)
    && DoneInv(s)
    && TableInv(s)
  }

  lemma InvOpened()
    ensures Inv(Opened())
  {
  }

  lemma SpawnKeepsInv(s: Session, kind: Kind, hasStream: bool, info: string, inHandler: bool)
    requires Inv(s) && Enabled(s, Spawn(kind, hasStream, info, inHandler))
    ensures Inv(Apply(s, Spawn(kind, hasStream, info, inHandler)))
  {
  }

  lemma ClaimKeepsInv(s: Session, c: nat)
    requires Inv(s) && Enabled(s, Enter(c)) && s.flow.Available?
    ensures Inv(Apply(s, Enter(c)))
  {
    assert Apply(s, Enter(c)) == SetCall(s, c, Claiming).(flow := Running, claimant := Some(c));
  }

  lemma RefusalKeepsInv(s: Session, c: nat)
    requires Inv(s) && Enabled(s, Enter(c)) && !s.flow.Available?
    ensures Inv(Apply(s, Enter(c)))
  {
    assert Apply(s, Enter(c)) == SetCall(s, c, Refused(ClaimFlow(s.flow).1));
  }

  lemma ActNoStreamKeepsInv(s: Session, c: nat, err: GoError)
    requires Inv(s) && Enabled(s, Act(c, err))
    requires !s.calls[c].hasStream
    ensures Inv(Apply(s, Act(c, err)))
  {
  }

  lemma ActNoListenerKeepsInv(s: Session, c: nat, err: GoError)
    requires Inv(s) && Enabled(s, Act(c, err))
    requires s.calls[c].hasStream && err.Some?
    ensures Inv(Apply(s, Act(c, err)))
  {
  }

  lemma ActSendKeepsInv(s: Session, c: nat, err: GoError)
    requires Inv(s) && Enabled(s, Act(c, err))
    requires s.calls[c].hasStream && err.None?
    ensures Inv(Apply(s, Act(c, err)))
  {
  }

  lemma ResumeKeepsInv(s: Session, c: nat)
    requires Inv(s) && Enabled(s, Resume(c))
    ensures Inv(Apply(s, Resume(c)))
  {
  }

  lemma FinishKeepsInv(s: Session, c: nat)
    requires Inv(s) && Enabled(s, Finish(c))
    ensures Inv(Apply(s, Finish(c)))
  {
  }

  lemma HandlerReturnsKeepsInv(s: Session, err: GoError)
    requires Inv(s) && Enabled(s, HandlerReturns(err))
    ensures Inv(Apply(s, HandlerReturns(err)))
  {
  }

  lemma SettleKeepsInv(s: Session)
    requires Inv(s) && Enabled(s, Settle)
    ensures Inv(Apply(s, Settle))
  {
  }

  lemma SendHandledKeepsInv(s: Session)
    requires Inv(s) && Enabled(s, SendHandled)
    ensures Inv(Apply(s, SendHandled))
  {
  }

  lemma SendDoneKeepsInv(s: Session)
    requires Inv(s) && Enabled(s, SendDone)
    ensures Inv(Apply(s, SendDone))
  {
  }

  lemma StartWaitKeepsInv(s: Session)
    requires Inv(s) && Enabled(s, StartWait)
    ensures Inv(Apply(s, StartWait))
  {
  }

  lemma RecvActionKeepsInv(s: Session, w: nat)
    requires Inv(s) && Enabled(s, RecvAction(w))
    ensures Inv(Apply(s, RecvAction(w)))
  {
  }

  lemma WaitRecvDoneKeepsInv(s: Session, w: nat)
    requires Inv(s) && Enabled(s, WaitRecvDone(w))
    ensures Inv(Apply(s, WaitRecvDone(w)))
  {
  }

  lemma WaitDeleteKeepsInv(s: Session, w: nat)
    requires Inv(s) && Enabled(s, WaitDelete(w))
    ensures Inv(Apply(s, WaitDelete(w)))
  {
  }

  lemma StartCompleteKeepsInv(s: Session, text: string)
    requires Inv(s) && Enabled(s, StartComplete(text))
    ensures Inv(Apply(s, StartComplete(text)))
  {
  }

  lemma SendCompleteKeepsInv(s: Session, k: nat)
    requires Inv(s) && Enabled(s, SendComplete(k))
    ensures Inv(Apply(s, SendComplete(k)))
  {
  }

  lemma CompleteRecvDoneKeepsInv(s: Session, k: nat)
    requires Inv(s) && Enabled(s, CompleteRecvDone(k))
    ensures Inv(Apply(s, CompleteRecvDone(k)))
  {
  }

  lemma CompleteDeleteKeepsInv(s: Session, k: nat)
    requires Inv(s) && Enabled(s, CompleteDelete(k))
    ensures Inv(Apply(s, CompleteDelete(k)))
  {
  }

  // Every step of every goroutine keeps the invariant.
  lemma StepKeepsInv(s: Session, step: Step)
    requires Inv(s) && Enabled(s, step)
    ensures Inv(Apply(s, step))
  {
    match step
    case Spawn(kind, hasStream, info, inHandler) => SpawnKeepsInv(s, kind, hasStream, info, inHandler);
    case Enter(c) =>
      if s.flow.Available? {
        ClaimKeepsInv(s, c);
      } else {
        RefusalKeepsInv(s, c);
      }
    case Act(c, err) =>
      if !s.calls[c].hasStream {
        ActNoStreamKeepsInv(s, c, err);
      } else if err.Some? {
        ActNoListenerKeepsInv(s, c, err);
      } else {
        ActSendKeepsInv(s, c, err);
      }
    case Resume(c) => ResumeKeepsInv(s, c);
    case Finish(c) => FinishKeepsInv(s, c);
    case HandlerReturns(err) => HandlerReturnsKeepsInv(s, err);
    case Settle => SettleKeepsInv(s);
    case SendHandled => SendHandledKeepsInv(s);
    case SendDone => SendDoneKeepsInv(s);
    case StartWait => StartWaitKeepsInv(s);
    case RecvAction(w) => RecvActionKeepsInv(s, w);
    case WaitRecvDone(w) => WaitRecvDoneKeepsInv(s, w);
    case WaitDelete(w) => WaitDeleteKeepsInv(s, w);
    case StartComplete(text) => StartCompleteKeepsInv(s, text);
    case SendComplete(k) => SendCompleteKeepsInv(s, k);
    case CompleteRecvDone(k) => CompleteRecvDoneKeepsInv(s, k);
    case CompleteDelete(k) => CompleteDeleteKeepsInv(s, k);
  }

  // ---------------------------------------------------------------- runs

  ghost predicate RunFrom(s: Session, steps: seq<Step>)
    decreases |steps|
  {
    steps != [] ==> Enabled(s, steps[0]) && RunFrom(Apply(s, steps[0]), steps[1..])
  }

  ghost function After(s: Session, steps: seq<Step>): Session
    requires RunFrom(s, steps)
    decreases |steps|
  {
    if steps == [] then s else After(Apply(s, steps[0]), steps[1..])
  }

  lemma {:induction false} RunKeepsInv(s: Session, steps: seq<Step>)
    requires Inv(s) && RunFrom(s, steps)
    ensures Inv(After(s, steps))
    decreases |steps|
  {
    if steps != [] {
      StepKeepsInv(s, steps[0]);
      RunKeepsInv(Apply(s, steps[0]), steps[1..]);
    }
  }

  // The goroutines that may send: at each of these points the channel is empty, so no send blocks.
  predicate SendsHaveRoom(s: Session) {
    && (forall c :: 0 <= c < |s.calls| && s.calls[c].pc.Claiming? ==> s.action == [])
    && (s.handler.Settled? ==> s.action == [])
    && (s.handler.Announced? ==> s.done == [])
  }

  // No continuation call that holds the flow is still under way.
  predicate NoRunningContinuation(s: Session) {
    forall c :: 0 <= c < |s.calls| && HoldsFlow(s.calls[c].pc) ==> s.calls[c].pc.Returned?
  }

  // In every interleaving at most one value is sent on action and on done, no such send ever blocks,
  // and exactly one of each has been sent once the handler and any running continuation have ended.
  lemma ExactlyOnce(steps: seq<Step>)
    requires RunFrom(Opened(), steps)
    ensures var t := After(Opened(), steps);
            && |t.actionLog| <= 1 && |t.doneLog| <= 1
            && SendsHaveRoom(t)
            && (t.handler.Finished? && NoRunningContinuation(t) ==> |t.actionLog| == 1 && |t.doneLog| == 1)
  {
    InvOpened();
    RunKeepsInv(Opened(), steps);
  }

  // At most one call ever claims the flow, and handlerReturned reports exactly whether one did and
  // whether it is still running.
  lemma OneShot(steps: seq<Step>, c: nat, d: nat)
    requires RunFrom(Opened(), steps)
    ensures var t := After(Opened(), steps);
            && (c < |t.calls| && d < |t.calls| && HoldsFlow(t.calls[c].pc) && HoldsFlow(t.calls[d].pc) ==> c == d)
            && (t.handler.Unwound? ==>
                  var verdict := SettleFlow(t.flow).1;
                  && (verdict.used <==> exists e :: 0 <= e < |t.calls| && HoldsFlow(t.calls[e].pc))
                  && (verdict.running <==> !NoRunningContinuation(t)))
  {
    InvOpened();
    RunKeepsInv(Opened(), steps);
  }

  // No single step takes the flow back from its claimant or revives an expired flow.
  lemma StepKeepsClaim(s: Session, step: Step)
    requires FlowInv(s) && Enabled(s, step)
    ensures s.claimant.Some? ==> Apply(s, step).claimant == s.claimant
    ensures s.flow.Expired? ==> Apply(s, step).flow.Expired?
  {
    match step
    case Settle =>
    case Enter(c) =>
    case Finish(c) => assert HoldsFlow(s.calls[c].pc);
    case _ =>
  }

  // Once the handler returned without a claim, no later call of any goroutine claims the flow.
  lemma {:induction false} ExpiredStaysExpired(s: Session, steps: seq<Step>)
    requires Inv(s) && s.flow.Expired? && RunFrom(s, steps)
    ensures After(s, steps).flow.Expired?
    ensures forall c :: 0 <= c < |After(s, steps).calls| ==> !HoldsFlow(After(s, steps).calls[c].pc)
    decreases |steps|
  {
    RunKeepsInv(s, steps);
    if steps != [] {
      StepKeepsInv(s, steps[0]);
      StepKeepsClaim(s, steps[0]);
      ghost var next := Apply(s, steps[0]);
      ExpiredStaysExpired(next, steps[1..]);
    }
  }

  // The call that claimed the flow keeps it: nobody claims after it.
  lemma {:induction false} ClaimantStays(s: Session, steps: seq<Step>)
    requires Inv(s) && s.claimant.Some? && RunFrom(s, steps)
    ensures After(s, steps).claimant == s.claimant
    decreases |steps|
  {
    if steps != [] {
      StepKeepsInv(s, steps[0]);
      StepKeepsClaim(s, steps[0]);
      ghost var next := Apply(s, steps[0]);
      ClaimantStays(next, steps[1..]);
    }
  }

  // What the plugin sees: the claiming call returns the error that the first complete command carried,
  // after announcing its own kind and connection state, or fails locally with the error it announced.
  // What the client sees: a complete command answers with the handler's final error.
  lemma MessagesMatch(steps: seq<Step>, c: nat, k: nat)
    requires RunFrom(Opened(), steps)
    ensures var t := After(Opened(), steps);
            && (c < |t.calls| && t.calls[c].pc.Returned? ==>
                  var call := t.calls[c];
                  || (t.actionLog == [Continue(call.kind, call.info)]
                      && |t.completeLog| > 0 && call.pc.result == t.completeLog[0])
                  || (t.actionLog == [Handled(ErrorText(call.pc.result))] && call.pc.result.Some?))
            && (k < |t.completes| && t.completes[k].Replied? ==> t.handler == Finished(t.completes[k].final))
  {
    InvOpened();
    RunKeepsInv(Opened(), steps);
  }

  // The session leaves the table only after its handler has finished, by the one command that
  // received session.done.
  lemma DelistedAfterHandler(steps: seq<Step>)
    requires RunFrom(Opened(), steps)
    ensures var t := After(Opened(), steps);
            !t.listed ==>
              && t.handler.Finished?
              && t.doneTaker.Some?
              && (t.doneTaker.value.ByWait? ==> |t.actionLog| == 1 && t.actionLog[0].Handled?)
  {
    InvOpened();
    RunKeepsInv(Opened(), steps);
  }
}
