// What a run of one takeover session does, read off the list of its steps: where each error comes from.
module TakeoverHistory {
  import opened Common
  import opened TakeoverSession

  lemma {:induction false} RunSnoc(s: Session, steps: seq<Step>)
    requires RunFrom(s, steps) && steps != []
    ensures var before, last := steps[..|steps| - 1], steps[|steps| - 1];
            && RunFrom(s, before) && Enabled(After(s, before), last)
            && After(s, steps) == Apply(After(s, before), last)
    decreases |steps|
  {
    if |steps| > 1 {
      assert steps[1..][..|steps| - 2] == steps[..|steps| - 1][1..];
      RunSnoc(Apply(s, steps[0]), steps[1..]);
    }
  }

  lemma {:induction false} RunPrefix(s: Session, steps: seq<Step>, n: nat)
    requires RunFrom(s, steps) && n <= |steps|
    ensures RunFrom(s, steps[..n]) && RunFrom(After(s, steps[..n]), steps[n..])
    ensures After(s, steps) == After(After(s, steps[..n]), steps[n..])
    decreases |steps|
  {
    if n > 0 {
      assert steps[..n][1..] == steps[1..][..n - 1] && steps[1..][n - 1..] == steps[n..];
      RunPrefix(Apply(s, steps[0]), steps[1..], n - 1);
    } else {
      assert steps[..0] == [] && steps[0..] == steps;
    }
  }

  // ---------------------------------------------------------------- the handler's error

  // The error of a handler that returned err when the session stood at s: a clean return while a claimed
  // call is still under way is an error of its own.
  ghost function FinalError(err: GoError, s: Session): GoError {
    if err == None && !NoRunningContinuation(s)
    then Some("takeover continuation outlived its handler invocation")
    else err
  }

  // Step i of the run is the only return of the handler, and step j, after it, its only settlement.
  ghost predicate ReturnedAt(steps: seq<Step>, i: nat) {
    i < |steps| && forall k :: 0 <= k < |steps| ==> (steps[k].HandlerReturns? <==> k == i)
  }

  ghost predicate SettledAt(steps: seq<Step>, j: nat) {
    j < |steps| && forall k :: 0 <= k < |steps| ==> (steps[k].Settle? <==> k == j)
  }

  ghost predicate NotSettled(steps: seq<Step>) {
    forall k :: 0 <= k < |steps| ==> !steps[k].Settle?
  }

  ghost predicate NotReturned(steps: seq<Step>) {
    forall k :: 0 <= k < |steps| ==> !steps[k].HandlerReturns?
  }

  ghost predicate HandlerFollows(steps: seq<Step>, h: HandlerPc, i: nat, j: nat) {
    match h
    case InHandler => NotReturned(steps) && NotSettled(steps)
    case Unwound(err) => ReturnedAt(steps, i) && NotSettled(steps) && err == steps[i].err
    case _ =>
      && ReturnedAt(steps, i) && SettledAt(steps, j) && i < j
      && RunFrom(Opened(), steps[..j])
      && h.err == FinalError(steps[i].err, After(Opened(), steps[..j]))
  }

  // The settlement looks at the flow; that agrees with the calls.
  lemma SettleIsFinal(s: Session)
    requires Inv(s) && s.handler.Unwound?
    ensures var h := Apply(s, Settle).handler;
            (h.Settled? || h.Announced?) && h.err == FinalError(s.handler.err, s)
  {
    if s.flow.Running? {
      assert HoldsFlow(s.calls[s.claimant.value].pc) && !s.calls[s.claimant.value].pc.Returned?;
    }
  }

  lemma OtherStepsKeepHandler(s: Session, step: Step)
    requires Enabled(s, step) && !step.HandlerReturns? && !step.Settle?
    ensures var h, after := s.handler, Apply(s, step).handler;
            after == h || (!h.InHandler? && !h.Unwound? && !after.InHandler? && !after.Unwound? && after.err == h.err)
  {
  }

  // Over every run: the handler's error at the end is the one it returned, except that a clean return is
  // replaced exactly when a claimed call was still under way at the settlement.
  lemma {:induction false} HandlerErrorIsReturned(steps: seq<Step>) returns (i: nat, j: nat)
    requires RunFrom(Opened(), steps)
    ensures HandlerFollows(steps, After(Opened(), steps).handler, i, j)
    decreases |steps|
  {
    i, j := 0, 0;
    if steps != [] {
      var n := |steps| - 1;
      var before, last := steps[..n], steps[n];
      RunSnoc(Opened(), steps);
      i, j := HandlerErrorIsReturned(before);
      var s := After(Opened(), before);
      HandlerFollowsStep(steps, s, i, j);
      if last.HandlerReturns? {
        i := n;
      } else if last.Settle? {
        j := n;
      }
    }
  }

  lemma ReturnIsKept(s: Session, step: Step)
    requires Enabled(s, step)
    ensures step.HandlerReturns? ==> s.handler.InHandler? && Apply(s, step).handler == Unwound(step.err)
    ensures step.Settle? ==> s.handler.Unwound?
  {
  }

  lemma HandlerFollowsStep(steps: seq<Step>, s: Session, i: nat, j: nat)
    requires steps != [] && RunFrom(Opened(), steps[..|steps| - 1]) && s == After(Opened(), steps[..|steps| - 1])
    requires Enabled(s, steps[|steps| - 1])
    requires HandlerFollows(steps[..|steps| - 1], s.handler, i, j)
    ensures var n := |steps| - 1;
            HandlerFollows(steps, Apply(s, steps[n]).handler,
                           if steps[n].HandlerReturns? then n else i, if steps[n].Settle? then n else j)
  {
    hide Apply, Enabled, Inv, FinalError, RunFrom, After, Opened;
    var n := |steps| - 1;
    var before, last := steps[..n], steps[n];
    assert forall k :: 0 <= k < n ==> steps[k] == before[k];
    ReturnIsKept(s, last);
    if last.Settle? {
      InvOpened();
      RunKeepsInv(Opened(), before);
      SettleIsFinal(s);
      assert steps[..n] == before;
    } else if !last.HandlerReturns? {
      OtherStepsKeepHandler(s, last);
      if !s.handler.InHandler? && !s.handler.Unwound? {
        assert before[..j] == steps[..j];
      }
    }
  }

  // ---------------------------------------------------------------- the calls' errors

  // The send of call c is step k of the run.
  ghost predicate ActedAt(steps: seq<Step>, c: nat, k: nat) {
    k < |steps| && forall l :: 0 <= l < |steps| ==> (steps[l].Act? && steps[l].c == c <==> l == k)
  }

  ghost predicate NeverActed(steps: seq<Step>, c: nat) {
    forall l :: 0 <= l < |steps| ==> !(steps[l].Act? && steps[l].c == c)
  }

  // Why a claimed call fails before it continues: without a stream, or with the error of its listener.
  function LocalFailure(call: Call, listenErr: GoError): GoError {
    if !call.hasStream then Some("takeover replacement stream is nil") else listenErr
  }

  // A call that has acted waits for, or has taken, the complete command exactly when nothing failed
  // locally; otherwise its result is that failure.
  predicate CallOutcome(s: Session, c: nat, listenErr: GoError)
    requires c < |s.calls|
  {
    var call := s.calls[c];
    var failure := LocalFailure(call, listenErr);
    match call.pc
    case AwaitComplete => failure == None
    case Finishing(result) => if s.resumed then failure == None else failure.Some? && result == failure
    case Returned(result) => if s.resumed then failure == None else failure.Some? && result == failure
    case _ => false
  }

  ghost predicate CallFollows(steps: seq<Step>, s: Session, c: nat, k: nat) {
    c < |s.calls| ==>
      if s.claimant == Some(c) && !s.calls[c].pc.Claiming?
      then ActedAt(steps, c, k) && CallOutcome(s, c, steps[k].listenErr)
      else NeverActed(steps, c)
  }

  lemma ActDecides(s: Session, c: nat, listenErr: GoError)
    requires Inv(s) && Enabled(s, Act(c, listenErr))
    ensures s.claimant == Some(c) && s.calls[c].pc.Claiming?
    ensures var after := Apply(s, Act(c, listenErr));
            c < |after.calls| && after.claimant == Some(c) && CallOutcome(after, c, listenErr)
  {
    assert HoldsFlow(s.calls[c].pc);
  }

  // A claimant that has sent: what it is and may become.
  predicate Sent(s: Session, c: nat) {
    c < |s.calls| && s.claimant == Some(c) && !s.calls[c].pc.Claiming?
  }

  lemma OutcomeStays(s: Session, step: Step, c: nat)
    requires FlowInv(s) && Enabled(s, step) && Sent(s, c)
    requires (s.resumed ==> !s.calls[c].pc.AwaitComplete?)
    ensures Sent(Apply(s, step), c)
    ensures forall e :: CallOutcome(s, c, e) ==> CallOutcome(Apply(s, step), c, e)
  {
    assert HoldsFlow(s.calls[c].pc);
    match step
    case Act(d, _) => assert HoldsFlow(s.calls[d].pc);
    case Resume(d) => assert HoldsFlow(s.calls[d].pc);
    case Finish(d) => assert HoldsFlow(s.calls[d].pc);
    case Enter(d) =>
    case _ =>
  }

  lemma OnlyActSends(s: Session, step: Step, c: nat)
    requires FlowInv(s) && Enabled(s, step) && c < |s.calls| && !Sent(s, c) && !(step.Act? && step.c == c)
    ensures !Sent(Apply(s, step), c)
  {
    match step
    case Act(d, _) => assert HoldsFlow(s.calls[d].pc);
    case Resume(d) => assert HoldsFlow(s.calls[d].pc);
    case Finish(d) => assert HoldsFlow(s.calls[d].pc);
    case Enter(d) =>
    case _ =>
  }

  lemma CallsGrow(s: Session, step: Step)
    requires Enabled(s, step)
    ensures |s.calls| <= |Apply(s, step).calls| && (step.Act? ==> step.c < |s.calls|)
    ensures |Apply(s, step).calls| > |s.calls| ==> step.Spawn? && Apply(s, step).claimant == s.claimant
  {
  }

  // Over every run: what a claimed call announces and returns is decided by its stream and the error of
  // its listener, given at the one step in which it sends.
  lemma {:induction false} CallErrorIsItsOwn(steps: seq<Step>, c: nat) returns (k: nat)
    requires RunFrom(Opened(), steps)
    ensures CallFollows(steps, After(Opened(), steps), c, k)
    decreases |steps|
  {
    hide CallOutcome, Inv, Apply, Enabled;
    k := 0;
    if steps != [] {
      var n := |steps| - 1;
      var before := steps[..n];
      RunSnoc(Opened(), steps);
      k := CallErrorIsItsOwn(before, c);
      CallFollowsStep(steps, After(Opened(), before), c, k);
      if steps[n].Act? && steps[n].c == c {
        k := n;
      }
    }
  }

  lemma CallFollowsStep(steps: seq<Step>, s: Session, c: nat, k: nat)
    requires steps != [] && RunFrom(Opened(), steps[..|steps| - 1]) && s == After(Opened(), steps[..|steps| - 1])
    requires Enabled(s, steps[|steps| - 1]) && CallFollows(steps[..|steps| - 1], s, c, k)
    ensures var n := |steps| - 1;
            CallFollows(steps, Apply(s, steps[n]), c, if steps[n].Act? && steps[n].c == c then n else k)
  {
    hide CallOutcome, Apply, Enabled, RunFrom, After, Opened, HandlerInv, ActionInv, DoneInv, TableInv;
    var n := |steps| - 1;
    var before, last := steps[..n], steps[n];
    assert forall l :: 0 <= l < n ==> steps[l] == before[l];
    InvOpened();
    RunKeepsInv(Opened(), before);
    CallsGrow(s, last);
    if c >= |s.calls| {
      CallsAreNew(before, c);
      assert !Sent(s, c);
    } else if last.Act? && last.c == c {
      ActDecides(s, c, last.listenErr);
    } else if Sent(s, c) {
      OutcomeStays(s, last, c);
    } else {
      OnlyActSends(s, last, c);
    }
  }

  // A call that does not exist yet has not acted.
  lemma {:induction false} CallsAreNew(steps: seq<Step>, c: nat)
    requires RunFrom(Opened(), steps) && c >= |After(Opened(), steps).calls|
    ensures NeverActed(steps, c)
    decreases |steps|
  {
    hide Apply, Enabled, Opened;
    if steps != [] {
      var before := steps[..|steps| - 1];
      RunSnoc(Opened(), steps);
      assert forall l :: 0 <= l < |before| ==> steps[l] == before[l];
      CallsGrow(After(Opened(), before), steps[|steps| - 1]);
      CallsAreNew(before, c);
    }
  }

  // ---------------------------------------------------------------- what everybody is told

  // A refused call is told that the flow is used exactly when some call claimed it, and that it is no
  // longer available only after the handler settled without a claim.
  predicate RefusedRight(s: Session, c: nat) {
    c < |s.calls| && s.calls[c].pc.Refused? ==>
      match s.calls[c].pc.reason
      case AlreadyUsed => s.claimant.Some?
      case NoLongerAvailable => s.claimant.None? && s.flow.Expired?
      case Claimed => false
  }

  lemma EnterRefuses(s: Session, d: nat, c: nat)
    requires FlowInv(s) && Enabled(s, Enter(d)) && RefusedRight(s, c)
    ensures RefusedRight(Apply(s, Enter(d)), c)
  {
  }

  lemma OnlyEnterRefuses(s: Session, step: Step, c: nat)
    requires Enabled(s, step) && !step.Enter?
    ensures Apply(s, step).claimant == s.claimant
    ensures var after := Apply(s, step).calls;
            c < |after| && after[c].pc.Refused? ==> c < |s.calls| && s.calls[c].pc == after[c].pc
  {
    hide HandlerBusy, SettleFlow, ErrorText, ErrorFromText, Ended;
    match step
    case Spawn(_, _, _, _) =>
    case Act(d, _) =>
    case _ =>
  }

  lemma RefusalStep(s: Session, step: Step, c: nat)
    requires FlowInv(s) && Enabled(s, step) && RefusedRight(s, c)
    ensures RefusedRight(Apply(s, step), c)
  {
    hide Apply, Enabled, FlowInv;
    if step.Enter? {
      EnterRefuses(s, step.c, c);
    } else {
      StepKeepsClaim(s, step);
      OnlyEnterRefuses(s, step, c);
    }
  }

  lemma {:induction false} RefusalIsExact(steps: seq<Step>, c: nat)
    requires RunFrom(Opened(), steps)
    ensures var t := After(Opened(), steps);
            && RefusedRight(t, c)
            && (c < |t.calls| && t.calls[c].pc == Refused(NoLongerAvailable) ==>
                  !t.handler.InHandler? && !t.handler.Unwound?)
    decreases |steps|
  {
    InvOpened();
    RunKeepsInv(Opened(), steps);
    if steps != [] {
      var before := steps[..|steps| - 1];
      RunSnoc(Opened(), steps);
      RunKeepsInv(Opened(), before);
      RefusalIsExact(before, c);
      RefusalStep(After(Opened(), before), steps[|steps| - 1], c);
    }
  }

  // Without a claim the client is told the error that the handler returned, and that is the final one.
  lemma UnclaimedAnnouncesReturn(steps: seq<Step>) returns (i: nat)
    requires RunFrom(Opened(), steps)
    requires After(Opened(), steps).handler.Finished? && After(Opened(), steps).claimant.None?
    ensures var t := After(Opened(), steps);
            && ReturnedAt(steps, i)
            && t.handler == Finished(steps[i].err)
            && t.actionLog == [Handled(ErrorText(steps[i].err))]
  {
    hide Apply, Enabled;
    var j: nat;
    i, j := HandlerErrorIsReturned(steps);
    InvOpened();
    RunKeepsInv(Opened(), steps);
    RunPrefix(Opened(), steps, j);
    RunKeepsInv(Opened(), steps[..j]);
    var s := After(Opened(), steps[..j]);
    if s.claimant.Some? {
      ClaimantStays(s, steps[j..]);
    }
  }

  // A wait command is answered with the action that was sent, and with an ending only after the handler
  // finished; a complete command with the handler's error, as the run decides it.
  lemma CommandsAreAnswered(steps: seq<Step>, w: nat, k: nat) returns (i: nat, j: nat)
    requires RunFrom(Opened(), steps)
    ensures var t := After(Opened(), steps);
            && (w < |t.waits| && t.waits[w].Answered? ==>
                  t.actionLog == [t.waits[w].action]
                  && (t.waits[w].action.Handled? ==> t.handler.Finished? && !t.listed))
            && (k < |t.completes| && t.completes[k].Replied? ==>
                  && ReturnedAt(steps, i) && SettledAt(steps, j) && RunFrom(Opened(), steps[..j])
                  && t.completes[k].final == FinalError(steps[i].err, After(Opened(), steps[..j])))
  {
    hide Apply, Enabled, FinalError;
    i, j := HandlerErrorIsReturned(steps);
    InvOpened();
    RunKeepsInv(Opened(), steps);
  }
}
