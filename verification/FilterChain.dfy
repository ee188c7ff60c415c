// The handshake filter chain: middleware in priority order, each with its own failure policy.
module FilterChain {
  import opened Common

  datatype Request = Request(serverHost: string, rawServerHost: string, sourceAddr: string)

  datatype Decision = Decision(allow: bool, reject: bool, reason: string, rewriteHost: string)

  datatype Answer = Answered(decision: Decision) | AnswerError(text: string)

  // A middleware handler; its plugin code is an arbitrary function of the request. An answer error
  // includes panics and timeouts.
  datatype Middleware = Middleware(
    pluginId: string,
    failClosed: bool,
    handlesHandshake: bool,
    accept: Request -> Acceptance,
    answer: Request -> Answer)

  datatype FilterResult = FilterResult(allowed: bool, pluginId: string, reason: string, rewriteHost: string)

  datatype Outcome = Outcome(result: FilterResult, err: GoError)

  const INITIAL: FilterResult := FilterResult(true, "", "", "")

  // ---------------------------------------------------------------- recursive specification

  // What one handler does to the chain when it sees this request.
  datatype Effect = Skip | Stop(outcome: Outcome, blocks: bool) | Rewrite(host: string)

  function Refusal(h: Middleware, reason: string): FilterResult {
    FilterResult(false, h.pluginId, reason, "")
  }

  function OnError(h: Middleware, text: string): Effect {
    if h.failClosed then Stop(Outcome(Refusal(h, text), Some(text)), false) else Skip
  }

  function EffectOf(h: Middleware, req: Request): Effect {
    if !h.handlesHandshake then Skip
    else
      match h.accept(req)
      case AcceptError(text) => OnError(h, text)
      case Declines => Skip
      case Accepts =>
        match h.answer(req)
        case AnswerError(text) => OnError(h, text)
        case Answered(d) =>
          if d.reject || !d.allow then Stop(Outcome(Refusal(h, d.reason), None), true)
          else if d.rewriteHost != "" then Rewrite(d.rewriteHost)
          else Skip
  }

  function Chain(handlers: seq<Middleware>, req: Request, result: FilterResult): Outcome {
    if handlers == [] then Outcome(result, None)
    else
      match EffectOf(handlers[0], req)
      case Skip => Chain(handlers[1..], req, result)
      case Stop(outcome, _) => outcome
      case Rewrite(host) =>
        Chain(handlers[1..], req.(serverHost := host),
              result.(rewriteHost := host, pluginId := handlers[0].pluginId))
  }

  // Index of the handler that stops the chain, or the length of the list.
  function StopIndex(handlers: seq<Middleware>, req: Request): (i: nat)
    ensures i <= |handlers|
  {
    if handlers == [] then 0
    else
      match EffectOf(handlers[0], req)
      case Skip => 1 + StopIndex(handlers[1..], req)
      case Stop(_, _) => 0
      case Rewrite(host) => 1 + StopIndex(handlers[1..], req.(serverHost := host))
  }

  // The request as the handler at index i sees it.
  function RequestAt(handlers: seq<Middleware>, req: Request, i: nat): Request
    requires i <= |handlers|
  {
    if i == 0 then req
    else
      match EffectOf(handlers[0], req)
      case Rewrite(host) => RequestAt(handlers[1..], req.(serverHost := host), i - 1)
      case _ => RequestAt(handlers[1..], req, i - 1)
  }

  // The hosts written by the first i handlers, in order.
  function Rewrites(handlers: seq<Middleware>, req: Request, i: nat): seq<string>
    requires i <= |handlers|
  {
    if i == 0 then []
    else
      match EffectOf(handlers[0], req)
      case Rewrite(host) => [host] + Rewrites(handlers[1..], req.(serverHost := host), i - 1)
      case _ => Rewrites(handlers[1..], req, i - 1)
  }

  // ---------------------------------------------------------------- the loop

  class MiddlewareChain {
    const handlers: seq<Middleware>
    var blocked: seq<nat>   // per handler: requests it rejected

    constructor (handlers: seq<Middleware>)
      ensures this.handlers == handlers && |blocked| == |handlers|
    {
      this.handlers := handlers;
      blocked := seq(|handlers|, _ => 0);
    }

    // FilterHandshake. Only a rejecting decision counts as blocked, not a fail-closed error.
    method FilterHandshake(request: Request) returns (outcome: Outcome)
      requires |blocked| == |handlers|
      modifies this
      ensures outcome == Chain(handlers, request, INITIAL)
      ensures var i := StopIndex(handlers, request);
              blocked == if i < |handlers| && EffectOf(handlers[i], RequestAt(handlers, request, i)).Stop?
                            && EffectOf(handlers[i], RequestAt(handlers, request, i)).blocks
                         then old(blocked)[i := old(blocked)[i] + 1] else old(blocked)
    {
      var req, result := request, INITIAL;
      assert handlers[0..] == handlers;
      var i := 0;
      while i < |handlers|
        invariant 0 <= i <= |handlers| && blocked == old(blocked)
        invariant Chain(handlers, request, INITIAL) == Chain(handlers[i..], req, result)
        invariant StopIndex(handlers, request) == i + StopIndex(handlers[i..], req)
        invariant RequestAt(handlers, request, i) == req
      {
        var h := handlers[i];
        assert handlers[i..][1..] == handlers[i + 1..];
        RequestStep(handlers, request, i);
        i := i + 1;
        if !h.handlesHandshake {
          continue;
        }
        var acceptance := h.accept(req);
        if acceptance.AcceptError? {
          if h.failClosed {
            return Outcome(Refusal(h, acceptance.text), Some(acceptance.text));
          }
          continue;
        }
        if acceptance.Declines? {
          continue;
        }
        var answer := h.answer(req);
        if answer.AnswerError? {
          if h.failClosed {
            return Outcome(Refusal(h, answer.text), Some(answer.text));
          }
          continue;
        }
        var decision := answer.decision;
        if decision.reject || !decision.allow {
          blocked := blocked[i - 1 := blocked[i - 1] + 1];
          return Outcome(Refusal(h, decision.reason), None);
        }
        if decision.rewriteHost != "" {
          result := result.(rewriteHost := decision.rewriteHost, pluginId := h.pluginId);
          req := req.(serverHost := decision.rewriteHost);
        }
      }
      return Outcome(result, None);
    }
  }

  // The request as the handler leaves it for the next one.
  function PassOn(h: Middleware, req: Request): Request {
    match EffectOf(h, req)
    case Rewrite(host) => req.(serverHost := host)
    case _ => req
  }

  lemma {:induction false} RequestStep(handlers: seq<Middleware>, req: Request, i: nat)
    requires i < |handlers|
    ensures RequestAt(handlers, req, i + 1) == PassOn(handlers[i], RequestAt(handlers, req, i))
  {
    if i > 0 {
      RequestStep(handlers[1..], PassOn(handlers[0], req), i - 1);
    }
  }

  // ---------------------------------------------------------------- laws of the chain

  // The chain over a concatenation, when the first part does not stop it.
  lemma {:induction false} ChainSplits(a: seq<Middleware>, b: seq<Middleware>, req: Request, result: FilterResult)
    ensures StopIndex(a, req) < |a| ==> Chain(a + b, req, result) == Chain(a, req, result)
    ensures StopIndex(a, req) == |a| ==>
              Chain(a + b, req, result) == Chain(b, RequestAt(a, req, |a|), Chain(a, req, result).result)
    ensures StopIndex(a, req) == |a| ==> Chain(a, req, result).err == None
    decreases |a|
  {
    if a == [] {
      assert a + b == b;
    } else {
      assert (a + b)[1..] == a[1..] + b;
      match EffectOf(a[0], req)
      case Skip => ChainSplits(a[1..], b, req, result);
      case Stop(_, _) =>
      case Rewrite(host) =>
        ChainSplits(a[1..], b, req.(serverHost := host), result.(rewriteHost := host, pluginId := a[0].pluginId));
    }
  }

  // A handler that does not apply, declines, or fails under fail-open can be dropped.
  lemma InertHandlersDrop(a: seq<Middleware>, h: Middleware, b: seq<Middleware>, req: Request, result: FilterResult)
    requires EffectOf(h, RequestAt(a, req, |a|)).Skip?
    ensures Chain(a + [h] + b, req, result) == Chain(a + b, req, result)
  {
    assert a + [h] + b == a + ([h] + b);
    assert ([h] + b)[1..] == b;
    ChainSplits(a, [h] + b, req, result);
    ChainSplits(a, b, req, result);
  }

  // The handlers that do not skip the request they see, up to the one that stops the chain.
  function Acting(handlers: seq<Middleware>, req: Request): seq<Middleware> {
    if handlers == [] then []
    else
      match EffectOf(handlers[0], req)
      case Skip => Acting(handlers[1..], req)
      case Stop(_, _) => [handlers[0]]
      case Rewrite(host) => [handlers[0]] + Acting(handlers[1..], req.(serverHost := host))
  }

  // All inert handlers, and all those after the one that stops the chain, can be dropped at once.
  lemma {:induction false} OnlyActingHandlersCount(handlers: seq<Middleware>, req: Request, result: FilterResult)
    ensures Chain(Acting(handlers, req), req, result) == Chain(handlers, req, result)
    decreases |handlers|
  {
    if handlers != [] {
      var h := handlers[0];
      match EffectOf(h, req)
      case Skip => OnlyActingHandlersCount(handlers[1..], req, result);
      case Stop(_, _) =>
      case Rewrite(host) =>
        assert Acting(handlers, req)[1..] == Acting(handlers[1..], req.(serverHost := host));
        OnlyActingHandlersCount(handlers[1..], req.(serverHost := host),
                                result.(rewriteHost := host, pluginId := h.pluginId));
    }
  }

  // The first reject or fail-closed error decides, whatever was rewritten before and whoever follows.
  lemma FirstStopDecides(a: seq<Middleware>, h: Middleware, b: seq<Middleware>, req: Request, result: FilterResult)
    requires StopIndex(a, req) == |a| && EffectOf(h, RequestAt(a, req, |a|)).Stop?
    ensures Chain(a + [h] + b, req, result) == EffectOf(h, RequestAt(a, req, |a|)).outcome
    ensures !Chain(a + [h] + b, req, result).result.allowed
    ensures Chain(a + [h] + b, req, result).result.rewriteHost == ""
  {
    assert a + [h] + b == a + ([h] + b);
    ChainSplits(a, [h] + b, req, result);
  }

  function LastOr(hosts: seq<string>, default: string): string {
    if hosts == [] then default else hosts[|hosts| - 1]
  }

  // Each handler sees the latest rewrite in front of it, or the client's host.
  lemma {:induction false} HandlersSeeLatestRewrite(handlers: seq<Middleware>, req: Request, i: nat)
    requires i <= |handlers|
    ensures RequestAt(handlers, req, i) == req.(serverHost := LastOr(Rewrites(handlers, req, i), req.serverHost))
    decreases i
  {
    if i > 0 {
      HandlersSeeLatestRewrite(handlers[1..], PassOn(handlers[0], req), i - 1);
    }
  }

  // The chain allows exactly when no handler stops it; then the answer carries the last rewrite.
  lemma {:induction false} ChainAllows(handlers: seq<Middleware>, req: Request, result: FilterResult)
    requires result.allowed
    ensures var o := Chain(handlers, req, result);
            && (o.result.allowed <==> StopIndex(handlers, req) == |handlers|)
            && (o.result.allowed ==>
                  o.err == None
                  && o.result.rewriteHost == LastOr(Rewrites(handlers, req, |handlers|), result.rewriteHost))
    decreases |handlers|
  {
    if handlers != [] {
      match EffectOf(handlers[0], req)
      case Skip => ChainAllows(handlers[1..], req, result);
      case Stop(_, _) =>
      case Rewrite(host) =>
        ChainAllows(handlers[1..], req.(serverHost := host),
                    result.(rewriteHost := host, pluginId := handlers[0].pluginId));
    }
  }

  // ---------------------------------------------------------------- handler by handler

  // A handler fails on a request when its acceptor or its plugin code does.
  predicate Fails(h: Middleware, req: Request) {
    h.handlesHandshake
    && (h.accept(req).AcceptError? || (h.accept(req).Accepts? && h.answer(req).AnswerError?))
  }

  function Failure(h: Middleware, req: Request): string
    requires Fails(h, req)
  {
    if h.accept(req).AcceptError? then h.accept(req).text else h.answer(req).text
  }

  predicate Decides(h: Middleware, req: Request) {
    h.handlesHandshake && h.accept(req).Accepts? && h.answer(req).Answered?
  }

  // A decision lets the connection pass only if it says so and does not reject.
  predicate Rejects(h: Middleware, req: Request) {
    Decides(h, req) && (h.answer(req).decision.reject || !h.answer(req).decision.allow)
  }

  // A handler stops the chain exactly when it rejects, or fails and is registered as fail-closed; it
  // rewrites exactly when its decision passes and names a host. What it refuses with is the reason of the
  // decision, without an error, or the text of the failure, with it.
  lemma EffectExactly(h: Middleware, req: Request)
    ensures EffectOf(h, req).Stop? <==> Rejects(h, req) || (Fails(h, req) && h.failClosed)
    ensures EffectOf(h, req).Rewrite? <==>
              Decides(h, req) && !Rejects(h, req) && h.answer(req).decision.rewriteHost != ""
    ensures EffectOf(h, req).Rewrite? ==> EffectOf(h, req).host == h.answer(req).decision.rewriteHost
    ensures Rejects(h, req) ==>
              EffectOf(h, req) ==
              Stop(Outcome(FilterResult(false, h.pluginId, h.answer(req).decision.reason, ""), None), true)
    ensures Fails(h, req) && h.failClosed ==>
              EffectOf(h, req) ==
              Stop(Outcome(FilterResult(false, h.pluginId, Failure(h, req), ""), Some(Failure(h, req))), false)
  {
  }

  // Handler i is the first that stops the chain, on the request that the rewrites before it left.
  predicate StopsAt(handlers: seq<Middleware>, req: Request, i: nat) {
    && i < |handlers|
    && (var seen := RequestAt(handlers, req, i);
        Rejects(handlers[i], seen) || (Fails(handlers[i], seen) && handlers[i].failClosed))
    && forall j :: 0 <= j < i ==>
         var seen := RequestAt(handlers, req, j);
         !Rejects(handlers[j], seen) && !(Fails(handlers[j], seen) && handlers[j].failClosed)
  }

  lemma {:induction false} NobodyStopsBefore(handlers: seq<Middleware>, req: Request, j: nat)
    requires j <= |handlers|
    ensures j < StopIndex(handlers, req) ==> !EffectOf(handlers[j], RequestAt(handlers, req, j)).Stop?
    ensures j == StopIndex(handlers, req) < |handlers| ==> EffectOf(handlers[j], RequestAt(handlers, req, j)).Stop?
  {
    if j > 0 && !EffectOf(handlers[0], req).Stop? {
      NobodyStopsBefore(handlers[1..], PassOn(handlers[0], req), j - 1);
    }
  }

  // The chain refuses exactly when some handler stops it, with what the first such handler says.
  lemma RefusedExactly(handlers: seq<Middleware>, req: Request)
    ensures !Chain(handlers, req, INITIAL).result.allowed <==> exists i: nat :: StopsAt(handlers, req, i)
    ensures forall i: nat :: StopsAt(handlers, req, i) ==>
              var seen := RequestAt(handlers, req, i);
              Chain(handlers, req, INITIAL) ==
              if Rejects(handlers[i], seen)
              then
                Outcome(FilterResult(false, handlers[i].pluginId, handlers[i].answer(seen).decision.reason, ""), None)
              else
                Outcome(FilterResult(false, handlers[i].pluginId, Failure(handlers[i], seen), ""),
                        Some(Failure(handlers[i], seen)))
  {
    hide Chain, EffectOf, RequestAt, Rejects, Fails;
    var stop := StopIndex(handlers, req);
    ChainAllows(handlers, req, INITIAL);
    forall j | 0 <= j < |handlers|
      ensures EffectOf(handlers[j], RequestAt(handlers, req, j)).Stop? <==>
                var seen := RequestAt(handlers, req, j);
                Rejects(handlers[j], seen) || (Fails(handlers[j], seen) && handlers[j].failClosed)
      ensures j < stop ==> !EffectOf(handlers[j], RequestAt(handlers, req, j)).Stop?
    {
      EffectExactly(handlers[j], RequestAt(handlers, req, j));
      NobodyStopsBefore(handlers, req, j);
    }
    if stop < |handlers| {
      NobodyStopsBefore(handlers, req, stop);
      assert StopsAt(handlers, req, stop);
      assert forall i: nat :: StopsAt(handlers, req, i) ==> i == stop;
      StopDecides(handlers, req);
      EffectExactly(handlers[stop], RequestAt(handlers, req, stop));
    } else {
      assert forall i: nat :: !StopsAt(handlers, req, i);
      InitiallyAllowed();
    }
  }

  lemma InitiallyAllowed()
    ensures INITIAL.allowed
  {
  }

  lemma StopDecides(handlers: seq<Middleware>, req: Request)
    requires StopIndex(handlers, req) < |handlers|
    ensures var i := StopIndex(handlers, req);
            EffectOf(handlers[i], RequestAt(handlers, req, i)).Stop?
            && Chain(handlers, req, INITIAL) == EffectOf(handlers[i], RequestAt(handlers, req, i)).outcome
  {
    var i := StopIndex(handlers, req);
    NobodyStopsBefore(handlers, req, i);
    StopOfPrefix(handlers, req, i);
    assert handlers == handlers[..i] + [handlers[i]] + handlers[i + 1..];
    FirstStopDecides(handlers[..i], handlers[i], handlers[i + 1..], req, INITIAL);
  }

  lemma {:induction false} StopOfPrefix(handlers: seq<Middleware>, req: Request, i: nat)
    requires i <= StopIndex(handlers, req)
    ensures StopIndex(handlers[..i], req) == i
    ensures RequestAt(handlers[..i], req, i) == RequestAt(handlers, req, i)
    decreases i
  {
    if i > 0 {
      assert handlers[..i][1..] == handlers[1..][..i - 1];
      StopOfPrefix(handlers[1..], PassOn(handlers[0], req), i - 1);
    }
  }
}
