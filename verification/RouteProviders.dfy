// Which provider decides a route, provider by provider, and what the decision becomes.
module RouteProviders {
  import opened Common
  import opened RouteCache

  // ---------------------------------------------------------------- one provider

  // A decision that leaves the request to the next provider: a pass, or no known action and no upstream.
  predicate LeavesOpen(d: Decision) {
    d.action.Pass? || (d.action.Unknown? && d.upstream == "")
  }

  // What is filled in, and that nothing else is touched.
  lemma NormalizeExactly(d: Decision, pluginId: string)
    ensures var n := Normalize(d, pluginId);
            && (n.action.Pass? <==> LeavesOpen(d))
            && (d.action.Override? || d.action.Fallback? || d.action.Reject? ==> n.action == d.action)
            && (d.action.Unknown? && d.upstream != "" ==> n.action == Override)
            && n.providerId == (if d.providerId != "" then d.providerId else pluginId)
            && n.cacheTtl == (if d.cacheTtl != 0 then d.cacheTtl else 60 * SECOND)
            && (n.upstream, n.host, n.reason) == (d.upstream, d.host, d.reason)
            && (n.metadata, n.explanation) == (d.metadata, d.explanation)
  {
  }

  // The loop goes on behind a provider that declines, passes, or decides to leave the request open.
  predicate GoesOn(route: Route, req: Request) {
    match route.accept(req)
    case Declines => true
    case AcceptError(_) => false
    case Accepts =>
      match route.answer(req)
      case Passed => true
      case AnswerError(_) => false
      case Answered(d) => LeavesOpen(d)
  }

  predicate Decides(route: Route, req: Request, d: Decision) {
    route.accept(req).Accepts? && route.answer(req).Answered?
    && !LeavesOpen(route.answer(req).decision) && d == Normalize(route.answer(req).decision, route.pluginId)
  }

  predicate Errs(route: Route, req: Request) {
    route.accept(req).Accepts? && route.answer(req).AnswerError?
  }

  // ---------------------------------------------------------------- the list

  // Provider i is the first that does not go on.
  predicate FirstToStop(routes: seq<Route>, req: Request, i: nat) {
    i < |routes| && !GoesOn(routes[i], req) && forall j :: 0 <= j < i ==> GoesOn(routes[j], req)
  }

  lemma {:induction false} AskSkips(routes: seq<Route>, req: Request, i: nat)
    requires i <= |routes| && forall j :: 0 <= j < i ==> GoesOn(routes[j], req)
    ensures Ask(routes, req) == Ask(routes[i..], req)
    ensures Ask(routes[i..], req).Provided? ==> Decider(routes, req) == Decider(routes[i..], req)
  {
    if i > 0 {
      assert GoesOn(routes[0], req);
      assert forall j :: 0 <= j < i - 1 ==> routes[1..][j] == routes[j + 1];
      assert routes[1..][i - 1..] == routes[i..];
      AskSkips(routes[1..], req, i - 1);
    } else {
      assert routes[0..] == routes;
    }
  }

  lemma AskStops(routes: seq<Route>, req: Request, i: nat)
    requires FirstToStop(routes, req, i)
    ensures Ask(routes, req) != Exhausted
    ensures Ask(routes, req) == Errored ==> Errs(routes[i], req)
    ensures Ask(routes, req).AcceptFailed? ==> routes[i].accept(req) == AcceptError(Ask(routes, req).text)
    ensures Ask(routes, req).Provided? ==>
              Decides(routes[i], req, Ask(routes, req).decision) && Decider(routes, req) == routes[i].pluginId
  {
    AskSkips(routes, req, i);
    assert routes[i..][0] == routes[i];
  }

  lemma {:induction false} SomeoneStops(routes: seq<Route>, req: Request) returns (i: nat)
    ensures i <= |routes| && (forall j :: 0 <= j < i ==> GoesOn(routes[j], req))
    ensures i < |routes| ==> FirstToStop(routes, req, i)
  {
    i := 0;
    while i < |routes| && GoesOn(routes[i], req)
      invariant i <= |routes| && forall j :: 0 <= j < i ==> GoesOn(routes[j], req)
    {
      i := i + 1;
    }
  }

  // Who decides, from what each provider accepts and answers: the first that does not go on.
  lemma AskByPosition(routes: seq<Route>, req: Request)
    ensures forall d :: Ask(routes, req) == Provided(d) <==>
              exists i: nat :: FirstToStop(routes, req, i) && Decides(routes[i], req, d)
    ensures Ask(routes, req) == Errored <==> exists i: nat :: FirstToStop(routes, req, i) && Errs(routes[i], req)
    ensures forall text :: Ask(routes, req) == AcceptFailed(text) <==>
              exists i: nat :: FirstToStop(routes, req, i) && routes[i].accept(req) == AcceptError(text)
    ensures Ask(routes, req) == Exhausted <==> forall r :: r in routes ==> GoesOn(r, req)
  {
    hide Ask, Decider, Normalize;
    var i := SomeoneStops(routes, req);
    if i < |routes| {
      AskStops(routes, req, i);
      assert routes[i] in routes;
      assert forall k: nat :: FirstToStop(routes, req, k) ==> k == i;
    } else {
      AskSkips(routes, req, i);
      NobodyLeft(routes, req);
    }
  }

  lemma NobodyLeft(routes: seq<Route>, req: Request)
    ensures Ask(routes[|routes|..], req) == Exhausted
  {
  }

  // A provider that goes on can be dropped from any place: neither the answer nor the cache changes.
  lemma {:induction false} GoingOnDrops(
      a: seq<Route>, r: Route, b: seq<Route>, entries: Entries, req: Request, at: Times)
    requires GoesOn(r, req)
    ensures Ask(a + [r] + b, req) == Ask(a + b, req)
    ensures Resolve(entries, a + [r] + b, req, at) == Resolve(entries, a + b, req, at)
    decreases |a|
  {
    if a == [] {
      assert [] + [r] + b == [r] + b && ([r] + b)[1..] == b && [] + b == b;
    } else {
      assert (a + [r] + b)[1..] == a[1..] + [r] + b && (a + b)[1..] == a[1..] + b;
      GoingOnDrops(a[1..], r, b, entries, req, at);
    }
  }

  // ---------------------------------------------------------------- what the decision becomes

  // What a cached answer carries of the decision that was stored.
  lemma CachedAnswerCarries(host: string, d: Decision, at: int)
    ensures var r := FromCache(Summarize(host, d, Provider, at));
            && (r.decision.action, r.decision.upstream) == (d.action, d.upstream)
            && (r.decision.reason, r.decision.providerId) == (d.reason, d.providerId)
            && r.decision.host == (if d.host != "" then d.host else host)
            && r.decision.metadata
               == (if d.explanation != "" then d.metadata["explanation" := d.explanation] else d.metadata)
            && r.decision.cacheTtl == 0 && r.decision.explanation == ""
            && r.source == Cache && r.summary.source == Cache
            && r.summary.createdAt * SECOND <= at < (r.summary.createdAt + 1) * SECOND
  {
  }

  // A decision that no plugin made: it says so, and carries nothing else.
  predicate FromSqlite(d: Decision, reason: string) {
    && d.providerId == "sqlite" && d.reason == reason && d.host == "" && d.explanation == ""
    && d.metadata == map[] && d.cacheTtl == 0
  }

  function FallbackReason(req: Request): string {
    if req.fallbackUpstream != "" then "sqlite route snapshot fallback"
    else "no route provider decision and no sqlite fallback"
  }

  lemma OtherHostsStay(entries: Entries, routes: seq<Route>, req: Request, at: Times, h: string)
    requires h != req.host
    ensures var after := Resolve(entries, routes, req, at).0;
            (h in after <==> h in entries) && (h in after ==> after[h] == entries[h])
  {
    hide Ask, Decider, Summarize, FromFallback, FromCache;
  }

  // Without a decision: the unexpired entry, the fallback of the request, or a reject; entries can only go.
  predicate NoDecision(entries: Entries, req: Request, after: Entries, outcome: Outcome) {
    && outcome.Resolved? && outcome.resolution.source != Provider && after.Keys <= entries.Keys
    && var (d, source) := (outcome.resolution.decision, outcome.resolution.source);
       && (source == Cache ==> req.host in entries && outcome.resolution == FromCache(entries[req.host]))
       && (source == SqliteFallback ==>
             d.action == Fallback && req.fallbackUpstream != "" && d.upstream == req.fallbackUpstream)
       && (source == FallbackMiss ==> d.action == Reject && req.fallbackUpstream == "")
       && (source != Cache ==> FromSqlite(d, FallbackReason(req)))
       && d.cacheTtl == 0
  }

  lemma AfterLoopDecidesNothing(entries: Entries, left: Entries, req: Request, at: Times)
    requires left.Keys <= entries.Keys && forall h :: h in left ==> left[h] == entries[h]
    ensures NoDecision(entries, req, AfterLoop(left, req, at).0, AfterLoop(left, req, at).1)
  {
    hide Summarize, Expired;
  }

  lemma DecisionIsStored(entries: Entries, host: string, d: Decision, now: int)
    requires !d.action.Pass?
    ensures var s := Summarize(host, d, Provider, now);
            Stored(entries, host, s) == if host == "" then entries else entries[host := s]
  {
  }

  // What a call does, case by case of who decided. Other hosts' entries never change.
  lemma ResolveOutcomes(entries: Entries, routes: seq<Route>, req: Request, at: Times)
    ensures var (after, outcome) := Resolve(entries, routes, req, at);
            var v := Ask(routes, req);
            && (v.AcceptFailed? ==> outcome == Failed(v.text) && after == entries)
            && (v.Provided? ==>
                  && outcome.Resolved? && outcome.resolution.source == Provider
                  && outcome.resolution.decision == v.decision
                  && (req.host != "" ==> req.host in after && after[req.host] == outcome.resolution.summary)
                  && (req.host == "" ==> after == entries))
            && (v == Errored || v == Exhausted ==> NoDecision(entries, req, after, outcome))
    ensures forall h :: h != req.host ==>
              var after := Resolve(entries, routes, req, at).0;
              (h in after <==> h in entries) && (h in after ==> after[h] == entries[h])
  {
    hide Ask, Decider, Normalize, AfterLoop, FromFallback, Expired, Summarize, Stored;
    if Ask(routes, req).Provided? {
      DecisionIsStored(entries, req.host, Ask(routes, req).decision, at.decided);
    }
    AfterLoopDecidesNothing(entries, entries, req, at);
    AfterLoopDecidesNothing(entries, Swept(entries, req.host, at.afterError), req, at);
    forall h | h != req.host
      ensures var after := Resolve(entries, routes, req, at).0;
              (h in after <==> h in entries) && (h in after ==> after[h] == entries[h])
    {
      OtherHostsStay(entries, routes, req, at, h);
    }
  }

  // The callback fills in an upstream only where the request has none.
  lemma FallbackFillsIn(req: Request, fallback: Option<string -> string>)
    ensures var filled := FillFallback(req, fallback);
            && filled.host == req.host && filled.refresh == req.refresh
            && (req.fallbackUpstream != "" || fallback.None? ==> filled == req)
            && (req.fallbackUpstream == "" && fallback.Some? ==> filled.fallbackUpstream == fallback.value(req.host))
  {
  }

  // Without a plugin manager, or when it fails, the gateway goes by its own table.
  lemma GatewayFallsBack(outcome: Option<Outcome>, upstream: string)
    requires outcome.None? || outcome.value.Failed?
    ensures var (d, source) := GatewayRoute(outcome, upstream);
            && d.upstream == upstream && FromSqlite(d, "sqlite route snapshot fallback")
            && (if upstream != "" then d.action == Fallback && source == SqliteFallback
                else d.action == Reject && source == FallbackMiss)
  {
  }
}
