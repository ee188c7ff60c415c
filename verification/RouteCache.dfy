// Route resolution: providers in priority order, a cache of their decisions, a local fallback.
module RouteCache {
  import opened Common

  // An action is a string on the plugin API; Unknown holds any other text, the empty one included.
  datatype Action = Pass | Override | Fallback | Reject | Unknown(text: string)

  // Durations and times are nanoseconds; cacheTtl may be negative.
  datatype Decision = Decision(action: Action, upstream: string, host: string, reason: string, providerId: string,
                               metadata: map<string, string>, explanation: string, cacheTtl: int)

  datatype Source = Provider | Cache | SqliteFallback | FallbackMiss

  datatype Summary = Summary(host: string, action: Action, upstream: string, providerId: string, source: Source,
                             reason: string, metadata: map<string, string>, createdAt: int, expiresAt: int)

  datatype Request = Request(host: string, refresh: bool, fallbackUpstream: string)

  // What a provider's handler returns; Passed is api.ErrPass, any other error is AnswerError.
  datatype Answer = Answered(decision: Decision) | Passed | AnswerError(text: string)

  // A provider; its plugin code is an arbitrary function of the request.
  datatype Route = Route(pluginId: string, accept: Request -> Acceptance, answer: Request -> Answer)

  datatype Resolution = Resolution(decision: Decision, source: Source, summary: Summary)

  datatype Outcome = Resolved(resolution: Resolution) | Failed(text: string)

  const MINUTE: int := 60_000_000_000

  // time.Time.Unix: whole seconds, rounded down.
  function Unix(now: int): int {
    now / SECOND
  }

  function Normalize(d: Decision, pluginId: string): (r: Decision)
    ensures !r.action.Unknown? && r.cacheTtl != 0
  {
    var named := if d.providerId == "" then d.(providerId := pluginId) else d;
    var acted := if !named.action.Unknown? then named
                 else named.(action := if named.upstream != "" then Override else Pass);
    if acted.cacheTtl == 0 then acted.(cacheTtl := MINUTE) else acted
  }

  function Summarize(host: string, d: Decision, source: Source, now: int): Summary {
    Summary(
      if d.host != "" then d.host else host, d.action, d.upstream, d.providerId, source, d.reason,
      if d.explanation != "" then d.metadata["explanation" := d.explanation] else d.metadata,
      Unix(now), if d.cacheTtl > 0 then Unix(now + d.cacheTtl) else 0)
  }

  predicate Expired(s: Summary, now: int) {
    s.expiresAt > 0 && s.expiresAt <= Unix(now)
  }

  function FromCache(s: Summary): Resolution {
    Resolution(Decision(s.action, s.upstream, s.host, s.reason, s.providerId, s.metadata, "", 0),
               Cache, s.(source := Cache))
  }

  function FromFallback(req: Request, now: int): Resolution {
    var source := if req.fallbackUpstream == "" then FallbackMiss else SqliteFallback;
    var d := if req.fallbackUpstream == ""
             then Decision(Reject, "", "", "no route provider decision and no sqlite fallback", "sqlite", map[], "", 0)
             else Decision(Fallback, req.fallbackUpstream, "", "sqlite route snapshot fallback", "sqlite",
                           map[], "", 0);
    Resolution(d, source, Summarize(req.host, d, source, now))
  }

  // The fallback callback only fills an empty upstream.
  function FillFallback(req: Request, fallback: Option<string -> string>): Request {
    if fallback.Some? && req.fallbackUpstream == "" then req.(fallbackUpstream := fallback.value(req.host)) else req
  }

  // ---------------------------------------------------------------- the provider loop

  datatype Verdict = AcceptFailed(text: string) | Provided(decision: Decision) | Errored | Exhausted

  // What the providers make of a request: the first that fails to accept, decides or errors.
  function Ask(routes: seq<Route>, req: Request): (v: Verdict)
    ensures v.Provided? ==> v.decision.action in {Override, Fallback, Reject} && v.decision.cacheTtl != 0
  {
    if routes == [] then Exhausted
    else
      match routes[0].accept(req)
      case AcceptError(text) => AcceptFailed(text)
      case Declines => Ask(routes[1..], req)
      case Accepts =>
        match routes[0].answer(req)
        case Passed => Ask(routes[1..], req)
        case AnswerError(_) => Errored
        case Answered(d) =>
          var n := Normalize(d, routes[0].pluginId);
          if n.action.Pass? then Ask(routes[1..], req) else Provided(n)
  }

  // The loop goes on to the next provider.
  predicate Passes(route: Route, req: Request) {
    || route.accept(req).Declines?
    || (route.accept(req).Accepts?
        && (route.answer(req).Passed?
            || (route.answer(req).Answered? && Normalize(route.answer(req).decision, route.pluginId).action.Pass?)))
  }

  // The plugin whose provider decides.
  function Decider(routes: seq<Route>, req: Request): string
    requires Ask(routes, req).Provided?
  {
    if Passes(routes[0], req) then Decider(routes[1..], req) else routes[0].pluginId
  }

  // ---------------------------------------------------------------- the lock regions of the cache

  type Entries = map<string, Summary>

  function Stored(entries: Entries, host: string, s: Summary): Entries {
    if host == "" || s.action.Pass? then entries else entries[host := s]
  }

  function Found(entries: Entries, host: string, now: int): Option<Summary> {
    if host in entries && !Expired(entries[host], now) then Some(entries[host]) else None
  }

  // A lookup drops the entry that it finds expired.
  function Swept(entries: Entries, host: string, now: int): Entries {
    if host in entries && Expired(entries[host], now) then entries - {host} else entries
  }

  // One call alone. The clock is read when a decision is summarized, at the lookup after a provider
  // error, at the lookup after the loop and for the fallback's summary.
  datatype Times = Times(decided: int, afterError: int, afterLoop: int, fellBack: int)

  function AfterLoop(entries: Entries, req: Request, at: Times): (Entries, Outcome) {
    var hit := Found(entries, req.host, at.afterLoop);
    (Swept(entries, req.host, at.afterLoop),
     Resolved(if hit.Some? && !req.refresh then FromCache(hit.value) else FromFallback(req, at.fellBack)))
  }

  function Resolve(entries: Entries, routes: seq<Route>, req: Request, at: Times): (Entries, Outcome) {
    match Ask(routes, req)
    case AcceptFailed(text) => (entries, Failed(text))
    case Provided(d) =>
      var s := Summarize(req.host, d, Provider, at.decided);
      (Stored(entries, req.host, s), Resolved(Resolution(d, Provider, s)))
    case Exhausted => AfterLoop(entries, req, at)
    case Errored =>
      var hit := Found(entries, req.host, at.afterError);
      if hit.Some? then (entries, Resolved(FromCache(hit.value)))
      else AfterLoop(Swept(entries, req.host, at.afterError), req, at)
  }

  class RouteManager {
    const routes: seq<Route>
    var routeCache: Entries

    constructor (routes: seq<Route>)
      ensures this.routes == routes && routeCache == map[]
    {
      this.routes := routes;
      routeCache := map[];
    }

    method CacheRoute(host: string, decision: Decision, summary: Summary)
      requires summary.action == decision.action
      modifies this`routeCache
      ensures routeCache == Stored(old(routeCache), host, summary)
    {
      if host == "" || decision.action.Pass? {
        return;
      }
      routeCache := routeCache[host := summary];
    }

    method CachedRoute(host: string, now: int) returns (found: Option<Summary>)
      modifies this`routeCache
      ensures found == Found(old(routeCache), host, now)
      ensures routeCache == Swept(old(routeCache), host, now)
    {
      if host !in routeCache {
        return None;
      }
      var entry := routeCache[host];
      if entry.expiresAt > 0 && entry.expiresAt <= Unix(now) {
        routeCache := routeCache - {host};
        return None;
      }
      return Some(entry);
    }

    // RefreshRouteProviders and the removal of a plugin.
    method ClearRoutes()
      modifies this`routeCache
      ensures routeCache == map[]
    {
      routeCache := map[];
    }

    method ResolveRoute(request: Request, fallback: Option<string -> string>, at: Times) returns (outcome: Outcome)
      modifies this`routeCache
      ensures (routeCache, outcome) == Resolve(old(routeCache), routes, FillFallback(request, fallback), at)
    {
      var req := request;
      if fallback.Some? && req.fallbackUpstream == "" {
        req := req.(fallbackUpstream := fallback.value(req.host));
      }
      assert routes[0..] == routes;
      var i := 0;
      while i < |routes|
        invariant 0 <= i <= |routes| && routeCache == old(routeCache)
        invariant Ask(routes, req) == Ask(routes[i..], req)
      {
        var handler := routes[i];
        assert routes[i..][1..] == routes[i + 1..];
        i := i + 1;
        var acceptance := handler.accept(req);
        if acceptance.AcceptError? {
          return Failed(acceptance.text);
        }
        if acceptance.Declines? {
          continue;
        }
        var answer := handler.answer(req);
        if answer.Passed? {
          continue;
        }
        if answer.AnswerError? {
          var cached := CachedRoute(req.host, at.afterError);
          if cached.Some? {
            return Resolved(FromCache(cached.value));
          }
          break;
        }
        var decision := Normalize(answer.decision, handler.pluginId);
        if decision.action.Pass? {
          continue;
        }
        var summary := Summarize(req.host, decision, Provider, at.decided);
        CacheRoute(req.host, decision, summary);
        return Resolved(Resolution(decision, Provider, summary));
      }
      var cached := CachedRoute(req.host, at.afterLoop);
      if cached.Some? && !req.refresh {
        return Resolved(FromCache(cached.value));
      }
      return Resolved(FromFallback(req, at.fellBack));
    }
  }

  // ---------------------------------------------------------------- histories of concurrent calls

  // What happened to the cache, oldest first.
  datatype Event =
    | Wrote(host: string, decision: Decision, pluginId: string, at: int)   // by that plugin's provider
    | Looked(host: string, now: int)
    | Cleared

  function Written(e: Event): Summary
    requires e.Wrote?
  {
    Summarize(e.host, e.decision, Provider, e.at)
  }

  function Effect(entries: Entries, e: Event): Entries {
    match e
    case Wrote(host, _, _, _) => Stored(entries, host, Written(e))
    case Looked(host, now) => Swept(entries, host, now)
    case Cleared => map[]
  }

  function Replay(log: seq<Event>): Entries {
    if log == [] then map[] else Effect(Replay(log[..|log| - 1]), log[|log| - 1])
  }

  // Position of the most recent decision kept for the host since the last clear.
  function Latest(log: seq<Event>, host: string): (r: Option<nat>)
    ensures r.Some? ==> r.value < |log| && log[r.value].Wrote? && log[r.value].host == host
    ensures host == "" ==> r.None?
    ensures r.Some? ==> !log[r.value].decision.action.Pass? && forall k :: r.value < k < |log| ==>
              !log[k].Cleared? && !(log[k].Wrote? && log[k].host == host && !log[k].decision.action.Pass?)
  {
    if log == [] then None
    else
      var e := log[|log| - 1];
      if e.Cleared? then None
      else if e.Wrote? && e.host == host && host != "" && !e.decision.action.Pass? then Some(|log| - 1)
      else Latest(log[..|log| - 1], host)
  }

  // No lookup of the host found the decision at position k expired.
  predicate NeverSeenExpired(log: seq<Event>, k: nat)
    requires k < |log| && log[k].Wrote?
  {
    forall j :: k < j < |log| && log[j].Looked? && log[j].host == log[k].host ==> !Expired(Written(log[k]), log[j].now)
  }

  // The cache holds a host exactly when its latest decision was never seen expired, and then that one.
  lemma {:induction false} CacheHoldsLatest(log: seq<Event>, host: string)
    ensures host in Replay(log) <==> Latest(log, host).Some? && NeverSeenExpired(log, Latest(log, host).value)
    ensures host in Replay(log) ==> Replay(log)[host] == Written(log[Latest(log, host).value])
  {
    if log != [] {
      var before, e := log[..|log| - 1], log[|log| - 1];
      CacheHoldsLatest(before, host);
      if !e.Cleared? && Latest(log, host) == Latest(before, host) && Latest(before, host).Some? {
        var k := Latest(before, host).value;
        assert log[k] == before[k];
        assert NeverSeenExpired(log, k) <==>
            NeverSeenExpired(before, k) && (e.Looked? && e.host == host ==> !Expired(Written(log[k]), e.now)) by {
          forall j | k < j < |log| - 1
            ensures log[j] == before[j]
          {
          }
          if NeverSeenExpired(log, k) {
            forall j | k < j < |before| && before[j].Looked? && before[j].host == before[k].host
              ensures !Expired(Written(before[k]), before[j].now)
            {
              assert log[j] == before[j];
            }
          }
        }
      }
    }
  }

  // Lookups never run ahead of time.
  predicate ClockIsMonotone(log: seq<Event>, now: int) {
    forall j :: 0 <= j < |log| && log[j].Looked? ==> log[j].now <= now
  }

  // With a clock that does not go back, a lookup hits exactly when the latest decision is not expired yet.
  lemma HitsExactlyWhileFresh(log: seq<Event>, host: string, now: int)
    requires ClockIsMonotone(log, now)
    ensures var k := Latest(log, host);
            Found(Replay(log), host, now)
            == if k.Some? && !Expired(Written(log[k.value]), now) then Some(Written(log[k.value])) else None
  {
    CacheHoldsLatest(log, host);
    var k := Latest(log, host);
    if k.Some? && !Expired(Written(log[k.value]), now) {
      forall j | k.value < j < |log| && log[j].Looked? && log[j].host == log[k.value].host
        ensures !Expired(Written(log[k.value]), log[j].now)
      {
      }
    }
  }

  // From its due time on an entry is expired, and before the last second of its time to live it is not,
  // unless that time is not positive. (The clock has passed the first second of 1970.)
  lemma EntryLifetime(host: string, d: Decision, at: int, now: int)
    requires SECOND <= at
    ensures at + d.cacheTtl <= now ==> (Expired(Summarize(host, d, Provider, at), now) <==> d.cacheTtl > 0)
    ensures now + SECOND <= at + d.cacheTtl ==> !Expired(Summarize(host, d, Provider, at), now)
  {
  }

  // A decision that a provider made, kept in the cache, never expires exactly when the provider gave it
  // a negative time to live.
  lemma NeverExpiresExactly(routes: seq<Route>, req: Request, at: int)
    requires SECOND <= at && Ask(routes, req).Provided?
    ensures var d := Ask(routes, req).decision;
            (forall now :: !Expired(Summarize(req.host, d, Provider, at), now)) <==> d.cacheTtl < 0
  {
    var d := Ask(routes, req).decision;
    EntryLifetime(req.host, d, at, at + d.cacheTtl);
    if d.cacheTtl > 0 {
      assert Expired(Summarize(req.host, d, Provider, at), at + d.cacheTtl);
    }
  }

  // ResolveRoute answers from the cache exactly when the providers left the request undecided, the cache
  // has an unexpired entry, and no refresh was asked for or a provider failed.
  lemma CacheAnswersExactly(entries: Entries, routes: seq<Route>, req: Request, at: Times)
    ensures FromCacheHit(Resolve(entries, routes, req, at).1) <==>
              match Ask(routes, req)
              case Errored =>
                || Found(entries, req.host, at.afterError).Some?
                || (!req.refresh && Found(Swept(entries, req.host, at.afterError), req.host, at.afterLoop).Some?)
              case Exhausted => !req.refresh && Found(entries, req.host, at.afterLoop).Some?
              case _ => false
    ensures req.refresh ==>
              (FromCacheHit(Resolve(entries, routes, req, at).1) <==>
                 Ask(routes, req) == Errored && Found(entries, req.host, at.afterError).Some?)
  {
  }

  predicate FromCacheHit(outcome: Outcome) {
    outcome.Resolved? && outcome.resolution.source == Cache
  }

  // Such a request: a refresh whose only provider fails gets the decision it wanted refreshed.
  lemma RefreshServedFromCache(at: Times)
    requires at.afterError < 90 * SECOND
    ensures var stale := Summary("h", Override, "stale:25565", "p", Provider, "", map[], 30, 90);
            var broken := Route("p", (_: Request) => Accepts, (_: Request) => AnswerError("provider down"));
            var (entries, outcome) := Resolve(map["h" := stale], [broken], Request("h", true, "local:25565"), at);
            outcome == Resolved(FromCache(stale)) && outcome.resolution.decision.upstream == "stale:25565"
  {
    var broken := Route("p", (_: Request) => Accepts, (_: Request) => AnswerError("provider down"));
    assert Ask([broken], Request("h", true, "local:25565")) == Errored;
  }

  // A call of ResolveRoute between its lock regions.
  datatype Stage = Asking | LookAfterError | LookAfterLoop | Done(outcome: Outcome)

  datatype Call = Call(req: Request, routes: seq<Route>, stage: Stage)

  datatype World = World(entries: Entries, calls: seq<Call>, log: seq<Event>)

  // The next lock region of call i, with the clock it reads, or a clear by another goroutine.
  datatype Step = Advance(i: nat, now: int) | Clear

  predicate Enabled(w: World, step: Step) {
    step.Advance? ==> step.i < |w.calls| && !w.calls[step.i].stage.Done?
  }

  function Touch(w: World, e: Event): World {
    w.(entries := Effect(w.entries, e), log := w.log + [e])
  }

  function Move(w: World, i: nat, stage: Stage): World
    requires i < |w.calls|
  {
    w.(calls := w.calls[i := w.calls[i].(stage := stage)])
  }

  function Apply(w: World, step: Step): World
    requires Enabled(w, step)
  {
    match step
    case Clear => Touch(w, Cleared)
    case Advance(i, now) =>
      var c := w.calls[i];
      match c.stage
      case Asking => (
        match Ask(c.routes, c.req)
        case AcceptFailed(text) => Move(w, i, Done(Failed(text)))
        case Errored => Move(w, i, LookAfterError)
        case Exhausted => Move(w, i, LookAfterLoop)
        case Provided(d) =>
          var e := Wrote(c.req.host, d, Decider(c.routes, c.req), now);
          Move(Touch(w, e), i, Done(Resolved(Resolution(d, Provider, Written(e))))))
      case LookAfterError =>
        var hit := Found(w.entries, c.req.host, now);
        Move(Touch(w, Looked(c.req.host, now)), i,
             if hit.Some? then Done(Resolved(FromCache(hit.value))) else LookAfterLoop)
      case LookAfterLoop =>
        var hit := Found(w.entries, c.req.host, now);
        Move(Touch(w, Looked(c.req.host, now)), i,
             Done(Resolved(if hit.Some? && !c.req.refresh then FromCache(hit.value) else FromFallback(c.req, now))))
  }

  predicate Start(w: World) {
    w.entries == map[] && w.log == [] && forall i :: 0 <= i < |w.calls| ==> w.calls[i].stage == Asking
  }

  predicate Runs(w: World, steps: seq<Step>)
    decreases |steps|
  {
    steps == [] || (Enabled(w, steps[0]) && Runs(Apply(w, steps[0]), steps[1..]))
  }

  function After(w: World, steps: seq<Step>): World
    requires Runs(w, steps)
    decreases |steps|
  {
    if steps == [] then w else After(Apply(w, steps[0]), steps[1..])
  }

  // Position p of the log is the lookup that gave this cached answer: the provider decision it
  // carries was the latest for the host at that moment and had not expired.
  predicate AnswersLatest(log: seq<Event>, p: nat, host: string, r: Resolution) {
    && p < |log| && log[p].Looked? && log[p].host == host
    && var k := Latest(log[..p], host);
       && k.Some?
       && !Expired(Written(log[k.value]), log[p].now)
       && r == FromCache(Written(log[k.value]))
  }

  // Position p of the log is the last lookup of a call that fell back: the cache had no unexpired
  // decision for the host, or the request asked for a refresh.
  predicate FallsBack(log: seq<Event>, p: nat, req: Request, r: Resolution) {
    && p < |log| && log[p].Looked? && log[p].host == req.host
    && (req.refresh || Found(Replay(log[..p]), req.host, log[p].now).None?)
    && r == FromFallback(req, log[p].now)
  }

  // Only a call whose providers left the request undecided reads the cache; its answer never comes
  // from a provider, and from the cache despite a refresh only after a provider error.
  predicate StageSound(c: Call) {
    match c.stage
    case Asking => true
    case LookAfterError => Ask(c.routes, c.req) == Errored
    case LookAfterLoop => Ask(c.routes, c.req) in {Errored, Exhausted}
    case Done(Failed(text)) => Ask(c.routes, c.req) == AcceptFailed(text)
    case Done(Resolved(r)) =>
      if r.source == Provider then Ask(c.routes, c.req) == Provided(r.decision)
      else if r.source == Cache && c.req.refresh then Ask(c.routes, c.req) == Errored
      else Ask(c.routes, c.req) in {Errored, Exhausted}
  }

  ghost predicate CallSound(log: seq<Event>, c: Call) {
    && StageSound(c)
    && AnswerSound(log, c)
  }

  ghost predicate AnswerSound(log: seq<Event>, c: Call) {
    c.stage.Done? && c.stage.outcome.Resolved? ==>
      var r := c.stage.outcome.resolution;
      && r.decision.action in {Override, Fallback, Reject}
      && (r.source == Cache ==> exists p: nat :: AnswersLatest(log, p, c.req.host, r))
      && (r.source in {SqliteFallback, FallbackMiss} ==> exists p: nat :: FallsBack(log, p, c.req, r))
  }

  // Every write in the log is the decision of some call's providers for that call's host.
  ghost predicate WriteSound(w: World, e: Event) {
    e.Wrote? ==> exists i :: 0 <= i < |w.calls| && Decided(w.calls[i], e)
  }

  predicate Decided(c: Call, e: Event) {
    && e.Wrote? && c.req.host == e.host
    && Ask(c.routes, c.req) == Provided(e.decision) && Decider(c.routes, c.req) == e.pluginId
  }

  ghost predicate Inv(w: World) {
    && w.entries == Replay(w.log)
    && (forall k :: 0 <= k < |w.log| ==> WriteSound(w, w.log[k]))
    && (forall i :: 0 <= i < |w.calls| ==> CallSound(w.log, w.calls[i]))
  }

  lemma LogGrows(log: seq<Event>, e: Event, c: Call)
    requires CallSound(log, c)
    ensures CallSound(log + [e], c)
  {
    if c.stage.Done? && c.stage.outcome.Resolved? {
      var r := c.stage.outcome.resolution;
      if r.source == Cache {
        var p: nat :| AnswersLatest(log, p, c.req.host, r);
        assert (log + [e])[..p] == log[..p];
        assert AnswersLatest(log + [e], p, c.req.host, r);
      } else if r.source != Provider {
        var p: nat :| FallsBack(log, p, c.req, r);
        assert (log + [e])[..p] == log[..p];
        assert FallsBack(log + [e], p, c.req, r);
      }
    }
  }

  lemma ReplayGrows(log: seq<Event>, e: Event)
    ensures Replay(log + [e]) == Effect(Replay(log), e)
  {
    hide Effect;
    assert (log + [e])[..|log + [e]| - 1] == log;
  }

  lemma WritesStaySound(w: World, e: Event)
    requires WriteSound(w, e) && forall k :: 0 <= k < |w.log| ==> WriteSound(w, w.log[k])
    ensures forall k :: 0 <= k < |Touch(w, e).log| ==> WriteSound(Touch(w, e), Touch(w, e).log[k])
  {
    hide Effect, Decided;
    var after := Touch(w, e);
    forall k | 0 <= k < |after.log|
      ensures WriteSound(after, after.log[k])
    {
      assert after.log[k] == if k < |w.log| then w.log[k] else e;
      assert WriteSound(w, after.log[k]);
    }
  }

  lemma TouchKeeps(w: World, e: Event)
    requires Inv(w) && WriteSound(w, e)
    ensures Inv(Touch(w, e))
  {
    hide CallSound, WriteSound, Effect, Replay;
    var after := Touch(w, e);
    ReplayGrows(w.log, e);
    WritesStaySound(w, e);
    forall i | 0 <= i < |w.calls|
      ensures CallSound(after.log, w.calls[i])
    {
      LogGrows(w.log, e, w.calls[i]);
    }
  }

  lemma MoveKeeps(w: World, i: nat, stage: Stage)
    requires Inv(w) && i < |w.calls| && CallSound(w.log, w.calls[i].(stage := stage))
    ensures Inv(Move(w, i, stage))
  {
    var after := Move(w, i, stage);
    forall k | 0 <= k < |w.log|
      ensures WriteSound(after, w.log[k])
    {
      if w.log[k].Wrote? {
        assert WriteSound(w, w.log[k]);
        var j :| 0 <= j < |w.calls| && Decided(w.calls[j], w.log[k]);
        assert Decided(after.calls[j], w.log[k]);
      }
    }
  }

  // A hit is the latest decision, and one a provider made.
  lemma HitIsLatest(w: World, host: string, now: int)
    requires Inv(w) && Found(w.entries, host, now).Some?
    ensures var s := Found(w.entries, host, now).value;
            && AnswersLatest(w.log + [Looked(host, now)], |w.log|, host, FromCache(s))
            && s.action in {Override, Fallback, Reject}
  {
    CacheHoldsLatest(w.log, host);
    assert (w.log + [Looked(host, now)])[..|w.log|] == w.log;
    var k := Latest(w.log, host).value;
    assert WriteSound(w, w.log[k]);
  }

  lemma AskKeepsInv(w: World, i: nat, now: int)
    requires Inv(w) && i < |w.calls| && w.calls[i].stage == Asking
    ensures Inv(Apply(w, Advance(i, now)))
  {
    var c := w.calls[i];
    match Ask(c.routes, c.req)
    case AcceptFailed(text) => MoveKeeps(w, i, Done(Failed(text)));
    case Errored => MoveKeeps(w, i, LookAfterError);
    case Exhausted => MoveKeeps(w, i, LookAfterLoop);
    case Provided(d) =>
      var e := Wrote(c.req.host, d, Decider(c.routes, c.req), now);
      assert Decided(c, e);
      TouchKeeps(w, e);
      MoveKeeps(Touch(w, e), i, Done(Resolved(Resolution(d, Provider, Written(e)))));
  }

  // A call that waits to look in the cache has not been decided by a provider.
  lemma LookKeepsInv(w: World, i: nat, now: int)
    requires Inv(w) && i < |w.calls| && w.calls[i].stage in {LookAfterError, LookAfterLoop}
    ensures Inv(Apply(w, Advance(i, now)))
  {
    var c := w.calls[i];
    var e := Looked(c.req.host, now);
    TouchKeeps(w, e);
    var next := Apply(w, Advance(i, now)).calls[i].stage;
    assert CallSound(w.log + [e], c.(stage := next)) by {
      if Found(w.entries, c.req.host, now).Some? {
        HitIsLatest(w, c.req.host, now);
      }
      if next.Done? && next.outcome.resolution.source != Cache {
        assert (w.log + [e])[..|w.log|] == w.log;
        assert FallsBack(w.log + [e], |w.log|, c.req, next.outcome.resolution);
      }
    }
    MoveKeeps(Touch(w, e), i, next);
  }

  lemma StepKeepsInv(w: World, step: Step)
    requires Inv(w) && Enabled(w, step)
    ensures Inv(Apply(w, step))
  {
    match step
    case Clear => TouchKeeps(w, Cleared);
    case Advance(i, now) =>
      if w.calls[i].stage == Asking {
        AskKeepsInv(w, i, now);
      } else {
        LookKeepsInv(w, i, now);
      }
  }

  lemma {:induction false} RunKeepsInv(w: World, steps: seq<Step>)
    requires Inv(w) && Runs(w, steps)
    ensures Inv(After(w, steps))
    decreases |steps|
  {
    if steps != [] {
      StepKeepsInv(w, steps[0]);
      RunKeepsInv(Apply(w, steps[0]), steps[1..]);
    }
  }

  // In every interleaving of any number of calls with clears: an answer is an override, a fallback or
  // a reject, and one that says it comes from the cache carries the latest unexpired decision.
  lemma AnswersAreSound(w: World, steps: seq<Step>, i: nat)
    requires Start(w) && Runs(w, steps) && i < |w.calls|
    ensures var after := After(w, steps);
            && i < |after.calls| && after.calls[i].req == w.calls[i].req
            && CallSound(after.log, after.calls[i])
            && (forall k :: 0 <= k < |after.log| ==> WriteSound(after, after.log[k]))
  {
    RunKeepsInv(w, steps);
    CallsStay(w, steps, i);
  }

  lemma {:induction false} CallsStay(w: World, steps: seq<Step>, i: nat)
    requires Runs(w, steps) && i < |w.calls|
    ensures i < |After(w, steps).calls| && After(w, steps).calls[i].req == w.calls[i].req
    decreases |steps|
  {
    if steps != [] {
      CallsStay(Apply(w, steps[0]), steps[1..], i);
    }
  }

  // ---------------------------------------------------------------- removal of a plugin

  // The cache answers for some host with a decision of the plugin.
  ghost predicate Serves(w: World, pluginId: string) {
    exists host :: host in w.entries && Latest(w.log, host).Some?
                   && w.log[Latest(w.log, host).value].pluginId == pluginId
  }

  // A call that loaded its providers with the plugin among them, and has yet to store its decision.
  predicate InFlight(c: Call, pluginId: string) {
    c.stage == Asking && c.req.host != "" && Ask(c.routes, c.req).Provided? && Decider(c.routes, c.req) == pluginId
  }

  // After position n, only calls that were in flight then have stored decisions.
  ghost predicate OnlyInFlight(before: World, n: nat, w: World) {
    && n <= |w.log| && |w.calls| == |before.calls|
    && (forall i :: 0 <= i < |w.calls| && w.calls[i].stage == Asking ==> w.calls[i] == before.calls[i])
    && (forall k :: n <= k < |w.log| && w.log[k].Wrote? && w.log[k].host != "" ==>
          exists c :: c in before.calls && InFlight(c, w.log[k].pluginId))
  }

  lemma StepKeepsOnlyInFlight(before: World, n: nat, w: World, step: Step)
    requires OnlyInFlight(before, n, w) && Enabled(w, step)
    ensures OnlyInFlight(before, n, Apply(w, step))
  {
    var after := Apply(w, step);
    assert |w.log| <= |after.log| && after.log[..|w.log|] == w.log;
    forall k | n <= k < |after.log| && after.log[k].Wrote? && after.log[k].host != ""
      ensures exists c :: c in before.calls && InFlight(c, after.log[k].pluginId)
    {
      if k < |w.log| {
        assert after.log[k] == w.log[k];
      } else {
        assert InFlight(before.calls[step.i], after.log[k].pluginId);
      }
    }
  }

  lemma {:induction false} RunKeepsOnlyInFlight(before: World, n: nat, w: World, steps: seq<Step>)
    requires OnlyInFlight(before, n, w) && Runs(w, steps) && n > 0 && n <= |w.log| && w.log[n - 1] == Cleared
    ensures OnlyInFlight(before, n, After(w, steps)) && After(w, steps).log[n - 1] == Cleared
    decreases |steps|
  {
    if steps != [] {
      StepKeepsOnlyInFlight(before, n, w, steps[0]);
      assert Apply(w, steps[0]).log[n - 1] == Cleared;
      RunKeepsOnlyInFlight(before, n, Apply(w, steps[0]), steps[1..]);
    }
  }

  lemma OnlyFlightsReturn(w: World, pluginId: string, steps: seq<Step>)
    requires Runs(Apply(w, Clear), steps) && Serves(After(Apply(w, Clear), steps), pluginId)
    ensures exists c :: c in w.calls && InFlight(c, pluginId)
  {
    hide Effect, InFlight, After, Runs;
    var cleared := Apply(w, Clear);
    var n := |cleared.log|;
    assert cleared.log == w.log + [Cleared] && cleared.calls == w.calls;
    assert OnlyInFlight(w, n, cleared);
    RunKeepsOnlyInFlight(w, n, cleared, steps);
    var end := After(cleared, steps);
    var host :| host in end.entries && Latest(end.log, host).Some?
                && end.log[Latest(end.log, host).value].pluginId == pluginId;
    assert Latest(end.log, host).value >= n;
  }

  lemma FlightReturns(w: World, pluginId: string, i: nat)
    requires i < |w.calls| && InFlight(w.calls[i], pluginId)
    ensures var cleared := Apply(w, Clear);
            Enabled(cleared, Advance(i, 0)) && Serves(Apply(cleared, Advance(i, 0)), pluginId)
  {
    var end := Apply(Apply(w, Clear), Advance(i, 0));
    var host := w.calls[i].req.host;
    assert end.log[|end.log| - 1].pluginId == pluginId;
    assert host in end.entries && Latest(end.log, host) == Some(|end.log| - 1);
  }

  // Clearing the cache keeps a removed plugin out of it exactly when no call in flight had already
  // loaded the plugin's provider: such a call, and only such a call, can store a decision of the plugin
  // after the clear.
  lemma RemovedPluginComesBackExactly(w: World, pluginId: string)
    ensures (exists steps :: Runs(Apply(w, Clear), steps) && Serves(After(Apply(w, Clear), steps), pluginId))
            <==> exists c :: c in w.calls && InFlight(c, pluginId)
  {
    hide Apply, Serves, InFlight;
    var cleared := Apply(w, Clear);
    if steps :| Runs(cleared, steps) && Serves(After(cleared, steps), pluginId) {
      OnlyFlightsReturn(w, pluginId, steps);
    }
    if c :| c in w.calls && InFlight(c, pluginId) {
      var i :| 0 <= i < |w.calls| && w.calls[i] == c;
      FlightReturns(w, pluginId, i);
      RunCons(cleared, Advance(i, 0), []);
      assert Runs(cleared, [Advance(i, 0)] + []);
    }
  }

  // The steps of a call that nobody interrupts.
  function Alone(w: World, i: nat, at: Times): seq<Step>
    requires i < |w.calls|
  {
    var c := w.calls[i];
    match Ask(c.routes, c.req)
    case AcceptFailed(_) => [Advance(i, at.decided)]
    case Provided(_) => [Advance(i, at.decided)]
    case Exhausted => [Advance(i, at.decided), Advance(i, at.afterLoop)]
    case Errored =>
      if Found(w.entries, c.req.host, at.afterError).Some? then [Advance(i, at.decided), Advance(i, at.afterError)]
      else [Advance(i, at.decided), Advance(i, at.afterError), Advance(i, at.afterLoop)]
  }

  // Such a call is ResolveRoute.
  lemma AloneIsResolve(w: World, i: nat, at: Times)
    requires i < |w.calls| && w.calls[i].stage == Asking && at.fellBack == at.afterLoop
    ensures Runs(w, Alone(w, i, at)) && |After(w, Alone(w, i, at)).calls| == |w.calls|
    ensures var c, after := w.calls[i], After(w, Alone(w, i, at));
            (after.entries, after.calls[i].stage) ==
            (Resolve(w.entries, c.routes, c.req, at).0, Done(Resolve(w.entries, c.routes, c.req, at).1))
  {
    var first, second, third := Advance(i, at.decided), Advance(i, at.afterError), Advance(i, at.afterLoop);
    var one := Apply(w, first);
    match Ask(w.calls[i].routes, w.calls[i].req)
    case AcceptFailed(_) => RunCons(w, first, []);
    case Provided(_) => RunCons(w, first, []);
    case Exhausted =>
      RunCons(one, third, []);
      RunCons(w, first, [third]);
    case Errored =>
      var two := Apply(one, second);
      if Found(w.entries, w.calls[i].req.host, at.afterError).Some? {
        RunCons(one, second, []);
        RunCons(w, first, [second]);
      } else {
        RunCons(two, third, []);
        RunCons(one, second, [third]);
        RunCons(w, first, [second, third]);
      }
  }

  lemma RunCons(w: World, step: Step, rest: seq<Step>)
    requires Enabled(w, step) && Runs(Apply(w, step), rest)
    ensures Runs(w, [step] + rest) && After(w, [step] + rest) == After(Apply(w, step), rest)
  {
    assert ([step] + rest)[1..] == rest;
  }

  // ---------------------------------------------------------------- the gateway

  // resolveGatewayRoute: without a plugin manager, or when it fails, the local snapshot decides.
  function GatewayRoute(outcome: Option<Outcome>, upstream: string): (Decision, Source) {
    if outcome.Some? && outcome.value.Resolved? then
      (outcome.value.resolution.decision, outcome.value.resolution.source)
    else
      (Decision(if upstream == "" then Reject else Fallback, upstream, "", "sqlite route snapshot fallback", "sqlite",
                map[], "", 0),
       if upstream == "" then FallbackMiss else SqliteFallback)
  }

  // mapToHost dials the upstream of a decision, unless it is a reject or names none.
  predicate Dials(d: Decision) {
    !d.action.Reject? && d.upstream != ""
  }

  // A provider's decision that is not a pass is dialled exactly when the provider named an upstream and
  // did not reject; an explicit override or fallback without an upstream ends the connection like a reject.
  lemma ProviderDials(d: Decision, pluginId: string)
    requires !Normalize(d, pluginId).action.Pass?
    ensures Dials(Normalize(d, pluginId)) <==> d.upstream != "" && !d.action.Reject?
    ensures !Dials(Normalize(d, pluginId)) && !Normalize(d, pluginId).action.Reject?
            <==> d.upstream == "" && (d.action.Override? || d.action.Fallback?)
  {
  }

  // In every interleaving the gateway gets an override, fallback or reject; what comes from the local
  // table is dialled, at the upstream looked up for the request, and a miss is a reject.
  lemma GatewayDecides(w: World, steps: seq<Step>, i: nat, upstream: string)
    requires Start(w) && Runs(w, steps) && i < |w.calls|
    requires upstream != "" ==> w.calls[i].req.fallbackUpstream == upstream
    requires i < |After(w, steps).calls| && After(w, steps).calls[i].stage.Done?
    ensures var (d, source) := GatewayRoute(Some(After(w, steps).calls[i].stage.outcome), upstream);
            && d.action in {Override, Fallback, Reject}
            && (source == SqliteFallback ==>
                  d.action == Fallback && Dials(d)
                  && d.upstream in {upstream, w.calls[i].req.fallbackUpstream})
            && (source == FallbackMiss ==> d.action == Reject && !Dials(d) && upstream == "")
  {
    AnswersAreSound(w, steps, i);
  }
}
