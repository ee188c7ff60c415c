// The plugin host's control server: plugin lifecycle and the table of takeover sessions, under one mutex.
module PluginHostServer {
  import opened Common
  import opened TakeoverSession
  import Text

  // ---------------------------------------------------------------- lifecycle

  datatype RuntimeState = NotLoaded | RuntimeEnabled | Draining | Disabled

  datatype Lifecycle = Lifecycle(state: RuntimeState, instance: Option<nat>, gateway: Option<nat>)

  datatype InitRequest = InitRequest(pluginId: string, artifactId: string, artifactPath: string)

  // Outcome of code outside the model: opening and configuring the plugin, then its Init.
  datatype LoadOutcome = LoadFailed | InitFailed | Loaded(instance: nat, gateway: nat)

  datatype Command =
    | Init(request: InitRequest, outcome: LoadOutcome)
    | Reload(accepted: bool)
    | Drain
    | Destroy(destroyed: bool)

  predicate ValidRequest(r: InitRequest) {
    !Text.Blank(r.pluginId) && !Text.Blank(r.artifactId) && !Text.Blank(r.artifactPath)
  }

  // New lifecycle and whether the command succeeded.
  function RunCommand(l: Lifecycle, cmd: Command): (Lifecycle, bool) {
    match cmd
    case Init(request, outcome) =>
      if ValidRequest(request) && l.instance.None? && outcome.Loaded? then
        (Lifecycle(RuntimeEnabled, Some(outcome.instance), Some(outcome.gateway)), true)
      else (l, false)
    case Reload(accepted) => (l, l.instance.Some? && accepted)
    case Drain => if l.instance.Some? then (l.(state := Draining), true) else (l, false)
    case Destroy(destroyed) =>
      if l.instance.None? then (l.(state := Disabled), true)
      else if destroyed then (Lifecycle(Disabled, None, None), true)
      else (l, false)
  }

  // instance and gateway are set together, exactly while the state is enabled or draining.
  predicate LifecycleInv(l: Lifecycle) {
    && (l.instance.Some? <==> l.gateway.Some?)
    && (l.instance.Some? <==> l.state.RuntimeEnabled? || l.state.Draining?)
  }

  function RunCommands(l: Lifecycle, cmds: seq<Command>): Lifecycle
    decreases |cmds|
  {
    if cmds == [] then l else RunCommands(RunCommand(l, cmds[0]).0, cmds[1..])
  }

  lemma {:induction false} LifecycleAgrees(l: Lifecycle, cmds: seq<Command>)
    requires LifecycleInv(l)
    ensures LifecycleInv(RunCommands(l, cmds))
    decreases |cmds|
  {
    if cmds != [] {
      LifecycleAgrees(RunCommand(l, cmds[0]).0, cmds[1..]);
    }
  }

  // Command i is the init that loaded the plugin: well formed, successful, and with no plugin there yet.
  ghost predicate LoadedAt(cmds: seq<Command>, i: nat) {
    && i < |cmds| && cmds[i].Init? && cmds[i].outcome.Loaded?
    && Text.TrimSpace(cmds[i].request.pluginId) != "" && Text.TrimSpace(cmds[i].request.artifactId) != ""
    && Text.TrimSpace(cmds[i].request.artifactPath) != ""
    && RunCommands(Lifecycle(NotLoaded, None, None), cmds[..i]).instance.None?
  }

  ghost predicate DestroyedAfter(cmds: seq<Command>, i: nat) {
    exists k :: i < k < |cmds| && cmds[k] == Destroy(true)
  }

  ghost predicate DrainedAfter(cmds: seq<Command>, i: nat) {
    exists k :: i < k < |cmds| && cmds[k].Drain?
  }

  lemma {:induction false} CommandsSnoc(l: Lifecycle, cmds: seq<Command>)
    requires cmds != []
    ensures RunCommands(l, cmds) == RunCommand(RunCommands(l, cmds[..|cmds| - 1]), cmds[|cmds| - 1]).0
    decreases |cmds|
  {
    if |cmds| > 1 {
      assert cmds[1..][..|cmds| - 2] == cmds[..|cmds| - 1][1..];
      CommandsSnoc(RunCommand(l, cmds[0]).0, cmds[1..]);
    }
  }

  // Which plugin is loaded, from the commands alone: the one of the last init that found none, unless a
  // destroy succeeded since. It drains exactly when a drain came after that init.
  lemma {:induction false} LoadedIsLastInit(cmds: seq<Command>) returns (i: nat)
    ensures var l := RunCommands(Lifecycle(NotLoaded, None, None), cmds);
            l.instance.Some? ==>
              && LoadedAt(cmds, i) && !DestroyedAfter(cmds, i)
              && l.instance == Some(cmds[i].outcome.instance) && l.gateway == Some(cmds[i].outcome.gateway)
              && l.state == (if DrainedAfter(cmds, i) then Draining else RuntimeEnabled)
    decreases |cmds|
  {
    i := 0;
    if cmds != [] {
      var n := |cmds| - 1;
      var start, before, last := Lifecycle(NotLoaded, None, None), cmds[..n], cmds[n];
      CommandsSnoc(start, cmds);
      LifecycleAgrees(start, before);
      i := LoadedIsLastInit(before);
      hide DestroyedAfter, DrainedAfter, RunCommands;
      var l := RunCommands(start, before);
      if l.instance.Some? {
        LoadedStays(cmds, i);
        PluginStays(l, last);
        DestroyIsSeen(cmds, i, n);
      } else {
        i := n;
        NothingAfter(cmds);
      }
    }
  }

  // What a command does to a loaded plugin.
  lemma PluginStays(l: Lifecycle, cmd: Command)
    requires l.instance.Some?
    ensures var after := RunCommand(l, cmd).0;
            if cmd == Destroy(true) then after.instance.None?
            else after == l.(state := if cmd.Drain? then Draining else l.state)
  {
  }

  lemma DestroyIsSeen(cmds: seq<Command>, i: nat, k: nat)
    ensures i < k < |cmds| && cmds[k] == Destroy(true) ==> DestroyedAfter(cmds, i)
  {
  }

  lemma NothingAfter(cmds: seq<Command>)
    requires cmds != []
    ensures !DestroyedAfter(cmds, |cmds| - 1) && !DrainedAfter(cmds, |cmds| - 1)
  {
  }

  lemma LoadedStays(cmds: seq<Command>, i: nat)
    requires cmds != [] && LoadedAt(cmds[..|cmds| - 1], i)
    ensures LoadedAt(cmds, i)
    ensures DestroyedAfter(cmds, i) <==> DestroyedAfter(cmds[..|cmds| - 1], i) || cmds[|cmds| - 1] == Destroy(true)
    ensures DrainedAfter(cmds, i) <==> DrainedAfter(cmds[..|cmds| - 1], i) || cmds[|cmds| - 1].Drain?
  {
    var n := |cmds| - 1;
    var before := cmds[..n];
    assert before[..i] == cmds[..i];
    assert forall k :: 0 <= k < n ==> before[k] == cmds[k];
    if DestroyedAfter(before, i) {
      var k :| i < k < |before| && before[k] == Destroy(true);
      assert cmds[k] == Destroy(true);
    }
    if DestroyedAfter(cmds, i) && cmds[n] != Destroy(true) {
      var k :| i < k < |cmds| && cmds[k] == Destroy(true);
      assert before[k] == Destroy(true);
    }
    if DrainedAfter(before, i) {
      var k :| i < k < |before| && before[k].Drain?;
      assert cmds[k].Drain?;
    }
    if DrainedAfter(cmds, i) && !cmds[n].Drain? {
      var k :| i < k < |cmds| && cmds[k].Drain?;
      assert before[k].Drain?;
    }
  }

  // And such an init without a later successful destroy leaves a plugin loaded.
  lemma {:induction false} InitLoads(cmds: seq<Command>, i: nat)
    requires LoadedAt(cmds, i) && !DestroyedAfter(cmds, i)
    ensures RunCommands(Lifecycle(NotLoaded, None, None), cmds).instance.Some?
    decreases |cmds|
  {
    var n := |cmds| - 1;
    CommandsSnoc(Lifecycle(NotLoaded, None, None), cmds);
    if i < n {
      assert cmds[..n][..i] == cmds[..i];
      LoadedStays(cmds, i);
      hide DestroyedAfter, DrainedAfter;
      InitLoads(cmds[..n], i);
      DestroyIsSeen(cmds, i, n);
      PluginStays(RunCommands(Lifecycle(NotLoaded, None, None), cmds[..n]), cmds[n]);
    }
  }

  // Whether a command is answered with success.
  lemma CommandSucceedsExactly(l: Lifecycle, cmd: Command)
    ensures cmd.Init? ==>
              (RunCommand(l, cmd).1 <==>
                 && Text.TrimSpace(cmd.request.pluginId) != "" && Text.TrimSpace(cmd.request.artifactId) != ""
                 && Text.TrimSpace(cmd.request.artifactPath) != ""
                 && l.instance.None? && cmd.outcome.Loaded?)
    ensures cmd.Reload? ==> (RunCommand(l, cmd).1 <==> l.instance.Some? && cmd.accepted)
    ensures cmd.Drain? ==> (RunCommand(l, cmd).1 <==> l.instance.Some?)
    ensures cmd.Destroy? ==> (RunCommand(l, cmd).1 <==> l.instance.None? || cmd.destroyed)
    ensures !RunCommand(l, cmd).1 || cmd.Reload? ==> RunCommand(l, cmd).0 == l
    ensures cmd.Destroy? && RunCommand(l, cmd).1 ==> RunCommand(l, cmd).0.state == Disabled
  {
  }

  // ---------------------------------------------------------------- the server object

  // Everything openTakeover consults besides the server's own fields.
  datatype OpenRequest = OpenRequest(sessionId: string, hasHandler: bool, streamsCreated: bool)

  predicate OpenAccepted(l: Lifecycle, table: map<string, nat>, r: OpenRequest) {
    && l.gateway.Some? && !l.state.Disabled? && !l.state.NotLoaded?
    && r.hasHandler
    && r.sessionId != "" && r.sessionId !in table
    && r.streamsCreated
  }

  class ControlServer {
    var state: RuntimeState
    var instance: Option<nat>
    var gateway: Option<nat>
    var takeovers: map<string, nat>

    function Life(): Lifecycle
      reads this
    {
      Lifecycle(state, instance, gateway)
    }

    constructor ()
      ensures Life() == Lifecycle(NotLoaded, None, None) && takeovers == map[]
    {
      state, instance, gateway, takeovers := NotLoaded, None, None, map[];
    }

    method InitPlugin(request: InitRequest, outcome: LoadOutcome) returns (ok: bool)
      modifies this
      ensures (Life(), ok) == RunCommand(old(Life()), Init(request, outcome))
      ensures takeovers == old(takeovers)
    {
      if Text.Blank(request.pluginId) || Text.Blank(request.artifactId) || Text.Blank(request.artifactPath) {
        return false;
      }
      if instance.Some? {
        return false;
      }
      if !outcome.Loaded? {
        return false;
      }
      instance := Some(outcome.instance);
      gateway := Some(outcome.gateway);
      state := RuntimeEnabled;
      return true;
    }

    method ReloadConfig(accepted: bool) returns (ok: bool)
      ensures (Life(), ok) == RunCommand(Life(), Reload(accepted))
    {
      if instance.None? {
        return false;
      }
      return accepted;
    }

    method MarkDraining() returns (ok: bool)
      modifies this
      ensures (Life(), ok) == RunCommand(old(Life()), Drain)
      ensures takeovers == old(takeovers)
    {
      if instance.None? {
        return false;
      }
      state := Draining;
      return true;
    }

    method DestroyPlugin(destroyed: bool) returns (ok: bool)
      modifies this
      ensures (Life(), ok) == RunCommand(old(Life()), Destroy(destroyed))
      ensures takeovers == old(takeovers)
    {
      if instance.None? {
        state := Disabled;
        return true;
      }
      if !destroyed {
        return false;
      }
      instance, gateway, state := None, None, Disabled;
      return true;
    }

    // The lock region of openTakeover; session is the identity of the freshly made session object.
    method OpenTakeover(request: OpenRequest, session: nat) returns (ok: bool)
      modifies this
      ensures ok <==> OpenAccepted(old(Life()), old(takeovers), request)
      ensures takeovers == if ok then old(takeovers)[request.sessionId := session] else old(takeovers)
      ensures Life() == old(Life())
    {
      if gateway.None? || state == Disabled || state == NotLoaded {
        return false;
      }
      if !request.hasHandler || request.sessionId == "" || request.sessionId in takeovers {
        return false;
      }
      if !request.streamsCreated {
        return false;
      }
      takeovers := takeovers[request.sessionId := session];
      return true;
    }

    // delete(s.takeovers, id): by id alone, whatever session the id names by now.
    method Forget(sessionId: string)
      modifies this`takeovers
      ensures takeovers == old(takeovers) - {sessionId}
    {
      takeovers := takeovers - {sessionId};
    }
  }

  // ---------------------------------------------------------------- all sessions together

  // sessions[i] is the i-th session ever opened and ids[i] the id it was opened under.
  datatype ServerState =
    ServerState(life: Lifecycle, table: map<string, nat>, ids: seq<string>, sessions: seq<Session>)

  // The table holds pointers to sessions that exist.
  predicate Shape(s: ServerState) {
    |s.ids| == |s.sessions| && forall id :: id in s.table ==> s.table[id] < |s.sessions|
  }

  type Server = s: ServerState | Shape(s)
    witness ServerState(Lifecycle(NotLoaded, None, None), map[], [], [])

  datatype ServerStep =
    | Life(cmd: Command)
    | Open(request: OpenRequest)
    | Wait(sessionId: string)
    | Complete(sessionId: string, text: string)
    | In(i: nat, step: Step)

  const FRESH: Server := ServerState(Lifecycle(NotLoaded, None, None), map[], [], [])

  // The table maps an id to a session exactly while that session is listed under it.
  predicate TableAgrees(table: map<string, nat>, ids: seq<string>, sessions: seq<Session>)
    requires |ids| == |sessions|
  {
    && (forall i :: 0 <= i < |sessions| ==> (sessions[i].listed <==> ids[i] in table && table[ids[i]] == i))
    && (forall id :: id in table ==> table[id] < |sessions| && ids[table[id]] == id)
  }

  predicate SessionsInv(sessions: seq<Session>) {
    forall i :: 0 <= i < |sessions| ==> Inv(sessions[i])
  }

  predicate ServerInv(s: Server) {
    && LifecycleInv(s.life)
    && SessionsInv(s.sessions)
    && TableAgrees(s.table, s.ids, s.sessions)
  }

  predicate ServerEnabled(s: Server, st: ServerStep) {
    match st
    case In(i, step) =>
      i < |s.sessions| && !step.StartWait? && !step.StartComplete? && Enabled(s.sessions[i], step)
    case _ => true
  }

  predicate IsDelete(step: Step) {
    step.WaitDelete? || step.CompleteDelete?
  }

  function ServerApply(s: Server, st: ServerStep): Server
    requires ServerEnabled(s, st)
  {
    match st
    case Life(cmd) => s.(life := RunCommand(s.life, cmd).0)
    case Open(r) =>
      if OpenAccepted(s.life, s.table, r) then
        s.(table := s.table[r.sessionId := |s.sessions|], ids := s.ids + [r.sessionId],
           sessions := s.sessions + [Opened()])
      else s
    case Wait(id) =>
      if id in s.table then
        s.(sessions := s.sessions[s.table[id] := AddWait(s.sessions[s.table[id]])])
      else s
    case Complete(id, text) =>
      if id in s.table then
        s.(sessions := s.sessions[s.table[id] := AddComplete(s.sessions[s.table[id]], text)])
      else s
    case In(i, step) =>
      s.(sessions := s.sessions[i := Apply(s.sessions[i], step)],
         table := if IsDelete(step) then s.table - {s.ids[i]} else s.table)
  }

  // Only the two delete steps change whether a session is listed, and they find it listed.
  lemma DeleteFindsEntry(s: Session, step: Step)
    requires DoneInv(s) && TableInv(s) && Enabled(s, step)
    ensures if IsDelete(step) then s.listed && !Apply(s, step).listed && s.handler.Finished?
            else Apply(s, step).listed == s.listed
  {
    match step
    case WaitDelete(w) => assert s.waits[w].Deleting?;
    case CompleteDelete(k) => assert s.completes[k].Removing?;
    case _ =>
  }

  function Deletes(s: Server, i: nat, deletes: bool): map<string, nat>
    requires i < |s.ids|
  {
    if deletes then s.table - {s.ids[i]} else s.table
  }

  // Deleting by id alone is safe: the id still names the session whose command deletes it.
  lemma UpdateKeepsTable(s: Server, i: nat, next: Session, deletes: bool)
    requires |s.ids| == |s.sessions| && TableAgrees(s.table, s.ids, s.sessions) && i < |s.sessions|
    requires if deletes then s.sessions[i].listed && !next.listed else next.listed == s.sessions[i].listed
    ensures TableAgrees(Deletes(s, i, deletes), s.ids, s.sessions[i := next])
  {
  }

  lemma SessionStepKeepsInv(s: Server, i: nat, step: Step)
    requires ServerInv(s) && i < |s.sessions| && Enabled(s.sessions[i], step)
    ensures ServerInv(s.(sessions := s.sessions[i := Apply(s.sessions[i], step)],
                         table := Deletes(s, i, IsDelete(step))))
  {
    ghost var next := Apply(s.sessions[i], step);
    assert Inv(next) by {
      StepKeepsInv(s.sessions[i], step);
    }
    assert TableAgrees(Deletes(s, i, IsDelete(step)), s.ids, s.sessions[i := next]) by {
      DeleteFindsEntry(s.sessions[i], step);
      UpdateKeepsTable(s, i, next, IsDelete(step));
    }
  }

  lemma ServerStepKeepsInv(s: Server, st: ServerStep)
    requires ServerInv(s) && ServerEnabled(s, st)
    ensures ServerInv(ServerApply(s, st))
  {
    hide Apply, Enabled, AddWait, AddComplete, Inv;
    match st
    case Life(cmd) =>
    case Open(r) => InvOpened();
    case Wait(id) =>
      if id in s.table {
        CommandsStart(s.sessions[s.table[id]], "");
        SessionStepKeepsInv(s, s.table[id], StartWait);
      }
    case Complete(id, text) =>
      if id in s.table {
        CommandsStart(s.sessions[s.table[id]], text);
        SessionStepKeepsInv(s, s.table[id], StartComplete(text));
      }
    case In(i, step) => SessionStepKeepsInv(s, i, step);
  }

  ghost predicate ServerReaches(s: Server, steps: seq<ServerStep>, t: Server)
    decreases |steps|
  {
    if steps == [] then s == t
    else ServerEnabled(s, steps[0]) && ServerReaches(ServerApply(s, steps[0]), steps[1..], t)
  }

  lemma {:induction false} ServerRunKeepsInv(s: Server, steps: seq<ServerStep>, t: Server)
    requires ServerInv(s) && ServerReaches(s, steps, t)
    ensures ServerInv(t)
    decreases |steps|
  {
    if steps != [] {
      ServerStepKeepsInv(s, steps[0]);
      ServerRunKeepsInv(ServerApply(s, steps[0]), steps[1..], t);
    }
  }

  predicate LeavesTable(s: Server, t: Server, id: string) {
    id in s.table && (id !in t.table || t.table[id] != s.table[id])
  }

  lemma StepFollowsSessions(s: Server, st: ServerStep, id: string)
    requires ServerInv(s) && ServerEnabled(s, st)
    ensures LeavesTable(s, ServerApply(s, st), id) ==>
              && st.In? && st.i == s.table[id] && IsDelete(st.step)
              && s.sessions[st.i].handler.Finished?
    ensures id !in s.table && id in ServerApply(s, st).table ==>
              st.Open? && OpenAccepted(s.life, s.table, st.request)
  {
    hide Apply, Enabled, AddWait, AddComplete, LifecycleInv, RunCommand;
    hide FlowInv, HandlerInv, ActionInv, DoneInv, TableInv, Opened;
    if st.In? {
      assert DoneInv(s.sessions[st.i]) && TableInv(s.sessions[st.i]);
      DeleteFindsEntry(s.sessions[st.i], st.step);
    }
  }

  // Over every run of commands, plugin steps and clients: an id leaves the table, or is handed to another
  // session, only through the deleting command of the session it names, whose handler has finished; and
  // a session enters the table only while a plugin instance and its gateway are set.
  lemma TableFollowsSessions(steps: seq<ServerStep>, s: Server, st: ServerStep, id: string)
    requires ServerReaches(FRESH, steps, s) && ServerEnabled(s, st)
    ensures LeavesTable(s, ServerApply(s, st), id) ==>
              && st.In? && st.i == s.table[id] && IsDelete(st.step)
              && s.sessions[st.i].handler.Finished?
    ensures id !in s.table && id in ServerApply(s, st).table ==>
              && s.life.instance.Some? && s.life.gateway.Some?
              && (s.life.state.RuntimeEnabled? || s.life.state.Draining?)
  {
    ServerRunKeepsInv(FRESH, steps, s);
    StepFollowsSessions(s, st, id);
  }

  // In every reachable state a takeover is opened exactly while a plugin is loaded that handles takeovers,
  // under a name that no listed session has, and with streams at hand.
  lemma OpensExactly(steps: seq<ServerStep>, s: Server, r: OpenRequest)
    requires ServerReaches(FRESH, steps, s)
    ensures var after := ServerApply(s, Open(r));
            (|after.sessions| == |s.sessions| + 1 <==>
               && s.life.instance.Some? && r.hasHandler && r.streamsCreated && r.sessionId != ""
               && forall i :: 0 <= i < |s.sessions| && s.sessions[i].listed ==> s.ids[i] != r.sessionId)
            && (|after.sessions| != |s.sessions| ==>
                  && after.sessions == s.sessions + [Opened()] && after.ids == s.ids + [r.sessionId]
                  && after.table == s.table[r.sessionId := |s.sessions|])
            && (|after.sessions| == |s.sessions| ==> after == s)
  {
    ServerRunKeepsInv(FRESH, steps, s);
    assert TableAgrees(s.table, s.ids, s.sessions);
  }

  // ---------------------------------------------------------------- every session by itself

  // What session i makes of a step of the server: its own step, or a command that names its id while it
  // is listed.
  function SeenBy(s: Server, st: ServerStep, i: nat): seq<Step>
    requires i < |s.sessions|
  {
    match st
    case In(j, step) => if i == j then [step] else []
    case Wait(id) => if s.sessions[i].listed && s.ids[i] == id then [StartWait] else []
    case Complete(id, text) => if s.sessions[i].listed && s.ids[i] == id then [StartComplete(text)] else []
    case _ => []
  }

  predicate StepsAlong(s: Session, steps: seq<Step>, next: Session) {
    if steps == [] then next == s
    else |steps| == 1 && Enabled(s, steps[0]) && next == Apply(s, steps[0])
  }

  lemma CommandsStart(s: Session, text: string)
    ensures s.listed <==> Enabled(s, StartWait)
    ensures s.listed <==> Enabled(s, StartComplete(text))
    ensures s.listed ==> Apply(s, StartWait) == AddWait(s) && Apply(s, StartComplete(text)) == AddComplete(s, text)
  {
  }

  lemma SeenStep(s: Server, st: ServerStep, i: nat)
    requires ServerInv(s) && ServerEnabled(s, st)
    ensures var t := ServerApply(s, st);
            && |s.sessions| <= |t.sessions|
            && (i < |s.sessions| ==> t.ids[i] == s.ids[i] && StepsAlong(s.sessions[i], SeenBy(s, st, i), t.sessions[i]))
            && (|s.sessions| <= i < |t.sessions| ==> t.sessions[i] == Opened())
  {
    hide Apply, Enabled, AddWait, AddComplete, SessionsInv, LifecycleInv, RunCommand, OpenAccepted;
    assert TableAgrees(s.table, s.ids, s.sessions);
    if i < |s.sessions| {
      CommandsStart(s.sessions[i], if st.Complete? then st.text else "");
    }
  }

  ghost function SessionSteps(s: Server, steps: seq<ServerStep>, t: Server, i: nat): seq<Step>
    requires ServerReaches(s, steps, t)
    decreases |steps|
  {
    if steps == [] then []
    else (if i < |s.sessions| then SeenBy(s, steps[0], i) else [])
         + SessionSteps(ServerApply(s, steps[0]), steps[1..], t, i)
  }

  lemma RunAlong(s: Session, steps: seq<Step>, next: Session, rest: seq<Step>)
    requires StepsAlong(s, steps, next) && RunFrom(next, rest)
    ensures RunFrom(s, steps + rest) && After(s, steps + rest) == After(next, rest)
  {
    hide Apply, Enabled;
    if steps == [] {
      assert [] + rest == rest;
    } else {
      assert (steps + rest)[1..] == rest;
    }
  }

  // Whatever the other sessions and the lifecycle commands do, each session of the server runs by its own
  // protocol: from its opening on, its state is that after the steps it saw.
  lemma {:induction false} SessionsRunAlone(s: Server, steps: seq<ServerStep>, t: Server, i: nat)
    requires ServerInv(s) && ServerReaches(s, steps, t) && i < |t.sessions|
    ensures var start, seen := (if i < |s.sessions| then s.sessions[i] else Opened()), SessionSteps(s, steps, t, i);
            RunFrom(start, seen) && t.sessions[i] == After(start, seen)
    decreases |steps|
  {
    hide Apply, Enabled, ServerApply, ServerEnabled, ServerInv, Opened, StepsAlong, SeenBy;
    if steps != [] {
      var next := ServerApply(s, steps[0]);
      ServerStepKeepsInv(s, steps[0]);
      SeenStep(s, steps[0], i);
      SessionsRunAlone(next, steps[1..], t, i);
      var rest := SessionSteps(next, steps[1..], t, i);
      if i < |s.sessions| {
        RunAlong(s.sessions[i], SeenBy(s, steps[0], i), next.sessions[i], rest);
      } else {
        assert [] + rest == rest;
      }
    }
  }

  function LifeCommands(steps: seq<ServerStep>): seq<Command> {
    if steps == [] then []
    else (if steps[0].Life? then [steps[0].cmd] else []) + LifeCommands(steps[1..])
  }

  // And the lifecycle is that of its own commands, whatever the sessions do.
  lemma {:induction false} LifecycleRunsAlone(s: Server, steps: seq<ServerStep>, t: Server)
    requires ServerReaches(s, steps, t)
    ensures t.life == RunCommands(s.life, LifeCommands(steps))
    decreases |steps|
  {
    hide RunCommand, OpenAccepted, Apply, Enabled;
    if steps != [] {
      LifecycleRunsAlone(ServerApply(s, steps[0]), steps[1..], t);
      var rest := LifeCommands(steps[1..]);
      if steps[0].Life? {
        assert ([steps[0].cmd] + rest)[1..] == rest;
      } else {
        assert [] + rest == rest;
      }
    }
  }
}
