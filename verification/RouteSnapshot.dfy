// The route table behind a write lock and the snapshot that the connection path reads without one.
module RouteSnapshot {
  import opened Common
  import opened Text

  datatype Row = Row(upstream: string, enabled: bool)

  type Table = map<string, Row>

  type Routes = map<string, string>

  datatype Write = Upsert(host: string, upstream: string, enabled: bool) | Delete(host: string)

  const DEFAULT: string := "default"

  // The check looks at the trimmed host; the table gets the host as it was given.
  predicate ValidHost(host: string) {
    TrimSpace(host) != "" && forall c :: c in TrimSpace(host) ==> c !in " \t\r\n/"
  }

  // Which upstreams are well formed is left open: an unknown predicate.
  type UpstreamCheck = string -> bool

  predicate ValidWrite(op: Write, validUpstream: UpstreamCheck) {
    ValidHost(op.host) && (op.Upsert? ==> validUpstream(op.upstream))
  }

  function Written(table: Table, op: Write): Table {
    match op
    case Upsert(host, upstream, enabled) => table[host := Row(upstream, enabled)]
    case Delete(host) => table - {host}
  }

  // The enabled projection of the table.
  function Enabled(table: Table): Routes {
    map host | host in table && table[host].enabled :: table[host].upstream
  }

  function Find(routes: Routes, host: string): Option<string> {
    if host in routes then Some(routes[host])
    else if DEFAULT in routes then Some(routes[DEFAULT])
    else None
  }

  // ---------------------------------------------------------------- maps, table and snapshot as objects

  // A Go map: a reference, so whoever shares it sees its changes.
  class RouteMap {
    var routes: Routes

    constructor ()
      ensures routes == map[]
    {
      routes := map[];
    }

    method Put(host: string, upstream: string)
      modifies this
      ensures routes == old(routes)[host := upstream]
    {
      routes := routes[host := upstream];
    }
  }

  // Copies entry by entry, in any order.
  method CopyOf(source: RouteMap) returns (copied: RouteMap)
    ensures fresh(copied) && copied.routes == source.routes
  {
    copied := new RouteMap();
    var hosts := source.routes.Keys;
    while hosts != {}
      invariant hosts <= source.routes.Keys
      invariant fresh(copied)
      invariant copied.routes.Keys == source.routes.Keys - hosts
      invariant forall h :: h in copied.routes ==> copied.routes[h] == source.routes[h]
      decreases hosts
    {
      var host :| host in hosts;
      hosts := hosts - {host};
      copied.Put(host, source.routes[host]);
    }
  }

  class Snapshot {
    var value: RouteMap?

    constructor ()
      ensures value == null
    {
      value := null;
    }

    function Content(): Routes
      reads this, value
    {
      if value == null then map[] else value.routes
    }

    // Keeps a copy, so that no later change of the caller's map reaches the snapshot.
    method Store(routes: RouteMap?)
      modifies this
      ensures value != null && fresh(value)
      ensures Content() == if routes == null then map[] else old(routes.routes)
    {
      var source := routes;
      if source == null {
        source := new RouteMap();
      }
      value := CopyOf(source);
    }

    // Gives away a copy.
    method Clone() returns (copied: RouteMap?)
      ensures copied == null <==> value == null
      ensures copied != null ==> fresh(copied) && copied.routes == Content()
    {
      if value == null {
        return null;
      }
      copied := CopyOf(value);
    }

    method Lookup(host: string) returns (upstream: Option<string>)
      ensures upstream == Find(Content(), host)
    {
      if value == null {
        return None;
      }
      if host in value.routes {
        return Some(value.routes[host]);
      }
      if DEFAULT in value.routes {
        return Some(value.routes[DEFAULT]);
      }
      return None;
    }
  }

  class Repository {
    const validUpstream: UpstreamCheck
    var table: Table

    constructor (validUpstream: UpstreamCheck)
      ensures this.validUpstream == validUpstream && table == map[]
    {
      this.validUpstream := validUpstream;
      table := map[];
    }

    // The rows of the query, in any order; fails when the query does.
    method EnabledMap(fails: bool) returns (routes: RouteMap?)
      ensures routes == null <==> fails
      ensures routes != null ==> fresh(routes) && routes.routes == Enabled(table)
    {
      if fails {
        return null;
      }
      routes := new RouteMap();
      var rows := set host | host in table && table[host].enabled;
      ghost var all := rows;
      while rows != {}
        invariant rows <= all
        invariant fresh(routes)
        invariant routes.routes.Keys == all - rows
        invariant forall h :: h in routes.routes ==> routes.routes[h] == table[h].upstream
        decreases rows
      {
        var host :| host in rows;
        rows := rows - {host};
        routes.Put(host, table[host].upstream);
      }
    }

    // Upsert and Delete; fails says that the transaction does.
    method Commit(op: Write, fails: bool) returns (ok: bool)
      modifies this
      ensures ok == (ValidWrite(op, validUpstream) && !fails)
      ensures table == if ok then Written(old(table), op) else old(table)
    {
      if !ValidHost(op.host) {
        return false;
      }
      if op.Upsert? && !validUpstream(op.upstream) {
        return false;
      }
      if fails {
        return false;
      }
      match op {
        case Upsert(host, upstream, enabled) => table := table[host := Row(upstream, enabled)];
        case Delete(host) => table := table - {host};
      }
      return true;
    }
  }

  class RouteAdmin {
    const repository: Repository
    const snapshot: Snapshot

    constructor (validUpstream: UpstreamCheck)
      ensures fresh(repository) && fresh(snapshot) && repository.validUpstream == validUpstream
      ensures repository.table == map[] && snapshot.value == null
    {
      repository := new Repository(validUpstream);
      snapshot := new Snapshot();
    }

    method RefreshRouteSnapshot(readFails: bool) returns (ok: bool)
      modifies snapshot
      ensures ok == !readFails
      ensures ok ==> snapshot.value != null && fresh(snapshot.value) && snapshot.Content() == Enabled(repository.table)
      ensures !ok ==> snapshot.value == old(snapshot.value)
    {
      var routes := repository.EnabledMap(readFails);
      if routes == null {
        return false;
      }
      snapshot.Store(routes);
      return true;
    }

    // upsertRoute and deleteRoute as one goroutine runs them while it holds the lock.
    method WriteRoute(op: Write, writeFails: bool, readFails: bool) returns (ok: bool)
      modifies repository, snapshot
      ensures repository.table ==
              if ValidWrite(op, repository.validUpstream) && !writeFails then Written(old(repository.table), op)
              else old(repository.table)
      ensures ok == (ValidWrite(op, repository.validUpstream) && !writeFails && !readFails)
      ensures ok ==> snapshot.value != null && snapshot.Content() == Enabled(repository.table)
      ensures !ok ==> snapshot.value == old(snapshot.value)
    {
      var committed := repository.Commit(op, writeFails);
      if !committed {
        return false;
      }
      ok := RefreshRouteSnapshot(readFails);
    }
  }

  // ---------------------------------------------------------------- concurrent writers

  // Versions number the committed states of the table. A writer that has committed knows its version;
  // one that has read knows what it will publish.
  datatype Position =
    | Waiting
    | Locked
    | Committed(version: nat)
    | HasRead(version: nat, routes: Routes)
    | Leaving(ok: bool, commit: Option<nat>)
    | Returned(ok: bool, commit: Option<nat>)

  datatype Writer = Writer(op: Write, at: Position)

  // versions lists every committed table, the current one last; published lists the version of every
  // snapshot, the current one last. refreshFailed: no snapshot was published since a refresh failed.
  datatype World = World(
    table: Table, snapshot: Routes, lock: Option<nat>, writers: seq<Writer>,
    versions: seq<Table>, published: seq<nat>, refreshFailed: bool)

  // One step of writer i: take the lock, commit (or fail), read the rows (or fail), publish, return.
  datatype Step = Step(i: nat, fails: bool)

  predicate Inside(at: Position) {
    !at.Waiting? && !at.Returned?
  }

  predicate CanStep(w: World, step: Step) {
    && step.i < |w.writers|
    && !w.writers[step.i].at.Returned?
    && (w.writers[step.i].at.Waiting? ==> w.lock == None)
  }

  function Moved(w: World, i: nat, at: Position): World
    requires i < |w.writers|
  {
    w.(writers := w.writers[i := w.writers[i].(at := at)])
  }

  function Apply(w: World, step: Step, check: UpstreamCheck): World
    requires CanStep(w, step)
  {
    var i, writer := step.i, w.writers[step.i];
    match writer.at
    case Waiting => Moved(w.(lock := Some(i)), i, Locked)
    case Locked =>
      if !ValidWrite(writer.op, check) || step.fails then Moved(w, i, Leaving(false, None))
      else
        var table := Written(w.table, writer.op);
        Moved(w.(table := table, versions := w.versions + [table]), i, Committed(|w.versions|))
    case Committed(version) =>
      if step.fails then Moved(w.(refreshFailed := true), i, Leaving(false, Some(version)))
      else Moved(w, i, HasRead(version, Enabled(w.table)))
    case HasRead(version, routes) =>
      Moved(w.(snapshot := routes, published := w.published + [version], refreshFailed := false), i,
            Leaving(true, Some(version)))
    case Leaving(ok, commit) => Moved(w.(lock := None), i, Returned(ok, commit))
    case Returned(_, _) => w
  }

  // The gateway serves only after its first refresh.
  predicate Start(w: World) {
    && w.snapshot == Enabled(w.table) && w.versions == [w.table] && w.published == [0] && !w.refreshFailed
    && w.lock == None && forall i :: 0 <= i < |w.writers| ==> w.writers[i].at == Waiting
  }

  predicate Runs(w: World, steps: seq<Step>, check: UpstreamCheck)
    decreases |steps|
  {
    steps == [] || (CanStep(w, steps[0]) && Runs(Apply(w, steps[0], check), steps[1..], check))
  }

  function After(w: World, steps: seq<Step>, check: UpstreamCheck): World
    requires Runs(w, steps, check)
    decreases |steps|
  {
    if steps == [] then w else After(Apply(w, steps[0], check), steps[1..], check)
  }

  // ---------------------------------------------------------------- the invariant

  // The version of the current snapshot.
  function Current(w: World): nat
    requires w.published != []
  {
    w.published[|w.published| - 1]
  }

  predicate Increasing(xs: seq<nat>) {
    forall i, j :: 0 <= i < j < |xs| ==> xs[i] < xs[j]
  }

  // Snapshots are projections of committed tables, in commit order; with the lock free, the current one
  // is the projection of the current table unless a refresh failed.
  predicate WorldInv(w: World) {
    && w.versions != [] && w.versions[|w.versions| - 1] == w.table
    && w.published != [] && Increasing(w.published) && Current(w) < |w.versions|
    && w.snapshot == Enabled(w.versions[Current(w)])
    && (w.lock == None ==> (w.refreshFailed <==> Current(w) < |w.versions| - 1))
    && (w.lock.Some? ==> w.lock.value < |w.writers|)
  }

  // The version is the writer's change of the version before it.
  predicate CommittedAs(w: World, op: Write, version: nat) {
    1 <= version < |w.versions| && w.versions[version] == Written(w.versions[version - 1], op)
  }

  predicate ReturnInv(w: World, op: Write, ok: bool, commit: Option<nat>)
    requires w.published != []
  {
    && (ok ==> commit.Some? && commit.value <= Current(w))
    && (commit.Some? ==> CommittedAs(w, op, commit.value))
  }

  predicate WriterInv(w: World, i: nat)
    requires i < |w.writers| && w.versions != [] && w.published != []
  {
    var op, latest := w.writers[i].op, |w.versions| - 1;
    && (Inside(w.writers[i].at) <==> w.lock == Some(i))
    && match w.writers[i].at
       case Waiting => true
       case Locked => w.refreshFailed <==> Current(w) < latest
       case Committed(version) => version == latest && Current(w) < latest && CommittedAs(w, op, version)
       case HasRead(version, routes) =>
         version == latest && Current(w) < latest && CommittedAs(w, op, version) && routes == Enabled(w.table)
       case Leaving(ok, commit) => (w.refreshFailed <==> Current(w) < latest) && ReturnInv(w, op, ok, commit)
       case Returned(ok, commit) => ReturnInv(w, op, ok, commit)
  }

  predicate Inv(w: World) {
    WorldInv(w) && forall i :: 0 <= i < |w.writers| ==> WriterInv(w, i)
  }

  // Later worlds have longer histories.
  predicate Later(w: World, after: World) {
    && |w.versions| <= |after.versions| && after.versions[..|w.versions|] == w.versions
    && |w.published| <= |after.published| && after.published[..|w.published|] == w.published
    && w.published != [] && after.published != [] && Current(w) <= Current(after)
    && |after.writers| == |w.writers|
    && forall i :: 0 <= i < |w.writers| ==>
         after.writers[i].op == w.writers[i].op
         && (w.writers[i].at.Returned? ==> after.writers[i] == w.writers[i])
  }

  lemma LaterTransitive(a: World, b: World, c: World)
    requires Later(a, b) && Later(b, c)
    ensures Later(a, c)
  {
    assert c.versions[..|a.versions|] == c.versions[..|b.versions|][..|a.versions|];
    assert c.published[..|a.published|] == c.published[..|b.published|][..|a.published|];
  }

  // A commit: a new version, not published yet.
  lemma CommitKeeps(w: World, i: nat, check: UpstreamCheck)
    requires WorldInv(w) && i < |w.writers| && WriterInv(w, i) && w.writers[i].at.Locked?
    requires ValidWrite(w.writers[i].op, check)
    ensures StepKeeps(w, Step(i, false), check)
  {
    hide Enabled, Written, ValidWrite;
  }

  // A publication: the snapshot of the latest version.
  lemma PublishKeeps(w: World, i: nat, fails: bool, check: UpstreamCheck)
    requires WorldInv(w) && i < |w.writers| && WriterInv(w, i) && w.writers[i].at.HasRead?
    ensures StepKeeps(w, Step(i, fails), check)
  {
    hide Enabled, Written, ValidWrite;
    var after := Apply(w, Step(i, fails), check);
    assert after.published == w.published + [w.writers[i].at.version];
  }

  // Every other step leaves table, versions and snapshots alone.
  lemma QuietKeeps(w: World, step: Step, check: UpstreamCheck)
    requires WorldInv(w) && CanStep(w, step) && WriterInv(w, step.i)
    requires Apply(w, step, check).versions == w.versions && Apply(w, step, check).published == w.published
    ensures StepKeeps(w, step, check)
  {
    hide Enabled, Written, ValidWrite, Increasing;
    var after := Apply(w, step, check);
    assert after.snapshot == w.snapshot && after.table == w.table && Current(after) == Current(w);
    assert Later(w, after);
  }

  ghost predicate StepKeeps(w: World, step: Step, check: UpstreamCheck)
    requires CanStep(w, step)
  {
    var after := Apply(w, step, check);
    WorldInv(after) && Later(w, after) && WriterInv(after, step.i)
  }

  lemma OwnKeeps(w: World, step: Step, check: UpstreamCheck)
    requires WorldInv(w) && CanStep(w, step) && WriterInv(w, step.i)
    ensures StepKeeps(w, step, check)
  {
    hide Enabled, Written, ValidWrite, CommittedAs, Increasing, StepKeeps, Later;
    var writer := w.writers[step.i];
    if writer.at.HasRead? {
      PublishKeeps(w, step.i, step.fails, check);
    } else if writer.at.Locked? && ValidWrite(writer.op, check) && !step.fails {
      CommitKeeps(w, step.i, check);
    } else {
      QuietKeeps(w, step, check);
    }
  }

  lemma OthersKeep(w: World, step: Step, check: UpstreamCheck, k: nat)
    requires WorldInv(w) && CanStep(w, step) && k < |w.writers| && k != step.i
    requires WriterInv(w, k) && WriterInv(w, step.i)
    requires WorldInv(Apply(w, step, check)) && Later(w, Apply(w, step, check))
    ensures WriterInv(Apply(w, step, check), k)
  {
    hide Enabled, Written, ValidWrite;
    var after := Apply(w, step, check);
    assert after.writers[k] == w.writers[k];
    assert forall v :: 0 <= v < |w.versions| ==> w.versions[v] == after.versions[..|w.versions|][v];
  }

  lemma StepKeepsInv(w: World, step: Step, check: UpstreamCheck)
    requires Inv(w) && CanStep(w, step)
    ensures Inv(Apply(w, step, check)) && Later(w, Apply(w, step, check))
  {
    hide WriterInv, Apply;
    OwnKeeps(w, step, check);
    forall k | 0 <= k < |w.writers| && k != step.i
      ensures WriterInv(Apply(w, step, check), k)
    {
      OthersKeep(w, step, check, k);
    }
  }

  lemma {:induction false} RunKeepsInv(w: World, steps: seq<Step>, check: UpstreamCheck)
    requires Inv(w) && Runs(w, steps, check)
    ensures Inv(After(w, steps, check)) && Later(w, After(w, steps, check))
    decreases |steps|
  {
    hide WriterInv, Apply;
    if steps != [] {
      StepKeepsInv(w, steps[0], check);
      RunKeepsInv(Apply(w, steps[0], check), steps[1..], check);
      LaterTransitive(w, Apply(w, steps[0], check), After(w, steps, check));
    }
  }

  // ---------------------------------------------------------------- freshness

  // However writers interleave: snapshots are published in commit order, each the enabled projection of
  // a committed table, and with the lock free the current one is that of the current table exactly when
  // no refresh failed since.
  lemma SnapshotsFollowCommits(w: World, steps: seq<Step>, check: UpstreamCheck)
    requires Start(w) && Runs(w, steps, check)
    ensures var after := After(w, steps, check);
            && after.published != [] && Increasing(after.published) && Current(after) < |after.versions|
            && after.snapshot == Enabled(after.versions[Current(after)])
            && (after.lock == None ==> (after.refreshFailed <==> Current(after) != |after.versions| - 1))
            && (after.lock == None && !after.refreshFailed ==> after.snapshot == Enabled(after.table))
  {
    assert Inv(w);
    RunKeepsInv(w, steps, check);
  }

  // After a write returned nil, every later lookup answers from a committed table at least as recent
  // as the one that write left.
  lemma LookupsAreFresh(w: World, steps: seq<Step>, more: seq<Step>, check: UpstreamCheck, i: nat, host: string)
    requires Start(w) && Runs(w, steps, check) && Runs(After(w, steps, check), more, check)
    requires var now := After(w, steps, check); i < |now.writers| && now.writers[i].at.Returned? && now.writers[i].at.ok
    ensures var now, later := After(w, steps, check), After(After(w, steps, check), more, check);
            && now.writers[i].at.commit.Some?
            && CommittedAs(later, now.writers[i].op, now.writers[i].at.commit.value)
            && later.published != []
            && now.writers[i].at.commit.value <= Current(later) < |later.versions|
            && Find(later.snapshot, host) == Find(Enabled(later.versions[Current(later)]), host)
  {
    hide Enabled, Written, Apply;
    assert Inv(w);
    RunKeepsInv(w, steps, check);
    RunKeepsInv(After(w, steps, check), more, check);
    var later := After(After(w, steps, check), more, check);
    assert WriterInv(later, i) && later.writers[i] == After(w, steps, check).writers[i];
  }

  // No committed change of the host since version v.
  predicate Untouched(w: World, host: string, v: nat) {
    forall k :: v < k < |w.versions| ==>
      (host in w.versions[k] <==> host in w.versions[v])
      && (host in w.versions[k] ==> w.versions[k][host] == w.versions[v][host])
  }

  // A write that returned nil is seen by every lookup until another committed write changes its host:
  // an enabled route answers with its upstream, a disabled or deleted one with the default route.
  lemma WritesAreSeen(w: World, steps: seq<Step>, more: seq<Step>, check: UpstreamCheck, i: nat)
    requires Start(w) && Runs(w, steps, check) && Runs(After(w, steps, check), more, check)
    requires var now := After(w, steps, check); i < |now.writers| && now.writers[i].at.Returned? && now.writers[i].at.ok
    requires var now := After(w, steps, check);
             now.writers[i].at.commit.Some? &&
             Untouched(After(now, more, check), now.writers[i].op.host, now.writers[i].at.commit.value)
    ensures var op, later := After(w, steps, check).writers[i].op, After(After(w, steps, check), more, check);
            Find(later.snapshot, op.host) ==
            if op.Upsert? && op.enabled then Some(op.upstream)
            else if op.host != DEFAULT && DEFAULT in later.snapshot then Some(later.snapshot[DEFAULT])
            else None
  {
    var now := After(w, steps, check);
    var later := After(now, more, check);
    var op, v := now.writers[i].op, now.writers[i].at.commit.value;
    LookupsAreFresh(w, steps, more, check, i, op.host);
    assert Inv(w);
    RunKeepsInv(w, steps, check);
    RunKeepsInv(now, more, check);
    SeenAt(later, op, v);
  }

  lemma SeenAt(w: World, op: Write, v: nat)
    requires WorldInv(w) && CommittedAs(w, op, v) && v <= Current(w) && Untouched(w, op.host, v)
    ensures op.host in w.snapshot <==> op.Upsert? && op.enabled
    ensures op.host in w.snapshot ==> w.snapshot[op.host] == op.upstream
  {
    var k := Current(w);
    assert op.host in w.versions[k] <==> op.host in w.versions[v];
  }

  // A write that was committed, even one whose refresh failed and that returned an error, is missing
  // from the snapshot only until the next publication.
  lemma FailedRefreshIsRepaired(w: World, steps: seq<Step>, more: seq<Step>, check: UpstreamCheck, i: nat)
    requires Start(w) && Runs(w, steps, check) && Runs(After(w, steps, check), more, check)
    requires var now := After(w, steps, check);
             i < |now.writers| && now.writers[i].at.Returned? && now.writers[i].at.commit.Some?
    requires |After(After(w, steps, check), more, check).published| > |After(w, steps, check).published|
    ensures var now, later := After(w, steps, check), After(After(w, steps, check), more, check);
            later.published != [] && now.writers[i].at.commit.value <= Current(later)
  {
    var now := After(w, steps, check);
    assert Inv(w);
    RunKeepsInv(w, steps, check);
    PublicationsAreLatest(now, more, check);
    assert WriterInv(now, i);
  }

  // Whatever is published after a state covers every version committed before it.
  lemma {:induction false} PublicationsAreLatest(w: World, steps: seq<Step>, check: UpstreamCheck)
    requires Inv(w) && Runs(w, steps, check)
    ensures var after := After(w, steps, check);
            after.published != []
            && (|after.published| > |w.published| ==> Current(after) >= |w.versions| - 1)
    decreases |steps|
  {
    if steps != [] {
      var next := Apply(w, steps[0], check);
      StepKeepsInv(w, steps[0], check);
      PublicationsAreLatest(next, steps[1..], check);
      RunKeepsInv(next, steps[1..], check);
      assert WriterInv(w, steps[0].i);
    }
  }

  // The lock never blocks for good: as long as some writer has not returned, some writer can step.
  lemma SomeoneCanStep(w: World, steps: seq<Step>, check: UpstreamCheck, i: nat)
    requires Start(w) && Runs(w, steps, check)
    requires i < |After(w, steps, check).writers| && !After(w, steps, check).writers[i].at.Returned?
    ensures exists k: nat :: CanStep(After(w, steps, check), Step(k, false))
  {
    assert Inv(w);
    RunKeepsInv(w, steps, check);
    var now := After(w, steps, check);
    if now.lock.Some? {
      assert WriterInv(now, now.lock.value);
      assert CanStep(now, Step(now.lock.value, false));
    } else {
      assert WriterInv(now, i);
      assert CanStep(now, Step(i, false));
    }
  }

  // ---------------------------------------------------------------- a failed refresh

  // The enabled upstream of a host, in the table and as a write leaves it.
  function RouteOf(table: Table, host: string): Option<string> {
    if host in table && table[host].enabled then Some(table[host].upstream) else None
  }

  function RouteLeft(op: Write): Option<string> {
    if op.Upsert? && op.enabled then Some(op.upstream) else None
  }

  // A write changes the enabled projection exactly when it changes its own host's enabled upstream.
  lemma WriteShowsExactly(table: Table, op: Write)
    ensures Enabled(Written(table, op)) == Enabled(table) <==> RouteOf(table, op.host) == RouteLeft(op)
  {
    var before, after := Enabled(table), Enabled(Written(table, op));
    assert op.host in after <==> RouteLeft(op).Some?;
    assert forall h :: h != op.host ==> (h in after <==> h in before) && (h in after ==> after[h] == before[h]);
    if RouteOf(table, op.host) == RouteLeft(op) {
      assert after.Keys == before.Keys;
    }
  }

  // What writes leave of a host's enabled upstream: the last one that names it decides.
  function LeftBy(ops: seq<Write>, host: string, before: Option<string>): Option<string> {
    if ops == [] then before
    else
      var last := ops[|ops| - 1];
      if last.host == host then RouteLeft(last) else LeftBy(ops[..|ops| - 1], host, before)
  }

  // The versions after number v are the tables that these writes left, in order.
  predicate Missed(w: World, v: nat, ops: seq<Write>) {
    && v + |ops| + 1 == |w.versions|
    && forall j :: 0 <= j < |ops| ==> CommittedAs(w, ops[j], v + 1 + j)
  }

  lemma {:induction false} RouteAfter(w: World, v: nat, ops: seq<Write>, n: nat, host: string)
    requires Missed(w, v, ops) && n <= |ops|
    ensures RouteOf(w.versions[v + n], host) == LeftBy(ops[..n], host, RouteOf(w.versions[v], host))
    decreases n
  {
    if n > 0 {
      RouteAfter(w, v, ops, n - 1, host);
      assert ops[..n][..n - 1] == ops[..n - 1];
      assert CommittedAs(w, ops[n - 1], v + n);
    }
  }

  lemma SameRoutes(a: Table, b: Table)
    requires forall host :: RouteOf(a, host) == RouteOf(b, host)
    ensures Enabled(a) == Enabled(b)
  {
    assert forall host :: host in Enabled(a) <==> RouteOf(a, host).Some?;
    assert forall host :: host in Enabled(b) <==> RouteOf(b, host).Some?;
  }

  lemma RoutesShow(a: Table, b: Table, host: string)
    requires Enabled(a) == Enabled(b)
    ensures RouteOf(a, host) == RouteOf(b, host)
  {
    assert host in Enabled(a) <==> RouteOf(a, host).Some?;
    assert host in Enabled(b) <==> RouteOf(b, host).Some?;
  }

  lemma {:induction false} LeftAlone(ops: seq<Write>, host: string, before: Option<string>)
    requires forall op :: op in ops ==> op.host != host
    ensures LeftBy(ops, host, before) == before
    decreases |ops|
  {
    if ops != [] {
      LeftAlone(ops[..|ops| - 1], host, before);
    }
  }

  // Whatever writes the snapshot has missed: it still equals the projection of the table exactly when,
  // for every host they name, the last one naming it leaves the enabled upstream that the snapshot has.
  lemma MissedWritesShowExactly(w: World, ops: seq<Write>)
    requires WorldInv(w) && Missed(w, Current(w), ops)
    ensures var shown := w.versions[Current(w)];
            w.snapshot == Enabled(w.table) <==>
            forall op :: op in ops ==> LeftBy(ops, op.host, RouteOf(shown, op.host)) == RouteOf(shown, op.host)
  {
    var shown := w.versions[Current(w)];
    assert ops[..|ops|] == ops;
    if w.snapshot == Enabled(w.table) {
      forall op | op in ops
        ensures LeftBy(ops, op.host, RouteOf(shown, op.host)) == RouteOf(shown, op.host)
      {
        RouteAfter(w, Current(w), ops, |ops|, op.host);
        RoutesShow(shown, w.table, op.host);
      }
    }
    if forall op :: op in ops ==> LeftBy(ops, op.host, RouteOf(shown, op.host)) == RouteOf(shown, op.host) {
      forall host
        ensures RouteOf(shown, host) == RouteOf(w.table, host)
      {
        RouteAfter(w, Current(w), ops, |ops|, host);
        if forall op :: op in ops ==> op.host != host {
          LeftAlone(ops, host, RouteOf(shown, host));
        }
      }
      SameRoutes(shown, w.table);
    }
  }

  // Every version after the first is some writer's.
  ghost predicate AllCommitted(w: World) {
    forall v: nat :: 1 <= v < |w.versions| ==> SomeoneCommitted(w, v)
  }

  predicate SomeoneCommitted(w: World, v: nat) {
    exists i :: 0 <= i < |w.writers| && CommittedAs(w, w.writers[i].op, v)
  }

  lemma {:induction false} RunKeepsCommitted(w: World, steps: seq<Step>, check: UpstreamCheck)
    requires Inv(w) && AllCommitted(w) && Runs(w, steps, check)
    ensures AllCommitted(After(w, steps, check))
    decreases |steps|
  {
    if steps != [] {
      StepKeepsInv(w, steps[0], check);
      StepKeepsCommitted(w, steps[0], check);
      RunKeepsCommitted(Apply(w, steps[0], check), steps[1..], check);
    }
  }

  lemma StepKeepsCommitted(w: World, step: Step, check: UpstreamCheck)
    requires WorldInv(w) && AllCommitted(w) && CanStep(w, step) && Later(w, Apply(w, step, check))
    ensures AllCommitted(Apply(w, step, check))
  {
    hide Enabled, Written, ValidWrite;
    var after := Apply(w, step, check);
    forall v: nat | 1 <= v < |after.versions|
      ensures SomeoneCommitted(after, v)
    {
      if v < |w.versions| {
        assert SomeoneCommitted(w, v);
        var i :| 0 <= i < |w.writers| && CommittedAs(w, w.writers[i].op, v);
        assert after.versions[..|w.versions|][v] == w.versions[v];
        assert after.versions[..|w.versions|][v - 1] == w.versions[v - 1];
        assert CommittedAs(after, after.writers[i].op, v);
      } else {
        assert CommittedAs(after, after.writers[step.i].op, v);
      }
    }
  }

  lemma {:induction false} MissedFrom(w: World, v: nat) returns (ops: seq<Write>)
    requires AllCommitted(w) && v < |w.versions|
    ensures Missed(w, v, ops) && forall op :: op in ops ==> exists i :: 0 <= i < |w.writers| && w.writers[i].op == op
    decreases |w.versions| - v
  {
    if v + 1 == |w.versions| {
      ops := [];
    } else {
      var rest := MissedFrom(w, v + 1);
      assert SomeoneCommitted(w, v + 1);
      var i :| 0 <= i < |w.writers| && CommittedAs(w, w.writers[i].op, v + 1);
      ops := [w.writers[i].op] + rest;
      forall j | 0 <= j < |ops|
        ensures CommittedAs(w, ops[j], v + 1 + j)
      {
        if j > 0 {
          assert ops[j] == rest[j - 1];
        }
      }
    }
  }

  // In every reachable state the snapshot lags by writes of the writers, and its content differs from
  // the projection of the table exactly when they change some enabled route.
  lemma LagIsMissedWrites(w: World, steps: seq<Step>, check: UpstreamCheck) returns (ops: seq<Write>)
    requires Start(w) && Runs(w, steps, check)
    ensures var now := After(w, steps, check);
            && now.published != [] && Missed(now, Current(now), ops)
            && (forall op :: op in ops ==> exists i :: 0 <= i < |now.writers| && now.writers[i].op == op)
            && var shown := now.versions[Current(now)];
               (now.snapshot == Enabled(now.table) <==>
                forall op :: op in ops ==> LeftBy(ops, op.host, RouteOf(shown, op.host)) == RouteOf(shown, op.host))
  {
    assert Inv(w);
    RunKeepsInv(w, steps, check);
    RunKeepsCommitted(w, steps, check);
    var now := After(w, steps, check);
    ops := MissedFrom(now, Current(now));
    MissedWritesShowExactly(now, ops);
  }

  // Such a run from an empty table: one writer takes the lock, commits an enabled route, fails to read
  // the rows and returns its error. The lock is free, and no lookup finds the route of the table.
  lemma FailedRefreshLags(check: UpstreamCheck) returns (w: World, steps: seq<Step>)
    requires check("u")
    ensures Start(w) && Runs(w, steps, check)
    ensures var after := After(w, steps, check);
            && after.lock == None && after.refreshFailed
            && after.writers == [Writer(Upsert("h", "u", true), Returned(false, Some(1)))]
            && Find(Enabled(after.table), "h") == Some("u") && Find(after.snapshot, "h") == None
  {
    var op := Upsert("h", "u", true);
    assert ValidHost("h") by {
      assert !IsSpace("h"[0]);
    }
    w := World(map[], map[], None, [Writer(op, Waiting)], [map[]], [0], false);
    assert Enabled(w.table) == map[];
    var w1 := Apply(w, Step(0, false), check);
    var w2 := Apply(w1, Step(0, false), check);
    var w3 := Apply(w2, Step(0, true), check);
    var w4 := Apply(w3, Step(0, false), check);
    RunCons(w3, Step(0, false), [], check);
    RunCons(w2, Step(0, true), [Step(0, false)], check);
    RunCons(w1, Step(0, false), [Step(0, true), Step(0, false)], check);
    RunCons(w, Step(0, false), [Step(0, false), Step(0, true), Step(0, false)], check);
    steps := [Step(0, false)] + ([Step(0, false)] + ([Step(0, true)] + ([Step(0, false)] + [])));
    assert [Step(0, false)] + [] == [Step(0, false)];
    assert [Step(0, true)] + [Step(0, false)] == [Step(0, true), Step(0, false)];
    assert [Step(0, false)] + [Step(0, true), Step(0, false)] == [Step(0, false), Step(0, true), Step(0, false)];
  }

  lemma RunCons(w: World, step: Step, rest: seq<Step>, check: UpstreamCheck)
    requires CanStep(w, step) && Runs(Apply(w, step, check), rest, check)
    ensures Runs(w, [step] + rest, check)
    ensures After(w, [step] + rest, check) == After(Apply(w, step, check), rest, check)
  {
    assert ([step] + rest)[1..] == rest;
  }

  // ---------------------------------------------------------------- the rules, stated outright

  // A lookup answers with the host's own upstream, else with that of the host named default.
  lemma FindExactly(routes: Routes, host: string)
    ensures host in routes ==> Find(routes, host) == Some(routes[host])
    ensures host !in routes && "default" in routes ==> Find(routes, host) == Some(routes["default"])
    ensures Find(routes, host).None? <==> host !in routes && "default" !in routes
  {
  }

  // A write changes the row of its host and no other.
  lemma WrittenExactly(table: Table, op: Write, host: string)
    ensures var after := Written(table, op);
            && (host != op.host ==>
                  (host in after <==> host in table) && (host in after ==> after[host] == table[host]))
            && (op.host in after <==> op.Upsert?)
            && (op.Upsert? ==> after[op.host].upstream == op.upstream && after[op.host].enabled == op.enabled)
  {
  }

  predicate CleanHost(host: string) {
    var name := TrimSpace(host);
    name != "" && forall i :: 0 <= i < |name| ==> name[i] != ' ' && name[i] != '\t' && name[i] != '\r'
                                                   && name[i] != '\n' && name[i] != '/'
  }

  lemma ValidHostIsClean(host: string)
    ensures ValidHost(host) <==> CleanHost(host)
  {
    var name := TrimSpace(host);
    if ValidHost(host) {
      forall i | 0 <= i < |name|
        ensures name[i] !in " \t\r\n/"
      {
        assert name[i] in name;
      }
    }
  }

  // How far a writer is, from the outcomes of its own steps so far: it takes the lock, commits, reads,
  // publishes and returns. An invalid write, a failed commit and a failed read go straight to the return.
  predicate WriterFollows(op: Write, check: UpstreamCheck, at: Position, failed: seq<bool>) {
    var valid := CleanHost(op.host) && (op.Upsert? ==> check(op.upstream));
    match at
    case Waiting => failed == []
    case Locked => |failed| == 1
    case Committed(_) => |failed| == 2 && valid && !failed[1]
    case HasRead(_, _) => |failed| == 3 && valid && !failed[1] && !failed[2]
    case Leaving(ok, commit) => LeavesAs(valid, ok, commit, failed)
    case Returned(ok, commit) => |failed| > 0 && LeavesAs(valid, ok, commit, failed[..|failed| - 1])
  }

  predicate LeavesAs(valid: bool, ok: bool, commit: Option<nat>, failed: seq<bool>) {
    if ok then |failed| == 4 && valid && !failed[1] && !failed[2] && commit.Some?
    else if commit.Some? then |failed| == 3 && valid && !failed[1] && failed[2]
    else |failed| == 2 && (!valid || failed[1])
  }

  // The outcomes of one writer's steps, in order.
  function OutcomesOf(steps: seq<Step>, i: nat): seq<bool> {
    if steps == [] then []
    else
      var last := steps[|steps| - 1];
      OutcomesOf(steps[..|steps| - 1], i) + (if last.i == i then [last.fails] else [])
  }

  lemma {:induction false} RouteRunSnoc(w: World, steps: seq<Step>, check: UpstreamCheck)
    requires Runs(w, steps, check) && steps != []
    ensures var before, last := steps[..|steps| - 1], steps[|steps| - 1];
            && Runs(w, before, check) && CanStep(After(w, before, check), last)
            && After(w, steps, check) == Apply(After(w, before, check), last, check)
    decreases |steps|
  {
    if |steps| > 1 {
      assert steps[1..][..|steps| - 2] == steps[..|steps| - 1][1..];
      RouteRunSnoc(Apply(w, steps[0], check), steps[1..], check);
    }
  }

  lemma WriterStep(w: World, step: Step, check: UpstreamCheck, i: nat, failed: seq<bool>)
    requires CanStep(w, step) && i < |w.writers| && WriterFollows(w.writers[i].op, check, w.writers[i].at, failed)
    ensures var after := Apply(w, step, check);
            && |after.writers| == |w.writers| && after.writers[i].op == w.writers[i].op
            && WriterFollows(w.writers[i].op, check, after.writers[i].at,
                             failed + (if step.i == i then [step.fails] else []))
  {
    hide CleanHost, ValidHost, Written, Enabled;
    ValidHostIsClean(w.writers[i].op.host);
    if step.i == i {
      assert (failed + [step.fails])[..|failed|] == failed;
    } else {
      assert failed + [] == failed;
    }
  }

  // In every interleaving a writer returns nil exactly when its write is valid and neither its commit nor
  // its read failed, and an error otherwise, with nothing committed unless only the read failed.
  lemma {:induction false} ReturnsExactly(w: World, steps: seq<Step>, check: UpstreamCheck, i: nat)
    requires Start(w) && Runs(w, steps, check) && i < |w.writers|
    ensures var now := After(w, steps, check);
            && i < |now.writers| && now.writers[i].op == w.writers[i].op
            && WriterFollows(w.writers[i].op, check, now.writers[i].at, OutcomesOf(steps, i))
    decreases |steps|
  {
    hide Apply, CanStep, WriterFollows;
    if steps == [] {
      NothingDone(w, check, i);
    } else {
      var n := |steps| - 1;
      RouteRunSnoc(w, steps, check);
      ReturnsExactly(w, steps[..n], check, i);
      WriterStep(After(w, steps[..n], check), steps[n], check, i, OutcomesOf(steps[..n], i));
    }
  }

  lemma NothingDone(w: World, check: UpstreamCheck, i: nat)
    requires Start(w) && i < |w.writers|
    ensures WriterFollows(w.writers[i].op, check, w.writers[i].at, [])
  {
  }
}
