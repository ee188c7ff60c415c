// Admin accounts: the users table, the in-memory sessions, and the handlers that drive both.
module AdminAccounts {
  import opened Common
  import opened Text

  // Roles are strings on the wire and in the table; Unknown holds any text that is not a role.
  datatype Role = Admin | Member | Guest | Unknown(text: string)

  const ADMIN_NAME: string := "admin"

  datatype User = User(role: Role, hash: string, disabled: bool)

  datatype Session = Session(username: string, role: Role, expiresAt: int)

  type Users = map<string, User>

  type Sessions = map<string, Session>

  datatype Problem =
    | BadUsername | BadRole | BadPassword | HashFailed | HashRequired | Duplicate | UserNotFound | LastAdmin
    | AlreadyCreated | BadLogin | UserDisabled | LoginRequired | PermissionDenied

  datatype Result<T> = Ok(value: T) | Err(problem: Problem)

  predicate ValidUsername(name: string) {
    name != "" && forall c :: c in name ==> c !in " \t\r\n/"
  }

  predicate ValidRole(role: Role) {
    !role.Unknown?
  }

  function RoleRank(role: Role): nat {
    match role
    case Admin => 3
    case Member => 2
    case Guest => 1
    case Unknown(_) => 0
  }

  predicate HasRole(actual: Role, required: Role) {
    RoleRank(actual) >= RoleRank(required)
  }

  predicate EnabledAdmin(users: Users, name: string) {
    name in users && users[name].role == Admin && !users[name].disabled
  }

  // The rows that enabledAdminCount counts.
  function OtherAdmins(users: Users, name: string): set<string> {
    set u | u in users && EnabledAdmin(users, u) && u != name
  }

  // ---------------------------------------------------------------- the users table

  // The outcome of bcrypt for a password: None when it fails. Matching a password against a hash is an
  // unknown predicate.
  type Hashed = Option<string>

  type Matcher = (string, string) -> bool

  datatype PatchRequest = PatchRequest(role: Option<Role>, disabled: Option<bool>, password: Option<string>)

  function Insert(users: Users, username: string, role: Role, hash: string, disabled: bool): Result<Users> {
    var name := TrimSpace(username);
    if !ValidUsername(name) then Err(BadUsername)
    else if !ValidRole(role) then Err(BadRole)
    else if Blank(hash) then Err(HashRequired)
    else if name in users then Err(Duplicate)
    else Ok(users[name := User(role, hash, disabled)])
  }

  function NewHash(password: string, hashed: Hashed): Result<string> {
    if Blank(password) then Err(BadPassword)
    else if hashed.None? then Err(HashFailed)
    else Ok(hashed.value)
  }

  // createUser.
  function Created(users: Users, username: string, role: Role, password: string, hashed: Hashed, disabled: bool)
    : Result<Users>
  {
    var name := TrimSpace(username);
    if !ValidUsername(name) then Err(BadUsername)
    else if !ValidRole(role) then Err(BadRole)
    else
      match NewHash(password, hashed)
      case Err(problem) => Err(problem)
      case Ok(hash) => Insert(users, name, role, hash, disabled)
  }

  // The patched row, before the password is looked at.
  function PatchedRow(user: User, patch: PatchRequest): User {
    user.(role := if patch.role.Some? then patch.role.value else user.role,
          disabled := if patch.disabled.Some? then patch.disabled.value else user.disabled)
  }

  predicate Invalidates(user: User, patch: PatchRequest) {
    PatchedRow(user, patch).disabled || PatchedRow(user, patch).role != user.role || patch.password.Some?
  }

  function Patched(users: Users, username: string, patch: PatchRequest, hashed: Hashed): Result<Users> {
    var name := TrimSpace(username);
    if !ValidUsername(name) then Err(BadUsername)
    else if name !in users then Err(UserNotFound)
    else
      var row := PatchedRow(users[name], patch);
      if patch.role.Some? && !ValidRole(row.role) then Err(BadRole)
      else if users[name].role == Admin && (row.role != Admin || row.disabled) && OtherAdmins(users, name) == {}
      then Err(LastAdmin)
      else if patch.password.None? then Ok(users[name := row])
      else
        match NewHash(patch.password.value, hashed)
        case Err(problem) => Err(problem)
        case Ok(hash) => if Blank(hash) then Err(HashRequired) else Ok(users[name := row.(hash := hash)])
  }

  function Deleted(users: Users, username: string): Result<Users> {
    var name := TrimSpace(username);
    if !ValidUsername(name) then Err(BadUsername)
    else if name !in users then Err(UserNotFound)
    else if users[name].role == Admin && OtherAdmins(users, name) == {} then Err(LastAdmin)
    else Ok(users - {name})
  }

  // ---------------------------------------------------------------- the sessions

  function Live(sessions: Sessions, token: string, now: int): Option<Session> {
    if token in sessions && now < sessions[token].expiresAt then Some(sessions[token]) else None
  }

  // Reading an expired session deletes it.
  function Swept(sessions: Sessions, token: string, now: int): Sessions {
    if token in sessions && now >= sessions[token].expiresAt then sessions - {token} else sessions
  }

  function Purged(sessions: Sessions, username: string): Sessions {
    map t | t in sessions && sessions[t].username != username :: sessions[t]
  }

  // ---------------------------------------------------------------- the handlers on values

  datatype State = State(users: Users, sessions: Sessions)

  // Handler calls with the clock they read; token is None without a bearer token, and newToken is the
  // random token of a login. hashed is what bcrypt yields if it is asked.
  datatype Request =
    | EnvInit(password: string, hashed: Hashed)
    | Setup(username: string, password: string, hashed: Hashed)
    | Login(username: string, password: string, newToken: string, now: int)
    | Logout(token: Option<string>, now: int)
    | Create(token: Option<string>, username: string, role: Role, password: string, hashed: Hashed, disabled: bool,
             now: int)
    | Patch(token: Option<string>, username: string, patch: PatchRequest, hashed: Hashed, now: int)
    | Delete(token: Option<string>, username: string, now: int)

  datatype Config = Config(ttl: int, matches: Matcher)

  function Authenticated(users: Users, username: string, password: string, matches: Matcher): Result<User> {
    if username !in users then Err(BadLogin)
    else if users[username].disabled then Err(UserDisabled)
    else if !matches(users[username].hash, password) then Err(BadLogin)
    else Ok(users[username])
  }

  // requireRole, without its effect on an expired session.
  function Authorized(sessions: Sessions, token: Option<string>, role: Role, now: int): Result<Session> {
    if token.None? || Live(sessions, token.value, now).None? then Err(LoginRequired)
    else
      var s := Live(sessions, token.value, now).value;
      if HasRole(s.role, role) then Ok(s) else Err(PermissionDenied)
  }

  function Looked(sessions: Sessions, token: Option<string>, now: int): Sessions {
    if token.Some? then Swept(sessions, token.value, now) else sessions
  }

  function InitialAdmin(users: Users, username: string, password: string, hashed: Hashed): Result<Users> {
    if users != map[] then Err(AlreadyCreated) else Created(users, username, Admin, password, hashed, false)
  }

  function SetupName(username: string): string {
    if Blank(username) then ADMIN_NAME else username
  }

  // What a handler leaves and whether it succeeds.
  function Serve(st: State, req: Request, config: Config): (State, Option<Problem>) {
    match req
    case EnvInit(password, hashed) =>
      if Blank(password) || st.users != map[] then (st, None)
      else Commit(st, Created(st.users, ADMIN_NAME, Admin, password, hashed, false), st.sessions)
    case Setup(username, password, hashed) =>
      Commit(st, InitialAdmin(st.users, SetupName(username), password, hashed), st.sessions)
    case Login(username, password, newToken, now) => (
      match Authenticated(st.users, username, password, config.matches)
      case Err(problem) => (st, Some(problem))
      case Ok(user) =>
        (st.(sessions := st.sessions[newToken := Session(username, user.role, now + config.ttl)]), None))
    case Logout(token, now) => (
      var looked := Looked(st.sessions, token, now);
      if token.None? || Live(st.sessions, token.value, now).None? then (st.(sessions := looked), Some(LoginRequired))
      else (st.(sessions := looked - {token.value}), None))
    case Create(token, username, role, password, hashed, disabled, now) => (
      var seen := st.(sessions := Looked(st.sessions, token, now));
      match Authorized(st.sessions, token, Admin, now)
      case Err(problem) => (seen, Some(problem))
      case Ok(_) => Commit(seen, Created(st.users, username, role, password, hashed, disabled), seen.sessions))
    case Patch(token, username, patch, hashed, now) => (
      var seen := st.(sessions := Looked(st.sessions, token, now));
      match Authorized(st.sessions, token, Admin, now)
      case Err(problem) => (seen, Some(problem))
      case Ok(_) =>
        var name := TrimSpace(username);
        Commit(seen, Patched(st.users, name, patch, hashed),
               if name in st.users && Invalidates(st.users[name], patch) then Purged(seen.sessions, name)
               else seen.sessions))
    case Delete(token, username, now) => (
      var seen := st.(sessions := Looked(st.sessions, token, now));
      match Authorized(st.sessions, token, Admin, now)
      case Err(problem) => (seen, Some(problem))
      case Ok(_) =>
        var name := TrimSpace(username);
        Commit(seen, Deleted(st.users, name), Purged(seen.sessions, name)))
  }

  function Commit(st: State, result: Result<Users>, sessions: Sessions): (State, Option<Problem>) {
    match result
    case Err(problem) => (st, Some(problem))
    case Ok(users) => (State(users, sessions), None)
  }

  // ---------------------------------------------------------------- the handlers on objects

  class UserRepository {
    var users: Users

    constructor ()
      ensures users == map[]
    {
      users := map[];
    }

    method CreateUser(username: string, role: Role, hash: string, disabled: bool) returns (r: Option<Problem>)
      modifies this
      ensures Outcome(old(users), users, r, Insert(old(users), username, role, hash, disabled))
    {
      var name := TrimSpace(username);
      if !ValidUsername(name) {
        return Some(BadUsername);
      }
      if !ValidRole(role) {
        return Some(BadRole);
      }
      if Blank(hash) {
        return Some(HashRequired);
      }
      if name in users {
        return Some(Duplicate);
      }
      users := users[name := User(role, hash, disabled)];
      return None;
    }

    method PatchUser(username: string, patch: PatchRequest, hashed: Hashed)
      returns (r: Option<Problem>, invalidate: bool)
      modifies this
      ensures Outcome(old(users), users, r, Patched(old(users), username, patch, hashed))
      ensures r.None? ==> TrimSpace(username) in old(users)
                          && invalidate == Invalidates(old(users)[TrimSpace(username)], patch)
    {
      invalidate := false;
      var name := TrimSpace(username);
      if !ValidUsername(name) {
        return Some(BadUsername), false;
      }
      if name !in users {
        return Some(UserNotFound), false;
      }
      var current := users[name];
      var nextRole := current.role;
      if patch.role.Some? {
        if !ValidRole(patch.role.value) {
          return Some(BadRole), false;
        }
        nextRole := patch.role.value;
      }
      var nextDisabled := current.disabled;
      if patch.disabled.Some? {
        nextDisabled := patch.disabled.value;
      }
      if current.role == Admin && (nextRole != Admin || nextDisabled) {
        if OtherAdmins(users, name) == {} {
          return Some(LastAdmin), false;
        }
      }
      var row := User(nextRole, current.hash, nextDisabled);
      if patch.password.Some? {
        var hash := NewHash(patch.password.value, hashed);
        if hash.Err? {
          return Some(hash.problem), false;
        }
        if Blank(hash.value) {
          return Some(HashRequired), false;
        }
        row := row.(hash := hash.value);
      }
      users := users[name := row];
      return None, nextDisabled || nextRole != current.role || patch.password.Some?;
    }

    method DeleteUser(username: string) returns (r: Option<Problem>)
      modifies this
      ensures Outcome(old(users), users, r, Deleted(old(users), username))
    {
      var name := TrimSpace(username);
      if !ValidUsername(name) {
        return Some(BadUsername);
      }
      if name !in users {
        return Some(UserNotFound);
      }
      if users[name].role == Admin {
        if OtherAdmins(users, name) == {} {
          return Some(LastAdmin);
        }
      }
      users := users - {name};
      return None;
    }
  }

  // A change of the table reports its problem or takes effect.
  predicate Outcome(before: Users, after: Users, r: Option<Problem>, result: Result<Users>) {
    match result
    case Err(problem) => r == Some(problem) && after == before
    case Ok(users) => r == None && after == users
  }

  class SessionManager {
    var sessions: Sessions

    constructor ()
      ensures sessions == map[]
    {
      sessions := map[];
    }

    method CreateSession(token: string, username: string, role: Role, ttl: int, now: int)
      modifies this
      ensures sessions == old(sessions)[token := Session(username, role, now + ttl)]
    {
      sessions := sessions[token := Session(username, role, now + ttl)];
    }

    method GetSession(token: string, now: int) returns (session: Option<Session>)
      modifies this
      ensures session == Live(old(sessions), token, now)
      ensures sessions == Swept(old(sessions), token, now)
    {
      if token !in sessions {
        return None;
      }
      var found := sessions[token];
      if !(now < found.expiresAt) {
        sessions := sessions - {token};
        return None;
      }
      return Some(found);
    }

    method DeleteSession(token: string)
      modifies this
      ensures sessions == old(sessions) - {token}
    {
      sessions := sessions - {token};
    }

    // Deletes from the map while ranging over it; Go visits the entries in any order.
    method RemoveUser(username: string)
      modifies this
      ensures sessions == Purged(old(sessions), username)
    {
      var tokens := sessions.Keys;
      while tokens != {}
        invariant tokens <= sessions.Keys <= old(sessions).Keys
        invariant forall t :: t in sessions ==> sessions[t] == old(sessions)[t]
        invariant forall t :: t in old(sessions) && t !in sessions ==> old(sessions)[t].username == username
        invariant forall t :: t in sessions && t !in tokens ==> sessions[t].username != username
        decreases tokens
      {
        var token :| token in tokens;
        tokens := tokens - {token};
        if sessions[token].username == username {
          sessions := sessions - {token};
        }
      }
    }
  }

  class AdminServer {
    const config: Config
    const repository: UserRepository
    const manager: SessionManager

    constructor (config: Config)
      ensures this.config == config && fresh(repository) && fresh(manager) && Value() == State(map[], map[])
    {
      this.config := config;
      repository := new UserRepository();
      manager := new SessionManager();
    }

    function Value(): State
      reads repository, manager
    {
      State(repository.users, manager.sessions)
    }

    method RequireRole(token: Option<string>, role: Role, now: int) returns (session: Result<Session>)
      modifies manager
      ensures session == Authorized(old(manager.sessions), token, role, now)
      ensures manager.sessions == Looked(old(manager.sessions), token, now)
    {
      if token.None? {
        return Err(LoginRequired);
      }
      var found := manager.GetSession(token.value, now);
      if found.None? {
        return Err(LoginRequired);
      }
      if !HasRole(found.value.role, role) {
        return Err(PermissionDenied);
      }
      return Ok(found.value);
    }

    method CreateUser(username: string, role: Role, password: string, hashed: Hashed, disabled: bool)
      returns (r: Option<Problem>)
      modifies repository
      ensures Outcome(old(repository.users), repository.users, r,
                      Created(old(repository.users), username, role, password, hashed, disabled))
    {
      var name := TrimSpace(username);
      if !ValidUsername(name) {
        return Some(BadUsername);
      }
      if !ValidRole(role) {
        return Some(BadRole);
      }
      var hash := NewHash(password, hashed);
      if hash.Err? {
        return Some(hash.problem);
      }
      r := repository.CreateUser(name, role, hash.value, disabled);
    }

    method EnsureInitialAdminFromEnv(password: string, hashed: Hashed) returns (r: Option<Problem>)
      modifies repository
      ensures (Value(), r) == Serve(old(Value()), EnvInit(password, hashed), config)
    {
      if Blank(password) {
        return None;
      }
      if repository.users != map[] {
        return None;
      }
      r := CreateUser(ADMIN_NAME, Admin, password, hashed, false);
    }

    method HandleSetup(username: string, password: string, hashed: Hashed) returns (r: Option<Problem>)
      modifies repository
      ensures (Value(), r) == Serve(old(Value()), Setup(username, password, hashed), config)
    {
      var name := username;
      if Blank(name) {
        name := ADMIN_NAME;
      }
      if repository.users != map[] {
        return Some(AlreadyCreated);
      }
      r := CreateUser(name, Admin, password, hashed, false);
    }

    method HandleLogin(username: string, password: string, newToken: string, now: int) returns (r: Option<Problem>)
      modifies manager
      ensures (Value(), r) == Serve(old(Value()), Login(username, password, newToken, now), config)
    {
      var user := Authenticated(repository.users, username, password, config.matches);
      if user.Err? {
        return Some(user.problem);
      }
      manager.CreateSession(newToken, username, user.value.role, config.ttl, now);
      return None;
    }

    method HandleLogout(token: Option<string>, now: int) returns (r: Option<Problem>)
      modifies manager
      ensures (Value(), r) == Serve(old(Value()), Logout(token, now), config)
    {
      if token.None? {
        return Some(LoginRequired);
      }
      var session := manager.GetSession(token.value, now);
      if session.None? {
        return Some(LoginRequired);
      }
      manager.DeleteSession(token.value);
      return None;
    }

    method HandleCreate(token: Option<string>, username: string, role: Role, password: string, hashed: Hashed,
                        disabled: bool, now: int) returns (r: Option<Problem>)
      modifies repository, manager
      ensures (Value(), r) ==
              Serve(old(Value()), Create(token, username, role, password, hashed, disabled, now), config)
    {
      var session := RequireRole(token, Admin, now);
      if session.Err? {
        return Some(session.problem);
      }
      r := CreateUser(username, role, password, hashed, disabled);
    }

    method HandlePatch(token: Option<string>, username: string, patch: PatchRequest, hashed: Hashed, now: int)
      returns (r: Option<Problem>)
      modifies repository, manager
      ensures (Value(), r) == Serve(old(Value()), Patch(token, username, patch, hashed, now), config)
    {
      var session := RequireRole(token, Admin, now);
      if session.Err? {
        return Some(session.problem);
      }
      var name := TrimSpace(username);
      if !ValidUsername(name) {
        return Some(BadUsername);
      }
      TrimTwice(username);
      var invalidate;
      r, invalidate := repository.PatchUser(name, patch, hashed);
      if r.None? && invalidate {
        manager.RemoveUser(name);
      }
    }

    method HandleDelete(token: Option<string>, username: string, now: int) returns (r: Option<Problem>)
      modifies repository, manager
      ensures (Value(), r) == Serve(old(Value()), Delete(token, username, now), config)
    {
      var session := RequireRole(token, Admin, now);
      if session.Err? {
        return Some(session.problem);
      }
      var name := TrimSpace(username);
      if !ValidUsername(name) {
        return Some(BadUsername);
      }
      TrimTwice(username);
      r := repository.DeleteUser(name);
      if r.None? {
        manager.RemoveUser(name);
      }
    }
  }

  lemma TrimTwice(s: string)
    ensures TrimSpace(TrimSpace(s)) == TrimSpace(s)
  {
  }

  // ---------------------------------------------------------------- the invariants

  predicate Agrees(users: Users, s: Session) {
    s.username in users && !users[s.username].disabled && users[s.username].role == s.role
  }

  predicate SessionsAgree(st: State) {
    forall t :: t in st.sessions ==> Agrees(st.users, st.sessions[t])
  }

  ghost predicate HasAdmin(users: Users) {
    users == map[] || exists name :: EnabledAdmin(users, name)
  }

  predicate RowsValid(users: Users) {
    forall name :: name in users ==> ValidUsername(name) && ValidRole(users[name].role) && !Blank(users[name].hash)
  }

  ghost predicate Inv(st: State) {
    SessionsAgree(st) && HasAdmin(st.users) && RowsValid(st.users)
  }

  predicate NeverEmptied(st: State, req: Request, config: Config) {
    st.users != map[] ==> Serve(st, req, config).0.users != map[]
  }

  lemma CreatedKeeps(users: Users, username: string, role: Role, password: string, hashed: Hashed, disabled: bool)
    requires HasAdmin(users) && RowsValid(users)
    requires users == map[] ==> role == Admin && !disabled
    requires Created(users, username, role, password, hashed, disabled).Ok?
    ensures var after := Created(users, username, role, password, hashed, disabled).value;
            && after != map[] && HasAdmin(after) && RowsValid(after)
            && (forall name :: name in users ==> name in after && after[name] == users[name])
            && (forall name :: EnabledAdmin(users, name) ==> EnabledAdmin(after, name))
  {
    hide TrimSpace, Blank, ValidUsername;
    TrimTwice(username);
    var name := TrimSpace(username);
    var after := Created(users, username, role, password, hashed, disabled).value;
    assert name in after && name !in users;
    if users == map[] {
      assert EnabledAdmin(after, name);
    } else {
      var admin :| EnabledAdmin(users, admin);
      assert EnabledAdmin(after, admin);
    }
  }

  lemma RowKeeps(users: Users, name: string, row: User)
    requires HasAdmin(users) && RowsValid(users) && name in users && ValidRole(row.role) && !Blank(row.hash)
    requires users[name].role == Admin && (row.role != Admin || row.disabled) ==> OtherAdmins(users, name) != {}
    ensures HasAdmin(users[name := row]) && RowsValid(users[name := row])
  {
    hide Blank, ValidUsername;
    var after := users[name := row];
    var admin :| EnabledAdmin(users, admin);
    if admin != name {
      assert EnabledAdmin(after, admin);
    } else if row.role == Admin && !row.disabled {
      assert EnabledAdmin(after, name);
    } else {
      var other :| other in OtherAdmins(users, name);
      assert EnabledAdmin(after, other);
    }
  }

  lemma PatchedKeeps(users: Users, username: string, patch: PatchRequest, hashed: Hashed)
    requires HasAdmin(users) && RowsValid(users) && Patched(users, username, patch, hashed).Ok?
    ensures var after := Patched(users, username, patch, hashed).value;
            && after != map[] && HasAdmin(after) && RowsValid(after)
            && after.Keys == users.Keys
            && (forall name :: name in users && name != TrimSpace(username) ==> after[name] == users[name])
  {
    hide TrimSpace, Blank, HasAdmin, OtherAdmins, ValidUsername;
    var name := TrimSpace(username);
    var after := Patched(users, username, patch, hashed).value;
    assert name in after;
    RowKeeps(users, name, after[name]);
    assert after == users[name := after[name]];
  }

  lemma DeletedKeeps(users: Users, username: string)
    requires HasAdmin(users) && RowsValid(users) && Deleted(users, username).Ok?
    ensures var after := Deleted(users, username).value;
            after != map[] && HasAdmin(after) && RowsValid(after) && after == users - {TrimSpace(username)}
  {
    var name := TrimSpace(username);
    var after := Deleted(users, username).value;
    var admin :| EnabledAdmin(users, admin);
    if admin != name {
      assert admin in after && EnabledAdmin(after, admin);
    } else {
      var other :| other in OtherAdmins(users, name);
      assert other in after && EnabledAdmin(after, other);
    }
  }

  // A live admin session means that the table has an enabled admin, so it is not empty.
  lemma AdminSession(st: State, token: Option<string>, now: int)
    requires SessionsAgree(st) && Authorized(st.sessions, token, Admin, now).Ok?
    ensures EnabledAdmin(st.users, Authorized(st.sessions, token, Admin, now).value.username)
    ensures st.users != map[]
  {
    assert Agrees(st.users, st.sessions[token.value]);
  }

  // Sessions that survive a change of one row name other accounts, or one that kept role and access.
  lemma PurgeAgrees(before: State, after: State, name: string)
    requires SessionsAgree(before)
    requires forall t :: t in after.sessions ==> t in before.sessions && after.sessions[t] == before.sessions[t]
    requires forall u :: u in before.users && u != name ==> u in after.users && after.users[u] == before.users[u]
    requires (exists t :: t in after.sessions && after.sessions[t].username == name) ==>
               && name in before.users && name in after.users
               && after.users[name].role == before.users[name].role && !after.users[name].disabled
    ensures SessionsAgree(after)
  {
    forall t | t in after.sessions
      ensures Agrees(after.users, after.sessions[t])
    {
      assert Agrees(before.users, before.sessions[t]);
    }
  }

  lemma CreateKeepsInv(st: State, req: Request, config: Config)
    requires Inv(st) && req.Create?
    ensures Inv(Serve(st, req, config).0) && NeverEmptied(st, req, config)
  {
    if Authorized(st.sessions, req.token, Admin, req.now).Ok? {
      AdminSession(st, req.token, req.now);
      if Created(st.users, req.username, req.role, req.password, req.hashed, req.disabled).Ok? {
        CreatedKeeps(st.users, req.username, req.role, req.password, req.hashed, req.disabled);
      }
    }
  }

  lemma PatchKeepsInv(st: State, req: Request, config: Config)
    requires Inv(st) && req.Patch?
    ensures Inv(Serve(st, req, config).0) && NeverEmptied(st, req, config)
  {
    hide OtherAdmins, HasAdmin, RowsValid, TrimSpace, ValidUsername, Blank;
    var name := TrimSpace(req.username);
    TrimTwice(req.username);
    var result := Patched(st.users, name, req.patch, req.hashed);
    if Authorized(st.sessions, req.token, Admin, req.now).Ok? && result.Ok? {
      PatchedKeeps(st.users, name, req.patch, req.hashed);
      PurgeAgrees(st, Serve(st, req, config).0, name);
    }
  }

  lemma DeleteKeepsInv(st: State, req: Request, config: Config)
    requires Inv(st) && req.Delete?
    ensures Inv(Serve(st, req, config).0) && NeverEmptied(st, req, config)
  {
    hide OtherAdmins, HasAdmin, RowsValid, TrimSpace, ValidUsername, Blank;
    var name := TrimSpace(req.username);
    TrimTwice(req.username);
    if Authorized(st.sessions, req.token, Admin, req.now).Ok? && Deleted(st.users, name).Ok? {
      DeletedKeeps(st.users, name);
      PurgeAgrees(st, Serve(st, req, config).0, name);
    }
  }

  lemma SetupKeepsInv(st: State, req: Request, config: Config)
    requires Inv(st) && (req.Setup? || req.EnvInit?)
    ensures Inv(Serve(st, req, config).0) && NeverEmptied(st, req, config)
  {
    if st.users == map[] {
      var name := if req.Setup? then SetupName(req.username) else ADMIN_NAME;
      if Created(st.users, name, Admin, req.password, req.hashed, false).Ok? {
        CreatedKeeps(st.users, name, Admin, req.password, req.hashed, false);
      }
    }
  }

  lemma SessionKeepsInv(st: State, req: Request, config: Config)
    requires Inv(st) && (req.Login? || req.Logout?)
    ensures Inv(Serve(st, req, config).0) && NeverEmptied(st, req, config)
  {
    hide HasAdmin, RowsValid;
    assert Serve(st, req, config).0.users == st.users;
  }

  lemma RequestKeepsInv(st: State, req: Request, config: Config)
    requires Inv(st)
    ensures Inv(Serve(st, req, config).0) && NeverEmptied(st, req, config)
  {
    hide *;
    match req
    case EnvInit(_, _) => SetupKeepsInv(st, req, config);
    case Setup(_, _, _) => SetupKeepsInv(st, req, config);
    case Login(_, _, _, _) => SessionKeepsInv(st, req, config);
    case Logout(_, _) => SessionKeepsInv(st, req, config);
    case Create(_, _, _, _, _, _, _) => CreateKeepsInv(st, req, config);
    case Patch(_, _, _, _, _) => PatchKeepsInv(st, req, config);
    case Delete(_, _, _) => DeleteKeepsInv(st, req, config);
  }

  // ---------------------------------------------------------------- every run

  function Run(st: State, reqs: seq<Request>, config: Config): State
    decreases |reqs|
  {
    if reqs == [] then st else Run(Serve(st, reqs[0], config).0, reqs[1..], config)
  }

  // Over every run from the empty state: each session names an existing enabled user with that role,
  // and the table is empty or has an enabled admin.
  lemma {:induction false} RunKeepsInv(st: State, reqs: seq<Request>, config: Config)
    requires Inv(st)
    ensures Inv(Run(st, reqs, config))
    ensures st.users != map[] ==> Run(st, reqs, config).users != map[]
    decreases |reqs|
  {
    if reqs != [] {
      RequestKeepsInv(st, reqs[0], config);
      RunKeepsInv(Serve(st, reqs[0], config).0, reqs[1..], config);
    }
  }

  // Requests that create the initial admin.
  predicate CreatesInitialAdmin(st: State, req: Request, config: Config) {
    (req.Setup? || req.EnvInit?) && Serve(st, req, config).0.users != st.users
  }

  function InitialAdmins(st: State, reqs: seq<Request>, config: Config): nat
    decreases |reqs|
  {
    if reqs == [] then 0
    else
      (if CreatesInitialAdmin(st, reqs[0], config) then 1 else 0)
      + InitialAdmins(Serve(st, reqs[0], config).0, reqs[1..], config)
  }

  // Initial setup succeeds at most once in any run, and never on a table that has users; it is what
  // fills the table.
  lemma {:induction false} SetupSucceedsAtMostOnce(st: State, reqs: seq<Request>, config: Config)
    requires Inv(st)
    ensures InitialAdmins(st, reqs, config)
            == if st.users == map[] && Run(st, reqs, config).users != map[] then 1 else 0
    decreases |reqs|
  {
    if reqs != [] {
      var next := Serve(st, reqs[0], config).0;
      RequestKeepsInv(st, reqs[0], config);
      SetupSucceedsAtMostOnce(next, reqs[1..], config);
      RunKeepsInv(next, reqs[1..], config);
      OnlySetupFills(st, reqs[0], config);
    }
  }

  // On an empty table nobody is logged in, so only initial setup can add a user.
  lemma OnlySetupFills(st: State, req: Request, config: Config)
    requires Inv(st)
    ensures CreatesInitialAdmin(st, req, config)
            <==> st.users == map[] && Serve(st, req, config).0.users != map[]
  {
    if (req.Create? || req.Patch? || req.Delete?) && Authorized(st.sessions, req.token, Admin, req.now).Ok? {
      AdminSession(st, req.token, req.now);
    } else if req.Setup? || req.EnvInit? {
      RequestKeepsInv(st, req, config);
    }
  }

  // Whoever changes the table through a session is an enabled admin at that moment, in every run.
  lemma ChangesNeedAnAdmin(st: State, reqs: seq<Request>, req: Request, config: Config)
    requires Inv(st) && (req.Create? || req.Patch? || req.Delete?)
    requires var now := Run(st, reqs, config); Serve(now, req, config).0.users != now.users
    ensures var now := Run(st, reqs, config);
            && req.token.Some? && req.token.value in now.sessions
            && EnabledAdmin(now.users, now.sessions[req.token.value].username)
  {
    RunKeepsInv(st, reqs, config);
    AdminSession(Run(st, reqs, config), req.token, req.now);
  }

  // Deleting, disabling or demoting an account is refused for lack of admins exactly when the account
  // is the only enabled admin.
  lemma GuardIsExact(st: State, username: string, patch: PatchRequest, hashed: Hashed)
    requires Inv(st) && ValidUsername(TrimSpace(username)) && TrimSpace(username) in st.users
    requires patch.role.Some? ==> ValidRole(patch.role.value)
    ensures var name := TrimSpace(username);
            var lone := EnabledAdmin(st.users, name) && OtherAdmins(st.users, name) == {};
            var row := PatchedRow(st.users[name], patch);
            && (Deleted(st.users, username) == Err(LastAdmin) <==> lone)
            && (Patched(st.users, username, patch, hashed) == Err(LastAdmin)
                <==> lone && (row.role != Admin || row.disabled))
  {
    hide TrimSpace, Blank, HasAdmin, OtherAdmins, ValidUsername, RowsValid, SessionsAgree;
    var name := TrimSpace(username);
    assert st.users != map[];
    if !EnabledAdmin(st.users, name) {
      SomeoneElseIsAdmin(st.users, name);
    }
  }

  lemma SomeoneElseIsAdmin(users: Users, name: string)
    requires HasAdmin(users) && users != map[] && !EnabledAdmin(users, name)
    ensures OtherAdmins(users, name) != {}
  {
    var admin :| EnabledAdmin(users, admin);
    assert admin in OtherAdmins(users, name);
  }

  predicate LoggedIn(sessions: Sessions, username: string) {
    exists t :: t in sessions && sessions[t].username == username
  }

  // A successful delete, or a patch that disables, changes the role or sets a password, ends every
  // session of the account; any other successful patch ends none but an expired one.
  lemma ChangesEndSessions(st: State, req: Request, config: Config)
    requires req.Patch? || req.Delete?
    requires Serve(st, req, config).1.None?
    ensures var name, after := TrimSpace(req.username), Serve(st, req, config).0;
            && name in st.users
            && (req.Delete? || Invalidates(st.users[name], req.patch) ==>
                  after.sessions == Purged(st.sessions, name) && !LoggedIn(after.sessions, name))
            && (req.Patch? && !Invalidates(st.users[name], req.patch) ==> after.sessions == st.sessions)
  {
    TrimTwice(req.username);
  }

  lemma CreatedExtends(users: Users, username: string, role: Role, password: string, hashed: Hashed, disabled: bool)
    requires Created(users, username, role, password, hashed, disabled).Ok?
    ensures exists name, row: User ::
              && name !in users && row.role == role && row.disabled == disabled
              && Created(users, username, role, password, hashed, disabled).value == users[name := row]
  {
    hide TrimSpace, Blank, ValidUsername;
  }

  lemma PatchedRowOnly(users: Users, username: string, patch: PatchRequest, hashed: Hashed)
    requires Patched(users, username, patch, hashed).Ok?
    ensures var name, after := TrimSpace(username), Patched(users, username, patch, hashed).value;
            && name in users && name in after
            && after[name].role == PatchedRow(users[name], patch).role
            && after[name].disabled == PatchedRow(users[name], patch).disabled
            && (forall u :: u in users && u != name ==> u in after && after[u] == users[u])
  {
    hide TrimSpace, Blank, ValidUsername, OtherAdmins;
  }

  // The sessions' invariant needs no other: every handler keeps it by itself.
  lemma SessionsKeepThemselves(st: State, req: Request, config: Config)
    requires SessionsAgree(st)
    ensures SessionsAgree(Serve(st, req, config).0)
  {
    hide TrimSpace, Blank, ValidUsername, OtherAdmins, Created, Patched, Deleted;
    var after := Serve(st, req, config).0;
    match req
    case Login(_, _, _, _) =>
    case Logout(_, _) =>
    case EnvInit(password, hashed) =>
      if after.users != st.users {
        CreatedExtends(st.users, ADMIN_NAME, Admin, password, hashed, false);
      }
    case Setup(username, password, hashed) =>
      if after.users != st.users {
        CreatedExtends(st.users, SetupName(username), Admin, password, hashed, false);
      }
    case Create(_, username, role, password, hashed, disabled, _) =>
      if Created(st.users, username, role, password, hashed, disabled).Ok? {
        CreatedExtends(st.users, username, role, password, hashed, disabled);
      }
    case Patch(_, username, patch, hashed, _) =>
      TrimTwice(username);
      var name := TrimSpace(username);
      if Patched(st.users, name, patch, hashed).Ok? {
        PatchedRowOnly(st.users, name, patch, hashed);
        PurgeAgrees(st, after, name);
      }
    case Delete(_, username, _) =>
      TrimTwice(username);
      var name := TrimSpace(username);
      if Deleted(st.users, name).Ok? {
        DeletedFrame(st.users, name);
        PurgeAgrees(st, after, name);
      }
  }

  lemma DeletedFrame(users: Users, username: string)
    requires Deleted(users, username).Ok?
    ensures Deleted(users, username).value == users - {TrimSpace(username)}
  {
  }

  // The table's invariant leans on the sessions': with an admin session that no user backs, creating a
  // member on an empty table leaves a table without an admin.
  lemma StaleAdminSessionBreaksTable(config: Config)
    ensures var st := State(map[], map["t" := Session("ghost", Admin, 1)]);
            var req := Create(Some("t"), "m", Member, "p", Some("h"), false, 0);
            HasAdmin(st.users) && !SessionsAgree(st) && !HasAdmin(Serve(st, req, config).0.users)
  {
    var st := State(map[], map["t" := Session("ghost", Admin, 1)]);
    var req := Create(Some("t"), "m", Member, "p", Some("h"), false, 0);
    assert "t" in st.sessions;
    assert !IsSpace("m"[0]) && !IsSpace("p"[0]) && !IsSpace("h"[0]);
    assert Serve(st, req, config).0.users == map["m" := User(Member, "h", false)];
    assert "m" in Serve(st, req, config).0.users;
  }

  // That is the only way: whatever the sessions are, a handler leaves a table without an admin exactly
  // when a session lets it create, in the empty table, somebody who is not an enabled admin.
  lemma TableBreaksExactly(st: State, req: Request, config: Config)
    requires HasAdmin(st.users) && RowsValid(st.users)
    ensures !HasAdmin(Serve(st, req, config).0.users)
            <==> && req.Create? && st.users == map[] && Serve(st, req, config).1.None?
                 && !(req.role.Admin? && !req.disabled)
  {
    hide TrimSpace, Blank, ValidUsername, OtherAdmins, Created, Patched, Deleted, RowsValid;
    match req
    case Login(_, _, _, _) =>
    case Logout(_, _) =>
    case EnvInit(password, hashed) =>
      if Created(st.users, ADMIN_NAME, Admin, password, hashed, false).Ok? {
        AdminsStay(st.users, ADMIN_NAME, Admin, password, hashed, false);
      }
    case Setup(username, password, hashed) =>
      if Created(st.users, SetupName(username), Admin, password, hashed, false).Ok? {
        AdminsStay(st.users, SetupName(username), Admin, password, hashed, false);
      }
    case Create(_, username, role, password, hashed, disabled, _) =>
      if Created(st.users, username, role, password, hashed, disabled).Ok? {
        AdminsStay(st.users, username, role, password, hashed, disabled);
      }
    case Patch(_, username, patch, hashed, _) =>
      if Patched(st.users, TrimSpace(username), patch, hashed).Ok? {
        PatchedKeeps(st.users, TrimSpace(username), patch, hashed);
      }
    case Delete(_, username, _) =>
      if Deleted(st.users, TrimSpace(username)).Ok? {
        DeletedKeeps(st.users, TrimSpace(username));
      }
  }

  lemma AdminsStay(users: Users, username: string, role: Role, password: string, hashed: Hashed, disabled: bool)
    requires HasAdmin(users) && Created(users, username, role, password, hashed, disabled).Ok?
    ensures HasAdmin(Created(users, username, role, password, hashed, disabled).value)
            <==> users != map[] || (role == Admin && !disabled)
  {
    CreatedExtends(users, username, role, password, hashed, disabled);
    hide Created;
    var after := Created(users, username, role, password, hashed, disabled).value;
    var name, row: User :|
      name !in users && row.role == role && row.disabled == disabled && after == users[name := row];
    assert name in after;
    if users != map[] {
      var admin :| EnabledAdmin(users, admin);
      assert EnabledAdmin(after, admin);
    } else if role == Admin && !disabled {
      assert EnabledAdmin(after, name);
    }
  }
}
