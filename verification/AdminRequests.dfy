// What each admin request does, stated from the table, the sessions and the request alone; and where
// the sessions and password hashes of a run come from.
module AdminRequests {
  import opened Common
  import opened Text
  import opened AdminAccounts

  // ---------------------------------------------------------------- who may do what

  // The bearer of the token is an admin whose session has not expired.
  predicate HoldsAdminSession(sessions: Sessions, token: Option<string>, now: int) {
    && token.Some? && token.value in sessions
    && now < sessions[token.value].expiresAt && sessions[token.value].role == Admin
  }

  predicate GoodName(name: string) {
    name != "" && forall i :: 0 <= i < |name| ==> name[i] != ' ' && name[i] != '\t' && name[i] != '\r'
                                                   && name[i] != '\n' && name[i] != '/'
  }

  lemma GoodNameIsValid(name: string)
    ensures ValidUsername(name) <==> GoodName(name)
  {
    if ValidUsername(name) {
      forall i | 0 <= i < |name|
        ensures name[i] !in " \t\r\n/"
      {
        assert name[i] in name;
      }
    }
  }

  // A password that is not blank, with the hash that bcrypt made of it; a blank hash is refused too.
  predicate GoodPassword(password: string, hashed: Hashed) {
    !Blank(password) && hashed.Some? && !Blank(hashed.value)
  }

  lemma AdminSessionsOnly(sessions: Sessions, token: Option<string>, now: int)
    ensures Authorized(sessions, token, Admin, now).Ok? <==> HoldsAdminSession(sessions, token, now)
  {
  }

  // A role has its own rights and those of every lower one; the known roles are above all others.
  lemma RolesAreOrdered(actual: Role, required: Role)
    ensures HasRole(actual, required) <==>
              || actual == Admin || required.Unknown? || actual == required
              || (actual == Member && required == Guest)
  {
  }

  // A failing request takes no session, except the one of its own token when that has expired.
  predicate OnlyExpiredGone(before: Sessions, after: Sessions, token: Option<string>, now: int) {
    && (forall t :: t in after ==> t in before && after[t] == before[t])
    && (forall t :: t in before ==> (t !in after <==> token == Some(t) && before[t].expiresAt <= now))
  }

  // ---------------------------------------------------------------- login and logout

  // A login succeeds exactly with an existing enabled user whose stored hash accepts the password; then
  // just the new token is added, for that user, role and time to live. Otherwise nothing changes.
  lemma LoginExactly(st: State, username: string, password: string, newToken: string, now: int, config: Config)
    ensures var (after, problem) := Serve(st, Login(username, password, newToken, now), config);
            && (problem.None? <==>
                  username in st.users && !st.users[username].disabled
                  && config.matches(st.users[username].hash, password))
            && (problem.None? ==>
                  after == State(st.users, st.sessions[newToken :=
                                   Session(username, st.users[username].role, now + config.ttl)]))
            && (problem.Some? ==> after == st)
            && (username in st.users && st.users[username].disabled ==> problem == Some(UserDisabled))
            && (problem.Some? && problem != Some(UserDisabled) ==> problem == Some(BadLogin))
  {
  }

  // A logout succeeds exactly with a session that has not expired, and ends that session.
  lemma LogoutExactly(st: State, token: Option<string>, now: int, config: Config)
    ensures var (after, problem) := Serve(st, Logout(token, now), config);
            && after.users == st.users
            && (problem.None? <==> token.Some? && token.value in st.sessions
                                   && now < st.sessions[token.value].expiresAt)
            && (problem.None? ==> after.sessions == st.sessions - {token.value})
            && (problem.Some? ==> problem == Some(LoginRequired)
                                  && OnlyExpiredGone(st.sessions, after.sessions, token, now))
  {
  }

  // ---------------------------------------------------------------- changes of the table

  // Initial setup, by a request or from the environment.
  lemma SetupExactly(st: State, username: string, password: string, hashed: Hashed, config: Config)
    ensures var (after, problem) := Serve(st, Setup(username, password, hashed), config);
            var name := if Blank(username) then "admin" else TrimSpace(username);
            && (problem.None? <==> st.users == map[] && GoodName(name) && GoodPassword(password, hashed))
            && (problem.None? ==> after == State(map[name := User(Admin, hashed.value, false)], st.sessions))
            && (problem.Some? ==> after == st)
            && (problem == Some(AlreadyCreated) <==> st.users != map[])
  {
    hide TrimSpace, ValidUsername;
    var name := if Blank(username) then "admin" else TrimSpace(username);
    TrimTwice(username);
    AdminTrims();
    GoodNameIsValid(name);
  }

  lemma AdminTrims()
    ensures TrimSpace("admin") == "admin" && ADMIN_NAME == "admin" && GoodName("admin")
  {
    assert !IsSpace("admin"[0]) && !IsSpace("admin"[4]);
  }

  lemma EnvInitExactly(st: State, password: string, hashed: Hashed, config: Config)
    ensures var (after, problem) := Serve(st, EnvInit(password, hashed), config);
            && (after.users != st.users <==> st.users == map[] && GoodPassword(password, hashed))
            && (after.users != st.users ==>
                  after == State(map["admin" := User(Admin, hashed.value, false)], st.sessions) && problem.None?)
            && (after.users == st.users ==> after == st)
            && (Blank(password) || st.users != map[] ==> problem.None?)
  {
    hide TrimSpace, ValidUsername, GoodName;
    AdminTrims();
    GoodNameIsValid("admin");
    if st.users == map[] && GoodPassword(password, hashed) {
      assert "admin" in Serve(st, EnvInit(password, hashed), config).0.users;
    }
  }

  lemma CreateExactly(st: State, req: Request, config: Config)
    requires req.Create?
    ensures var (after, problem) := Serve(st, req, config);
            var name := TrimSpace(req.username);
            && (problem.None? <==>
                  && HoldsAdminSession(st.sessions, req.token, req.now)
                  && GoodName(name) && name !in st.users && !req.role.Unknown?
                  && GoodPassword(req.password, req.hashed))
            && (problem.None? ==>
                  after == State(st.users[name := User(req.role, req.hashed.value, req.disabled)], st.sessions))
            && (problem.Some? ==>
                  after.users == st.users && OnlyExpiredGone(st.sessions, after.sessions, req.token, req.now))
  {
    hide TrimSpace, ValidUsername, HoldsAdminSession;
    TrimTwice(req.username);
    GoodNameIsValid(TrimSpace(req.username));
    AdminSessionsOnly(st.sessions, req.token, req.now);
  }

  // The row that a patch asks for.
  predicate PatchesTo(row: User, patch: PatchRequest, hashed: Hashed, after: User) {
    && after.role == (if patch.role.Some? then patch.role.value else row.role)
    && after.disabled == (if patch.disabled.Some? then patch.disabled.value else row.disabled)
    && after.hash == (if patch.password.Some? && hashed.Some? then hashed.value else row.hash)
  }

  // A patch would take away the last enabled admin.
  ghost predicate TakesLastAdmin(users: Users, name: string, patch: PatchRequest)
    requires name in users
  {
    && users[name].role == Admin
    && ((patch.role.Some? && patch.role.value != Admin)
        || (if patch.disabled.Some? then patch.disabled.value else users[name].disabled))
    && forall u :: u in users && u != name ==> users[u].role != Admin || users[u].disabled
  }

  lemma OtherAdminsExactly(users: Users, name: string)
    ensures OtherAdmins(users, name) == {} <==>
              forall u :: u in users && u != name ==> users[u].role != Admin || users[u].disabled
  {
    if OtherAdmins(users, name) == {} {
      forall u | u in users && u != name
        ensures users[u].role != Admin || users[u].disabled
      {
        assert u !in OtherAdmins(users, name);
      }
    }
  }

  lemma PatchedExactly(users: Users, name: string, patch: PatchRequest, hashed: Hashed)
    requires TrimSpace(name) == name
    ensures Patched(users, name, patch, hashed).Ok? <==>
              && GoodName(name) && name in users
              && (patch.role.Some? ==> !patch.role.value.Unknown?)
              && !TakesLastAdmin(users, name, patch)
              && (patch.password.Some? ==> GoodPassword(patch.password.value, hashed))
    ensures Patched(users, name, patch, hashed).Ok? ==>
              var after := Patched(users, name, patch, hashed).value;
              && after.Keys == users.Keys && PatchesTo(users[name], patch, hashed, after[name])
              && forall u :: u in users && u != name ==> after[u] == users[u]
  {
    hide TrimSpace, ValidUsername, OtherAdmins;
    GoodNameIsValid(name);
    OtherAdminsExactly(users, name);
  }

  lemma PatchExactly(st: State, req: Request, config: Config)
    requires req.Patch?
    ensures var (after, problem) := Serve(st, req, config);
            var name := TrimSpace(req.username);
            && (problem.None? <==>
                  && HoldsAdminSession(st.sessions, req.token, req.now)
                  && GoodName(name) && name in st.users
                  && (req.patch.role.Some? ==> !req.patch.role.value.Unknown?)
                  && !TakesLastAdmin(st.users, name, req.patch)
                  && (req.patch.password.Some? ==> GoodPassword(req.patch.password.value, req.hashed)))
            && (problem.None? ==>
                  && after.users.Keys == st.users.Keys
                  && PatchesTo(st.users[name], req.patch, req.hashed, after.users[name])
                  && forall u :: u in st.users && u != name ==> after.users[u] == st.users[u])
            && (problem.Some? ==>
                  after.users == st.users && OnlyExpiredGone(st.sessions, after.sessions, req.token, req.now))
  {
    hide TrimSpace, Patched, HoldsAdminSession, GoodName, GoodPassword, PatchesTo, TakesLastAdmin;
    TrimTwice(req.username);
    PatchedExactly(st.users, TrimSpace(req.username), req.patch, req.hashed);
    AdminSessionsOnly(st.sessions, req.token, req.now);
  }

  lemma DeleteExactly(st: State, req: Request, config: Config)
    requires req.Delete?
    ensures var (after, problem) := Serve(st, req, config);
            var name := TrimSpace(req.username);
            && (problem.None? <==>
                  && HoldsAdminSession(st.sessions, req.token, req.now)
                  && GoodName(name) && name in st.users
                  && (st.users[name].role == Admin ==>
                        exists u :: u in st.users && u != name && st.users[u].role == Admin && !st.users[u].disabled))
            && (problem.None? ==> after.users == st.users - {name})
            && (problem.Some? ==>
                  after.users == st.users && OnlyExpiredGone(st.sessions, after.sessions, req.token, req.now))
  {
    hide TrimSpace, ValidUsername, HoldsAdminSession, OtherAdmins;
    TrimTwice(req.username);
    GoodNameIsValid(TrimSpace(req.username));
    OtherAdminsExactly(st.users, TrimSpace(req.username));
    AdminSessionsOnly(st.sessions, req.token, req.now);
  }

  // ---------------------------------------------------------------- where things come from

  lemma {:induction false} RunSnoc(st: State, reqs: seq<Request>, config: Config)
    requires reqs != []
    ensures Run(st, reqs, config) == Serve(Run(st, reqs[..|reqs| - 1], config), reqs[|reqs| - 1], config).0
    decreases |reqs|
  {
    if |reqs| > 1 {
      assert reqs[1..][..|reqs| - 2] == reqs[..|reqs| - 1][1..];
      RunSnoc(Serve(st, reqs[0], config).0, reqs[1..], config);
    }
  }

  // Request k of the run is the login that made the session: its user was enabled, and the user's hash
  // at that time accepted the password.
  predicate MadeBy(st: State, reqs: seq<Request>, config: Config, k: nat, token: string, session: Session) {
    && k < |reqs| && reqs[k].Login? && reqs[k].newToken == token
    && var users := Run(st, reqs[..k], config).users;
       && reqs[k].username in users && !users[reqs[k].username].disabled
       && config.matches(users[reqs[k].username].hash, reqs[k].password)
       && session == Session(reqs[k].username, users[reqs[k].username].role, reqs[k].now + config.ttl)
  }

  lemma SessionsOnlyByLogin(st: State, req: Request, config: Config, token: string)
    requires token in Serve(st, req, config).0.sessions
    requires !(req.Login? && req.newToken == token)
    ensures token in st.sessions && Serve(st, req, config).0.sessions[token] == st.sessions[token]
  {
    hide TrimSpace, Created, Patched, Deleted, InitialAdmin;
  }

  // Every session stored after a run from no sessions was made by a login with the right password.
  lemma {:induction false} SessionsComeFromLogins(st: State, reqs: seq<Request>, config: Config, token: string)
    returns (k: nat)
    requires st.sessions == map[] && token in Run(st, reqs, config).sessions
    ensures MadeBy(st, reqs, config, k, token, Run(st, reqs, config).sessions[token])
    decreases |reqs|
  {
    hide Serve;
    var n := |reqs| - 1;
    RunSnoc(st, reqs, config);
    var before, last := Run(st, reqs[..n], config), reqs[n];
    if last.Login? && last.newToken == token && Serve(before, last, config).1.None? {
      k := n;
      LoginExactly(before, last.username, last.password, token, last.now, config);
    } else {
      if last.Login? && last.newToken == token {
        LoginExactly(before, last.username, last.password, token, last.now, config);
      } else {
        SessionsOnlyByLogin(before, last, config, token);
      }
      k := SessionsComeFromLogins(st, reqs[..n], config, token);
      assert reqs[..n][..k] == reqs[..k];
    }
  }

  // A request that gives a user this hash, if it succeeds: bcrypt made it of the request's password.
  predicate GivesHash(req: Request, name: string, hash: string) {
    match req
    case EnvInit(password, hashed) => name == "admin" && !Blank(password) && hashed == Some(hash)
    case Setup(username, password, hashed) =>
      name == (if Blank(username) then "admin" else TrimSpace(username)) && !Blank(password) && hashed == Some(hash)
    case Create(_, username, _, password, hashed, _, _) =>
      name == TrimSpace(username) && !Blank(password) && hashed == Some(hash)
    case Patch(_, username, patch, hashed, _) =>
      name == TrimSpace(username) && patch.password.Some? && !Blank(patch.password.value) && hashed == Some(hash)
    case _ => false
  }

  lemma HashStep(st: State, req: Request, config: Config, name: string)
    requires name in Serve(st, req, config).0.users
    ensures var hash := Serve(st, req, config).0.users[name].hash;
            GivesHash(req, name, hash) || (name in st.users && st.users[name].hash == hash)
  {
    hide Serve, TrimSpace, TakesLastAdmin;
    match req
    case EnvInit(password, hashed) => EnvInitExactly(st, password, hashed, config);
    case Setup(username, password, hashed) => SetupExactly(st, username, password, hashed, config);
    case Create(_, _, _, _, _, _, _) => CreateExactly(st, req, config);
    case Patch(_, _, _, _, _) => PatchExactly(st, req, config);
    case Delete(_, _, _) => DeleteExactly(st, req, config);
    case Login(username, password, newToken, now) => LoginExactly(st, username, password, newToken, now, config);
    case Logout(token, now) => LogoutExactly(st, token, now, config);
  }

  // Every hash stored after a run from the empty table was made by bcrypt for a request that names the
  // user: a setup, a create or a patch with a password.
  lemma {:induction false} HashesComeFromPasswords(st: State, reqs: seq<Request>, config: Config, name: string)
    returns (k: nat)
    requires st.users == map[] && name in Run(st, reqs, config).users
    ensures k < |reqs| && GivesHash(reqs[k], name, Run(st, reqs, config).users[name].hash)
    decreases |reqs|
  {
    hide Serve, GivesHash;
    var n := |reqs| - 1;
    RunSnoc(st, reqs, config);
    HashStep(Run(st, reqs[..n], config), reqs[n], config, name);
    if GivesHash(reqs[n], name, Run(st, reqs, config).users[name].hash) {
      k := n;
    } else {
      k := HashesComeFromPasswords(st, reqs[..n], config, name);
    }
  }
}
