/** Client tokens: issuing and verifying (apps/client_auth/services.py) and the life of the users they name
    (apps/client_auth/views.py, admin.py) as runs of one state machine. Signatures are unforgeable: the only
    tokens that decode are those that were issued. Instants are milliseconds, claims whole seconds. */
module ClientTokens {
  import opened PyStrings

  datatype User = User(app: nat, email: string, active: bool, version: nat)

  datatype Kind = Access | Refresh

  datatype Claims = Claims(sub: string, app: nat, version: nat, kind: Kind, iat: nat, nbf: nat, exp: nat)

  /** CLIENT_ACCESS_TOKEN_LIFETIME and CLIENT_REFRESH_TOKEN_LIFETIME in seconds. */
  function Lifetime(kind: Kind): nat { if kind == Access then 15 * 60 else 7 * 24 * 3600 }

  /** _make_token from a user row as it was read; dates are truncated to seconds. */
  function MakeToken(id: nat, user: User, kind: Kind, now: nat): Claims {
    Claims(Str(id), user.app, user.version, kind, now / 1000, now / 1000, now / 1000 + Lifetime(kind))
  }

  /** jwt.decode accepts the dates. */
  predicate InTime(claims: Claims, now: nat) {
    claims.iat * 1000 <= now && claims.nbf * 1000 <= now < claims.exp * 1000
  }

  /** verify_client_token on signed claims; None stands for ClientTokenError. */
  function Verify(claims: Claims, app: nat, appActive: bool, kind: Kind, users: map<nat, User>, now: nat): Option<nat> {
    if !InTime(claims, now) || claims.kind != kind || !IsDecimal(claims.sub) || claims.app != app then None
    else
      var id := Int(claims.sub);
      if id in users && users[id].app == app && users[id].active && users[id].version == claims.version && appActive
      then Some(id) else None
  }

  /** A token verifies exactly while its dates hold and its user, as the table has it now, is active in the
      presented application with the version and application the token was made from. */
  lemma VerifiesExactly(id: nat, user: User, kind: Kind, made: nat, app: nat, appActive: bool, wanted: Kind,
                        users: map<nat, User>, now: nat)
    ensures Verify(MakeToken(id, user, kind, made), app, appActive, wanted, users, now) ==
            if && kind == wanted && made - made % 1000 <= now
               && now < made - made % 1000 + (if kind == Access then 15 * 60 * 1000 else 7 * 24 * 3600 * 1000)
               && appActive && id in users && users[id].active
               && users[id].app == user.app == app && users[id].version == user.version
            then Some(id) else None
  {
    IntStr(id);
  }

  // ---- runs ----

  /** A request between its read of a user row and what it does with it. An administrator's edit reads the row
      itself, whenever its page was opened, and saves all columns. */
  datatype Session =
    | LoggingIn(id: nat, user: User)
    | Refreshing(id: nat, user: User, root: nat, verifiedAt: nat)
    | Editing(id: nat, user: User)

  /** A token, the row it was made from, and the instant of the login it derives from. `lag` is the time its
      request took between verifying a refresh token and making it. */
  datatype Issued = Issued(claims: Claims, id: nat, user: User, at: nat, root: nat, lag: nat)

  /** `peak` holds the highest version each user ever had. */
  datatype State = State(clock: nat, users: map<nat, User>, peak: map<nat, nat>, sessions: map<nat, Session>,
                         issued: set<Issued>)

  datatype Step =
    | Tick(ms: nat)
    | Register(id: nat, app: nat, email: string)
    | LoginRead(session: nat, id: nat)
    | LoginIssue(session: nat)
    | RefreshVerify(session: nat, token: Issued, app: nat, appActive: bool)
    | RefreshIssue(session: nat)
    | Disable(id: nat)
    | EditRead(session: nat, id: nat)
    | EditSave(session: nat, app: nat, email: string, active: bool)
    | DeleteUser(id: nat)

  predicate Enabled(s: State, step: Step) {
    match step
    case Tick(_) => true
    case Register(id, app, email) =>
      id !in s.peak && forall i <- s.users :: s.users[i].app != app || s.users[i].email != email
    case LoginRead(session, id) => session !in s.sessions && id in s.users && s.users[id].active
    case LoginIssue(session) => session in s.sessions && s.sessions[session].LoggingIn?
    case RefreshVerify(session, token, app, appActive) =>
      && session !in s.sessions && token in s.issued
      && Verify(token.claims, app, appActive, Refresh, s.users, s.clock).Some?
    case RefreshIssue(session) => session in s.sessions && s.sessions[session].Refreshing?
    case Disable(id) => true
    case EditRead(session, id) => session !in s.sessions && id in s.users
    case EditSave(session, app, email, _) =>
      && session in s.sessions && s.sessions[session].Editing?
      && forall i <- s.users :: i != s.sessions[session].id ==> s.users[i].app != app || s.users[i].email != email
    case DeleteUser(id) => id in s.users
  }

  function Max(a: nat, b: nat): nat { if a <= b then b else a }

  /** The user row and its highest version after a write. */
  function Put(s: State, id: nat, user: User): State {
    s.(users := s.users[id := user],
       peak := s.peak[id := if id in s.peak then Max(s.peak[id], user.version) else user.version])
  }

  function Open(s: State, session: nat, now: Session): State { s.(sessions := s.sessions[session := now]) }

  function Close(s: State, session: nat): State { s.(sessions := s.sessions - {session}) }

  function Next(s: State, step: Step): State
    requires Enabled(s, step)
  {
    match step
    case Tick(ms) => s.(clock := s.clock + ms)
    case Register(id, app, email) => Put(s, id, User(app, email, true, 1))
    case LoginRead(session, id) => Open(s, session, LoggingIn(id, s.users[id]))
    case LoginIssue(session) =>
      var r := s.sessions[session];
      Close(s, session).(issued := s.issued + {
        Issued(MakeToken(r.id, r.user, Access, s.clock), r.id, r.user, s.clock, s.clock, 0),
        Issued(MakeToken(r.id, r.user, Refresh, s.clock), r.id, r.user, s.clock, s.clock, 0)})
    case RefreshVerify(session, token, app, appActive) =>
      var id := Verify(token.claims, app, appActive, Refresh, s.users, s.clock).value;
      Open(s, session, Refreshing(id, s.users[id], token.root, s.clock))
    case RefreshIssue(session) =>
      var r := s.sessions[session];
      var lag := if r.verifiedAt <= s.clock then s.clock - r.verifiedAt else 0;
      Close(s, session).(issued := s.issued + {
        Issued(MakeToken(r.id, r.user, Access, s.clock), r.id, r.user, s.clock, r.root, lag)})
    case Disable(id) =>
      if id in s.users && s.users[id].active
      then Put(s, id, s.users[id].(active := false, version := s.users[id].version + 1)) else s
    case EditRead(session, id) => Open(s, session, Editing(id, s.users[id]))
    case EditSave(session, app, email, active) =>
      var r := s.sessions[session];
      Put(Close(s, session), r.id, User(app, email, active, r.user.version))
    case DeleteUser(id) => s.(users := s.users - {id})
  }

  function Init(): State { State(0, map[], map[], map[], {}) }

  ghost predicate Runs(s: State, steps: seq<Step>, t: State)
    decreases |steps|
  {
    if steps == [] then s == t else Enabled(s, steps[0]) && Runs(Next(s, steps[0]), steps[1..], t)
  }

  // ---- the invariant ----

  predicate SessionOk(s: State, r: Session) {
    && r.id in s.peak && r.user.version <= s.peak[r.id]
    && (r.Refreshing? ==> r.verifiedAt <= s.clock && r.verifiedAt < r.root - r.root % 1000 + 1000 * Lifetime(Refresh))
  }

  predicate TokenOk(s: State, k: Issued) {
    && k.id in s.peak && k.user.version <= s.peak[k.id]
    && k.claims == MakeToken(k.id, k.user, k.claims.kind, k.at) && k.at <= s.clock
    && (k.claims.kind == Refresh ==> k.at == k.root)
    && (k.claims.kind == Access ==> k.at < k.root - k.root % 1000 + 1000 * Lifetime(Refresh) + k.lag)
  }

  ghost predicate Inv(s: State) {
    && (forall id <- s.users :: id in s.peak && s.users[id].version <= s.peak[id])
    && (forall i <- s.users, j <- s.users ::
          s.users[i].app == s.users[j].app && s.users[i].email == s.users[j].email ==> i == j)
    && (forall i <- s.sessions :: SessionOk(s, s.sessions[i]))
    && (forall k <- s.issued :: TokenOk(s, k))
  }

  /** Time and versions only grow. */
  ghost predicate Grows(s: State, t: State) {
    s.clock <= t.clock && forall id <- s.peak :: id in t.peak && s.peak[id] <= t.peak[id]
  }

  lemma StepGrows(s: State, step: Step)
    requires Enabled(s, step)
    ensures Grows(s, Next(s, step))
  {
    hide Verify;
  }

  lemma UsersOk(s: State, step: Step)
    requires Inv(s) && Enabled(s, step)
    ensures var t := Next(s, step);
            && (forall id <- t.users :: id in t.peak && t.users[id].version <= t.peak[id])
            && (forall i <- t.users, j <- t.users ::
                  t.users[i].app == t.users[j].app && t.users[i].email == t.users[j].email ==> i == j)
  {
    hide Verify, TokenOk;
    match step
    case EditSave(session, _, _, _) => assert SessionOk(s, s.sessions[session]);
    case _ =>
  }

  lemma RefreshOpens(s: State, session: nat, token: Issued, app: nat, appActive: bool)
    requires Inv(s) && Enabled(s, RefreshVerify(session, token, app, appActive))
    ensures SessionOk(s, Next(s, RefreshVerify(session, token, app, appActive)).sessions[session])
    ensures Next(s, RefreshVerify(session, token, app, appActive)).sessions[session].id == token.id
  {
    assert TokenOk(s, token);
    VerifiesExactly(token.id, token.user, token.claims.kind, token.at, app, appActive, Refresh, s.users, s.clock);
  }

  lemma SessionsOk(s: State, step: Step, i: nat)
    requires Inv(s) && Enabled(s, step) && i in Next(s, step).sessions
    ensures SessionOk(Next(s, step), Next(s, step).sessions[i])
  {
    hide Verify, TokenOk;
    StepGrows(s, step);
    if i in s.sessions {
      assert SessionOk(s, s.sessions[i]);
    } else if step.RefreshVerify? {
      RefreshOpens(s, step.session, step.token, step.app, step.appActive);
    }
  }

  lemma TokensOk(s: State, step: Step, k: Issued)
    requires Inv(s) && Enabled(s, step) && k in Next(s, step).issued
    ensures TokenOk(Next(s, step), k)
  {
    hide Verify;
    StepGrows(s, step);
    if k in s.issued {
      assert TokenOk(s, k);
    } else {
      assert step.LoginIssue? || step.RefreshIssue?;
      assert SessionOk(s, s.sessions[step.session]);
    }
  }

  lemma StepKeepsInv(s: State, step: Step)
    requires Inv(s) && Enabled(s, step)
    ensures Inv(Next(s, step))
  {
    hide Next, SessionOk, TokenOk, Enabled;
    var t := Next(s, step);
    UsersOk(s, step);
    forall i | i in t.sessions ensures SessionOk(t, t.sessions[i]) { SessionsOk(s, step, i); }
    forall k | k in t.issued ensures TokenOk(t, k) { TokensOk(s, step, k); }
  }

  lemma {:induction false} RunKeepsInv(s: State, steps: seq<Step>, t: State)
    requires Inv(s) && Runs(s, steps, t)
    ensures Inv(t) && Grows(s, t)
    decreases |steps|
  {
    hide Inv, Next, Enabled;
    if steps != [] {
      StepKeepsInv(s, steps[0]);
      StepGrows(s, steps[0]);
      RunKeepsInv(Next(s, steps[0]), steps[1..], t);
    }
  }

  ghost predicate Reachable(s: State) { exists steps :: Runs(Init(), steps, s) }

  lemma ReachableInv(s: State)
    requires Reachable(s)
    ensures Inv(s)
  {
    hide Runs;
    var steps :| Runs(Init(), steps, s);
    RunKeepsInv(Init(), steps, s);
  }

  // ---- what tokens are worth ----

  /** Whoever presents a token, it can only name the user it was made for, in the application the user
      belonged to then and belongs to now; and it serves only the purpose it was issued for. */
  lemma VerifiedBelongs(s: State, k: Issued, app: nat, appActive: bool, kind: Kind)
    requires Reachable(s) && k in s.issued && Verify(k.claims, app, appActive, kind, s.users, s.clock).Some?
    ensures Verify(k.claims, app, appActive, kind, s.users, s.clock) == Some(k.id)
    ensures k.id in s.users && s.users[k.id].active && appActive
    ensures s.users[k.id].app == k.user.app == app && s.users[k.id].version == k.user.version && k.claims.kind == kind
  {
    hide Runs, Verify;
    ReachableInv(s);
    assert TokenOk(s, k);
    VerifiesExactly(k.id, k.user, k.claims.kind, k.at, app, appActive, kind, s.users, s.clock);
  }

  /** Session lifetime: from seven days and fifteen minutes after the login it derives from, directly or
      through refreshes, no access token is accepted, apart from the time its own refresh request took. */
  lemma SessionBound(s: State, k: Issued, app: nat, appActive: bool, users: map<nat, User>, now: nat)
    requires Reachable(s) && k in s.issued && k.claims.kind == Access
    requires now >= k.root + k.lag + (7 * 24 * 3600 + 15 * 60) * 1000
    ensures forall kind :: Verify(k.claims, app, appActive, kind, users, now).None?
  {
    hide Runs;
    ReachableInv(s);
    assert TokenOk(s, k);
  }

  /** Seven days and fifteen minutes. */
  const SESSION := (7 * 24 * 3600 + 15 * 60) * 1000

  /** The promised bound, with no allowance: it holds whenever that request took at most one second. */
  lemma StrictSessionBound(s: State, k: Issued, app: nat, appActive: bool, users: map<nat, User>, now: nat)
    requires Reachable(s) && k in s.issued && k.claims.kind == Access && k.lag <= 1000
    requires now >= k.root + SESSION
    ensures forall kind :: Verify(k.claims, app, appActive, kind, users, now).None?
  {
    hide Runs;
    ReachableInv(s);
    assert TokenOk(s, k);
  }

  /** Some application and user table accept the token at some instant after the session should have ended. */
  ghost predicate Outlives(k: Issued) {
    exists app, appActive, users, now ::
      now >= k.root + SESSION && Verify(k.claims, app, appActive, Access, users, now).Some?
  }

  /** In general it holds exactly for the tokens made before the second in which the seven days are over. */
  lemma OutlivesExactly(s: State, k: Issued)
    requires Reachable(s) && k in s.issued && k.claims.kind == Access
    ensures Outlives(k) <==> k.at - k.at % 1000 > k.root + 7 * 24 * 3600 * 1000
    ensures Outlives(k) ==> k.lag > 1000
  {
    hide Runs, Verify;
    ReachableInv(s);
    assert TokenOk(s, k);
    if Outlives(k) {
      var app, appActive, users, now :|
        now >= k.root + SESSION && Verify(k.claims, app, appActive, Access, users, now).Some?;
      VerifiesExactly(k.id, k.user, Access, k.at, app, appActive, Access, users, now);
    }
    if k.at - k.at % 1000 > k.root + 7 * 24 * 3600 * 1000 {
      var users := map[k.id := k.user.(active := true)];
      var now := k.at - k.at % 1000 + 1000 * Lifetime(Access) - 1;
      VerifiesExactly(k.id, k.user, Access, k.at, k.user.app, true, Access, users, now);
      assert Verify(k.claims, k.user.app, true, Access, users, now).Some?;
    }
  }

  // A slow refresh: verified in the last millisecond of the seven days after a login at instant 0, it makes its
  // token 1001 milliseconds later.

  const SLOW_USER := User(1, "a", true, 1)

  function FirstToken(kind: Kind): Issued { Issued(MakeToken(7, SLOW_USER, kind, 0), 7, SLOW_USER, 0, 0, 0) }

  function LateToken(): Issued {
    Issued(MakeToken(7, SLOW_USER, Access, 604801000), 7, SLOW_USER, 604801000, 0, 1001)
  }

  function SlowStep(n: nat): Step
    requires n < 7
  {
    match n
    case 0 => Register(7, 1, "a")
    case 1 => LoginRead(1, 7)
    case 2 => LoginIssue(1)
    case 3 => Tick(604799999)
    case 4 => RefreshVerify(2, FirstToken(Refresh), 1, true)
    case 5 => Tick(1001)
    case _ => RefreshIssue(2)
  }

  function SlowState(n: nat): State
    requires n <= 7
  {
    State(if n < 4 then 0 else if n < 6 then 604799999 else 604801000,
          if n < 1 then map[] else map[7 := SLOW_USER], if n < 1 then map[] else map[7 := 1],
          if n == 2 then map[1 := LoggingIn(7, SLOW_USER)]
          else if 5 <= n < 7 then map[2 := Refreshing(7, SLOW_USER, 0, 604799999)] else map[],
          if n < 3 then {} else {FirstToken(Access), FirstToken(Refresh)} + if n < 7 then {} else {LateToken()})
  }

  lemma SlowVerify()
    ensures Enabled(SlowState(4), SlowStep(4)) && Next(SlowState(4), SlowStep(4)) == SlowState(5)
  {
    hide Verify, MakeToken;
    VerifiesExactly(7, SLOW_USER, Refresh, 0, 1, true, Refresh, map[7 := SLOW_USER], 604799999);
    FreshKind(7, SLOW_USER, Refresh, 0);
  }

  lemma FreshKind(id: nat, user: User, kind: Kind, now: nat)
    ensures MakeToken(id, user, kind, now).kind == kind
  {
  }

  lemma SlowIssue()
    ensures Enabled(SlowState(6), SlowStep(6)) && Next(SlowState(6), SlowStep(6)) == SlowState(7)
  {
    hide Verify, MakeToken;
  }

  lemma SlowSteps(n: nat)
    requires n < 7
    ensures Enabled(SlowState(n), SlowStep(n)) && Next(SlowState(n), SlowStep(n)) == SlowState(n + 1)
  {
    hide Verify, MakeToken;
    if n == 4 {
      SlowVerify();
    } else if n == 6 {
      SlowIssue();
    }
  }

  function SlowFrom(n: nat): seq<Step>
    requires n <= 7
    decreases 7 - n
  {
    if n == 7 then [] else [SlowStep(n)] + SlowFrom(n + 1)
  }

  lemma {:induction false} SlowRun(n: nat)
    requires n <= 7
    ensures Runs(SlowState(n), SlowFrom(n), SlowState(7))
    decreases 7 - n
  {
    hide Enabled, Next, SlowState, SlowStep;
    if n < 7 {
      SlowSteps(n);
      SlowRun(n + 1);
      OneStep(SlowState(n), SlowStep(n), SlowState(7), SlowFrom(n + 1));
    }
  }

  /** Its token is accepted at exactly seven days and fifteen minutes after the login. */
  lemma SlowRefreshOutlives() returns (s: State, k: Issued)
    ensures Reachable(s) && k in s.issued && k.root == 0 && k.lag == 1001
    ensures Verify(k.claims, 1, true, Access, s.users, SESSION) == Some(7)
  {
    hide Runs, Verify, MakeToken;
    s, k := SlowState(7), LateToken();
    SlowRun(0);
    assert SlowState(0) == Init();
    VerifiesExactly(7, SLOW_USER, Access, 604801000, 1, true, Access, s.users, SESSION);
  }

  /** A session never outlives its refresh token by being refreshed: every refresh token stems from a login
      of its own and is refused seven days later. */
  lemma RefreshBound(s: State, k: Issued, app: nat, appActive: bool, users: map<nat, User>, now: nat)
    requires Reachable(s) && k in s.issued && k.claims.kind == Refresh && now >= k.root + 7 * 24 * 3600 * 1000
    ensures k.at == k.root && forall kind :: Verify(k.claims, app, appActive, kind, users, now).None?
  {
    hide Runs;
    ReachableInv(s);
    assert TokenOk(s, k);
  }

  // ---- revocation ----

  /** No token of the user with a version up to `v` can verify. */
  predicate Revoked(s: State, id: nat, v: nat) {
    id in s.peak && (id in s.users ==> v < s.users[id].version)
  }

  /** An administrator's save of the user whose own request read the row at a version up to `v`. */
  predicate Restores(s: State, step: Step, id: nat, v: nat) {
    step.EditSave? && step.session in s.sessions &&
    s.sessions[step.session].id == id && s.sessions[step.session].user.version <= v
  }

  /** Revocation survives every step but one: such a save, which writes back all columns it has read. */
  lemma RevocationStep(s: State, step: Step, id: nat, v: nat)
    requires Enabled(s, step) && Revoked(s, id, v)
    ensures Revoked(Next(s, step), id, v) <==> !Restores(s, step, id, v)
  {
    hide Verify;
  }

  /** In every state of the run the versions up to `v` are revoked. */
  ghost predicate RevokedThroughout(s: State, steps: seq<Step>, id: nat, v: nat)
    decreases |steps|
  {
    Revoked(s, id, v) &&
    (steps == [] || (Enabled(s, steps[0]) && RevokedThroughout(Next(s, steps[0]), steps[1..], id, v)))
  }

  /** No step of the run restores a version of the user up to `v`. */
  ghost predicate NeverRestored(s: State, steps: seq<Step>, id: nat, v: nat)
    decreases |steps|
  {
    steps == [] ||
    (Enabled(s, steps[0]) && !Restores(s, steps[0], id, v) && NeverRestored(Next(s, steps[0]), steps[1..], id, v))
  }

  /** Over runs, too, those saves are all that can end a revocation. */
  lemma {:induction false} RevocationRun(s: State, steps: seq<Step>, t: State, id: nat, v: nat)
    requires Runs(s, steps, t) && Revoked(s, id, v)
    ensures RevokedThroughout(s, steps, id, v) <==> NeverRestored(s, steps, id, v)
    ensures NeverRestored(s, steps, id, v) ==> Revoked(t, id, v)
    decreases |steps|
  {
    hide Next, Enabled, Revoked, Restores;
    if steps != [] {
      RevocationStep(s, steps[0], id, v);
      if !Restores(s, steps[0], id, v) {
        RevocationRun(Next(s, steps[0]), steps[1..], t, id, v);
      } else {
        NotThroughout(Next(s, steps[0]), steps[1..], id, v);
      }
    }
  }

  lemma NotThroughout(s: State, steps: seq<Step>, id: nat, v: nat)
    requires !Revoked(s, id, v)
    ensures !RevokedThroughout(s, steps, id, v)
  {
  }

  lemma RevokedRefused(s: State, k: Issued, app: nat, appActive: bool, kind: Kind, now: nat)
    requires Inv(s) && k in s.issued && Revoked(s, k.id, k.user.version)
    ensures Verify(k.claims, app, appActive, kind, s.users, now).None?
  {
    assert TokenOk(s, k);
    VerifiesExactly(k.id, k.user, k.claims.kind, k.at, app, appActive, kind, s.users, now);
  }

  /** The row was read by a request before state `s`: to make a token from, or a token was made from it. */
  predicate ReadBefore(s: State, id: nat, user: User) {
    || (exists i <- s.sessions :: s.sessions[i].id == id && s.sessions[i].user == user)
    || (exists k <- s.issued :: k.id == id && k.user == user)
  }

  lemma EarlierVersion(s: State, id: nat, user: User)
    requires Inv(s) && ReadBefore(s, id, user)
    ensures id in s.peak && user.version <= s.peak[id]
  {
    if exists i <- s.sessions :: s.sessions[i].id == id && s.sessions[i].user == user {
      var i :| i in s.sessions && s.sessions[i].id == id && s.sessions[i].user == user;
      assert SessionOk(s, s.sessions[i]);
    } else {
      var k :| k in s.issued && k.id == id && k.user == user;
      assert TokenOk(s, k);
    }
  }

  /** Disabling an active user revokes the versions up to the current one, and they stay revoked in a
      continuation exactly when none of them is restored. */
  lemma DisableRevokes(s: State, id: nat, v: nat, steps: seq<Step>, t: State)
    requires Reachable(s) && id in s.users && s.users[id].active && Runs(Next(s, Disable(id)), steps, t)
    ensures RevokedThroughout(Next(s, Disable(id)), steps, id, v)
            <==> v <= s.users[id].version && NeverRestored(Next(s, Disable(id)), steps, id, v)
  {
    hide Runs, RevokedThroughout, NeverRestored;
    var u := Next(s, Disable(id));
    if v <= s.users[id].version {
      RevocationRun(u, steps, t, id, v);
    } else {
      NotThroughout(u, steps, id, v);
    }
  }

  /** Permanent revocation: once the disable step has acted on an active user, no token of a version the user
      had reached verifies in any continuation that restores none of those versions - even a token made after
      the disable from an earlier read, and even if the user is activated again. */
  lemma PermanentRevocation(s: State, id: nat, steps: seq<Step>, t: State, k: Issued,
                            app: nat, appActive: bool, kind: Kind, now: nat)
    requires Reachable(s) && id in s.users && s.users[id].active && Runs(Next(s, Disable(id)), steps, t)
    requires k in t.issued && k.id == id && k.user.version <= s.users[id].version
    requires NeverRestored(Next(s, Disable(id)), steps, id, k.user.version)
    ensures Verify(k.claims, app, appActive, kind, t.users, now).None?
  {
    hide Runs, NeverRestored, Verify, SessionOk, TokenOk;
    var u := Next(s, Disable(id));
    ReachableInv(s);
    StepKeepsInv(s, Disable(id));
    RevocationRun(u, steps, t, id, k.user.version);
    RunKeepsInv(u, steps, t);
    RevokedRefused(t, k, app, appActive, kind, now);
  }

  /** The user's row has its highest version. */
  predicate AtPeak(s: State, id: nat) { id in s.users && id in s.peak && s.users[id].version == s.peak[id] }

  /** An administrator's save of the user whose own request read an older version than the row has by now. */
  predicate StaleSave(s: State, step: Step, id: nat)
    requires id in s.users
  {
    step.EditSave? && step.session in s.sessions && s.sessions[step.session].id == id &&
    s.sessions[step.session].user.version < s.users[id].version
  }

  /** A row leaves its highest version only by such a save of this very user. */
  lemma PeakStep(s: State, step: Step, id: nat)
    requires Inv(s) && Enabled(s, step) && AtPeak(s, id) && id in Next(s, step).users
    ensures AtPeak(Next(s, step), id) <==> !StaleSave(s, step, id)
  {
    hide Verify, TokenOk;
    if step.EditSave? { assert SessionOk(s, s.sessions[step.session]); }
  }

  /** While it is there, its version bounds every read of the user made so far: disabling then revokes the
      tokens of all earlier reads, whether made yet or not. */
  lemma ReadsBounded(s: State, id: nat, user: User)
    requires Reachable(s) && AtPeak(s, id) && ReadBefore(s, id, user)
    ensures user.version <= s.users[id].version
  {
    hide Runs, ReadBefore, Inv;
    ReachableInv(s);
    EarlierVersion(s, id, user);
  }

  /** The condition is needed: an edit request that reads the row before the disable and saves it afterwards
      brings the old version back, and with it every token of that version. */
  lemma StaleSaveUndoesRevocation() returns (s: State, t: State, k: Issued)
    ensures Reachable(s) && 7 in s.users && s.users[7].active && k in s.issued && k.id == 7
    ensures Enabled(s, Disable(7)) && Enabled(Next(s, Disable(7)), EditSave(2, 1, "a", true))
    ensures t == Next(Next(s, Disable(7)), EditSave(2, 1, "a", true))
    ensures Verify(k.claims, 1, true, Access, t.users, t.clock) == Some(7)
  {
    hide Verify, MakeToken;
    var user := User(1, "a", true, 1);
    var steps := [Register(7, 1, "a"), LoginRead(1, 7), LoginIssue(1), EditRead(2, 7)];
    k := Issued(MakeToken(7, user, Access, 0), 7, user, 0, 0, 0);
    var a := Next(Init(), steps[0]);
    var b := Next(a, steps[1]);
    var c := Next(b, steps[2]);
    s := Next(c, steps[3]);
    OneStep(c, steps[3], s, []);
    OneStep(b, steps[2], s, [steps[3]]);
    OneStep(a, steps[1], s, [steps[2], steps[3]]);
    OneStep(Init(), steps[0], s, [steps[1], steps[2], steps[3]]);
    t := Next(Next(s, Disable(7)), EditSave(2, 1, "a", true));
    VerifiesExactly(7, user, Access, 0, 1, true, Access, t.users, t.clock);
  }

  lemma OneStep(s: State, step: Step, t: State, rest: seq<Step>)
    requires Enabled(s, step) && Runs(Next(s, step), rest, t)
    ensures Runs(s, [step] + rest, t)
  {
    assert ([step] + rest)[1..] == rest;
  }
}
