/** Client tokens and endpoints in plain claims, columns and numbers (apps/client_auth/services.py, views.py). */
module ClientLaws {
  import opened PyStrings
  import opened RedisKeys
  import opened RedisStore
  import opened RateLimiter
  import opened ClientViews
  import Tokens = ClientTokens

  /** verify_client_token on any signed claims: right kind, dates that hold to the second, a decimal subject, the
      presented application, active, and a stored user of it, active, with the claimed version. */
  lemma VerifyExactly(claims: Tokens.Claims, app: nat, appActive: bool, kind: Tokens.Kind, users: map<nat, Tokens.User>,
                      now: nat, id: nat)
    ensures Tokens.Verify(claims, app, appActive, kind, users, now) == Some(id) <==>
            && claims.kind == kind && 1000 * claims.iat <= now && 1000 * claims.nbf <= now && now < 1000 * claims.exp
            && IsDecimal(claims.sub) && Int(claims.sub) == id && claims.app == app && appActive
            && id in users && users[id].active && users[id].app == app && users[id].version == claims.version
  {
    hide Int, IsDecimal;
  }

  /** What a token says: user and application, version, kind, the second it was made in, and an end fifteen minutes
      or seven days later. */
  lemma TokenSays(id: nat, user: Tokens.User, kind: Tokens.Kind, now: nat)
    ensures var claims := Tokens.MakeToken(id, user, kind, now);
            && IsDecimal(claims.sub) && Int(claims.sub) == id && claims.app == user.app
            && claims.version == user.version && claims.kind == kind
            && claims.iat == claims.nbf && 1000 * claims.iat <= now < 1000 * claims.iat + 1000
            && claims.exp - claims.iat == (if kind == Tokens.Access then 900 else 604800)
  {
    IntStr(id);
  }

  /** What each writing step does to the user table. */
  lemma UserWrites(s: Tokens.State, step: Tokens.Step)
    requires Tokens.Enabled(s, step)
    ensures var users := Tokens.Next(s, step).users;
            match step
            case Register(id, app, email) =>
              id !in s.peak && users == s.users[id := Tokens.User(app, email, true, 1)]
            case Disable(id) =>
              users == if id in s.users && s.users[id].active
                       then s.users[id := Tokens.User(s.users[id].app, s.users[id].email, false,
                         s.users[id].version + 1)]
                       else s.users
            case EditSave(session, app, email, active) =>
              session in s.sessions &&
              users == s.users[s.sessions[session].id :=
                Tokens.User(app, email, active, s.sessions[session].user.version)]
            case DeleteUser(id) => users == s.users - {id}
            case _ => users == s.users
  {
    hide Tokens.Verify, Tokens.MakeToken;
  }

  /** Requests work on the row as it was when they read it. */
  lemma SessionsRead(s: Tokens.State, session: nat, id: nat)
    requires session !in s.sessions && id in s.users
    ensures Tokens.Enabled(s, Tokens.LoginRead(session, id)) <==> s.users[id].active
    ensures s.users[id].active ==>
              Tokens.Next(s, Tokens.LoginRead(session, id)).sessions ==
                s.sessions[session := Tokens.LoggingIn(id, s.users[id])]
    ensures Tokens.Next(s, Tokens.EditRead(session, id)).sessions ==
        s.sessions[session := Tokens.Editing(id, s.users[id])]
  {
  }

  // ---- how many attempts ----

  /** The call was made by one of the endpoints, or for the gateway. */
  ghost predicate FromViews(c: Call) {
    || (exists app, digest, fate :: c == LoginCall(app, digest, c.at, fate))
    || (exists app, fate :: c == RegisterCall(app, c.at, fate))
    || (exists app, digest, fate :: c == RegisterEmailCall(app, digest, c.at, fate))
    || (exists app :: c.key == RateKey(GatewayApplication(app)))
  }

  /** Which endpoint made a call can be read off its key; so all calls of a key agree on limit and window. */
  lemma ViewCall(c: Call, s: Subject)
    requires FromViews(c) && c.key == RateKey(s) && !s.GatewayApplication?
    ensures match s
            case Login(_, _) => c.limit == 10 && c.window == 300
            case Registration(_) => c.limit == 100 && c.window == 3600
            case RegistrationEmail(_, _) => c.limit == 5 && c.window == 3600
            case _ => true
  {
    hide RateKey;
    if app, digest, fate :| c == LoginCall(app, digest, c.at, fate) {
      RateKeyInjective(Login(app, digest), s);
    } else if app, fate :| c == RegisterCall(app, c.at, fate) {
      RateKeyInjective(Registration(app), s);
    } else if app, digest, fate :| c == RegisterEmailCall(app, digest, c.at, fate) {
      RateKeyInjective(RegistrationEmail(app, digest), s);
    } else {
      var app :| c.key == RateKey(GatewayApplication(app));
      RateKeyInjective(GatewayApplication(app), s);
    }
  }

  lemma SubjectQuota(r: Run, s: Subject, limit: nat, window: Positive, w: nat, a: nat)
    requires IsRun(r) && (forall c <- r.calls :: FromViews(c))
    requires forall c <- r.calls :: c.key == RateKey(s) ==> c.limit == limit && c.window == window
    ensures Admissions(r, RateKey(s), w, w + 1, |r.calls|) <= limit
    ensures AdmittedDuring(r, RateKey(s), a, a + 1000 * window, |r.calls|) <= 2 * limit
  {
    hide IsRun, FromViews, RateKey, Admissions, AdmittedDuring, Hits;
    assert Uniform(r, RateKey(s), window);
    forall c | c in r.calls && Hits(c, RateKey(s), w) ensures c.limit <= limit { KeyOfHit(c, RateKey(s), w); }
    QuotaBound(r, RateKey(s), window, limit, w, |r.calls|);
    BoundedBurst(r, RateKey(s), window, limit, a, 1000 * window);
  }

  lemma KeyOfHit(c: Call, key: string, w: nat)
    requires Hits(c, key, w)
    ensures c.key == key
  {
  }

  /** At most ten logins per address of an application are admitted in a window of five minutes, and twenty in any
      five minutes. */
  lemma LoginQuota(r: Run, app: nat, digest: string, w: nat, a: nat)
    requires IsRun(r) && forall c <- r.calls :: FromViews(c)
    ensures var key := "client_login:" + Str(app) + ":" + digest;
            Admissions(r, key, w, w + 1, |r.calls|) <= 10 && AdmittedDuring(r, key, a, a + 300000, |r.calls|) <= 20
  {
    hide IsRun, FromViews, Admissions, AdmittedDuring;
    forall c | c in r.calls && c.key == RateKey(Login(app, digest)) ensures c.limit == 10 && c.window == 300 {
      ViewCall(c, Login(app, digest));
    }
    SubjectQuota(r, Login(app, digest), 10, 300, w, a);
  }

  /** At most a hundred registrations per application pass the first counter in an hour's window, and two hundred in
      any hour. */
  lemma RegistrationQuota(r: Run, app: nat, w: nat, a: nat)
    requires IsRun(r) && forall c <- r.calls :: FromViews(c)
    ensures var key := "client_register:app:" + Str(app);
            Admissions(r, key, w, w + 1, |r.calls|) <= 100 && AdmittedDuring(r, key, a, a + 3600000, |r.calls|) <= 200
  {
    hide IsRun, FromViews, Admissions, AdmittedDuring;
    forall c | c in r.calls && c.key == RateKey(Registration(app)) ensures c.limit == 100 && c.window == 3600 {
      ViewCall(c, Registration(app));
    }
    SubjectQuota(r, Registration(app), 100, 3600, w, a);
  }

  /** At most five per address pass the second, and ten in any hour. */
  lemma AddressQuota(r: Run, app: nat, digest: string, w: nat, a: nat)
    requires IsRun(r) && forall c <- r.calls :: FromViews(c)
    ensures var key := "client_register:email:" + Str(app) + ":" + digest;
            Admissions(r, key, w, w + 1, |r.calls|) <= 5 && AdmittedDuring(r, key, a, a + 3600000, |r.calls|) <= 10
  {
    hide IsRun, FromViews, Admissions, AdmittedDuring;
    forall c | c in r.calls && c.key == RateKey(RegistrationEmail(app, digest))
      ensures c.limit == 5 && c.window == 3600 {
      ViewCall(c, RegistrationEmail(app, digest));
    }
    SubjectQuota(r, RegistrationEmail(app, digest), 5, 3600, w, a);
  }

  /** A registration charges the first counter always and the second exactly when the first admits it. */
  lemma GateExactly(s: Store, app: nat, digest: string, now: nat, first: Fate, second: Fate)
    ensures var one := Allow(s, RegisterCall(app, now, first));
            var two := Allow(Unexpired(one.0, now), RegisterEmailCall(app, digest, now, second));
            var gate := RegisterGate(s, app, digest, now, first, second);
            && (gate.1 == Admitted <==> one.1 == Admitted && two.1 == Admitted)
            && gate.0 == (if one.1 == Admitted then two.0 else one.0)
  {
    hide Allow, Unexpired;
  }
}
