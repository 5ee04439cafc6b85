/** The client-user endpoints (apps/client_auth/views.py): each performs steps of the token state machine and
    spends its own rate-limit counters first. */
module ClientViews {
  import opened PyStrings
  import opened RedisKeys
  import opened RedisStore
  import opened RateLimiter
  import Tokens = ClientTokens

  /** Whether a Redis script runs and whether its reply arrives. */
  datatype Fate = Fate(executed: bool, replied: bool)

  function LoginCall(app: nat, digest: string, now: nat, fate: Fate): Call {
    Call(RateKey(Login(app, digest)), 10, 300, now, fate.executed, fate.replied)
  }

  function RegisterCall(app: nat, now: nat, fate: Fate): Call {
    Call(RateKey(Registration(app)), 100, 3600, now, fate.executed, fate.replied)
  }

  function RegisterEmailCall(app: nat, digest: string, now: nat, fate: Fate): Call {
    Call(RateKey(RegistrationEmail(app, digest)), 5, 3600, now, fate.executed, fate.replied)
  }

  /** Registration charges the application first, and the address only if the application may go on. */
  function RegisterGate(s: Store, app: nat, digest: string, now: nat, first: Fate, second: Fate): (Store, Outcome) {
    var (t, outcome) := Allow(s, RegisterCall(app, now, first));
    if outcome != Admitted then (t, outcome)
    else Allow(Unexpired(t, now), RegisterEmailCall(app, digest, now, second))
  }

  /** The active user with this address. */
  predicate Named(users: map<nat, Tokens.User>, id: nat, app: nat, email: string) {
    id in users && users[id].app == app && users[id].email == email
  }

  class ClientAuth {
    var state: Tokens.State
    var nextId: nat
    const limiter: RedisRateLimiter

    ghost predicate Valid()
      reads this, limiter, limiter.client
    {
      Tokens.Inv(state) && (forall id <- state.peak :: id < nextId) && limiter.client.Valid()
    }

    constructor (limiter: RedisRateLimiter)
      requires limiter.client.Valid()
      ensures Valid() && state == Tokens.Init() && this.limiter == limiter
    {
      state, nextId := Tokens.Init(), 0;
      this.limiter := limiter;
    }

    /** ApplicationUserDisableView.post by an administrator who owns the applications `owned`. */
    method Disable(id: nat, owned: set<nat>) returns (status: nat)
      requires Valid()
      modifies this`state
      ensures Valid()
      ensures status == if id in old(state).users && old(state).users[id].app in owned then 200 else 404
      ensures state == if status == 200 then Tokens.Next(old(state), Tokens.Disable(id)) else old(state)
      ensures status == 200 ==> id in state.users && !state.users[id].active
      ensures status == 200 && old(state).users[id].active ==>
                state.users[id] == old(state).users[id].(active := false, version := old(state).users[id].version + 1)
    {
      Tokens.StepKeepsInv(state, Tokens.Disable(id));
      if id !in state.users || state.users[id].app !in owned {
        return 404;
      }
      var user := state.users[id];
      if user.active {
        state := Tokens.Put(state, id, user.(active := false, version := user.version + 1));
      }
      status := 200;
    }

    /** The two counters of a registration attempt. */
    method Admit(app: nat, digest: string, now: nat, first: Fate, second: Fate) returns (outcome: Outcome)
      requires limiter.client.Valid()
      modifies limiter.client
      ensures limiter.client.Valid()
      ensures outcome == RegisterGate(old(limiter.client.View(now)), app, digest, now, first, second).1
      ensures forall t :: now <= t ==>
                limiter.client.View(t) ==
                Unexpired(RegisterGate(old(limiter.client.View(now)), app, digest, now, first, second).0, t)
    {
      hide Allow, Unexpired;
      outcome := limiter.AllowRequest(RateKey(Registration(app)), 100, 3600, now, first.executed, first.replied);
      if outcome == Admitted {
        outcome := limiter.AllowRequest(RateKey(RegistrationEmail(app, digest)), 5, 3600, now, second.executed,
          second.replied);
      }
    }

    /** ClientRegisterView.post. */
    method Register(app: nat, email: string, digest: string, first: Fate, second: Fate) returns (status: nat)
      requires Valid()
      modifies this`state, this`nextId, limiter.client
      ensures Valid()
      ensures var was := old(limiter.client.View(state.clock));
              var gate := RegisterGate(was, app, digest, old(state.clock), first, second);
              && status == (match gate.1
                            case Unavailable => 503
                            case Refused => 429
                            case Admitted =>
                              if exists id <- old(state).users :: Named(old(state).users, id, app, email)
                              then 400 else 201)
              && forall t :: old(state.clock) <= t ==> limiter.client.View(t) == Unexpired(gate.0, t)
      ensures status != 201 ==> state == old(state)
      ensures status == 201 ==>
                && old(nextId) !in old(state).peak
                && Tokens.Enabled(old(state), Tokens.Register(old(nextId), app, email))
                && state == Tokens.Next(old(state), Tokens.Register(old(nextId), app, email))
                && state.users == old(state).users[old(nextId) := Tokens.User(app, email, true, 1)]
    {
      hide Allow, Unexpired, Tokens.Inv, RegisterGate;
      var outcome := Admit(app, digest, state.clock, first, second);
      match outcome
      case Unavailable => return 503;
      case Refused => return 429;
      case Admitted =>
        if exists id <- state.users :: Named(state.users, id, app, email) {
          return 400;
        }
        Tokens.StepKeepsInv(state, Tokens.Register(nextId, app, email));
        state := Tokens.Put(state, nextId, Tokens.User(app, email, true, 1));
        nextId := nextId + 1;
        status := 201;
    }

    /** issue_token_pair for a row read in the same request. */
    method IssuePair(session: nat, id: nat) returns (pair: (Tokens.Claims, Tokens.Claims))
      requires Valid() && session !in state.sessions && id in state.users && state.users[id].active
      modifies this`state
      ensures Valid()
      ensures var user := old(state).users[id];
              state == old(state).(issued := old(state).issued + {
                Tokens.Issued(pair.0, id, user, state.clock, state.clock, 0),
                Tokens.Issued(pair.1, id, user, state.clock, state.clock, 0)})
      ensures Usable(state, pair.0, Tokens.Access, id, state.users[id].app)
      ensures Usable(state, pair.1, Tokens.Refresh, id, state.users[id].app)
    {
      hide Tokens.Inv, Tokens.Verify, Usable;
      ghost var start := state;
      Tokens.StepKeepsInv(state, Tokens.LoginRead(session, id));
      state := Tokens.Next(state, Tokens.LoginRead(session, id));
      Tokens.StepKeepsInv(state, Tokens.LoginIssue(session));
      state := Tokens.Next(state, Tokens.LoginIssue(session));
      var user := state.users[id];
      pair := (Tokens.MakeToken(id, user, Tokens.Access, state.clock),
               Tokens.MakeToken(id, user, Tokens.Refresh, state.clock));
      FreshUsable(state, id, Tokens.Access);
      FreshUsable(state, id, Tokens.Refresh);
      assert start.sessions[session := Tokens.LoggingIn(id, user)] - {session} == start.sessions;
    }

    /** ClientLoginView.post; `passes` tells whose password the caller knows. */
    method Login(session: nat, app: nat, email: string, digest: string, passes: nat -> bool, fate: Fate)
        returns (status: nat, pair: Option<(Tokens.Claims, Tokens.Claims)>)
      requires Valid() && session !in state.sessions
      modifies this`state, limiter.client
      ensures Valid()
      ensures var allowed := Allow(old(limiter.client.View(state.clock)),
          LoginCall(app, digest, old(state.clock), fate));
              && (status == 503 <==> allowed.1 == Unavailable) && (status == 429 <==> allowed.1 == Refused)
              && (allowed.1 == Admitted ==> status == 200 || status == 401)
              && forall t :: old(state.clock) <= t ==> limiter.client.View(t) == Unexpired(allowed.0, t)
      ensures pair.Some? <==> status == 200
      ensures status != 200 ==> state == old(state)
      ensures status == 401 ==>
                forall id <- state.users :: Named(state.users, id, app, email) && state.users[id].active ==> !passes(id)
      ensures status == 200 ==>
                && state == old(state).(issued := state.issued) && old(state).issued <= state.issued
                && exists id <- state.users ::
                     && Named(state.users, id, app, email) && passes(id)
                     && Usable(state, pair.value.0, Tokens.Access, id, app)
                     && Usable(state, pair.value.1, Tokens.Refresh, id, app)
    {
      hide Allow, Unexpired, Tokens.Inv, Tokens.Verify, Usable;
      var allowed := limiter.AllowRequest(RateKey(RedisKeys.Login(app, digest)), 10, 300, state.clock, fate.executed,
        fate.replied);
      pair := None;
      if allowed == Unavailable { return 503, None; }
      if allowed == Refused { return 429, None; }
      if id :| id in state.users && Named(state.users, id, app, email) && state.users[id].active {
        SoleUser(state, id, app, email);
        if passes(id) {
          var tokens := IssuePair(session, id);
          pair := Some(tokens);
          return 200, pair;
        }
      }
      status := 401;
    }

    /** ClientRefreshView.post. */
    method Refresh(session: nat, token: Tokens.Issued, app: nat, appActive: bool)
        returns (status: nat, access: Option<Tokens.Claims>)
      requires Valid() && session !in state.sessions && token in state.issued
      modifies this`state
      ensures Valid()
      ensures var was := old(state);
              status == if Tokens.Verify(token.claims, app, appActive, Tokens.Refresh, was.users, was.clock).Some?
                        then 200 else 401
      ensures access.Some? <==> status == 200
      ensures status == 401 ==> state == old(state)
      ensures status == 200 ==>
                && state == old(state).(issued := state.issued) && old(state).issued <= state.issued
                && Usable(state, access.value, Tokens.Access, token.id, app)
                && forall k <- state.issued - old(state).issued ::
                  k.claims.kind == Tokens.Access && k.root == token.root
    {
      hide Tokens.Inv, Tokens.Verify, Tokens.MakeToken;
      var user := Tokens.Verify(token.claims, app, appActive, Tokens.Refresh, state.users, state.clock);
      if user.None? {
        return 401, None;
      }
      ghost var start := state;
      VerifiedUser(state, token, app, appActive, Tokens.Refresh);
      Tokens.StepKeepsInv(state, Tokens.RefreshVerify(session, token, app, appActive));
      state := Tokens.Next(state, Tokens.RefreshVerify(session, token, app, appActive));
      Tokens.StepKeepsInv(state, Tokens.RefreshIssue(session));
      ghost var between := state.sessions[session];
      state := Tokens.Next(state, Tokens.RefreshIssue(session));
      access := Some(Tokens.MakeToken(user.value, state.users[user.value], Tokens.Access, state.clock));
      FreshUsable(state, user.value, Tokens.Access);
      MadeOf(user.value, state.users[user.value], state.clock);
      assert start.sessions[session := between] - {session} == start.sessions;
      status := 200;
    }
  }

  /** From now until its lifetime has passed, in whole seconds, the token names the user. */
  ghost predicate Usable(s: Tokens.State, claims: Tokens.Claims, kind: Tokens.Kind, id: nat, app: nat) {
    forall t :: s.clock <= t < s.clock - s.clock % 1000 + 1000 * Tokens.Lifetime(kind) ==>
      Tokens.Verify(claims, app, true, kind, s.users, t) == Some(id)
  }

  lemma FreshUsable(s: Tokens.State, id: nat, kind: Tokens.Kind)
    requires id in s.users && s.users[id].active
    ensures Usable(s, Tokens.MakeToken(id, s.users[id], kind, s.clock), kind, id, s.users[id].app)
  {
    hide Tokens.Verify, Tokens.MakeToken;
    forall t | s.clock <= t < s.clock - s.clock % 1000 + 1000 * Tokens.Lifetime(kind)
      ensures var claims := Tokens.MakeToken(id, s.users[id], kind, s.clock);
              Tokens.Verify(claims, s.users[id].app, true, kind, s.users, t) == Some(id)
    {
      Tokens.VerifiesExactly(id, s.users[id], kind, s.clock, s.users[id].app, true, kind, s.users, t);
    }
  }

  lemma MadeOf(id: nat, user: Tokens.User, now: nat)
    ensures Tokens.MakeToken(id, user, Tokens.Access, now).kind == Tokens.Access
  {
  }

  /** At most one user of an application has an address. */
  lemma SoleUser(s: Tokens.State, id: nat, app: nat, email: string)
    requires Tokens.Inv(s) && Named(s.users, id, app, email)
    ensures forall j <- s.users :: Named(s.users, j, app, email) ==> j == id
  {
  }

  lemma VerifiedUser(s: Tokens.State, k: Tokens.Issued, app: nat, appActive: bool, kind: Tokens.Kind)
    requires Tokens.Inv(s) && k in s.issued
    requires Tokens.Verify(k.claims, app, appActive, kind, s.users, s.clock).Some?
    ensures Tokens.Verify(k.claims, app, appActive, kind, s.users, s.clock) == Some(k.id)
    ensures k.id in s.users && s.users[k.id].active && s.users[k.id].app == app
  {
    assert Tokens.TokenOk(s, k);
    Tokens.VerifiesExactly(k.id, k.user, k.claims.kind, k.at, app, appActive, kind, s.users, s.clock);
  }
}
