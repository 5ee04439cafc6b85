/** Gateway requests and the life of client users together: whom a 200 may name, and that no revoked token ever
    gets one (apps/gateway/views.py, apps/client_auth). */
module GatewayUsers {
  import opened PyStrings
  import opened Authorization
  import opened RouteCatalog
  import opened RateLimiter
  import opened Gateway
  import opened GatewayRuns
  import Tokens = ClientTokens

  /** The request reads the user table and the clock of this state, and the token it carries, if any, had been
      issued by then. */
  predicate Sees(req: Request, tables: PolicyTables, s: Tokens.State) {
    && tables.users == s.users && req.at == s.clock
    && (req.bearer.Some? ==> exists k <- s.issued :: k.claims == req.bearer.value)
  }

  /** The answer lets a caller through as a client user. */
  predicate ServesUser(resp: Response) { resp.Preview? && resp.policy == ApiKeyAndJwt }

  /** A 200 under the JWT policy names the user its token was issued for, who is active in the caller's
      application; and the version the token was made from is not revoked. */
  lemma ServedUser(s: Tokens.State, req: Request, route: Option<Snapshot>, tables: PolicyTables, env: Settings,
                   outcome: Outcome, resp: Response) returns (k: Tokens.Issued)
    requires Tokens.Reachable(s) && Sees(req, tables, s)
    requires Answers(req, route, tables, env, outcome, resp) && ServesUser(resp)
    ensures req.caller.Some? && req.bearer.Some? && k in s.issued && k.claims == req.bearer.value
    ensures k.claims.kind == Tokens.Access
    ensures resp.user == Some(k.id) && k.id in s.users && s.users[k.id].active
    ensures s.users[k.id].app == req.caller.value.id && req.caller.value.application.active
    ensures s.users[k.id].version == k.user.version && !Tokens.Revoked(s, k.id, k.user.version)
  {
    hide Tokens.Reachable, Tokens.Verify, HasPermission, DestinationApproved, TargetUrl;
    var caller := req.caller.value;
    k :| k in s.issued && k.claims == req.bearer.value;
    Tokens.VerifiedBelongs(s, k, caller.id, caller.application.active, Tokens.Access);
  }

  /** Each request of the trace saw a reachable state of the users. */
  ghost predicate Joined(es: seq<Event>, states: seq<Tokens.State>) {
    |states| == |es| && forall i :: 0 <= i < |es| && es[i].Answered? ==>
      Tokens.Reachable(states[i]) && Sees(es[i].req, es[i].tables, states[i])
  }

  /** Once the version of a token is revoked, no later request of the trace is served on it, unless a save of
      that user restores the version in between. */
  lemma NeverServedAgain(es: seq<Event>, r: Run, env: Settings, states: seq<Tokens.State>, k: Tokens.Issued,
                         s: Tokens.State, steps: seq<Tokens.Step>, j: nat)
    requires IsTrace(es, r, env) && Joined(es, states) && j < |es| && es[j].Answered?
    requires Tokens.Revoked(s, k.id, k.user.version) && Tokens.Runs(s, steps, states[j])
    requires Tokens.NeverRestored(s, steps, k.id, k.user.version)
    requires es[j].req.bearer == Some(k.claims) && k in states[j].issued
    ensures !ServesUser(es[j].resp)
  {
    hide Tokens.Reachable, Tokens.Runs, Tokens.NeverRestored, Tokens.Verify, Tokens.Inv, Answers, IsRun;
    assert EventOk(es[j], r.calls[j], r.outcomes[j], env);
    Tokens.RevocationRun(s, steps, states[j], k.id, k.user.version);
    if ServesUser(es[j].resp) {
      RefusedUser(states[j], es[j].req, es[j].route, es[j].tables, env, r.outcomes[j], es[j].resp, k);
    }
  }

  lemma RefusedUser(s: Tokens.State, req: Request, route: Option<Snapshot>, tables: PolicyTables, env: Settings,
                    outcome: Outcome, resp: Response, k: Tokens.Issued)
    requires Tokens.Reachable(s) && Sees(req, tables, s) && k in s.issued && req.bearer == Some(k.claims)
    requires Tokens.Revoked(s, k.id, k.user.version) && Answers(req, route, tables, env, outcome, resp)
    ensures !ServesUser(resp)
  {
    hide Tokens.Reachable, Tokens.Verify, Tokens.Inv, HasPermission, DestinationApproved, TargetUrl;
    if req.caller.Some? {
      var caller := req.caller.value;
      Tokens.ReachableInv(s);
      Tokens.RevokedRefused(s, k, caller.id, caller.application.active, Tokens.Access, req.at);
    }
  }

  /** In particular, after a disable of an active user no later request is served on a token of a version the
      user had reached. */
  lemma DisabledNeverServed(es: seq<Event>, r: Run, env: Settings, states: seq<Tokens.State>, k: Tokens.Issued,
                            s: Tokens.State, steps: seq<Tokens.Step>, j: nat)
    requires IsTrace(es, r, env) && Joined(es, states) && j < |es| && es[j].Answered?
    requires Tokens.Reachable(s) && k.id in s.users && s.users[k.id].active && k.user.version <= s.users[k.id].version
    requires Tokens.Runs(Tokens.Next(s, Tokens.Disable(k.id)), steps, states[j])
    requires Tokens.NeverRestored(Tokens.Next(s, Tokens.Disable(k.id)), steps, k.id, k.user.version)
    requires es[j].req.bearer == Some(k.claims) && k in states[j].issued
    ensures !ServesUser(es[j].resp)
  {
    hide Tokens.Reachable, Tokens.Runs, Tokens.NeverRestored, IsTrace, Joined, ServesUser;
    NeverServedAgain(es, r, env, states, k, Tokens.Next(s, Tokens.Disable(k.id)), steps, j);
  }
}
