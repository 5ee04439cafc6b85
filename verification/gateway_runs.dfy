/** Whole runs of the gateway: requests answered by any number of replicas, between other users of the same
    limiter. What the shared counter of an application holds, and how many requests it lets through. */
module GatewayRuns {
  import opened PyStrings
  import opened Authorization
  import opened RouteCatalog
  import opened RedisKeys
  import opened RedisStore
  import opened RateLimiter
  import opened Gateway
  import Protocol = CacheProtocol
  import Cache = RouteCache

  datatype Event =
    | Answered(req: Request, route: Option<Snapshot>, tables: PolicyTables, resp: Response)
    | Elsewhere(subject: Subject, call: Call)

  predicate GatewaySubject(s: Subject) { s.GatewayApplication? }

  function EventCall(e: Event): Call {
    match e
    case Answered(req, route, tables, _) => CallOf(req, route, tables)
    case Elsewhere(_, call) => call
  }

  /** The events are a run of the limiter in which every request got its right response. */
  ghost predicate IsTrace(es: seq<Event>, r: Run, env: Settings) {
    && IsRun(r) && |r.calls| == |r.outcomes| == |es|
    && (forall i :: 0 <= i < |es| ==> EventOk(es[i], r.calls[i], r.outcomes[i], env))
  }

  predicate EventOk(e: Event, call: Call, outcome: Outcome, env: Settings) {
    && call == EventCall(e)
    && (e.Answered? ==> Answers(e.req, e.route, e.tables, env, outcome, e.resp))
    && (e.Elsewhere? ==> !GatewaySubject(e.subject) && call.key == RateKey(e.subject))
  }

  /** What forward promises about one request is what extends a run: its limiter call, and its response. */
  lemma TraceExtended(es: seq<Event>, r: Run, env: Settings, e: Event, s: Store, outcome: Outcome)
    requires IsTrace(es, r, env) && forall d <- r.calls :: d.at <= EventCall(e).at
    requires (s, outcome) == Allow(Unexpired(r.stores[|es|], EventCall(e).at), EventCall(e))
    requires EventOk(e, EventCall(e), outcome, env)
    ensures IsTrace(es + [e], Run(r.calls + [EventCall(e)], r.stores + [s], r.outcomes + [outcome]), env)
  {
    hide EventOk, Allow, Unexpired, EventCall;
    RunExtended(r, EventCall(e));
  }

  function AppKey(app: nat): string { RateKey(GatewayApplication(app)) }

  /** The event is a request of the application in the window that was answered in a way that counts. An
      unanswered limiter counts if its script ran. */
  predicate Counts(e: Event, app: nat, w: nat) {
    && e.Answered? && e.req.caller.Some? && e.req.caller.value.id == app && Window(e.req.at, 60) == w
    && Charged(e.resp) && e.req.executed
  }

  /** The event is a request of the application in the window that passed the limiter. */
  predicate Passed(e: Event, app: nat, w: nat) {
    && e.Answered? && e.req.caller.Some? && e.req.caller.value.id == app && Window(e.req.at, 60) == w
    && (e.resp.NoDestination? || e.resp.DestinationRefused? || e.resp.Preview?)
  }

  function Charges(es: seq<Event>, app: nat, w: nat, n: nat): nat
    requires n <= |es|
  {
    if n == 0 then 0 else Charges(es, app, w, n - 1) + if Counts(es[n - 1], app, w) then 1 else 0
  }

  function Passes(es: seq<Event>, app: nat, w: nat, n: nat): nat
    requires n <= |es|
  {
    if n == 0 then 0 else Passes(es, app, w, n - 1) + if Passed(es[n - 1], app, w) then 1 else 0
  }

  function Previews(es: seq<Event>, app: nat, w: nat, n: nat): nat
    requires n <= |es|
  {
    if n == 0 then 0
    else Previews(es, app, w, n - 1) + if Passed(es[n - 1], app, w) && es[n - 1].resp.Preview? then 1 else 0
  }

  /** A response tells whether its request reached the limiter, and how that ended. */
  lemma ChargedExactly(req: Request, route: Option<Snapshot>, tables: PolicyTables, env: Settings, outcome: Outcome,
                       resp: Response)
    requires Answers(req, route, tables, env, outcome, resp)
    ensures Charged(resp) <==> Eligible(req, route, tables)
    ensures Charged(resp) ==>
              && (resp.LimiterDown? <==> outcome == Unavailable) && (resp.TooMany? <==> outcome == Refused)
              && (resp.NoDestination? || resp.DestinationRefused? || resp.Preview? <==> outcome == Admitted)
  {
    hide HasPermission, DestinationApproved, TargetUrl, BearerUser, PolicyOf;
  }

  lemma RateKeyNotEmpty(s: Subject)
    ensures RateKey(s) != ""
  {
  }

  /** The limiter call of an event hits an application's window exactly when the event counts there. */
  lemma EventHits(e: Event, call: Call, outcome: Outcome, env: Settings, app: nat, w: nat)
    requires EventOk(e, call, outcome, env)
    ensures call.key == AppKey(app) ==>
              call.window == 60 && e.Answered? && e.req.caller.Some? && call.limit == LimitOf(e.req.caller.value).limit
    ensures Hits(call, AppKey(app), w) && call.executed <==> Counts(e, app, w)
    ensures call.key == AppKey(app) && Window(call.at, 60) == w && outcome == Admitted <==> Passed(e, app, w)
  {
    hide Answers, Eligible, RateKey, Window, LimitOf;
    RateKeyNotEmpty(GatewayApplication(app));
    if call.key == AppKey(app) && e.Elsewhere? {
      RateKeyInjective(e.subject, GatewayApplication(app));
    }
    if e.Answered? {
      ChargedExactly(e.req, e.route, e.tables, env, outcome, e.resp);
      if Eligible(e.req, e.route, e.tables) {
        EligibleParts(e.req, e.route, e.tables);
        var id := e.req.caller.value.id;
        if AppKey(id) == AppKey(app) { RateKeyInjective(GatewayApplication(id), GatewayApplication(app)); }
      }
    }
  }

  lemma TraceUniform(es: seq<Event>, r: Run, env: Settings, app: nat)
    requires IsTrace(es, r, env)
    ensures Uniform(r, AppKey(app), 60)
  {
    hide EventOk, AppKey;
    forall c | c in r.calls && c.key == AppKey(app) ensures c.window == 60 {
      var i :| 0 <= i < |r.calls| && r.calls[i] == c;
      EventHits(es[i], r.calls[i], r.outcomes[i], env, app, 0);
    }
  }

  lemma {:induction false} ChargesCounted(es: seq<Event>, r: Run, env: Settings, app: nat, w: nat, n: nat)
    requires IsTrace(es, r, env) && n <= |es|
    ensures Charges(es, app, w, n) == Counted(r, AppKey(app), w, n)
  {
    hide EventOk, IsRun, AppKey, Counts, Hits;
    if n > 0 {
      ChargesCounted(es, r, env, app, w, n - 1);
      EventHits(es[n - 1], r.calls[n - 1], r.outcomes[n - 1], env, app, w);
    }
  }

  lemma {:induction false} PassesAdmitted(es: seq<Event>, r: Run, env: Settings, app: nat, w: nat, n: nat)
    requires IsTrace(es, r, env) && n <= |es|
    ensures Passes(es, app, w, n) == Admissions(r, AppKey(app), w, w + 1, n)
  {
    hide EventOk, IsRun, AppKey, Passed, Window;
    if n > 0 {
      PassesAdmitted(es, r, env, app, w, n - 1);
      EventHits(es[n - 1], r.calls[n - 1], r.outcomes[n - 1], env, app, w);
      if r.calls[n - 1].key == AppKey(app) { assert r.calls[n - 1].window == 60; }
    }
  }

  /** Conservation: while a window lasts, the shared counter of an application holds exactly the number of
      its requests in that window answered with 200, 429, a destination 403 or 503, or a limiter 503 whose
      script had run - over all routes, methods and replicas. No other response moves it. */
  lemma CounterConserved(es: seq<Event>, r: Run, env: Settings, app: nat, w: nat, n: nat)
    requires IsTrace(es, r, env) && n <= |es|
    ensures var k, s := WindowKey(AppKey(app), w), r.stores[n];
            && (k in s ==> s[k].value == Str(Charges(es, app, w, n)) && Charges(es, app, w, n) > 0)
            && (k !in s ==> Charges(es, app, w, n) == 0 || (n > 0 && Boundary(w, 60) <= r.calls[n - 1].at))
  {
    hide EventOk, AppKey, Counts, Charges, Counted, Str, WindowKey, Boundary;
    TraceUniform(es, r, env, app);
    Counters(r, AppKey(app), 60, w, n);
    ChargesCounted(es, r, env, app, w, n);
  }

  /** Every plan in force for the application during the window allows at most `limit`. */
  ghost predicate PlansWithin(es: seq<Event>, app: nat, w: nat, limit: nat) {
    forall e <- es :: Requests(e, app, w) ==> LimitOf(e.req.caller.value).limit <= limit
  }

  /** The event is a request of the application in the window. */
  predicate Requests(e: Event, app: nat, w: nat) {
    e.Answered? && e.req.caller.Some? && e.req.caller.value.id == app && Window(e.req.at, 60) == w
  }

  lemma HitsRequest(e: Event, call: Call, outcome: Outcome, env: Settings, app: nat, w: nat)
    requires EventOk(e, call, outcome, env) && Hits(call, AppKey(app), w)
    ensures Requests(e, app, w) && call.limit == LimitOf(e.req.caller.value).limit
    ensures Charged(e.resp) && call.executed == e.req.executed && call.replied == e.req.replied
  {
    hide Answers, Eligible, RateKey, Window, LimitOf;
    EventHits(e, call, outcome, env, app, w);
    RateKeyNotEmpty(GatewayApplication(app));
    ChargedExactly(e.req, e.route, e.tables, env, outcome, e.resp);
    EligibleParts(e.req, e.route, e.tables);
    RateKeyInjective(GatewayApplication(e.req.caller.value.id), GatewayApplication(app));
  }

  lemma CallsWithin(es: seq<Event>, r: Run, env: Settings, app: nat, w: nat, limit: nat)
    requires IsTrace(es, r, env) && PlansWithin(es, app, w, limit)
    ensures forall c <- r.calls :: Hits(c, AppKey(app), w) ==> c.limit <= limit
  {
    hide EventOk, IsRun, AppKey, Hits, Requests, LimitOf;
    forall c | c in r.calls && Hits(c, AppKey(app), w) ensures c.limit <= limit {
      var i :| 0 <= i < |r.calls| && r.calls[i] == c;
      HitsRequest(es[i], r.calls[i], r.outcomes[i], env, app, w);
      assert es[i] in es;
    }
  }

  /** End-to-end quota: in one window, across all routes, methods and replicas and whatever fails, at most
      the largest plan limit in force passes the limiter; in particular that bounds the 200s. */
  lemma EndToEndQuota(es: seq<Event>, r: Run, env: Settings, app: nat, w: nat, limit: nat)
    requires IsTrace(es, r, env) && PlansWithin(es, app, w, limit)
    ensures Previews(es, app, w, |es|) <= Passes(es, app, w, |es|) <= limit
  {
    hide EventOk, AppKey, Passes, Previews, Admissions, PlansWithin;
    TraceUniform(es, r, env, app);
    CallsWithin(es, r, env, app, w, limit);
    QuotaBound(r, AppKey(app), 60, limit, w, |es|);
    PassesAdmitted(es, r, env, app, w, |es|);
    PreviewsPass(es, app, w, |es|);
  }

  lemma {:induction false} PreviewsPass(es: seq<Event>, app: nat, w: nat, n: nat)
    requires n <= |es|
    ensures Previews(es, app, w, n) <= Passes(es, app, w, n)
  {
    if n > 0 { PreviewsPass(es, app, w, n - 1); }
  }

  /** With one plan throughout and a limiter that always answers, exactly the first `limit` charged requests
      of the window pass. */
  lemma EndToEndExact(es: seq<Event>, r: Run, env: Settings, app: nat, w: nat, limit: nat)
    requires IsTrace(es, r, env)
    requires forall e <- es :: Requests(e, app, w) && Charged(e.resp) ==>
               e.req.executed && e.req.replied && LimitOf(e.req.caller.value).limit == limit
    ensures Passes(es, app, w, |es|) == Min(Charges(es, app, w, |es|), limit)
  {
    hide EventOk, AppKey, Passes, Charges, Admissions, Requests, Hits, LimitOf, Charged;
    TraceUniform(es, r, env, app);
    forall c | c in r.calls && Hits(c, AppKey(app), w) ensures c.executed && c.replied && c.limit == limit {
      var i :| 0 <= i < |r.calls| && r.calls[i] == c;
      HitsRequest(es[i], r.calls[i], r.outcomes[i], env, app, w);
      assert es[i] in es;
    }
    ExactQuota(r, AppKey(app), 60, limit, w, |es|);
    PassesAdmitted(es, r, env, app, w, |es|);
    ChargesCounted(es, r, env, app, w, |es|);
  }

  // ---- serving a series of requests ----

  /** A number from `n` on that is not taken. */
  function FreshFrom(taken: set<nat>, n: nat): (m: nat)
    ensures m >= n && m !in taken
    decreases |taken|
  {
    if n in taken then FreshFrom(taken - {n}, n + 1) else n
  }

  /** What the store shows from the last call on is what the run says. */
  ghost predicate Shows(client: FakeRedisClient, r: Run)
    reads client
  {
    IsRun(r) && forall t: nat :: (forall d <- r.calls :: d.at <= t) ==>
      client.View(t) == Unexpired(r.stores[|r.calls|], t)
  }

  /** One more request through the view. */
  method ServeNext(view: GatewayProxyView, req: Request, tables: PolicyTables, env: Settings,
                   others: nat -> seq<Protocol.Step>, fates: nat -> Cache.Fate, ghost es: seq<Event>, ghost r: Run)
      returns (e: Event, ghost now: Run)
    requires view.cache.Valid() && view.limiter.client.Valid() && Shows(view.limiter.client, r)
    requires IsTrace(es, r, env) && forall d <- r.calls :: d.at <= req.at
    modifies view.cache, view.limiter.client
    ensures view.cache.Valid() && view.limiter.client.Valid() && Shows(view.limiter.client, now)
    ensures IsTrace(es + [e], now, env) && now.calls == r.calls + [EventCall(e)] && EventCall(e).at == req.at
    ensures e.Answered? && e.req == req && e.tables == tables
  {
    hide Answers, CallOf, Protocol.Inv, Protocol.Extends, Cache.Worth, EventOk, Unexpired, Allow, IsRun;
    ghost var was := view.limiter.client.View(req.at);
    TraceRun(es, r, env);
    assert was == Unexpired(r.stores[|r.calls|], req.at);
    var c := FreshFrom(view.cache.sys.calls.Keys, 0);
    var resp, route := view.Forward(req, tables, env, c, others, fates);
    e := Answered(req, route, tables, resp);
    ghost var (s, outcome) := Allow(was, CallOf(req, route, tables));
    EventAt(req, route, tables, resp, env, outcome);
    TraceExtended(es, r, env, e, s, outcome);
    now := Run(r.calls + [EventCall(e)], r.stores + [s], r.outcomes + [outcome]);
    TraceRun(es + [e], now, env);
    assert EventCall(e) in now.calls;
  }

  lemma TraceRun(es: seq<Event>, r: Run, env: Settings)
    requires IsTrace(es, r, env)
    ensures IsRun(r) && |r.stores| == |r.calls| + 1
  {
  }

  /** Requests answered in the order of their clock readings, on counters that start empty, make a trace: so
      all of the above holds of the view. */
  method Serve(view: GatewayProxyView, requests: seq<Request>, tables: nat -> PolicyTables, env: Settings,
               others: nat -> nat -> seq<Protocol.Step>, fates: nat -> nat -> Cache.Fate)
      returns (es: seq<Event>, ghost r: Run)
    requires view.cache.Valid() && view.limiter.client.Valid() && view.limiter.client.Contents() == map[]
    requires forall i, j :: 0 <= i <= j < |requests| ==> requests[i].at <= requests[j].at
    modifies view.cache, view.limiter.client
    ensures view.cache.Valid() && view.limiter.client.Valid() && Shows(view.limiter.client, r)
    ensures |es| == |requests| && IsTrace(es, r, env)
    ensures forall i :: 0 <= i < |es| ==> es[i].Answered? && es[i].req == requests[i] && es[i].tables == tables(i)
  {
    hide Answers, CallOf, Protocol.Inv, IsRun, EventOk, Shows;
    es, r := [], Run([], [map[]], []);
    EmptyShows(view.limiter.client, env);
    for n := 0 to |requests|
      invariant view.cache.Valid() && view.limiter.client.Valid() && Shows(view.limiter.client, r)
      invariant |es| == n && IsTrace(es, r, env) && (n > 0 ==> forall d <- r.calls :: d.at <= requests[n - 1].at)
      invariant forall i :: 0 <= i < n ==> es[i].Answered? && es[i].req == requests[i] && es[i].tables == tables(i)
    {
      var e;
      e, r := ServeNext(view, requests[n], tables(n), env, others(n), fates(n), es, r);
      es := es + [e];
    }
  }

  lemma EmptyShows(client: FakeRedisClient, env: Settings)
    requires client.Contents() == map[]
    ensures Shows(client, Run([], [map[]], [])) && IsTrace([], Run([], [map[]], []), env)
  {
  }

  lemma EventAt(req: Request, route: Option<Snapshot>, tables: PolicyTables, resp: Response, env: Settings,
                outcome: Outcome)
    requires Answers(req, route, tables, env, outcome, resp)
    ensures EventOk(Answered(req, route, tables, resp), CallOf(req, route, tables), outcome, env)
    ensures CallOf(req, route, tables).at == req.at
  {
    hide Answers, Eligible, RateKey;
  }
}
