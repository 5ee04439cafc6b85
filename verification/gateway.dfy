/** GatewayProxyView.forward (apps/gateway/views.py): the ordered decisions about one gateway request, the one
    rate-limit charge among them, and what that adds up to over whole runs. */
module Gateway {
  import opened PyStrings
  import opened Authorization
  import opened Routing
  import opened RouteCatalog
  import opened RedisKeys
  import opened RedisStore
  import opened RateLimiter
  import opened Urls
  import opened Destinations
  import Tokens = ClientTokens
  import Protocol = CacheProtocol
  import CacheGuarantees
  import Cache = RouteCache

  /** The application of the API key, as the middleware read it. */
  datatype Caller = Caller(id: nat, application: Application)

  /** `bearer` holds the claims of a well-formed, correctly signed bearer token, if one was sent. */
  datatype Request = Request(caller: Option<Caller>, verb: string, path: string, bearer: Option<Tokens.Claims>,
                             at: nat, executed: bool, replied: bool)

  /** The tables as the request reads them. */
  datatype PolicyTables = PolicyTables(
    policies: map<(nat, string), Policy>, grants: map<nat, Grant>, users: map<nat, Tokens.User>)

  datatype Settings = Settings(allowed: seq<string>, lib: Library)

  datatype Response =
    | NoProject            // 401
    | NotFound             // 404
    | VerbNotAllowed       // 405
    | NotPermitted         // 403
    | BadToken             // 401
    | LimiterDown          // 503
    | TooMany              // 429
    | NoDestination        // 503
    | DestinationRefused   // 403
    | Preview(target: string, policy: Policy, user: Option<nat>)   // 200

  // ---- what each response means ----

  function PolicyOf(req: Request, route: Snapshot, tables: PolicyTables): Option<Policy> {
    if (route.id, req.verb) in tables.policies then Some(tables.policies[(route.id, req.verb)]) else None
  }

  predicate Permitted(caller: Caller, route: Snapshot, tables: PolicyTables) {
    HasPermission(caller.id, caller.application, tables.grants, route.id, caller.application.project)
  }

  /** The user the bearer token names, if it verifies for the caller's application. */
  function BearerUser(req: Request, caller: Caller, tables: PolicyTables): Option<nat> {
    if req.bearer.None? then None
    else Tokens.Verify(req.bearer.value, caller.id, caller.application.active, Tokens.Access, tables.users, req.at)
  }

  /** The request gets as far as the rate limiter. */
  predicate Eligible(req: Request, route: Option<Snapshot>, tables: PolicyTables) {
    && req.caller.Some? && route.Some?
    && PolicyOf(req, route.value, tables).Some?
    && Permitted(req.caller.value, route.value, tables)
    && (PolicyOf(req, route.value, tables) == Some(ApiKeyAndJwt) ==> BearerUser(req, req.caller.value, tables).Some?)
  }

  function BaseUrl(route: Snapshot): string {
    if route.service.None? then "" else route.service.value.baseUrl
  }

  function TargetUrl(req: Request, route: Snapshot): string { RStrip(BaseUrl(route)) + NormalizePath(req.path) }

  /** The route spells its path like the request, its base is accepted, and so is the composed URL. */
  predicate DestinationApproved(req: Request, route: Snapshot, env: Settings) {
    && route.path == BasePathOf(req.path)
    && BaseAccepted(BaseUrl(route), env.allowed, env.lib) && TargetAccepted(TargetUrl(req, route), env.allowed, env.lib)
  }

  /** When each response is the right one; `outcome` is the verdict of the limiter. */
  predicate Answers(req: Request, route: Option<Snapshot>, tables: PolicyTables, env: Settings, outcome: Outcome,
                    resp: Response) {
    match resp
    case NoProject => req.caller.None?
    case NotFound => req.caller.Some? && route.None?
    case VerbNotAllowed => req.caller.Some? && route.Some? && PolicyOf(req, route.value, tables).None?
    case NotPermitted =>
      && req.caller.Some? && route.Some? && PolicyOf(req, route.value, tables).Some?
      && !Permitted(req.caller.value, route.value, tables)
    case BadToken =>
      && req.caller.Some? && route.Some? && PolicyOf(req, route.value, tables) == Some(ApiKeyAndJwt)
      && Permitted(req.caller.value, route.value, tables) && BearerUser(req, req.caller.value, tables).None?
    case LimiterDown => Eligible(req, route, tables) && outcome == Unavailable
    case TooMany => Eligible(req, route, tables) && outcome == Refused
    case NoDestination => Eligible(req, route, tables) && outcome == Admitted && BaseUrl(route.value) == ""
    case DestinationRefused =>
      && Eligible(req, route, tables) && outcome == Admitted && BaseUrl(route.value) != ""
      && !DestinationApproved(req, route.value, env)
    case Preview(target, policy, user) =>
      && Eligible(req, route, tables) && outcome == Admitted && BaseUrl(route.value) != ""
      && DestinationApproved(req, route.value, env) && target == TargetUrl(req, route.value)
      && PolicyOf(req, route.value, tables) == Some(policy)
      && user == if policy == ApiKeyAndJwt then BearerUser(req, req.caller.value, tables) else None
  }

  function LimitOf(caller: Caller): RateLimit { ResolvedRateLimit(caller.application) }

  /** The limiter call a request amounts to; one that never gets there counts nothing. */
  function CallOf(req: Request, route: Option<Snapshot>, tables: PolicyTables): Call {
    if Eligible(req, route, tables) then
      Call(RateKey(GatewayApplication(req.caller.value.id)), LimitOf(req.caller.value).limit, 60, req.at, req.executed,
        req.replied)
    else Call("", 0, 60, req.at, false, false)
  }

  lemma EligibleParts(req: Request, route: Option<Snapshot>, tables: PolicyTables)
    requires Eligible(req, route, tables)
    ensures req.caller.Some? && route.Some?
  {
  }

  /** The responses of requests that reached the rate limiter. */
  predicate Charged(resp: Response) {
    resp.LimiterDown? || resp.TooMany? || resp.NoDestination? || resp.DestinationRefused? || resp.Preview?
  }

  /** Exactly one response is right. */
  lemma OneAnswer(req: Request, route: Option<Snapshot>, tables: PolicyTables, env: Settings, outcome: Outcome,
                  a: Response, b: Response)
    requires Answers(req, route, tables, env, outcome, a) && Answers(req, route, tables, env, outcome, b)
    ensures a == b
  {
    hide HasPermission, DestinationApproved, TargetUrl, BearerUser;
  }

  lemma ApprovedTarget(base: string, path: string, allowed: seq<string>, lib: Library)
    requires base != "" && BaseAccepted(base, allowed, lib) && path != "" && path[0] == '/'
    requires TargetAccepted(base + path, allowed, lib)
    ensures OriginOf(base + path, lib) == OriginOf(base, lib) && OriginOf(base, lib).Some?
    ensures exists item <- allowed :: OriginOf(item, lib) == OriginOf(base, lib)
  {
    hide OriginOf, BaseAccepted, CleanChars, Find;
    AppendedOrigin(base, path, allowed, lib);
    assert base + path != "";
  }

  lemma AcceptedBase(base: string, env: Settings)
    requires base != "" && BaseAccepted(base, env.allowed, env.lib)
    ensures RStrip(base) == base
  {
    hide UrlSplit, TargetAccepted, RStrip;
    RStripClean(base);
  }

  /** A preview always names an approved origin: the one of the service's own base URL. */
  lemma PreviewOrigin(req: Request, route: Option<Snapshot>, tables: PolicyTables, env: Settings, outcome: Outcome,
                      resp: Response)
    requires resp.Preview? && Answers(req, route, tables, env, outcome, resp)
    ensures var base := BaseUrl(route.value);
            && resp.target == base + NormalizePath(req.path)
            && OriginOf(resp.target, env.lib) == OriginOf(base, env.lib) && OriginOf(base, env.lib).Some?
            && exists item <- env.allowed :: OriginOf(item, env.lib) == OriginOf(base, env.lib)
  {
    hide OriginOf, BaseAccepted, TargetAccepted, PolicyOf, BearerUser, HasPermission, RStrip, Strip;
    var base := BaseUrl(route.value);
    AcceptedBase(base, env);
    ApprovedTarget(base, NormalizePath(req.path), env.allowed, env.lib);
  }

  lemma SinglePath()
    ensures NormalizePath("/x") == "/x"
  {
    hide LStrip, RStrip, Strip;
    StripRooted("x");
    assert "/x" == "/" + "x";
  }

  lemma PlainPath()
    ensures Find("/x", '#') == 2 && CleanChars("/x")
  {
    assert "/x"[1..] == "x" && "x"[1..] == "";
    assert Find("", '#') == 0 && Find("x", '#') == 1;
  }

  lemma PlainTarget(env: Settings)
    requires env == Settings(["http://a"], PlainLibrary())
    ensures BaseAccepted("http://a", env.allowed, env.lib) && TargetAccepted("http://a/x", env.allowed, env.lib)
    ensures RStrip("http://a") + NormalizePath("/x") == "http://a/x"
  {
    hide OriginOf, BaseAccepted, Find, RStrip, NormalizePath, CleanChars;
    PlainAccepted();
    AcceptedBase("http://a", env);
    SinglePath();
    PlainPath();
    assert '#' !in "http://a";
    AppendedOrigin("http://a", "/x", env.allowed, env.lib);
    assert "http://a" + "/x" == "http://a/x" && "http://a" in env.allowed;
  }

  /** A request that is previewed: an application without grants asks for a route of its project whose
      service has an approved base URL. */
  lemma PreviewExists() returns (req: Request, route: Snapshot, tables: PolicyTables, env: Settings, resp: Response)
    ensures resp == Preview("http://a/x", ApiKeyOnly, None)
    ensures Answers(req, Some(route), tables, env, Admitted, resp)
  {
    hide BaseAccepted, TargetAccepted, RStrip, NormalizePath, BasePathOf;
    req := Request(Some(Caller(7, Application(1, "normal", true))), "GET", "/x", None, 0, true, true);
    route := Snapshot(1, "/x", Some(ServiceData(2, "http://a")));
    tables := PolicyTables(map[(1, "GET") := ApiKeyOnly], map[], map[]);
    env := Settings(["http://a"], PlainLibrary());
    resp := Preview("http://a/x", ApiKeyOnly, None);
    PlainTarget(env);
    XIsOwn();
  }

  lemma XIsOwn()
    ensures BasePathOf("/x") == "/x"
  {
    ValidBasePathShape("/x");
    OwnFirstSegment("/x");
  }

  lemma NothingCharged(s: Store, req: Request, route: Option<Snapshot>, tables: PolicyTables)
    requires !Eligible(req, route, tables)
    ensures Allow(s, CallOf(req, route, tables)) == (s, Unavailable)
  {
  }

  class GatewayProxyView {
    const cache: Cache.Deployment
    const limiter: RedisRateLimiter

    constructor (cache: Cache.Deployment, limiter: RedisRateLimiter)
      ensures this.cache == cache && this.limiter == limiter
    {
      this.cache, this.limiter := cache, limiter;
    }

    /** What follows the rate limiter. */
    method Describe(req: Request, route: Snapshot, env: Settings, policy: Policy, user: Option<nat>)
        returns (resp: Response)
      requires ValidBasePath(route.path) && BasePathOf(req.path) != "/"
      ensures resp == if BaseUrl(route) == "" then NoDestination
                      else if DestinationApproved(req, route, env) then Preview(TargetUrl(req, route), policy, user)
                      else DestinationRefused
    {
      hide BaseAccepted, TargetAccepted, BuildTargetUrl, RStrip, NormalizePath, ValidBasePath, BasePathOf;
      if route.service.None? || route.service.value.baseUrl == "" {
        return NoDestination;
      }
      var base := route.service.value.baseUrl;
      if !BaseAccepted(base, env.allowed, env.lib) {
        return DestinationRefused;
      }
      BuilderOutcome(route.path, base, req.path);
      var target := BuildTargetUrl(route.path, base, req.path);
      if target.None? || !TargetAccepted(target.value, env.allowed, env.lib) {
        return DestinationRefused;
      }
      resp := Preview(target.value, policy, user);
    }

    /** What precedes the rate limiter: the first failing check answers. */
    method Screen(req: Request, route: Option<Snapshot>, tables: PolicyTables)
        returns (rejection: Option<Response>, policy: Policy, user: Option<nat>)
      ensures rejection.None? <==> Eligible(req, route, tables)
      ensures rejection.Some? ==>
                && !Charged(rejection.value)
                && forall env, outcome :: Answers(req, route, tables, env, outcome, rejection.value)
      ensures rejection.None? ==>
                && PolicyOf(req, route.value, tables) == Some(policy)
                && user == if policy == ApiKeyAndJwt then BearerUser(req, req.caller.value, tables) else None
    {
      hide DestinationApproved, TargetUrl, HasPermission, BearerUser;
      policy, user := ApiKeyOnly, None;
      if req.caller.None? { return Some(NoProject), policy, user; }
      var caller := req.caller.value;
      if route.None? { return Some(NotFound), policy, user; }
      var found := PolicyOf(req, route.value, tables);
      if found.None? { return Some(VerbNotAllowed), policy, user; }
      policy := found.value;
      if !Permitted(caller, route.value, tables) { return Some(NotPermitted), policy, user; }
      if policy == ApiKeyAndJwt {
        user := BearerUser(req, caller, tables);
        if user.None? { return Some(BadToken), policy, user; }
      }
      rejection := None;
    }

    method Charge(req: Request, route: Option<Snapshot>, tables: PolicyTables) returns (outcome: Outcome)
      requires limiter.client.Valid() && Eligible(req, route, tables)
      modifies limiter.client
      ensures limiter.client.Valid()
      ensures outcome == Allow(old(limiter.client.View(req.at)), CallOf(req, route, tables)).1
      ensures forall t :: req.at <= t ==>
                limiter.client.View(t) ==
                Unexpired(Allow(old(limiter.client.View(req.at)), CallOf(req, route, tables)).0, t)
    {
      hide Unexpired, Allow, Eligible, RateKey, ResolvedRateLimit;
      EligibleParts(req, route, tables);
      var caller := req.caller.value;
      var key, limit := RateKey(GatewayApplication(caller.id)), LimitOf(caller).limit;
      assert CallOf(req, route, tables) == Call(key, limit, 60, req.at, req.executed, req.replied);
      outcome := limiter.AllowRequest(key, limit, 60, req.at, req.executed, req.replied);
    }

    /** forward: the limiter is charged at most once, after the checks of route, method, permission and token
        and before those of the destination. */
    method Decide(req: Request, route: Option<Snapshot>, tables: PolicyTables, env: Settings) returns (resp: Response)
      requires limiter.client.Valid()
      requires route.Some? ==> ValidBasePath(route.value.path) && BasePathOf(req.path) != "/"
      modifies limiter.client
      ensures limiter.client.Valid()
      ensures Answers(req, route, tables, env, Allow(old(limiter.client.View(req.at)), CallOf(req, route, tables)).1,
                      resp)
      ensures forall t :: req.at <= t ==>
                limiter.client.View(t) ==
                Unexpired(Allow(old(limiter.client.View(req.at)), CallOf(req, route, tables)).0, t)
    {
      hide Unexpired, Eligible, PolicyOf, BearerUser, Allow, CallOf, BasePathOf, Charged, DestinationApproved,
        TargetUrl, BaseUrl, Permitted;
      var rejection, policy, user := Screen(req, route, tables);
      if rejection.Some? {
        UnexpiredTwice(limiter.client.Contents(), req.at);
        NothingCharged(limiter.client.View(req.at), req, route, tables);
        return rejection.value;
      }
      EligibleParts(req, route, tables);
      var outcome := Charge(req, route, tables);
      if outcome == Unavailable { return LimiterDown; }
      if outcome == Refused { return TooMany; }
      resp := Describe(req, route.value, env, policy, user);
    }

    /** The whole view: the route comes from the shared cache. */
    method Forward(req: Request, tables: PolicyTables, env: Settings, c: nat, others: nat -> seq<Protocol.Step>,
                   fates: nat -> Cache.Fate)
        returns (resp: Response, route: Option<Snapshot>)
      requires cache.Valid() && c !in cache.sys.calls && limiter.client.Valid()
      modifies cache, limiter.client
      ensures cache.Valid() && Protocol.Extends(old(cache.sys), cache.sys) && limiter.client.Valid()
      ensures route.Some? ==>
                && req.caller.Some? && c in cache.sys.calls && cache.sys.calls[c].phase.Served?
                && route == cache.sys.calls[c].phase.answer.value
                && Cache.Worth(old(cache.sys), cache.sys,
                  Key(req.caller.value.application.project, BasePathOf(req.path)),
                               cache.sys.calls[c].phase.answer)
      ensures Answers(req, route, tables, env, Allow(old(limiter.client.View(req.at)), CallOf(req, route, tables)).1,
                      resp)
      ensures forall t :: req.at <= t ==>
                limiter.client.View(t) ==
                Unexpired(Allow(old(limiter.client.View(req.at)), CallOf(req, route, tables)).0, t)
    {
      hide Unexpired, Answers, Allow, CallOf, Protocol.Inv, Protocol.Extends, Cache.Worth;
      route := None;
      if req.caller.Some? {
        route := cache.GetRouteForRequest(c, req.caller.value.application.project, req.path, others, fates);
      } else {
        CacheGuarantees.ExtendsRefl(cache.sys);
      }
      resp := Decide(req, route, tables, env);
    }
  }
}
