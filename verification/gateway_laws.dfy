/** When each response is given, in terms of rows, claims and texts alone (apps/gateway/views.py,
    apps/authentication/models.py, apps/client_auth/services.py). */
module GatewayLaws {
  import opened PyStrings
  import opened Authorization
  import opened Routing
  import opened RouteCatalog
  import opened RateLimiter
  import opened Gateway
  import opened PermissionLaws
  import opened Urls
  import opened Destinations
  import opened PathLaws
  import opened UrlLaws
  import Tokens = ClientTokens

  /** The row of route and method exists. */
  predicate Listed(req: Request, route: Snapshot, tables: PolicyTables) { (route.id, req.verb) in tables.policies }

  /** 401 for the project, 404 and 405: no caller, no route, no policy row for exactly this route and method. */
  lemma EarlyExactly(req: Request, route: Option<Snapshot>, tables: PolicyTables, env: Settings, outcome: Outcome)
    ensures Answers(req, route, tables, env, outcome, NoProject) <==> req.caller == None
    ensures Answers(req, route, tables, env, outcome, NotFound) <==> req.caller != None && route == None
    ensures Answers(req, route, tables, env, outcome, VerbNotAllowed) <==>
            req.caller != None && route != None && !Listed(req, route.value, tables)
  {
  }

  /** 403 for the permission: the application is inactive, or has grant rows of which no active one names the route. */
  lemma NotPermittedExactly(req: Request, route: Option<Snapshot>, tables: PolicyTables, env: Settings,
                            outcome: Outcome)
    ensures Answers(req, route, tables, env, outcome, NotPermitted) <==>
            && req.caller != None && route != None && Listed(req, route.value, tables)
            && (|| !req.caller.value.application.active
                || (&& HasRow(tables.grants, req.caller.value.id)
                    && !ActiveRow(tables.grants, req.caller.value.id, route.value.id)))
  {
    hide HasPermission;
    if req.caller != None && route != None {
      var caller := req.caller.value;
      PermissionExactly(caller.id, caller.application, tables.grants, route.value.id, caller.application.project);
    }
  }

  /** So an active application without grant rows is never refused a route of its project. */
  lemma OpenByDefault(req: Request, route: Option<Snapshot>, tables: PolicyTables, env: Settings, outcome: Outcome)
    requires req.caller != None && req.caller.value.application.active
    requires forall g <- tables.grants :: tables.grants[g].app != req.caller.value.id
    ensures !Answers(req, route, tables, env, outcome, NotPermitted)
  {
    hide Answers;
    NotPermittedExactly(req, route, tables, env, outcome);
  }

  /** The bearer claims are those of an access token for this application whose dates hold and whose user is stored
      as active, in this application and with this version. */
  predicate GoodBearer(req: Request, tables: PolicyTables) {
    && req.caller != None && req.bearer != None
    && var claims, app := req.bearer.value, req.caller.value.id;
    && claims.kind == Tokens.Access && claims.app == app && req.caller.value.application.active
    && 1000 * claims.iat <= req.at && 1000 * claims.nbf <= req.at < 1000 * claims.exp
    && IsDecimal(claims.sub) && Int(claims.sub) in tables.users
    && var user := tables.users[Int(claims.sub)];
    user.app == app && user.active && user.version == claims.version
  }

  lemma BearerExactly(req: Request, tables: PolicyTables)
    requires req.caller != None
    ensures BearerUser(req, req.caller.value, tables).Some? <==> GoodBearer(req, tables)
    ensures GoodBearer(req, tables) ==>
              IsDecimal(req.bearer.value.sub) &&
              BearerUser(req, req.caller.value, tables) == Some(Int(req.bearer.value.sub))
  {
    hide Int, IsDecimal;
  }

  /** The request reaches the limiter: caller, route, policy row, permission, and a good bearer token where the
      policy asks for one. */
  predicate Reaches(req: Request, route: Option<Snapshot>, tables: PolicyTables) {
    && req.caller != None && route != None && Listed(req, route.value, tables)
    && req.caller.value.application.active
    && (HasRow(tables.grants, req.caller.value.id) ==>
          ActiveRow(tables.grants, req.caller.value.id, route.value.id))
    && (tables.policies[(route.value.id, req.verb)] == ApiKeyAndJwt ==> GoodBearer(req, tables))
  }

  lemma ReachesExactly(req: Request, route: Option<Snapshot>, tables: PolicyTables)
    ensures Eligible(req, route, tables) <==> Reaches(req, route, tables)
  {
    hide HasPermission, BearerUser, GoodBearer, HasRow, ActiveRow;
    if req.caller != None && route != None {
      var caller := req.caller.value;
      PermissionExactly(caller.id, caller.application, tables.grants, route.value.id, caller.application.project);
      BearerExactly(req, tables);
    }
  }

  /** 401 for the token: everything else holds, the policy asks for a token and there is no good one. */
  lemma BadTokenExactly(req: Request, route: Option<Snapshot>, tables: PolicyTables, env: Settings, outcome: Outcome)
    ensures Answers(req, route, tables, env, outcome, BadToken) <==>
            && req.caller != None && route != None && Listed(req, route.value, tables)
            && req.caller.value.application.active
            && (HasRow(tables.grants, req.caller.value.id) ==>
                  ActiveRow(tables.grants, req.caller.value.id, route.value.id))
            && tables.policies[(route.value.id, req.verb)] == ApiKeyAndJwt && !GoodBearer(req, tables)
  {
    hide HasPermission, BearerUser, GoodBearer, HasRow, ActiveRow;
    if req.caller != None && route != None {
      var caller := req.caller.value;
      PermissionExactly(caller.id, caller.application, tables.grants, route.value.id, caller.application.project);
      BearerExactly(req, tables);
    }
  }

  /** 503 and 429 of the limiter, and the 503 of a route without destination. */
  lemma LimiterExactly(req: Request, route: Option<Snapshot>, tables: PolicyTables, env: Settings, outcome: Outcome)
    ensures Answers(req, route, tables, env, outcome, LimiterDown) <==>
        Reaches(req, route, tables) && outcome == Unavailable
    ensures Answers(req, route, tables, env, outcome, TooMany) <==> Reaches(req, route, tables) && outcome == Refused
    ensures Answers(req, route, tables, env, outcome, NoDestination) <==>
            && Reaches(req, route, tables) && outcome == Admitted
            && (route.value.service == None || route.value.service.value.baseUrl == "")
  {
    hide Eligible, Reaches;
    ReachesExactly(req, route, tables);
    if Eligible(req, route, tables) { EligibleParts(req, route, tables); }
  }

  /** The limiter call of a request that gets there: the key of the application, 1000 a minute on the premium plan
      and 100 on any other. */
  lemma ChargeText(req: Request, route: Option<Snapshot>, tables: PolicyTables)
    requires Reaches(req, route, tables)
    ensures var call, caller := CallOf(req, route, tables), req.caller.value;
            && call.key == "gateway_rate:application:" + Str(caller.id) && call.window == 60
            && call.limit == (if caller.application.plan == "premium" then 1000 else 100)
            && call.at == req.at && call.executed == req.executed && call.replied == req.replied
  {
    hide Eligible, Reaches, Str;
    ReachesExactly(req, route, tables);
    ReachesParts(req, route, tables);
  }

  lemma ReachesParts(req: Request, route: Option<Snapshot>, tables: PolicyTables)
    requires Reaches(req, route, tables)
    ensures req.caller != None && route != None && Listed(req, route.value, tables)
  {
  }

  /** A 200 tells the policy of exactly this route and method, and the user of its token under JWT, nobody else. */
  lemma PreviewTells(req: Request, route: Option<Snapshot>, tables: PolicyTables, env: Settings, outcome: Outcome,
                     resp: Response)
    requires resp.Preview? && Answers(req, route, tables, env, outcome, resp)
    ensures Reaches(req, route, tables) && outcome == Admitted
    ensures resp.policy == tables.policies[(route.value.id, req.verb)]
    ensures resp.policy == ApiKeyAndJwt ==>
              req.bearer != None && IsDecimal(req.bearer.value.sub) &&
              resp.user == Some(Int(req.bearer.value.sub))
    ensures resp.policy == ApiKeyOnly ==> resp.user == None
  {
    hide Eligible, Reaches, BearerUser, GoodBearer, DestinationApproved, TargetUrl;
    ReachesExactly(req, route, tables);
    ReachesParts(req, route, tables);
    if resp.policy == ApiKeyAndJwt {
      ReachesBearer(req, route, tables);
      BearerExactly(req, tables);
    }
  }

  lemma ReachesBearer(req: Request, route: Option<Snapshot>, tables: PolicyTables)
    requires Reaches(req, route, tables) && tables.policies[(route.value.id, req.verb)] == ApiKeyAndJwt
    ensures GoodBearer(req, tables) && req.bearer != None && IsDecimal(req.bearer.value.sub)
  {
  }

  // ---- destinations ----

  lemma TextBehind(site: Site, path: string)
    ensures Text(site) + path == Compose(site.scheme, Location(site, true), path, "", "")
  {
    assert path + Query("") + Fragment("") == path;
    assert "" + Query("") + Fragment("") == "";
    var scheme, location := site.scheme, Location(site, true);
    assert Text(site) == scheme + [':'] + ("//" + (location + ""));
    assert scheme + [':'] + ("//" + (location + "")) + path == scheme + [':'] + ("//" + (location + path));
  }

  lemma TextStripped(site: Site, lib: Library)
    requires Sound(site, lib)
    ensures RStrip(Text(site)) == Text(site) && Text(site) != ""
  {
    hide Sound, RStrip;
    EndsInLetter(site, true, lib);
    RStripClean(Text(site));
  }

  /** A request of some slashes, a segment, a rest and some slashes, for a route whose service has the URL of a site:
      where the allowlist names sites, the destination is approved exactly when the route is the segment's and the
      site is listed; and the target is the site's URL followed by segment and rest. */
  lemma ApprovedExactly(req: Request, route: Snapshot, env: Settings, sites: seq<Site>, site: Site,
                        a: string, segment: string, rest: string, b: string)
    requires req.path == a + segment + rest + b && Slashes(a) && Slashes(b) && Segment(segment) && Rest(rest)
    requires '?' !in segment + rest && '#' !in segment + rest && CleanChars(Text(site) + ("/" + segment + rest))
    requires route.service != None && route.service.value.baseUrl == Text(site)
    requires env.allowed == Texts(sites) && AllSound(sites, env.lib) && Sound(site, env.lib) && site.port <= 65535
    ensures DestinationApproved(req, route, env) <==> route.path == "/" + segment && site in sites
    ensures TargetUrl(req, route) == Text(site) + ("/" + segment + rest)
  {
    hide Text, Compose, Location, Sound, AllSound, Texts, RStrip, NormalizePath, BasePathOf, BaseAccepted,
      TargetAccepted;
    hide CleanChars, PathLaws.Clean;
    var path := "/" + segment + rest;
    TextStripped(site, env.lib);
    LookupPath(a, segment, rest, b);
    SegmentFirst(segment, rest);
    assert a + segment + rest + b == a + (segment + rest) + b && path == "/" + (segment + rest);
    NormalForm(a, segment + rest, b);
    TextBehind(site, path);
    TextBehind(site, "");
    assert Text(site) + "" == Text(site);
    CleanConcat(Text(site), path);
    assert '?' !in path && '#' !in path;
    ListedExactly(sites, site, true, path, "", env.lib);
    BaseExactly(sites, site, true, "", "", env.lib);
  }

  /** So such a request, once past the limiter, is previewed with that target or refused a destination, by that. */
  lemma PreviewExactly(req: Request, route: Snapshot, tables: PolicyTables, env: Settings, sites: seq<Site>, site: Site,
                       a: string, segment: string, rest: string, b: string)
    requires req.path == a + segment + rest + b && Slashes(a) && Slashes(b) && Segment(segment) && Rest(rest)
    requires '?' !in segment + rest && '#' !in segment + rest && CleanChars(Text(site) + ("/" + segment + rest))
    requires route.service != None && route.service.value.baseUrl == Text(site)
    requires env.allowed == Texts(sites) && AllSound(sites, env.lib) && Sound(site, env.lib) && site.port <= 65535
    requires Reaches(req, Some(route), tables)
    ensures Listed(req, route, tables)
    ensures var policy := tables.policies[(route.id, req.verb)];
            var user := if policy == ApiKeyAndJwt && req.bearer != None
              && IsDecimal(req.bearer.value.sub) then Some(Int(req.bearer.value.sub)) else None;
            && (Answers(req, Some(route), tables, env, Admitted,
              Preview(Text(site) + ("/" + segment + rest), policy, user))
                <==> route.path == "/" + segment && site in sites)
            && (Answers(req, Some(route), tables, env, Admitted, DestinationRefused)
                <==> !(route.path == "/" + segment && site in sites))
  {
    hide Text, Sound, AllSound, Texts, DestinationApproved, TargetUrl, Eligible, Reaches, BearerUser, GoodBearer;
    hide PathLaws.Segment, PathLaws.Rest, CleanChars;
    ApprovedExactly(req, route, env, sites, site, a, segment, rest, b);
    TextStripped(site, env.lib);
    ReachesExactly(req, Some(route), tables);
    ReachesParts(req, Some(route), tables);
    if tables.policies[(route.id, req.verb)] == ApiKeyAndJwt {
      ReachesBearer(req, Some(route), tables);
      BearerExactly(req, tables);
    }
  }
}
