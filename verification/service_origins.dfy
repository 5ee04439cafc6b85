/** Moving destinations from routes to their services
    (apps/routes/migrations/0009_backendservice_base_url.py). */
module ServiceOrigins {
  import opened PyStrings
  import opened Urls
  import opened Tables
  import opened Routing

  datatype Service = Service(project: nat, baseUrl: string)

  datatype Route = Route(project: nat, service: Option<nat>, basePath: string, target: string)

  datatype Failure =
    | TargetWithoutService
    | MissingService
    | ForeignService
    | InvalidDestination
    | PathMismatch
    | SeveralOrigins
    | MixedTargets

  /** The old target splits into an absolute http(s) URL without credentials, query or fragment. */
  predicate Absolute(target: string, lib: Library) {
    match UrlSplit(target, lib)
    case None => false
    case Some(p) =>
      && (p.scheme == "http" || p.scheme == "https") && HostInfo(p.netloc).0 != ""
      && !HasCredentials(p.netloc) && p.fragment == "" && p.query == ""
  }

  /** ... whose path is the public path of the route. */
  predicate SamePath(route: Route, lib: Library) {
    && UrlSplit(route.target, lib).Some?
    && var path := RStrip(UrlSplit(route.target, lib).value.path);
       (if path == "" then "/" else path) == "/" + Strip(route.basePath)
  }

  /** The origin to store for a route, unless its old target cannot be represented. */
  function Destination(route: Route, lib: Library): Option<string> {
    if Absolute(route.target, lib) && SamePath(route, lib) then
      var p := UrlSplit(route.target, lib).value;
      Some(p.scheme + "://" + p.netloc)
    else None
  }

  /** The old forward target without its trailing slashes, recomposed as in section 5.3 of RFC 3986. */
  function OldUrl(target: string, lib: Library): string
    requires UrlSplit(target, lib).Some?
  {
    var p := UrlSplit(target, lib).value;
    p.scheme + "://" + p.netloc + RStrip(p.path)
  }

  predicate Owned(route: Route, services: map<nat, Service>) {
    match route.service
    case None => route.target == ""
    case Some(s) => s in services && services[s].project == route.project
  }

  predicate Uses(routes: map<nat, Route>, id: nat, service: nat) {
    id in routes && routes[id].service == Some(service)
  }

  predicate Configured(routes: map<nat, Route>, id: nat, service: nat) {
    Uses(routes, id, service) && routes[id].target != ""
  }

  /** The routes of a service are all unconfigured, or all configured with one representable origin. */
  ghost predicate Agreeing(routes: map<nat, Route>, service: nat, lib: Library) {
    forall i, j :: Configured(routes, i, service) && Uses(routes, j, service) ==>
      Configured(routes, j, service) && Destination(routes[i], lib).Some?
      && Destination(routes[j], lib) == Destination(routes[i], lib)
  }

  ghost predicate Migratable(routes: map<nat, Route>, services: map<nat, Service>, lib: Library) {
    && (forall i <- routes :: Owned(routes[i], services))
    && (forall s <- services :: Agreeing(routes, s, lib))
  }

  /** `after` is `before` with the common origin of its configured routes, if any, as base URL. */
  ghost predicate Moved(routes: map<nat, Route>, service: nat, before: Service, after: Service, lib: Library) {
    && Agreeing(routes, service, lib)
    && (forall i :: Configured(routes, i, service) ==>
          Destination(routes[i], lib) == Some(after.baseUrl) && after == before.(baseUrl := after.baseUrl))
    && ((forall i :: !Configured(routes, i, service)) ==> after == before)
  }

  // ---- the first loop: routes by service ----

  /** The services met among the routes `done`, each with its routes. */
  ghost predicate Grouped(routes: map<nat, Route>, done: set<nat>, groups: map<nat, seq<nat>>, order: seq<nat>) {
    && (forall s :: s in order <==> s in groups)
    && (forall i, j :: 0 <= i < j < |order| ==> order[i] != order[j])
    && (forall s <- groups :: groups[s] != [])
    && (forall s, i :: s in groups && i in groups[s] ==> i in done && Uses(routes, i, s))
    && (forall s, i :: i in done && Uses(routes, i, s) ==> s in groups && i in groups[s])
  }

  lemma GroupedStep(routes: map<nat, Route>, done: set<nat>, groups: map<nat, seq<nat>>, order: seq<nat>, id: nat,
                    s: nat)
    requires Grouped(routes, done, groups, order) && Uses(routes, id, s)
    ensures Grouped(routes, done + {id}, groups[s := (if s in groups then groups[s] else []) + [id]],
                    if s in groups then order else order + [s])
  {
  }

  lemma GroupMembers(routes: map<nat, Route>, services: map<nat, Service>, groups: map<nat, seq<nat>>, order: seq<nat>,
                     s: nat)
    requires Grouped(routes, routes.Keys, groups, order) && s in order
    requires forall i <- routes :: Owned(routes[i], services)
    ensures s in groups && s in services
    ensures forall i :: i in groups[s] <==> Uses(routes, i, s)
  {
    var i := groups[s][0];
    assert i in groups[s];
    assert Uses(routes, i, s) && Owned(routes[i], services);
  }

  lemma Ungrouped(routes: map<nat, Route>, groups: map<nat, seq<nat>>, order: seq<nat>, s: nat, service: Service,
                  lib: Library)
    requires Grouped(routes, routes.Keys, groups, order) && s !in order
    ensures Moved(routes, s, service, service, lib)
  {
  }

  lemma Unrepresentable(routes: map<nat, Route>, s: nat, ids: seq<nat>, lib: Library)
    requires forall i :: i in ids <==> Uses(routes, i, s)
    requires exists i <- ids :: i in routes && routes[i].target != "" && Destination(routes[i], lib).None?
    ensures !Agreeing(routes, s, lib)
  {
    hide Destination;
    var i :| i in ids && routes[i].target != "" && Destination(routes[i], lib).None?;
    assert Configured(routes, i, s);
  }

  // ---- the second loop: the origins of one service ----

  /** `origins` and `hasEmpty` describe the routes `ids`. */
  ghost predicate Collected(routes: map<nat, Route>, ids: seq<nat>, origins: set<string>, hasEmpty: bool, lib: Library)
    requires forall i <- ids :: i in routes
  {
    && (hasEmpty <==> exists i <- ids :: routes[i].target == "")
    && (forall i <- ids :: routes[i].target != "" ==>
          Destination(routes[i], lib).Some? && Destination(routes[i], lib).value in origins)
    && (forall o <- origins :: exists i <- ids :: routes[i].target != "" && Destination(routes[i], lib) == Some(o))
  }

  lemma CollectedEmpty(routes: map<nat, Route>, ids: seq<nat>, id: nat, origins: set<string>, hasEmpty: bool,
                       lib: Library)
    requires (forall i <- ids :: i in routes) && Collected(routes, ids, origins, hasEmpty, lib)
    requires id in routes && routes[id].target == ""
    ensures Collected(routes, ids + [id], origins, true, lib)
  {
    hide Destination;
    assert id in ids + [id];
    forall o <- origins ensures exists i <- ids + [id] ::
      routes[i].target != "" && Destination(routes[i], lib) == Some(o) {
      var i :| i in ids && routes[i].target != "" && Destination(routes[i], lib) == Some(o);
      assert i in ids + [id];
    }
  }

  lemma CollectedOrigin(routes: map<nat, Route>, ids: seq<nat>, id: nat, origins: set<string>, hasEmpty: bool,
                        lib: Library)
    requires (forall i <- ids :: i in routes) && Collected(routes, ids, origins, hasEmpty, lib)
    requires id in routes && routes[id].target != "" && Destination(routes[id], lib).Some?
    ensures Collected(routes, ids + [id], origins + {Destination(routes[id], lib).value}, hasEmpty, lib)
  {
    hide Destination;
    assert id in ids + [id];
    if hasEmpty {
      var i :| i in ids && routes[i].target == "";
      assert i in ids + [id];
    }
    forall o <- origins ensures exists i <- ids + [id] ::
      routes[i].target != "" && Destination(routes[i], lib) == Some(o) {
      var i :| i in ids && routes[i].target != "" && Destination(routes[i], lib) == Some(o);
      assert i in ids + [id];
    }
  }

  lemma AtMostOne(origins: set<string>)
    requires |origins| <= 1
    ensures forall o, p :: o in origins && p in origins ==> o == p
  {
    forall o, p | o in origins && p in origins ensures o == p {
      assert |origins - {o}| == |origins| - 1;
      assert p !in origins - {o};
    }
  }

  lemma TwoOf(origins: set<string>) returns (a: string, b: string)
    requires |origins| > 1
    ensures a in origins && b in origins && a != b
  {
    a :| a in origins;
    assert |origins - {a}| == |origins| - 1;
    b :| b in origins - {a};
  }

  /** The two tests on the collected origins decide whether the routes of the service agree. */
  lemma Verdict(routes: map<nat, Route>, s: nat, ids: seq<nat>, origins: set<string>, hasEmpty: bool, lib: Library)
    requires forall i :: i in ids <==> Uses(routes, i, s)
    requires (forall i <- ids :: i in routes) && Collected(routes, ids, origins, hasEmpty, lib)
    ensures Agreeing(routes, s, lib) <==> |origins| <= 1 && !(hasEmpty && origins != {})
  {
    hide Destination;
    if |origins| > 1 {
      var a, b := TwoOf(origins);
      var i :| i in ids && routes[i].target != "" && Destination(routes[i], lib) == Some(a);
      var j :| j in ids && routes[j].target != "" && Destination(routes[j], lib) == Some(b);
      assert Configured(routes, i, s) && Uses(routes, j, s);
    } else if hasEmpty && origins != {} {
      var a :| a in origins;
      var i :| i in ids && routes[i].target != "" && Destination(routes[i], lib) == Some(a);
      var j :| j in ids && routes[j].target == "";
      assert Configured(routes, i, s) && Uses(routes, j, s) && !Configured(routes, j, s);
    } else {
      AtMostOne(origins);
    }
  }

  lemma VerdictMoved(routes: map<nat, Route>, s: nat, ids: seq<nat>, origins: set<string>, hasEmpty: bool,
                     before: Service, after: Service, lib: Library)
    requires forall i :: i in ids <==> Uses(routes, i, s)
    requires (forall i <- ids :: i in routes) && Collected(routes, ids, origins, hasEmpty, lib)
        && Agreeing(routes, s, lib) && |origins| <= 1
    requires if origins == {} then after == before
        else after.baseUrl in origins && after == before.(baseUrl := after.baseUrl)
    ensures Moved(routes, s, before, after, lib)
  {
    hide Destination, Agreeing;
    AtMostOne(origins);
    if origins != {} {
      var i :| i in ids && routes[i].target != "" && Destination(routes[i], lib) == Some(after.baseUrl);
      assert Configured(routes, i, s);
    }
  }

  class Catalog {
    var routes: map<nat, Route>
    var services: map<nat, Service>

    constructor (routes: map<nat, Route>, services: map<nat, Service>)
      ensures this.routes == routes && this.services == services
    {
      this.routes, this.services := routes, services;
    }

    /** Groups the routes by service, refusing targets nobody owns and services of other projects. */
    method RoutesByService() returns (failure: Option<Failure>, groups: map<nat, seq<nat>>, order: seq<nat>)
      ensures failure.None? <==> forall i <- routes :: Owned(routes[i], services)
      ensures failure.None? ==> Grouped(routes, routes.Keys, groups, order)
    {
      groups, order := map[], [];
      var todo := routes.Keys;
      while todo != {}
        invariant todo <= routes.Keys
        invariant forall i <- routes.Keys - todo :: Owned(routes[i], services)
        invariant Grouped(routes, routes.Keys - todo, groups, order)
      {
        var id := Least(todo);
        var route := routes[id];
        if route.service.None? {
          if route.target != "" { return Some(TargetWithoutService), groups, order; }
        } else {
          var s := route.service.value;
          if s !in services { return Some(MissingService), groups, order; }
          if services[s].project != route.project { return Some(ForeignService), groups, order; }
          GroupedStep(routes, routes.Keys - todo, groups, order, id, s);
          order := if s in groups then order else order + [s];
          groups := groups[s := (if s in groups then groups[s] else []) + [id]];
        }
        assert routes.Keys - (todo - {id}) == routes.Keys - todo + {id};
        todo := todo - {id};
      }
      assert routes.Keys - todo == routes.Keys;
      failure := None;
    }

    /** Collects the origins the routes of one service were forwarded to. */
    method CollectOrigins(ids: seq<nat>, lib: Library)
        returns (failure: Option<Failure>, origins: set<string>, hasEmpty: bool)
      requires forall i <- ids :: i in routes
      ensures failure.None? ==> Collected(routes, ids, origins, hasEmpty, lib)
      ensures failure.Some? ==> exists i <- ids :: routes[i].target != "" && Destination(routes[i], lib).None?
    {
      hide Absolute, SamePath;
      origins, hasEmpty := {}, false;
      for n := 0 to |ids|
        invariant Collected(routes, ids[..n], origins, hasEmpty, lib)
      {
        var route := routes[ids[n]];
        assert ids[..n + 1] == ids[..n] + [ids[n]];
        if route.target == "" {
          CollectedEmpty(routes, ids[..n], ids[n], origins, hasEmpty, lib);
          hasEmpty := true;
        } else {
          if !Absolute(route.target, lib) { return Some(InvalidDestination), origins, hasEmpty; }
          if !SamePath(route, lib) { return Some(PathMismatch), origins, hasEmpty; }
          CollectedOrigin(routes, ids[..n], ids[n], origins, hasEmpty, lib);
          origins := origins + {Destination(route, lib).value};
        }
      }
      assert ids[..|ids|] == ids;
      failure := None;
    }

    /** Succeeds exactly on catalogs whose destinations fit the new schema, and then gives every service
        the one origin its routes had. A failure leaves each service either untouched or correctly moved. */
    method MigrateServiceOrigins(lib: Library) returns (failure: Option<Failure>)
      modifies this`services
      ensures failure.None? ==> Migratable(routes, old(services), lib)
      ensures failure.Some? ==> !Migratable(routes, old(services), lib)
      ensures services.Keys == old(services.Keys)
      ensures forall s <- services ::
                || Moved(routes, s, old(services)[s], services[s], lib)
                || (failure.Some? && services[s] == old(services)[s])
    {
      hide Destination, Moved, Agreeing, Collected;
      ghost var before := services;
      var groups, order;
      failure, groups, order := RoutesByService();
      if failure.Some? { return; }
      for n := 0 to |order|
        invariant failure.None? && services.Keys == before.Keys
        invariant forall s <- services :: s in order[n..] || s !in order ==> services[s] == before[s]
        invariant forall s <- services :: s in order[..n] ==> Moved(routes, s, before[s], services[s], lib)
      {
        var s := order[n];
        GroupMembers(routes, before, groups, order, s);
        assert s in order[n..] && s !in order[..n];
        var origins, hasEmpty;
        failure, origins, hasEmpty := CollectOrigins(groups[s], lib);
        if failure.Some? {
          Unrepresentable(routes, s, groups[s], lib);
          return;
        }
        Verdict(routes, s, groups[s], origins, hasEmpty, lib);
        if |origins| > 1 { return Some(SeveralOrigins); }
        if hasEmpty && origins != {} { return Some(MixedTargets); }
        if origins != {} {
          var origin :| origin in origins;
          services := services[s := services[s].(baseUrl := origin)];
        }
        VerdictMoved(routes, s, groups[s], origins, hasEmpty, before[s], services[s], lib);
      }
      forall s <- services ensures Moved(routes, s, before[s], services[s], lib) {
        if s !in order { Ungrouped(routes, groups, order, s, services[s], lib); }
      }
      AllMoved(routes, before, services, lib);
    }
  }

  lemma AllMoved(routes: map<nat, Route>, before: map<nat, Service>, after: map<nat, Service>, lib: Library)
    requires after.Keys == before.Keys
    requires forall i <- routes :: Owned(routes[i], before)
    requires forall s <- after :: Moved(routes, s, before[s], after[s], lib)
    ensures Migratable(routes, before, lib)
  {
    hide Agreeing;
    forall s <- before ensures Agreeing(routes, s, lib) {
      assert Moved(routes, s, before[s], after[s], lib);
    }
  }

  /** The migration keeps every destination: the URL composed from the new service origin for the public
      path and any suffix is the old forward target with that suffix. */
  lemma UrlsPreserved(routes: map<nat, Route>, id: nat, service: nat, before: Service, after: Service,
                      suffix: string, lib: Library)
    requires Uses(routes, id, service) && before.baseUrl == ""
    requires Moved(routes, service, before, after, lib)
    requires Strip(routes[id].basePath) != ""
    requires suffix == "" || (suffix[0] == '/' && suffix[|suffix| - 1] != '/')
    ensures after.baseUrl == "" <==> routes[id].target == ""
    ensures routes[id].target != "" ==>
              && UrlSplit(routes[id].target, lib).Some?
              && BuildTargetUrl(routes[id].basePath, after.baseUrl, NormalizePath(routes[id].basePath) + suffix)
                 == Some(OldUrl(routes[id].target, lib) + suffix)
  {
    if routes[id].target != "" {
      assert Configured(routes, id, service);
      Recomposed(routes[id], after.baseUrl, suffix, lib);
    } else {
      assert forall i :: !Configured(routes, i, service);
    }
  }

  lemma Recomposed(route: Route, origin: string, suffix: string, lib: Library)
    requires Destination(route, lib) == Some(origin) && Strip(route.basePath) != ""
    requires suffix == "" || (suffix[0] == '/' && suffix[|suffix| - 1] != '/')
    ensures origin != ""
    ensures BuildTargetUrl(route.basePath, origin, NormalizePath(route.basePath) + suffix)
            == Some(OldUrl(route.target, lib) + suffix)
  {
    hide BuildTargetUrl, UrlSplit, SamePath, NormalizePath, Strip;
    OriginShape(route, origin, lib);
    PathKept(route, lib);
    BuildAppendsSuffix(route.basePath, origin, suffix);
    Assoc(origin, NormalizePath(route.basePath), suffix);
  }

  lemma Assoc(a: string, b: string, c: string)
    ensures (a + b) + c == a + (b + c)
  {
  }

  lemma PathKept(route: Route, lib: Library)
    requires SamePath(route, lib) && Strip(route.basePath) != ""
    ensures RStrip(UrlSplit(route.target, lib).value.path) == NormalizePath(route.basePath)
  {
    hide UrlSplit;
    NormalizeStrip(route.basePath);
    assert "/" + Strip(route.basePath) != "/";
  }

  lemma OriginShape(route: Route, origin: string, lib: Library)
    requires Destination(route, lib) == Some(origin)
    ensures origin != "" && origin[|origin| - 1] != '/'
  {
    hide UrlSplit, SamePath, HostInfo;
    var p := UrlSplit(route.target, lib).value;
    NetlocSlashFree(route.target, lib);
    assert p.netloc != "" by { EmptyHost(); }
    assert p.netloc[|p.netloc| - 1] in p.netloc;
  }

  lemma EmptyHost()
    ensures HostInfo("") == ("", None)
  {
  }

  lemma NetlocSlashFree(url: string, lib: Library)
    requires UrlSplit(url, lib).Some?
    ensures '/' !in UrlSplit(url, lib).value.netloc
  {
  }
}
