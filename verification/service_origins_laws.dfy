/** Which databases the origin migration must accept, and what it must store: written out over the text of the old
    targets (apps/routes/migrations/0009_backendservice_base_url.py). */
module ServiceOriginsLaws {
  import opened PyStrings
  import opened Routing
  import opened Urls
  import opened ServiceOrigins
  import opened PathLaws
  import opened UrlLaws

  /** The scheme and network location a service was reached at. */
  datatype Address = Address(scheme: string, netloc: string)

  /** http or https, a host, no delimiters or user field, and nothing the library refuses. */
  predicate Usable(a: Address, lib: Library) {
    && Web(a.scheme) && Plain(a.netloc) && Unbroken(a.netloc) && '@' !in a.netloc && HostInfo(a.netloc).0 != ""
    && ('[' in a.netloc <==> ']' in a.netloc)
      && ('[' in a.netloc ==> lib.bracketed(a.netloc)) && lib.normalizes(a.netloc)
  }

  /** The base path is some slashes around a path with clean ends, and the target is the address followed by that
      path behind one slash, with any number of slashes at its end. */
  predicate PointsAt(route: Route, a: Address, core: string, before: string, after: string, trailing: string) {
    && Slashes(before) && Slashes(after) && Slashes(trailing) && Clean(core) && core != ""
    && '?' !in core && '#' !in core && Unbroken(core)
    && route.basePath == before + core + after
    && route.target == a.scheme + "://" + a.netloc + "/" + core + trailing
  }

  /** The route points at the address under its own path. */
  ghost predicate Forwards(route: Route, a: Address) {
    exists core, before, after, trailing :: PointsAt(route, a, core, before, after, trailing)
  }

  lemma TrailingClean(core: string, trailing: string)
    requires Slashes(trailing) && Clean(core) && core != "" && '?' !in core && '#' !in core && Unbroken(core)
    ensures RStrip("/" + core + trailing) == "/" + core
    ensures '?' !in "/" + core + trailing && '#' !in "/" + core + trailing && Unbroken("/" + core + trailing)
  {
    RStripSlashes("/" + core, trailing);
    RStripClean("/" + core);
    assert forall i :: 0 <= i < |trailing| ==> trailing[i] == '/';
    assert forall c <- trailing :: c == '/';
  }

  lemma ComposedText(a: Address, path: string)
    ensures Compose(a.scheme, a.netloc, path, "", "") == a.scheme + "://" + a.netloc + path
  {
    assert path + Query("") + Fragment("") == path;
    assert a.scheme + [':'] + ("//" + (a.netloc + path)) == a.scheme + "://" + a.netloc + path;
  }

  lemma UnbrokenText(a: Address, path: string)
    requires Web(a.scheme) && Unbroken(a.netloc) && Unbroken(path)
    ensures Unbroken(a.scheme + "://" + a.netloc + path)
  {
  }

  lemma TargetSplits(a: Address, path: string, lib: Library)
    requires Usable(a, lib) && path != "" && path[0] == '/' && '?' !in path && '#' !in path && Unbroken(path)
    ensures UrlSplit(a.scheme + "://" + a.netloc + path, lib) == Some(Parts(a.scheme, a.netloc, path, "", ""))
  {
    hide UrlSplit, Compose, Unbroken, Plain, HostInfo;
    ComposedText(a, path);
    UnbrokenText(a, path);
    SplitComposed(a.scheme, a.netloc, path, "", "", lib);
  }

  /** Such a route is migrated to exactly that address. */
  lemma ForwardsTo(route: Route, a: Address, lib: Library)
    requires Usable(a, lib) && Forwards(route, a)
    ensures route.target != "" && Destination(route, lib) == Some(a.scheme + "://" + a.netloc)
  {
    hide UrlSplit, HostInfo, Strip, RStrip, Plain, Slashes, Unbroken, Clean;
    var core, before, after, trailing :| PointsAt(route, a, core, before, after, trailing);
    var path := "/" + core + trailing;
    assert route.target == a.scheme + "://" + a.netloc + path;
    TrailingClean(core, trailing);
    TargetSplits(a, path, lib);
    StripExactly(before, core, after);
    NoUser(a.netloc);
  }

  lemma NoUser(netloc: string)
    requires '@' !in netloc
    ensures !HasCredentials(netloc)
  {
    NoLast(netloc, '@');
  }

  /** Every route belongs to a service of its project or has no target; and the routes of each service either all
      forward to its address under their own paths, or all have no target. */
  ghost predicate Uniform(routes: map<nat, Route>, services: map<nat, Service>, addresses: map<nat, Address>,
                          lib: Library) {
    && (forall i <- routes :: routes[i].service == None ==> routes[i].target == "")
    && (forall i <- routes :: routes[i].service != None ==>
          routes[i].service.value in services && services[routes[i].service.value].project == routes[i].project)
    && (forall i <- routes :: routes[i].service != None ==>
          if routes[i].service.value in addresses then Forwards(routes[i], addresses[routes[i].service.value])
          else routes[i].target == "")
    && (forall s <- addresses :: Usable(addresses[s], lib))
  }

  lemma UniformAgrees(routes: map<nat, Route>, services: map<nat, Service>, addresses: map<nat, Address>, s: nat,
                      lib: Library)
    requires Uniform(routes, services, addresses, lib)
    ensures Agreeing(routes, s, lib)
  {
    hide Usable, Forwards, Destination;
    forall i, j | Configured(routes, i, s) && Uses(routes, j, s)
      ensures Configured(routes, j, s) && Destination(routes[i], lib).Some?
              && Destination(routes[j], lib) == Destination(routes[i], lib)
    {
      ForwardsTo(routes[i], addresses[s], lib);
      ForwardsTo(routes[j], addresses[s], lib);
    }
  }

  /** Completeness: every such database migrates, and each service with an address and a route gets exactly that
      address as its base URL, whichever of http and https it is; all others keep their row. */
  method MigrateUniform(catalog: Catalog, addresses: map<nat, Address>, lib: Library) returns (failure: Option<Failure>)
    requires Uniform(catalog.routes, catalog.services, addresses, lib)
    modifies catalog`services
    ensures failure == None && catalog.services.Keys == old(catalog.services).Keys
    ensures forall i <- catalog.routes :: catalog.routes[i].service != None ==>
              var s := catalog.routes[i].service.value;
              && s in catalog.services && catalog.services[s].project == old(catalog.services)[s].project
              && catalog.services[s].baseUrl ==
                 if s in addresses then addresses[s].scheme + "://" + addresses[s].netloc
                 else old(catalog.services)[s].baseUrl
  {
    hide Uniform, Agreeing, Moved, Destination, Usable, Forwards;
    ghost var before := catalog.services;
    UniformOwned(catalog.routes, before, addresses, lib);
    forall s ensures Agreeing(catalog.routes, s, lib) { UniformAgrees(catalog.routes, before, addresses, s, lib); }
    failure := catalog.MigrateServiceOrigins(lib);
    forall i | i in catalog.routes && catalog.routes[i].service != None
      ensures var s := catalog.routes[i].service.value;
              && s in catalog.services && catalog.services[s].project == before[s].project
              && catalog.services[s].baseUrl ==
                 if s in addresses then addresses[s].scheme + "://" + addresses[s].netloc else before[s].baseUrl
    {
      var s := catalog.routes[i].service.value;
      UniformMoved(catalog.routes, before, addresses, i, catalog.services[s], lib);
    }
  }

  lemma UniformOwned(routes: map<nat, Route>, services: map<nat, Service>, addresses: map<nat, Address>, lib: Library)
    requires Uniform(routes, services, addresses, lib)
    ensures forall i <- routes :: Owned(routes[i], services)
  {
    hide Usable, Forwards;
  }

  lemma UniformMoved(routes: map<nat, Route>, services: map<nat, Service>, addresses: map<nat, Address>, i: nat,
                     now: Service, lib: Library)
    requires Uniform(routes, services, addresses, lib) && i in routes && routes[i].service != None
    requires routes[i].service.value in services
        && Moved(routes, routes[i].service.value, services[routes[i].service.value], now, lib)
    ensures var s := routes[i].service.value;
            && now.project == services[s].project
            && now.baseUrl == if s in addresses then addresses[s].scheme + "://" + addresses[s].netloc
              else services[s].baseUrl
  {
    hide Usable, Forwards, Destination, Agreeing;
    var s := routes[i].service.value;
    if s in addresses {
      ForwardsTo(routes[i], addresses[s], lib);
      assert Configured(routes, i, s);
    } else {
      assert forall j :: !Configured(routes, j, s);
    }
  }

  // ---- for example a service reached at "https://svc" ----

  function Lenient(): Library { Library(s => s, s => false, s => false, s => true) }

  const SECURE := Address("https", "svc")

  const SECURE_ROUTE := Route(1, Some(2), "/doctors", "https://svc/doctors/")

  lemma SecureUsable()
    ensures Usable(SECURE, Lenient())
  {
    HostAlone("svc");
  }

  lemma SecureForwards()
    ensures Forwards(SECURE_ROUTE, SECURE)
  {
    assert "/" + "doctors" + "" == "/doctors";
    assert "https" + "://" + "svc" + "/" + "doctors" + "/" == "https://svc/doctors/";
    assert PointsAt(SECURE_ROUTE, SECURE, "doctors", "/", "", "/");
  }

  lemma HttpsMigrates()
    ensures Uniform(map[1 := SECURE_ROUTE], map[2 := Service(1, "")], map[2 := SECURE], Lenient())
    ensures Destination(SECURE_ROUTE, Lenient()) == Some("https://svc")
  {
    hide Usable, Forwards, Destination;
    SecureUsable();
    SecureForwards();
    ForwardsTo(SECURE_ROUTE, SECURE, Lenient());
    assert "https" + "://" + "svc" == "https://svc";
  }

  // ---- exactly which targets ----

  lemma PathMatches(path: string, core: string)
    requires Clean(core) && core != ""
    ensures RStrip(path) == "/" + core <==> exists trailing :: Slashes(trailing) && path == "/" + core + trailing
  {
    hide Slashes;
    if RStrip(path) == "/" + core {
      var trailing := RightPart(path);
      assert path == "/" + core + trailing;
    }
    forall trailing | Slashes(trailing) && path == "/" + core + trailing ensures RStrip(path) == "/" + core {
      RStripSlashes("/" + core, trailing);
      RStripClean("/" + core);
    }
  }

  /** A target composed of its parts can be migrated exactly when it has a host, no user name or password, no query,
      no fragment, and for path the public one with any number of slashes behind. */
  lemma DestinationExactly(route: Route, scheme: string, netloc: string, path: string, query: string, fragment: string,
                           before: string, core: string, after: string, lib: Library)
    requires route.target == Compose(scheme, netloc, path, query, fragment) && route.basePath == before + core + after
    requires Slashes(before) && Slashes(after) && Clean(core) && core != ""
    requires Web(scheme) && Plain(netloc) && UrlLaws.Rooted(path)
    requires '?' !in path && '#' !in path && '#' !in query && Unbroken(route.target)
    requires ('[' in netloc <==> ']' in netloc) && ('[' in netloc ==> lib.bracketed(netloc)) && lib.normalizes(netloc)
    ensures Destination(route, lib) ==
            if && HostInfo(netloc).0 != "" && !HasCredentials(netloc) && query == "" && fragment == ""
               && exists trailing :: Slashes(trailing) && path == "/" + core + trailing
            then Some(scheme + "://" + netloc) else None
  {
    hide UrlSplit, Compose, HostInfo, HasCredentials, Strip, RStrip, Plain, Unbroken, Slashes;
    SplitComposed(scheme, netloc, path, query, fragment, lib);
    StripExactly(before, core, after);
    PathMatches(path, core);
    assert "/" + core != "/";
  }

  /** A route at the root may have a target without any path, or with slashes only. */
  lemma RootDestination(route: Route, a: Address, trailing: string, lib: Library)
    requires Usable(a, lib) && Slashes(route.basePath) && Slashes(trailing)
    requires route.target == a.scheme + "://" + a.netloc + trailing
    ensures Destination(route, lib) == Some(a.scheme + "://" + a.netloc)
  {
    hide UrlSplit, Compose, HostInfo, HasCredentials, Strip, RStrip, Plain, Unbroken;
    SlashesPlain(trailing);
    ComposedText(a, trailing);
    UnbrokenText(a, trailing);
    SplitComposed(a.scheme, a.netloc, trailing, "", "", lib);
    StripSlashes(trailing);
    StripExactly(route.basePath, "", "");
    assert route.basePath + "" + "" == route.basePath;
    NoUser(a.netloc);
  }

  lemma SlashesPlain(trailing: string)
    requires Slashes(trailing)
    ensures '?' !in trailing && '#' !in trailing && Unbroken(trailing) && UrlLaws.Rooted(trailing)
  {
  }

  // ---- what is refused ----

  /** The databases that migrate, in terms of the destinations above: no target without a service, no missing service
      and none of another project, and for each service either no target at all or one destination throughout. */
  lemma MigratesExactly(routes: map<nat, Route>, services: map<nat, Service>, lib: Library)
    ensures Migratable(routes, services, lib) <==>
            && (forall i <- routes :: routes[i].service == None ==> routes[i].target == "")
            && (forall i <- routes :: routes[i].service != None ==>
                  routes[i].service.value in services && services[routes[i].service.value].project == routes[i].project)
            && (forall i <- routes, j <- routes ::
                  routes[i].service != None && routes[i].service == routes[j].service && routes[i].target != "" ==>
                    && routes[j].target != "" && Destination(routes[i], lib) != None
                    && Destination(routes[j], lib) == Destination(routes[i], lib))
  {
    hide Destination;
    if Migratable(routes, services, lib) {
      forall i, j | i in routes && j in routes && routes[i].service != None && routes[i].service == routes[j].service
          && routes[i].target != ""
        ensures routes[j].target != "" && Destination(routes[i], lib) != None
        ensures Destination(routes[j], lib) == Destination(routes[i], lib)
      {
        var s := routes[i].service.value;
        assert Owned(routes[i], services) && Agreeing(routes, s, lib);
        assert Configured(routes, i, s) && Uses(routes, j, s);
      }
      assert forall i <- routes :: Owned(routes[i], services);
    }
  }
}
