/** The two data migrations in their order: consolidating the routes (0008), then moving their destinations to
    the services (0009). */
module Migrations {
  import opened PyStrings
  import opened Routing
  import Urls
  import Rows = Consolidation
  import Meaning = ConsolidationMeaning
  import Database = ConsolidationDatabase
  import ConsolidateRoutes
  import Origins = ServiceOrigins

  /** The route table between the migrations: 0008 drops the method and its policy from the rows. */
  function Between(routes: map<nat, Rows.Route>): map<nat, Origins.Route> {
    map i <- routes :: Origins.Route(routes[i].key.project, routes[i].service, routes[i].key.path, routes[i].target)
  }

  /** What 0008 promises when it succeeds. */
  ghost predicate FirstDone(was: Rows.State, now: Rows.State) {
    Rows.WellFormed(was) && Rows.Consolidated(was, now) && forall key :: Rows.Consolidable(was, key)
  }

  /** What 0009 promises when it succeeds, on services whose new column is still empty. */
  ghost predicate SecondDone(routes: map<nat, Origins.Route>, before: map<nat, Origins.Service>,
                             after: map<nat, Origins.Service>, lib: Urls.Library) {
    && (forall s <- before :: before[s].baseUrl == "") && after.Keys == before.Keys
    && Origins.Migratable(routes, before, lib)
    && (forall s <- after :: Origins.Moved(routes, s, before[s], after[s], lib))
  }

  /** A suffix that neither merges with the path nor ends in a slash. */
  predicate Admitted(suffix: string) { suffix == "" || (suffix[0] == '/' && suffix[|suffix| - 1] != '/') }

  /** The URL for the public path of an old row and a suffix is its old target with the suffix; a service without
      a base URL stands for a row without a target. */
  ghost predicate UrlKept(row: Rows.Route, after: map<nat, Origins.Service>, suffix: string, lib: Urls.Library) {
    row.service.Some? ==>
      && row.service.value in after
      && var baseUrl := after[row.service.value].baseUrl;
      && (baseUrl == "" <==> row.target == "")
      && (row.target != "" ==>
            && Urls.UrlSplit(row.target, lib).Some?
            && BuildTargetUrl(row.key.path, baseUrl, NormalizePath(row.key.path) + suffix) ==
               Some(Origins.OldUrl(row.target, lib) + suffix))
  }

  /** After both migrations every old row is forwarded where it was: through the row that survived for its path. */
  lemma DestinationsPreserved(was: Rows.State, now: Rows.State, before: map<nat, Origins.Service>,
                              after: map<nat, Origins.Service>, i: nat, suffix: string, lib: Urls.Library)
    requires FirstDone(was, now) && SecondDone(Between(now.routes), before, after, lib)
    requires i in was.routes && Strip(was.routes[i].key.path) != "" && Admitted(suffix)
    ensures Rows.Home(was.routes, i) in now.routes
    ensures now.routes[Rows.Home(was.routes, i)].service == was.routes[i].service
    ensures UrlKept(was.routes[i], after, suffix, lib)
  {
    hide Rows.Consolidated, Rows.WellFormed, Rows.Home, Origins.Moved, Origins.Agreeing;
    hide BuildTargetUrl, NormalizePath, Strip, Urls.UrlSplit;
    Meaning.DestinationKept(was, now, i);
    var home, routes := Rows.Home(was.routes, i), Between(now.routes);
    if was.routes[i].service.Some? {
      var s := was.routes[i].service.value;
      assert Origins.Owned(routes[home], before);
      assert Origins.Uses(routes, home, s);
      Origins.UrlsPreserved(routes, home, s, before[s], after[s], suffix, lib);
    }
  }

  /** Both migrations, one after the other. */
  method Migrate(db: Database.Database, services: map<nat, Origins.Service>, lib: Urls.Library)
      returns (ok: bool, after: map<nat, Origins.Service>)
    requires Rows.WellFormed(db.Tables()) && forall s <- services :: services[s].baseUrl == ""
    modifies db
    ensures ok ==> Rows.Consolidated(old(db.Tables()), db.Tables())
    ensures ok ==> forall i, suffix ::
              i in old(db.routes) && Strip(old(db.routes)[i].key.path) != "" && Admitted(suffix) ==>
                UrlKept(old(db.routes)[i], after, suffix, lib)
  {
    hide Rows.Consolidated, Rows.WellFormed, Rows.Consolidable, Origins.Moved, Origins.Migratable, UrlKept, Strip,
      Between;
    ghost var was := db.Tables();
    var outcome := ConsolidateRoutes.Consolidate(db);
    if outcome != Rows.Done { return false, services; }
    var catalog := new Origins.Catalog(Between(db.routes), services);
    var failure := catalog.MigrateServiceOrigins(lib);
    if failure.Some? { return false, services; }
    ok, after := true, catalog.services;
    forall i, suffix | i in was.routes && Strip(was.routes[i].key.path) != "" && Admitted(suffix)
      ensures UrlKept(was.routes[i], after, suffix, lib)
    {
      DestinationsPreserved(was, db.Tables(), services, after, i, suffix, lib);
    }
  }
}
