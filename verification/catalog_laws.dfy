/** What lookups and writes of the routing tables come to, column by column (apps/gateway/route_cache.py,
    apps/routes/models.py, apps/routes/signals.py). */
module CatalogLaws {
  import opened PyStrings
  import opened Routing
  import opened RouteCatalog

  // ---- lookups ----

  /** The row has the project and a path that compares equal, is active, and has no service or an existing active
      one of the project. */
  predicate Matches(c: Catalog, key: Key, row: Route) {
    && row.key.project == key.project && c.fold(row.key.path) == c.fold(key.path) && row.active
    && (row.service == None ||
        (&& row.service.value in c.services && c.services[row.service.value].active
         && c.services[row.service.value].project == key.project))
  }

  /** A lookup finds nothing exactly when no row matches. */
  lemma FoundExactly(c: Catalog, key: Key)
    ensures ReadRoute(c, key).None? <==> forall id <- c.routes :: !Matches(c, key, c.routes[id])
  {
    assert forall id :: id in c.routes ==> (Matches(c, key, c.routes[id]) <==> Visible(c, key, id));
  }

  /** What it finds is such a row: its id, its path as spelt there, and its service with the base URL. */
  lemma FoundRow(c: Catalog, key: Key)
    requires ReadRoute(c, key).Some?
    ensures var found := ReadRoute(c, key).value;
            && found.id in c.routes
            && var row := c.routes[found.id];
            && row.key.project == key.project && c.fold(row.key.path) == c.fold(key.path) && row.active
            && found.path == row.key.path && (found.service.None? <==> row.service == None)
            && (found.service.Some? ==>
                  && row.service == Some(found.service.value.id) && found.service.value.id in c.services
                  && var service := c.services[found.service.value.id];
                  service.active && service.project == key.project && found.service.value.baseUrl == service.baseUrl)
  {
  }

  // ---- saving a service ----

  /** A deactivated service is never found. */
  lemma DeactivatedHidden(c: Catalog, s: nat, service: Service, key: Key)
    requires !service.active
    ensures var found := ReadRoute(Apply(c, SaveService(s, service)), key);
            found.None? || found.value.service.None? || found.value.service.value.id != s
  {
    var d := Apply(c, SaveService(s, service));
    if ReadRoute(d, key).Some? { FoundRow(d, key); }
  }

  /** The active routes of an active service of their project are found with the base URL just saved. */
  lemma ActivatedFound(c: Catalog, s: nat, service: Service, id: nat)
    requires WellFormed(c) && id in c.routes && c.routes[id].service == Some(s) && c.routes[id].active
    requires service.active && service.project == c.routes[id].key.project
    ensures ReadRoute(Apply(c, SaveService(s, service)), c.routes[id].key) ==
            Some(Snapshot(id, c.routes[id].key.path, Some(ServiceData(s, service.baseUrl))))
  {
    var d := Apply(c, SaveService(s, service));
    ReadsVisible(d, c.routes[id].key, id);
  }

  // ---- saving and deleting routes ----

  /** Route.save is accepted exactly for a path of one slash and a non-empty segment, on an existing row or with
      all columns, where no other row of the project has a path that compares equal to the one stored. */
  lemma AcceptedExactly(c: Catalog, id: nat, instance: Route, fields: Fields)
    ensures Accepted(c, SaveRoute(id, instance, fields)) <==>
            && |instance.key.path| > 1 && instance.key.path[0] == '/' && '/' !in instance.key.path[1..]
            && (id in c.routes || (fields.project && fields.path && fields.service && fields.active))
            && (forall j <- c.routes ::
                  var project := if id in c.routes && !fields.project then c.routes[id].key.project
                    else instance.key.project;
                  var path := if id in c.routes && !fields.path then c.routes[id].key.path else instance.key.path;
                  c.routes[j].key.project == project && c.fold(c.routes[j].key.path) == c.fold(path) ==> j == id)
  {
    hide ValidBasePath;
    ValidBasePathShape(instance.key.path);
  }

  /** A save writes the named columns of one row and nothing else. */
  lemma SavedColumns(c: Catalog, id: nat, instance: Route, fields: Fields)
    ensures var d := Apply(c, SaveRoute(id, instance, fields));
            && d.services == c.services && d.routes.Keys == c.routes.Keys + {id}
            && (forall j <- c.routes :: j != id ==> d.routes[j] == c.routes[j])
            && (id !in c.routes ==> d.routes[id] == instance)
            && (id in c.routes ==>
                  var was, now := c.routes[id], d.routes[id];
                  && now.key.project == (if fields.project then instance.key.project else was.key.project)
                  && now.key.path == (if fields.path then instance.key.path else was.key.path)
                  && now.service == (if fields.service then instance.service else was.service)
                  && now.active == (if fields.active then instance.active else was.active))
  {
  }

  /** A full save is read back at once: as saved if active and without a service or with an active one of the
      project, and not at all otherwise. */
  lemma SavedIsRead(c: Catalog, id: nat, instance: Route)
    requires WellFormed(c) && Accepted(c, SaveRoute(id, instance, ALL_FIELDS))
    ensures ReadRoute(Apply(c, SaveRoute(id, instance, ALL_FIELDS)), instance.key) ==
            if !instance.active then None
            else if instance.service == None then Some(Snapshot(id, instance.key.path, None))
            else if && instance.service.value in c.services && c.services[instance.service.value].active
                    && c.services[instance.service.value].project == instance.key.project
            then Some(Snapshot(id, instance.key.path,
                               Some(ServiceData(instance.service.value, c.services[instance.service.value].baseUrl))))
            else None
  {
    hide ValidBasePath;
    var d := Apply(c, SaveRoute(id, instance, ALL_FIELDS));
    WriteKeepsTables(c, SaveRoute(id, instance, ALL_FIELDS));
    assert SavedRow(c, id, instance, ALL_FIELDS) == instance;
    assert forall j :: Visible(d, instance.key, j) ==> j == id;
    if Visible(d, instance.key, id) { ReadsVisible(d, instance.key, id); }
  }

  /** A deleted route is gone, and so is the answer to its key; the other rows stay. */
  lemma DeletedIsGone(c: Catalog, id: nat, instanceKey: Key)
    requires WellFormed(c) && id in c.routes
    ensures var d := Apply(c, DeleteRoute(id, instanceKey));
            && d.services == c.services && d.routes.Keys == c.routes.Keys - {id}
            && (forall j <- d.routes :: d.routes[j] == c.routes[j])
            && ReadRoute(d, c.routes[id].key).None?
  {
    hide ValidBasePath;
    var d := Apply(c, DeleteRoute(id, instanceKey));
    assert forall j :: !Visible(d, c.routes[id].key, j);
  }

  /** A deleted service takes its routes along, and no others. */
  lemma ServiceIsGone(c: Catalog, s: nat)
    requires s in c.services
    ensures var d := Apply(c, DeleteService(s));
            && d.services == c.services - {s}
            && (forall j :: j in d.routes <==> j in c.routes && c.routes[j].service != Some(s))
            && (forall j <- d.routes :: d.routes[j] == c.routes[j])
  {
  }

  // ---- what the signals schedule ----

  /** A save schedules the key of the instance and the key the row had, a delete that of the instance. */
  lemma RouteSchedules(c: Catalog, id: nat, instance: Route, fields: Fields, key: Key)
    ensures key in Scheduled(c, SaveRoute(id, instance, fields)) <==>
            key == instance.key || (id in c.routes && key == c.routes[id].key)
    ensures instance.key.path != "" ==> (key in Scheduled(c, DeleteRoute(id, instance.key)) <==> key == instance.key)
  {
  }

  /** Saving or deleting a service schedules the keys of its routes and no others. */
  lemma ServiceSchedules(c: Catalog, s: nat, service: Service, key: Key)
    ensures key in Scheduled(c, SaveService(s, service)) <==>
            exists id <- c.routes :: c.routes[id].service == Some(s) && c.routes[id].key == key
    ensures key in Scheduled(c, DeleteService(s)) <==>
            exists id <- c.routes :: c.routes[id].service == Some(s) && c.routes[id].key == key
  {
  }
}
