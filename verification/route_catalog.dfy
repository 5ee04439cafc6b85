/** The routing tables behind the cache: what a lookup reads, how writes change it, and which keys the
    save and delete signals schedule for invalidation (apps/routes/models.py, apps/routes/signals.py,
    `_read_route` of apps/gateway/route_cache.py). */
module RouteCatalog {
  import opened PyStrings
  import opened Tables
  import opened Routing

  datatype Key = Key(project: nat, path: string)

  datatype Service = Service(project: nat, baseUrl: string, active: bool)

  datatype Route = Route(key: Key, service: Option<nat>, active: bool)

  /** `fold` maps a path to what the path column compares: itself where paths compare exactly, as in SQLite,
      and something coarser under a collation such as MySQL's default, which ignores case. */
  datatype Catalog = Catalog(routes: map<nat, Route>, services: map<nat, Service>, fold: string -> string)

  /** The cached JSON document. */
  datatype Snapshot = Snapshot(id: nat, path: string, service: Option<ServiceData>)

  datatype ServiceData = ServiceData(id: nat, baseUrl: string)

  /** The row passes the filter of `_read_route` for its own project and path. */
  predicate Live(services: map<nat, Service>, route: Route) {
    && route.active
    && (route.service.None? ||
        (&& route.service.value in services && services[route.service.value].project == route.key.project
         && services[route.service.value].active))
  }

  predicate SameKey(c: Catalog, a: Key, b: Key) { a.project == b.project && c.fold(a.path) == c.fold(b.path) }

  predicate Visible(c: Catalog, key: Key, id: nat) {
    id in c.routes && SameKey(c, c.routes[id].key, key) && Live(c.services, c.routes[id])
  }

  function SnapshotOf(c: Catalog, id: nat): Snapshot
    requires id in c.routes && Live(c.services, c.routes[id])
  {
    var route := c.routes[id];
    Snapshot(id, route.key.path,
             if route.service.None? then None
             else Some(ServiceData(route.service.value, c.services[route.service.value].baseUrl)))
  }

  /** `_read_route`: the first visible row in primary-key order, with the path as the row spells it. */
  function ReadRoute(c: Catalog, key: Key): (r: Option<Snapshot>)
    ensures r.None? <==> forall id :: !Visible(c, key, id)
    ensures r.Some? ==> Visible(c, key, r.value.id) && r.value == SnapshotOf(c, r.value.id)
  {
    var ids := set id <- c.routes | Visible(c, key, id);
    assert forall id :: Visible(c, key, id) ==> id in ids;
    if ids == {} then None
    else
      var id := Least(ids);
      Some(SnapshotOf(c, id))
  }

  /** The lookup finds a row that spells the path like the key. */
  predicate Own(c: Catalog, key: Key) {
    ReadRoute(c, key).Some? && ReadRoute(c, key).value.path == key.path
  }

  /** Where paths compare exactly, every lookup that finds a row does. */
  lemma ExactSpelling(c: Catalog, key: Key)
    requires forall a, b :: c.fold(a) == c.fold(b) ==> a == b
    ensures Own(c, key) <==> ReadRoute(c, key).Some?
  {
  }

  /** The constraints of the route table. */
  predicate WellFormed(c: Catalog) {
    && (forall i <- c.routes, j <- c.routes :: SameKey(c, c.routes[i].key, c.routes[j].key) ==> i == j)
    && (forall i <- c.routes :: ValidBasePath(c.routes[i].key.path))
  }

  // ---- writes ----

  /** The columns an UPDATE writes: all of them, or those named in update_fields. */
  datatype Fields = Fields(project: bool, path: bool, service: bool, active: bool)

  const ALL_FIELDS := Fields(true, true, true, true)

  datatype Write =
    | SaveRoute(id: nat, instance: Route, fields: Fields)
    | DeleteRoute(id: nat, instanceKey: Key)
    | SaveService(id: nat, service: Service)
    | DeleteService(id: nat)

  function Merged(row: Route, instance: Route, fields: Fields): Route {
    Route(Key(if fields.project then instance.key.project else row.key.project,
              if fields.path then instance.key.path else row.key.path),
          if fields.service then instance.service else row.service,
          if fields.active then instance.active else row.active)
  }

  /** The row a save leaves behind. */
  function SavedRow(c: Catalog, id: nat, instance: Route, fields: Fields): Route {
    if id in c.routes then Merged(c.routes[id], instance, fields) else instance
  }

  /** The guard of Route.save, update_fields on a missing row, and the (project, base_path) constraint. */
  predicate Accepted(c: Catalog, w: Write) {
    match w
    case SaveRoute(id, instance, fields) =>
      && ValidBasePath(instance.key.path)
      && (id in c.routes || fields == ALL_FIELDS)
      && (forall j <- c.routes :: SameKey(c, c.routes[j].key, SavedRow(c, id, instance, fields).key) ==> j == id)
    case DeleteRoute(id, _) => id in c.routes
    case SaveService(_, _) => true
    case DeleteService(id) => id in c.services
  }

  function Users(c: Catalog, service: nat): set<nat> {
    set i <- c.routes | c.routes[i].service == Some(service)
  }

  function Apply(c: Catalog, w: Write): Catalog {
    match w
    case SaveRoute(id, instance, fields) => c.(routes := c.routes[id := SavedRow(c, id, instance, fields)])
    case DeleteRoute(id, _) => c.(routes := c.routes - {id})
    case SaveService(id, service) => c.(services := c.services[id := service])
    case DeleteService(id) => c.(routes := c.routes - Users(c, id), services := c.services - {id})
  }

  /** The keys the signals schedule. A save schedules the key of the saved instance and, if different, the
      key its row had; a delete the key of the deleted instance; a service save or delete those of its routes. */
  function Scheduled(c: Catalog, w: Write): set<Key> {
    match w
    case SaveRoute(id, instance, _) => {instance.key} + (if id in c.routes then {c.routes[id].key} else {})
    case DeleteRoute(_, instanceKey) => if instanceKey.path == "" then {} else {instanceKey}
    case SaveService(id, _) => set i <- Users(c, id) :: c.routes[i].key
    case DeleteService(id) => set i <- Users(c, id) :: c.routes[i].key
  }

  /** The lookup differs between two catalogs, and in one of them it finds a row spelt like the key. */
  predicate ShownDifferently(c: Catalog, d: Catalog, key: Key) {
    (Own(c, key) || Own(d, key)) && ReadRoute(d, key) != ReadRoute(c, key)
  }

  /** Every lookup the write changes, spelt like the row it finds before or after, is scheduled for
      invalidation. */
  ghost predicate Covers(c: Catalog, w: Write) {
    forall key :: ShownDifferently(c, Apply(c, w), key) ==> key in Scheduled(c, w)
  }

  /** The key the row gets is that of the instance, or the one it had, or nobody can look it up; and a row is
      deleted through an instance with its own key, or nobody could look it up. */
  predicate Fresh(c: Catalog, w: Write) {
    match w
    case SaveRoute(id, instance, fields) =>
      var row := SavedRow(c, id, instance, fields);
      row.key == instance.key || (id in c.routes && row.key == c.routes[id].key) || !Live(c.services, row)
    case DeleteRoute(id, instanceKey) =>
      id in c.routes && (instanceKey == c.routes[id].key || !Live(c.services, c.routes[id]))
    case SaveService(_, _) => true
    case DeleteService(_) => true
  }

  lemma WriteKeepsTables(c: Catalog, w: Write)
    requires WellFormed(c) && Accepted(c, w)
    ensures WellFormed(Apply(c, w)) && Apply(c, w).fold == c.fold
  {
    if w.SaveRoute? && w.id in c.routes {
      assert ValidBasePath(c.routes[w.id].key.path);
    }
  }

  /** At most one row answers a key. */
  lemma ReadsVisible(c: Catalog, key: Key, id: nat)
    requires WellFormed(c) && Visible(c, key, id)
    ensures ReadRoute(c, key) == Some(SnapshotOf(c, id))
  {
  }

  lemma FreshCovers(c: Catalog, w: Write)
    requires WellFormed(c) && Accepted(c, w) && Fresh(c, w)
    ensures Covers(c, w)
  {
    hide WellFormed, Accepted, Fresh, Apply, Scheduled, ReadRoute;
    var d := Apply(c, w);
    WriteKeepsTables(c, w);
    forall key | key !in Scheduled(c, w) && (Own(c, key) || Own(d, key))
      ensures ReadRoute(d, key) == ReadRoute(c, key) {
      var id := if Own(c, key) then ReadRoute(c, key).value.id else ReadRoute(d, key).value.id;
      OwnRow(c, key);
      OwnRow(d, key);
      RowStays(c, w, key, id);
      ReadsVisible(c, key, id);
      ReadsVisible(d, key, id);
    }
  }

  predicate VisibleAsSpelt(c: Catalog, key: Key, id: nat) { Visible(c, key, id) && c.routes[id].key == key }

  lemma OwnRow(c: Catalog, key: Key)
    ensures Own(c, key) ==> VisibleAsSpelt(c, key, ReadRoute(c, key).value.id)
  {
  }

  /** A fresh write that does not schedule the key leaves the row spelt like it as it is. */
  lemma RowStays(c: Catalog, w: Write, key: Key, id: nat)
    requires WellFormed(c) && Accepted(c, w) && Fresh(c, w) && key !in Scheduled(c, w)
    requires VisibleAsSpelt(c, key, id) || VisibleAsSpelt(Apply(c, w), key, id)
    ensures Visible(c, key, id) && Visible(Apply(c, w), key, id) && SnapshotOf(c, id) == SnapshotOf(Apply(c, w), id)
  {
    match w
    case SaveRoute(_, _, _) =>
    case DeleteRoute(_, _) => assert ValidBasePath(c.routes[id].key.path);
    case SaveService(s, _) => assert id !in Users(c, s);
    case DeleteService(s) => assert id !in Users(c, s);
  }

  /** Covering holds exactly for fresh writes: what escapes is a save that writes one key column from an
      instance whose other key column is outdated, or a delete through an instance with an outdated key. */
  lemma CoversExactly(c: Catalog, w: Write)
    requires WellFormed(c) && Accepted(c, w)
    ensures Covers(c, w) <==> Fresh(c, w)
  {
    if Fresh(c, w) {
      FreshCovers(c, w);
    } else {
      var d := Apply(c, w);
      WriteKeepsTables(c, w);
      match w
      case SaveRoute(id, instance, fields) =>
        var key := SavedRow(c, id, instance, fields).key;
        ReadsVisible(d, key, id);
        assert forall j :: Visible(c, key, j) ==> j == id;
        assert ShownDifferently(c, d, key);
      case DeleteRoute(id, instanceKey) =>
        var key := c.routes[id].key;
        ReadsVisible(c, key, id);
        assert forall j :: !Visible(d, key, j);
        assert ShownDifferently(c, d, key);
      case SaveService(_, _) =>
      case DeleteService(_) =>
    }
  }

  /** Deleting a route through an instance loaded before a rename leaves the lookup of its real key stale. */
  lemma StaleDeleteEscapes() returns (c: Catalog, w: Write)
    ensures WellFormed(c) && Accepted(c, w) && w.DeleteRoute? && !Covers(c, w)
  {
    var key := Key(1, "/b");
    c := Catalog(map[5 := Route(key, None, true)], map[], s => s);
    w := DeleteRoute(5, Key(1, "/a"));
    ValidBasePathShape("/b");
    CoversExactly(c, w);
  }

  /** Saving only the project of an instance loaded before the path was changed moves the row to a key that
      neither the instance nor the row had. */
  lemma StaleSaveEscapes() returns (c: Catalog, w: Write)
    ensures WellFormed(c) && Accepted(c, w) && w.SaveRoute? && !Covers(c, w)
  {
    c := Catalog(map[5 := Route(Key(1, "/b"), None, true)], map[], s => s);
    w := SaveRoute(5, Route(Key(2, "/a"), None, true), Fields(true, false, false, false));
    ValidBasePathShape("/a");
    ValidBasePathShape("/b");
    CoversExactly(c, w);
  }

  // ---- transactions ----

  predicate AllAccepted(c: Catalog, ws: seq<Write>)
    decreases |ws|
  {
    ws == [] || (Accepted(c, ws[0]) && AllAccepted(Apply(c, ws[0]), ws[1..]))
  }

  predicate AllFresh(c: Catalog, ws: seq<Write>)
    decreases |ws|
  {
    ws == [] || (Fresh(c, ws[0]) && AllFresh(Apply(c, ws[0]), ws[1..]))
  }

  function ApplyAll(c: Catalog, ws: seq<Write>): Catalog
    decreases |ws|
  {
    if ws == [] then c else ApplyAll(Apply(c, ws[0]), ws[1..])
  }

  /** The invalidations that run once the transaction has committed. */
  function ScheduledAll(c: Catalog, ws: seq<Write>): set<Key>
    decreases |ws|
  {
    if ws == [] then {} else Scheduled(c, ws[0]) + ScheduledAll(Apply(c, ws[0]), ws[1..])
  }

  lemma {:induction false} TransactionKeepsTables(c: Catalog, ws: seq<Write>)
    requires WellFormed(c) && AllAccepted(c, ws)
    ensures WellFormed(ApplyAll(c, ws)) && ApplyAll(c, ws).fold == c.fold
    decreases |ws|
  {
    if ws != [] {
      hide WellFormed, Accepted, Apply;
      WriteKeepsTables(c, ws[0]);
      TransactionKeepsTables(Apply(c, ws[0]), ws[1..]);
    }
  }

  /** Whatever lookup a committed transaction of fresh writes changes, spelt like the row it finds before or
      after, it has scheduled. */
  lemma {:induction false} TransactionCovers(c: Catalog, ws: seq<Write>)
    requires WellFormed(c) && AllAccepted(c, ws) && AllFresh(c, ws)
    ensures forall key :: ShownDifferently(c, ApplyAll(c, ws), key) ==> key in ScheduledAll(c, ws)
    decreases |ws|
  {
    if ws != [] {
      hide WellFormed, Accepted, Fresh, Apply, Scheduled, ReadRoute;
      WriteKeepsTables(c, ws[0]);
      FreshCovers(c, ws[0]);
      TransactionCovers(Apply(c, ws[0]), ws[1..]);
    }
  }
}
