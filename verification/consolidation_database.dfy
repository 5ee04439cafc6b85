/** The database as the consolidation writes to it. Writes that would break a uniqueness or foreign-key
    constraint report an integrity error instead of happening; deletions cascade as the schema says. */
module ConsolidationDatabase {
  import opened PyStrings
  import opened Authorization
  import opened Consolidation

  /** RoutePermission.objects.filter(route_id__in=rows). */
  function GrantIds(grants: map<nat, Grant>, rows: set<nat>): set<nat> {
    set g <- grants | grants[g].route in rows
  }

  function Repointed(logs: map<nat, Option<nat>>, ids: set<nat>, to: Option<nat>): map<nat, Option<nat>> {
    map l <- logs :: if logs[l].Some? && logs[l].value in ids then to else logs[l]
  }

  function MethodsOutside(methods: map<MethodKey, Policy>, ids: set<nat>): map<MethodKey, Policy> {
    map k <- methods | k.route !in ids :: methods[k]
  }

  function GrantsOutside(grants: map<nat, Grant>, ids: set<nat>): map<nat, Grant> {
    map g <- grants | grants[g].route !in ids :: grants[g]
  }

  class Database {
    var routes: map<nat, Route>
    var methods: map<MethodKey, Policy>
    var grants: map<nat, Grant>
    var logs: map<nat, Option<nat>>

    function Tables(): State
      reads this
    {
      State(routes, methods, grants, logs)
    }

    method CreateRouteMethod(key: MethodKey, policy: Policy) returns (ok: bool)
      modifies this`methods
      ensures ok <==> key.route in routes && key !in old(methods)
      ensures methods == if ok then old(methods)[key := policy] else old(methods)
    {
      ok := key.route in routes && key !in methods;
      if ok { methods := methods[key := policy]; }
    }

    method SetActive(id: nat, active: bool)
      modifies this`routes
      ensures routes == if id in old(routes) then old(routes)[id := old(routes)[id].(active := active)] else old(routes)
    {
      if id in routes { routes := routes[id := routes[id].(active := active)]; }
    }

    method RepointLogs(ids: set<nat>, to: nat)
      modifies this`logs
      ensures logs == Repointed(old(logs), ids, Some(to))
    {
      logs := Repointed(logs, ids, Some(to));
    }

    method DeleteGrant(id: nat)
      modifies this`grants
      ensures grants == old(grants) - {id}
    {
      grants := grants - {id};
    }

    method SaveGrant(id: nat, route: nat, active: bool) returns (ok: bool)
      requires id in grants
      modifies this`grants
      ensures ok <==> route in routes && forall g <- old(grants) ::
                        old(grants)[g].app == old(grants)[id].app && old(grants)[g].route == route ==> g == id
      ensures grants == if ok then old(grants)[id := Grant(old(grants)[id].app, route, active)] else old(grants)
    {
      ok := route in routes && forall g <- grants ::
              grants[g].app == grants[id].app && grants[g].route == route ==> g == id;
      if ok { grants := grants[id := Grant(grants[id].app, route, active)]; }
    }

    /** Method policies and grants go with their route; request logs lose their reference. */
    method DeleteRoutes(ids: set<nat>)
      modifies this
      ensures routes == old(routes) - ids
      ensures methods == MethodsOutside(old(methods), ids)
      ensures grants == GrantsOutside(old(grants), ids)
      ensures logs == Repointed(old(logs), ids, None)
    {
      routes, methods, grants, logs :=
        routes - ids, MethodsOutside(methods, ids), GrantsOutside(grants, ids), Repointed(logs, ids, None);
    }
  }

  // ---- merging the grants of one application ----

  /** One row `selected` of `entries` is left, on the surviving route; it is that route's own if any. */
  ghost predicate MergedOne(was: map<nat, Grant>, now: map<nat, Grant>, entries: set<nat>, survivor: nat,
                            selected: nat) {
    && entries <= was.Keys && selected in entries
    && now.Keys == was.Keys - (entries - {selected})
    && now[selected] == Grant(was[selected].app, survivor, exists g <- entries :: was[g].active)
    && (forall g <- now :: g != selected ==> now[g] == was[g])
    && ((exists g <- entries :: was[g].route == survivor) ==> was[selected].route == survivor)
  }

  method MergeApplication(db: Database, entries: seq<nat>, survivor: nat) returns (ok: bool, selected: nat)
    requires entries != [] && forall g <- entries :: g in db.grants
    requires survivor in db.routes
    requires forall g <- db.grants ::
        db.grants[g].app == db.grants[entries[0]].app && db.grants[g].route == survivor ==> g in entries
    requires forall g <- entries :: db.grants[g].app == db.grants[entries[0]].app
    modifies db`grants
    ensures ok && MergedOne(old(db.grants), db.grants, Elements(entries), survivor, selected)
  {
    ghost var was := db.grants;
    selected := SelectEntry(db, entries, survivor);
    var shouldBeActive := exists g <- entries :: db.grants[g].active;
    var app, route, active := db.grants[selected].app, db.grants[selected].route, db.grants[selected].active;
    for n := 0 to |entries|
      invariant db.grants == was - (Elements(entries[..n]) - {selected})
    {
      assert entries[..n + 1] == entries[..n] + [entries[n]];
      assert Elements(entries[..n + 1]) == Elements(entries[..n]) + {entries[n]};
      if entries[n] != selected {
        db.DeleteGrant(entries[n]);
      }
    }
    assert entries[..|entries|] == entries;
    ok := true;
    if route != survivor || active != shouldBeActive {
      ok := db.SaveGrant(selected, survivor, shouldBeActive);
    }
  }

  method SelectEntry(db: Database, entries: seq<nat>, survivor: nat) returns (selected: nat)
    requires entries != [] && forall g <- entries :: g in db.grants
    ensures selected in entries
    ensures (exists g <- entries :: db.grants[g].route == survivor) ==> db.grants[selected].route == survivor
  {
    for n := 0 to |entries|
      invariant forall k :: 0 <= k < n ==> db.grants[entries[k]].route != survivor
    {
      if db.grants[entries[n]].route == survivor { return entries[n]; }
    }
    selected := entries[0];
  }

  // ---- merging the grants of a whole group ----

  /** The grants of the applications `apps` on the routes `rows` have been merged, all others kept. */
  ghost predicate Merged(was: map<nat, Grant>, now: map<nat, Grant>, rows: set<nat>, survivor: nat, apps: set<nat>) {
    && MergedRows(was, now, rows, survivor, apps)
    && MergedKept(was, now, rows, survivor, apps)
    && MergedHeirs(was, now, rows)
    && MergedUnique(was, now, rows, apps)
  }

  ghost predicate MergedRows(was: map<nat, Grant>, now: map<nat, Grant>, rows: set<nat>, survivor: nat,
                             apps: set<nat>) {
    forall g <- now :: g in was && now[g] ==
      if was[g].app in apps && was[g].route in rows then Grant(was[g].app, survivor, AnyActive(was, was[g].app, rows))
      else was[g]
  }

  ghost predicate MergedKept(was: map<nat, Grant>, now: map<nat, Grant>, rows: set<nat>, survivor: nat,
                             apps: set<nat>) {
    forall g <- was :: !(was[g].app in apps && was[g].route in rows) || was[g].route == survivor ==> g in now
  }

  ghost predicate MergedHeirs(was: map<nat, Grant>, now: map<nat, Grant>, rows: set<nat>) {
    forall g {:trigger HasHeir(was, now, rows, g)} :: g in was && was[g].route in rows ==> HasHeir(was, now, rows, g)
  }

  ghost predicate MergedUnique(was: map<nat, Grant>, now: map<nat, Grant>, rows: set<nat>, apps: set<nat>) {
    forall g <- now, h <- now ::
      (g in was && h in was && was[g].app == was[h].app && was[g].app in apps && was[g].route in rows
        && was[h].route in rows)
      ==> g == h
  }

  ghost predicate HasHeir(was: map<nat, Grant>, now: map<nat, Grant>, rows: set<nat>, g: nat)
    requires g in was
  {
    exists h <- now :: h in was && was[h].app == was[g].app && was[h].route in rows
  }

  /** The entries of application `app` among the grants on `rows`. */
  ghost predicate EntriesOf(grants: map<nat, Grant>, rows: set<nat>, app: nat, entries: set<nat>) {
    forall g :: g in entries <==> g in grants && grants[g].app == app && grants[g].route in rows
  }

  lemma MergedStep(was: map<nat, Grant>, mid: map<nat, Grant>, now: map<nat, Grant>, rows: set<nat>, survivor: nat,
                   apps: set<nat>, app: nat, entries: set<nat>, selected: nat)
    requires Merged(was, mid, rows, survivor, apps) && app !in apps && survivor in rows && UniqueGrants(was)
    requires EntriesOf(was, rows, app, entries)
    requires MergedOne(mid, now, entries, survivor, selected)
    ensures Merged(was, now, rows, survivor, apps + {app})
  {
    hide Merged, MergedOne, EntriesOf, MergedRows, MergedKept, MergedHeirs, MergedUnique, UniqueGrants;
    StepRows(was, mid, now, rows, survivor, apps, app, entries, selected);
    StepKept(was, mid, now, rows, survivor, apps, app, entries, selected);
    StepHeirs(was, mid, now, rows, survivor, apps, app, entries, selected);
    StepUnique(was, mid, now, rows, survivor, apps, app, entries, selected);
    MergedIntro(was, now, rows, survivor, apps + {app});
  }

  lemma MergedIntro(was: map<nat, Grant>, now: map<nat, Grant>, rows: set<nat>, survivor: nat, apps: set<nat>)
    requires MergedRows(was, now, rows, survivor, apps) && MergedKept(was, now, rows, survivor, apps)
    requires MergedHeirs(was, now, rows) && MergedUnique(was, now, rows, apps)
    ensures Merged(was, now, rows, survivor, apps)
  {
  }

  lemma StepRows(was: map<nat, Grant>, mid: map<nat, Grant>, now: map<nat, Grant>, rows: set<nat>, survivor: nat,
                   apps: set<nat>, app: nat, entries: set<nat>, selected: nat)
    requires Merged(was, mid, rows, survivor, apps) && app !in apps && survivor in rows && UniqueGrants(was)
    requires EntriesOf(was, rows, app, entries)
    requires MergedOne(mid, now, entries, survivor, selected)
    ensures MergedRows(was, now, rows, survivor, apps + {app})
  {
    hide MergedKept, MergedHeirs, MergedUnique, UniqueGrants;
    assert forall g <- entries :: mid[g] == was[g];
    assert (exists g <- entries :: mid[g].active) <==> AnyActive(was, app, rows);
  }

  lemma StepKept(was: map<nat, Grant>, mid: map<nat, Grant>, now: map<nat, Grant>, rows: set<nat>, survivor: nat,
                   apps: set<nat>, app: nat, entries: set<nat>, selected: nat)
    requires Merged(was, mid, rows, survivor, apps) && app !in apps && survivor in rows && UniqueGrants(was)
    requires EntriesOf(was, rows, app, entries)
    requires MergedOne(mid, now, entries, survivor, selected)
    ensures MergedKept(was, now, rows, survivor, apps + {app})
  {
    hide MergedHeirs, MergedUnique;
    assert forall g <- entries :: mid[g] == was[g];
  }

  lemma StepHeirs(was: map<nat, Grant>, mid: map<nat, Grant>, now: map<nat, Grant>, rows: set<nat>, survivor: nat,
                   apps: set<nat>, app: nat, entries: set<nat>, selected: nat)
    requires Merged(was, mid, rows, survivor, apps) && app !in apps && survivor in rows && UniqueGrants(was)
    requires EntriesOf(was, rows, app, entries)
    requires MergedOne(mid, now, entries, survivor, selected)
    ensures MergedHeirs(was, now, rows)
  {
    hide MergedRows, MergedUnique, UniqueGrants, MergedKept;
    forall g | g in was && was[g].route in rows
      ensures HasHeir(was, now, rows, g)
    {
      if was[g].app == app {
        assert selected in now;
      } else {
        assert HasHeir(was, mid, rows, g);
        var h :| h in mid && h in was && was[h].app == was[g].app && was[h].route in rows;
        assert h in now;
      }
    }
  }

  lemma StepUnique(was: map<nat, Grant>, mid: map<nat, Grant>, now: map<nat, Grant>, rows: set<nat>, survivor: nat,
                   apps: set<nat>, app: nat, entries: set<nat>, selected: nat)
    requires Merged(was, mid, rows, survivor, apps) && app !in apps && survivor in rows && UniqueGrants(was)
    requires EntriesOf(was, rows, app, entries)
    requires MergedOne(mid, now, entries, survivor, selected)
    ensures MergedUnique(was, now, rows, apps + {app})
  {
    hide MergedRows, MergedHeirs, MergedKept, UniqueGrants;
  }
}
