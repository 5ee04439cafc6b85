/** The rewriting pass over one validated group. */
module ConsolidationRewrite {
  import opened PyStrings
  import opened Authorization
  import opened Consolidation
  import opened ConsolidationDatabase

  // ---- grants ----

  function Applicants(grants: map<nat, Grant>, rows: set<nat>): set<nat> {
    set g <- grants | grants[g].route in rows :: grants[g].app
  }

  /** `byApp` lists the grants `ids` by application. */
  ghost predicate ByApplication(grants: map<nat, Grant>, ids: set<nat>, byApp: map<nat, seq<nat>>)
    requires ids <= grants.Keys
  {
    && (forall app <- byApp :: byApp[app] != [])
    && (forall app, g :: app in byApp && g in byApp[app] ==> g in ids && grants[g].app == app)
    && (forall g <- ids :: grants[g].app in byApp && g in byApp[grants[g].app])
  }

  lemma ByApplicationStep(grants: map<nat, Grant>, ids: set<nat>, byApp: map<nat, seq<nat>>, g: nat)
    requires ids <= grants.Keys && g in grants && ByApplication(grants, ids, byApp)
    ensures var app := grants[g].app;
            ByApplication(grants, ids + {g}, byApp[app := (if app in byApp then byApp[app] else []) + [g]])
  {
  }

  method GroupGrants(db: Database, rows: set<nat>) returns (byApp: map<nat, seq<nat>>)
    ensures ByApplication(db.grants, GrantIds(db.grants, rows), byApp)
  {
    byApp := map[];
    var ids := GrantIds(db.grants, rows);
    var todo := ids;
    while todo != {}
      invariant todo <= ids
      invariant ByApplication(db.grants, ids - todo, byApp)
    {
      var g :| g in todo;
      var app := db.grants[g].app;
      ByApplicationStep(db.grants, ids - todo, byApp, g);
      byApp := byApp[app := (if app in byApp then byApp[app] else []) + [g]];
      assert ids - (todo - {g}) == ids - todo + {g};
      todo := todo - {g};
    }
    assert ids - todo == ids;
  }

  /** Before its turn, an application's entries are untouched and include its grant on the survivor. */
  lemma EntriesReady(was: map<nat, Grant>, mid: map<nat, Grant>, rows: set<nat>, survivor: nat, apps: set<nat>,
                     byApp: map<nat, seq<nat>>, app: nat)
    requires ByApplication(was, GrantIds(was, rows), byApp) && app in byApp
    requires MergedRows(was, mid, rows, survivor, apps) && MergedKept(was, mid, rows, survivor, apps)
    requires app !in apps && survivor in rows
    ensures forall g <- byApp[app] :: g in mid && mid[g] == was[g] && mid[g].app == app
    ensures forall g <- mid :: mid[g].app == app && mid[g].route == survivor ==> g in byApp[app]
    ensures EntriesOf(was, rows, app, Elements(byApp[app]))
  {
    hide AnyActive;
    forall g | g in byApp[app] ensures g in mid && mid[g] == was[g] && mid[g].app == app {
      assert g in GrantIds(was, rows) && was[g].app == app;
    }
    forall g | g in mid && mid[g].app == app && mid[g].route == survivor ensures g in byApp[app] {
      assert g in GrantIds(was, rows) && was[g].app == app;
    }
  }

  method MergeGrants(db: Database, rows: set<nat>, survivor: nat) returns (ok: bool)
    requires survivor in rows && survivor in db.routes && UniqueGrants(db.grants)
    modifies db`grants
    ensures ok && Merged(old(db.grants), db.grants, rows, survivor, Applicants(old(db.grants), rows))
  {
    hide MergedOne, EntriesOf, UniqueGrants, MergedHeirs, MergedUnique, MergedRows, MergedKept;
    ghost var was := db.grants;
    var byApp := GroupGrants(db, rows);
    var todo := byApp.Keys;
    assert byApp.Keys == Applicants(was, rows) by { AllApplicants(was, rows, byApp); }
    NothingMerged(was, rows, survivor);
    assert byApp.Keys - todo == {};
    ok := true;
    while todo != {}
      invariant ok && todo <= byApp.Keys
      invariant Merged(was, db.grants, rows, survivor, byApp.Keys - todo)
    {
      var app :| app in todo;
      EntriesReady(was, db.grants, rows, survivor, byApp.Keys - todo, byApp, app);
      ghost var mid := db.grants;
      assert byApp[app][0] in byApp[app];
      var done, selected := MergeApplication(db, byApp[app], survivor);
      if !done { return false; }
      MergedStep(was, mid, db.grants, rows, survivor, byApp.Keys - todo, app, Elements(byApp[app]), selected);
      assert byApp.Keys - (todo - {app}) == byApp.Keys - todo + {app};
      todo := todo - {app};
    }
    assert byApp.Keys - todo == byApp.Keys;
  }

  lemma AllApplicants(was: map<nat, Grant>, rows: set<nat>, byApp: map<nat, seq<nat>>)
    requires ByApplication(was, GrantIds(was, rows), byApp)
    ensures byApp.Keys == Applicants(was, rows)
  {
    forall app | app in byApp ensures app in Applicants(was, rows) {
      var g := byApp[app][0];
      assert g in byApp[app];
      assert g in GrantIds(was, rows) && was[g].app == app;
    }
  }

  lemma NothingMerged(was: map<nat, Grant>, rows: set<nat>, survivor: nat)
    ensures Merged(was, was, rows, survivor, {})
  {
    forall g | g in was && was[g].route in rows ensures HasHeir(was, was, rows, g) { }
  }

  /** A group of one row needs no merging. */
  lemma SingleMerged(was: map<nat, Grant>, survivor: nat)
    requires UniqueGrants(was)
    ensures Merged(was, was, {survivor}, survivor, Applicants(was, {survivor}))
  {
    NothingMerged(was, {survivor}, survivor);
  }

  // ---- method policies ----

  /** A policy row on the survivor for each enabled row among `rows`, besides what there was. */
  ghost predicate MethodsAdded(routes: map<nat, Route>, was: map<MethodKey, Policy>, now: map<MethodKey, Policy>,
                               rows: set<nat>, survivor: nat) {
    && (forall k <- was :: k in now && now[k] == was[k])
    && (forall i <- rows :: i in routes && routes[i].active ==>
          MethodKey(survivor, routes[i].verb) in now && now[MethodKey(survivor, routes[i].verb)] == routes[i].policy)
    && (forall k <- now :: k in was ||
          exists i <- rows :: i in routes && routes[i].active && k == MethodKey(survivor, routes[i].verb))
  }

  lemma MethodsAddedStep(routes: map<nat, Route>, was: map<MethodKey, Policy>, mid: map<MethodKey, Policy>,
                         rows: set<nat>, survivor: nat, i: nat)
    requires MethodsAdded(routes, was, mid, rows, survivor) && i in routes && i !in rows
    requires routes[i].active ==> forall k <- was :: k.route != survivor
    requires forall j <- rows :: j in routes && routes[j].active ==> routes[j].verb != routes[i].verb
    ensures routes[i].active ==> MethodKey(survivor, routes[i].verb) !in mid
    ensures MethodsAdded(routes, was,
              if routes[i].active then mid[MethodKey(survivor, routes[i].verb) := routes[i].policy] else mid,
              rows + {i}, survivor)
  {
    var k := MethodKey(survivor, routes[i].verb);
    if routes[i].active {
      assert k !in mid;
      var now := mid[k := routes[i].policy];
      forall l | l in now ensures l in was || exists j <- rows + {i} ::
        j in routes && routes[j].active && l == MethodKey(survivor, routes[j].verb) {
        if l != k && l !in was {
          var j :| j in rows && j in routes && routes[j].active && l == MethodKey(survivor, routes[j].verb);
          assert j in rows + {i};
        } else if l == k {
          assert i in rows + {i};
        }
      }
    } else {
      forall l | l in mid ensures l in was || exists j <- rows + {i} ::
        j in routes && routes[j].active && l == MethodKey(survivor, routes[j].verb) {
        if l !in was {
          var j :| j in rows && j in routes && routes[j].active && l == MethodKey(survivor, routes[j].verb);
          assert j in rows + {i};
        }
      }
    }
  }

  method CreateMethods(db: Database, rows: seq<nat>, survivor: nat, ghost key: Key) returns (ok: bool)
    requires UniqueRoutes(db.routes) && forall n :: 0 <= n < |rows| ==>
        rows[n] in db.routes && db.routes[rows[n]].key == key
    requires forall m, n :: 0 <= m < n < |rows| ==> rows[m] < rows[n]
    requires survivor in db.routes && forall k <- db.methods :: k.route != survivor
    modifies db`methods
    ensures ok && MethodsAdded(db.routes, old(db.methods), db.methods, Elements(rows), survivor)
  {
    hide MethodsAdded;
    ghost var was := db.methods;
    ghost var added: set<nat> := {};
    NoMethodsAdded(db.routes, was, survivor);
    ok := true;
    for n := 0 to |rows|
      invariant ok && forall i :: i in added <==> i in rows[..n]
      invariant MethodsAdded(db.routes, was, db.methods, added, survivor)
    {
      var i := rows[n];
      var original := db.routes[i];
      assert i !in added;
      MethodsAddedStep(db.routes, was, db.methods, added, survivor, i);
      if original.active {
        var created := db.CreateRouteMethod(MethodKey(survivor, original.verb), original.policy);
        if !created { return false; }
      }
      added := added + {i};
      assert rows[..n + 1] == rows[..n] + [i];
    }
    assert rows[..|rows|] == rows;
    assert added == Elements(rows);
  }

  lemma NoMethodsAdded(routes: map<nat, Route>, was: map<MethodKey, Policy>, survivor: nat)
    ensures MethodsAdded(routes, was, was, {}, survivor)
  {
  }

  // ---- one group ----

  /** `survivor` leads the group `rows` of `key`. */
  ghost predicate Leads(routes: map<nat, Route>, key: Key, rows: set<nat>, survivor: nat) {
    && rows == Members(routes, key) && survivor in rows && Home(routes, survivor) == survivor
  }

  lemma HomeIn(routes: map<nat, Route>, key: Key, rows: set<nat>, survivor: nat, i: nat)
    requires Leads(routes, key, rows, survivor) && i in routes
    ensures Home(routes, i) in routes && routes[Home(routes, i)].key == routes[i].key
    ensures i in rows <==> routes[i].key == key
    ensures i in rows ==> Home(routes, i) == survivor
  {
    assert Home(routes, i) in Members(routes, routes[i].key);
  }

  lemma RoutesStep(was: map<nat, Route>, mid: map<nat, Route>, now: map<nat, Route>, done: set<Key>, key: Key,
                   rows: set<nat>, survivor: nat)
    requires RoutesDone(was, mid, done) && key !in done && Leads(was, key, rows, survivor) && survivor in mid
    requires now == mid[survivor := mid[survivor].(active := Enabled(was, key))] - (rows - {survivor})
    ensures RoutesDone(was, now, done + {key})
  {
    hide Home, Enabled;
    forall i | i in was ensures i in rows ==> Home(was, i) == survivor {
      HomeIn(was, key, rows, survivor, i);
    }
  }

  lemma MethodsStep(routes: map<nat, Route>, mid: map<MethodKey, Policy>, now: map<MethodKey, Policy>, done: set<Key>,
                    key: Key, rows: set<nat>, survivor: nat)
    requires MethodsDone(routes, mid, done) && Leads(routes, key, rows, survivor)
    requires MethodsAdded(routes, mid, now, rows, survivor)
    ensures MethodsDone(routes, now, done + {key})
  {
    hide Home;
    forall i | i in routes ensures i in rows <==> routes[i].key == key {
      HomeIn(routes, key, rows, survivor, i);
    }
    forall i | i in rows ensures Home(routes, i) == survivor {
      HomeIn(routes, key, rows, survivor, i);
    }
  }

  /** Policies created so far belong to the survivors of finished groups. */
  lemma MethodsElsewhere(routes: map<nat, Route>, mid: map<MethodKey, Policy>, done: set<Key>, key: Key,
                         rows: set<nat>, survivor: nat)
    requires MethodsDone(routes, mid, done) && key !in done && Leads(routes, key, rows, survivor)
    ensures forall k <- mid :: k.route !in rows
  {
    hide Home;
    forall k | k in mid ensures k.route !in rows {
      var i :| i in routes && routes[i].key in done && routes[i].active
        && k == MethodKey(Home(routes, i), routes[i].verb);
      HomeIn(routes, key, rows, survivor, i);
    }
  }

  lemma LogsStep(routes: map<nat, Route>, was: map<nat, Option<nat>>, mid: map<nat, Option<nat>>, done: set<Key>,
                 key: Key, rows: set<nat>, survivor: nat)
    requires forall l <- was :: was[l].Some? ==> was[l].value in routes
    requires LogsDone(routes, was, mid, done) && key !in done && Leads(routes, key, rows, survivor)
    ensures LogsDone(routes, was, Repointed(mid, rows - {survivor}, Some(survivor)), done + {key})
  {
    hide Home;
    forall l | l in was && was[l].Some?
      ensures var home := Home(routes, was[l].value);
              && home in routes && routes[home].key == routes[was[l].value].key
              && (was[l].value in rows <==> routes[was[l].value].key == key)
              && (was[l].value in rows ==> home == survivor)
    {
      HomeIn(routes, key, rows, survivor, was[l].value);
    }
  }

  lemma AnyActiveSame(was: map<nat, Grant>, mid: map<nat, Grant>, rows: set<nat>, app: nat)
    requires forall g <- mid :: g in was && (mid[g].route in rows || was[g].route in rows ==> mid[g] == was[g])
    requires forall g <- was :: was[g].route in rows ==> g in mid
    ensures AnyActive(mid, app, rows) <==> AnyActive(was, app, rows)
  {
  }

  /** Grants on the routes of an unfinished group are still as they were. */
  lemma GrantsUntouched(routes: map<nat, Route>, was: map<nat, Grant>, mid: map<nat, Grant>, done: set<Key>, key: Key,
                        rows: set<nat>, survivor: nat)
    requires forall g <- was :: was[g].route in routes
    requires GrantsDone(routes, was, mid, done) && key !in done && Leads(routes, key, rows, survivor)
    ensures forall g <- mid :: g in was && mid[g].route in routes
              && (mid[g].route in rows <==> was[g].route in rows) && (was[g].route in rows ==> mid[g] == was[g])
              && mid[g].app == was[g].app
    ensures forall g <- was :: was[g].route in rows ==> g in mid
    ensures forall app :: AnyActive(mid, app, rows) <==> AnyActive(was, app, rows)
  {
    hide Home, AnyActive, ClaimSurvives, SameClaim;
    forall g | g in mid
      ensures g in was && mid[g].route in routes && (mid[g].route in rows <==> was[g].route in rows)
              && (was[g].route in rows ==> mid[g] == was[g]) && mid[g].app == was[g].app
    {
      assert mid[g] == Regrant(routes, was, g, done);
      HomeIn(routes, key, rows, survivor, was[g].route);
      HomeIn(routes, key, rows, survivor, mid[g].route);
    }
    forall app ensures AnyActive(mid, app, rows) <==> AnyActive(was, app, rows) {
      AnyActiveSame(was, mid, rows, app);
    }
  }

  lemma UniqueMeanwhile(routes: map<nat, Route>, was: map<nat, Grant>, mid: map<nat, Grant>, done: set<Key>)
    requires forall g <- was :: was[g].route in routes
    requires GrantsDone(routes, was, mid, done) && UniqueGrants(was)
    ensures UniqueGrants(mid)
  {
    hide Home, AnyActive, ClaimsKept, GrantsKept;
    forall g, h | g in mid && h in mid && mid[g].app == mid[h].app && mid[g].route == mid[h].route ensures g == h {
      SameHome(routes, was[g].route);
      SameHome(routes, was[h].route);
      assert mid[g] == Regrant(routes, was, g, done) && mid[h] == Regrant(routes, was, h, done);
    }
  }

  lemma SameHome(routes: map<nat, Route>, i: nat)
    requires i in routes
    ensures Home(routes, i) in routes && routes[Home(routes, i)].key == routes[i].key
  {
    assert Home(routes, i) in Members(routes, routes[i].key);
  }

  lemma RowsStep(routes: map<nat, Route>, was: map<nat, Grant>, mid: map<nat, Grant>, now: map<nat, Grant>,
                 done: set<Key>, key: Key, rows: set<nat>, survivor: nat)
    requires forall g <- was :: was[g].route in routes
    requires GrantsDone(routes, was, mid, done) && key !in done && Leads(routes, key, rows, survivor)
    requires Merged(mid, now, rows, survivor, Applicants(mid, rows))
    ensures GrantRows(routes, was, now, done + {key})
    ensures GrantsKept(routes, was, now, done + {key})
  {
    hide Home, AnyActive, ClaimsKept, OneGrantPerClaim, MergedHeirs, MergedUnique;
    GrantsUntouched(routes, was, mid, done, key, rows, survivor);
    forall g | g in was ensures was[g].route in rows <==> routes[was[g].route].key == key
                        ensures was[g].route in rows ==> Home(routes, was[g].route) == survivor {
      HomeIn(routes, key, rows, survivor, was[g].route);
    }
  }

  lemma ClaimsStep(routes: map<nat, Route>, was: map<nat, Grant>, mid: map<nat, Grant>, now: map<nat, Grant>,
                   done: set<Key>, key: Key, rows: set<nat>, survivor: nat)
    requires forall g <- was :: was[g].route in routes
    requires GrantsDone(routes, was, mid, done) && key !in done && Leads(routes, key, rows, survivor)
    requires Merged(mid, now, rows, survivor, Applicants(mid, rows))
    ensures ClaimsKept(routes, was, now)
  {
    hide Home, AnyActive, OneGrantPerClaim, GrantRows, GrantsKept, MergedUnique, MergedRows, Applicants;
    GrantsUntouched(routes, was, mid, done, key, rows, survivor);
    forall g | g in was ensures ClaimSurvives(routes, was, now, g) {
      HomeIn(routes, key, rows, survivor, was[g].route);
      if was[g].route in rows {
        assert HasHeir(mid, now, rows, g);
        var h :| h in now && h in mid && mid[h].app == mid[g].app && mid[h].route in rows;
        HomeIn(routes, key, rows, survivor, was[h].route);
        assert SameClaim(routes, was, g, h);
      } else {
        assert ClaimSurvives(routes, was, mid, g);
        var h :| h in mid && h in was && SameClaim(routes, was, g, h);
        HomeIn(routes, key, rows, survivor, was[h].route);
        assert h in now;
      }
    }
  }

  lemma UniqueStep(routes: map<nat, Route>, was: map<nat, Grant>, mid: map<nat, Grant>, now: map<nat, Grant>,
                   done: set<Key>, key: Key, rows: set<nat>, survivor: nat)
    requires forall g <- was :: was[g].route in routes
    requires GrantsDone(routes, was, mid, done) && key !in done && Leads(routes, key, rows, survivor)
    requires Merged(mid, now, rows, survivor, Applicants(mid, rows))
    ensures OneGrantPerClaim(routes, was, now, done + {key})
  {
    hide Home, AnyActive, GrantRows, GrantsKept, ClaimsKept, MergedHeirs, MergedKept;
    GrantsUntouched(routes, was, mid, done, key, rows, survivor);
    forall g | g in was ensures was[g].route in rows <==> routes[was[g].route].key == key {
      HomeIn(routes, key, rows, survivor, was[g].route);
    }
  }

  /** After the merge no grant names a duplicate. */
  lemma NoDuplicateGrants(mid: map<nat, Grant>, now: map<nat, Grant>, rows: set<nat>, survivor: nat)
    requires MergedRows(mid, now, rows, survivor, Applicants(mid, rows))
    ensures GrantsOutside(now, rows - {survivor}) == now
  {
    hide AnyActive;
  }

  lemma MethodsUncascaded(routes: map<nat, Route>, mid: map<MethodKey, Policy>, now: map<MethodKey, Policy>,
                          rows: set<nat>, survivor: nat)
    requires forall k <- mid :: k.route !in rows
    requires MethodsAdded(routes, mid, now, rows, survivor)
    ensures MethodsOutside(now, rows - {survivor}) == now
  {
  }

  lemma LogsUncascaded(logs: map<nat, Option<nat>>, rows: set<nat>, survivor: nat)
    ensures var moved := Repointed(logs, rows - {survivor}, Some(survivor));
            Repointed(moved, rows - {survivor}, None) == moved
  {
  }

  /** What a group finds when its turn comes: its rows as they were and nothing of its own elsewhere. */
  lemma GroupUntouched(was: State, mid: State, done: set<Key>, key: Key, rows: set<nat>, survivor: nat)
    requires WellFormed(was) && Progress(was, mid, done) && key !in done && Leads(was.routes, key, rows, survivor)
    ensures forall i <- rows ::
        i in was.routes && i in mid.routes && mid.routes[i] == was.routes[i] && was.routes[i].key == key
    ensures UniqueRoutes(mid.routes) && UniqueGrants(mid.grants)
    ensures forall k <- mid.methods :: k.route !in rows
    ensures Enabled(was.routes, key) <==> exists i <- rows :: i in was.routes && was.routes[i].active
  {
    hide Home, MethodsDone, LogsDone, GrantsDone;
    MethodsElsewhere(was.routes, mid.methods, done, key, rows, survivor);
    UniqueMeanwhile(was.routes, was.grants, mid.grants, done);
  }

  lemma MethodsAddedSame(routes: map<nat, Route>, other: map<nat, Route>, was: map<MethodKey, Policy>,
                         now: map<MethodKey, Policy>, rows: set<nat>, survivor: nat)
    requires MethodsAdded(routes, was, now, rows, survivor)
    requires forall i <- rows :: i in routes && i in other && routes[i] == other[i]
    ensures MethodsAdded(other, was, now, rows, survivor)
  {
    forall k | k in now ensures k in was || exists i <- rows ::
      i in other && other[i].active && k == MethodKey(survivor, other[i].verb) {
      if k !in was {
        var i :| i in rows && i in routes && routes[i].active && k == MethodKey(survivor, routes[i].verb);
        assert i in other;
      }
    }
  }

  /** The four tables after one group, in terms of the tables before it. */
  ghost predicate GroupRewritten(was: State, mid: State, now: State, key: Key, rows: set<nat>, survivor: nat) {
    && survivor in mid.routes
    && now.routes ==
       mid.routes[survivor := mid.routes[survivor].(active := Enabled(was.routes, key))] - (rows - {survivor})
    && MethodsAdded(was.routes, mid.methods, now.methods, rows, survivor)
    && now.logs == Repointed(mid.logs, rows - {survivor}, Some(survivor))
    && Merged(mid.grants, now.grants, rows, survivor, Applicants(mid.grants, rows))
  }

  lemma GroupStep(was: State, mid: State, now: State, done: set<Key>, key: Key, rows: set<nat>, survivor: nat)
    requires WellFormed(was) && Progress(was, mid, done) && key !in done && Leads(was.routes, key, rows, survivor)
    requires GroupRewritten(was, mid, now, key, rows, survivor)
    ensures Progress(was, now, done + {key})
  {
    hide RoutesDone, MethodsDone, LogsDone, Leads, MethodsAdded, Merged, Enabled, Repointed,
         GrantRows, GrantsKept, ClaimsKept, OneGrantPerClaim, Applicants;
    RoutesStep(was.routes, mid.routes, now.routes, done, key, rows, survivor);
    MethodsStep(was.routes, mid.methods, now.methods, done, key, rows, survivor);
    LogsStep(was.routes, was.logs, mid.logs, done, key, rows, survivor);
    RowsStep(was.routes, was.grants, mid.grants, now.grants, done, key, rows, survivor);
    ClaimsStep(was.routes, was.grants, mid.grants, now.grants, done, key, rows, survivor);
    UniqueStep(was.routes, was.grants, mid.grants, now.grants, done, key, rows, survivor);
  }

  lemma OneRow(rows: seq<nat>)
    requires |rows| == 1
    ensures Elements(rows) == {rows[0]}
  {
  }

  lemma NothingRepointed(logs: map<nat, Option<nat>>, to: nat)
    ensures Repointed(logs, {}, Some(to)) == logs
  {
  }

  /** Rewrites one group: no write fails, and the final deletion takes nothing else with it. */
  method ConsolidateGroup(db: Database, rows: seq<nat>, ghost was: State, ghost done: set<Key>, ghost key: Key)
      returns (ok: bool)
    requires WellFormed(was) && Progress(was, db.Tables(), done) && key !in done
    requires rows != [] && (forall m, n :: 0 <= m < n < |rows| ==> rows[m] < rows[n])
    requires Leads(was.routes, key, Elements(rows), rows[0])
    modifies db
    ensures ok && Progress(was, db.Tables(), done + {key})
  {
    hide Progress, WellFormed, Leads, MethodsAdded, Merged, Applicants, Repointed, UniqueRoutes, UniqueGrants,
         MethodsOutside, GrantsOutside, Enabled;
    var survivor := rows[0];
    var ids := Elements(rows);
    ghost var mid := db.Tables();
    GroupUntouched(was, mid, done, key, ids, survivor);
    ok := CreateMethods(db, rows, survivor, key);
    MethodsAddedSame(mid.routes, was.routes, mid.methods, db.methods, ids, survivor);
    var enabled := exists i <- rows :: i in db.routes && db.routes[i].active;
    assert enabled == Enabled(was.routes, key);
    if db.routes[survivor].active != enabled {
      db.SetActive(survivor, enabled);
    }
    assert db.routes == mid.routes[survivor := mid.routes[survivor].(active := Enabled(was.routes, key))];
    var duplicates := ids - {survivor};
    if |rows| > 1 {
      db.RepointLogs(duplicates, survivor);
      ok := MergeGrants(db, ids, survivor);
      Uncascaded(was.routes, mid, db.Tables(), ids, survivor);
      db.DeleteRoutes(duplicates);
    } else {
      OneRow(rows);
      assert duplicates == {};
      NothingRepointed(mid.logs, survivor);
      SingleMerged(mid.grants, survivor);
      assert db.routes - duplicates == db.routes;
    }
    GroupStep(was, mid, db.Tables(), done, key, ids, survivor);
  }

  lemma Uncascaded(routes: map<nat, Route>, mid: State, now: State, rows: set<nat>, survivor: nat)
    requires forall k <- mid.methods :: k.route !in rows
    requires MethodsAdded(routes, mid.methods, now.methods, rows, survivor)
    requires Merged(mid.grants, now.grants, rows, survivor, Applicants(mid.grants, rows))
    requires now.logs == Repointed(mid.logs, rows - {survivor}, Some(survivor))
    ensures MethodsOutside(now.methods, rows - {survivor}) == now.methods
    ensures GrantsOutside(now.grants, rows - {survivor}) == now.grants
    ensures Repointed(now.logs, rows - {survivor}, None) == now.logs
  {
    hide MethodsAdded, Applicants, Repointed, MethodsOutside, GrantsOutside;
    MethodsUncascaded(routes, mid.methods, now.methods, rows, survivor);
    NoDuplicateGrants(mid.grants, now.grants, rows, survivor);
    LogsUncascaded(mid.logs, rows, survivor);
  }
}
