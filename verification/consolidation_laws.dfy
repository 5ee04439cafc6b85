/** What consolidation accepts and what it leaves behind, row by row
    (apps/routes/migrations/0008_route_methods_and_unique_base_paths.py). */
module ConsolidationLaws {
  import opened PyStrings
  import opened Authorization
  import opened Consolidation
  import opened ConsolidationMeaning
  import opened PermissionLaws

  // ---- what passes ----

  predicate Together(routes: map<nat, Route>, i: nat, j: nat)
    requires i in routes && j in routes
  {
    routes[i].key.project == routes[j].key.project && routes[i].key.path == routes[j].key.path
  }

  /** Rows of one project and path have one target and one service, and whoever holds an active grant on one of the
      enabled ones holds an active grant on each of them. */
  ghost predicate Even(s: State) {
    && (forall i <- s.routes, j <- s.routes :: Together(s.routes, i, j) ==>
          s.routes[i].target == s.routes[j].target && s.routes[i].service == s.routes[j].service)
    && (forall i <- s.routes, j <- s.routes, app: nat ::
          Together(s.routes, i, j) && s.routes[i].active && s.routes[j].active && ActiveRow(s.grants, app, i) ==>
            ActiveRow(s.grants, app, j))
  }

  /** The databases every group of which passes are exactly these. */
  lemma PassesExactly(s: State)
    ensures (forall key :: Consolidable(s, key)) <==> Even(s)
  {
    hide Granted, ActiveRow;
    forall app, i ensures Granted(s.grants, app, i) <==> ActiveRow(s.grants, app, i) { SameGrant(s.grants, app, i); }
    if forall key :: Consolidable(s, key) {
      forall i, j | i in s.routes && j in s.routes && Together(s.routes, i, j)
        ensures s.routes[i].target == s.routes[j].target && s.routes[i].service == s.routes[j].service
        ensures forall app :: s.routes[i].active && s.routes[j].active && ActiveRow(s.grants, app, i) ==>
            ActiveRow(s.grants, app, j)
      {
        assert Consolidable(s, s.routes[i].key) && s.routes[i].key == s.routes[j].key;
        forall app | s.routes[i].active && s.routes[j].active && ActiveRow(s.grants, app, i)
          ensures ActiveRow(s.grants, app, j) {
          assert AllOrNone(s, s.routes[i].key, app);
        }
      }
    }
    if Even(s) {
      forall key ensures Consolidable(s, key) { EvenGroup(s, key); }
    }
  }

  lemma SameGrant(grants: map<nat, Grant>, app: nat, i: nat)
    ensures Granted(grants, app, i) <==> ActiveRow(grants, app, i)
  {
  }

  lemma EvenGroup(s: State, key: Key)
    requires Even(s)
    ensures Consolidable(s, key)
  {
    hide Granted, ActiveRow;
    forall app, i ensures Granted(s.grants, app, i) <==> ActiveRow(s.grants, app, i) { SameGrant(s.grants, app, i); }
    assert forall i, j :: i in s.routes && j in s.routes && s.routes[i].key == key && s.routes[j].key == key ==>
        Together(s.routes, i, j);
  }

  /** The error tells what is wrong: two rows of one path with different targets; else with different services; else
      an application with an active grant on one enabled row and none on another. */
  lemma RaisesExactly(s: State, key: Key)
    ensures Raises(s, key, ConflictingTargets) <==>
            exists i <- s.routes, j <- s.routes ::
              s.routes[i].key == key && s.routes[j].key == key && s.routes[i].target != s.routes[j].target
    ensures Raises(s, key, ConflictingServices) ==>
            exists i <- s.routes, j <- s.routes ::
              s.routes[i].key == key && s.routes[j].key == key && s.routes[i].service != s.routes[j].service
    ensures Raises(s, key, MethodSpecificGrants) ==>
            exists i <- s.routes, j <- s.routes, app: nat ::
              && s.routes[i].key == key && s.routes[j].key == key && s.routes[i].active && s.routes[j].active
              && ActiveRow(s.grants, app, i) && !ActiveRow(s.grants, app, j)
    ensures !Raises(s, key, Done) && !Raises(s, key, IntegrityError)
  {
    hide Granted, ActiveRow;
    forall app, i ensures Granted(s.grants, app, i) <==> ActiveRow(s.grants, app, i) { SameGrant(s.grants, app, i); }
  }

  // ---- who may call what ----

  /** Before: an enabled row of the path and method with the policy, in the project of an active application that
      has no grant row at all or an active one on this row. */
  lemma BeforeExactly(s: State, apps: map<nat, Application>, app: nat, key: Key, verb: string, policy: Policy)
    ensures AllowedBefore(s, apps, app, key, verb, policy) <==>
            && app in apps && apps[app].active && apps[app].project == key.project
            && exists i <- s.routes ::
                 && s.routes[i] == s.routes[i].(key := key, verb := verb, policy := policy, active := true)
                 && (HasRow(s.grants, app) ==> ActiveRow(s.grants, app, i))
  {
    hide HasPermission, HasRow, ActiveRow;
    if app in apps {
      forall i ensures HasPermission(app, apps[app], s.grants, i, key.project) <==>
          apps[app].active && apps[app].project == key.project
            && (HasRow(s.grants, app) ==> ActiveRow(s.grants, app, i))
      {
        PermissionExactly(app, apps[app], s.grants, i, key.project);
      }
    }
  }

  /** After: the same of an enabled row of the path that has a policy row for the method. */
  lemma AfterExactly(s: State, apps: map<nat, Application>, app: nat, key: Key, verb: string, policy: Policy)
    ensures AllowedAfter(s, apps, app, key, verb, policy) <==>
            && app in apps && apps[app].active && apps[app].project == key.project
            && exists i <- s.routes ::
                 && s.routes[i].key == key && s.routes[i].active
                 && MethodKey(i, verb) in s.methods && s.methods[MethodKey(i, verb)] == policy
                 && (HasRow(s.grants, app) ==> ActiveRow(s.grants, app, i))
  {
    hide HasPermission, HasRow, ActiveRow;
    if app in apps {
      forall i ensures HasPermission(app, apps[app], s.grants, i, key.project) <==>
          apps[app].active && apps[app].project == key.project
            && (HasRow(s.grants, app) ==> ActiveRow(s.grants, app, i))
      {
        PermissionExactly(app, apps[app], s.grants, i, key.project);
      }
    }
  }

  /** An active application without any grant row may call every enabled row of its project before, and the same
      method of its path afterwards. */
  lemma OpenThroughout(was: State, now: State, apps: map<nat, Application>, app: nat, i: nat)
    requires WellFormed(was) && Consolidated(was, now) && app in apps && apps[app].active
    requires (forall g <- was.grants :: was.grants[g].app != app)
    requires i in was.routes && was.routes[i].active && was.routes[i].key.project == apps[app].project
    ensures AllowedBefore(was, apps, app, was.routes[i].key, was.routes[i].verb, was.routes[i].policy)
    ensures AllowedAfter(now, apps, app, was.routes[i].key, was.routes[i].verb, was.routes[i].policy)
  {
    hide AllowedBefore, AllowedAfter, Consolidated, WellFormed;
    var row := was.routes[i];
    BeforeExactly(was, apps, app, row.key, row.verb, row.policy);
    assert row == row.(key := row.key, verb := row.verb, policy := row.policy, active := true);
    AccessKept(was, now, apps, app, row.key, row.verb, row.policy);
  }

  // ---- what is left ----

  /** The rows that stay are those with the least id of their project and path; they keep their columns, except that
      they are enabled when any row of the group was. */
  lemma RowsLeft(was: State, now: State, r: nat)
    requires WellFormed(was) && Consolidated(was, now)
    ensures r in now.routes <==>
            r in was.routes && forall j <- was.routes :: Together(was.routes, r, j) ==> r <= j
    ensures r in now.routes ==>
              && now.routes[r] == was.routes[r].(active := now.routes[r].active)
              && (now.routes[r].active <==>
                  exists j <- was.routes :: Together(was.routes, r, j) && was.routes[j].active)
  {
    hide MethodsDone, LogsDone, GrantsDone, Home;
    if r in was.routes {
      LeastIsHome(was.routes, r);
      assert Enabled(was.routes, was.routes[r].key) <==>
          exists j <- was.routes ::
            Together(was.routes, r, j) && was.routes[j].active by { SameEnabled(was.routes, r); }
    }
  }

  lemma SameEnabled(routes: map<nat, Route>, r: nat)
    requires r in routes
    ensures Enabled(routes, routes[r].key) <==> exists j <- routes :: Together(routes, r, j) && routes[j].active
  {
    assert forall j :: j in routes ==> (Together(routes, r, j) <==> routes[j].key == routes[r].key);
  }

  lemma LeastIsHome(routes: map<nat, Route>, r: nat)
    requires r in routes
    ensures Home(routes, r) in routes && Together(routes, r, Home(routes, r))
    ensures forall j <- routes :: Together(routes, r, j) ==> Home(routes, r) <= j
    ensures Home(routes, r) == r <==> forall j <- routes :: Together(routes, r, j) ==> r <= j
  {
    assert forall j :: j in routes ==> (Together(routes, r, j) <==> j in Members(routes, routes[r].key));
  }

  /** A row stays exactly when it is its own home, and then leads all rows of its key. */
  lemma StaysHome(was: State, now: State, r: nat, i: nat)
    requires WellFormed(was) && Consolidated(was, now) && i in was.routes
    ensures r == Home(was.routes, i) <==> r in now.routes && was.routes[i].key == now.routes[r].key
  {
    hide MethodsDone, LogsDone, GrantsDone, Home;
    HomeOf(was.routes, i);
    if r in was.routes { HomeOf(was.routes, r); }
  }

  /** The policy rows afterwards: for each remaining row one for every method that had an enabled row in the group,
      with that row's policy, and no others. */
  lemma PoliciesLeft(was: State, now: State, r: nat, verb: string, policy: Policy)
    requires WellFormed(was) && Consolidated(was, now)
    ensures MethodKey(r, verb) in now.methods && now.methods[MethodKey(r, verb)] == policy <==>
            r in now.routes && exists i <- was.routes ::
              was.routes[i] == was.routes[i].(key := now.routes[r].key, verb := verb, policy := policy, active := true)
  {
    hide RoutesDone, LogsDone, GrantsDone, Home;
    if MethodKey(r, verb) in now.methods && now.methods[MethodKey(r, verb)] == policy {
      var i :| i in was.routes && was.routes[i].active
        && MethodKey(r, verb) == MethodKey(Home(was.routes, i), was.routes[i].verb);
      StaysHome(was, now, r, i);
    }
    if r in now.routes {
      forall i | i in was.routes && was.routes[i].key == now.routes[r].key && was.routes[i].verb == verb
        && was.routes[i].active
        ensures MethodKey(r, verb) in now.methods && now.methods[MethodKey(r, verb)] == was.routes[i].policy
      {
        StaysHome(was, now, r, i);
      }
    }
  }

  /** No request log is lost, and one that referred to a route refers to the remaining one of its path. */
  lemma LogsLeft(was: State, now: State, l: nat)
    requires WellFormed(was) && Consolidated(was, now)
    ensures l in now.logs <==> l in was.logs
    ensures l in was.logs ==> (now.logs[l] == None <==> was.logs[l] == None)
    ensures l in was.logs && was.logs[l] != None ==>
              now.logs[l].value in now.routes && now.routes[now.logs[l].value].key == was.routes[was.logs[l].value].key
  {
    hide RoutesDone, MethodsDone, GrantsDone, Home;
    if l in was.logs && was.logs[l] != None {
      StaysHome(was, now, Home(was.routes, was.logs[l].value), was.logs[l].value);
    }
  }

  /** The grant rows afterwards, for an application and a remaining route: one exactly when the application had a row
      in the group, never two, active exactly when one of those was; and no grant names a route that is gone. */
  lemma GrantsLeft(was: State, now: State, app: nat, r: nat)
    requires WellFormed(was) && Consolidated(was, now) && r in now.routes
    ensures (exists g <- now.grants :: now.grants[g].app == app && now.grants[g].route == r) <==>
            (exists g <- was.grants :: was.grants[g].app == app && was.routes[was.grants[g].route].key ==
              now.routes[r].key)
    ensures forall g <- now.grants, h <- now.grants ::
              now.grants[g].app == now.grants[h].app && now.grants[g].route == now.grants[h].route ==> g == h
    ensures ActiveRow(now.grants, app, r) <==>
            exists g <- was.grants ::
              was.grants[g].app == app && was.grants[g].active
                && was.routes[was.grants[g].route].key == now.routes[r].key
    ensures forall g <- now.grants :: now.grants[g].route in now.routes
  {
    hide Consolidated, Home, WellFormed, AnyActive;
    forall g | g in now.grants
      ensures g in was.grants && was.grants[g].route in was.routes && now.grants[g].app == was.grants[g].app
      ensures now.grants[g].route in now.routes
      ensures now.routes[now.grants[g].route].key == was.routes[was.grants[g].route].key
      ensures now.grants[g].route == r <==> was.routes[was.grants[g].route].key == now.routes[r].key
    {
      GrantHome(was, now, g);
      StaysHome(was, now, now.grants[g].route, was.grants[g].route);
      StaysHome(was, now, r, was.grants[g].route);
    }
    OneRowEach(was, now);
    GrantsRefer(was);
    if exists g <- was.grants :: was.grants[g].app == app && was.routes[was.grants[g].route].key == now.routes[r].key {
      var g :| g in was.grants && was.grants[g].app == app && was.routes[was.grants[g].route].key == now.routes[r].key;
      var h := ClaimKept(was, now, g);
      assert now.grants[h].app == app && now.grants[h].route == r;
    }
    ActiveLeft(was, now, app, r);
  }

  lemma GrantsRefer(s: State)
    requires WellFormed(s)
    ensures forall g <- s.grants :: s.grants[g].route in s.routes
  {
  }

  lemma GrantHome(was: State, now: State, g: nat)
    requires WellFormed(was) && Consolidated(was, now) && g in now.grants
    ensures g in was.grants && was.grants[g].route in was.routes && now.grants[g].app == was.grants[g].app
    ensures now.grants[g].route == Home(was.routes, was.grants[g].route)
  {
    hide Consolidated, Home, AnyActive;
    SurvivingGrant(was, now, g);
  }

  lemma OneRowEach(was: State, now: State)
    requires WellFormed(was) && Consolidated(was, now)
    ensures forall g <- now.grants, h <- now.grants ::
              now.grants[g].app == now.grants[h].app && now.grants[g].route == now.grants[h].route ==> g == h
  {
    hide RoutesDone, MethodsDone, LogsDone, GrantRows, GrantsKept, ClaimsKept, Home, AnyActive;
    forall g, h | g in now.grants && h in now.grants
        && now.grants[g].app == now.grants[h].app && now.grants[g].route == now.grants[h].route
      ensures g == h
    {
      GrantHome(was, now, g);
      GrantHome(was, now, h);
      HomeOf(was.routes, was.grants[g].route);
      HomeOf(was.routes, was.grants[h].route);
      assert SameClaim(was.routes, was.grants, g, h);
    }
  }

  lemma ActiveLeft(was: State, now: State, app: nat, r: nat)
    requires WellFormed(was) && Consolidated(was, now) && r in now.routes
    ensures ActiveRow(now.grants, app, r) <==>
            exists g <- was.grants ::
              was.grants[g].app == app && was.grants[g].active
                && was.routes[was.grants[g].route].key == now.routes[r].key
  {
    hide MethodsDone, LogsDone, GrantsDone, Home;
    assert r in was.routes && now.routes[r].key == was.routes[r].key && Home(was.routes, r) == r;
    GrantedAtHome(was, now, app, r);
    SameGrant(now.grants, app, r);
    assert forall i :: i in was.routes ==>
      (i in Members(was.routes, was.routes[r].key) <==> was.routes[i].key == was.routes[r].key);
  }
}
