/** What consolidation means for callers: who may call which method of which path, under which policy. */
module ConsolidationMeaning {
  import opened PyStrings
  import opened Authorization
  import opened Consolidation

  /** With one route per method: an enabled row for the path and method that the application may use. */
  ghost predicate AllowedBefore(s: State, apps: map<nat, Application>, app: nat, key: Key, verb: string,
                                policy: Policy) {
    && app in apps
    && exists i <- s.routes ::
         && s.routes[i].key == key && s.routes[i].verb == verb && s.routes[i].active && s.routes[i].policy == policy
         && HasPermission(app, apps[app], s.grants, i, key.project)
  }

  /** With one route per path: an enabled row for the path with a policy for the method. */
  ghost predicate AllowedAfter(s: State, apps: map<nat, Application>, app: nat, key: Key, verb: string,
                               policy: Policy) {
    && app in apps
    && exists i <- s.routes ::
         && s.routes[i].key == key && s.routes[i].active
         && MethodKey(i, verb) in s.methods && s.methods[MethodKey(i, verb)] == policy
         && HasPermission(app, apps[app], s.grants, i, key.project)
  }

  /** In every enabled group, an application with an active grant on a disabled row has one on an enabled
      row too. Applications that are inactive or of another project have no access either way. */
  ghost predicate NoHiddenGrants(s: State, apps: map<nat, Application>) {
    forall app <- apps, i <- s.routes, e <- s.routes ::
      Hidden(s, apps[app], app, i, e) ==> Revealed(s, app, s.routes[i].key)
  }

  /** A usable application holds an active grant on the disabled row `i` of the group of the enabled row `e`. */
  predicate Hidden(s: State, application: Application, app: nat, i: nat, e: nat)
    requires i in s.routes && e in s.routes
  {
    && application.active && application.project == s.routes[i].key.project
    && s.routes[e].key == s.routes[i].key && s.routes[e].active && !s.routes[i].active && Granted(s.grants, app, i)
  }

  predicate Revealed(s: State, app: nat, key: Key) {
    exists j <- s.routes :: s.routes[j].key == key && s.routes[j].active && Granted(s.grants, app, j)
  }

  lemma HomeOf(routes: map<nat, Route>, i: nat)
    requires i in routes
    ensures Home(routes, i) in routes && routes[Home(routes, i)].key == routes[i].key
    ensures Home(routes, Home(routes, i)) == Home(routes, i)
    ensures forall j <- routes :: routes[j].key == routes[i].key ==> Home(routes, j) == Home(routes, i)
  {
    assert Home(routes, i) in Members(routes, routes[i].key);
  }

  /** A surviving grant row sits on the surviving route, active when any grant of the group was. */
  lemma SurvivingGrant(was: State, now: State, g: nat)
    requires WellFormed(was) && Consolidated(was, now) && g in now.grants
    ensures g in was.grants
    ensures now.grants[g] == Grant(was.grants[g].app, Home(was.routes, was.grants[g].route),
              AnyActive(was.grants, was.grants[g].app, Members(was.routes, was.routes[was.grants[g].route].key)))
  {
    hide Home, RoutesDone, MethodsDone, LogsDone, SameClaim;
    assert now.grants[g] == Regrant(was.routes, was.grants, g, AllKeys(was.routes));
  }

  /** Every old grant row has a surviving one of the same application and group. */
  lemma ClaimKept(was: State, now: State, g: nat) returns (h: nat)
    requires WellFormed(was) && Consolidated(was, now) && g in was.grants
    ensures h in now.grants && h in was.grants && was.grants[h].app == was.grants[g].app
    ensures was.routes[was.grants[h].route].key == was.routes[was.grants[g].route].key
  {
    hide Home, RoutesDone, MethodsDone, LogsDone, Regrant;
    assert ClaimSurvives(was.routes, was.grants, now.grants, g);
    h :| h in now.grants && h in was.grants && SameClaim(was.routes, was.grants, g, h);
  }

  /** The surviving row carries an active grant exactly when some row of the group did. */
  lemma GrantedAtHome(was: State, now: State, app: nat, i: nat)
    requires WellFormed(was) && Consolidated(was, now) && i in was.routes
    ensures Granted(now.grants, app, Home(was.routes, i))
            <==> AnyActive(was.grants, app, Members(was.routes, was.routes[i].key))
  {
    hide Home, Consolidated;
    var home, rows := Home(was.routes, i), Members(was.routes, was.routes[i].key);
    HomeOf(was.routes, i);
    if Granted(now.grants, app, home) {
      var g :| g in now.grants && now.grants[g].app == app && now.grants[g].route == home && now.grants[g].active;
      SurvivingGrant(was, now, g);
      HomeOf(was.routes, was.grants[g].route);
    }
    if AnyActive(was.grants, app, rows) {
      var g :| g in was.grants && was.grants[g].app == app && was.grants[g].route in rows && was.grants[g].active;
      var h := ClaimKept(was, now, g);
      SurvivingGrant(was, now, h);
    }
  }

  /** No application gains or loses its default access: row sets neither appear nor become empty. */
  lemma UngrantedKept(was: State, now: State, app: nat)
    requires WellFormed(was) && Consolidated(was, now)
    ensures Ungranted(now.grants, app) <==> Ungranted(was.grants, app)
  {
    hide Home, Consolidated;
    if g :| g in was.grants && was.grants[g].app == app {
      var h := ClaimKept(was, now, g);
      SurvivingGrant(was, now, h);
    }
    if g :| g in now.grants && now.grants[g].app == app {
      SurvivingGrant(was, now, g);
    }
  }

  /** Everything callable stays callable under the same policy. */
  lemma AccessKept(was: State, now: State, apps: map<nat, Application>, app: nat, key: Key, verb: string,
                   policy: Policy)
    requires WellFormed(was) && Consolidated(was, now)
    requires AllowedBefore(was, apps, app, key, verb, policy)
    ensures AllowedAfter(now, apps, app, key, verb, policy)
  {
    hide Home, GrantsDone, LogsDone;
    var i :| i in was.routes && was.routes[i].key == key && was.routes[i].verb == verb && was.routes[i].active
             && was.routes[i].policy == policy && HasPermission(app, apps[app], was.grants, i, key.project);
    var home := Home(was.routes, i);
    HomeOf(was.routes, i);
    UngrantedKept(was, now, app);
    GrantedAtHome(was, now, app, i);
    assert i in Members(was.routes, key);
    assert home in now.routes && now.routes[home].active;
    assert MethodKey(home, verb) in now.methods;
  }

  /** Whatever is callable afterwards comes from an enabled row with that method and policy, and from an
      active grant somewhere in the group unless the application has no grants at all. */
  lemma AccessOrigin(was: State, now: State, apps: map<nat, Application>, app: nat, key: Key, verb: string,
                     policy: Policy)
      returns (i: nat)
    requires WellFormed(was) && Consolidated(was, now)
    requires AllowedAfter(now, apps, app, key, verb, policy)
    ensures i in was.routes
    ensures was.routes[i] == was.routes[i].(key := key, verb := verb, policy := policy, active := true)
    ensures apps[app].active && apps[app].project == key.project
    ensures Ungranted(was.grants, app) || AnyActive(was.grants, app, Members(was.routes, key))
  {
    hide Consolidated, WellFormed;
    var r :| r in now.routes && now.routes[r].key == key && now.routes[r].active
             && MethodKey(r, verb) in now.methods && now.methods[MethodKey(r, verb)] == policy
             && HasPermission(app, apps[app], now.grants, r, key.project);
    i := PolicySource(was, now, r, verb);
    UngrantedKept(was, now, app);
    GrantedAtHome(was, now, app, i);
  }

  /** A policy of a surviving route was the policy of an enabled row of its group. */
  lemma PolicySource(was: State, now: State, r: nat, verb: string) returns (i: nat)
    requires WellFormed(was) && Consolidated(was, now)
    requires r in now.routes && MethodKey(r, verb) in now.methods
    ensures i in was.routes && was.routes[i].active && was.routes[i].verb == verb && Home(was.routes, i) == r
    ensures was.routes[i].key == now.routes[r].key && was.routes[i].policy == now.methods[MethodKey(r, verb)]
  {
    hide Home, GrantsDone, LogsDone;
    i :| i in was.routes && was.routes[i].active
      && MethodKey(r, verb) == MethodKey(Home(was.routes, i), was.routes[i].verb);
    HomeOf(was.routes, i);
  }

  /** An active grant on one enabled row of a consolidable group extends to all its enabled rows. */
  lemma GrantsSpread(s: State, key: Key, app: nat, i: nat)
    requires Consolidable(s, key) && i in s.routes && s.routes[i].key == key && s.routes[i].active
    requires Revealed(s, app, key)
    ensures Granted(s.grants, app, i)
  {
    var j :| j in s.routes && s.routes[j].key == key && s.routes[j].active && Granted(s.grants, app, j);
    assert AllOrNone(s, key, app);
  }

  lemma NothingGained(was: State, now: State, apps: map<nat, Application>, app: nat, key: Key, verb: string,
                      policy: Policy)
    requires WellFormed(was) && Consolidated(was, now) && Consolidable(was, key)
    requires NoHiddenGrants(was, apps)
    requires AllowedAfter(now, apps, app, key, verb, policy)
    ensures AllowedBefore(was, apps, app, key, verb, policy)
  {
    hide Consolidated, Consolidable, NoHiddenGrants;
    var i := AccessOrigin(was, now, apps, app, key, verb, policy);
    if !Ungranted(was.grants, app) {
      HiddenOrRevealed(was, apps, app, key, i);
      GrantsSpread(was, key, app, i);
    }
  }

  lemma HiddenOrRevealed(s: State, apps: map<nat, Application>, app: nat, key: Key, e: nat)
    requires WellFormed(s) && NoHiddenGrants(s, apps)
    requires app in apps && apps[app].active && apps[app].project == key.project
    requires e in s.routes && s.routes[e].key == key && s.routes[e].active
    requires AnyActive(s.grants, app, Members(s.routes, key))
    ensures Revealed(s, app, key)
  {
    var g :| g in s.grants && s.grants[g].app == app && s.grants[g].route in Members(s.routes, key)
      && s.grants[g].active;
    var j := s.grants[g].route;
    assert Granted(s.grants, app, j);
    if !s.routes[j].active {
      assert Hidden(s, apps[app], app, j, e);
    }
  }

  /** A hidden grant opens the enabled row it did not cover. */
  lemma SomethingGained(was: State, now: State, apps: map<nat, Application>, app: nat, i: nat, e: nat)
    requires WellFormed(was) && Consolidated(was, now)
    requires app in apps && i in was.routes && e in was.routes
    requires Hidden(was, apps[app], app, i, e) && !Revealed(was, app, was.routes[i].key)
    ensures AllowedAfter(now, apps, app, was.routes[e].key, was.routes[e].verb, was.routes[e].policy)
    ensures !AllowedBefore(was, apps, app, was.routes[e].key, was.routes[e].verb, was.routes[e].policy)
  {
    hide Home, GrantsDone, LogsDone;
    var home := Home(was.routes, e);
    HomeOf(was.routes, e);
    GrantedAtHome(was, now, app, e);
    var g :| g in was.grants && was.grants[g].app == app && was.grants[g].route == i && was.grants[g].active;
    assert was.grants[g].route in Members(was.routes, was.routes[e].key);
    assert MethodKey(home, was.routes[e].verb) in now.methods;
    assert now.routes[home].active;
  }

  /** Access is unchanged for every application, path, method and policy exactly when no enabled group
      hides a grant on one of its disabled rows. */
  lemma AccessPreservedExactly(was: State, now: State, apps: map<nat, Application>)
    requires WellFormed(was) && Consolidated(was, now) && forall key :: Consolidable(was, key)
    ensures (forall app, key, verb, policy ::
               AllowedBefore(was, apps, app, key, verb, policy) <==> AllowedAfter(now, apps, app, key, verb, policy))
            <==> NoHiddenGrants(was, apps)
  {
    hide Consolidated, WellFormed, AllowedBefore, AllowedAfter, Hidden, Consolidable;
    if NoHiddenGrants(was, apps) {
      forall app, key, verb, policy
        ensures AllowedBefore(was, apps, app, key, verb, policy) <==> AllowedAfter(now, apps, app, key, verb, policy)
      {
        if AllowedBefore(was, apps, app, key, verb, policy) { AccessKept(was, now, apps, app, key, verb, policy); }
        if AllowedAfter(now, apps, app, key, verb, policy) { NothingGained(was, now, apps, app, key, verb, policy); }
      }
    } else {
      var app, i, e :| app in apps && i in was.routes && e in was.routes
                       && Hidden(was, apps[app], app, i, e) && !Revealed(was, app, was.routes[i].key);
      SomethingGained(was, now, apps, app, i, e);
    }
  }

  /** Validation alone does not rule hidden grants out: an application granted only the disabled POST of a
      path whose GET is enabled passes it. */
  lemma HiddenGrantPassesValidation() returns (s: State, apps: map<nat, Application>)
    ensures WellFormed(s) && forall key :: Consolidable(s, key)
    ensures !NoHiddenGrants(s, apps)
  {
    var key := Key(1, "/doctors");
    s := State(map[1 := Route(key, "GET", ApiKeyOnly, true, "", None),
                   2 := Route(key, "POST", ApiKeyOnly, false, "", None)],
               map[], map[1 := Grant(7, 2, true)], map[]);
    apps := map[7 := Application(1, "normal", true)];
    assert Granted(s.grants, 7, 2) by { assert 1 in s.grants; }
    assert Hidden(s, apps[7], 7, 2, 1);
    assert !Revealed(s, 7, key);
    forall k ensures Consolidable(s, k) { }
  }

  /** The surviving row forwards where every row of its group forwarded, through the same service. */
  lemma DestinationKept(was: State, now: State, i: nat)
    requires WellFormed(was) && Consolidated(was, now) && i in was.routes
    requires Consolidable(was, was.routes[i].key)
    ensures var home := Home(was.routes, i);
            && home in now.routes && now.routes[home].key == was.routes[i].key
            && now.routes[home].target == was.routes[i].target && now.routes[home].service == was.routes[i].service
    ensures forall r <- now.routes :: now.routes[r].key == was.routes[i].key ==> r == Home(was.routes, i)
  {
    hide Home, MethodsDone, LogsDone, GrantsDone, AllOrNone;
    HomeOf(was.routes, i);
  }
}
