/** Grouping the routes by project and path, and the validation pass over the groups. */
module ConsolidationValidation {
  import opened PyStrings
  import opened Tables
  import opened Authorization
  import opened Consolidation
  import opened ConsolidationDatabase

  // ---- grouping ----

  /** `groups` lists the routes `done` by key, each list in ascending order. */
  ghost predicate Grouped(routes: map<nat, Route>, done: set<nat>, groups: map<Key, seq<nat>>) {
    && (forall k <- groups :: groups[k] != [] && Ascends(groups[k]))
    && (forall k, i :: k in groups && i in groups[k] ==> i in done && i in routes && routes[i].key == k)
    && (forall i <- done :: i in routes ==> routes[i].key in groups && i in groups[routes[i].key])
  }

  predicate Ascends(s: seq<nat>) {
    forall a, b :: 0 <= a < b < |s| ==> s[a] < s[b]
  }

  lemma GroupedStep(routes: map<nat, Route>, done: set<nat>, groups: map<Key, seq<nat>>, id: nat)
    requires Grouped(routes, done, groups) && id in routes && forall i <- done :: i < id
    ensures var k := routes[id].key;
            Grouped(routes, done + {id}, groups[k := (if k in groups then groups[k] else []) + [id]])
  {
    var k := routes[id].key;
    if k in groups {
      forall a | 0 <= a < |groups[k]| ensures groups[k][a] < id {
        assert groups[k][a] in groups[k] && groups[k][a] in done;
      }
    }
  }

  method GroupRoutes(db: Database) returns (groups: map<Key, seq<nat>>)
    ensures Grouped(db.routes, db.routes.Keys, groups)
  {
    groups := map[];
    var todo := db.routes.Keys;
    while todo != {}
      invariant todo <= db.routes.Keys
      invariant forall i <- db.routes.Keys - todo, j <- todo :: i < j
      invariant Grouped(db.routes, db.routes.Keys - todo, groups)
    {
      var id := Least(todo);
      var k := db.routes[id].key;
      GroupedStep(db.routes, db.routes.Keys - todo, groups, id);
      groups := groups[k := (if k in groups then groups[k] else []) + [id]];
      assert db.routes.Keys - (todo - {id}) == db.routes.Keys - todo + {id};
      todo := todo - {id};
    }
    assert db.routes.Keys - todo == db.routes.Keys;
  }

  /** A finished group is its key's members, led by the surviving row. */
  lemma GroupShape(routes: map<nat, Route>, groups: map<Key, seq<nat>>, key: Key)
    requires Grouped(routes, routes.Keys, groups) && key in groups
    ensures Elements(groups[key]) == Members(routes, key)
    ensures groups[key] != [] && groups[key][0] in Members(routes, key)
    ensures Home(routes, groups[key][0]) == groups[key][0]
  {
    var rows := groups[key];
    assert rows[0] in rows;
    assert forall a :: 0 <= a < |rows| ==> rows[0] <= rows[a];
    assert Elements(rows) == Members(routes, key);
  }

  // ---- validation ----

  lemma SmallSet<T>(s: set<T>)
    ensures |s| <= 1 <==> forall a <- s, b <- s :: a == b
  {
    if a :| a in s {
      assert |s - {a}| == |s| - 1;
      assert |s| <= 1 ==> s - {a} == {};
      if |s| > 1 {
        var b :| b in s - {a};
      }
    }
  }

  /** Methods of enabled rows on which the grants `gs` give the application an active grant. */
  function SeenMethods(s: State, gs: set<nat>, app: nat): set<string>
    requires forall g <- gs :: g in s.grants && s.grants[g].route in s.routes
  {
    set g <- gs | s.grants[g].app == app && s.grants[g].active && s.routes[s.grants[g].route].active
      :: s.routes[s.grants[g].route].verb
  }

  function ActiveMethods(routes: map<nat, Route>, key: Key): set<string> {
    set i <- routes | routes[i].key == key && routes[i].active :: routes[i].verb
  }

  /** The comparison of method sets is the comparison of rows, as no two rows of a group share a method. */
  lemma MethodSetsDecide(s: State, key: Key, app: nat)
    requires WellFormed(s)
    ensures var seen := SeenMethods(s, GrantIds(s.grants, Members(s.routes, key)), app);
            AllOrNone(s, key, app) <==> seen == {} || seen == ActiveMethods(s.routes, key)
  {
    var gs := GrantIds(s.grants, Members(s.routes, key));
    var seen := SeenMethods(s, gs, app);
    forall i | i in s.routes && s.routes[i].key == key && s.routes[i].active
      ensures s.routes[i].verb in seen <==> Granted(s.grants, app, i)
    {
      SeenIsGranted(s, key, app, i);
    }
    assert seen <= ActiveMethods(s.routes, key);
    AllOrNoneBySet(s, key, app, seen);
  }

  lemma SeenIsGranted(s: State, key: Key, app: nat, i: nat)
    requires WellFormed(s) && i in s.routes && s.routes[i].key == key && s.routes[i].active
    ensures s.routes[i].verb in SeenMethods(s, GrantIds(s.grants, Members(s.routes, key)), app) <==>
        Granted(s.grants, app, i)
  {
    var gs := GrantIds(s.grants, Members(s.routes, key));
    if Granted(s.grants, app, i) {
      var g :| g in s.grants && s.grants[g].app == app && s.grants[g].route == i && s.grants[g].active;
      assert g in gs;
    }
  }

  lemma AllOrNoneBySet(s: State, key: Key, app: nat, seen: set<string>)
    requires forall i <- s.routes :: s.routes[i].key == key && s.routes[i].active ==>
        (s.routes[i].verb in seen <==> Granted(s.grants, app, i))
    requires seen <= ActiveMethods(s.routes, key)
    ensures AllOrNone(s, key, app) <==> seen == {} || seen == ActiveMethods(s.routes, key)
  {
    hide Granted;
    if AllOrNone(s, key, app) && seen != {} {
      var v :| v in seen;
      var j :| j in s.routes && s.routes[j].key == key && s.routes[j].active && s.routes[j].verb == v;
      assert Granted(s.grants, app, j);
      forall w | w in ActiveMethods(s.routes, key) ensures w in seen {
        var i :| i in s.routes && s.routes[i].key == key && s.routes[i].active && s.routes[i].verb == w;
      }
    }
    if seen == ActiveMethods(s.routes, key) {
      forall i | i in s.routes && s.routes[i].key == key && s.routes[i].active ensures Granted(s.grants, app, i) {
        assert s.routes[i].verb in seen;
      }
    }
  }

  /** What the collection loop has recorded about the grants `gs`. */
  ghost predicate Recorded(s: State, gs: set<nat>, applicants: set<nat>, granted: map<nat, set<string>>)
    requires forall g <- gs :: g in s.grants && s.grants[g].route in s.routes
  {
    && (forall g <- gs :: s.grants[g].app in applicants)
    && (forall app :: (if app in granted then granted[app] else {}) == SeenMethods(s, gs, app))
  }

  lemma RecordedStep(s: State, gs: set<nat>, applicants: set<nat>, granted: map<nat, set<string>>, g: nat)
    requires (forall h <- gs :: h in s.grants && s.grants[h].route in s.routes) && Recorded(s, gs, applicants, granted)
    requires g in s.grants && s.grants[g].route in s.routes
    ensures var grant := s.grants[g];
            var row := s.routes[grant.route];
            var known := if grant.app in granted then granted[grant.app] else {};
            Recorded(s, gs + {g}, applicants + {grant.app},
                     if grant.active && row.active then granted[grant.app := known + {row.verb}] else granted)
  {
    hide SeenMethods;
    forall app { SeenStep(s, gs, g, app); }
  }

  lemma SeenStep(s: State, gs: set<nat>, g: nat, app: nat)
    requires forall h <- gs :: h in s.grants && s.grants[h].route in s.routes
    requires g in s.grants && s.grants[g].route in s.routes
    ensures SeenMethods(s, gs + {g}, app) == SeenMethods(s, gs, app) +
            (if s.grants[g].app == app && s.grants[g].active && s.routes[s.grants[g].route].active
             then {s.routes[s.grants[g].route].verb} else {})
  {
  }

  method CollectGrants(db: Database, rows: set<nat>) returns (applicants: set<nat>, granted: map<nat, set<string>>)
    requires WellFormed(db.Tables()) && rows <= db.routes.Keys
    ensures Recorded(db.Tables(), GrantIds(db.grants, rows), applicants, granted)
  {
    applicants, granted := {}, map[];
    ghost var s := db.Tables();
    var todo := GrantIds(db.grants, rows);
    ghost var all := todo;
    while todo != {}
      invariant todo <= all
      invariant Recorded(s, all - todo, applicants, granted)
    {
      var g :| g in todo;
      var grant := db.grants[g];
      var row := db.routes[grant.route];
      RecordedStep(s, all - todo, applicants, granted, g);
      applicants := applicants + {grant.app};
      if grant.active && row.active {
        granted := granted[grant.app := (if grant.app in granted then granted[grant.app] else {}) + {row.verb}];
      }
      assert all - (todo - {g}) == all - todo + {g};
      todo := todo - {g};
    }
    assert all - todo == all;
  }

  lemma Bystander(s: State, key: Key, app: nat)
    requires WellFormed(s) && SeenMethods(s, GrantIds(s.grants, Members(s.routes, key)), app) == {}
    ensures AllOrNone(s, key, app)
  {
    MethodSetsDecide(s, key, app);
  }

  method ValidateGroup(db: Database, rows: set<nat>, ghost key: Key) returns (failure: Option<Outcome>)
    requires WellFormed(db.Tables()) && rows == Members(db.routes, key)
    ensures failure.None? <==> Consolidable(db.Tables(), key)
    ensures failure.Some? ==> failure.value != Done && failure.value != IntegrityError
    ensures failure.Some? ==> Raises(db.Tables(), key, failure.value)
  {
    hide WellFormed, SeenMethods, AllOrNone, GrantIds, SameTarget, SameService;
    ghost var s := db.Tables();
    var targets := set i <- rows :: db.routes[i].target;
    TargetsDecide(s.routes, key, targets);
    if |targets| > 1 {
      return Some(ConflictingTargets);
    }
    var services := set i <- rows :: db.routes[i].service;
    ServicesDecide(s.routes, key, services);
    if |services| > 1 {
      return Some(ConflictingServices);
    }
    var active := set i <- rows | db.routes[i].active :: db.routes[i].verb;
    assert active == ActiveMethods(db.routes, key);
    var applicants, granted := CollectGrants(db, rows);
    var todo := applicants;
    while todo != {}
      invariant todo <= applicants
      invariant forall app <- applicants - todo :: AllOrNone(s, key, app)
    {
      var app :| app in todo;
      var known := if app in granted then granted[app] else {};
      MethodSetsDecide(s, key, app);
      if known != {} && known != active { return Some(MethodSpecificGrants); }
      todo := todo - {app};
    }
    forall app ensures AllOrNone(s, key, app) {
      if app !in applicants { NotAmong(s, rows, applicants, granted, app); Bystander(s, key, app); }
    }
    failure := None;
  }

  lemma NotAmong(s: State, rows: set<nat>, applicants: set<nat>, granted: map<nat, set<string>>, app: nat)
    requires WellFormed(s) && Recorded(s, GrantIds(s.grants, rows), applicants, granted) && app !in applicants
    ensures SeenMethods(s, GrantIds(s.grants, rows), app) == {}
  {
  }

  lemma TargetsDecide(routes: map<nat, Route>, key: Key, targets: set<string>)
    requires targets == set i <- Members(routes, key) :: routes[i].target
    ensures SameTarget(routes, key) <==> |targets| <= 1
  {
    SmallSet(targets);
    if SameTarget(routes, key) {
      forall a, b | a in targets && b in targets ensures a == b { }
    } else {
      var i, j :| i in routes && j in routes && routes[i].key == routes[j].key == key
        && routes[i].target != routes[j].target;
      assert i in Members(routes, key) && j in Members(routes, key);
      assert routes[i].target in targets && routes[j].target in targets;
    }
  }

  lemma ServicesDecide(routes: map<nat, Route>, key: Key, services: set<Option<nat>>)
    requires services == set i <- Members(routes, key) :: routes[i].service
    ensures SameService(routes, key) <==> |services| <= 1
  {
    SmallSet(services);
    if SameService(routes, key) {
      forall a, b | a in services && b in services ensures a == b { }
    } else {
      var i, j :| i in routes && j in routes && routes[i].key == routes[j].key == key
        && routes[i].service != routes[j].service;
      assert i in Members(routes, key) && j in Members(routes, key);
      assert routes[i].service in services && routes[j].service in services;
    }
  }
}
