/** consolidate_routes: validate every group, then rewrite every group. */
module ConsolidateRoutes {
  import opened PyStrings
  import opened Authorization
  import opened Consolidation
  import opened ConsolidationDatabase
  import opened ConsolidationValidation
  import opened ConsolidationRewrite

  lemma NothingDone(was: State)
    requires WellFormed(was)
    ensures Progress(was, was, {})
  {
    hide Home, GrantsDone;
    NoGrantsDone(was.routes, was.grants);
  }

  lemma NoGrantsDone(routes: map<nat, Route>, grants: map<nat, Grant>)
    requires forall g <- grants :: grants[g].route in routes
    ensures GrantsDone(routes, grants, grants, {})
  {
    hide Home, AnyActive;
    forall g | g in grants ensures ClaimSurvives(routes, grants, grants, g) {
      assert SameClaim(routes, grants, g, g);
    }
  }

  lemma Ungrouped(s: State, groups: map<Key, seq<nat>>, key: Key)
    requires Grouped(s.routes, s.routes.Keys, groups) && key !in groups
    ensures Consolidable(s, key)
  {
  }

  lemma GroupKeys(routes: map<nat, Route>, groups: map<Key, seq<nat>>)
    requires Grouped(routes, routes.Keys, groups)
    ensures groups.Keys == AllKeys(routes)
  {
    forall k | k in groups ensures k in AllKeys(routes) {
      var i := groups[k][0];
      assert i in groups[k];
      assert routes[i].key == k;
    }
  }

  /** The first loop: every group passes, or one of them raises its error. */
  method ValidateGroups(db: Database, groups: map<Key, seq<nat>>) returns (failure: Option<Outcome>)
    requires WellFormed(db.Tables()) && Grouped(db.routes, db.routes.Keys, groups)
    ensures failure.None? <==> forall key :: Consolidable(db.Tables(), key)
    ensures failure.Some? ==> failure.value != Done && failure.value != IntegrityError
    ensures failure.Some? ==> exists key :: Raises(db.Tables(), key, failure.value)
  {
    hide WellFormed, Consolidable, Raises, Grouped;
    ghost var was := db.Tables();
    var todo := groups.Keys;
    while todo != {}
      invariant todo <= groups.Keys
      invariant forall key <- groups.Keys - todo :: Consolidable(was, key)
    {
      var key :| key in todo;
      GroupShape(was.routes, groups, key);
      failure := ValidateGroup(db, Elements(groups[key]), key);
      if failure.Some? { return; }
      todo := todo - {key};
    }
    forall key ensures Consolidable(was, key) {
      if key !in groups { Ungrouped(was, groups, key); }
    }
    failure := None;
  }

  /** Succeeds exactly on consolidable databases and then rewrites them completely, without ever meeting an
      integrity error; on any other database it stops before the first write. The rows of a group are listed
      in id order already, so the sort in `consolidate_routes` leaves them as they are. */
  method Consolidate(db: Database) returns (outcome: Outcome)
    requires WellFormed(db.Tables())
    modifies db
    ensures outcome != IntegrityError
    ensures outcome == Done <==> forall key :: Consolidable(old(db.Tables()), key)
    ensures outcome == Done ==> Consolidated(old(db.Tables()), db.Tables())
    ensures outcome != Done ==> db.Tables() == old(db.Tables())
    ensures outcome != Done ==> exists key :: Raises(old(db.Tables()), key, outcome)
  {
    hide WellFormed, Consolidable, Raises, Progress, Grouped, Leads;
    ghost var was := db.Tables();
    var groups := GroupRoutes(db);
    GroupKeys(was.routes, groups);
    var failure := ValidateGroups(db, groups);
    if failure.Some? { return failure.value; }
    NothingDone(was);
    var todo := groups.Keys;
    assert groups.Keys - todo == {};
    while todo != {}
      invariant todo <= groups.Keys
      invariant Progress(was, db.Tables(), groups.Keys - todo)
    {
      var key :| key in todo;
      GroupLeads(was.routes, groups, key);
      var ok := ConsolidateGroup(db, groups[key], was, groups.Keys - todo, key);
      if !ok { return IntegrityError; }
      assert groups.Keys - (todo - {key}) == groups.Keys - todo + {key};
      todo := todo - {key};
    }
    assert groups.Keys - todo == groups.Keys;
    outcome := Done;
  }

  lemma GroupLeads(routes: map<nat, Route>, groups: map<Key, seq<nat>>, key: Key)
    requires Grouped(routes, routes.Keys, groups) && key in groups
    ensures groups[key] != [] && Leads(routes, key, Elements(groups[key]), groups[key][0])
    ensures forall m, n :: 0 <= m < n < |groups[key]| ==> groups[key][m] < groups[key][n]
  {
    hide Home;
    GroupShape(routes, groups, key);
  }
}
