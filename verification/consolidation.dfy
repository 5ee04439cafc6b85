/** Collapsing one route per method into one route per path
    (apps/routes/migrations/0008_route_methods_and_unique_base_paths.py). */
module Consolidation {
  import opened PyStrings
  import opened Tables
  import opened Authorization

  datatype Key = Key(project: nat, path: string)

  datatype Route = Route(key: Key, verb: string, policy: Policy, active: bool, target: string, service: Option<nat>)

  datatype MethodKey = MethodKey(route: nat, verb: string)

  /** The four tables the migration touches. */
  datatype State = State(
    routes: map<nat, Route>,
    methods: map<MethodKey, Policy>,
    grants: map<nat, Grant>,
    logs: map<nat, Option<nat>>)

  datatype Outcome =
    | Done
    | ConflictingTargets
    | ConflictingServices
    | MethodSpecificGrants
    | IntegrityError

  function Members(routes: map<nat, Route>, key: Key): set<nat> {
    set i <- routes | routes[i].key == key
  }

  /** The least id among the routes sharing the project and path of route `id`. */
  function Home(routes: map<nat, Route>, id: nat): nat
    requires id in routes
  {
    assert id in Members(routes, routes[id].key);
    Least(Members(routes, routes[id].key))
  }

  predicate Enabled(routes: map<nat, Route>, key: Key) {
    exists i <- routes :: routes[i].key == key && routes[i].active
  }

  /** Some active grant of the application names one of the rows. */
  predicate AnyActive(grants: map<nat, Grant>, app: nat, rows: set<nat>) {
    exists g <- grants :: grants[g].app == app && grants[g].route in rows && grants[g].active
  }

  predicate UniqueGrants(grants: map<nat, Grant>) {
    forall g <- grants, h <- grants :: grants[g].app == grants[h].app && grants[g].route == grants[h].route ==> g == h
  }

  predicate UniqueRoutes(routes: map<nat, Route>) {
    forall i <- routes, j <- routes :: routes[i].key == routes[j].key && routes[i].verb == routes[j].verb ==> i == j
  }

  /** The constraints of the old schema; the method table has just been created. */
  predicate WellFormed(s: State) {
    && UniqueRoutes(s.routes) && UniqueGrants(s.grants) && s.methods == map[]
    && (forall g <- s.grants :: s.grants[g].route in s.routes)
    && (forall l <- s.logs :: s.logs[l].Some? ==> s.logs[l].value in s.routes)
  }

  // ---- what the validation pass accepts ----

  ghost predicate SameTarget(routes: map<nat, Route>, key: Key) {
    forall i <- routes, j <- routes :: routes[i].key == key && routes[j].key == key ==>
      routes[i].target == routes[j].target
  }

  ghost predicate SameService(routes: map<nat, Route>, key: Key) {
    forall i <- routes, j <- routes :: routes[i].key == key && routes[j].key == key ==>
      routes[i].service == routes[j].service
  }

  /** The application has an active grant on every enabled row of the group, or on none. */
  ghost predicate AllOrNone(s: State, key: Key, app: nat) {
    forall i <- s.routes, j <- s.routes ::
      s.routes[i].key == key && s.routes[j].key == key && s.routes[i].active && s.routes[j].active ==>
      (Granted(s.grants, app, i) <==> Granted(s.grants, app, j))
  }

  ghost predicate Consolidable(s: State, key: Key) {
    SameTarget(s.routes, key) && SameService(s.routes, key) && forall app :: AllOrNone(s, key, app)
  }

  /** The error a group that is not consolidable raises: the first of the three checks to fail. */
  ghost predicate Raises(s: State, key: Key, failure: Outcome) {
    match failure
    case ConflictingTargets => !SameTarget(s.routes, key)
    case ConflictingServices => SameTarget(s.routes, key) && !SameService(s.routes, key)
    case MethodSpecificGrants =>
      SameTarget(s.routes, key) && SameService(s.routes, key) && exists app :: !AllOrNone(s, key, app)
    case _ => false
  }

  // ---- what the rewriting pass makes of the groups `done` ----

  ghost predicate RoutesDone(was: map<nat, Route>, now: map<nat, Route>, done: set<Key>) {
    && (forall i :: i in now <==> i in was && (was[i].key in done ==> Home(was, i) == i))
    && (forall i <- now :: now[i] == if was[i].key in done then was[i].(active := Enabled(was, was[i].key)) else was[i])
  }

  ghost predicate MethodsDone(was: map<nat, Route>, now: map<MethodKey, Policy>, done: set<Key>) {
    && (forall i <- was :: was[i].key in done && was[i].active ==>
          MethodKey(Home(was, i), was[i].verb) in now && now[MethodKey(Home(was, i), was[i].verb)] == was[i].policy)
    && (forall k <- now ::
          exists i <- was :: was[i].key in done && was[i].active && k == MethodKey(Home(was, i), was[i].verb))
  }

  ghost predicate LogsDone(routes: map<nat, Route>, was: map<nat, Option<nat>>, now: map<nat, Option<nat>>,
                           done: set<Key>)
    requires forall l <- was :: was[l].Some? ==> was[l].value in routes
  {
    && now.Keys == was.Keys
    && (forall l <- was :: now[l] ==
          if was[l].Some? && routes[was[l].value].key in done then Some(Home(routes, was[l].value)) else was[l])
  }

  /** Each application keeps one grant per finished group it had grants in: on the surviving route, active
      when any of them was, and the surviving route's own grant if there was one. */
  ghost predicate GrantsDone(routes: map<nat, Route>, was: map<nat, Grant>, now: map<nat, Grant>, done: set<Key>)
    requires forall g <- was :: was[g].route in routes
  {
    && GrantRows(routes, was, now, done)
    && GrantsKept(routes, was, now, done)
    && ClaimsKept(routes, was, now)
    && OneGrantPerClaim(routes, was, now, done)
  }

  ghost predicate GrantRows(routes: map<nat, Route>, was: map<nat, Grant>, now: map<nat, Grant>, done: set<Key>)
    requires forall g <- was :: was[g].route in routes
  {
    forall g <- now :: g in was && now[g] == Regrant(routes, was, g, done)
  }

  ghost predicate GrantsKept(routes: map<nat, Route>, was: map<nat, Grant>, now: map<nat, Grant>, done: set<Key>)
    requires forall g <- was :: was[g].route in routes
  {
    forall g <- was :: routes[was[g].route].key !in done || was[g].route == Home(routes, was[g].route) ==> g in now
  }

  ghost predicate ClaimsKept(routes: map<nat, Route>, was: map<nat, Grant>, now: map<nat, Grant>)
    requires forall g <- was :: was[g].route in routes
  {
    forall g {:trigger ClaimSurvives(routes, was, now, g)} :: g in was ==> ClaimSurvives(routes, was, now, g)
  }

  ghost predicate OneGrantPerClaim(routes: map<nat, Route>, was: map<nat, Grant>, now: map<nat, Grant>, done: set<Key>)
    requires forall g <- was :: was[g].route in routes
  {
    forall g <- now, h <- now ::
      (g in was && h in was && SameClaim(routes, was, g, h) && routes[was[g].route].key in done) ==> g == h
  }

  /** Both grants are of one application, on routes of one group. */
  predicate SameClaim(routes: map<nat, Route>, was: map<nat, Grant>, g: nat, h: nat)
    requires g in was && h in was && was[g].route in routes && was[h].route in routes
  {
    was[g].app == was[h].app && routes[was[g].route].key == routes[was[h].route].key
  }

  ghost predicate ClaimSurvives(routes: map<nat, Route>, was: map<nat, Grant>, now: map<nat, Grant>, g: nat)
    requires forall h <- was :: was[h].route in routes
    requires g in was
  {
    exists h <- now :: h in was && SameClaim(routes, was, g, h)
  }

  function Regrant(routes: map<nat, Route>, was: map<nat, Grant>, g: nat, done: set<Key>): Grant
    requires g in was && was[g].route in routes
  {
    var key := routes[was[g].route].key;
    if key in done then Grant(was[g].app, Home(routes, was[g].route), AnyActive(was, was[g].app, Members(routes, key)))
    else was[g]
  }

  ghost predicate Progress(was: State, now: State, done: set<Key>)
    requires WellFormed(was)
  {
    && RoutesDone(was.routes, now.routes, done)
    && MethodsDone(was.routes, now.methods, done)
    && LogsDone(was.routes, was.logs, now.logs, done)
    && GrantsDone(was.routes, was.grants, now.grants, done)
  }

  /** The whole rewriting. */
  ghost predicate Consolidated(was: State, now: State)
    requires WellFormed(was)
  {
    Progress(was, now, AllKeys(was.routes))
  }

  function AllKeys(routes: map<nat, Route>): set<Key> {
    set i <- routes :: routes[i].key
  }
}
