/** Applications, their plans and route grants, and method policies (apps/authentication/models.py,
    apps/routes/models.py). */
module Authorization {

  datatype Application = Application(project: nat, plan: string, active: bool)

  /** The authentication policy of a route method. */
  datatype Policy = ApiKeyOnly | ApiKeyAndJwt

  datatype Grant = Grant(app: nat, route: nat, active: bool)

  /** Some active grant of the application names the route. */
  predicate Granted(grants: map<nat, Grant>, app: nat, route: nat) {
    exists g <- grants :: grants[g].app == app && grants[g].route == route && grants[g].active
  }

  predicate Ungranted(grants: map<nat, Grant>, app: nat) {
    forall g <- grants :: grants[g].app != app
  }

  /** Application.has_permission: without any grant row every route of the project is open. */
  predicate HasPermission(id: nat, application: Application, grants: map<nat, Grant>, route: nat, routeProject: nat) {
    && routeProject == application.project && application.active
    && (Ungranted(grants, id) || Granted(grants, id, route))
  }

  datatype RateLimit = RateLimit(limit: nat, window: nat)

  /** Application.resolved_rate_limit: an unknown plan is treated as the normal one. */
  function ResolvedRateLimit(application: Application): (r: RateLimit)
    ensures r.window == 60
    ensures r.limit == 1000 <==> application.plan == "premium"
    ensures r.limit == 100 <==> application.plan != "premium"
  {
    if application.plan == "premium" then RateLimit(1000, 60) else RateLimit(100, 60)
  }
}
