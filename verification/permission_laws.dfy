/** Who may call what, in terms of grant rows alone (apps/authentication/models.py). */
module PermissionLaws {
  import opened Authorization

  /** The application has a grant row of any kind. */
  predicate HasRow(grants: map<nat, Grant>, app: nat) { exists g <- grants :: grants[g].app == app }

  /** An active grant row of the application names the route. */
  predicate ActiveRow(grants: map<nat, Grant>, app: nat, route: nat) {
    exists g <- grants :: grants[g].app == app && grants[g].active && grants[g].route == route
  }

  /** has_permission: an active application of the route's project without any grant row may call every route, one
      with rows those that an active row names. */
  lemma PermissionExactly(id: nat, application: Application, grants: map<nat, Grant>, route: nat, project: nat)
    ensures HasPermission(id, application, grants, route, project) <==>
            && application.active && application.project == project
            && (HasRow(grants, id) ==> ActiveRow(grants, id, route))
  {
  }

  /** Nobody else's rows matter. */
  lemma OwnRowsOnly(id: nat, application: Application, grants: map<nat, Grant>, others: map<nat, Grant>, route: nat,
                    project: nat)
    requires forall g <- grants :: grants[g].app == id ==> g in others && others[g] == grants[g]
    requires forall g <- others :: others[g].app == id ==> g in grants && grants[g] == others[g]
    ensures HasPermission(id, application, grants, route, project) <==>
        HasPermission(id, application, others, route, project)
  {
    assert HasRow(grants, id) <==> HasRow(others, id);
    assert ActiveRow(grants, id, route) <==> ActiveRow(others, id, route);
    PermissionExactly(id, application, grants, route, project);
    PermissionExactly(id, application, others, route, project);
  }
}
