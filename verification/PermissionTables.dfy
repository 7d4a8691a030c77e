/** The permission tables behind the checks: direct grants and roles held globally or in a team,
    project, container or dataset. */
module PermissionTables {
  import opened Permissions
  import opened Scopes
  import opened Wrappers

  datatype PermissionRow = PermissionRow(id: int, rule: Rule, isDeleted: bool)

  /** A row of `user_permissions`; an empty resource column means any. */
  datatype Grant = Grant(userId: int, permissionId: int, isGrant: bool, expiresAt: Option<int>,
                         project: Option<int>, container: Option<int>, dataset: Option<int>)

  /** A role held in one resource. */
  datatype Membership = Membership(userId: int, resourceId: int, roleId: int, isEnabled: bool)

  datatype RolePermission = RolePermission(roleId: int, permissionId: int)

  datatype UserRole = UserRole(userId: int, roleId: int)

  datatype Tables = Tables(
    permissions: seq<PermissionRow>,
    grants: set<Grant>,
    rolePermissions: set<RolePermission>,
    userRoles: set<UserRole>,
    teams: set<Membership>,
    projects: set<Membership>,
    containers: set<Membership>,
    datasets: set<Membership>)

  /** A grant's column fits the ID of the request. */
  predicate Fits(column: Option<int>, id: Option<int>) {
    column.None? || column == id
  }

  /** The direct grant applies to the request. */
  predicate Applies(g: Grant, userId: int, permissionId: int, r: Resources, now: int) {
    && g.userId == userId && g.permissionId == permissionId && g.isGrant
    && (g.expiresAt.None? || g.expiresAt.value > now)
    && Fits(g.project, r.project) && Fits(g.container, r.container) && Fits(g.dataset, r.dataset)
  }

  /** The role carries the permission. */
  predicate Carries(t: Tables, roleId: int, permissionId: int) {
    RolePermission(roleId, permissionId) in t.rolePermissions
  }

  /** A role in the named resource gives the permission. */
  predicate GrantedIn(t: Tables, members: set<Membership>, userId: int, permissionId: int, id: Option<int>) {
    id.Some? && exists m :: m in members && m.userId == userId && m.resourceId == id.value && m.isEnabled &&
                            RolePermission(m.roleId, permissionId) in t.rolePermissions
  }

  /** Some grant or some role gives the user the permission. */
  predicate IsGranted(t: Tables, userId: int, permissionId: int, r: Resources, now: int) {
    || (exists g :: g in t.grants && g.userId == userId && g.permissionId == permissionId && g.isGrant &&
                    (g.expiresAt.None? || g.expiresAt.value > now) && (g.project.None? || g.project == r.project) &&
                    (g.container.None? || g.container == r.container) && (g.dataset.None? || g.dataset == r.dataset))
    || (exists u :: u in t.userRoles && u.userId == userId && RolePermission(u.roleId, permissionId) in t.rolePermissions)
    || GrantedIn(t, t.teams, userId, permissionId, r.team)
    || GrantedIn(t, t.projects, userId, permissionId, r.project)
    || GrantedIn(t, t.containers, userId, permissionId, r.container)
    || GrantedIn(t, t.datasets, userId, permissionId, r.dataset)
  }

  lemma CountIsPositive<T>(rows: set<T>)
    ensures |rows| > 0 <==> exists x :: x in rows
  {
    if |rows| > 0 {
      var x :| x in rows;
    }
  }

  method CountMembers(t: Tables, members: set<Membership>, userId: int, permissionId: int, id: int) returns (n: nat)
    ensures n > 0 <==> GrantedIn(t, members, userId, permissionId, Some(id))
  {
    var rows := set m | m in members && m.userId == userId && m.resourceId == id && m.isEnabled &&
                        Carries(t, m.roleId, permissionId);
    CountIsPositive(rows);
    assert forall m :: m in rows <==> m in members && m.userId == userId && m.resourceId == id && m.isEnabled &&
                                      Carries(t, m.roleId, permissionId);
    n := |rows|;
  }

  /** `checkUserHasPermission`: the union of subqueries grows with each ID supplied, and its rows
      are counted. */
  method CheckUserHasPermission(t: Tables, userId: int, permissionId: int, r: Resources, now: int) returns (granted: bool)
    ensures granted == IsGranted(t, userId, permissionId, r, now)
  {
    var direct := set g | g in t.grants && Applies(g, userId, permissionId, r, now);
    var global := set u | u in t.userRoles && u.userId == userId && Carries(t, u.roleId, permissionId);
    CountIsPositive(direct);
    CountIsPositive(global);
    assert forall g :: g in direct <==> g in t.grants && Applies(g, userId, permissionId, r, now);
    assert forall u :: u in global <==> u in t.userRoles && u.userId == userId && Carries(t, u.roleId, permissionId);
    var count := |direct| + |global|;
    if r.team.Some? {
      var n := CountMembers(t, t.teams, userId, permissionId, r.team.value);
      count := count + n;
    }
    if r.project.Some? {
      var n := CountMembers(t, t.projects, userId, permissionId, r.project.value);
      count := count + n;
    }
    if r.container.Some? {
      var n := CountMembers(t, t.containers, userId, permissionId, r.container.value);
      count := count + n;
    }
    if r.dataset.Some? {
      var n := CountMembers(t, t.datasets, userId, permissionId, r.dataset.value);
      count := count + n;
    }
    return count > 0;
  }

  /** The ID is that of the first row for the rule that is not deleted. */
  predicate IsFirstRow(rows: seq<PermissionRow>, rule: Rule, id: int) {
    exists i :: 0 <= i < |rows| && rows[i] == PermissionRow(id, rule, false) &&
                forall j :: 0 <= j < i ==> rows[j].rule != rule || rows[j].isDeleted
  }

  lemma FirstRowBelow(rows: seq<PermissionRow>, rule: Rule)
    ensures rows != [] && rows[0].rule == rule && !rows[0].isDeleted ==> IsFirstRow(rows, rule, rows[0].id)
    ensures rows != [] && (rows[0].rule != rule || rows[0].isDeleted) ==>
      forall id :: IsFirstRow(rows[1..], rule, id) ==> IsFirstRow(rows, rule, id)
  {
    if rows != [] {
      assert rows[0].rule == rule && !rows[0].isDeleted ==> rows[0] == PermissionRow(rows[0].id, rule, false);
      forall id: int | IsFirstRow(rows[1..], rule, id) && (rows[0].rule != rule || rows[0].isDeleted) ensures IsFirstRow(rows, rule, id) {
        var i :| 0 <= i < |rows[1..]| && rows[1..][i] == PermissionRow(id, rule, false) &&
                 forall j :: 0 <= j < i ==> rows[1..][j].rule != rule || rows[1..][j].isDeleted;
        assert rows[i + 1] == PermissionRow(id, rule, false);
        assert forall j :: 0 < j < i + 1 ==> rows[j] == rows[1..][j - 1];
      }
    }
  }

  /** The first permission row for the rule that is not deleted. */
  function FindPermission(rows: seq<PermissionRow>, rule: Rule): (r: Option<int>)
    ensures r.None? <==> forall i :: 0 <= i < |rows| ==> rows[i].rule != rule || rows[i].isDeleted
    ensures r.Some? ==> IsFirstRow(rows, rule, r.value)
  {
    FirstRowBelow(rows, rule);
    if rows == [] then None
    else if rows[0].rule == rule && !rows[0].isDeleted then Some(rows[0].id)
    else FindPermission(rows[1..], rule)
  }

  /** `CheckUserPermission`. */
  function CheckUserPermission(t: Tables, userId: int, rule: Rule, r: Resources, now: int): Answer {
    if userId <= 0 || rule.action == "" || rule.resource == "" then Failed
    else match FindPermission(t.permissions, rule)
         case None => No
         case Some(id) => if IsGranted(t, userId, id, r, now) then Yes else No
  }

  /** Bad input is an error; otherwise yes exactly if the first live row for the rule is granted. */
  lemma PermissionCheckDecides(t: Tables, userId: int, rule: Rule, r: Resources, now: int)
    ensures CheckUserPermission(t, userId, rule, r, now) == Failed <==> userId <= 0 || rule.action == "" || rule.resource == ""
    ensures CheckUserPermission(t, userId, rule, r, now) == Yes <==>
      userId > 0 && rule.action != "" && rule.resource != "" &&
      exists id :: IsFirstRow(t.permissions, rule, id) && IsGranted(t, userId, id, r, now)
  {
    var found := FindPermission(t.permissions, rule);
    forall id | IsFirstRow(t.permissions, rule, id) ensures found == Some(id) {
    }
  }

  /** `b` supplies every ID that `a` supplies, and perhaps more. */
  predicate Supplies(b: Resources, a: Resources) {
    && (a.team.Some? ==> b.team == a.team) && (a.project.Some? ==> b.project == a.project)
    && (a.container.Some? ==> b.container == a.container) && (a.dataset.Some? ==> b.dataset == a.dataset)
  }

  lemma MoreIdsKeepGrants(t: Tables, userId: int, permissionId: int, a: Resources, b: Resources, now: int)
    requires Supplies(b, a) && IsGranted(t, userId, permissionId, a, now)
    ensures IsGranted(t, userId, permissionId, b, now)
  {
  }

  /** Supplying more resource IDs never turns a yes into a no, for any check. */
  lemma MoreIdsKeepPermissions(t: Tables, now: int, c: Checker, ctx: Context, more: Resources, check: Check)
    requires forall userId, rule, r :: c.permission(userId, rule, r) == CheckUserPermission(t, userId, rule, r, now)
    requires Supplies(more, ctx.resources) && Decide(ctx, c, check) == Yes
    ensures Decide(ctx.(resources := more), c, check) == Yes
  {
    var ctx' := ctx.(resources := more);
    forall rule: Rule | c.permission(ctx.userId, rule, ctx.resources) == Yes
      ensures c.permission(ctx'.userId, rule, more) == Yes
    {
      MoreIdsKeepGrants(t, ctx.userId, FindPermission(t.permissions, rule).value, ctx.resources, more, now);
    }
    forall rule | ScopeAllows(ctx, rule) ensures ScopeAllows(ctx', rule) {
      assert ctx'.scopes == ctx.scopes;
    }
    DecisionsAreMonotone(ctx', ctx, c, check);
  }
}
