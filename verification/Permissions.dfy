/** Permission checks of the HTTP middleware: API key scopes in front of the permission tables. */
module Permissions {
  import opened Scopes
  import opened Wrappers

  datatype Answer = Yes | No | Failed

  /** The IDs that the URL of a request supplies. */
  datatype Resources = Resources(team: Option<int>, project: Option<int>, container: Option<int>, dataset: Option<int>)

  datatype Context = Context(userId: int, isAdmin: bool, isApiKey: bool, scopes: seq<string>, resources: Resources)

  /** The service behind the checks; every answer may also be a failure. */
  datatype Checker = Checker(
    permission: (int, Rule, Resources) -> Answer,
    teamAdmin: (int, int) -> Answer,
    inTeam: (int, int) -> Answer,
    teamPublic: int -> Answer,
    projectAdmin: (int, int) -> Answer,
    inProject: (int, int) -> Answer)

  /** The same user with a session instead of an API key. */
  function Session(ctx: Context): Context {
    ctx.(isApiKey := false)
  }

  // ---------------------------------------------------------------------------
  // Scopes
  // ---------------------------------------------------------------------------

  /** `scopeAllowsPermission`. */
  predicate ScopeAllows(ctx: Context, rule: Rule) {
    !ctx.isApiKey || exists i :: 0 <= i < |ctx.scopes| && Matches(ctx.scopes[i], PrintRule(rule))
  }

  predicate ScopeAllowsAny(ctx: Context, rules: seq<Rule>) {
    exists i :: 0 <= i < |rules| && ScopeAllows(ctx, rules[i])
  }

  method CheckScope(ctx: Context, rule: Rule) returns (r: bool)
    ensures r == ScopeAllows(ctx, rule)
    ensures r <==> !ctx.isApiKey || exists i :: 0 <= i < |ctx.scopes| && Matches(ctx.scopes[i], PrintRule(rule))
  {
    if !ctx.isApiKey {
      return true;
    }
    for i := 0 to |ctx.scopes|
      invariant forall j :: 0 <= j < i ==> !Matches(ctx.scopes[j], PrintRule(rule))
    {
      var matches := ScopeMatchesTarget(ctx.scopes[i], PrintRule(rule));
      if matches {
        return true;
      }
    }
    return false;
  }

  // ---------------------------------------------------------------------------
  // Check builders
  // ---------------------------------------------------------------------------

  datatype Check =
    | Single(rule: Rule)
    | Any(rules: seq<Rule>)
    | All(rules: seq<Rule>)
    | TeamAccess(requireAdmin: bool)
    | ProjectAccess(requireAdmin: bool)
    | Ownership(owner: Owner)
    | AdminOrOwnership(owner: Owner)

  /** What the lookup of a resource's owner gave. */
  datatype Owner = LookupFailed | NoOwner | Owner(id: int)

  const TEAM_READ := Rule("team", "read", "all")
  const TEAM_MANAGE := Rule("team", "manage", "all")
  const PROJECT_READ := Rule("project", "read", "all")
  const PROJECT_MANAGE := Rule("project", "manage", "all")

  /** Scope first, then the tables. */
  function CheckOne(ctx: Context, c: Checker, rule: Rule): Answer {
    if !ScopeAllows(ctx, rule) then No else c.permission(ctx.userId, rule, ctx.resources)
  }

  /** Any rule will do; a rule whose check fails is passed over. */
  function CheckAny(ctx: Context, c: Checker, rules: seq<Rule>): Answer {
    if rules == [] then No
    else if CheckOne(ctx, c, rules[0]) == Yes then Yes
    else CheckAny(ctx, c, rules[1..])
  }

  /** The first rule that is not granted decides. */
  function CheckAll(ctx: Context, c: Checker, rules: seq<Rule>): Answer {
    if rules == [] then Yes
    else
      var first := CheckOne(ctx, c, rules[0]);
      if first != Yes then first else CheckAll(ctx, c, rules[1..])
  }

  function TeamScopes(requireAdmin: bool): seq<Rule> {
    if requireAdmin then [TEAM_MANAGE] else [TEAM_READ, TEAM_MANAGE]
  }

  function ProjectScopes(requireAdmin: bool): seq<Rule> {
    if requireAdmin then [PROJECT_MANAGE] else [PROJECT_READ, PROJECT_MANAGE]
  }

  function CheckOwner(ctx: Context, owner: Owner): Answer {
    if !owner.Owner? then Failed else if ctx.userId == owner.id then Yes else No
  }

  function Decide(ctx: Context, c: Checker, check: Check): Answer {
    match check
    case Ownership(owner) => CheckOwner(ctx, owner)
    case AdminOrOwnership(owner) => if ctx.isAdmin then Yes else CheckOwner(ctx, owner)
    case Single(rule) => CheckOne(ctx, c, rule)
    case Any(rules) => CheckAny(ctx, c, rules)
    case All(rules) => CheckAll(ctx, c, rules)
    case TeamAccess(requireAdmin) =>
      if ctx.resources.team.None? then Failed
      else if !ScopeAllowsAny(ctx, TeamScopes(requireAdmin)) then No
      else if ctx.isAdmin then Yes
      else
        var team := ctx.resources.team.value;
        if requireAdmin then c.teamAdmin(ctx.userId, team)
        else if c.inTeam(ctx.userId, team) == Yes || c.teamPublic(team) == Yes then Yes
        else No
    case ProjectAccess(requireAdmin) =>
      if ctx.resources.project.None? then Failed
      else if !ScopeAllowsAny(ctx, ProjectScopes(requireAdmin)) then No
      else if ctx.isAdmin then Yes
      else
        var project := ctx.resources.project.value;
        if requireAdmin then c.projectAdmin(ctx.userId, project) else c.inProject(ctx.userId, project)
  }

  /** The rule is in scope, for an API key, and the tables grant it. */
  ghost predicate IsGranted(ctx: Context, c: Checker, rule: Rule) {
    && (!ctx.isApiKey || exists j :: 0 <= j < |ctx.scopes| && Matches(ctx.scopes[j], PrintRule(rule)))
    && c.permission(ctx.userId, rule, ctx.resources) == Yes
  }

  /** The rule is in scope, and looking it up fails. */
  ghost predicate Breaks(ctx: Context, c: Checker, rule: Rule) {
    && (!ctx.isApiKey || exists j :: 0 <= j < |ctx.scopes| && Matches(ctx.scopes[j], PrintRule(rule)))
    && c.permission(ctx.userId, rule, ctx.resources) == Failed
  }

  /** `singlePermission`. */
  method SinglePermission(ctx: Context, c: Checker, rule: Rule) returns (r: Answer)
    ensures r == Decide(ctx, c, Single(rule))
    ensures r == Yes <==> IsGranted(ctx, c, rule)
    ensures r == Failed <==> Breaks(ctx, c, rule)
  {
    var inScope := CheckScope(ctx, rule);
    if !inScope {
      return No;
    }
    return c.permission(ctx.userId, rule, ctx.resources);
  }

  /** The loops of `anyPermission` and `allPermissions`. */
  method AnyPermission(ctx: Context, c: Checker, rules: seq<Rule>) returns (r: Answer)
    ensures r == CheckAny(ctx, c, rules)
    ensures r != Failed && (r == Yes <==> exists i :: 0 <= i < |rules| && IsGranted(ctx, c, rules[i]))
  {
    GrantedMeansYes(ctx, c, rules);
    AnyMeansSome(ctx, c, rules);
    for i := 0 to |rules|
      invariant CheckAny(ctx, c, rules) == CheckAny(ctx, c, rules[i..])
    {
      assert rules[i..][1..] == rules[i + 1..];
      var inScope := CheckScope(ctx, rules[i]);
      if !inScope {
        continue;
      }
      var granted := c.permission(ctx.userId, rules[i], ctx.resources);
      if granted == Failed {
        continue;
      }
      if granted == Yes {
        return Yes;
      }
    }
    return No;
  }

  method AllPermissions(ctx: Context, c: Checker, rules: seq<Rule>) returns (r: Answer)
    ensures r == CheckAll(ctx, c, rules)
    ensures r == Yes <==> forall i :: 0 <= i < |rules| ==> IsGranted(ctx, c, rules[i])
    ensures r == Failed <==> exists i :: 0 <= i < |rules| && Breaks(ctx, c, rules[i]) && forall j :: 0 <= j < i ==> IsGranted(ctx, c, rules[j])
  {
    AllFailsAtTheFirst(ctx, c, rules);
    GrantedMeansYes(ctx, c, rules);
    AllMeansEvery(ctx, c, rules);
    for i := 0 to |rules|
      invariant CheckAll(ctx, c, rules) == CheckAll(ctx, c, rules[i..])
    {
      assert rules[i..][1..] == rules[i + 1..];
      var inScope := CheckScope(ctx, rules[i]);
      if !inScope {
        return No;
      }
      var granted := c.permission(ctx.userId, rules[i], ctx.resources);
      if granted != Yes {
        return granted;
      }
    }
    return Yes;
  }

  // ---------------------------------------------------------------------------
  // What the checks decide
  // ---------------------------------------------------------------------------

  /** An error is passed on exactly if it comes before any refusal. */
  lemma {:induction false} AllFailsAtTheFirst(ctx: Context, c: Checker, rules: seq<Rule>)
    ensures CheckAll(ctx, c, rules) == Failed <==>
      exists i :: 0 <= i < |rules| && Breaks(ctx, c, rules[i]) && forall j :: 0 <= j < i ==> IsGranted(ctx, c, rules[j])
    decreases |rules|
  {
    if rules != [] {
      var rest := rules[1..];
      AllFailsAtTheFirst(ctx, c, rest);
      if i :| 0 <= i < |rest| && Breaks(ctx, c, rest[i]) && forall j :: 0 <= j < i ==> IsGranted(ctx, c, rest[j]) {
        assert Breaks(ctx, c, rules[i + 1]);
        assert IsGranted(ctx, c, rules[0]) ==> forall j :: 0 <= j < i + 1 ==> IsGranted(ctx, c, rules[j]) by {
          assert forall j :: 0 < j < i + 1 ==> rules[j] == rest[j - 1];
        }
      }
      if i :| 0 <= i < |rules| && Breaks(ctx, c, rules[i]) && forall j :: 0 <= j < i ==> IsGranted(ctx, c, rules[j]) {
        assert i > 0 ==> Breaks(ctx, c, rest[i - 1]);
        assert forall j :: 0 <= j < i - 1 ==> rest[j] == rules[j + 1];
      }
    }
  }

  lemma GrantedMeansYes(ctx: Context, c: Checker, rules: seq<Rule>)
    ensures forall i :: 0 <= i < |rules| ==> (IsGranted(ctx, c, rules[i]) <==> CheckOne(ctx, c, rules[i]) == Yes)
  {
  }

  lemma {:induction false} AnyMeansSome(ctx: Context, c: Checker, rules: seq<Rule>)
    ensures CheckAny(ctx, c, rules) == Yes <==> exists i :: 0 <= i < |rules| && CheckOne(ctx, c, rules[i]) == Yes
    ensures CheckAny(ctx, c, rules) != Failed
    decreases |rules|
  {
    if rules != [] {
      AnyMeansSome(ctx, c, rules[1..]);
      if i :| 0 <= i < |rules| && CheckOne(ctx, c, rules[i]) == Yes {
        assert i > 0 ==> rules[1..][i - 1] == rules[i];
      }
      if i :| 0 <= i < |rules[1..]| && CheckOne(ctx, c, rules[1..][i]) == Yes {
        assert rules[i + 1] == rules[1..][i];
      }
    }
  }

  lemma {:induction false} AllMeansEvery(ctx: Context, c: Checker, rules: seq<Rule>)
    ensures CheckAll(ctx, c, rules) == Yes <==> forall i :: 0 <= i < |rules| ==> CheckOne(ctx, c, rules[i]) == Yes
    decreases |rules|
  {
    if rules != [] {
      AllMeansEvery(ctx, c, rules[1..]);
      if forall i :: 0 <= i < |rules[1..]| ==> CheckOne(ctx, c, rules[1..][i]) == Yes {
        forall i | 0 < i < |rules| ensures CheckOne(ctx, c, rules[i]) == Yes {
          assert rules[i] == rules[1..][i - 1];
        }
      }
      if forall i :: 0 <= i < |rules| ==> CheckOne(ctx, c, rules[i]) == Yes {
        forall i | 0 <= i < |rules[1..]| ensures CheckOne(ctx, c, rules[1..][i]) == Yes {
          assert rules[1..][i] == rules[i + 1];
        }
      }
    }
  }

  /** One context sees at least what another does: every rule in the other's scope is in its
      scope, and every table that grants the other grants it. */
  ghost predicate AtLeast(a: Context, b: Context, c: Checker) {
    && a.userId == b.userId && (b.isAdmin ==> a.isAdmin)
    && (b.resources.team.Some? ==> a.resources.team == b.resources.team)
    && (b.resources.project.Some? ==> a.resources.project == b.resources.project)
    && (forall rule :: ScopeAllows(b, rule) ==> ScopeAllows(a, rule))
    && forall rule: Rule :: c.permission(b.userId, rule, b.resources) == Yes ==> c.permission(a.userId, rule, a.resources) == Yes
  }

  /** Whatever the lesser context may do, the greater one may do. */
  lemma DecisionsAreMonotone(a: Context, b: Context, c: Checker, check: Check)
    requires AtLeast(a, b, c) && Decide(b, c, check) == Yes
    ensures Decide(a, c, check) == Yes
  {
    match check
    case Ownership(_) =>
    case AdminOrOwnership(_) =>
    case Single(_) =>
    case Any(rules) =>
      AnyMeansSome(a, c, rules);
      AnyMeansSome(b, c, rules);
    case All(rules) =>
      AllMeansEvery(a, c, rules);
      AllMeansEvery(b, c, rules);
    case TeamAccess(requireAdmin) =>
      ScopesAllowMore(a, b, c, TeamScopes(requireAdmin));
    case ProjectAccess(requireAdmin) =>
      ScopesAllowMore(a, b, c, ProjectScopes(requireAdmin));
  }

  lemma ScopesAllowMore(a: Context, b: Context, c: Checker, rules: seq<Rule>)
    requires AtLeast(a, b, c) && ScopeAllowsAny(b, rules)
    ensures ScopeAllowsAny(a, rules)
  {
    var i :| 0 <= i < |rules| && ScopeAllows(b, rules[i]);
    assert ScopeAllows(a, rules[i]);
  }

  /** API key scopes only restrict: what passes with the key passes with a session. */
  lemma ScopesOnlyRestrict(ctx: Context, c: Checker, check: Check)
    requires Decide(ctx, c, check) == Yes
    ensures Decide(Session(ctx), c, check) == Yes
  {
    DecisionsAreMonotone(Session(ctx), ctx, c, check);
  }

  /** More scopes never take a permission away; nor does replacing a scope by one that matches
      at least as much. */
  lemma WiderScopesKeepPermissions(ctx: Context, wider: seq<string>, c: Checker, check: Check)
    requires Decide(ctx, c, check) == Yes
    requires forall i, target :: 0 <= i < |ctx.scopes| && Matches(ctx.scopes[i], target) ==>
               exists j :: 0 <= j < |wider| && Matches(wider[j], target)
    ensures Decide(ctx.(scopes := wider), c, check) == Yes
  {
    DecisionsAreMonotone(ctx.(scopes := wider), ctx, c, check);
  }

  /** A longer list of alternatives, or a shorter list of demands, never turns a yes into a no. */
  lemma LongerListsAreMonotone(ctx: Context, c: Checker, rules: seq<Rule>, more: seq<Rule>)
    requires forall i :: 0 <= i < |rules| ==> rules[i] in more
    ensures CheckAny(ctx, c, rules) == Yes ==> CheckAny(ctx, c, more) == Yes
    ensures CheckAll(ctx, c, more) == Yes ==> CheckAll(ctx, c, rules) == Yes
  {
    AnyMeansSome(ctx, c, rules);
    AnyMeansSome(ctx, c, more);
    AllMeansEvery(ctx, c, rules);
    AllMeansEvery(ctx, c, more);
    if i :| 0 <= i < |rules| && CheckOne(ctx, c, rules[i]) == Yes {
      var j :| 0 <= j < |more| && more[j] == rules[i];
    }
  }

  /** The rules that a check is about. */
  function RulesOf(check: Check): seq<Rule> {
    match check
    case Single(rule) => [rule]
    case Any(rules) => rules
    case All(rules) => rules
    case TeamAccess(true) => [Rule("team", "manage", "all")]
    case TeamAccess(false) => [Rule("team", "read", "all"), Rule("team", "manage", "all")]
    case ProjectAccess(true) => [Rule("project", "manage", "all")]
    case ProjectAccess(false) => [Rule("project", "read", "all"), Rule("project", "manage", "all")]
    case Ownership(_) => []
    case AdminOrOwnership(_) => []
  }

  /** An API key none of whose scopes matches a rule of the check gets no yes, whatever the tables
      say and even if its owner is an administrator. */
  lemma OutOfScopeKeysAreRefused(ctx: Context, c: Checker, check: Check)
    requires ctx.isApiKey && RulesOf(check) != []
    requires forall i, j :: 0 <= i < |RulesOf(check)| && 0 <= j < |ctx.scopes| ==> !Matches(ctx.scopes[j], PrintRule(RulesOf(check)[i]))
    ensures Decide(ctx, c, check) != Yes
  {
    var rules := RulesOf(check);
    assert !ScopeAllows(ctx, rules[0]);
    match check
    case Any(_) => AnyMeansSome(ctx, c, rules);
    case All(_) => AllMeansEvery(ctx, c, rules);
    case TeamAccess(requireAdmin) => assert TeamScopes(requireAdmin) == rules;
    case ProjectAccess(requireAdmin) => assert ProjectScopes(requireAdmin) == rules;
    case _ =>
  }

  /** Some scope of the key, or a session, reaches a rule of the check. */
  ghost predicate IsInReach(ctx: Context, check: Check) {
    !ctx.isApiKey || exists i, j :: 0 <= i < |RulesOf(check)| && 0 <= j < |ctx.scopes| && Matches(ctx.scopes[j], PrintRule(RulesOf(check)[i]))
  }

  lemma ReachIsScope(ctx: Context, check: Check, rules: seq<Rule>)
    requires rules == RulesOf(check) && rules != []
    ensures ScopeAllowsAny(ctx, rules) <==> IsInReach(ctx, check)
  {
    if !ctx.isApiKey {
      assert ScopeAllows(ctx, rules[0]);
    }
    if ctx.isApiKey && ScopeAllowsAny(ctx, rules) {
      var i :| 0 <= i < |rules| && ScopeAllows(ctx, rules[i]);
    }
  }

  /** Team access: an administrator, or the service's word on the admin, the member or the public
      team, as the check demands; a failed look-up of a member or of a public team is no error. */
  lemma TeamAccessDecides(ctx: Context, c: Checker, requireAdmin: bool)
    ensures Decide(ctx, c, TeamAccess(requireAdmin)) == Yes <==>
      && ctx.resources.team.Some? && IsInReach(ctx, TeamAccess(requireAdmin))
      && (|| ctx.isAdmin
          || (requireAdmin && c.teamAdmin(ctx.userId, ctx.resources.team.value) == Yes)
          || (!requireAdmin && c.inTeam(ctx.userId, ctx.resources.team.value) == Yes)
          || (!requireAdmin && c.teamPublic(ctx.resources.team.value) == Yes))
    ensures Decide(ctx, c, TeamAccess(requireAdmin)) == Failed <==>
      || ctx.resources.team.None?
      || (&& requireAdmin && IsInReach(ctx, TeamAccess(requireAdmin)) && !ctx.isAdmin
          && c.teamAdmin(ctx.userId, ctx.resources.team.value) == Failed)
  {
    ReachIsScope(ctx, TeamAccess(requireAdmin), TeamScopes(requireAdmin));
  }

  /** Project access: likewise, with membership where no administrator is demanded. */
  lemma ProjectAccessDecides(ctx: Context, c: Checker, requireAdmin: bool)
    ensures Decide(ctx, c, ProjectAccess(requireAdmin)) == Yes <==>
      && ctx.resources.project.Some? && IsInReach(ctx, ProjectAccess(requireAdmin))
      && (|| ctx.isAdmin
          || (requireAdmin && c.projectAdmin(ctx.userId, ctx.resources.project.value) == Yes)
          || (!requireAdmin && c.inProject(ctx.userId, ctx.resources.project.value) == Yes))
    ensures Decide(ctx, c, ProjectAccess(requireAdmin)) == Failed <==>
      || ctx.resources.project.None?
      || (&& IsInReach(ctx, ProjectAccess(requireAdmin)) && !ctx.isAdmin
          && (if requireAdmin then c.projectAdmin(ctx.userId, ctx.resources.project.value)
              else c.inProject(ctx.userId, ctx.resources.project.value)) == Failed)
  {
    ReachIsScope(ctx, ProjectAccess(requireAdmin), ProjectScopes(requireAdmin));
  }

  /** Ownership: the owner, or with the second check an administrator; an unknown owner is an error. */
  lemma OwnershipDecides(ctx: Context, c: Checker, owner: Owner)
    ensures Decide(ctx, c, Ownership(owner)) == Yes <==> owner == Owner(ctx.userId)
    ensures Decide(ctx, c, AdminOrOwnership(owner)) == Yes <==> ctx.isAdmin || owner == Owner(ctx.userId)
    ensures Decide(ctx, c, Ownership(owner)) == Failed <==> !owner.Owner?
    ensures Decide(ctx, c, AdminOrOwnership(owner)) == Failed <==> !ctx.isAdmin && !owner.Owner?
  {
  }
}
