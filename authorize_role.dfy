/**
 * The `[AuthorizeRole(...)]` filter: an unauthenticated request gets 401,
 * a signed-in user whose "Ruolo" claim (the plain user role when missing)
 * is not one of the allowed roles gets 403, and anyone else goes through
 * with no result set.
 */
module AuthorizeRole {
  import opened Wrappers
  import opened Entities
  import opened Claims
  import Admin

  /** The two results the filter can set. */
  datatype FilterResult = UnauthorizedResult | ForbidResult

  /** The filter's view of `AuthorizationFilterContext`: the request's user
      (absent when there is none) and the result the filter may set. */
  class AuthorizationContext {
    const user: Option<Principal>
    var result: Option<FilterResult>

    constructor (user: Option<Principal>)
      ensures this.user == user && result.None?
    {
      this.user := user;
      result := None;
    }
  }

  /** What the filter decides for a user: a result to set, or `None` to let
      the request through. */
  function Decision(allowed: seq<string>, user: Option<Principal>): (r: Option<FilterResult>)
  {
    if user.None? || !user.value.authenticated then Some(UnauthorizedResult)
    else if RoleOf(user.value) in allowed then None
    else Some(ForbidResult)
  }

  /** The scan over the allowed roles, with its flag and its early exit. */
  method HasRole(allowed: seq<string>, role: string) returns (hasRole: bool)
    ensures hasRole <==> role in allowed
  {
    hasRole := false;
    var i := 0;
    while i < |allowed|
      invariant 0 <= i <= |allowed|
      invariant !hasRole && role !in allowed[..i]
    {
      if allowed[i] == role {
        hasRole := true;
        assert allowed[i] in allowed;
        break;
      }
      i := i + 1;
    }
    assert allowed[..|allowed|] == allowed;
  }

  /** `OnAuthorization`: the result is set exactly when the decision sets
      one; a request that passes keeps whatever result it had. */
  method OnAuthorization(allowed: seq<string>, context: AuthorizationContext)
    modifies context
    ensures Decision(allowed, context.user).Some? ==> context.result == Decision(allowed, context.user)
    ensures Decision(allowed, context.user).None? ==> context.result == old(context.result)
  {
    var user := context.user;
    if user.None? || !user.value.authenticated {
      context.result := Some(UnauthorizedResult);
      return;
    }
    var userRole := RoleOf(user.value);
    var hasRole := HasRole(allowed, userRole);
    if !hasRole {
      context.result := Some(ForbidResult);
    }
  }

  /** The three outcomes: 401 exactly for a missing or unauthenticated
      user, 403 exactly for a signed-in user whose role (the plain user role
      when the claim is missing) is not listed, no result otherwise. */
  lemma DecisionSpec(allowed: seq<string>, user: Option<Principal>)
    ensures Decision(allowed, user) == Some(UnauthorizedResult) <==> user.None? || !user.value.authenticated
    ensures Decision(allowed, user) == Some(ForbidResult) <==>
      user.Some? && user.value.authenticated && user.value.ruolo.GetOr(RoleUser) !in allowed
    ensures Decision(allowed, user).None? <==>
      user.Some? && user.value.authenticated && user.value.ruolo.GetOr(RoleUser) in allowed
  {
  }

  /** With no allowed roles nobody gets through. */
  lemma NoRolesForbidsEveryone(user: Option<Principal>)
    ensures Decision([], user).Some?
  {
  }

  /** A missing role claim counts as the plain user role, so a filter
      allowing "User" lets it through and one that does not forbids it. */
  lemma MissingClaimIsPlainUser(allowed: seq<string>, user: Principal)
    requires user.authenticated && user.ruolo.None?
    ensures Decision(allowed, Some(user)).None? <==> RoleUser in allowed
  {
  }

  /** The roles compare exactly: the claim "admin" does not pass a filter
      that allows only "Admin". */
  lemma RolesCompareExactly(user: Principal)
    requires user.authenticated && user.ruolo == Some("admin")
    ensures Decision([RoleAdmin], Some(user)) == Some(ForbidResult)
  {
    assert "admin"[0] != RoleAdmin[0];
  }

  /** The filter allowing Admin and SuperAdmin lets through exactly the
      users the admin pages' own check accepts. */
  lemma AdminFilterMatchesAdminCheck(user: Principal)
    ensures Decision([RoleAdmin, RoleSuperAdmin], Some(user)).None? <==> Admin.IsAdmin(user)
  {
  }
}
