/**
 * The client-side route guard: which pages a stored user may open, compared
 * with the server's role check.
 */
module ProtectedRoute {
  import opened Wrappers
  import Auth

  datatype Route = ToLogin | ToHome | Render

  /**
   * No stored user goes to the login page; a non-empty role list that does not
   * hold the user's role goes to the home page; otherwise the page is rendered.
   * An empty role list admits every signed-in user.
   */
  function Decide(userRole: Option<string>, allowedRoles: seq<string>): (r: Route)
    ensures r == ToLogin <==> userRole.None?
    ensures r == ToHome <==> userRole.Some? && |allowedRoles| > 0 && userRole.value !in allowedRoles
    ensures r == Render <==> userRole.Some? && (|allowedRoles| == 0 || userRole.value in allowedRoles)
  {
    if userRole.None? then ToLogin
    else if |allowedRoles| > 0 && userRole.value !in allowedRoles then ToHome
    else Render
  }

  /**
   * With a non-empty role list the guard agrees with the server's `authorize`:
   * the page renders exactly when the server lets the same user through, and
   * goes to login exactly when the server answers 401.
   */
  lemma {:induction false} AgreesWithAuthorize(id: string, userRole: Option<string>, allowedRoles: seq<string>)
    requires |allowedRoles| > 0
    ensures var user := if userRole.Some? then Some(Auth.Claims(id, userRole.value)) else None;
      (Decide(userRole, allowedRoles) == Render <==> Auth.Authorize(user, allowedRoles).Pass?) &&
      (Decide(userRole, allowedRoles) == ToLogin <==> Auth.Authorize(user, allowedRoles) == Auth.Deny(401, "Not authorized")) &&
      (Decide(userRole, allowedRoles) == ToHome <==> Auth.Authorize(user, allowedRoles) == Auth.Deny(403, "Forbidden"))
  {
    if userRole.None? {
      assert Auth.Authorize(None, allowedRoles) == Auth.Deny(401, "Not authorized");
    } else {
      var user := Auth.Claims(id, userRole.value);
      assert Auth.Authorize(Some(user), allowedRoles).Pass? <==> userRole.value in allowedRoles;
    }
  }

  /** With an empty role list the page renders for any signed-in user, where `authorize` with no roles refuses everyone. */
  lemma EmptyRolesDiffer(id: string, role: string)
    ensures Decide(Some(role), []) == Render
    ensures Auth.Authorize(Some(Auth.Claims(id, role)), []) == Auth.Deny(403, "Forbidden")
  {
  }
}
