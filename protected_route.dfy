/** The route guard wrapped around every signed-in page. */
module ProtectedRoute {
  import opened Optional
  import opened ClientTypes

  /** What the guard renders. */
  datatype View = LoadingScreen | Redirect(path: string) | Children

  const LoginPath := "/login"
  const AdminHome := "/admin/users"
  const PlayerHome := "/"

  /** The guard's decision from the auth state and the route's `requiredRole`. */
  function Guard(loading: bool, isAuthenticated: bool, user: Option<User>, requiredRole: Option<Role>): (v: View)
    ensures loading ==> v == LoadingScreen
    ensures !loading && (!isAuthenticated || user.None?) ==> v == Redirect(LoginPath)
    ensures !loading && isAuthenticated && user.Some? && requiredRole.Some? && user.value.role != requiredRole.value ==>
              v == Redirect(if user.value.role == Admin then AdminHome else PlayerHome)
    ensures v == Children <==>
              !loading && isAuthenticated && user.Some? && (requiredRole.None? || user.value.role == requiredRole.value)
  {
    if loading then LoadingScreen
    else if !isAuthenticated || user.None? then Redirect(LoginPath)
    else if requiredRole.Some? && user.value.role != requiredRole.value then
      Redirect(if user.value.role == Admin then AdminHome else PlayerHome)
    else Children
  }

  /** A role mismatch never sends the user to the login page, and never to a page
      guarded for the other role: an admin goes to the admin home, a player to `/`. */
  lemma MismatchGoesHome(user: User, requiredRole: Role)
    requires user.role != requiredRole
    ensures Guard(false, true, Some(user), Some(requiredRole)) ==
            Redirect(if requiredRole == Player then AdminHome else PlayerHome)
  {
  }
}
