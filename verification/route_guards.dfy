/** The two client route guards. Each looks only at the stored login
    response: whether there is one, and whether its `isAdmin` field is
    truthy. */
module RouteGuards {
  import opened Common

  /** The stored login response. A user login carries no `isAdmin` field
      (None); an admin login carries `true`. The token and its expiry are
      carried but never inspected. */
  datatype Session = Session(id: string, name: string, email: string, isAdmin: Option<bool>, token: string)

  datatype Decision = Render | Redirect(to: string)

  const UserLogin := "/login/user"
  const AdminLogin := "/login/admin"

  /** `userInfo.isAdmin` as a condition: absent and false are both falsy. */
  predicate AdminFlag(s: Session) {
    s.isAdmin == Some(true)
  }

  /** `PrivateRoute`: a session whose isAdmin flag is falsy renders the page;
      no session, or an admin session, is sent to the user login. */
  function PrivateRoute(userInfo: Option<Session>): (d: Decision)
    ensures userInfo.None? ==> d == Redirect(UserLogin)
    ensures userInfo.Some? && userInfo.value.isAdmin == Some(true) ==> d == Redirect(UserLogin)
    ensures userInfo.Some? && (userInfo.value.isAdmin.None? || userInfo.value.isAdmin == Some(false)) ==> d == Render
  {
    if userInfo.Some? && !AdminFlag(userInfo.value) then Render else Redirect(UserLogin)
  }

  /** `AdminRoute`: only a session whose isAdmin flag is true renders the
      page; everything else is sent to the admin login. */
  function AdminRoute(userInfo: Option<Session>): (d: Decision)
    ensures userInfo.None? ==> d == Redirect(AdminLogin)
    ensures userInfo.Some? && userInfo.value.isAdmin == Some(true) ==> d == Render
    ensures userInfo.Some? && (userInfo.value.isAdmin.None? || userInfo.value.isAdmin == Some(false)) ==> d == Redirect(AdminLogin)
  {
    if userInfo.Some? && AdminFlag(userInfo.value) then Render else Redirect(AdminLogin)
  }

  /** Every session is admitted by exactly one of the two guards; without a
      session neither admits. */
  lemma ExactlyOneGuardAdmits(userInfo: Option<Session>)
    ensures userInfo.Some? ==> (PrivateRoute(userInfo) == Render <==> AdminRoute(userInfo) != Render)
    ensures userInfo.None? ==> PrivateRoute(userInfo) != Render && AdminRoute(userInfo) != Render
  {
  }

  /** The guards ignore everything but the presence of a session and its
      flag: an expired or forged token is let through just the same. */
  lemma DecisionIgnoresToken(a: Session, b: Session)
    requires a.isAdmin == b.isAdmin
    ensures PrivateRoute(Some(a)) == PrivateRoute(Some(b))
    ensures AdminRoute(Some(a)) == AdminRoute(Some(b))
  {
  }
}
