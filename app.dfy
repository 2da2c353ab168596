/** The app shell: the route guard, the route table with the root route's choice by role,
    and the header's logout button. */
module App {
  import opened JsValues
  import opened Server
  import opened AuthContext

  /** What a guarded route shows. */
  datatype Guard = ShowLoading | RedirectToLogin | AccessDenied | RenderPage

  /** `user?.role` */
  function RoleOf(user: Option<PublicUser>): Value
  {
    if user.Some? then Str(user.value.role) else Undefined
  }

  /** `requiredRoles.includes(role)` */
  predicate Includes(requiredRoles: seq<string>, role: Value)
  {
    role.Str? && role.s in requiredRoles
  }

  /** `ProtectedRoute`: loading first, then sign-in, then the role list (an empty list
      admits every signed-in user). */
  function GuardDecision(loading: bool, isAuthenticated: bool, role: Value, requiredRoles: seq<string>): (g: Guard)
    ensures g == ShowLoading <==> loading
    ensures g == RedirectToLogin <==> !loading && !isAuthenticated
    ensures g == RenderPage <==> !loading && isAuthenticated && (requiredRoles == [] || Includes(requiredRoles, role))
  {
    if loading then ShowLoading
    else if !isAuthenticated then RedirectToLogin
    else if |requiredRoles| > 0 && !Includes(requiredRoles, role) then AccessDenied
    else RenderPage
  }

  datatype Page =
    | LoginScreen | Dashboard | Profile | MemberProfile | MembersVisualization
    | Trainers | Classes | Drinks | MemberInfo

  /** A route's element: a page behind the guard, an open page, or a redirect. */
  datatype Element = Guarded(roles: seq<string>, page: Page) | Open(page: Page) | Redirect(to: string)

  /** The route table; "/" depends on the signed-in user's role. */
  function RouteFor(path: string, role: Value): Option<Element>
  {
    if path == "/login" then Some(Open(LoginScreen))
    else if path == "/" then
      (if role == Str("admin") then Some(Guarded(["admin"], Dashboard)) else Some(Redirect("/profile")))
    else if path == "/profile" then Some(Guarded(["user"], Profile))
    else if path == "/member/:id" then Some(Guarded(["admin", "user"], MemberProfile))
    else if path == "/members" then Some(Guarded(["admin"], MembersVisualization))
    else if path == "/trainers" then Some(Guarded(["admin"], Trainers))
    else if path == "/classes" then Some(Guarded(["admin"], Classes))
    else if path == "/drinks" then Some(Guarded(["user", "admin"], Drinks))
    else if path == "/member-info/:id" then Some(Guarded(["user", "admin"], MemberInfo))
    else None
  }

  /** What the app shows at a path for a settled session. */
  datatype Screen = Loading | Shows(page: Page) | Denied | GoTo(to: string) | NoMatch

  function ScreenAt(path: string, st: SessionState, loading: bool): Screen
  {
    if loading then Loading
    else
      match RouteFor(path, RoleOf(st.user))
      case None => NoMatch
      case Some(Open(p)) => Shows(p)
      case Some(Redirect(to)) => GoTo(to)
      case Some(Guarded(roles, p)) =>
        match GuardDecision(false, st.isAuthenticated, RoleOf(st.user), roles)
        case ShowLoading => Loading
        case RedirectToLogin => GoTo("/login")
        case AccessDenied => Denied
        case RenderPage => Shows(p)
  }

  /** A signed-in session of the given role. */
  function SignedInAs(role: string): SessionState
  {
    SessionState(Some(PublicUser(1, "someone", role, None)), true, map[])
  }

  /** The root shows the dashboard only to an administrator and sends everyone else to the
      profile, where a member sees their page, an administrator is denied and a visitor
      without a session is sent to sign in. */
  lemma RootRouteMeaning(st: SessionState)
    requires st.isAuthenticated <==> st.user.Some?
    ensures st.isAuthenticated && RoleOf(st.user) == Str("admin") ==> ScreenAt("/", st, false) == Shows(Dashboard)
    ensures RoleOf(st.user) != Str("admin") ==> ScreenAt("/", st, false) == GoTo("/profile")
    ensures st.isAuthenticated && RoleOf(st.user) == Str("user") ==> ScreenAt("/profile", st, false) == Shows(Profile)
    ensures st.isAuthenticated && RoleOf(st.user) == Str("admin") ==> ScreenAt("/profile", st, false) == Denied
    ensures !st.isAuthenticated ==> ScreenAt("/profile", st, false) == GoTo("/login")
  {
    assert Str("admin") != Str("user") by { assert "admin"[0] != "user"[0]; }
  }

  /** The administrator pages deny members; both roles reach a member's page, the drinks page
      and the old member page; nothing shows while the session is being restored. */
  lemma RoleTableMeaning(path: string, st: SessionState)
    ensures forall p :: p in ["/members", "/trainers", "/classes"] ==>
              ScreenAt(p, SignedInAs("user"), false) == Denied
              && ScreenAt(p, SignedInAs("admin"), false) != Denied
    ensures forall p, r :: p in ["/member/:id", "/drinks", "/member-info/:id"] && r in ["user", "admin"] ==>
              ScreenAt(p, SignedInAs(r), false).Shows?
    ensures ScreenAt(path, st, true) == Loading
  {
    assert Str("admin") != Str("user") by { assert "admin"[0] != "user"[0]; }
  }

  /** The header's logout button: tell the server when the user has a username, then sign
      out locally whatever happened to that request. `reachable` says whether the request
      got through. */
  method HandleLogout(session: AuthSession, server: Database, reachable: bool)
    modifies session, server
    ensures session.Valid() && session.user.None? && !session.isAuthenticated
    ensures session.storage == SignedOut(old(session.storage))
    ensures var told := reachable && old(session.user).Some? && old(session.user).value.username != "";
            server.activityLog == old(server.activityLog)
              + (if told then [LogEntry(old(session.user).value.username, "Logged out")] else [])
            && server.fileLog == old(server.fileLog)
              + (if told then [LogEntry(old(session.user).value.username, "Logged out")] else [])
    ensures server.users == old(server.users)
  {
    if session.user.Some? && session.user.value.username != "" && reachable {
      var _ := server.Logout(Str(session.user.value.username));
    }
    session.Logout();
  }
}
