/**
 * Who may see which page. The route guard (src/components/ProtectedRoute.tsx)
 * wraps the protected pages of the route table (src/App.tsx), and the home page
 * (src/pages/Index.tsx) sends a signed-in user to the page of their role and status.
 * The authentication session is an input: how it is obtained is not modelled.
 */
module Access {
  import opened Options

  /** The `profiles` row of the signed-in user: role and approval status. */
  datatype Profile = Profile(role: string, status: string)

  /** What the authentication context exposes: still loading, a user present, the profile (null until fetched). */
  datatype Session = Session(loading: bool, signedIn: bool, profile: Option<Profile>)

  /** The optional `requiredRole` and `requiredStatus` props of one guarded route. */
  datatype RouteGuard = RouteGuard(requiredRole: Option<string>, requiredStatus: Option<string>)

  /** What a guard shows: the loading spinner, a replacing navigation, or the page itself. */
  datatype Decision = Spinner | Redirect(to: string) | Render

  const LoginPath: string := "/login"
  const HomePath: string := "/"
  const PendingApprovalPath: string := "/pending-approval"
  const DashboardPath: string := "/dashboard"
  const MyAppointmentsPath: string := "/meus-agendamentos"
  const SuperAdminPath: string := "/super-admin"

  /** JavaScript truthiness of an optional string prop: present and not empty. */
  predicate Given(o: Option<string>) {
    o.Some? && o.value != ""
  }

  /** `profile?.role`: undefined (None) when there is no profile. */
  function RoleOf(p: Option<Profile>): Option<string> {
    match p
    case None => None
    case Some(q) => Some(q.role)
  }

  /** `profile?.status`: undefined (None) when there is no profile. */
  function StatusOf(p: Option<Profile>): Option<string> {
    match p
    case None => None
    case Some(q) => Some(q.status)
  }

  /** The role part of a guard lets the session through. */
  predicate RoleAdmits(g: RouteGuard, s: Session) {
    !Given(g.requiredRole) || RoleOf(s.profile) == g.requiredRole
  }

  /** The status part of a guard lets the session through. */
  predicate StatusAdmits(g: RouteGuard, s: Session) {
    !Given(g.requiredStatus) || StatusOf(s.profile) == g.requiredStatus
  }

  /** ProtectedRoute: the chain of checks, in the order the component makes them. */
  function Guard(g: RouteGuard, s: Session): (d: Decision)
    ensures d == Spinner <==> s.loading
    ensures d == Redirect(LoginPath) <==> !s.loading && !s.signedIn
    ensures d == Render <==> !s.loading && s.signedIn && RoleAdmits(g, s) && StatusAdmits(g, s)
    ensures d.Redirect? ==> d.to == LoginPath || d.to == HomePath
  {
    if s.loading then Spinner
    else if !s.signedIn then Redirect(LoginPath)
    else if Given(g.requiredRole) && RoleOf(s.profile) != g.requiredRole then Redirect(HomePath)
    else if Given(g.requiredStatus) && StatusOf(s.profile) != g.requiredStatus then Redirect(HomePath)
    else Render
  }

  /** A guard that names a role turns away a signed-in user whose profile has not arrived. */
  lemma MissingProfileSentHome(g: RouteGuard, s: Session)
    requires !s.loading && s.signedIn && s.profile.None?
    requires Given(g.requiredRole) || Given(g.requiredStatus)
    ensures Guard(g, s) == Redirect(HomePath)
  {
  }

  /** The guards of the route table; None for the pages every visitor may open. */
  function RouteGuardFor(path: string): (g: Option<RouteGuard>)
    ensures g.Some? <==> path in {PendingApprovalPath, DashboardPath, MyAppointmentsPath, SuperAdminPath}
    ensures g.Some? ==> Given(g.value.requiredRole)
  {
    if path == PendingApprovalPath then Some(RouteGuard(Some("administrador"), Some("pendente")))
    else if path == DashboardPath then Some(RouteGuard(Some("administrador"), Some("ativo")))
    else if path == MyAppointmentsPath then Some(RouteGuard(Some("cliente"), None))
    else if path == SuperAdminPath then Some(RouteGuard(Some("super_admin"), None))
    else None
  }

  /** The page a profile is sent to from the home page, by role and then status; None keeps it home. */
  function LandingFor(p: Profile): (r: Option<string>)
    ensures r.Some? ==> RouteGuardFor(r.value).Some?
  {
    if p.role == "super_admin" then Some(SuperAdminPath)
    else if p.role == "administrador" then
      if p.status == "pendente" then Some(PendingApprovalPath)
      else if p.status == "ativo" then Some(DashboardPath)
      else None
    else if p.role == "cliente" then Some(MyAppointmentsPath)
    else None
  }

  /** The home page's effect: navigate only once loading is over and both user and profile are there. */
  function Landing(s: Session): (r: Option<string>)
    ensures s.loading || !s.signedIn || s.profile.None? ==> r.None?
    ensures r.Some? ==> RouteGuardFor(r.value).Some?
  {
    if !s.loading && s.signedIn && s.profile.Some? then LandingFor(s.profile.value) else None
  }

  /** What the home page shows: the spinner while loading, else its own content unless it navigates away. */
  function HomeDecision(s: Session): (d: Decision)
    ensures d == Spinner <==> s.loading
    ensures d.Redirect? <==> Landing(s).Some?
    ensures d.Redirect? ==> d.to == Landing(s).value
  {
    if s.loading then Spinner
    else match Landing(s)
      case Some(path) => Redirect(path)
      case None => Render
  }

  /**
   * The home page and the guards agree: the home page sends a session to a protected
   * page exactly when that page's guard renders it for the same session.
   */
  lemma LandingIsTheAdmittedRoute(s: Session, path: string)
    requires RouteGuardFor(path).Some?
    ensures Landing(s) == Some(path) <==> Guard(RouteGuardFor(path).value, s) == Render
  {
  }

  /** Every navigation the home page makes lands on a page whose guard admits the session. */
  lemma LandingAdmitted(s: Session)
    requires Landing(s).Some?
    ensures Guard(RouteGuardFor(Landing(s).value).value, s) == Render
  {
    LandingIsTheAdmittedRoute(s, Landing(s).value);
  }

  /** No session is admitted both to the approval-waiting page and to the dashboard. */
  lemma PendingAndDashboardExclusive(s: Session)
    ensures !(Guard(RouteGuardFor(PendingApprovalPath).value, s) == Render &&
              Guard(RouteGuardFor(DashboardPath).value, s) == Render)
  {
  }

  /** At most one protected page admits a given session. */
  lemma AtMostOneProtectedPage(s: Session, p1: string, p2: string)
    requires RouteGuardFor(p1).Some? && RouteGuardFor(p2).Some?
    requires Guard(RouteGuardFor(p1).value, s) == Render && Guard(RouteGuardFor(p2).value, s) == Render
    ensures p1 == p2
  {
    LandingIsTheAdmittedRoute(s, p1);
    LandingIsTheAdmittedRoute(s, p2);
  }

  /** An administrator whose status is neither pending nor active stays on the home page. */
  lemma OtherAdministratorStatusStaysHome(s: Session)
    requires !s.loading && s.signedIn && s.profile.Some?
    requires s.profile.value.role == "administrador"
    requires s.profile.value.status != "pendente" && s.profile.value.status != "ativo"
    ensures Landing(s).None?
  {
  }
}
