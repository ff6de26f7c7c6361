/**
 * The application shell (src/App.tsx): the sidebar menu composed by role,
 * the table of routes, the redirect from the root path and the fallback for
 * every other path.
 */
module App {
  import opened Wrappers
  import opened AuthSlice

  /** One sidebar entry; the icon is left out. */
  datatype MenuItem = MenuItem(id: string, etiqueta: string, ruta: string)

  /** The entries every signed-in user sees. */
  const BaseItems: seq<MenuItem> :=
    [MenuItem("mis-evaluaciones", "Mis Evaluaciones", "/mis-evaluaciones"), MenuItem("faq", "Ayuda", "/faq")]

  /** The extra entry an administrator sees first. */
  const AdminItem := MenuItem("evaluaciones", "Evaluaciones", "/evaluaciones")

  /** `profile?.role === 'admin'`. */
  predicate IsAdmin(profile: Option<Profile>) {
    profile.Some? && profile.value.role == Admin
  }

  /** `getMenuItems`: the base entries, preceded by the evaluations entry for an administrator. */
  function GetMenuItems(profile: Option<Profile>): (items: seq<MenuItem>)
    ensures IsAdmin(profile) ==> |items| == 3 && items[0] == AdminItem && items[1..] == BaseItems
    ensures !IsAdmin(profile) ==> items == BaseItems
  {
    if IsAdmin(profile) then [AdminItem] + BaseItems else BaseItems
  }

  /** The menu ids are distinct, so no entry shows twice. */
  lemma MenuIdsDistinct(profile: Option<Profile>)
    ensures forall i, j :: 0 <= i < j < |GetMenuItems(profile)| ==> GetMenuItems(profile)[i].id != GetMenuItems(profile)[j].id
  {
    var items := GetMenuItems(profile);
    forall i, j | 0 <= i < j < |items| ensures items[i].id != items[j].id {
      if IsAdmin(profile) {
        assert items[0].id == "evaluaciones" && items[1].id == "mis-evaluaciones" && items[2].id == "faq";
      }
    }
  }

  // ---------------------------------------------------------------- routes

  /** The declared routes, with the `:id` segment where there is one; `Unknown` is the `*` route. */
  datatype Route =
    | ResetPassword
    | EvaluacionesPage
    | CrearEvaluacion
    | VerEvaluacion(id: string)
    | MisEvaluaciones
    | RealizarEvaluacion(id: string)
    | Evaluacion360Page(id: string)
    | FaqPage
    | Root
    | Unknown

  /** A usable `:id` segment: non-empty and without '/'. */
  predicate Segment(s: string) {
    s != "" && '/' !in s
  }

  /** The segment after `prefix`, when `path` is `prefix` followed by one. */
  function Param(path: string, prefix: string): (r: Option<string>)
    ensures r.Some? ==> path == prefix + r.value && Segment(r.value)
    ensures prefix <= path && Segment(path[|prefix|..]) ==> r == Some(path[|prefix|..])
  {
    if |path| > |prefix| && path[..|prefix|] == prefix && '/' !in path[|prefix|..] then
      assert path == path[..|prefix|] + path[|prefix|..];
      Some(path[|prefix|..])
    else None
  }

  /** The path a route stands for, `Unknown` aside. */
  function PathOf(r: Route): string {
    match r
    case ResetPassword => "/reset-password"
    case EvaluacionesPage => "/evaluaciones"
    case CrearEvaluacion => "/crear-evaluacion"
    case VerEvaluacion(id) => "/evaluacion/" + id
    case MisEvaluaciones => "/mis-evaluaciones"
    case RealizarEvaluacion(id) => "/realizar-evaluacion/" + id
    case Evaluacion360Page(id) => "/evaluacion-360/" + id
    case FaqPage => "/faq"
    case Root => "/"
    case Unknown => ""
  }

  /** The route that matches a path; no two declared patterns overlap. */
  function MatchRoute(path: string): (r: Route)
    ensures r != Unknown ==> PathOf(r) == path && WellFormed(r)
  {
    if path == "/reset-password" then ResetPassword
    else if path == "/evaluaciones" then EvaluacionesPage
    else if path == "/crear-evaluacion" then CrearEvaluacion
    else if path == "/mis-evaluaciones" then MisEvaluaciones
    else if path == "/faq" then FaqPage
    else if path == "/" then Root
    else if Param(path, "/evaluacion/").Some? then VerEvaluacion(Param(path, "/evaluacion/").value)
    else if Param(path, "/realizar-evaluacion/").Some? then RealizarEvaluacion(Param(path, "/realizar-evaluacion/").value)
    else if Param(path, "/evaluacion-360/").Some? then Evaluacion360Page(Param(path, "/evaluacion-360/").value)
    else Unknown
  }

  /** What a route renders, before the route guards (which are not part of this model) act. */
  datatype Screen =
    | Spinner
    | LoginScreen
    | PasswordResetScreen
    | NavigateTo(to: string)
    | Guarded(page: Route, requireAdmin: bool)

  /** The element of the root route: the login screen when signed out, else a redirect by role. */
  function RootElement(session: Option<Session>, profile: Option<Profile>): (s: Screen)
    ensures session.None? ==> s == LoginScreen
    ensures session.Some? && IsAdmin(profile) ==> s == NavigateTo("/evaluaciones")
    ensures session.Some? && !IsAdmin(profile) ==> s == NavigateTo("/mis-evaluaciones")
  {
    if session.None? then LoginScreen
    else NavigateTo(if IsAdmin(profile) then "/evaluaciones" else "/mis-evaluaciones")
  }

  /** What the app shows for `path`: the spinner while the session loads, else the matched route's element. */
  function Render(path: string, session: Option<Session>, profile: Option<Profile>, loading: bool): (s: Screen)
    ensures loading ==> s == Spinner
    ensures !loading && MatchRoute(path) == Unknown ==> s == NavigateTo("/")
    ensures !loading && MatchRoute(path) == Root ==> s == RootElement(session, profile)
  {
    if loading then Spinner
    else
      match MatchRoute(path)
      case ResetPassword => PasswordResetScreen
      case EvaluacionesPage => Guarded(EvaluacionesPage, true)
      case CrearEvaluacion => Guarded(CrearEvaluacion, true)
      case VerEvaluacion(id) => Guarded(VerEvaluacion(id), true)
      case MisEvaluaciones => Guarded(MisEvaluaciones, false)
      case RealizarEvaluacion(id) => Guarded(RealizarEvaluacion(id), false)
      case Evaluacion360Page(id) => Guarded(Evaluacion360Page(id), false)
      case FaqPage => Guarded(FaqPage, false)
      case Root => RootElement(session, profile)
      case Unknown => NavigateTo("/")
  }

  /** A route's parameter, if it has one, is a usable segment. */
  predicate WellFormed(r: Route) {
    r != Unknown && (r.VerEvaluacion? || r.RealizarEvaluacion? || r.Evaluacion360Page? ==> Segment(r.id))
  }

  /** A prefix followed by a segment gives that segment back. */
  lemma ParamOf(prefix: string, id: string)
    requires Segment(id)
    ensures Param(prefix + id, prefix) == Some(id)
  {
    assert (prefix + id)[..|prefix|] == prefix && (prefix + id)[|prefix|..] == id;
  }

  /** A path that differs from `prefix` inside it has no segment after `prefix`. */
  lemma ParamMismatch(path: string, prefix: string, k: nat)
    requires k < |prefix| && k < |path| && path[k] != prefix[k]
    ensures Param(path, prefix).None?
  {
  }

  /** Every declared route is matched by its own path, so matching and `PathOf` are inverse. */
  lemma MatchPathOf(r: Route)
    requires WellFormed(r)
    ensures MatchRoute(PathOf(r)) == r
  {
    match r
    case VerEvaluacion(id) => MatchVer(id);
    case RealizarEvaluacion(id) => MatchRealizar(id);
    case Evaluacion360Page(id) => Match360(id);
    case _ =>
  }

  lemma MatchVer(id: string)
    requires Segment(id)
    ensures MatchRoute("/evaluacion/" + id) == VerEvaluacion(id)
  {
    var p := "/evaluacion/" + id;
    assert p[11] == '/' && |p| > 12;
    ParamOf("/evaluacion/", id);
  }

  lemma MatchRealizar(id: string)
    requires Segment(id)
    ensures MatchRoute("/realizar-evaluacion/" + id) == RealizarEvaluacion(id)
  {
    var p := "/realizar-evaluacion/" + id;
    assert p[1] == 'r' && |p| > 21;
    ParamMismatch(p, "/evaluacion/", 1);
    ParamOf("/realizar-evaluacion/", id);
  }

  lemma Match360(id: string)
    requires Segment(id)
    ensures MatchRoute("/evaluacion-360/" + id) == Evaluacion360Page(id)
  {
    var p := "/evaluacion-360/" + id;
    assert p[1] == 'e' && p[11] == '-' && |p| > 16;
    ParamMismatch(p, "/evaluacion/", 11);
    ParamMismatch(p, "/realizar-evaluacion/", 1);
    ParamOf("/evaluacion-360/", id);
  }

  /** The signed-in root redirect lands on the first entry of the user's own menu. */
  lemma RootRedirectsToFirstMenuEntry(session: Option<Session>, profile: Option<Profile>)
    requires session.Some?
    ensures RootElement(session, profile) == NavigateTo(GetMenuItems(profile)[0].ruta)
  {
  }

  /** Every menu entry leads to a declared page, never to the fallback. */
  lemma MenuEntriesResolve(profile: Option<Profile>, i: nat)
    requires i < |GetMenuItems(profile)|
    ensures MatchRoute(GetMenuItems(profile)[i].ruta) != Unknown
    ensures MatchRoute(GetMenuItems(profile)[i].ruta) != Root
  {
  }
}
