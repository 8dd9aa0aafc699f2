/** The session controller. On start it probes the server when an access
    token cookie is present; afterwards it handles a successful login,
    logout, a profile update and the dismissal of a fatal error. The cookie
    jar is the optional token; navigation is an emitted route. The fatal
    message is the translation key of the generic error subtitle. */
module Session {
  import opened JsValues
  import opened Http
  import opened Users

  const FatalMessageKey: string := "errors.subtitle"
  const LoginRoute: string := "/login"
  const HomeRoute: string := "/"

  datatype FatalError = FatalError(message: string, details: string)

  datatype SessionState = SessionState(
    user: Option<User>,
    isInitializing: bool,
    fatalError: Option<FatalError>,
    token: Option<string>)

  /** A transition's new state, the route it navigates to, and whether it
      called the server. */
  datatype Effect = Effect(state: SessionState, navigateTo: Option<string>, probed: bool)

  /** The state before the start-up effect has run. */
  function Initial(token: Option<string>): (st: SessionState)
    ensures st.user.None? && st.isInitializing && st.fatalError.None? && st.token == token
  {
    SessionState(None, true, None, token)
  }

  /** No response at all, or a status of 500 or more: the server is
      unreachable or broken, as opposed to refusing the session. */
  predicate ServerFault(e: HttpError) {
    e.response.None? || e.response.value.status >= 500
  }

  /** The start-up effect. `probe` is the server's answer to the user query,
      consulted only when the cookie holds a non-empty token. */
  function Start(st: SessionState, probe: Outcome<User>): (r: Effect)
    ensures !r.state.isInitializing && r.navigateTo.None?
    ensures r.probed <==> TruthyString(st.token)
    ensures !r.probed ==> r.state == st.(user := None, isInitializing := false)
    ensures r.probed && probe.Ok? ==> r.state == st.(user := Some(probe.value), isInitializing := false)
    ensures r.probed && probe.Err? && ServerFault(probe.error) ==>
      r.state == st.(isInitializing := false, fatalError := Some(FatalError(FatalMessageKey, probe.error.message)))
    ensures r.probed && probe.Err? && !ServerFault(probe.error) ==>
      r.state == st.(token := None, user := None, isInitializing := false)
  {
    if TruthyString(st.token) then
      match probe
      case Ok(u) => Effect(st.(user := Some(u), isInitializing := false), None, true)
      case Err(e) =>
        if ServerFault(e) then
          Effect(st.(isInitializing := false, fatalError := Some(FatalError(FatalMessageKey, e.message))), None, true)
        else
          Effect(st.(token := None, user := None, isInitializing := false), None, true)
    else
      Effect(st.(user := None, isInitializing := false), None, false)
  }

  /** Logout drops the token and the user and goes to the login page, without
      calling the server. */
  function Logout(st: SessionState): (r: Effect)
    ensures r.state.token.None? && r.state.user.None?
    ensures r.state.fatalError == st.fatalError && r.state.isInitializing == st.isInitializing
    ensures r.navigateTo == Some(LoginRoute) && !r.probed
  {
    Effect(st.(token := None, user := None), Some(LoginRoute), false)
  }

  /** After the login form stored its token: fetch the user and go home, or
      show the fatal error whatever the failure was. */
  function LoginSucceeded(st: SessionState, fetch: Outcome<User>): (r: Effect)
    ensures r.probed && r.state.token == st.token && r.state.isInitializing == st.isInitializing
    ensures fetch.Ok? ==> r.state == st.(user := Some(fetch.value)) && r.navigateTo == Some(HomeRoute)
    ensures fetch.Err? ==>
      && r.state == st.(fatalError := Some(FatalError(FatalMessageKey, fetch.error.message)))
      && r.navigateTo.None?
  {
    match fetch
    case Ok(u) => Effect(st.(user := Some(u)), Some(HomeRoute), true)
    case Err(e) => Effect(st.(fatalError := Some(FatalError(FatalMessageKey, e.message))), None, true)
  }

  /** A profile edit replaces the user and nothing else. */
  function UpdateUser(st: SessionState, u: User): (r: SessionState)
    ensures r.user == Some(u)
    ensures r.isInitializing == st.isInitializing && r.fatalError == st.fatalError && r.token == st.token
  {
    st.(user := Some(u))
  }

  /** Dismissing the fatal error also forgets the user; the token stays. */
  function ResetFatalError(st: SessionState): (r: SessionState)
    ensures r.fatalError.None? && r.user.None?
    ensures r.isInitializing == st.isInitializing && r.token == st.token
  {
    st.(fatalError := None, user := None)
  }

  /** What the application shows for a session. */
  datatype Phase = Loading | Fatal | SignedOut | SignedIn

  function PhaseOf(st: SessionState): Phase {
    if st.isInitializing then Loading
    else if st.fatalError.Some? then Fatal
    else if st.user.None? then SignedOut
    else SignedIn
  }

  /** From a fresh start, the probe settles into exactly one phase: no token
      or a refused session signs out, a server fault is fatal, a user signs in. */
  lemma StartPhases(token: Option<string>, probe: Outcome<User>)
    ensures var p := PhaseOf(Start(Initial(token), probe).state);
      && (p == SignedOut <==> !TruthyString(token) || (probe.Err? && !ServerFault(probe.error)))
      && (p == Fatal <==> TruthyString(token) && probe.Err? && ServerFault(probe.error))
      && (p == SignedIn <==> TruthyString(token) && probe.Ok?)
  {
  }

  /** A refused session (for example a 401) never leads to the fatal screen,
      and the stale token is gone; a fault keeps the token for a later try. */
  lemma RefusalIsNotFatal(token: Option<string>, e: HttpError)
    requires TruthyString(token) && !ServerFault(e)
    ensures var st := Start(Initial(token), Err(e)).state;
      st.fatalError.None? && st.token.None? && st.user.None?
  {
  }

  /** After the login form succeeded, a fetched user signs in, while any
      failed fetch is fatal: unlike at start-up, a refusal is not told apart
      from a server fault. */
  lemma LoginPhases(st: SessionState, fetch: Outcome<User>)
    requires !st.isInitializing
    ensures fetch.Ok? && st.fatalError.None? ==> PhaseOf(LoginSucceeded(st, fetch).state) == SignedIn
    ensures fetch.Err? ==> PhaseOf(LoginSucceeded(st, fetch).state) == Fatal
    ensures PhaseOf(LoginSucceeded(st, fetch).state) != SignedOut
  {
  }

  /** The same refused query signs out at start-up but is fatal after a login. */
  lemma RefusalFatalOnlyAfterLogin(token: Option<string>, e: HttpError)
    requires TruthyString(token) && !ServerFault(e)
    ensures var started := Start(Initial(token), Err(e)).state;
      && PhaseOf(started) == SignedOut
      && PhaseOf(LoginSucceeded(started, Err(e)).state) == Fatal
  {
  }

  /** A profile update keeps a signed-in session signed in, shows the new
      user, and is forgotten by a logout. */
  lemma UpdateKeepsSession(st: SessionState, u: User)
    ensures PhaseOf(st) == SignedIn ==> PhaseOf(UpdateUser(st, u)) == SignedIn
    ensures PhaseOf(st) == SignedOut ==> PhaseOf(UpdateUser(st, u)) == SignedIn
    ensures PhaseOf(UpdateUser(st, u)) in {Loading, Fatal} <==> PhaseOf(st) in {Loading, Fatal}
    ensures Logout(UpdateUser(st, u)) == Logout(st)
  {
  }

  /** After logout, or after a fatal error is dismissed, nobody is signed in. */
  lemma SignedOutAfterLogoutOrReset(st: SessionState)
    ensures PhaseOf(Logout(st).state) in {Loading, Fatal, SignedOut}
    ensures PhaseOf(ResetFatalError(st)) in {Loading, SignedOut}
  {
  }
}
