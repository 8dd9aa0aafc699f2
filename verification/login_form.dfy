/** The sign-in form. Submitting clears the shown error and issues the login
    call; success stores the returned token in the cookie and hands the same
    token to the caller; failure shows the extracted error message. The
    submit button is disabled while the call is pending. */
module LoginForm {
  import opened JsValues
  import opened Http
  import opened ErrorDetail

  const LoginFallback: string := "Failed to sign in. Please check your credentials."

  datatype LoginResponse = LoginResponse(accessToken: string, tokenType: string)

  datatype LoginState = LoginState(
    email: string,
    password: string,
    errorMessage: Json,
    pending: bool,
    cookie: Option<string>)

  /** A step's new state, the login call it issues (email and password) and
      the token it hands to the caller. */
  datatype LoginStep = LoginStep(state: LoginState, call: Option<(string, string)>, handedOver: Option<string>)

  function Init(cookie: Option<string>): (st: LoginState)
    ensures st.email == "" && st.password == "" && !Truthy(st.errorMessage) && !st.pending
  {
    LoginState("", "", JString(""), false, cookie)
  }

  /** Submitting: nothing while pending (the button is disabled); otherwise
      the error is cleared before the call goes out with the typed values. */
  function Submit(st: LoginState): (r: LoginStep)
    ensures st.pending ==> r == LoginStep(st, None, None)
    ensures !st.pending ==>
      && r.state == st.(errorMessage := JString(""), pending := true)
      && r.call == Some((st.email, st.password))
      && r.handedOver.None?
  {
    if st.pending then LoginStep(st, None, None)
    else LoginStep(st.(errorMessage := JString(""), pending := true), Some((st.email, st.password)), None)
  }

  /** The login call settles. */
  function Settle(st: LoginState, outcome: Outcome<LoginResponse>): (r: LoginStep)
    ensures !r.state.pending && r.call.None?
    ensures r.state.email == st.email && r.state.password == st.password
    ensures outcome.Ok? ==>
      && r.state.cookie == Some(outcome.value.accessToken)
      && r.handedOver == r.state.cookie
      && r.state.errorMessage == st.errorMessage
    ensures outcome.Err? ==>
      && r.state.errorMessage == MessageFor(outcome.error, LoginFallback)
      && r.state.cookie == st.cookie
      && r.handedOver.None?
  {
    match outcome
    case Ok(data) => LoginStep(st.(cookie := Some(data.accessToken), pending := false), None, Some(data.accessToken))
    case Err(e) => LoginStep(st.(errorMessage := MessageFor(e, LoginFallback), pending := false), None, None)
  }

  /** A submit followed by its answer: the message shown is the fresh one
      (or none), never a stale error from an earlier attempt. */
  lemma NoStaleError(st: LoginState, outcome: Outcome<LoginResponse>)
    requires !st.pending
    ensures var r := Settle(Submit(st).state, outcome).state;
      outcome.Ok? ==> !Truthy(r.errorMessage)
    ensures var r := Settle(Submit(st).state, outcome).state;
      outcome.Err? ==> r.errorMessage == MessageFor(outcome.error, LoginFallback)
  {
  }

  /** A failed sign-in always shows something when the server sent no detail. */
  lemma FailureShown(st: LoginState, e: HttpError)
    requires DetailOf(e).None?
    ensures Truthy(Settle(st, Err(e)).state.errorMessage)
  {
  }
}
