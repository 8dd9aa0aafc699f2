/** The password-reset form reached from an e-mailed link. The token from
    the route is verified first; the form then checks that the two typed
    passwords agree before asking the server to set the new one. Messages
    are translation keys. */
module ResetPasswordForm {
  import opened JsValues
  import opened Http
  import opened ErrorDetail
  import opened PasswordStrength

  const ResetFallback: string := "common.error"
  const MismatchKey: string := "auth.resetPasswordPage.passwordsDoNotMatch"

  datatype Status = Verifying | Form | Invalid

  datatype ResetState = ResetState(
    token: Option<string>,
    status: Status,
    password: string,
    confirmPassword: string,
    errorMessage: Json,
    success: bool,
    pending: bool)

  function Init(token: Option<string>): (st: ResetState)
    ensures st.status == Verifying && !st.success && !st.pending && st.token == token
  {
    ResetState(token, Verifying, "", "", JString(""), false, false)
  }

  /** The token check on mount. A missing or empty token is invalid without
      asking the server; otherwise the verify call's outcome decides. The
      boolean says whether the call was made. */
  function Verify(st: ResetState, outcome: Outcome<Json>): (r: (ResetState, bool))
    ensures r.1 <==> TruthyString(st.token)
    ensures r.0.status == Form <==> TruthyString(st.token) && outcome.Ok?
    ensures r.0.status == Invalid <==> !TruthyString(st.token) || outcome.Err?
    ensures r.0 == st.(status := r.0.status)
  {
    if !TruthyString(st.token) then (st.(status := Invalid), false)
    else
      match outcome
      case Ok(_) => (st.(status := Form), true)
      case Err(_) => (st.(status := Invalid), true)
  }

  /** The reset call: the token (`''` when absent) and the new password. */
  datatype ResetCall = ResetCall(token: string, password: string)

  /** Submitting: nothing while pending; otherwise the error is cleared, and
      then either the mismatch message is shown with no call, or the call
      goes out. */
  function Submit(st: ResetState): (r: (ResetState, Option<ResetCall>))
    ensures st.pending ==> r == (st, None)
    ensures !st.pending && st.password != st.confirmPassword ==>
      r == (st.(errorMessage := JString(MismatchKey)), None)
    ensures !st.pending && st.password == st.confirmPassword ==>
      && r.0 == st.(errorMessage := JString(""), pending := true)
      && r.1 == Some(ResetCall(st.token.GetOr(""), st.password))
  {
    if st.pending then (st, None)
    else if st.password != st.confirmPassword then (st.(errorMessage := JString(MismatchKey)), None)
    else (st.(errorMessage := JString(""), pending := true), Some(ResetCall(st.token.GetOr(""), st.password)))
  }

  function Settle(st: ResetState, outcome: Outcome<Json>): (r: ResetState)
    ensures !r.pending && r.password == st.password && r.status == st.status
    ensures r.success <==> st.success || outcome.Ok?
    ensures outcome.Err? ==> r.errorMessage == MessageFor(outcome.error, ResetFallback)
  {
    match outcome
    case Ok(_) => st.(success := true, pending := false)
    case Err(e) => st.(errorMessage := MessageFor(e, ResetFallback), pending := false)
  }

  /** The meter, shown only for a non-empty password, labelled by key. */
  function MeterOf(st: ResetState): (r: Option<Meter>)
    ensures r.Some? <==> st.password != ""
    ensures r.Some? ==> r.value.text != "" && CountFilled(r.value.segments) == Strength(st.password)
  {
    if st.password == "" then None
    else
      FilledSegments(st.password);
      DefaultUnreachable(st.password);
      Some(Meter(Label(ResetLabelKeys, Strength(st.password)), Segments(Strength(st.password))))
  }

  /** The server only ever receives a password the user typed twice. */
  lemma OnlyConfirmedPasswordsSent(st: ResetState)
    ensures var (_, call) := Submit(st);
      call.Some? ==> call.value.password == st.password == st.confirmPassword
  {
  }

  /** With a present token, the call carries it unchanged. */
  lemma CallCarriesToken(st: ResetState, t: string)
    requires st.token == Some(t) && !st.pending && st.password == st.confirmPassword
    ensures Submit(st).1 == Some(ResetCall(t, st.password))
  {
  }
}
