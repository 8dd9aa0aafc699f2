/** The "forgot password" form. Submitting clears the error and requests a
    reset e-mail; only a successful request switches to the confirmation
    screen, and a failure shows the extracted error message. */
module ForgotPasswordForm {
  import opened JsValues
  import opened Http
  import opened ErrorDetail

  const ForgotFallback: string := "Failed to request password reset."

  datatype ForgotState = ForgotState(email: string, submitted: bool, errorMessage: Json, pending: bool)

  datatype Screen = RequestForm | SentConfirmation

  function Init(): (st: ForgotState)
    ensures !st.submitted && !st.pending && !Truthy(st.errorMessage)
  {
    ForgotState("", false, JString(""), false)
  }

  function ScreenOf(st: ForgotState): (s: Screen)
    ensures s == SentConfirmation <==> st.submitted
  {
    if st.submitted then SentConfirmation else RequestForm
  }

  /** Submitting: nothing while pending; otherwise the error is cleared and
      the request for the typed e-mail goes out. */
  function Submit(st: ForgotState): (r: (ForgotState, Option<string>))
    ensures st.pending ==> r == (st, None)
    ensures !st.pending ==> r == (st.(errorMessage := JString(""), pending := true), Some(st.email))
  {
    if st.pending then (st, None)
    else (st.(errorMessage := JString(""), pending := true), Some(st.email))
  }

  function Settle(st: ForgotState, outcome: Outcome<Json>): (r: ForgotState)
    ensures !r.pending && r.email == st.email
    ensures r.submitted <==> st.submitted || outcome.Ok?
    ensures outcome.Err? ==> r.errorMessage == MessageFor(outcome.error, ForgotFallback)
  {
    match outcome
    case Ok(_) => st.(submitted := true, pending := false)
    case Err(e) => st.(errorMessage := MessageFor(e, ForgotFallback), pending := false)
  }

  /** The confirmation screen is reached only through a successful request. */
  lemma ConfirmationOnlyOnSuccess(st: ForgotState, outcome: Outcome<Json>)
    requires ScreenOf(st) == RequestForm
    ensures ScreenOf(Settle(st, outcome)) == SentConfirmation <==> outcome.Ok?
  {
  }
}
