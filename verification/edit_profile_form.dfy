/** The profile editor. The name starts as the user's name and the e-mail is
    shown read-only; the update sends the name, and the password only when
    one was typed. Success hands the returned user to the caller and goes to
    the profile page; failure shows the extracted message. Messages are
    translation keys. */
module EditProfileForm {
  import opened JsValues
  import opened Http
  import opened Users
  import opened ErrorDetail

  const UpdateFallback: string := "profile.updateError"
  const UpdatedKey: string := "profile.updateSuccess"
  const ProfileRoute: string := "/profile"

  datatype EditState = EditState(
    user: User,
    name: string,
    password: string,
    errorMessage: Json,
    successMessage: Json,
    pending: bool)

  function Init(user: User): (st: EditState)
    ensures st.user == user && st.name == user.name && st.password == ""
    ensures !Truthy(st.errorMessage) && !Truthy(st.successMessage) && !st.pending
  {
    EditState(user, user.name, "", JString(""), JString(""), false)
  }

  /** The update body: always the name, and the password only when one was typed. */
  function Payload(name: string, password: string): (r: Json)
    ensures r.JObject?
    ensures "name" in r.fields && r.fields["name"] == JString(name)
    ensures "password" in r.fields <==> password != ""
    ensures "password" in r.fields ==> r.fields["password"] == JString(password)
    ensures forall k :: k in r.fields ==> k == "name" || k == "password"
  {
    var base := map["name" := JString(name)];
    JObject(if password != "" then base["password" := JString(password)] else base)
  }

  /** The payload never carries the e-mail, whatever was typed. */
  lemma PayloadOmitsEmail(name: string, password: string)
    ensures "email" !in Payload(name, password).fields
  {
  }

  /** A transition's new state, the update it sends, the user it hands to the
      caller, and the route it navigates to with the message carried along. */
  datatype EditStep = EditStep(
    state: EditState,
    call: Option<Json>,
    updated: Option<User>,
    navigateTo: Option<string>,
    flash: Option<string>)

  /** Submitting: nothing while pending; otherwise both messages are cleared
      and the update goes out. */
  function Submit(st: EditState): (r: EditStep)
    ensures st.pending ==> r == EditStep(st, None, None, None, None)
    ensures !st.pending ==>
      && r.state == st.(errorMessage := JString(""), successMessage := JString(""), pending := true)
      && r.call == Some(Payload(st.name, st.password))
      && r.updated.None? && r.navigateTo.None? && r.flash.None?
  {
    if st.pending then EditStep(st, None, None, None, None)
    else EditStep(st.(errorMessage := JString(""), successMessage := JString(""), pending := true),
                  Some(Payload(st.name, st.password)), None, None, None)
  }

  /** The update settles. On success the caller receives the returned user
      and the app navigates to the profile page carrying the success key; on
      failure the error is shown and any success message removed. */
  function Settle(st: EditState, outcome: Outcome<User>): (r: EditStep)
    ensures !r.state.pending && r.call.None?
    ensures r.flash.Some? <==> r.navigateTo.Some?
    ensures outcome.Ok? ==> r.updated == Some(outcome.value) && r.navigateTo == Some(ProfileRoute) && r.flash == Some(UpdatedKey)
    ensures outcome.Err? ==>
      && r.updated.None? && r.navigateTo.None?
      && r.state.errorMessage == MessageFor(outcome.error, UpdateFallback)
      && !Truthy(r.state.successMessage)
  {
    match outcome
    case Ok(u) => EditStep(st.(pending := false), None, Some(u), Some(ProfileRoute), Some(UpdatedKey))
    case Err(e) =>
      EditStep(st.(errorMessage := MessageFor(e, UpdateFallback), successMessage := JString(""), pending := false),
               None, None, None, None)
  }

  /** One submission that settles: success leaves no error and navigates
      with the success key; failure shows the error, keeps what was typed, and
      a second submit sends the very same update again. */
  lemma SubmitThenSettle(st: EditState, outcome: Outcome<User>)
    requires !st.pending
    ensures var sent := Submit(st);
      var settled := Settle(sent.state, outcome);
      && sent.call == Some(Payload(st.name, st.password))
      && settled.state.name == st.name && settled.state.password == st.password
      && !settled.state.pending
      && (outcome.Ok? ==>
            && !Truthy(settled.state.errorMessage)
            && settled.navigateTo == Some(ProfileRoute) && settled.flash == Some(UpdatedKey))
      && (outcome.Err? ==>
            && settled.state.errorMessage == MessageFor(outcome.error, UpdateFallback)
            && settled.navigateTo.None? && settled.flash.None?
            && Submit(settled.state).call == sent.call)
  {
  }

  /** The e-mail field is read-only: it shows the user's own e-mail, and
      neither submitting nor settling changes the user the form was opened
      with; a new e-mail can only arrive with a new user from the caller. */
  lemma EmailReadOnly(st: EditState, outcome: Outcome<User>)
    ensures Submit(st).state.user.email == st.user.email
    ensures Settle(st, outcome).state.user.email == st.user.email
    ensures Submit(st).call.Some? ==> "email" !in Submit(st).call.value.fields
  {
  }
}
