/** The registration form. Its submit only simulates a call: it sets the
    loading flag, which a timer clears later; the button is disabled while
    loading. The strength meter is the shared one. */
module RegisterForm {
  import opened JsValues
  import opened PasswordStrength

  datatype RegisterState = RegisterState(name: string, email: string, password: string, isLoading: bool)

  /** Typing into one of the three fields, submitting, and the timer that
      ends the simulated call. */
  datatype RegisterEvent = TypeName(n: string) | TypeEmail(m: string) | TypePassword(p: string) | Submit | TimerFired
  {
    predicate IsTyping() {
      TypeName? || TypeEmail? || TypePassword?
    }
  }

  /** Each typing event replaces its own field and nothing else; submit and
      the timer touch only the loading flag. */
  function Step(st: RegisterState, e: RegisterEvent): (r: RegisterState)
    ensures e == Submit ==> r.isLoading
    ensures e == Submit && st.isLoading ==> r == st
    ensures e == TimerFired ==> !r.isLoading
    ensures e.TypeName? ==> r.name == e.n
    ensures e.TypeEmail? ==> r.email == e.m
    ensures e.TypePassword? ==> r.password == e.p
    ensures !e.TypeName? ==> r.name == st.name
    ensures !e.TypeEmail? ==> r.email == st.email
    ensures !e.TypePassword? ==> r.password == st.password
    ensures e.IsTyping() ==> r.isLoading == st.isLoading
  {
    match e
    case TypeName(n) => st.(name := n)
    case TypeEmail(m) => st.(email := m)
    case TypePassword(p) => st.(password := p)
    case Submit => st.(isLoading := true)
    case TimerFired => st.(isLoading := false)
  }

  /** The state after a run of events, in order. A field changes only through
      its own typing event, and typing alone never changes the loading flag. */
  function Run(st: RegisterState, es: seq<RegisterEvent>): (r: RegisterState)
    ensures (forall i :: 0 <= i < |es| ==> !es[i].TypeName?) ==> r.name == st.name
    ensures (forall i :: 0 <= i < |es| ==> !es[i].TypeEmail?) ==> r.email == st.email
    ensures (forall i :: 0 <= i < |es| ==> !es[i].TypePassword?) ==> r.password == st.password
    ensures (forall i :: 0 <= i < |es| ==> es[i].IsTyping()) ==> r.isLoading == st.isLoading
    decreases |es|
  {
    if |es| == 0 then st
    else
      assert forall i :: 0 <= i < |es| - 1 ==> es[1..][i] == es[i + 1];
      Run(Step(st, es[0]), es[1..])
  }

  /** The last name typed is the name the form holds. */
  lemma LastNameWins(st: RegisterState, es: seq<RegisterEvent>, n: string)
    requires forall i :: 0 <= i < |es| ==> !es[i].TypeName?
    ensures Run(st, [TypeName(n)] + es).name == n
  {
    assert ([TypeName(n)] + es)[1..] == es;
  }

  /** The last e-mail typed is the e-mail the form holds. */
  lemma LastEmailWins(st: RegisterState, es: seq<RegisterEvent>, m: string)
    requires forall i :: 0 <= i < |es| ==> !es[i].TypeEmail?
    ensures Run(st, [TypeEmail(m)] + es).email == m
  {
    assert ([TypeEmail(m)] + es)[1..] == es;
  }

  /** A loading form stays loading through any run without the timer. */
  lemma {:induction false} StaysLoading(st: RegisterState, es: seq<RegisterEvent>)
    requires st.isLoading
    requires forall i :: 0 <= i < |es| ==> !es[i].TimerFired?
    ensures Run(st, es).isLoading
    decreases |es|
  {
    if |es| > 0 {
      StaysLoading(Step(st, es[0]), es[1..]);
    }
  }

  /** Once submitted, the form stays loading until the timer fires: no
      typing and no further submit ends it. */
  lemma LoadingUntilTimer(st: RegisterState, es: seq<RegisterEvent>)
    requires forall i :: 0 <= i < |es| ==> !es[i].TimerFired?
    ensures Run(st, [Submit] + es).isLoading
  {
    assert ([Submit] + es)[1..] == es;
    StaysLoading(Step(st, Submit), es);
  }

  /** A run that ends with the timer leaves the form ready for another submit. */
  lemma {:induction false} TimerEndsLoading(st: RegisterState, es: seq<RegisterEvent>)
    requires |es| > 0 && es[|es| - 1] == TimerFired
    ensures !Run(st, es).isLoading
    decreases |es|
  {
    if |es| > 1 {
      TimerEndsLoading(Step(st, es[0]), es[1..]);
    }
  }

  /** The meter is shown only for a non-empty password, with the label and
      the filled segments of its score. */
  function MeterOf(st: RegisterState): (r: Option<Meter>)
    ensures r.Some? <==> st.password != ""
    ensures r.Some? ==> r.value.text != "" && CountFilled(r.value.segments) == Strength(st.password)
  {
    if st.password == "" then None
    else
      FilledSegments(st.password);
      DefaultUnreachable(st.password);
      Some(Meter(Label(RegisterLabels, Strength(st.password)), Segments(Strength(st.password))))
  }
}
