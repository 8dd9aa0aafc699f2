/** The message a form shows for a rejected call, taken from the `detail`
    member of the error body. The same expression is copied into four forms
    that differ only in their fallback text:

      a string detail       -> the string itself, even when empty;
      an array detail       -> the `msg` of its first element, if truthy;
      an object detail      -> its `msg`, if truthy;
      anything else, or a falsy `msg` -> the fallback.

    A `msg` is passed on as it is, so the result is a JSON value rather than
    always a string. */
module ErrorDetail {
  import opened JsValues
  import opened Http

  function Extract(detail: Option<Json>, fallback: string): (r: Json)
    ensures detail.Some? && detail.value.JString? ==> r == detail.value
    ensures detail.Some? && detail.value.JArray? ==>
      r == (if TruthyOpt(Member(First(detail), "msg")) then Member(First(detail), "msg").value else JString(fallback))
    ensures detail.Some? && detail.value.JObject? ==>
      r == (if TruthyOpt(Member(detail, "msg")) then Member(detail, "msg").value else JString(fallback))
    ensures detail.None? || detail.value.JNull? || detail.value.JBool? || detail.value.JNumber? ==>
      r == JString(fallback)
  {
    match detail
    case Some(JString(s)) => JString(s)
    case Some(JArray(_)) =>
      var m := Member(First(detail), "msg");
      if TruthyOpt(m) then m.value else JString(fallback)
    case Some(JObject(_)) =>
      var m := Member(detail, "msg");
      if TruthyOpt(m) then m.value else JString(fallback)
    case _ => JString(fallback)
  }

  /** The message for a rejected call. */
  function MessageFor(e: HttpError, fallback: string): (r: Json)
    ensures e.response.None? ==> r == JString(fallback)
  {
    Extract(DetailOf(e), fallback)
  }

  /** Where a message can come from: the fallback, the detail string, or a
      truthy `msg` found on the detail or on its first element. */
  ghost predicate ComesFrom(detail: Option<Json>, fallback: string, r: Json) {
    || r == JString(fallback)
    || (detail.Some? && detail.value.JString? && r == detail.value)
    || (Truthy(r) && (Member(detail, "msg") == Some(r) || Member(First(detail), "msg") == Some(r)))
  }

  /** Every extracted message comes from the detail or is the fallback. */
  lemma ExtractComesFrom(detail: Option<Json>, fallback: string)
    ensures ComesFrom(detail, fallback, Extract(detail, fallback))
  {
  }

  /** The four copies agree except on the fallback: two extractions of the
      same detail differ only when both fall back. */
  lemma FormsAgreeUpToFallback(detail: Option<Json>, f1: string, f2: string)
    ensures Extract(detail, f1) != Extract(detail, f2) ==>
      Extract(detail, f1) == JString(f1) && Extract(detail, f2) == JString(f2)
  {
  }

  /** With a non-empty fallback the message is shown (truthy) unless the
      server sent an empty string as the detail. */
  lemma ExtractShown(detail: Option<Json>, fallback: string)
    requires fallback != ""
    ensures Truthy(Extract(detail, fallback)) <==> detail != Some(JString(""))
  {
  }
}
