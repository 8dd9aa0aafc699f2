/** HTTP outcomes as the components see them. A call either resolves with a
    value or rejects with an error that may carry the server's response. */
module Http {
  import opened JsValues

  /** A server response: its status code and decoded body. */
  datatype Response = Response(status: int, data: Json)

  /** A rejected call: the response, when the server answered, and the
      error's own message. */
  datatype HttpError = HttpError(response: Option<Response>, message: string)

  datatype Outcome<T> = Ok(value: T) | Err(error: HttpError)

  /** The status of the response, when there is one. */
  function StatusOf(e: HttpError): (r: Option<int>)
    ensures r.Some? <==> e.response.Some?
    ensures r.Some? ==> r.value == e.response.value.status
  {
    match e.response
    case Some(resp) => Some(resp.status)
    case None => None
  }

  /** The `detail` member of the response body: absent when there is no response, or
      when the body is not an object with a `detail` member. */
  function DetailOf(e: HttpError): (r: Option<Json>)
    ensures r.Some? <==>
      && e.response.Some? && e.response.value.data.JObject?
      && "detail" in e.response.value.data.fields
    ensures r.Some? ==> r.value == e.response.value.data.fields["detail"]
  {
    match e.response
    case Some(resp) => Member(Some(resp.data), "detail")
    case None => None
  }
}

/** The signed-in user record, with the fields the components read. */
module Users {
  import opened JsValues

  datatype User = User(name: string, email: string, avatarUrl: Option<string>, confirmedUser: Option<bool>)
}
