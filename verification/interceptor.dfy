/** The API client's response interceptor. A response passes through; an
    error with status 401 on a request not yet tagged as retried tags the
    request, asks the server for a fresh session through the bare client and
    re-issues the request through the intercepted client; every other error
    is rejected as it came. */
module Interceptor {
  import opened JsValues
  import opened JsStrings
  import opened Http

  const DefaultBaseUrl: string := "http://localhost:8000"
  const RefreshPath: string := "/refresh"
  const Unauthorized: int := 401

  /** The API address taken from the build-time setting: an unset or empty
      setting falls back to the local server. */
  function BaseUrl(env: Option<string>): (r: string)
    ensures env.Some? && env.value != "" ==> r == env.value
    ensures env.None? || env.value == "" ==> r == DefaultBaseUrl
    ensures r != "" && (r == DefaultBaseUrl || Some(r) == env)
  {
    if TruthyString(env) then env.value else DefaultBaseUrl
  }

  /** The refresh endpoint lives under the same base as every API call. */
  function RefreshUrl(env: Option<string>): (r: string)
    ensures StartsWith(r, BaseUrl(env)) && EndsWith(r, RefreshPath)
    ensures |r| == |BaseUrl(env)| + |RefreshPath|
  {
    BaseUrl(env) + RefreshPath
  }

  /** The base part of the refresh address is the base address back again, so
      two settings give the same refresh address exactly when they give the
      same base; an unset or empty setting refreshes at the local server. */
  lemma RefreshUrlDeterminesBase(e1: Option<string>, e2: Option<string>)
    ensures var u := RefreshUrl(e1); u[..|u| - |RefreshPath|] == BaseUrl(e1)
    ensures RefreshUrl(e1) == RefreshUrl(e2) <==> BaseUrl(e1) == BaseUrl(e2)
    ensures !TruthyString(e1) ==> RefreshUrl(e1) == DefaultBaseUrl + RefreshPath
  {
    var u1, u2 := RefreshUrl(e1), RefreshUrl(e2);
    assert u1[..|u1| - |RefreshPath|] == BaseUrl(e1);
    assert u2[..|u2| - |RefreshPath|] == BaseUrl(e2);
  }

  /** A request as the interceptor sees it; `retry` is the `_retry` tag. */
  datatype Request = Request(verb: string, url: string, body: Json, retry: bool)

  /** What the interceptor does with a rejected request. */
  datatype Decision = RefreshThenRetry(retried: Request) | Reject(error: HttpError)

  function OnError(e: HttpError, req: Request): (d: Decision)
    ensures d.RefreshThenRetry? <==> StatusOf(e) == Some(Unauthorized) && !req.retry
    ensures d.RefreshThenRetry? ==> d.retried == req.(retry := true)
    ensures d.Reject? ==> d.error == e
  {
    if StatusOf(e) == Some(Unauthorized) && !req.retry then RefreshThenRetry(req.(retry := true))
    else Reject(e)
  }

  /** The observable run of one call: its settled outcome, the requests put
      on the wire through the intercepted client, and the refresh calls made. */
  datatype Exchange = Exchange(result: Outcome<Json>, sent: seq<Request>, refreshes: nat)

  /** One call through the intercepted client. `send` is the server's answer
      to each request (the retried request carries the tag, so its answer may
      differ), and `refresh` the answer of the bare refresh call. */
  function Dispatch(send: Request -> Outcome<Json>, refresh: Outcome<Json>, req: Request): (x: Exchange)
    ensures 1 <= |x.sent| <= 2 && x.sent[0] == req
    ensures x.refreshes <= 1 && (|x.sent| == 2 ==> x.refreshes == 1)
    ensures |x.sent| == 2 ==> x.sent[1] == req.(retry := true) && refresh.Ok?
    ensures send(req).Ok? ==> x == Exchange(send(req), [req], 0)
    ensures send(req).Err? && OnError(send(req).error, req).Reject? ==> x == Exchange(send(req), [req], 0)
    ensures send(req).Err? && OnError(send(req).error, req).RefreshThenRetry? ==>
      && x.refreshes == 1
      && (refresh.Err? ==> x == Exchange(Err(refresh.error), [req], 1))
      && (refresh.Ok? ==> x == Exchange(send(req.(retry := true)), [req, req.(retry := true)], 1))
    decreases if req.retry then 0 else 1
  {
    match send(req)
    case Ok(_) => Exchange(send(req), [req], 0)
    case Err(e) =>
      match OnError(e, req)
      case Reject(err) => Exchange(Err(err), [req], 0)
      case RefreshThenRetry(again) =>
        if refresh.Err? then Exchange(Err(refresh.error), [req], 1)
        else
          var y := Dispatch(send, refresh, again);
          Exchange(y.result, [req] + y.sent, 1 + y.refreshes)
  }

  /** A request already tagged is never retried and never triggers a refresh. */
  lemma TaggedRequestSentOnce(send: Request -> Outcome<Json>, refresh: Outcome<Json>, req: Request)
    requires req.retry
    ensures Dispatch(send, refresh, req) == Exchange(send(req), [req], 0)
  {
  }

  /** Whatever the server answers, one call refreshes at most once and puts
      at most two requests on the wire, and a call that is rejected after a
      retry is rejected with the retry's own error. */
  lemma {:induction false} AtMostOneRetry(send: Request -> Outcome<Json>, refresh: Outcome<Json>, req: Request)
    ensures var x := Dispatch(send, refresh, req);
      && x.refreshes <= 1 && |x.sent| <= 2
      && (|x.sent| == 2 ==> x.result == send(x.sent[1]) && x.sent[1].retry && !x.sent[0].retry)
  {
    var x := Dispatch(send, refresh, req);
    if |x.sent| == 2 {
      assert send(req).Err? && OnError(send(req).error, req).RefreshThenRetry?;
      TaggedRequestSentOnce(send, refresh, req.(retry := true));
    }
  }

  /** A request the server keeps refusing with 401 is sent twice, refreshed
      once, and rejected with the second 401. */
  lemma PersistentUnauthorizedRejected(send: Request -> Outcome<Json>, refresh: Outcome<Json>, req: Request)
    requires !req.retry && refresh.Ok?
    requires forall r: Request :: send(r).Err? && StatusOf(send(r).error) == Some(Unauthorized)
    ensures var x := Dispatch(send, refresh, req);
      x.result.Err? && StatusOf(x.result.error) == Some(Unauthorized) && |x.sent| == 2 && x.refreshes == 1
  {
    assert send(req).Err? && StatusOf(send(req).error) == Some(Unauthorized);
    var again := req.(retry := true);
    assert send(again).Err? && StatusOf(send(again).error) == Some(Unauthorized);
  }
}
