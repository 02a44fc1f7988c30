/** The client's wrapper around `fetch`: send with credentials; if the
    response says the access token expired, call the refresh endpoint once
    and, if that worked, replay the request once. The network is an oracle
    that settles the i-th underlying call. */
module FetchInterceptor {
  import opened Http

  /** The request options the wrapper passes on. */
  datatype Init = Init(httpMethod: Option<string>, credentials: Option<string>, body: Option<string>)

  /** One call of the original `fetch`. */
  datatype Call = Call(url: string, init: Init)

  datatype FetchResponse = FetchResponse(status: int, wwwAuthenticate: Option<string>, body: string) {
    /** `res.ok`. */
    predicate Ok() { 200 <= status <= 299 }
  }

  /** How the network settles one underlying call. */
  datatype Settled = Resolved(response: FetchResponse) | Rejected(reason: string)

  /** How the wrapped call settles. */
  datatype Outcome = Returned(response: FetchResponse) | Threw(reason: string)

  /** The outcome and the underlying calls made, in order. */
  datatype Trace = Trace(outcome: Outcome, calls: seq<Call>)

  const EXPIRY_MARKER: string := "token_expired"
  const LOGIN_REQUIRED: string := "Login required"
  const INCLUDE: string := "include"

  /** `{ ...options, credentials: "include" }`. */
  function WithCredentials(options: Option<Init>): (r: Init)
    ensures r.credentials == Some(INCLUDE)
    ensures options.Some? ==> r.httpMethod == options.value.httpMethod && r.body == options.value.body
    ensures options.None? ==> r.httpMethod.None? && r.body.None?
  {
    match options
    case None => Init(None, Some(INCLUDE), None)
    case Some(o) => o.(credentials := Some(INCLUDE))
  }

  /** `${authServiceURL}/refresh`; an unset base prints as `undefined`. */
  function RefreshUrl(authServiceURL: Option<string>): string {
    (match authServiceURL case Some(u) => u case None => "undefined") + "/refresh"
  }

  /** The refresh call: a credentialed POST to the refresh endpoint. */
  function RefreshCall(authServiceURL: Option<string>): Call {
    Call(RefreshUrl(authServiceURL), Init(Some("POST"), Some(INCLUDE), None))
  }

  /** `res.headers.get("www-authenticate")?.includes("token_expired")`. */
  predicate SignalsExpiry(res: FetchResponse) {
    res.wwwAuthenticate.Some? && Contains(res.wwwAuthenticate.value, EXPIRY_MARKER)
  }

  /** The wrapped `fetch(url, options)`. */
  function WrappedFetch(authServiceURL: Option<string>, url: string, options: Option<Init>,
                        network: (nat, Call) -> Settled): (r: Trace)
    ensures 1 <= |r.calls| <= 3
    ensures r.calls[0] == Call(url, WithCredentials(options))
    ensures forall i :: 0 <= i < |r.calls| ==> r.calls[i].init.credentials == Some(INCLUDE)
    ensures |r.calls| >= 2 ==> r.calls[1] == RefreshCall(authServiceURL)
    ensures |r.calls| == 3 ==> r.calls[2] == r.calls[0]
    ensures network(0, r.calls[0]).Rejected? ==> r == Trace(Threw(network(0, r.calls[0]).reason), [r.calls[0]])
    ensures network(0, r.calls[0]).Resolved? && !SignalsExpiry(network(0, r.calls[0]).response) ==>
              r == Trace(Returned(network(0, r.calls[0]).response), [r.calls[0]])
    ensures |r.calls| >= 2 <==> network(0, r.calls[0]).Resolved? && SignalsExpiry(network(0, r.calls[0]).response)
    ensures |r.calls| >= 2 ==>
              (|r.calls| == 3 <==> network(1, r.calls[1]).Resolved? && network(1, r.calls[1]).response.Ok())
    ensures |r.calls| == 2 && network(1, r.calls[1]).Resolved? ==> r.outcome == Threw(LOGIN_REQUIRED)
    ensures |r.calls| == 2 && network(1, r.calls[1]).Rejected? ==> r.outcome == Threw(network(1, r.calls[1]).reason)
    ensures |r.calls| == 3 ==>
              r.outcome == (match network(2, r.calls[2])
                            case Resolved(res) => Returned(res)
                            case Rejected(e) => Threw(e))
  {
    var first := Call(url, WithCredentials(options));
    match network(0, first)
    case Rejected(e) => Trace(Threw(e), [first])
    case Resolved(res) =>
      if !SignalsExpiry(res) then Trace(Returned(res), [first])
      else
        var refresh := RefreshCall(authServiceURL);
        match network(1, refresh)
        case Rejected(e) => Trace(Threw(e), [first, refresh])
        case Resolved(refreshRes) =>
          if !refreshRes.Ok() then Trace(Threw(LOGIN_REQUIRED), [first, refresh])
          else
            match network(2, first)
            case Rejected(e) => Trace(Threw(e), [first, refresh, first])
            case Resolved(replayed) => Trace(Returned(replayed), [first, refresh, first])
  }

  /** The replay's response is handed back even when it signals expiry
      again: there is no second refresh. */
  lemma NoSecondRefresh(authServiceURL: Option<string>, url: string, options: Option<Init>,
                        network: (nat, Call) -> Settled, again: FetchResponse)
    requires network(0, Call(url, WithCredentials(options))).Resolved?
    requires SignalsExpiry(network(0, Call(url, WithCredentials(options))).response)
    requires network(1, RefreshCall(authServiceURL)).Resolved?
    requires network(1, RefreshCall(authServiceURL)).response.Ok()
    requires network(2, Call(url, WithCredentials(options))) == Resolved(again)
    requires SignalsExpiry(again)
    ensures WrappedFetch(authServiceURL, url, options, network)
            == Trace(Returned(again), [Call(url, WithCredentials(options)), RefreshCall(authServiceURL),
                                        Call(url, WithCredentials(options))])
  {
  }
}
