/** The link verifier of the background worker (dist/background.js):
    `fetchWithTimeout`, `checkLinkWithFallback` and the status mapping of
    `checkSingleLink`. Every fetch is answered by a network oracle, so each
    of them is a total function of the URL and the oracle. */
module Fetch {
  import opened Strings
  import opened Links

  datatype Method = Head | Get
  datatype Mode = Cors | NoCors
  datatype Request = Request(url: string, verb: Method, mode: Mode)

  /** What one `fetch` call does: it resolves with a response carrying a
      status, or it rejects with an error message. */
  datatype FetchOutcome = Response(status: nat) | Throw(msg: string)

  /** The network, as seen by `fetch` (the 5-second abort timer included:
      a timed-out request is a Throw). */
  type Network = Request -> FetchOutcome

  /** A value together with the requests made to compute it, in order. */
  datatype Traced<T> = Traced(value: T, requests: seq<Request>)

  /** `response.ok`: the "ok status" of the Fetch Standard (section 2.2.3,
      "Statuses"), 200 to 299 inclusive. */
  predicate OkStatus(status: nat)
  {
    200 <= status <= 299
  }

  /** `fetchWithTimeout(url, {method})`: a CORS request first; only if it
      rejects, one no-cors request, whose rejection is rethrown as is. A
      no-cors response is opaque: the Fetch Standard gives it status 0
      whatever the server sent. */
  function FetchWithTimeout(url: string, verb: Method, net: Network): (r: Traced<FetchOutcome>)
    ensures 1 <= |r.requests| <= 2
    ensures r.requests[0] == Request(url, verb, Cors)
    ensures |r.requests| == 2 <==> net(Request(url, verb, Cors)).Throw?
    ensures |r.requests| == 2 ==> r.requests[1] == Request(url, verb, NoCors)
    ensures net(Request(url, verb, Cors)).Response? ==> r.value == net(Request(url, verb, Cors))
    ensures net(Request(url, verb, Cors)).Throw? ==>
      r.value == match net(Request(url, verb, NoCors))
                 case Throw(m) => Throw(m)
                 case Response(_) => Response(0)
  {
    var cors := Request(url, verb, Cors);
    match net(cors)
    case Response(s) => Traced(Response(s), [cors])
    case Throw(_) =>
      var noCors := Request(url, verb, NoCors);
      match net(noCors)
      case Response(_) => Traced(Response(0), [cors, noCors])
      case Throw(m) => Traced(Throw(m), [cors, noCors])
  }

  /** The `{working, statusCode, error}` object of checkLinkWithFallback. */
  datatype CheckResult = CheckResult(working: bool, statusCode: Option<int>, error: Option<string>)

  /** "HTTP <status>" */
  function HttpError(status: nat): string
  {
    "HTTP " + NatToDecimal(status)
  }

  /** The result built from a response: working iff ok, error only if not. */
  function FromResponse(status: nat): (r: CheckResult)
    ensures r.working == OkStatus(status) && r.statusCode == Some(status)
    ensures r.error == if r.working then None else Some(HttpError(status))
  {
    CheckResult(OkStatus(status), Some(status), if OkStatus(status) then None else Some(HttpError(status)))
  }

  /** True when every request of rs is for url with the given method. */
  predicate AllFor(rs: seq<Request>, url: string, verb: Method)
  {
    forall i :: 0 <= i < |rs| ==> rs[i].url == url && rs[i].verb == verb
  }

  /** `checkLinkWithFallback(url)`: HEAD first; a HEAD status of exactly 403
      is retried once with GET (whose response is reported, ok or not, and
      whose rejection falls back to the 403); a rejected HEAD is retried
      once with GET (whose rejection is reported as its message, or
      "Connection failed" when the message is empty). It never throws. */
  function CheckLinkWithFallback(url: string, net: Network): (r: Traced<CheckResult>)
    // the result is consistent: working exactly when an ok status was read
    ensures r.value.working <==> r.value.statusCode.Some? && 0 <= r.value.statusCode.value
                                 && OkStatus(r.value.statusCode.value)
    ensures r.value.working <==> r.value.error == None
    // a HEAD attempt comes first, then at most one GET attempt
    ensures var head := FetchWithTimeout(url, Head, net);
      && |head.requests| <= |r.requests|
      && r.requests[..|head.requests|] == head.requests
      && var rest := r.requests[|head.requests|..];
         (rest == [] || rest == FetchWithTimeout(url, Get, net).requests)
    // a HEAD response other than 403 is reported directly, without a GET
    ensures var head := FetchWithTimeout(url, Head, net).value;
      head.Response? && head.status != 403 ==>
        r.value == FromResponse(head.status) && AllFor(r.requests, url, Head)
    // a HEAD 403 or a HEAD rejection triggers exactly one GET attempt
    ensures var head := FetchWithTimeout(url, Head, net).value;
      (head.Throw? || head.status == 403) ==>
        r.requests == FetchWithTimeout(url, Head, net).requests + FetchWithTimeout(url, Get, net).requests
    // whose response is reported, whatever its status
    ensures var head := FetchWithTimeout(url, Head, net).value;
      var get := FetchWithTimeout(url, Get, net).value;
      (head.Throw? || head.status == 403) && get.Response? ==> r.value == FromResponse(get.status)
    // a GET rejection after a HEAD 403 reports the 403
    ensures var head := FetchWithTimeout(url, Head, net).value;
      var get := FetchWithTimeout(url, Get, net).value;
      head.Response? && head.status == 403 && get.Throw? ==>
        r.value == CheckResult(false, Some(403), Some("HTTP 403"))
    // a GET rejection after a HEAD rejection reports the transport error
    ensures var head := FetchWithTimeout(url, Head, net).value;
      var get := FetchWithTimeout(url, Get, net).value;
      head.Throw? && get.Throw? ==>
        r.value == CheckResult(false, None, Some(if get.msg == "" then "Connection failed" else get.msg))
  {
    var head := FetchWithTimeout(url, Head, net);
    match head.value
    case Response(s) =>
      if s == 403 then
        var get := FetchWithTimeout(url, Get, net);
        match get.value
        case Response(g) => Traced(FromResponse(g), head.requests + get.requests)
        case Throw(_) => Traced(CheckResult(false, Some(403), Some("HTTP 403")), head.requests + get.requests)
      else
        Traced(FromResponse(s), head.requests)
    case Throw(_) =>
      var get := FetchWithTimeout(url, Get, net);
      match get.value
      case Response(g) => Traced(FromResponse(g), head.requests + get.requests)
      case Throw(m) =>
        Traced(CheckResult(false, None, Some(if m == "" then "Connection failed" else m)),
               head.requests + get.requests)
  }

  /** The fields `checkSingleLink(link)` writes: status, statusCode, error
      and checkedAt (= `now`, the clock reading). Its catch branch is
      unreachable, since CheckLinkWithFallback never throws. */
  function CheckSingleLink(link: Link, net: Network, now: int): (r: Link)
    ensures r.status != Unchecked && r.checkedAt == Some(now)
    ensures r.status == Broken <==> !CheckLinkWithFallback(link.url, net).value.working
    ensures r.status == Working <==> r.statusCode.Some? && 0 <= r.statusCode.value && OkStatus(r.statusCode.value)
    ensures r.status == Working <==> r.error == None
    ensures r == link.(status := r.status, statusCode := r.statusCode, error := r.error, checkedAt := r.checkedAt)
  {
    var result := CheckLinkWithFallback(link.url, net).value;
    link.(status := if result.working then Working else Broken,
          statusCode := result.statusCode,
          error := result.error,
          checkedAt := Some(now))
  }

  /** The fallback turns a blocked CORS request whose no-cors retry gets
      through into a broken link with status 0: an opaque response is
      never ok. */
  lemma OpaqueFallbackIsBroken(url: string, net: Network)
    requires net(Request(url, Head, Cors)).Throw? && net(Request(url, Head, NoCors)).Response?
    ensures CheckLinkWithFallback(url, net).value == CheckResult(false, Some(0), Some("HTTP 0"))
  {
    assert DigitChar(0) == '0';
    assert HttpError(0) == "HTTP 0";
  }

  /** A HEAD that times out (rejects in both modes) and a GET that answers
      200 in CORS mode give a working link with the GET's status code. */
  lemma HeadTimeoutGetOk(url: string, net: Network)
    requires net(Request(url, Head, Cors)).Throw? && net(Request(url, Head, NoCors)).Throw?
    requires net(Request(url, Get, Cors)) == Response(200)
    ensures CheckLinkWithFallback(url, net).value == CheckResult(true, Some(200), None)
    ensures |CheckLinkWithFallback(url, net).requests| == 3
  {
  }
}
