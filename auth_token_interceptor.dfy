/** The HTTP interceptor that adds the session's access token to requests for
    the application's own back end. */
module AuthTokenInterceptor {
  import opened Wrappers
  import opened Text

  /** A request. Header names are case-insensitive, so the map is keyed by
      lower-case names. */
  datatype HttpRequest = HttpRequest(url: string, headers: map<string, string>)

  /** The outcome of fetching the session: a session, with or without an
      access token, or a rejected fetch. */
  datatype SessionOutcome = SessionOk(accessToken: Option<string>) | SessionFailed

  const AuthorizationHeader: string := "authorization"

  /** `/^https?:\/\//i`: the URL starts with an `http` or `https` scheme,
      letters in either case (section 3.1 of RFC 3986). */
  predicate IsAbsolute(url: string) {
    StartsWith(Lower(url), "http://") || StartsWith(Lower(url), "https://")
  }

  /** The header value of section 2.1 of RFC 6750. */
  function BearerCredentials(token: string): (v: string)
    ensures StartsWith(v, "Bearer ") && v[7..] == token
  {
    "Bearer " + token
  }

  /** The token the session carries, when it is a non-empty string. */
  function UsableToken(session: SessionOutcome): (t: Option<string>)
    ensures t.Some? <==> session.SessionOk? && session.accessToken.Some? && session.accessToken.value != ""
    ensures t.Some? ==> t == session.accessToken
  {
    match session
    case SessionFailed => None
    case SessionOk(token) => if token.Some? && token.value != "" then token else None
  }

  /** Whether the interceptor fetches the session at all: only for a relative
      URL without an `Authorization` header. */
  predicate NeedsToken(req: HttpRequest) {
    !IsAbsolute(req.url) && AuthorizationHeader !in req.headers
  }

  /** The request the interceptor hands on once the session is known. */
  function Authorize(req: HttpRequest, session: SessionOutcome): (r: HttpRequest)
    ensures r.url == req.url
    ensures forall name :: name != AuthorizationHeader ==>
      (name in r.headers <==> name in req.headers) && (name in r.headers ==> r.headers[name] == req.headers[name])
    ensures r != req <==> NeedsToken(req) && UsableToken(session).Some?
    ensures r != req ==> AuthorizationHeader in r.headers && r.headers[AuthorizationHeader] == BearerCredentials(UsableToken(session).value)
  {
    if !NeedsToken(req) then req
    else
      match UsableToken(session)
      case None => req
      case Some(token) => req.(headers := req.headers[AuthorizationHeader := BearerCredentials(token)])
  }

  /** Absolute URLs are recognised in any letter case: whether a URL is
      absolute does not depend on the case of its ASCII letters. For example,
      an upper-case scheme is absolute and an application path is not. */
  lemma UpperCaseSchemeIsAbsolute(u: string)
    ensures IsAbsolute(Lower(u)) <==> IsAbsolute(u)
    ensures IsAbsolute("HTTPS://example.org/")
    ensures !IsAbsolute("/api/addresses")
  {
    LowerIdempotent(u);
    assert Lower("HTTPS://example.org/")[..8] == "https://";
    assert Lower("/api/addresses")[0] == '/';
  }

  /** The requests the handler receives, in order, as the interceptor is
      written: `catchError` follows `switchMap`, so it also catches a failure
      of the forwarded request and forwards the original once more. `fails`
      says which requests the rest of the chain rejects. */
  function SentAsWritten(req: HttpRequest, session: SessionOutcome, fails: HttpRequest -> bool): (r: seq<HttpRequest>) {
    if !NeedsToken(req) then [req]
    else
      match session
      case SessionFailed => [req]
      case SessionOk(_) =>
        var first := Authorize(req, session);
        if fails(first) then [first, req] else [first]
  }

  /** The requests the handler receives when only a failed session fetch falls
      back to the original request: exactly one. */
  function Sent(req: HttpRequest, session: SessionOutcome): (r: seq<HttpRequest>)
    ensures |r| == 1 && r[0] == Authorize(req, session)
  {
    [Authorize(req, session)]
  }

  /** Both agree whenever the rest of the chain accepts the request. */
  lemma SentAsWrittenAgreesOnSuccess(req: HttpRequest, session: SessionOutcome, fails: HttpRequest -> bool)
    requires !fails(Authorize(req, session))
    ensures SentAsWritten(req, session, fails) == Sent(req, session)
  {
  }

  /** With the error handler placed last, a request that needs a token and
      that the rest of the chain rejects once the session is fetched is sent
      a second time, as it was written: the authorised copy is followed by the
      original without a token, and without a usable token the original goes
      out twice. Only a failed session fetch sends it once. For example, a
      rejected `/api/addresses` with token `t` goes out twice, with and then
      without the Authorization header. */
  lemma RejectedRequestIsResentWithoutToken(req: HttpRequest, session: SessionOutcome, fails: HttpRequest -> bool)
    requires NeedsToken(req) && fails(Authorize(req, session))
    ensures session.SessionOk? ==> SentAsWritten(req, session, fails) == [Authorize(req, session), req]
    ensures session.SessionOk? && UsableToken(session).Some? ==>
      AuthorizationHeader in SentAsWritten(req, session, fails)[0].headers
    ensures session.SessionOk? ==> AuthorizationHeader !in SentAsWritten(req, session, fails)[1].headers
    ensures session.SessionOk? && UsableToken(session).None? ==> SentAsWritten(req, session, fails) == [req, req]
    ensures session.SessionFailed? ==> SentAsWritten(req, session, fails) == [req]
    ensures var example := HttpRequest("/api/addresses", map[]);
      var r := SentAsWritten(example, SessionOk(Some("t")), (x: HttpRequest) => true);
      && |r| == 2
      && AuthorizationHeader in r[0].headers
      && AuthorizationHeader !in r[1].headers
  {
    UpperCaseSchemeIsAbsolute("/api/addresses");
  }
}
