/**
  * `AuthInterceptor.preHandle`: the bearer-token gate in front of the
  * statement endpoints. A request passes, or is answered with 401 or 403 and
  * a fixed message (what `response.sendError` would send).
  */
module Auth {
  import opened Wrappers
  import opened JavaStrings

  /** What `preHandle` decides: continue (true), or an error status and message (false). */
  datatype Verdict = Allow | Reject(status: int, message: string)

  const Unauthorized := 401
  const Forbidden := 403

  const BearerPrefix := "Bearer "
  const TokenPrefix := "VALID_TOKEN_"
  const StatementsPath := "/api/v1/statements"

  const MissingTokenMessage := "Missing or invalid Authorization Bearer token."
  const InvalidTokenMessage := "Invalid token."
  const ReadScopeMessage := ScopeMessage("STATEMENT_READ")
  const DownloadScopeMessage := ScopeMessage("STATEMENT_DOWNLOAD")

  /** The 403 message naming the scope a request lacks. */
  function ScopeMessage(scope: string): string {
    "Insufficient scope: Requires " + scope + "."
  }

  /** The token: the header without its first seven characters, the length of "Bearer ". */
  function Token(authHeader: string): (token: string)
    requires StartsWith(authHeader, BearerPrefix)
    ensures BearerPrefix + token == authHeader
  {
    authHeader[7..]
  }

  /**
    * `preHandle(request, response, handler)` for a request with the given
    * Authorization header (None when absent), request URI and method.
    */
  function PreHandle(authHeader: Option<string>, uri: string, httpMethod: string): (v: Verdict)
    ensures v.Reject? ==> v.status in {Unauthorized, Forbidden}
    ensures v.Reject? && v.status == Unauthorized ==> v.message == MissingTokenMessage
  {
    if authHeader.None? || !StartsWith(authHeader.value, BearerPrefix) then
      Reject(Unauthorized, MissingTokenMessage)
    else
      var token := Token(authHeader.value);
      if !StartsWith(token, TokenPrefix) then Reject(Forbidden, InvalidTokenMessage)
      else if Contains(uri, StatementsPath) && httpMethod == "GET" then
        if EndsWith(uri, "/status") then
          if !Contains(token, "STATEMENT_READ") then Reject(Forbidden, ReadScopeMessage) else Allow
        else if Contains(uri, "/download") then
          if !Contains(token, "STATEMENT_DOWNLOAD") then Reject(Forbidden, DownloadScopeMessage) else Allow
        else Allow
      else Allow
  }

  /**
    * The scope a request needs, stated per endpoint: reading a status needs
    * STATEMENT_READ, a download STATEMENT_DOWNLOAD; anything else that is not
    * a GET on the statements API needs none.
    */
  function RequiredScope(uri: string, httpMethod: string): Option<string> {
    if httpMethod != "GET" || !Contains(uri, StatementsPath) then None
    else if EndsWith(uri, "/status") then Some("STATEMENT_READ")
    else if Contains(uri, "/download") then Some("STATEMENT_DOWNLOAD")
    else None
  }

  /** The header carries a bearer token of the accepted form. */
  predicate WellFormedBearer(authHeader: Option<string>) {
    authHeader.Some? && StartsWith(authHeader.value, BearerPrefix) && StartsWith(Token(authHeader.value), TokenPrefix)
  }

  /** 401 comes first: exactly when the header is absent or is not a bearer header. */
  lemma UnauthorizedIff(authHeader: Option<string>, uri: string, httpMethod: string)
    ensures (PreHandle(authHeader, uri, httpMethod) == Reject(Unauthorized, MissingTokenMessage))
        <==> (authHeader.None? || !StartsWith(authHeader.value, BearerPrefix))
  {
  }

  /** "Invalid token." exactly when the header is a bearer header whose token lacks the VALID_TOKEN_ prefix. */
  lemma InvalidTokenIff(authHeader: Option<string>, uri: string, httpMethod: string)
    ensures (PreHandle(authHeader, uri, httpMethod) == Reject(Forbidden, InvalidTokenMessage))
        <==> (authHeader.Some? && StartsWith(authHeader.value, BearerPrefix)
              && !StartsWith(Token(authHeader.value), TokenPrefix))
  {
  }

  /** With a well-formed bearer token, the request passes exactly when the token holds the scope the endpoint needs. */
  lemma ScopeDecides(authHeader: Option<string>, uri: string, httpMethod: string)
    requires WellFormedBearer(authHeader)
    ensures var scope := RequiredScope(uri, httpMethod);
      PreHandle(authHeader, uri, httpMethod) == Allow <==> (scope.None? || Contains(Token(authHeader.value), scope.value))
  {
  }

  /** A well-formed bearer token that is refused is refused with 403, naming the scope the endpoint needs. */
  lemma ScopeRefusal(authHeader: Option<string>, uri: string, httpMethod: string)
    requires WellFormedBearer(authHeader) && PreHandle(authHeader, uri, httpMethod) != Allow
    ensures var scope := RequiredScope(uri, httpMethod);
      && scope.Some? && !Contains(Token(authHeader.value), scope.value)
      && PreHandle(authHeader, uri, httpMethod) == Reject(Forbidden, ScopeMessage(scope.value))
  {
    var token := Token(authHeader.value);
    assert Contains(uri, StatementsPath) && httpMethod == "GET";
    if EndsWith(uri, "/status") {
      assert !Contains(token, "STATEMENT_READ");
    } else {
      assert Contains(uri, "/download") && !Contains(token, "STATEMENT_DOWNLOAD");
    }
  }

  /** A header that is not a well-formed bearer header is never answered with a scope error, and never passes. */
  lemma MalformedHeaderNeverAllowed(authHeader: Option<string>, uri: string, httpMethod: string)
    requires !WellFormedBearer(authHeader)
    ensures PreHandle(authHeader, uri, httpMethod) in {Reject(Unauthorized, MissingTokenMessage), Reject(Forbidden, InvalidTokenMessage)}
  {
  }

  /** A request that is not a GET on the statements API passes with any well-formed bearer token. */
  lemma UnscopedRequestsPass(authHeader: Option<string>, uri: string, httpMethod: string)
    requires WellFormedBearer(authHeader)
    requires httpMethod != "GET" || !Contains(uri, StatementsPath)
    ensures PreHandle(authHeader, uri, httpMethod) == Allow
  {
  }
}
