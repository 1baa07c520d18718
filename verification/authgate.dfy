/** The bearer-token gate in front of every order route
    (`src/middlewares/auth.middleware.ts`): four checks in a fixed order, the first
    that fails answering 401 with its own message, and on success the verified claims
    become the request's user. */
module AuthGate {
  import opened Common
  import opened JsText
  import opened Crypto

  const NoToken: string := "No token provided"
  const TokenError: string := "Token error"
  const TokenMalformatted: string := "Token malformatted"
  const TokenInvalid: string := "Token invalid"

  /** `req.user`: the identity downstream handlers see. */
  datatype AuthUser = AuthUser(id: string, email: string)

  /** Rejected requests never reach a handler; admitted ones reach it once. */
  datatype GateResult = Rejected(message: string) | Admitted(user: AuthUser)

  /** `/^Bearer$/i`: the word "Bearer" in any mix of upper and lower case letters. */
  predicate IsBearerScheme(s: string) {
    |s| == 6 && forall i :: 0 <= i < 6 ==> AsciiLower(s[i]) == "bearer"[i]
  }

  function Gate(header: Option<string>, verify: string -> Option<Claims>): (r: GateResult)
    ensures r == Rejected(NoToken) <==> header.None? || header.value == ""
    ensures r == Rejected(TokenError) <==>
              header.Some? && header.value != "" && Count(header.value, ' ') != 1
    ensures r.Rejected? ==> r.message in {NoToken, TokenError, TokenMalformatted, TokenInvalid}
    ensures r.Admitted? ==>
              && header.Some? && Count(header.value, ' ') == 1
              && IsBearerScheme(Split(header.value, ' ')[0])
              && verify(Split(header.value, ' ')[1]) == Some(Claims(r.user.id, r.user.email))
  {
    if header.None? || header.value == "" then Rejected(NoToken)
    else
      var parts := Split(header.value, ' ');
      if |parts| != 2 then Rejected(TokenError)
      else if !IsBearerScheme(parts[0]) then Rejected(TokenMalformatted)
      else match verify(parts[1])
        case None => Rejected(TokenInvalid)
        case Some(claims) => Admitted(AuthUser(claims.id, claims.email))
  }

  /** On a header made of a space-free scheme, one space and a space-free token, the
      outcome is decided by the scheme first and then by verification alone. */
  lemma GateOnSchemeAndToken(scheme: string, token: string, verify: string -> Option<Claims>)
    requires ' ' !in scheme && ' ' !in token
    ensures Gate(Some(scheme + " " + token), verify) ==
              if !IsBearerScheme(scheme) then Rejected(TokenMalformatted)
              else if verify(token).None? then Rejected(TokenInvalid)
              else Admitted(AuthUser(verify(token).value.id, verify(token).value.email))
  {
    SplitAround(scheme, token, ' ');
    assert scheme + " " + token == scheme + [' '] + token;
  }

  /** Conversely, every header that gets past the part count is such a header. */
  lemma GateSeesSchemeAndToken(h: string)
    requires Count(h, ' ') == 1
    ensures var parts := Split(h, ' ');
            && h == parts[0] + " " + parts[1]
            && ' ' !in parts[0] && ' ' !in parts[1]
  {
    SplitTwoParts(h, ' ');
  }

  /** Two spaces between scheme and token make three parts. */
  lemma DoubleSpaceIsTokenError(verify: string -> Option<Claims>)
    ensures Gate(Some("Bearer  x"), verify) == Rejected(TokenError)
  {
    assert Count("Bearer  x", ' ') == 2;
  }
}
