/**
 * The middleware that protects REST routes: it takes the token from an
 * `Authorization: Bearer <token>` header, verifies it, and either stores the
 * decoded claims on the request and passes it on, or answers 401.
 */
module RequireAuth {
  import opened Wrappers
  import opened Tokens
  import opened JsString

  const BearerPrefix: string := "Bearer "

  /**
   * The header with its first seven characters removed when it starts with
   * the exact, case-sensitive prefix; "" otherwise (both are falsy). An absent
   * header is "".
   */
  function BearerToken(header: string): (token: string)
    ensures StartsWith(header, BearerPrefix) ==> header == BearerPrefix + token
    ensures !StartsWith(header, BearerPrefix) ==> token == ""
  {
    if StartsWith(header, BearerPrefix) then header[|BearerPrefix|..] else ""
  }

  /** Extraction undoes prefixing: the token of "Bearer " + t is t. */
  lemma BearerTokenOfPrefixed(token: string)
    ensures BearerToken(BearerPrefix + token) == token
  {
    assert (BearerPrefix + token)[..|BearerPrefix|] == BearerPrefix;
  }

  /** What the middleware decides: pass the claims on, or refuse with a message. */
  datatype Decision = Pass(user: Identity) | Unauthorized(error: string)

  function Authorize(header: string, verify: Verifier): (d: Decision)
    ensures d.Pass? <==> BearerToken(header) != "" && verify(BearerToken(header)).Some?
    ensures d.Pass? ==> d.user == verify(BearerToken(header)).value
    ensures BearerToken(header) == "" <==> d == Unauthorized("Missing token")
    ensures BearerToken(header) != "" && verify(BearerToken(header)).None? <==> d == Unauthorized("Invalid token")
  {
    var token := BearerToken(header);
    if token == "" then Unauthorized("Missing token")
    else match verify(token)
      case None => Unauthorized("Invalid token")
      case Some(user) => Pass(user)
  }

  /**
   * A header without the exact prefix, an absent header included, and a header
   * that is exactly "Bearer " are all refused as a missing token, whatever the
   * verifier would say.
   */
  lemma MissingTokenCases(header: string, verify: Verifier)
    requires !StartsWith(header, BearerPrefix) || header == BearerPrefix
    ensures Authorize(header, verify) == Unauthorized("Missing token")
  {
    if header == BearerPrefix {
      BearerTokenOfPrefixed("");
      assert BearerPrefix + "" == BearerPrefix;
    }
  }

  /** A prefixed token is passed to the verifier unchanged. */
  lemma AuthorizePrefixed(token: string, verify: Verifier)
    requires token != ""
    ensures Authorize(BearerPrefix + token, verify) ==
            if verify(token).Some? then Pass(verify(token).value) else Unauthorized("Invalid token")
  {
    BearerTokenOfPrefixed(token);
  }

  /** A JSON reply. */
  datatype Body = ErrorBody(error: string) | UserBody(user: Identity)
  datatype Response = Response(status: nat, body: Body)

  /** One request in flight: `req.user`, the response sent so far, and how often `next` ran. */
  class Exchange {
    var user: Option<Identity>
    var response: Option<Response>
    var nextCalls: nat

    constructor ()
      ensures user.None? && response.None? && nextCalls == 0
    {
      user, response, nextCalls := None, None, 0;
    }

    /**
     * `requireAuth(req, res, next)`. On success `req.user` holds the decoded
     * claims, `next` runs once and nothing is sent; otherwise a 401 is sent,
     * `next` does not run and `req.user` is untouched.
     */
    method RequireAuth(header: string, verify: Verifier)
      modifies this
      ensures match Authorize(header, verify)
              case Pass(u) => user == Some(u) && nextCalls == old(nextCalls) + 1 && response == old(response)
              case Unauthorized(e) =>
                user == old(user) && nextCalls == old(nextCalls) && response == Some(Response(401, ErrorBody(e)))
    {
      var token := if StartsWith(header, BearerPrefix) then header[7..] else "";
      if token == "" {
        response := Some(Response(401, ErrorBody("Missing token")));
        return;
      }
      var decoded := verify(token);
      if decoded.None? {
        response := Some(Response(401, ErrorBody("Invalid token")));
        return;
      }
      user := decoded;
      nextCalls := nextCalls + 1;
    }

    /** `/auth/me`, reached only through the middleware: it answers with `req.user`. */
    method Me()
      requires user.Some?
      modifies this
      ensures response == Some(Response(200, UserBody(old(user).value)))
      ensures user == old(user) && nextCalls == old(nextCalls)
    {
      response := Some(Response(200, UserBody(user.value)));
    }
  }
}
