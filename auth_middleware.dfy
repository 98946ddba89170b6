/**
 * The bearer-token gate in front of every candidate route
 * (backend/src/middleware/auth.middleware.ts). Any non-blank token is accepted.
 */
module AuthMiddleware {
  import opened Base
  import opened Text
  import opened ErrorMiddleware

  const BearerPrefix := "Bearer "
  const TokenRequiredMessage := "Token de autenticación requerido"
  const TokenInvalidMessage := "Token de autenticación inválido"

  datatype AuthResult = Authenticated(token: string) | Rejected(error: AppError)

  /** The decision `authenticate` takes on the `Authorization` header. */
  function CheckAuthorization(header: Option<string>): (r: AuthResult)
    ensures !Truthy(header) || !StartsWith(header.value, BearerPrefix) ==>
      r == Rejected(CreateError(TokenRequiredMessage, 401))
    ensures Truthy(header) && StartsWith(header.value, BearerPrefix) ==>
      (r.Authenticated? <==> !AllWs(header.value[7..]))
    ensures r.Authenticated? ==> header.Some? && header.value == BearerPrefix + r.token
    ensures r.Rejected? ==> StatusOf(r.error) == 401
  {
    if !Truthy(header) || !StartsWith(header.value, BearerPrefix) then
      Rejected(CreateError(TokenRequiredMessage, 401))
    else
      var token := SubstringFrom(header.value, 7);
      BlankIffAllWs(token);
      if token == "" || IsBlank(token) then Rejected(CreateError(TokenInvalidMessage, 401))
      else Authenticated(token)
  }

  /** The header "Bearer " alone carries an empty token and is rejected as invalid. */
  lemma EmptyTokenRejected()
    ensures CheckAuthorization(Some("Bearer ")) == Rejected(CreateError(TokenInvalidMessage, 401))
  {
  }

  /** Every token that is not blank is accepted as it is. */
  lemma AnyNonBlankTokenAccepted(token: string)
    requires !AllWs(token)
    ensures CheckAuthorization(Some(BearerPrefix + token)) == Authenticated(token)
  {
    var h := BearerPrefix + token;
    assert h[..7] == BearerPrefix;
    assert h[7..] == token;
    BlankIffAllWs(token);
  }

  /** The request object the middleware annotates. */
  class AuthRequest {
    const authorization: Option<string>
    var user: Option<string>

    constructor (authorization: Option<string>)
      ensures this.authorization == authorization && user.None?
    {
      this.authorization := authorization;
      user := None;
    }
  }

  /**
   * `authenticate(req, res, next)`: on success `req.user` holds the token and
   * the request goes on (`next()`); otherwise the error is thrown to the handler.
   */
  method Authenticate(req: AuthRequest) returns (r: AuthResult)
    modifies req`user
    ensures r == CheckAuthorization(req.authorization)
    ensures r.Authenticated? ==> req.user == Some(r.token)
    ensures r.Rejected? ==> req.user == old(req.user)
  {
    r := CheckAuthorization(req.authorization);
    if r.Authenticated? {
      req.user := Some(r.token);
    }
  }
}
