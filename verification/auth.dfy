/**
 * The authentication middleware: it reads the `Authorization` header,
 * takes the token from `Bearer <token>` (compare section 2.1 of RFC 6750,
 * but matched case-sensitively and with exactly one space), verifies it,
 * and on success records the token's `sub` and `role` claims in the request
 * context as `id` and `role` before handing on to the next handler.
 */
module Auth {
  import opened Wrappers
  import opened Errors
  import opened Strings
  import opened Jwt
  import opened Replies

  /**
   * The header check: an empty header is missing; otherwise splitting on
   * single spaces must give exactly two parts, the first exactly `Bearer`,
   * and the token is the second.
   */
  function BearerToken(header: string): (r: Result<string, Error>)
    ensures r == Err(MissingAuthorizationHeader) <==> header == ""
    ensures r.Err? ==> r.error == MissingAuthorizationHeader || r.error == InvalidAuthorizationHeader
    ensures r.Ok? ==> header == "Bearer " + r.value && ' ' !in r.value
  {
    if header == "" then Err(MissingAuthorizationHeader)
    else
      var parts := Split(header, ' ');
      if |parts| != 2 || parts[0] != "Bearer" then Err(InvalidAuthorizationHeader)
      else
        JoinSplit(header, ' ');
        assert Join(parts, ' ') == parts[0] + [' '] + parts[1];
        Ok(parts[1])
  }

  /** Every header of the form `Bearer <token>` with no space in the token passes, with that token. */
  lemma BearerAccepted(token: string)
    requires ' ' !in token
    ensures BearerToken("Bearer " + token) == Ok(token)
  {
    var parts := ["Bearer", token];
    assert Join(parts, ' ') == "Bearer " + token;
    SplitJoin(parts, ' ');
  }

  /** The header passes the format check exactly when it is `Bearer `, then a token without spaces. */
  lemma BearerFormat(header: string)
    ensures BearerToken(header).Ok? <==> exists token :: header == "Bearer " + token && ' ' !in token
  {
    if exists token :: header == "Bearer " + token && ' ' !in token {
      var token :| header == "Bearer " + token && ' ' !in token;
      BearerAccepted(token);
    }
  }

  /** Another scheme than `Bearer` fails the format check. */
  lemma OtherSchemeRejected()
    ensures BearerToken("Token abc") == Err(InvalidAuthorizationHeader)
  {
    var parts := ["Token", "abc"];
    assert Join(parts, ' ') == "Token abc";
    SplitJoin(parts, ' ');
  }

  /** A doubled space makes three parts and fails the format check. */
  lemma DoubleSpaceRejected()
    ensures BearerToken("Bearer  abc") == Err(InvalidAuthorizationHeader)
  {
    var parts := ["Bearer", "", "abc"];
    assert Join(parts, ' ') == "Bearer  abc";
    SplitJoin(parts, ' ');
  }

  /** A bare `Bearer ` passes the format check with the empty token. */
  lemma EmptyTokenPasses()
    ensures BearerToken("Bearer ") == Ok("")
  {
    BearerAccepted("");
  }

  /** What the middleware decides for a header: the verified claims, or the error it reports. */
  function Authenticate(jwt: JwtService, header: string, now: int): (r: Result<Claims, Error>)
    ensures header == "" ==> r == Err(MissingAuthorizationHeader)
    ensures BearerToken(header).Err? ==> r == Err(BearerToken(header).error)
    ensures BearerToken(header).Ok? ==> r == Verify(jwt.parse(BearerToken(header).value, jwt.key, now), now)
  {
    match BearerToken(header)
    case Err(e) => Err(e)
    case Ok(token) => Verify(jwt.parse(token, jwt.key, now), now)
  }

  /** A header rejected by the format check is rejected whatever the verifier would say: it is never consulted. */
  lemma FormatErrorsSkipVerifier(j1: JwtService, j2: JwtService, header: string, now: int)
    requires BearerToken(header).Err?
    ensures Authenticate(j1, header, now) == Authenticate(j2, header, now)
  {
  }

  /** The value of a claim as `claims[key]` reads it from a Go map: `nil` when absent. */
  function Lookup(claims: Claims, key: string): (v: Value)
    ensures key in claims ==> v == claims[key]
    ensures key !in claims ==> v == Null
  {
    if key in claims then claims[key] else Null
  }

  /** The request context: the incoming header, the values set on it, and how often the next handler ran. */
  class Context {
    const authorization: string
    var values: map<string, Value>
    var nextRuns: nat

    constructor (authorization: string, values: map<string, Value>)
      ensures this.authorization == authorization && this.values == values && nextRuns == 0
    {
      this.authorization := authorization;
      this.values := values;
      nextRuns := 0;
    }
  }

  /**
   * `AuthMiddleware` applied to one request: every failure is a 401 whose
   * message is the error's text, with the context untouched and the next
   * handler not run; on success exactly `id` and `role` are set, and the
   * next handler runs once.
   */
  method Middleware(jwt: JwtService, c: Context, now: int) returns (reply: Reply)
    modifies c
    ensures Authenticate(jwt, c.authorization, now).Err? ==>
      reply == HttpError(StatusUnauthorized, Message(Authenticate(jwt, c.authorization, now).error))
      && c.values == old(c.values) && c.nextRuns == old(c.nextRuns)
    ensures Authenticate(jwt, c.authorization, now).Ok? ==>
      var claims := Authenticate(jwt, c.authorization, now).value;
      reply == Handled
      && c.values == old(c.values)["id" := Lookup(claims, "sub")]["role" := Lookup(claims, "role")]
      && c.nextRuns == old(c.nextRuns) + 1
  {
    var authHeader := c.authorization;
    if authHeader == "" {
      return HttpError(StatusUnauthorized, Message(MissingAuthorizationHeader));
    }
    var parts := Split(authHeader, ' ');
    if |parts| != 2 || parts[0] != "Bearer" {
      return HttpError(StatusUnauthorized, Message(InvalidAuthorizationHeader));
    }
    var claims := ParseJWT(jwt, parts[1], now);
    if claims.Err? {
      return HttpError(StatusUnauthorized, Message(claims.error));
    }
    c.values := c.values["id" := Lookup(claims.value, "sub")];
    c.values := c.values["role" := Lookup(claims.value, "role")];
    c.nextRuns := c.nextRuns + 1;
    return Handled;
  }

  /**
   * What a handler reads back as `c.Get("role").(string)` after the
   * middleware let a request through: the token's `role` claim when it is
   * a string, and otherwise (a token without a `role`, or with another
   * kind of value) a recovered panic.
   */
  lemma ContextRoleAfterMiddleware(claims: Claims)
    ensures "role" !in claims ==> AsString(Lookup(claims, "role")) == Err(Panicked)
    ensures "role" in claims && claims["role"].Str? ==> AsString(Lookup(claims, "role")) == Ok(claims["role"].s)
    ensures "role" in claims && !claims["role"].Str? ==> AsString(Lookup(claims, "role")) == Err(Panicked)
  {
  }
}
