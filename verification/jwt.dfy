/**
 * Session tokens: the claim set of RFC 7519 that the service signs with
 * HS256 (section 3.2 of RFC 7518), and the acceptance rule applied to a
 * token that comes back.
 *
 * The claims carry `exp` (section 4.1.4 of RFC 7519) in Unix seconds and the
 * caller's `id` renamed to `sub` (section 4.1.2). Signing and decoding are
 * oracles held by the service value; the map manipulation and the expiry
 * comparison are exact. Time is a parameter `now` in Unix seconds, and
 * durations are whole seconds.
 */
module Jwt {
  import opened Wrappers
  import opened Errors

  /** A claim value as it travels through a `map[string]any`. */
  datatype Value = Str(s: string) | Int(i: int) | Float(x: real) | Bool(b: bool) | Null

  type Claims = map<string, Value>

  /**
   * What `jwt.Parse` yields with the service's key callback: an error
   * (malformed token, bad signature, claims the library's own validation
   * refuses), or a token with its signing method (HMAC or not), its claims,
   * whether they came back as a `MapClaims`, and the library's `Valid` flag.
   */
  datatype Parsed =
    | ParseError
    | Token(hmac: bool, claims: Claims, isMapClaims: bool, valid: bool)

  /**
   * The service: its key and token lifetimes, and the signing and parsing
   * primitives it uses (`SignedString` with HS256, and `jwt.Parse`). The
   * parser is given the clock reading its claim validation compares with.
   */
  datatype JwtService = JwtService(
    key: string,
    accessDuration: int,
    refreshDuration: int,
    sign: (Claims, string) -> Result<string, string>,
    parse: (string, string, int) -> Parsed)

  /** A caller's map, which the token generators change in place. */
  class ClaimData {
    var entries: Claims

    constructor (entries: Claims)
      ensures this.entries == entries
    {
      this.entries := entries;
    }
  }

  // ---------------------------------------------------------------------
  // Claim construction

  /** The keys of the signed claims: `exp`, every caller key except `id`, and `sub` when `id` was given. */
  function ClaimKeys(data: Claims): set<string>
  {
    {"exp"} + (data.Keys - {"id"}) + (if "id" in data then {"sub"} else {})
  }

  /**
   * The claims `generateJWT` signs, for any order of the copy loop: the
   * keys above, each caller value copied unchanged, `exp` the expiry unless
   * the caller gave one, and `sub` the caller's `id` or the caller's own
   * `sub` (when both are present, whichever the loop visits last).
   */
  ghost predicate ClaimsFor(data: Claims, exp: int, c: Claims)
  {
    && c.Keys == ClaimKeys(data)
    && (forall k :: k in data && k != "id" && k != "sub" ==> c[k] == data[k])
    && ("exp" !in data ==> c["exp"] == Int(exp))
    && ("sub" in c ==> ("id" in data && c["sub"] == data["id"]) || ("sub" in data && c["sub"] == data["sub"]))
  }

  /** The claim set in which `id` wins over a caller's `sub`; the only one when there is no `sub`. */
  function ClaimsOf(data: Claims, exp: int): (c: Claims)
    ensures ClaimsFor(data, exp, c)
  {
    map k | k in ClaimKeys(data) ::
      if k == "sub" && "id" in data then data["id"]
      else if k in data then data[k]
      else Int(exp)
  }

  /** Without a caller `sub`, the claim set is determined: it is `ClaimsOf`. */
  lemma ClaimsDetermined(data: Claims, exp: int, c: Claims)
    requires "sub" !in data
    ensures ClaimsFor(data, exp, c) <==> c == ClaimsOf(data, exp)
  {
    if ClaimsFor(data, exp, c) {
      var d := ClaimsOf(data, exp);
      assert c.Keys == d.Keys;
      forall k | k in c
        ensures c[k] == d[k]
      {
        if k == "sub" {
          assert "id" in data;
        } else if k != "exp" || "exp" in data {
          assert k in data;
        }
      }
    }
  }

  /** One iteration of the copy loop: writing `key` (renamed when it is `id`) keeps the claims in step with the visited map. */
  lemma ClaimsForStep(d: Claims, exp: int, c: Claims, key: string, v: Value)
    requires ClaimsFor(d, exp, c) && key !in d
    ensures ClaimsFor(d[key := v], exp, if key == "id" then c["sub" := v] else c[key := v])
  {
    var d' := d[key := v];
    var c' := if key == "id" then c["sub" := v] else c[key := v];
    assert c'.Keys == ClaimKeys(d');
    forall k | k in d' && k != "id" && k != "sub"
      ensures c'[k] == d'[k]
    {
      if k != key {
        assert k in d;
      }
    }
  }

  /** The body of the copy loop in `generateJWT`: `id` is written under `sub`, every other key under itself. */
  function Write(claims: Claims, key: string, v: Value): (c: Claims)
    ensures key != "id" ==> c == claims[key := v]
    ensures key == "id" ==> c == claims["sub" := v]
  {
    if key == "id" then claims["sub" := v] else claims[key := v]
  }

  /** The loop's state after visiting `key`: one more visited key, and the claims still in step. */
  lemma VisitKey(data: Claims, todo: set<string>, visited: Claims, exp: int, claims: Claims, key: string)
    requires key in todo && todo <= data.Keys
    requires visited.Keys == data.Keys - todo
    requires forall k :: k in visited ==> visited[k] == data[k]
    requires ClaimsFor(visited, exp, claims)
    ensures visited[key := data[key]].Keys == data.Keys - (todo - {key})
    ensures forall k :: k in visited[key := data[key]] ==> visited[key := data[key]][k] == data[k]
    ensures ClaimsFor(visited[key := data[key]], exp, Write(claims, key, data[key]))
  {
    ClaimsForStep(visited, exp, claims, key, data[key]);
  }

  /** The lines of `generateJWT` that build the claims: `exp` first, then every caller key in map order. */
  method BuildClaims(data: Claims, exp: int) returns (claims: Claims)
    ensures ClaimsFor(data, exp, claims)
  {
    claims := map["exp" := Int(exp)];
    var todo := data.Keys;
    ghost var visited: Claims := map[];
    while todo != {}
      invariant todo <= data.Keys
      invariant visited.Keys == data.Keys - todo
      invariant forall k :: k in visited ==> visited[k] == data[k]
      invariant ClaimsFor(visited, exp, claims)
      decreases |todo|
    {
      var key :| key in todo;
      VisitKey(data, todo, visited, exp, claims, key);
      visited := visited[key := data[key]];
      claims := Write(claims, key, data[key]);
      todo := todo - {key};
    }
    SameMap(visited, data);
  }

  lemma SameMap(a: Claims, b: Claims)
    requires a.Keys == b.Keys - {}
    requires forall k :: k in a ==> a[k] == b[k]
    ensures a == b
  {
  }

  /** Signing a claim set: the token with the expiry, or the signing error joined to `ErrSignToken`. */
  function Signed(s: JwtService, claims: Claims, exp: int): (r: Result<(string, int), Error>)
    ensures r.Ok? <==> s.sign(claims, s.key).Ok?
    ensures r.Ok? ==> r.value == (s.sign(claims, s.key).value, exp)
    ensures r.Err? ==> r.error == SignToken(s.sign(claims, s.key).error)
  {
    match s.sign(claims, s.key)
    case Ok(token) => Ok((token, exp))
    case Err(cause) => Err(SignToken(cause))
  }

  /** `generateJWT`: builds the claims and signs them; on success it returns the expiry it embedded. */
  method GenerateJWT(s: JwtService, data: Claims, expiresAt: int) returns (r: Result<(string, int), Error>, ghost claims: Claims)
    ensures ClaimsFor(data, expiresAt, claims)
    ensures claims["exp"] == (if "exp" in data then data["exp"] else Int(expiresAt))
    ensures r == Signed(s, claims, expiresAt)
    ensures r.Ok? ==> r.value.1 == expiresAt
    ensures "sub" !in data ==> r == Signed(s, ClaimsOf(data, expiresAt), expiresAt)
  {
    var built := BuildClaims(data, expiresAt);
    claims := built;
    if "sub" !in data {
      ClaimsDetermined(data, expiresAt, built);
    }
    var signed := s.sign(built, s.key);
    if signed.Err? {
      return Err(SignToken(signed.error)), claims;
    }
    return Ok((signed.value, expiresAt)), claims;
  }

  /**
   * `GenerateAccessJWT` and `GenerateRefreshJWT`: delete the caller's `exp`
   * in place, then sign with expiry `now` plus the lifetime.
   */
  method GenerateWithLifetime(s: JwtService, data: ClaimData, now: int, lifetime: int)
    returns (r: Result<(string, int), Error>, ghost claims: Claims)
    modifies data
    ensures data.entries == old(data.entries) - {"exp"}
    ensures ClaimsFor(data.entries, now + lifetime, claims)
    ensures claims["exp"] == Int(now + lifetime)
    ensures r == Signed(s, claims, now + lifetime)
    ensures "sub" !in old(data.entries) ==> r == Signed(s, ClaimsOf(data.entries, now + lifetime), now + lifetime)
  {
    var expiresAt := now + lifetime;
    data.entries := data.entries - {"exp"};
    r, claims := GenerateJWT(s, data.entries, expiresAt);
  }

  /** `GenerateAccessJWT`: expiry `now + AccessDuration`. */
  method GenerateAccessJWT(s: JwtService, data: ClaimData, now: int) returns (r: Result<(string, int), Error>, ghost claims: Claims)
    modifies data
    ensures data.entries == old(data.entries) - {"exp"}
    ensures ClaimsFor(data.entries, now + s.accessDuration, claims)
    ensures claims["exp"] == Int(now + s.accessDuration)
    ensures r == Signed(s, claims, now + s.accessDuration)
    ensures "sub" !in old(data.entries) ==> r == Issue(s, data.entries, now + s.accessDuration)
  {
    r, claims := GenerateWithLifetime(s, data, now, s.accessDuration);
  }

  /** `GenerateRefreshJWT`: expiry `now + RefreshDuration`. */
  method GenerateRefreshJWT(s: JwtService, data: ClaimData, now: int) returns (r: Result<(string, int), Error>, ghost claims: Claims)
    modifies data
    ensures data.entries == old(data.entries) - {"exp"}
    ensures ClaimsFor(data.entries, now + s.refreshDuration, claims)
    ensures claims["exp"] == Int(now + s.refreshDuration)
    ensures r == Signed(s, claims, now + s.refreshDuration)
    ensures "sub" !in old(data.entries) ==> r == Issue(s, data.entries, now + s.refreshDuration)
  {
    r, claims := GenerateWithLifetime(s, data, now, s.refreshDuration);
  }

  /** The token issued for a map without `sub` or `exp`, as a function of its inputs. */
  function Issue(s: JwtService, data: Claims, exp: int): (r: Result<(string, int), Error>)
    ensures r.Ok? ==> r.value.1 == exp
    ensures "exp" !in data ==> ClaimsOf(data, exp)["exp"] == Int(exp)
  {
    Signed(s, ClaimsOf(data, exp), exp)
  }

  // ---------------------------------------------------------------------
  // Acceptance

  /** `int64(x)` for a float64 in range: truncation toward zero. */
  function Trunc(x: real): (n: int)
    ensures x >= 0.0 ==> n as real <= x < n as real + 1.0
    ensures x < 0.0 ==> n as real - 1.0 < x <= n as real
  {
    if x >= 0.0 then x.Floor else -((-x).Floor)
  }

  lemma TruncOfInteger(i: int)
    ensures Trunc(i as real) == i
  {
    if i < 0 {
      assert (-(i as real)).Floor == -i;
    }
  }

  /** The library accepted the token, with an HMAC method and map claims. */
  predicate Accepted(p: Parsed)
  {
    p.Token? && p.hmac && p.isMapClaims && p.valid
  }

  /** The expiry check: `exp` present as a number and `now` past its integer part. */
  predicate Expired(claims: Claims, now: int)
  {
    "exp" in claims && claims["exp"].Float? && now > Trunc(claims["exp"].x)
  }

  /**
   * What `ParseJWT` returns for a parse result: every parse failure,
   * including a non-HMAC method, is the wrapped `ErrUnexpectedSigningMethod`;
   * claims that are not a map or not valid are `ErrInvalidTokenClaims`; a
   * numeric `exp` in the past is `ErrLifetimeIsOver`; otherwise the claims.
   */
  function Verify(p: Parsed, now: int): (r: Result<Claims, Error>)
    ensures r.Ok? <==> Accepted(p) && !Expired(p.claims, now)
    ensures r.Ok? ==> r.value == p.claims
    ensures r == Err(UnexpectedSigningMethod) <==> p.ParseError? || !p.hmac
    ensures r == Err(InvalidTokenClaims) <==> p.Token? && p.hmac && !(p.isMapClaims && p.valid)
    ensures r == Err(LifetimeIsOver) <==> Accepted(p) && Expired(p.claims, now)
  {
    if p.ParseError? || !p.hmac then Err(UnexpectedSigningMethod)
    else if !p.isMapClaims || !p.valid then Err(InvalidTokenClaims)
    else if Expired(p.claims, now) then Err(LifetimeIsOver)
    else Ok(p.claims)
  }

  /** The copy loop at the end of `ParseJWT`: a new map with every claim of the token. */
  method CopyClaims(claims: Claims) returns (data: Claims)
    ensures data == claims
  {
    data := map[];
    var todo := claims.Keys;
    while todo != {}
      invariant todo <= claims.Keys
      invariant data.Keys == claims.Keys - todo
      invariant forall k :: k in data ==> data[k] == claims[k]
      decreases |todo|
    {
      var key :| key in todo;
      data := data[key := claims[key]];
      todo := todo - {key};
    }
    assert data.Keys == claims.Keys;
  }

  /** `ParseJWT`: the checks in order, then a fresh map holding a copy of every claim. */
  method ParseJWT(s: JwtService, tokenString: string, now: int) returns (r: Result<Claims, Error>)
    ensures r == Verify(s.parse(tokenString, s.key, now), now)
  {
    var token := s.parse(tokenString, s.key, now);
    if token.ParseError? || !token.hmac {
      return Err(UnexpectedSigningMethod);
    }
    if !token.isMapClaims || !token.valid {
      return Err(InvalidTokenClaims);
    }
    var claims := token.claims;
    if "exp" in claims && claims["exp"].Float? {
      if now > Trunc(claims["exp"].x) {
        return Err(LifetimeIsOver);
      }
    }
    assert !Expired(claims, now);
    var data := CopyClaims(claims);
    return Ok(data);
  }

  /** A token whose numeric `exp` is the whole second `e` is accepted at `e` and rejected from `e + 1` on. */
  lemma ExpiryBoundary(p: Parsed, e: int, now: int)
    requires Accepted(p)
    requires "exp" in p.claims && p.claims["exp"] == Float(e as real)
    ensures Verify(p, now).Ok? <==> now <= e
    ensures now > e ==> Verify(p, now) == Err(LifetimeIsOver)
  {
    TruncOfInteger(e);
  }

  /** A token without a numeric `exp` is never rejected for its lifetime. */
  lemma NoNumericExpNeverExpires(p: Parsed, now: int)
    requires Accepted(p)
    requires "exp" !in p.claims || !p.claims["exp"].Float?
    ensures Verify(p, now) == Ok(p.claims)
  {
  }

  /** A claim value after a JSON round trip: integers come back as float64. */
  function Json(v: Value): (w: Value)
    ensures v.Int? ==> w == Float(v.i as real)
    ensures !v.Int? ==> w == v
  {
    match v
    case Int(i) => Float(i as real)
    case _ => v
  }

  function AsJson(c: Claims): (d: Claims)
    ensures d.Keys == c.Keys
  {
    map k | k in c :: Json(c[k])
  }

  /**
   * The library's own claim validation refuses an expired token, by the
   * same rule as the code: a numeric `exp` whose integer part is before
   * `now`. (`MapClaims.Valid` of golang-jwt compares `now` with `int64(exp)`,
   * except that it skips an `exp` whose integer part is 0.)
   */
  ghost predicate ChecksExpiry(s: JwtService)
  {
    forall token, now :: s.parse(token, s.key, now).Token? ==>
      !Expired(s.parse(token, s.key, now).claims, now) || Trunc(s.parse(token, s.key, now).claims["exp"].x) == 0
  }

  /**
   * Lifetime round trip: a token issued at `now` with lifetime `lifetime`,
   * whose claims the decoder returns with their JSON numbers, is accepted
   * at every time up to and including `now + lifetime` at which the library
   * accepts it, and refused at every later time, whichever check refuses it.
   * When the library checks expiry itself, a late token (with an expiry
   * other than 0) is refused by the library, so the code's own
   * `ErrLifetimeIsOver` branch is not reached.
   */
  lemma LifetimeRoundTrip(s: JwtService, data: Claims, now: int, lifetime: int, claims: Claims, token: string, at: int)
    requires "exp" !in data
    requires ClaimsFor(data, now + lifetime, claims)
    requires Signed(s, claims, now + lifetime) == Ok((token, now + lifetime))
    requires s.parse(token, s.key, at).Token? ==> s.parse(token, s.key, at).claims == AsJson(claims)
    ensures Accepted(s.parse(token, s.key, at)) ==> (Verify(s.parse(token, s.key, at), at).Ok? <==> at <= now + lifetime)
    ensures at > now + lifetime ==> Verify(s.parse(token, s.key, at), at).Err?
    ensures at > now + lifetime && Accepted(s.parse(token, s.key, at)) ==>
      Verify(s.parse(token, s.key, at), at) == Err(LifetimeIsOver)
    ensures at > now + lifetime && now + lifetime != 0 && ChecksExpiry(s) ==>
      Verify(s.parse(token, s.key, at), at) == Err(UnexpectedSigningMethod)
  {
    var p := s.parse(token, s.key, at);
    if p.Token? {
      assert p.claims["exp"] == Json(Int(now + lifetime)) == Float((now + lifetime) as real);
      TruncOfInteger(now + lifetime);
    }
  }
}
