/**
 * The request gate in front of the protected routes. `authenticate` takes
 * the bearer token from the `Authorization` header, verifies it, and loads
 * the caller's identity from the stored user (never from the token's
 * claims); `authorize(roles)` lets through only callers whose role is listed.
 *
 * Token signing and verification are opaque: a `Jwt` is a pair of functions,
 * and `verify` either yields the claims of a well-signed, unexpired token or
 * fails. The clock that decides expiry lives inside `verify`.
 */
module AuthMiddleware {
  import opened Wrappers
  import opened Domain
  import Text

  /** The payload of an issued token. */
  datatype Claims = Claims(userId: Id, role: Role, region: string)

  /** `jwt.sign(claims, secret, { expiresIn })` and `jwt.verify(token, secret)`. */
  datatype Jwt = Jwt(sign: (Claims, nat) -> string, verify: string -> Option<Claims>)

  /** Every token is issued with `expiresIn: "24h"`, in seconds. */
  const TokenLifetime: nat := 24 * 60 * 60

  /**
   * A verifier that accepts what the signer issued, with tokens that are
   * non-empty and free of spaces, as JSON web tokens are. Expiry is not
   * part of the model: a sound verifier accepts every issued token.
   */
  ghost predicate Sound(jwt: Jwt) {
    forall c: Claims, ttl: nat ::
      jwt.verify(jwt.sign(c, ttl)) == Some(c) && jwt.sign(c, ttl) != "" && ' ' !in jwt.sign(c, ttl)
  }

  /** `req.user`: the caller as the stored user record describes them. */
  datatype ReqUser = ReqUser(userId: Id, role: Role, region: string)

  function AsCaller(u: User): ReqUser {
    ReqUser(u.id, u.role, u.region)
  }

  /** A middleware either calls `next` with the caller or answers with an error status. */
  datatype Gate = Pass(user: ReqUser) | Halt(status: nat, error: string)

  /**
   * `req.headers.authorization?.split(" ")[1]`, treated as absent when it is
   * `undefined` or empty.
   */
  function BearerToken(header: Option<string>): (t: Option<string>)
    ensures t.Some? ==> t.value != "" && ' ' !in t.value
    ensures header.None? ==> t.None?
    ensures header.Some? && ' ' !in header.value ==> t.None?
  {
    if header.None? then None
    else
      var parts := Text.Split(header.value, ' ');
      if |parts| > 1 && parts[1] != "" then Some(parts[1]) else None
  }

  /** The token is the piece after the first space, whatever word precedes it. */
  lemma BearerTokenOfScheme(scheme: string, token: string)
    requires ' ' !in scheme && ' ' !in token && token != ""
    ensures BearerToken(Some(scheme + " " + token)) == Some(token)
  {
    Text.SplitPrefixed(scheme, token, ' ');
    assert scheme + " " + token == scheme + [' '] + token;
  }

  /** Two spaces after the scheme leave an empty second piece: no token. */
  lemma DoubleSpaceHasNoToken(scheme: string, token: string)
    requires ' ' !in scheme
    ensures BearerToken(Some(scheme + "  " + token)) == None
  {
    var rest := [' '] + token;
    assert scheme + "  " + token == scheme + [' '] + rest;
    Text.SplitAfterFirst(scheme, rest, ' ');
    Text.SplitAfterFirst([], token, ' ');
    assert [] + [' '] + token == rest;
  }

  /**
   * `authenticate`: 401 "No token provided" without a token; 401 "Invalid or
   * expired token" when verification fails or the user lookup throws
   * (`lookupFails`); 401 "Invalid token - user not found" when the token's
   * user is gone; otherwise the caller as stored.
   */
  function Authenticate(header: Option<string>, users: seq<User>, jwt: Jwt, lookupFails: bool): (g: Gate)
    ensures g.Halt? ==> g.status == 401
    ensures BearerToken(header).None? ==> g == Halt(401, "No token provided")
    ensures BearerToken(header).Some? && jwt.verify(BearerToken(header).value).None? ==>
      g == Halt(401, "Invalid or expired token")
    ensures lookupFails && BearerToken(header).Some? ==> g.Halt?
    ensures g.Pass? ==>
      && BearerToken(header).Some?
      && jwt.verify(BearerToken(header).value).Some?
      && exists i :: 0 <= i < |users| &&
           users[i].id == jwt.verify(BearerToken(header).value).value.userId &&
           g.user == AsCaller(users[i])
  {
    var token := BearerToken(header);
    if token.None? then Halt(401, "No token provided")
    else
      var decoded := jwt.verify(token.value);
      if decoded.None? || lookupFails then Halt(401, "Invalid or expired token")
      else
        var user := FindUserById(users, decoded.value.userId);
        if user.None? then Halt(401, "Invalid token - user not found")
        else
          var i :| 0 <= i < |users| && users[i] == user.value;
          Pass(AsCaller(user.value))
  }

  /** A verified token whose user is gone never authenticates. */
  lemma MissingUserRejected(header: Option<string>, users: seq<User>, jwt: Jwt)
    requires BearerToken(header).Some?
    requires jwt.verify(BearerToken(header).value).Some?
    requires forall i :: 0 <= i < |users| ==> users[i].id != jwt.verify(BearerToken(header).value).value.userId
    ensures Authenticate(header, users, jwt, false) == Halt(401, "Invalid token - user not found")
  {
  }

  /**
   * The role and region in the token are ignored: two tokens naming the same
   * user authenticate the same caller, whatever role or region they claim.
   */
  lemma ClaimsOtherThanUserIgnored(h1: Option<string>, h2: Option<string>, users: seq<User>, jwt: Jwt)
    requires BearerToken(h1).Some? && BearerToken(h2).Some?
    requires jwt.verify(BearerToken(h1).value).Some? && jwt.verify(BearerToken(h2).value).Some?
    requires jwt.verify(BearerToken(h1).value).value.userId == jwt.verify(BearerToken(h2).value).value.userId
    ensures Authenticate(h1, users, jwt, false) == Authenticate(h2, users, jwt, false)
  {
  }

  /** A token issued for a stored user authenticates that user, as currently stored. */
  lemma IssuedTokenAuthenticates(users: seq<User>, jwt: Jwt, i: nat, c: Claims)
    requires Sound(jwt) && UniqueUserIds(users)
    requires i < |users| && c.userId == users[i].id
    ensures Authenticate(Some("Bearer " + jwt.sign(c, TokenLifetime)), users, jwt, false) == Pass(AsCaller(users[i]))
  {
    var token := jwt.sign(c, TokenLifetime);
    assert jwt.verify(token) == Some(c) && token != "" && ' ' !in token;
    BearerTokenOfScheme("Bearer", token);
    assert "Bearer" + " " + token == "Bearer " + token;
    assert BearerToken(Some("Bearer " + token)) == Some(token);
    FindUserByIdUnique(users, i);
    assert FindUserById(users, c.userId) == Some(users[i]);
  }

  /** `authorize(roles)`: 403 "Unauthorized" exactly when the caller's role is not listed. */
  function Authorize(roles: seq<Role>, user: ReqUser): (g: Gate)
    ensures g.Pass? <==> user.role in roles
    ensures g.Pass? ==> g.user == user
    ensures g.Halt? ==> g == Halt(403, "Unauthorized")
  {
    if user.role in roles then Pass(user) else Halt(403, "Unauthorized")
  }
}
