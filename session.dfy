/**
 * The session gate (src/middleware/auth.rs): the decision whether a request carries a session, the middleware
 * that answers 401 without one, and the expired cookie used to end a session.
 *
 * A cookie jar is a map from cookie name to value, as the private jar shows it once decrypted: a cookie that
 * fails to decrypt is absent. Token verification (an EdDSA signature and expiry check) is the abstract predicate
 * `verifies`.
 */
module Session {
  import opened Wrappers
  import opened Http
  import opened Config

  type Jar = map<string, string>

  const AuthTokenCookie := "auth_token"
  const UserIdCookie := "user_id"

  /** Seconds in a day. */
  const Day: int := 86400

  /** The fewest bytes `Key::from` accepts as the cookie master key. */
  const MinKeyBytes: nat := 64
  const KeyTooShort := "cookie encryption key shorter than 64 bytes"

  /**
   * `Key::from(get_cookie_encryption_key().as_bytes())`: the key's UTF-8 bytes. An unset key panics, and so does a
   * key of fewer than 64 bytes.
   */
  function CookieKey(env: Env): (r: Result<seq<byte>>)
    ensures r.Success? <==>
      "COOKIE_ENCRYPTION_KEY" in env && |Utf8Encode(env["COOKIE_ENCRYPTION_KEY"])| >= MinKeyBytes
    ensures r.Success? ==> r.value == Utf8Encode(env["COOKIE_ENCRYPTION_KEY"]) && |r.value| >= MinKeyBytes
    ensures "COOKIE_ENCRYPTION_KEY" !in env ==> r == Failure("COOKIE_ENCRYPTION_KEY not set")
    ensures "COOKIE_ENCRYPTION_KEY" in env && |Utf8Encode(env["COOKIE_ENCRYPTION_KEY"])| < MinKeyBytes ==>
      r == Failure(KeyTooShort)
  {
    match GetCookieEncryptionKey(env)
    case Failure(e) => Failure(e)
    case Success(key) =>
      var bytes := Utf8Encode(key);
      if |bytes| < MinKeyBytes then Failure(KeyTooShort) else Success(bytes)
  }

  /** An ASCII key is accepted exactly when it has at least 64 characters. */
  lemma AsciiKeyLength(env: Env)
    requires "COOKIE_ENCRYPTION_KEY" in env
    requires forall k :: 0 <= k < |env["COOKIE_ENCRYPTION_KEY"]| ==> (env["COOKIE_ENCRYPTION_KEY"][k] as int) < 0x80
    ensures CookieKey(env).Success? <==> |env["COOKIE_ENCRYPTION_KEY"]| >= MinKeyBytes
  {
    AsciiBytes(env["COOKIE_ENCRYPTION_KEY"]);
  }

  /** The identity the gate attaches to an authorised request: the `user_id` cookie's text. */
  datatype UserId = UserId(value: string)

  /**
   * `check_auth`: a session needs an `auth_token` cookie whose token verifies and a `user_id` cookie; the user is
   * the `user_id` cookie's value, not the token's own claim.
   */
  function CheckAuth(jar: Jar, verifies: string -> bool): (r: Option<UserId>)
    ensures r.Some? <==> AuthTokenCookie in jar && verifies(jar[AuthTokenCookie]) && UserIdCookie in jar
    ensures r.Some? ==> r.value == UserId(jar[UserIdCookie])
  {
    if AuthTokenCookie !in jar then None
    else if !verifies(jar[AuthTokenCookie]) then None
    else if UserIdCookie in jar then Some(UserId(jar[UserIdCookie]))
    else None
  }

  /** The gate's outcome: the inner handler's response with the user attached, or a bare status. */
  datatype Gate = Forwarded(response: Response, user: UserId) | Rejected(status: nat)

  /** `auth_cookie_middleware`: 401 without a session; otherwise the inner handler's response, tagged with the user. */
  function AuthCookieMiddleware(jar: Jar, verifies: string -> bool, inner: Response): (g: Gate)
    ensures g.Rejected? <==> CheckAuth(jar, verifies).None?
    ensures g.Rejected? ==> g.status == Unauthorized
    ensures g.Forwarded? ==> g.response == inner && g.user == CheckAuth(jar, verifies).value
  {
    match CheckAuth(jar, verifies)
    case Some(user) => Forwarded(inner, user)
    case None => Rejected(Unauthorized)
  }

  /** `build_expired_cookie`: value `deleted`, path `/`, expiring 365 days before `now` (in seconds). */
  function BuildExpiredCookie(name: string, now: int): (c: Cookie)
    ensures c.name == name && c.value == "deleted" && c.path == Some("/")
    ensures c.expires == Some(now - 365 * Day) && c.expires.value < now
  {
    Cookie(name, "deleted", Some("/"), Some(now - 365 * Day))
  }

  /** A cookie whose expiry is not after `now`. */
  predicate Expired(c: Cookie, now: int)
  {
    c.expires.Some? && c.expires.value <= now
  }

  /**
   * What a browser's cookie store does with one `Set-Cookie` at time `now` (section 5.3 of RFC 6265): an expired
   * cookie removes the stored cookie of that name, any other replaces it.
   */
  function ApplySetCookie(jar: Jar, c: Cookie, now: int): (r: Jar)
    ensures Expired(c, now) ==> c.name !in r
    ensures !Expired(c, now) ==> c.name in r && r[c.name] == c.value
    ensures forall n :: n in jar && n != c.name ==> n in r && r[n] == jar[n]
    ensures forall n :: n in r && n != c.name ==> n in jar
  {
    if Expired(c, now) then jar - {c.name} else jar[c.name := c.value]
  }

  /** The `Set-Cookie` headers of one response, in order. */
  function ApplySetCookies(jar: Jar, cs: seq<Cookie>, now: int): Jar
    decreases |cs|
  {
    if |cs| == 0 then jar else ApplySetCookies(ApplySetCookie(jar, cs[0], now), cs[1..], now)
  }

  /** A jar without an `auth_token` cookie carries no session, whatever the verifier and the other cookies. */
  lemma NoTokenNoSession(jar: Jar, verifies: string -> bool, inner: Response)
    requires AuthTokenCookie !in jar
    ensures CheckAuth(jar, verifies) == None
    ensures AuthCookieMiddleware(jar, verifies, inner) == Rejected(Unauthorized)
  {
  }

  /** The user the gate reports does not depend on which verifying token is presented. */
  lemma SessionUserFromCookie(jar: Jar, verifies: string -> bool, token: string)
    requires verifies(token) && UserIdCookie in jar
    ensures CheckAuth(jar[AuthTokenCookie := token], verifies) == Some(UserId(jar[UserIdCookie]))
  {
    assert UserIdCookie != AuthTokenCookie;
  }

  /** The expired cookie built for a name removes that name from the store, whatever it held. */
  lemma ExpiredCookieRemoves(jar: Jar, name: string, now: int)
    ensures name !in ApplySetCookie(jar, BuildExpiredCookie(name, now), now)
  {
  }

  /** A response setting two cookies applies them in order. */
  lemma ApplyTwo(jar: Jar, cs: seq<Cookie>, now: int)
    requires |cs| == 2
    ensures ApplySetCookies(jar, cs, now) == ApplySetCookie(ApplySetCookie(jar, cs[0], now), cs[1], now)
  {
    var j1 := ApplySetCookie(jar, cs[0], now);
    assert cs[1..][0] == cs[1] && |cs[1..][1..]| == 0;
    assert ApplySetCookies(j1, cs[1..], now) == ApplySetCookies(ApplySetCookie(j1, cs[1], now), cs[1..][1..], now);
  }
}
