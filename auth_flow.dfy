/**
 * The Discord login flow (src/handlers/auth.rs): the redirect to Discord's consent page, the callback that
 * admits a user and issues the session cookies, and logout.
 *
 * Everything outside the process is an input: the token endpoint's reply to the form sent, the user-info
 * request, the guild allow-list and its membership test, and token signing. A panic is an `Outcome` of its own.
 * The cookies of an outcome are those of the private jar returned with the response; the response built
 * beside it and then dropped is not part of the outcome, because nothing of it reaches the client.
 */
module AuthFlow {
  import opened Wrappers
  import opened Numerals
  import opened Http
  import opened Session
  import opened Config
  import opened HostStrings
  import opened UserStore

  const LoginCacheControl := "max-age=10, public"
  const CallbackPath := "/auth/callback"
  const GuildRejected := "You are not a member of an allowed Discord guild"
  const CodeMissing := "code not found"
  const TokenUnreadable := "failed to parse token response"
  const UnwrapNone := "called `Option::unwrap()` on a `None` value"

  /** A handler's outcome: a response with the cookies it sets, or a panic with its message. */
  datatype Outcome = Reply(response: Response, cookies: seq<Cookie>) | Panic(message: string)

  /** The scopes requested, joined with `%20` in the authorisation url. */
  const Scopes: seq<string> := ["identify", "guilds"]

  function Join(parts: seq<string>, sep: string): string
  {
    if |parts| == 0 then ""
    else if |parts| == 1 then parts[0]
    else parts[0] + sep + Join(parts[1..], sep)
  }

  /** The authorisation url for a client id and an already url-encoded callback address. */
  function LoginUrl(clientId: string, encodedRedirect: string): (u: string)
    ensures u == "https://discord.com/oauth2/authorize?client_id=" + clientId +
                 "&response_type=code&redirect_uri=" + encodedRedirect + "&scope=identify%20guilds"
  {
    assert Join(Scopes, "%20") == "identify%20guilds" by {
      assert Scopes[1..] == ["guilds"];
    }
    "https://discord.com/oauth2/authorize?client_id=" + clientId +
      "&response_type=code&redirect_uri=" + encodedRedirect + "&scope=" + Join(Scopes, "%20")
  }

  /** The temporary redirect of the login flow, which caches may keep for ten seconds. */
  function LoginRedirect(url: string): (resp: Response)
    ensures resp.status == TemporaryRedirect && Location(resp) == Some(url)
    ensures HeaderValue(resp, "cache-control") == Some(LoginCacheControl)
  {
    RedirectWithCacheControl(url, LoginCacheControl)
  }

  /**
   * `get_login_redirect`: a redirect to Discord's consent page whose callback is this host's `/auth/callback`,
   * encoded by `urlencode`. A missing credential or host header panics, the credentials being read first.
   */
  function GetLoginRedirect(env: Env, host: Option<string>, urlencode: string -> string): (o: Outcome)
    ensures o.Reply? <==> GetDiscordConfig(env).Success? && GetHostHeader(host).Success?
    ensures GetDiscordConfig(env).Failure? ==> o == Panic(GetDiscordConfig(env).error)
    ensures GetDiscordConfig(env).Success? && GetHostHeader(host).Failure? ==> o == Panic(GetHostHeader(host).error)
    ensures o.Reply? ==>
      o.cookies == [] && o.response.status == TemporaryRedirect &&
      HeaderValue(o.response, "cache-control") == Some(LoginCacheControl) &&
      Location(o.response) ==
        Some(LoginUrl(GetDiscordConfig(env).value.clientId, urlencode(GetHostHeader(host).value + CallbackPath)))
  {
    match GetDiscordConfig(env)
    case Failure(e) => Panic(e)
    case Success(config) =>
      match GetHostHeader(host)
      case Failure(e) => Panic(e)
      case Success(base) =>
        Reply(LoginRedirect(LoginUrl(config.clientId, urlencode(base + CallbackPath))), [])
  }

  /** The query of the callback. */
  datatype CallbackQuery = CallbackQuery(code: Option<string>, error: Option<string>, errorDescription: Option<string>)

  datatype FormField = FormField(name: string, value: string)

  /** The token endpoint's answer: no answer at all, or a status, its text, and the access token if it parses. */
  datatype TokenReply = TransportFailed(message: string) | Answered(status: nat, text: string, accessToken: Option<string>)

  /** The part of Discord's user record the callback reads. */
  datatype DiscordUser = DiscordUser(id: string, username: string)

  /** The world outside the process, as the callback meets it, and the time of the upsert. */
  datatype Services = Services(
    exchange: seq<FormField> -> TokenReply,
    fetchUser: string -> Result<DiscordUser>,
    guilds: seq<string>,
    hasAnyGuild: (DiscordUser, seq<string>) -> bool,
    createJwt: (seq<byte>, int) -> Result<string>,
    upsertFails: bool,
    now: Timestamp)

  /** The form posted to the token endpoint. The callback address is sent without encoding. */
  function TokenForm(config: DiscordConfig, redirectUri: string, code: string): (form: seq<FormField>)
    ensures |form| == 6
    ensures form[2] == FormField("redirect_uri", redirectUri) && form[3] == FormField("code", code)
  {
    [FormField("client_id", config.clientId), FormField("client_secret", config.clientSecret),
     FormField("redirect_uri", redirectUri), FormField("code", code),
     FormField("scope", "identify+guilds"), FormField("grant_type", "authorization_code")]
  }

  /** `StatusCode::is_success`. */
  predicate IsSuccess(status: nat)
  {
    200 <= status <= 299
  }

  /** The first half of the callback, up to and including the guild check: it touches no table. */
  datatype Admission = Admitted(user: DiscordUser) | Refused(outcome: Outcome)

  /** The query carries a code and no error, and the credentials and the host header are present. */
  predicate ExchangeStarts(env: Env, host: Option<string>, q: CallbackQuery)
  {
    q.error.None? && q.code.Some? && GetDiscordConfig(env).Success? && GetHostHeader(host).Success?
  }

  /** The token-exchange reply for a query that got that far. */
  function Exchanged(env: Env, host: Option<string>, code: string, svc: Services): TokenReply
    requires GetDiscordConfig(env).Success? && GetHostHeader(host).Success?
  {
    svc.exchange(TokenForm(GetDiscordConfig(env).value, GetHostHeader(host).value + CallbackPath, code))
  }

  /**
   * The early exits of `callback` before the upsert, in order: an `error` in the query; no `code`; missing
   * credentials or host; a failed token request; a non-success status; an unreadable token; a failed
   * user-info request; a non-empty guild allow-list that the user is in no guild of.
   */
  function Admit(env: Env, host: Option<string>, q: CallbackQuery, svc: Services): (a: Admission)
    ensures a.Refused? ==> (a.outcome.Reply? ==> a.outcome.cookies == [])
    ensures q.error.Some? ==>
      a == Refused(if q.errorDescription.Some? then Reply(ErrorReply(InternalServerError, q.errorDescription.value), [])
                   else Panic(UnwrapNone))
    ensures a.Admitted? <==>
      q.error.None? && q.code.Some? && GetDiscordConfig(env).Success? && GetHostHeader(host).Success? &&
      var reply := Exchanged(env, host, q.code.value, svc);
      reply.Answered? && IsSuccess(reply.status) && reply.accessToken.Some? &&
      var fetched := svc.fetchUser(reply.accessToken.value);
      fetched.Success? && (|svc.guilds| == 0 || svc.hasAnyGuild(fetched.value, svc.guilds))
    ensures a.Admitted? ==> a.user == svc.fetchUser(Exchanged(env, host, q.code.value, svc).accessToken.value).value
    ensures q.error.None? && q.code.None? ==> a == Refused(Panic(CodeMissing))
    ensures q.error.None? && q.code.Some? && GetDiscordConfig(env).Failure? ==>
      a == Refused(Panic(GetDiscordConfig(env).error))
    ensures q.error.None? && q.code.Some? && GetDiscordConfig(env).Success? && GetHostHeader(host).Failure? ==>
      a == Refused(Panic(GetHostHeader(host).error))
    ensures ExchangeStarts(env, host, q) ==> var reply := Exchanged(env, host, q.code.value, svc);
      reply.TransportFailed? ==> a == Refused(Reply(ErrorReply(InternalServerError, reply.message), []))
    ensures ExchangeStarts(env, host, q) ==> var reply := Exchanged(env, host, q.code.value, svc);
      reply.Answered? && !IsSuccess(reply.status) ==>
      a == Refused(Reply(ErrorReply(InternalServerError, reply.text), []))
    ensures ExchangeStarts(env, host, q) ==> var reply := Exchanged(env, host, q.code.value, svc);
      reply.Answered? && IsSuccess(reply.status) && reply.accessToken.None? ==>
      a == Refused(Panic(TokenUnreadable))
    ensures ExchangeStarts(env, host, q) ==> var reply := Exchanged(env, host, q.code.value, svc);
      reply.Answered? && IsSuccess(reply.status) && reply.accessToken.Some? &&
      svc.fetchUser(reply.accessToken.value).Failure? ==>
      a == Refused(Reply(ErrorReply(InternalServerError, svc.fetchUser(reply.accessToken.value).error), []))
    ensures ExchangeStarts(env, host, q) ==> var reply := Exchanged(env, host, q.code.value, svc);
      reply.Answered? && IsSuccess(reply.status) && reply.accessToken.Some? &&
      svc.fetchUser(reply.accessToken.value).Success? && |svc.guilds| > 0 &&
      !svc.hasAnyGuild(svc.fetchUser(reply.accessToken.value).value, svc.guilds) ==>
      a == Refused(Reply(ErrorReply(Forbidden, GuildRejected), []))
  {
    if q.error.Some? then
      Refused(if q.errorDescription.Some? then Reply(ErrorReply(InternalServerError, q.errorDescription.value), [])
              else Panic(UnwrapNone))
    else if q.code.None? then Refused(Panic(CodeMissing))
    else if GetDiscordConfig(env).Failure? then Refused(Panic(GetDiscordConfig(env).error))
    else if GetHostHeader(host).Failure? then Refused(Panic(GetHostHeader(host).error))
    else
      match Exchanged(env, host, q.code.value, svc)
      case TransportFailed(m) => Refused(Reply(ErrorReply(InternalServerError, m), []))
      case Answered(status, text, token) =>
        if !IsSuccess(status) then Refused(Reply(ErrorReply(InternalServerError, text), []))
        else if token.None? then Refused(Panic(TokenUnreadable))
        else
          match svc.fetchUser(token.value)
          case Failure(e) => Refused(Reply(ErrorReply(InternalServerError, e), []))
          case Success(user) =>
            if |svc.guilds| > 0 && !svc.hasAnyGuild(user, svc.guilds) then
              Refused(Reply(ErrorReply(Forbidden, GuildRejected), []))
            else Admitted(user)
  }

  /** The two session cookies, both for the whole site and without an expiry. */
  function SessionCookies(jwt: string, id: nat): (cs: seq<Cookie>)
    ensures |cs| == 2 && cs[0].name == AuthTokenCookie && cs[1].name == UserIdCookie
    ensures cs[0].value == jwt && AllDigits(cs[1].value) && DigitsValue(cs[1].value) == id
    ensures cs[0].path == Some("/") && cs[1].path == Some("/")
    ensures cs[0].expires.None? && cs[1].expires.None?
  {
    [Cookie(AuthTokenCookie, jwt, Some("/"), None), Cookie(UserIdCookie, NatToDecimal(id), Some("/"), None)]
  }

  datatype CallbackResult = CallbackResult(outcome: Outcome, users: Users)

  /**
   * `callback`: an admitted user is upserted; then a missing or short cookie key panics, a missing private
   * signing key panics, a failed signing is a 500, and otherwise the session cookies are set on a temporary
   * redirect to `/`.
   */
  function CallbackSpec(users: Users, env: Env, host: Option<string>, q: CallbackQuery, svc: Services)
    : (r: CallbackResult)
    requires UserStore.WellFormed(users)
    ensures UserStore.WellFormed(r.users)
    ensures Admit(env, host, q, svc).Refused? ==> r == CallbackResult(Admit(env, host, q, svc).outcome, users)
    ensures Admit(env, host, q, svc).Admitted? ==>
      var user := Admit(env, host, q, svc).user;
      var t := Upsert(users, user.id, user.username, svc.now, svc.upsertFails);
      r.users == t.state &&
      (t.result.Failure? ==> r.outcome == Reply(ErrorReply(InternalServerError, t.result.error), [])) &&
      (t.result.Success? && CookieKey(env).Failure? ==>
        r.outcome == Panic(CookieKey(env).error)) &&
      (t.result.Success? && CookieKey(env).Success? && GetJwtPrivate(env).Failure? ==>
        r.outcome == Panic(GetJwtPrivate(env).error)) &&
      (t.result.Success? && CookieKey(env).Success? && GetJwtPrivate(env).Success? ==>
        t.result.value.id >= 1 &&
        var jwt := svc.createJwt(GetJwtPrivate(env).value, t.result.value.id);
        (jwt.Failure? ==> r.outcome == Reply(ErrorReply(InternalServerError, jwt.error), [])) &&
        (jwt.Success? ==> r.outcome == Reply(Redirect("/"), SessionCookies(jwt.value, t.result.value.id))))
  {
    match Admit(env, host, q, svc)
    case Refused(o) => CallbackResult(o, users)
    case Admitted(user) =>
      var t := Upsert(users, user.id, user.username, svc.now, svc.upsertFails);
      match t.result
      case Failure(e) => CallbackResult(Reply(ErrorReply(InternalServerError, e), []), t.state)
      case Success(row) =>
        assert row.id >= 1 by {
          var i :| 0 <= i < |t.state| && t.state[i] == row;
        }
        match CookieKey(env)
        case Failure(e) => CallbackResult(Panic(e), t.state)
        case Success(_) =>
          match GetJwtPrivate(env)
          case Failure(e) => CallbackResult(Panic(e), t.state)
          case Success(pem) =>
            match svc.createJwt(pem, row.id)
            case Failure(e) => CallbackResult(Reply(ErrorReply(InternalServerError, e), []), t.state)
            case Success(jwt) => CallbackResult(Reply(Redirect("/"), SessionCookies(jwt, row.id)), t.state)
  }

  /** `callback` on the users table, exit by exit. */
  method Callback(users: UserTable, env: Env, host: Option<string>, q: CallbackQuery, svc: Services)
    returns (o: Outcome)
    requires users.Valid()
    modifies users
    ensures users.Valid()
    ensures CallbackResult(o, users.rows) == CallbackSpec(old(users.rows), env, host, q, svc)
  {
    var admission := Admit(env, host, q, svc);
    if admission.Refused? {
      return admission.outcome;
    }
    var user := admission.user;
    var upserted := users.UpsertUser(user.id, user.username, svc.now, svc.upsertFails);
    if upserted.Failure? {
      return Reply(ErrorReply(InternalServerError, upserted.error), []);
    }
    var key := CookieKey(env);
    if key.Failure? {
      return Panic(key.error);
    }
    var pem := GetJwtPrivate(env);
    if pem.Failure? {
      return Panic(pem.error);
    }
    var jwt := svc.createJwt(pem.value, upserted.value.id);
    if jwt.Failure? {
      return Reply(ErrorReply(InternalServerError, jwt.error), []);
    }
    o := Reply(Redirect("/"), SessionCookies(jwt.value, upserted.value.id));
  }

  /** `logout`: a temporary redirect to `/` with both session cookies replaced by expired ones. */
  function Logout(env: Env, now: int): (o: Outcome)
    ensures o.Panic? <==> CookieKey(env).Failure?
    ensures o.Panic? ==> o.message == CookieKey(env).error
    ensures "COOKIE_ENCRYPTION_KEY" !in env ==> o == Panic("COOKIE_ENCRYPTION_KEY not set")
    ensures "COOKIE_ENCRYPTION_KEY" in env && |Utf8Encode(env["COOKIE_ENCRYPTION_KEY"])| < MinKeyBytes ==>
      o == Panic(KeyTooShort)
    ensures o.Reply? ==>
      o.response == Redirect("/") &&
      o.cookies == [BuildExpiredCookie(AuthTokenCookie, now), BuildExpiredCookie(UserIdCookie, now)]
  {
    match CookieKey(env)
    case Failure(e) => Panic(e)
    case Success(_) => Reply(Redirect("/"), [BuildExpiredCookie(AuthTokenCookie, now), BuildExpiredCookie(UserIdCookie, now)])
  }

  /** A callback with an `error` parameter ends before any request: its outcome does not depend on the world. */
  lemma ErrorQueryShortCircuits(users: Users, env: Env, host: Option<string>, q: CallbackQuery, svc1: Services,
                                svc2: Services)
    requires UserStore.WellFormed(users) && q.error.Some? && q.errorDescription.Some?
    ensures CallbackSpec(users, env, host, q, svc1) == CallbackSpec(users, env, host, q, svc2)
    ensures CallbackSpec(users, env, host, q, svc1) ==
      CallbackResult(Reply(ErrorReply(InternalServerError, q.errorDescription.value), []), users)
  {
  }

  /** A failed token request or a non-success status is a 500 with no upsert and no cookie. */
  lemma TokenFailureLeavesNoTrace(users: Users, env: Env, host: Option<string>, q: CallbackQuery, svc: Services)
    requires UserStore.WellFormed(users)
    requires q.error.None? && q.code.Some? && GetDiscordConfig(env).Success? && GetHostHeader(host).Success?
    requires var reply := Exchanged(env, host, q.code.value, svc);
      reply.TransportFailed? || !IsSuccess(reply.status)
    ensures var r := CallbackSpec(users, env, host, q, svc);
      var reply := Exchanged(env, host, q.code.value, svc);
      r.users == users &&
      r.outcome == Reply(ErrorReply(InternalServerError, if reply.TransportFailed? then reply.message else reply.text), [])
  {
  }

  /** A non-empty allow-list the user fails is a 403 before any upsert; an empty one is never consulted. */
  lemma GuildGate(users: Users, env: Env, host: Option<string>, q: CallbackQuery, svc: Services,
                  member: (DiscordUser, seq<string>) -> bool)
    requires UserStore.WellFormed(users)
    ensures Admit(env, host, q, svc).Admitted? && |svc.guilds| > 0 ==>
      svc.hasAnyGuild(Admit(env, host, q, svc).user, svc.guilds)
    ensures |svc.guilds| == 0 ==>
      CallbackSpec(users, env, host, q, svc) == CallbackSpec(users, env, host, q, svc.(hasAnyGuild := member))
  {
    if |svc.guilds| == 0 {
      assert Admit(env, host, q, svc) == Admit(env, host, q, svc.(hasAnyGuild := member));
    }
  }

  /** A guild refusal is exactly a 403 carrying the guild message, with the table untouched. */
  lemma GuildRefusal(users: Users, env: Env, host: Option<string>, q: CallbackQuery, svc: Services, user: DiscordUser)
    requires UserStore.WellFormed(users)
    requires q.error.None? && q.code.Some? && GetDiscordConfig(env).Success? && GetHostHeader(host).Success?
    requires var reply := Exchanged(env, host, q.code.value, svc);
      reply.Answered? && IsSuccess(reply.status) && reply.accessToken.Some? &&
      svc.fetchUser(reply.accessToken.value) == Success(user)
    requires |svc.guilds| > 0 && !svc.hasAnyGuild(user, svc.guilds)
    ensures CallbackSpec(users, env, host, q, svc) ==
      CallbackResult(Reply(ErrorReply(Forbidden, GuildRejected), []), users)
  {
  }

  /** Session cookies are issued only on the full success path, and only then. */
  lemma CookiesOnlyOnSuccess(users: Users, env: Env, host: Option<string>, q: CallbackQuery, svc: Services)
    requires UserStore.WellFormed(users)
    ensures var r := CallbackSpec(users, env, host, q, svc);
      r.outcome.Reply? && |r.outcome.cookies| > 0 <==>
        Admit(env, host, q, svc).Admitted? && !svc.upsertFails && CookieKey(env).Success? &&
        GetJwtPrivate(env).Success? &&
        var user := Admit(env, host, q, svc).user;
        svc.createJwt(GetJwtPrivate(env).value, Upsert(users, user.id, user.username, svc.now, false).result.value.id).Success?
  {
  }

  /**
   * After a successful callback, a browser holding the cookies it set is in session as the upserted user: the
   * gate reports the decimal id, which reads back as that id.
   */
  lemma CallbackStartsSession(users: Users, env: Env, host: Option<string>, q: CallbackQuery, svc: Services,
                              jar: Jar, verifies: string -> bool, t: int)
    requires UserStore.WellFormed(users)
    requires var r := CallbackSpec(users, env, host, q, svc); r.outcome.Reply? && |r.outcome.cookies| > 0
    requires verifies(CallbackSpec(users, env, host, q, svc).outcome.cookies[0].value)
    ensures var r := CallbackSpec(users, env, host, q, svc);
      var user := Admit(env, host, q, svc).user;
      var row := Upsert(users, user.id, user.username, svc.now, false).result.value;
      row.id >= 1 && row.discordSnowflake == user.id &&
      CheckAuth(ApplySetCookies(jar, r.outcome.cookies, t), verifies) == Some(UserId(NatToDecimal(row.id))) &&
      DigitsValue(NatToDecimal(row.id)) == row.id
  {
    var r := CallbackSpec(users, env, host, q, svc);
    var cs := r.outcome.cookies;
    ApplyTwo(jar, cs, t);
  }

  /** After logout, at any later time, no verifier finds a session in the browser's store, whatever it held. */
  lemma LogoutEndsSession(env: Env, now: int, t: int, jar: Jar, verifies: string -> bool)
    requires Logout(env, now).Reply? && now <= t
    ensures var j := ApplySetCookies(jar, Logout(env, now).cookies, t);
      AuthTokenCookie !in j && UserIdCookie !in j && CheckAuth(j, verifies) == None
  {
    var cs := Logout(env, now).cookies;
    ApplyTwo(jar, cs, t);
  }
}
