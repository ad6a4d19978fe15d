# shidou, modelled in Dafny

shidou is a small URL shortener. It is an axum service backed by a libSQL (SQLite) database. Short keys live in
a `redirects` table. `GET /{key}` answers with a temporary redirect to the stored url and counts one visit. A JSON
API lists, creates, updates and deletes redirects. Users sign in with Discord: an OAuth callback exchanges the
code, admits the user (optionally only members of allowed guilds) and upserts the user. The session is then held
in two private cookies, an `auth_token` JWT and a `user_id`. A middleware answers 401 to requests without a
session. The dashboard checks urls in the browser with `isValidUrl`.

The model has one Dafny module per source file:

- `redirect_store.dfy` (`RedirectStore`): the `redirects` table (src/models/redirect.rs, schema in
  src/database.rs). Each repository call is a pure transition from the old rows to a result and new rows. The
  class `RedirectTable` holds the rows and performs those transitions in place. Its scan is the source's
  `while let` loop, proved against the scan function.
- `resolver.dfy` (`Resolver`): the catch-all redirect route (src/handlers/redirect.rs).
- `redirect_api.dfy` (`RedirectApi`): the management API (src/handlers/api/redirect.rs). It covers url
  normalisation and the mapping of results to 201/200/500 replies.
- `user_store.dfy` (`UserStore`): the `users` table, with the upsert and the lookup by Discord id
  (src/models/user.rs).
- `session.dfy` (`Session`): `check_auth`, the middleware and `build_expired_cookie` (src/middleware/auth.rs).
  It also has a browser cookie store (section 5.3 of RFC 6265), used to state what logging in and logging out
  do to a session.
- `auth_flow.dfy` (`AuthFlow`): the login redirect, the OAuth callback and logout (src/handlers/auth.rs).
- `host_strings.dfy` (`HostStrings`): `get_host_header` and `generate_random_string` (src/utils/strings.rs).
- `config.dfy` (`Config`): the environment getters (src/utils/env.rs).
- `url_validator.dfy` (`UrlValidator`): `isValidUrl` (assets/js/dashboard.js). An anchored match of the regular
  expression is modelled as a split of the text into scheme, credentials, host, port and resource.
- `wrappers.dfy`, `seqs.dfy`, `numerals.dfy` and `http.dfy` are shared helpers: Option/Result, sequence
  searches and filters, decimal text as Rust writes and parses it, and responses and cookies.

Conventions:

- A Rust panic (`expect`, `unwrap`, `panic!`) is a `Failure` or a `Panic` outcome carrying the panic message.
- An error's text is what `to_string` shows: the outermost `context`, when there is one.
- The database, Discord, token signing, the random stream and the clock are parameters.

Where the files disagree with each other, each file's own definitions are modelled:

- The API handlers call `save_new_redirect`, `update_redirect` and `delete_redirect` with fewer arguments than
  src/models/redirect.rs declares. The handlers here therefore take the redirect host, the creating user and
  the time as parameters.
- src/handlers/auth.rs passes a second argument to `get_host_header`, and reads a guild list from the Discord
  configuration. src/utils/strings.rs and src/utils/env.rs define neither. The one-argument
  `get_host_header` is modelled. The guild list and the membership test are inputs of the callback.

## Model

| member | source | states |
|---|---|---|
| RedirectStore.NewId | src/database.rs:59 | a new row's id is at least 1 and above every stored id (SQLite's rowid rule) |
| RedirectStore.KeyCount | src/database.rs:60 | under the UNIQUE key, a statement filtered by key affects exactly 1 row when the key is stored and 0 otherwise |
| RedirectStore.KeyHostCount | src/database.rs:60 | under the UNIQUE key, a statement filtered by key and host affects 1 row when such a row exists, else 0 |
| RedirectStore.Lookup | src/models/redirect.rs:91-113 | succeeds exactly when a row has both key and host, and returns a stored row with both; otherwise fails with "Failed to get redirect by key" |
| RedirectStore.Insert | src/models/redirect.rs:21-49 | a present key fails on the UNIQUE constraint and changes nothing; a new key appends one row (new id, 0 visits, both timestamps `now`) and returns it; the table stays well-formed |
| RedirectStore.SetUrl | src/models/redirect.rs:56 | every row with the key gets the new url and every other row is unchanged |
| RedirectStore.Update | src/models/redirect.rs:51-69 | the key's row gets the url whatever its host; succeeds iff a row has key and host, returning that row with the new url; a missing key fails with no change; a host mismatch fails the re-read although the change stays |
| RedirectStore.Delete | src/models/redirect.rs:71-89 | (intended filter key and redirect_host) succeeds iff a row has both, and then removes exactly that row with the others in order; otherwise fails with no change; the table stays well-formed |
| RedirectStore.DeleteAsWritten | src/models/redirect.rs:76 | the statement names a column `host` the table lacks, so every call fails and nothing is deleted |
| RedirectStore.DeleteAsWrittenKeepsLiveRow | src/models/redirect.rs:76 | for a row with the key and host, the intended delete succeeds while the delete as written fails and the row stays |
| RedirectStore.DeleteThenLookupFails | src/models/redirect.rs:71-113 | after a successful delete, looking up the same key and host fails |
| RedirectStore.BumpVisits | src/models/redirect.rs:142 | the key's row gains one visit and every other row is unchanged |
| RedirectStore.IncrementVisits | src/models/redirect.rs:137-154 | succeeds iff the key is stored, and then exactly that row gains one visit; otherwise fails with no change |
| RedirectStore.Reached | src/models/redirect.rs:124 | the loop never reads past the table's end |
| RedirectStore.ScanFaultless | src/models/redirect.rs:115-135 | with no query fault, cursor error or undecodable row, the listing is the whole table in order |
| RedirectStore.ScanListsStoredRows | src/models/redirect.rs:123-132 | every listed row is a stored row from before the first cursor error, and it deserialises |
| RedirectStore.ListedKeyIsStored | src/models/redirect.rs:124-128 | a key that appears in a listing is a stored key |
| RedirectStore.RedirectTable.SaveNewRedirect | src/models/redirect.rs:21-49 | performs `Insert` on the table in place and keeps its constraints |
| RedirectStore.RedirectTable.UpdateRedirect | src/models/redirect.rs:51-69 | performs `Update` on the table in place and keeps its constraints |
| RedirectStore.RedirectTable.DeleteRedirect | src/models/redirect.rs:71-89 | performs the intended `Delete` on the table in place and keeps its constraints |
| RedirectStore.RedirectTable.GetRedirect | src/models/redirect.rs:91-113 | returns `Lookup` of the current rows and changes nothing |
| RedirectStore.RedirectTable.GetAllRedirects | src/models/redirect.rs:115-135 | the `while let` loop collects exactly the scan: rows up to the first cursor error that deserialise, in order; a failing query is the error |
| RedirectStore.Scan | src/models/redirect.rs:115-135 | the listing fails iff the query fails, with the query's context text; otherwise it holds at most the rows the cursor reached, each a stored row that deserialises |
| RedirectStore.RedirectTable.IncVisits | src/models/redirect.rs:137-154 | performs `IncrementVisits` on the table in place and keeps its constraints |
| Resolver.ResolvedRedirect | src/handlers/redirect.rs:10-17 | status 307, `location` the url, `cache-control` "max-age=180, public" |
| Resolver.Resolve | src/handlers/redirect.rs:19-35 | a visit is counted iff the listing succeeded and holds the key; the response then redirects to the url of the first row with that key; otherwise it is the plain 404 |
| Resolver.NotFoundReply | src/handlers/redirect.rs:33 | status 404, no extra headers, body `Not Found` |
| Resolver.Get | src/handlers/redirect.rs:19-35 | responds as `Resolve` of the scan and increments the key's visits exactly when a redirect is answered; the response does not depend on the increment |
| Resolver.ResolvedVisitCounted | src/handlers/redirect.rs:26-30 | the increment issued for a resolved key succeeds and raises that row's visits by exactly one |
| Resolver.ResolveIgnoresHost | src/handlers/redirect.rs:22 | listings that agree on keys and urls resolve alike, whatever their hosts |
| Resolver.ResolveStoredKey | src/handlers/redirect.rs:19-35 | with a faultless scan, a stored key redirects to its stored url and an absent key gives 404 with no increment |
| RedirectApi.NormalizeUrl | src/handlers/api/redirect.rs:33-36 | the stored url always has a web scheme; a url with one is kept, any other gets `http://` in front; the typed url is always the tail of the stored one |
| RedirectApi.NormalizeIdempotent | src/handlers/api/redirect.rs:33-36 | normalising twice is normalising once |
| RedirectApi.NormalizeUpperCaseScheme | src/handlers/api/redirect.rs:34 | the scheme test is case-sensitive: `HTTPS://x` becomes `http://HTTPS://x`, `example.com` becomes `http://example.com` |
| RedirectApi.Reply | src/handlers/api/redirect.rs:43-47 | the success status iff the call succeeded; any error is a 500 whose `{error}` is the error's text |
| RedirectApi.ListSpec | src/handlers/api/redirect.rs:21-30 | 200 with the scanned rows iff the listing query runs; otherwise 500 with the query's context message |
| RedirectApi.PostSpec | src/handlers/api/redirect.rs:32-49 | 201 iff the key is new, with exactly one row appended that holds the normalised url; otherwise 500 with the UNIQUE violation and no change |
| RedirectApi.PutSpec | src/handlers/api/redirect.rs:51-68 | 200 iff a row has the key and host; the key's url becomes the normalised url; a missing key is a 500 with no change |
| RedirectApi.DeleteSpec | src/handlers/api/redirect.rs:70-83 | 200 iff a row has the key and host, and then that row is gone and the table is one row shorter; otherwise 500 with no change |
| RedirectApi.PostAndPutStoreAlike | src/handlers/api/redirect.rs:32-68 | create and update store the same url for the same input |
| RedirectApi.PostThenResolve | src/handlers/api/redirect.rs:32-49 | a key created through the API then resolves to a redirect to its normalised url |
| RedirectApi.DeleteThenNotFound | src/handlers/api/redirect.rs:70-83 | once a delete succeeds, the key answers 404 and counts no visit |
| RedirectApi.Get | src/handlers/api/redirect.rs:21-30 | answers `ListSpec` of the table and changes nothing |
| RedirectApi.Post | src/handlers/api/redirect.rs:32-49 | answers and changes the table as `PostSpec` |
| RedirectApi.Put | src/handlers/api/redirect.rs:51-68 | answers and changes the table as `PutSpec` |
| RedirectApi.Delete | src/handlers/api/redirect.rs:70-83 | answers and changes the table as `DeleteSpec` |
| UserStore.NewUserId | src/database.rs:85 | a new user's id is at least 1 and above every stored id |
| UserStore.SnowflakeCount | src/database.rs:86 | under the UNIQUE Discord id, a statement filtered by it affects 1 row when present, else 0 |
| UserStore.FindBySnowflake | src/models/user.rs:49-74 | succeeds iff a user has the Discord id, returning that stored user; otherwise fails with "Failed to get user by discord id" |
| UserStore.Rename | src/models/user.rs:30-32 | the user with the Discord id gets the new name and update time; every other row is unchanged |
| UserStore.Upsert | src/models/user.rs:21-47 | a refused statement fails with no change; a new Discord id appends one user; a known one is renamed in place; the result is then the stored user with that id and name; the table stays well-formed |
| UserStore.UpsertStatement | src/models/user.rs:27-40 | after the statement the Discord id is present; a new id appends one row, keeping the others, and reports 1 change; a known id keeps the row count and reports at least 1 change |
| UserStore.RenameKeepsIdentity | src/models/user.rs:30-32 | renaming keeps the table's constraints and the Discord id present |
| UserStore.UpsertLeavesOneRow | src/models/user.rs:29-33 | after an upsert exactly one row holds the Discord id |
| UserStore.UpsertKeepsUser | src/models/user.rs:30-32 | upserting a known Discord id keeps the user's id and creation time and sets the update time |
| UserStore.UserTable.UpsertUser | src/models/user.rs:21-47 | performs `Upsert` on the table in place and keeps its constraints |
| UserStore.UserTable.GetUserByDiscordId | src/models/user.rs:49-74 | returns `FindBySnowflake` of the current rows and changes nothing |
| Session.CheckAuth | src/middleware/auth.rs:32-60 | a session exists iff there is an `auth_token` cookie that verifies and a `user_id` cookie; the user is the `user_id` cookie's value |
| Session.AuthCookieMiddleware | src/middleware/auth.rs:18-30 | 401 iff there is no session; otherwise the inner response, tagged with the session's user |
| Session.BuildExpiredCookie | src/middleware/auth.rs:62-67 | value "deleted", path "/", expiring exactly 365 days before the time it is built |
| Session.NoTokenNoSession | src/middleware/auth.rs:36-59 | without an `auth_token` cookie there is no session and the middleware answers 401, whatever else the jar holds |
| Session.SessionUserFromCookie | src/middleware/auth.rs:50-54 | the reported user comes from the `user_id` cookie, whichever verifying token is shown |
| Session.ExpiredCookieRemoves | src/middleware/auth.rs:62-67 | a browser receiving the expired cookie drops any cookie of that name |
| HostStrings.GetHostHeader | src/utils/strings.rs:22-32 | a missing or non-ASCII host header panics with its message; `localhost:8080` maps to `http://localhost:8080/`, any other host to `https://<host>/`; the host can be read back just before the final `/` |
| HostStrings.VisibleAscii | src/utils/strings.rs:26-27 | a header text `to_str` accepts is ASCII and holds no carriage return or line feed |
| HostStrings.GenerateRandomString | src/utils/strings.rs:11-20 | at most `length` characters, all lower-case letters or digits; exactly `length` iff the samples hold that many such characters |
| HostStrings.EveryKeyReachable | src/utils/strings.rs:11-20 | every key of lower-case letters and digits can be drawn |
| HostStrings.UpperCaseSkipped | src/utils/strings.rs:14 | an upper-case sample neither appears in the key nor uses up its length |
| Config.GetPort | src/utils/env.rs:19-35 | a 16-bit number; `PORT` when it parses as one, else 8080 |
| Config.PortExamples | src/utils/env.rs:26-32 | `abc`, `65536` and `-1` fall back to 8080; `+443` gives 443 |
| Config.GetHostUri | src/utils/env.rs:7-17 | `https://` + `HOST`; else `https://` + `FLY_APP_NAME` + `.fly.dev`; else `http://localhost:` + the port |
| Config.HostUriDefault | src/utils/env.rs:13 | with no configuration the url is `http://localhost:8080` |
| Config.HostUriPortReadsBack | src/utils/env.rs:13 | the local url's port text parses back to the chosen port |
| Config.GetDiscordConfig | src/utils/env.rs:43-54 | both credentials verbatim iff both are set; a missing client id is reported first |
| Config.Required | src/utils/env.rs:65-84 | a set variable's value verbatim, and for an unset one the panic `<NAME> not set` |
| Config.GetCookieEncryptionKey | src/utils/env.rs:65-70 | the key verbatim, or the panic "COOKIE_ENCRYPTION_KEY not set" |
| Session.CookieKey | src/handlers/auth.rs:53 | `Key::from` on the key's UTF-8 bytes: succeeds iff the key is set and has at least 64 bytes; an unset key gives the unset-key panic and a short one the short-key panic |
| Session.AsciiKeyLength | src/utils/env.rs:63-64 | an ASCII key is usable iff it has at least 64 characters |
| Config.RequiredBytes | src/utils/env.rs:72-84 | `get_jwt_public` and `get_jwt_private`: a set variable's UTF-8 bytes, and for an unset one the panic `<NAME> not set` |
| Config.AsciiBytes | src/utils/env.rs:74 | ASCII text such as a PEM key is encoded byte for byte |
| Numerals.NatToDecimal | src/utils/env.rs:24 | decimal digits with no leading zero that denote the number |
| Numerals.ParseU16 | src/utils/env.rs:26 | `parse::<u16>`: the empty string, a lone `+`, a leading `-`, space or other non-digit is an error; otherwise the text after an optional `+` is accepted iff it is all digits of value at most 65535, and the result is that value |
| Numerals.ParseU16OfDecimal | src/utils/env.rs:24-26 | the default port's text parses back to the default port |
| AuthFlow.LoginUrl | src/handlers/auth.rs:34-41 | Discord's authorise url with the client id, `response_type=code`, the encoded callback and `scope=identify%20guilds` |
| AuthFlow.LoginRedirect | src/handlers/auth.rs:20-27 | status 307 to the url with `cache-control` "max-age=10, public" |
| AuthFlow.GetLoginRedirect | src/handlers/auth.rs:29-44 | a redirect to the login url for this host's `/auth/callback`, with no cookie; a missing credential panics before a missing host header |
| AuthFlow.TokenForm | src/handlers/auth.rs:104-111 | the form sends the unencoded callback address and the code |
| AuthFlow.Admit | src/handlers/auth.rs:85-159 | a user is admitted iff no query error, a code, both credentials, a host, a 2xx token reply with a token, a fetched user, and (if the allow-list is not empty) membership; each early exit, in the source's order, is stated with its exact reply or panic: the query error's 500 (or the unwrap panic), the missing-code panic, the credential and host panics, the transport or status 500 with its text, the unreadable-token panic, the user-info 500 and the guild 403, none setting a cookie |
| AuthFlow.SessionCookies | src/handlers/auth.rs:191-193 | an `auth_token` cookie holding the JWT, then a `user_id` cookie whose digits denote the user id, both on path `/` and without an expiry |
| AuthFlow.CallbackSpec | src/handlers/auth.rs:84-203 | a refusal changes no user; an admitted user is upserted; then a failed upsert is a 500, a missing or short cookie key panics, a missing `JWT_SECRET_PRIVATE` panics, a failed signing with the private key's bytes is a 500, and success sets the JWT and the decimal user id on a redirect to `/` |
| AuthFlow.Callback | src/handlers/auth.rs:84-203 | performs `CallbackSpec` on the users table, exit by exit |
| AuthFlow.Logout | src/handlers/auth.rs:46-66 | panics iff the cookie key is unset or shorter than 64 bytes, with the matching message; otherwise a redirect to `/` setting expired `auth_token` and `user_id` cookies |
| AuthFlow.ErrorQueryShortCircuits | src/handlers/auth.rs:85-92 | a query `error` ends the callback with a 500 carrying its description, whatever Discord would say, and no user changes |
| AuthFlow.TokenFailureLeavesNoTrace | src/handlers/auth.rs:115-133 | a failed token request or a non-2xx status is a 500 carrying the transport message or the reply's text, with no cookie and no upsert |
| AuthFlow.GuildGate | src/handlers/auth.rs:151-159 | an admitted user is a member when the allow-list is not empty; an empty allow-list never consults membership |
| AuthFlow.GuildRefusal | src/handlers/auth.rs:151-159 | a user in no allowed guild gets 403 with the guild message, no cookie and no upsert |
| AuthFlow.CookiesOnlyOnSuccess | src/handlers/auth.rs:161-202 | cookies are set iff the user is admitted, the upsert runs, the cookie key is usable, the private signing key is set and signing succeeds |
| AuthFlow.CallbackStartsSession | src/handlers/auth.rs:191-202 | a browser applying a successful callback's cookies is in session as the upserted user, whose id reads back from the cookie |
| AuthFlow.LogoutEndsSession | src/handlers/auth.rs:46-66 | after logout no session remains at any later time, whatever the browser held |
| UrlValidator.Prepared | assets/js/dashboard.js:4-5 | the tested text always contains `://` |
| UrlValidator.Trim | assets/js/dashboard.js:4 | never longer than the input; starts and ends with a non-space; a text with no white space at either end is unchanged |
| UrlValidator.WebUrlRegexTest | assets/js/dashboard.js:6-47 | a match starts with `/`, `h` or `f` in either case, the first character of the scheme part |
| UrlValidator.IsValidUrl | assets/js/dashboard.js:3-48 | blank input is never valid |
| UrlValidator.SchemeOnlyRejected | assets/js/dashboard.js:6-47 | `http://` with nothing after it does not match |
| UrlValidator.TrimStartDropsSpace | assets/js/dashboard.js:4 | every character removed from the front is white space |
| UrlValidator.TrimEndDropsSpace | assets/js/dashboard.js:4 | every character removed from the back is white space |
| UrlValidator.TrimKeepsContent | assets/js/dashboard.js:4 | the trimmed text is a contiguous slice of the input with only white space before and after it |
| UrlValidator.TrimIdempotent | assets/js/dashboard.js:4 | trimming twice is trimming once |
| UrlValidator.TrimmedFirst | assets/js/dashboard.js:4 | surrounding white space never changes the verdict |
| UrlValidator.BareHostDecides | assets/js/dashboard.js:3-48 | a bare host gets `http://` and is accepted iff it is a public dotted quad or a host name |
| UrlValidator.DomainAccepted | assets/js/dashboard.js:31-40 | every bare host name is accepted |
| UrlValidator.ExampleAccepted | assets/js/dashboard.js:3-48 | `example.com` is accepted |
| UrlValidator.HostPortPathAccepted | assets/js/dashboard.js:42-44 | a host name followed by a port and a resource is accepted |
| UrlValidator.PortAndPathAccepted | assets/js/dashboard.js:42-44 | `example.com:8080/a` is accepted |
| UrlValidator.OtherSchemeRejected | assets/js/dashboard.js:10 | a scheme other than http, https or ftp is refused (`mailto://a.com`) |
| UrlValidator.DigitInTldRejected | assets/js/dashboard.js:39 | a top-level label with a digit is refused (`example.c0m`) |
| UrlValidator.PrivateQuadRejected | assets/js/dashboard.js:16-18 | a dotted quad in a private or local range is refused |
| UrlValidator.DomainHasLetter | assets/js/dashboard.js:39 | a host name holds at least one letter |
| UrlValidator.FirstOctetRange | assets/js/dashboard.js:24 | the first octet is exactly a numeral from 1 to 223 |
| UrlValidator.MidOctetRange | assets/js/dashboard.js:25 | a middle octet is one or two digits, or a three-digit numeral from 100 to 255 |
| UrlValidator.LastOctetRange | assets/js/dashboard.js:26 | the last octet is exactly a numeral from 1 to 254 |
| UrlValidator.IpHostOctets | assets/js/dashboard.js:24-26 | an accepted dotted quad has its first octet in 1..223, its last in 1..254 and the middle ones at most 255 |

## Left out

- Database faults are modelled only where the code branches on them: the listing query, the cursor and row
  deserialisation in the scan, and a refused upsert. Other statements are assumed to run.
- Deserialisation failures of a point lookup (`from_row` after `get_redirect` or `get_user_by_discord_id`) are
  not modelled, because the stored rows are always of the declared types.
- The `created_by` foreign key to `users` is not checked. SQLite does not enforce foreign keys unless asked to.
- Timestamps are opaque text supplied by the caller.
- RedirectStore.BumpVisits: `visits` is an unbounded number. SQLite stores it as a 64-bit `INTEGER`, whose
  `visits + 1` overflows past 2^63 - 1; the model does not bound it, since no table reaches that count.
- `tokio::spawn` of the visit increment is modelled as a sequential call after the response is fixed. Interleaving
  with other requests is not modelled.
- Cookie encryption and decryption by the private jar are not modelled. A jar is the decrypted name-to-value
  map, and a cookie that fails to decrypt is absent.
- JWT signing and verification are abstract: a `createJwt` function of the private key's bytes and the user id,
  and a `verifies` predicate. The panic for an unset `JWT_SECRET_PRIVATE` is modelled; a PEM that does not parse
  is one of `createJwt`'s failures.
- Session.CheckAuth: the panics for a missing or short cookie key (the same `Key::from` as `Session.CookieKey`)
  or an unusable public key are left out, because the decision is stated over an already-decrypted jar and an
  abstract verifier.
- Resolver.ResolvedRedirect: `Redirect::temporary` (src/handlers/redirect.rs:11) panics when the stored url is
  not a valid header value, for example one holding a line break, which the API stores unchecked. The model
  answers with the redirect and does not model that panic.
- Error texts are shortened: `RedirectStore.UniqueKeyViolation` omits libsql's own prefix, and
  `HostStrings.HostNotText` and `AuthFlow.TokenUnreadable` omit the `: {err:?}` detail that `expect` appends.
  `Session.KeyTooShort` paraphrases the cookie crate's panic for a short key rather than quoting it. Apart from
  the `Redirect::temporary` panics listed here, which branch panics or fails is modelled as the source has it.
- AuthFlow.GetLoginRedirect: the login url carries `DISCORD_CLIENT_ID` unencoded (src/handlers/auth.rs:36-40),
  and `AuthFlow.LoginRedirect` passes it to `Redirect::temporary` (src/handlers/auth.rs:21), which panics when
  the url is not a valid header value, for example when the client id holds a line break. The model answers
  with the redirect, so its "a reply iff credentials and host are present" does not cover that panic.
- `urlencode` is an abstract function.
- The Discord HTTP calls, the token reply's JSON, and the user-info record are abstract replies. The panic of
  `res.text().await.unwrap()` on an unreadable error body is not modelled.
- The `Set-Cookie` headers appended to the response that is then dropped are not modelled. Only the jar
  returned beside `Redirect::temporary("/")` reaches the client.
- Content-type headers and JSON serialisation of bodies are not modelled.
- Environment values that are not valid Unicode (an `env::var` error other than absence) are not modelled.
- UrlValidator.IsLabel: a character outside the Basic Multilingual Plane counts as one character here, but as
  two UTF-16 code units in JavaScript, so the model's 64-character label limit is weaker than the source's for
  such text.
- UrlValidator.IsTld: for the same reason the two-character minimum of the top-level domain differs. JavaScript
  accepts `a.😀`, whose one emoji is two code units, and the model rejects it.
- The rest of dashboard.js, the HTML pages, the logging middleware and the database connection setup are not
  part of this model.
- The host root from `get_host_header` ends in `/`, so the callback address built as `{}/auth/callback` has a
  double slash. The model keeps this as written.

## Findings

| source | as written | input that shows it | evidently intended | confidence | as-written member | corrected member |
|---|---|---|---|---|---|---|
| src/models/redirect.rs:76 | `DELETE FROM redirects WHERE key = :key AND host = :host` names a column `host`, which the table does not have | any stored key and its host: the statement cannot be prepared, the call fails and the row stays | filter on `redirect_host`, removing the one row with the key and host | not executed | RedirectStore.DeleteAsWrittenKeepsLiveRow | RedirectStore.Delete |
