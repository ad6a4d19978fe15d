/** The parts of an HTTP response and of a cookie that the handlers set. */
module Http {
  import opened Wrappers
  import RedirectStore

  const Ok: nat := 200
  const Created: nat := 201
  const TemporaryRedirect: nat := 307
  const Unauthorized: nat := 401
  const Forbidden: nat := 403
  const NotFound: nat := 404
  const InternalServerError: nat := 500

  datatype Header = Header(name: string, value: string)

  /** A response body: plain text, one of the JSON shapes the API sends, or nothing. */
  datatype Body =
    | NoBody
    | PlainText(text: string)
    | JsonMessage(message: string)
    | JsonError(error: string)
    | JsonRedirects(rows: seq<RedirectStore.RedirectRow>)

  datatype Response = Response(status: nat, headers: seq<Header>, body: Body)

  /** A `Set-Cookie` value; `expires` is a time in seconds, absent for a session cookie. */
  datatype Cookie = Cookie(name: string, value: string, path: Option<string>, expires: Option<int>)

  /** `Redirect::temporary(uri)`: status 307 with the `location` header set to `uri`. */
  function Redirect(uri: string): (resp: Response)
    ensures resp.status == TemporaryRedirect && Location(resp) == Some(uri)
  {
    Response(TemporaryRedirect, [Header("location", uri)], NoBody)
  }

  /** A redirect with a `cache-control` header added after its `location`. */
  function RedirectWithCacheControl(uri: string, cacheControl: string): (resp: Response)
    ensures resp.status == TemporaryRedirect
    ensures Location(resp) == Some(uri) && HeaderValue(resp, "cache-control") == Some(cacheControl)
  {
    var resp := Response(TemporaryRedirect, [Header("location", uri), Header("cache-control", cacheControl)], NoBody);
    assert resp.headers[0].name != "cache-control";
    assert HeaderIn(resp.headers[1..], "cache-control") == Some(cacheControl);
    resp
  }

  /** A JSON error reply, as `(status, Json(json!({ "error": message })))`. */
  function ErrorReply(status: nat, message: string): Response
  {
    Response(status, [], JsonError(message))
  }

  /** The value of the first header named `name`. */
  function HeaderValue(resp: Response, name: string): Option<string>
  {
    HeaderIn(resp.headers, name)
  }

  function HeaderIn(hs: seq<Header>, name: string): Option<string>
  {
    if |hs| == 0 then None
    else if hs[0].name == name then Some(hs[0].value)
    else HeaderIn(hs[1..], name)
  }

  function Location(resp: Response): Option<string>
  {
    HeaderValue(resp, "location")
  }
}
