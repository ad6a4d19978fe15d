/** Resolution of a short key to its redirect, the catch-all `GET` route (src/handlers/redirect.rs). */
module Resolver {
  import opened Wrappers
  import opened Seqs
  import opened Http
  import opened RedirectStore

  const ResolvedCacheControl := "max-age=180, public"

  /** `redirect_with_cache_control`: a temporary redirect that caches may keep for three minutes. */
  function ResolvedRedirect(url: string): (resp: Response)
    ensures resp.status == TemporaryRedirect && Location(resp) == Some(url)
    ensures HeaderValue(resp, "cache-control") == Some(ResolvedCacheControl)
  {
    RedirectWithCacheControl(url, ResolvedCacheControl)
  }

  /** The reply to an unknown key. */
  function NotFoundReply(): (resp: Response)
    ensures resp.status == NotFound && resp.body == PlainText("Not Found") && resp.headers == []
  {
    Response(NotFound, [], PlainText("Not Found"))
  }

  /** What `get` decides: the response, and the key whose visit counter it increments, if any. */
  datatype Resolution = Resolution(response: Response, increment: Option<string>)

  /**
   * The first listed row whose key equals the path, hosts ignored, gives a redirect to its url and one increment
   * of that key; no match, or a failed listing, gives 404 and no increment.
   */
  function Resolve(listing: Result<Rows>, path: string): (res: Resolution)
    ensures res.increment.Some? <==> listing.Success? && HasKey(listing.value, path)
    ensures res.increment.Some? ==> res.increment.value == path
    ensures res.increment.Some? ==>
      exists i :: 0 <= i < |listing.value| && listing.value[i].key == path &&
        (forall j :: 0 <= j < i ==> listing.value[j].key != path) &&
        res.response == ResolvedRedirect(listing.value[i].url)
    ensures res.increment.None? ==> res.response == NotFoundReply()
  {
    match listing
    case Failure(_) => Resolution(NotFoundReply(), None)
    case Success(rows) =>
      match FirstIndex(rows, KeyIs(path))
      case Some(i) => Resolution(ResolvedRedirect(rows[i].url), Some(rows[i].key))
      case None => Resolution(NotFoundReply(), None)
  }

  /**
   * `get`: list the table, resolve, and on a match issue one `inc_visits` whose result is discarded. The response
   * is fixed by the listing before the increment runs, so it does not depend on the increment's outcome.
   */
  method Get(table: RedirectTable, cursor: Cursor, path: string) returns (resp: Response)
    requires table.Valid()
    modifies table
    ensures table.Valid()
    ensures var res := Resolve(Scan(old(table.rows), cursor), path);
      resp == res.response &&
      table.rows == if res.increment.Some? then IncrementVisits(old(table.rows), path).state else old(table.rows)
  {
    var listing := table.GetAllRedirects(cursor);
    var res := Resolve(listing, path);
    if res.increment.Some? {
      var _ := table.IncVisits(res.increment.value);
    }
    resp := res.response;
  }

  /** A resolved key is a stored key, so its increment succeeds and raises that row's visits by exactly one. */
  lemma ResolvedVisitCounted(rows: Rows, cursor: Cursor, path: string)
    requires WellFormed(rows) && Resolve(Scan(rows, cursor), path).increment.Some?
    ensures IncrementVisits(rows, path).result.Success?
    ensures forall i :: 0 <= i < |rows| && rows[i].key == path ==>
      IncrementVisits(rows, path).state[i].visits == rows[i].visits + 1
  {
    ListedKeyIsStored(rows, cursor, path);
  }

  /** Two listings that agree on keys and urls, whatever their hosts, resolve alike. */
  lemma ResolveIgnoresHost(a: Rows, b: Rows, path: string)
    requires |a| == |b|
    requires forall i :: 0 <= i < |a| ==> a[i].key == b[i].key && a[i].url == b[i].url
    ensures Resolve(Success(a), path) == Resolve(Success(b), path)
  {
    var fa, fb := FirstIndex(a, KeyIs(path)), FirstIndex(b, KeyIs(path));
    assert forall i :: 0 <= i < |a| ==> (KeyIs(path)(a[i]) <==> KeyIs(path)(b[i]));
  }

  /** With a faultless scan, a stored key resolves to a redirect to its stored url, and an absent key to 404. */
  lemma ResolveStoredKey(rows: Rows, path: string)
    requires WellFormed(rows)
    ensures HasKey(rows, path) ==>
      exists i :: 0 <= i < |rows| && rows[i].key == path &&
        Resolve(Scan(rows, Faultless()), path).response == ResolvedRedirect(rows[i].url)
    ensures !HasKey(rows, path) ==> Resolve(Scan(rows, Faultless()), path) == Resolution(NotFoundReply(), None)
  {
    ScanFaultless(rows);
  }
}
