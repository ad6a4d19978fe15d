/**
 * The JSON management API over the redirects table (src/handlers/api/redirect.rs): url normalisation and the
 * mapping of repository results to status codes and JSON bodies.
 *
 * The handlers take the redirect host, the creating user and the current time as parameters: the repository
 * functions they call (src/models/redirect.rs) declare those arguments.
 */
module RedirectApi {
  import opened Wrappers
  import opened Seqs
  import opened Http
  import opened RedirectStore
  import Resolver

  const CreatedMessage := "Redirect created successfully"
  const UpdatedMessage := "Redirect updated successfully"
  const DeletedMessage := "Redirect deleted successfully"

  /** The body of `post` and `put`. */
  datatype RedirectInput = RedirectInput(key: string, url: string)

  /** A handler's response and the table after it. */
  datatype Handled = Handled(response: Response, rows: Rows)

  /** A case-sensitive test for one of the two web schemes. */
  predicate HasWebScheme(u: string)
  {
    "http://" <= u || "https://" <= u
  }

  /** The url as stored: kept when it already has a web scheme, otherwise given `http://`. */
  function NormalizeUrl(url: string): (r: string)
    ensures HasWebScheme(r)
    ensures HasWebScheme(url) ==> r == url
    ensures !HasWebScheme(url) ==> r == "http://" + url
    ensures |url| <= |r| && r[|r| - |url|..] == url
  {
    if HasWebScheme(url) then url else "http://" + url
  }

  /** Normalising twice is normalising once. */
  lemma NormalizeIdempotent(url: string)
    ensures NormalizeUrl(NormalizeUrl(url)) == NormalizeUrl(url)
  {
  }

  /** The scheme test is case-sensitive: an upper-case scheme is treated as a bare host. */
  lemma NormalizeUpperCaseScheme()
    ensures NormalizeUrl("HTTPS://x") == "http://HTTPS://x"
    ensures NormalizeUrl("example.com") == "http://example.com"
  {
    NotLowerH("HTTPS://x");
    NotLowerH("example.com");
  }

  /** A url that does not start with a lower-case `h` has no web scheme. */
  lemma NotLowerH(u: string)
    requires |u| > 0 && u[0] != 'h'
    ensures NormalizeUrl(u) == "http://" + u
  {
    assert !("http://" <= u) && !("https://" <= u);
  }

  /**
   * The common shape of the four handlers' replies: on success the given status and body, on any repository
   * error 500 with the error's text as `{ "error": ... }`.
   */
  function Reply<T>(r: Result<T>, status: nat, body: Body): (resp: Response)
    requires status != InternalServerError
    ensures resp.status == status <==> r.Success?
    ensures r.Success? ==> resp.body == body
    ensures r.Failure? ==> resp == ErrorReply(InternalServerError, r.error)
  {
    match r
    case Success(_) => Response(status, [], body)
    case Failure(e) => ErrorReply(InternalServerError, e)
  }

  /** `get`: the listing as JSON, or 500 when the listing query fails. */
  function ListSpec(rows: Rows, c: Cursor): (resp: Response)
    ensures resp.status == Ok <==> !c.queryFails
    ensures !c.queryFails ==> resp.body == JsonRedirects(Filter(rows[..Reached(|rows|, c)], c.decodes))
    ensures c.queryFails ==> resp == ErrorReply(InternalServerError, ScanQueryFailed)
  {
    var listing := Scan(rows, c);
    Reply(listing, Ok, if listing.Success? then JsonRedirects(listing.value) else NoBody)
  }

  /** `post`: 201 and one new row holding the normalised url when the key is new; 500 and no change otherwise. */
  function PostSpec(rows: Rows, input: RedirectInput, host: string, createdBy: int, now: Timestamp): (h: Handled)
    requires WellFormed(rows)
    ensures WellFormed(h.rows)
    ensures h.response.status == Created <==> !HasKey(rows, input.key)
    ensures !HasKey(rows, input.key) ==>
      h.rows == rows + [RedirectRow(NewId(rows), input.key, NormalizeUrl(input.url), host, 0, createdBy, now, now)] &&
      h.response.body == JsonMessage(CreatedMessage)
    ensures HasKey(rows, input.key) ==>
      h == Handled(ErrorReply(InternalServerError, UniqueKeyViolation), rows)
  {
    var t := Insert(rows, input.key, NormalizeUrl(input.url), host, createdBy, now);
    Handled(Reply(t.result, Created, JsonMessage(CreatedMessage)), t.state)
  }

  /**
   * `put`: the url of the key's row becomes the normalised url whatever its host; 200 when the key's row has
   * that host, 500 otherwise (with the change kept when only the host differs).
   */
  function PutSpec(rows: Rows, input: RedirectInput, host: string): (h: Handled)
    requires WellFormed(rows)
    ensures WellFormed(h.rows) && |h.rows| == |rows|
    ensures forall i :: 0 <= i < |rows| ==>
      h.rows[i] == if rows[i].key == input.key then rows[i].(url := NormalizeUrl(input.url)) else rows[i]
    ensures h.response.status == Ok <==> HasKeyHost(rows, input.key, host)
    ensures HasKeyHost(rows, input.key, host) ==> h.response.body == JsonMessage(UpdatedMessage)
    ensures !HasKey(rows, input.key) ==> h == Handled(ErrorReply(InternalServerError, UpdateFailed), rows)
    ensures HasKey(rows, input.key) && !HasKeyHost(rows, input.key, host) ==>
      h.response == ErrorReply(InternalServerError, LookupFailed)
  {
    var t := Update(rows, input.key, NormalizeUrl(input.url), host);
    Handled(Reply(t.result, Ok, JsonMessage(UpdatedMessage)), t.state)
  }

  /** `delete`: 200 and the row gone when a row has the key and host; 500 and no change otherwise. */
  function DeleteSpec(rows: Rows, key: string, host: string): (h: Handled)
    requires WellFormed(rows)
    ensures WellFormed(h.rows)
    ensures h.response.status == Ok <==> HasKeyHost(rows, key, host)
    ensures HasKeyHost(rows, key, host) ==>
      h.response.body == JsonMessage(DeletedMessage) && !HasKeyHost(h.rows, key, host) && |h.rows| == |rows| - 1
    ensures !HasKeyHost(rows, key, host) ==> h == Handled(ErrorReply(InternalServerError, DeleteFailed), rows)
  {
    var t := RedirectStore.Delete(rows, key, host);
    assert t.result.Success? ==> !HasKeyHost(t.state, key, host) by {
      if t.result.Success? { DeleteThenLookupFails(rows, key, host); }
    }
    Handled(Reply(t.result, Ok, JsonMessage(DeletedMessage)), t.state)
  }

  /** `post` and `put` store the same url for the same input. */
  lemma PostAndPutStoreAlike(rows: Rows, input: RedirectInput, host: string, createdBy: int, now: Timestamp)
    requires WellFormed(rows) && !HasKey(rows, input.key)
    ensures var posted := PostSpec(rows, input, host, createdBy, now).rows;
      posted[|rows|].url == PutSpec(posted, input, host).rows[|rows|].url
  {
  }

  /** A key created through `post` then resolves, with a faultless scan, to a redirect to a web url. */
  lemma PostThenResolve(rows: Rows, input: RedirectInput, host: string, createdBy: int, now: Timestamp)
    requires WellFormed(rows) && !HasKey(rows, input.key)
    ensures var after := PostSpec(rows, input, host, createdBy, now).rows;
      Resolver.Resolve(Scan(after, Faultless()), input.key).response ==
        Resolver.ResolvedRedirect(NormalizeUrl(input.url))
  {
    var after := PostSpec(rows, input, host, createdBy, now).rows;
    ScanFaultless(after);
    assert after[|rows|].key == input.key;
    var f := FirstIndex(after, KeyIs(input.key));
    assert KeyIs(input.key)(after[|rows|]);
    assert forall j :: 0 <= j < |rows| ==> after[j] == rows[j] && !KeyIs(input.key)(after[j]);
    assert f.Some? && f.value == |rows|;
  }

  /** Once `delete` succeeds, the key no longer resolves: the catch-all route answers 404 and counts no visit. */
  lemma DeleteThenNotFound(rows: Rows, key: string, host: string)
    requires WellFormed(rows) && HasKeyHost(rows, key, host)
    ensures var after := DeleteSpec(rows, key, host).rows;
      Resolver.Resolve(Scan(after, Faultless()), key) == Resolver.Resolution(Resolver.NotFoundReply(), None)
  {
    var after := RedirectStore.Delete(rows, key, host).state;
    var i :| 0 <= i < |rows| && rows[i].key == key && rows[i].redirectHost == host &&
             after == rows[..i] + rows[i + 1..];
    forall j | 0 <= j < |after| ensures after[j].key != key {
      if j < i { assert after[j] == rows[j]; } else { assert after[j] == rows[j + 1]; }
    }
    Resolver.ResolveStoredKey(after, key);
  }

  /** `get` on the table. */
  method Get(table: RedirectTable, c: Cursor) returns (resp: Response)
    ensures resp == ListSpec(table.rows, c)
  {
    var listing := table.GetAllRedirects(c);
    resp := Reply(listing, Ok, if listing.Success? then JsonRedirects(listing.value) else NoBody);
  }

  /** `post` on the table. */
  method Post(table: RedirectTable, input: RedirectInput, host: string, createdBy: int, now: Timestamp)
    returns (resp: Response)
    requires table.Valid()
    modifies table
    ensures table.Valid()
    ensures Handled(resp, table.rows) == PostSpec(old(table.rows), input, host, createdBy, now)
  {
    var r := table.SaveNewRedirect(input.key, NormalizeUrl(input.url), host, createdBy, now);
    resp := Reply(r, Created, JsonMessage(CreatedMessage));
  }

  /** `put` on the table. */
  method Put(table: RedirectTable, input: RedirectInput, host: string) returns (resp: Response)
    requires table.Valid()
    modifies table
    ensures table.Valid()
    ensures Handled(resp, table.rows) == PutSpec(old(table.rows), input, host)
  {
    var r := table.UpdateRedirect(input.key, NormalizeUrl(input.url), host);
    resp := Reply(r, Ok, JsonMessage(UpdatedMessage));
  }

  /** `delete` on the table. */
  method Delete(table: RedirectTable, key: string, host: string) returns (resp: Response)
    requires table.Valid()
    modifies table
    ensures table.Valid()
    ensures Handled(resp, table.rows) == DeleteSpec(old(table.rows), key, host)
  {
    var r := table.DeleteRedirect(key, host);
    resp := Reply(r, Ok, JsonMessage(DeletedMessage));
  }
}
