/**
 * The `redirects` table and the repository calls over it (src/models/redirect.rs).
 *
 * The table is a sequence of rows in scan order. Each repository call is specified by a function from the old
 * rows to its result and the new rows (a `Transition`); the class `RedirectTable` holds the rows and its methods
 * perform those transitions in place.
 */
module RedirectStore {
  import opened Wrappers
  import opened Seqs

  /** Text of `strftime('%Y-%m-%d %H:%M:%S', 'now')`, the default of both timestamp columns. */
  type Timestamp = string

  datatype RedirectRow = RedirectRow(
    id: int,
    key: string,
    url: string,
    redirectHost: string,
    visits: nat,
    createdBy: int,
    createdUtc: Timestamp,
    updatedUtc: Timestamp)

  type Rows = seq<RedirectRow>

  /** Error texts, as `to_string` shows them (the outermost `context`, when there is one). */
  const UniqueKeyViolation := "UNIQUE constraint failed: redirects.key"
  const UpdateFailed := "Failed to update redirect in database"
  const DeleteFailed := "Failed to delete redirect from database"
  const LookupFailed := "Failed to get redirect by key"
  const IncrementFailed := "Failed to increment visits in database"
  const ScanQueryFailed := "Failed to insert new redirect into database"

  /** The columns of the `redirects` table. */
  const RedirectColumns: set<string> :=
    {"id", "key", "url", "redirect_host", "visits", "created_by", "created_utc", "updated_utc"}

  function KeyIs(key: string): RedirectRow -> bool
  {
    (r: RedirectRow) => r.key == key
  }

  function KeyHostIs(key: string, host: string): RedirectRow -> bool
  {
    (r: RedirectRow) => r.key == key && r.redirectHost == host
  }

  function NotKeyHost(key: string, host: string): RedirectRow -> bool
  {
    (r: RedirectRow) => !(r.key == key && r.redirectHost == host)
  }

  function RowId(r: RedirectRow): int
  {
    r.id
  }

  /** The schema's constraints: `key TEXT UNIQUE`, and distinct positive `INTEGER PRIMARY KEY` ids. */
  predicate WellFormed(rows: Rows)
  {
    && (forall i, j :: 0 <= i < j < |rows| ==> rows[i].key != rows[j].key)
    && (forall i, j :: 0 <= i < j < |rows| ==> rows[i].id != rows[j].id)
    && (forall i :: 0 <= i < |rows| ==> rows[i].id >= 1)
  }

  predicate HasKey(rows: Rows, key: string)
  {
    exists i :: 0 <= i < |rows| && rows[i].key == key
  }

  predicate HasKeyHost(rows: Rows, key: string, host: string)
  {
    exists i :: 0 <= i < |rows| && rows[i].key == key && rows[i].redirectHost == host
  }

  /** The id SQLite gives a new row: one more than the largest id, and 1 in an empty table. */
  function NewId(rows: Rows): (id: int)
    ensures id >= 1
    ensures forall i :: 0 <= i < |rows| ==> rows[i].id < id
  {
    MaxOf(rows, RowId) + 1
  }

  /** Under the unique key, the number of rows a `where key = :key` statement affects is 1 or 0. */
  lemma KeyCount(rows: Rows, key: string)
    requires WellFormed(rows)
    ensures Count(rows, KeyIs(key)) == if HasKey(rows, key) then 1 else 0
  {
    CountAtMostOne(rows, KeyIs(key));
  }

  lemma KeyHostCount(rows: Rows, key: string, host: string)
    requires WellFormed(rows)
    ensures Count(rows, KeyHostIs(key, host)) == if HasKeyHost(rows, key, host) then 1 else 0
  {
    CountAtMostOne(rows, KeyHostIs(key, host));
  }

  /**
   * `get_redirect`: `SELECT * ... WHERE key = :key AND redirect_host = :redirect_host LIMIT 1`.
   * The first row matching both, or an error when there is none.
   */
  function Lookup(rows: Rows, key: string, host: string): (r: Result<RedirectRow>)
    ensures r.Success? <==> HasKeyHost(rows, key, host)
    ensures r.Success? ==> r.value in rows && r.value.key == key && r.value.redirectHost == host
    ensures r.Failure? ==> r.error == LookupFailed
  {
    match FirstIndex(rows, KeyHostIs(key, host))
    case Some(i) => Success(rows[i])
    case None => Failure(LookupFailed)
  }

  /**
   * `save_new_redirect`: insert a row, then re-read it by key and host. An insert that succeeds affects exactly
   * one row, so the count check always takes its first arm; a present key fails on the UNIQUE constraint.
   */
  function Insert(rows: Rows, key: string, url: string, host: string, createdBy: int, now: Timestamp)
    : (t: Transition<RedirectRow, Rows>)
    requires WellFormed(rows)
    ensures WellFormed(t.state)
    ensures HasKey(rows, key) ==> t == Transition(Failure(UniqueKeyViolation), rows)
    ensures !HasKey(rows, key) ==>
      var row := RedirectRow(NewId(rows), key, url, host, 0, createdBy, now, now);
      t.state == rows + [row] && t.result == Success(row)
  {
    if HasKey(rows, key) then Transition(Failure(UniqueKeyViolation), rows)
    else
      var row := RedirectRow(NewId(rows), key, url, host, 0, createdBy, now, now);
      var rows' := rows + [row];
      var r := Lookup(rows', key, host);
      assert rows'[|rows|] == row;
      assert r.Success? && r.value == row by {
        var i :| 0 <= i < |rows'| && rows'[i] == r.value;
        assert i == |rows|;
      }
      Transition(r, rows')
  }

  /** `set url = :url where key = :key` over every row. */
  function SetUrl(rows: Rows, key: string, url: string): (r: Rows)
    ensures |r| == |rows|
    ensures forall i :: 0 <= i < |rows| ==> r[i] == if rows[i].key == key then rows[i].(url := url) else rows[i]
  {
    seq(|rows|, i requires 0 <= i < |rows| => if rows[i].key == key then rows[i].(url := url) else rows[i])
  }

  /**
   * `update_redirect`: the update filters on the key alone, so the url of the key's row changes whatever its host;
   * the result is then re-read by key AND host, which fails when the host differs although the change stays.
   */
  function Update(rows: Rows, key: string, url: string, host: string): (t: Transition<RedirectRow, Rows>)
    requires WellFormed(rows)
    ensures WellFormed(t.state) && |t.state| == |rows|
    ensures forall i :: 0 <= i < |rows| ==>
      t.state[i] == if rows[i].key == key then rows[i].(url := url) else rows[i]
    ensures !HasKey(rows, key) ==> t == Transition(Failure(UpdateFailed), rows)
    ensures t.result.Success? <==> HasKeyHost(rows, key, host)
    ensures t.result.Success? ==>
      t.result.value in t.state && t.result.value.key == key && t.result.value.url == url &&
      t.result.value.redirectHost == host
    ensures HasKey(rows, key) && !HasKeyHost(rows, key, host) ==> t.result == Failure(LookupFailed)
  {
    var rows' := SetUrl(rows, key, url);
    KeyCount(rows, key);
    SameIdentityKeeps(rows, rows', key, host);
    if Count(rows, KeyIs(key)) == 1 then
      var r := Lookup(rows', key, host);
      assert r.Success? ==> r.value.url == url by {
        if r.Success? {
          var i :| 0 <= i < |rows'| && rows'[i] == r.value;
        }
      }
      Transition(r, rows')
    else
      assert rows' == rows;
      Transition(Failure(UpdateFailed), rows')
  }

  /** Two tables whose rows agree position by position on id, key and host. */
  predicate SameIdentity(a: Rows, b: Rows)
  {
    |a| == |b| &&
    forall i :: 0 <= i < |a| ==> a[i].id == b[i].id && a[i].key == b[i].key && a[i].redirectHost == b[i].redirectHost
  }

  /** Rewriting only url or visits keeps the constraints and the keys and hosts present. */
  lemma SameIdentityKeeps(a: Rows, b: Rows, key: string, host: string)
    requires SameIdentity(a, b)
    ensures WellFormed(a) <==> WellFormed(b)
    ensures HasKey(a, key) <==> HasKey(b, key)
    ensures HasKeyHost(a, key, host) <==> HasKeyHost(b, key, host)
  {
  }

  /**
   * `delete_redirect` with the evident intent, `WHERE key = :key AND redirect_host = :host`: it succeeds when
   * exactly one row goes, which under the unique key means when a row has both the key and the host.
   */
  function Delete(rows: Rows, key: string, host: string): (t: Transition<(), Rows>)
    requires WellFormed(rows)
    ensures WellFormed(t.state)
    ensures t.result.Success? <==> HasKeyHost(rows, key, host)
    ensures t.result.Failure? ==> t.result == Failure(DeleteFailed) && t.state == rows
    ensures t.result.Success? ==>
      exists i :: 0 <= i < |rows| && rows[i].key == key && rows[i].redirectHost == host &&
                  t.state == rows[..i] + rows[i + 1..]
  {
    var rows' := Filter(rows, NotKeyHost(key, host));
    KeyHostCount(rows, key, host);
    if Count(rows, KeyHostIs(key, host)) == 1 then
      var i :| 0 <= i < |rows| && rows[i].key == key && rows[i].redirectHost == host;
      RemoveMatchingRow(rows, key, host, i);
      Transition(Success(()), rows')
    else
      FilterAllKept(rows, NotKeyHost(key, host));
      Transition(Failure(DeleteFailed), rows')
  }

  /** Removing the one row with a key and host keeps the other rows in order and keeps the constraints. */
  lemma RemoveMatchingRow(rows: Rows, key: string, host: string, i: nat)
    requires WellFormed(rows)
    requires i < |rows| && rows[i].key == key && rows[i].redirectHost == host
    ensures Filter(rows, NotKeyHost(key, host)) == rows[..i] + rows[i + 1..]
    ensures WellFormed(rows[..i] + rows[i + 1..])
  {
    forall j | 0 <= j < |rows| && j != i ensures NotKeyHost(key, host)(rows[j]) {
      if j < i { assert rows[j].key != rows[i].key; } else { assert rows[i].key != rows[j].key; }
    }
    FilterDropsOne(rows, NotKeyHost(key, host), i);
    WellFormedWithout(rows, i);
  }

  /** Removing any one row keeps the constraints. */
  lemma WellFormedWithout(rows: Rows, i: nat)
    requires WellFormed(rows) && i < |rows|
    ensures WellFormed(rows[..i] + rows[i + 1..])
  {
    var rest := rows[..i] + rows[i + 1..];
    assert forall a :: 0 <= a < |rest| ==> rest[a] == rows[if a < i then a else a + 1];
    forall a, b | 0 <= a < b < |rest|
      ensures rest[a].key != rest[b].key && rest[a].id != rest[b].id
    {
      var a', b' := if a < i then a else a + 1, if b < i then b else b + 1;
      assert rest[a] == rows[a'] && rest[b] == rows[b'] && a' < b';
    }
  }

  /**
   * `delete_redirect` as written: its filter names a column `host`, which the table does not have (the column is
   * `redirect_host`), so SQLite refuses to prepare the statement and every call fails with nothing deleted.
   */
  function DeleteAsWritten(rows: Rows, key: string, host: string): (t: Transition<(), Rows>)
    ensures t == Transition(Failure(DeleteFailed), rows)
  {
    if "key" in RedirectColumns && "host" in RedirectColumns then
      var rows' := Filter(rows, NotKeyHost(key, host));
      if Count(rows, KeyHostIs(key, host)) == 1 then Transition(Success(()), rows')
      else Transition(Failure(DeleteFailed), rows')
    else
      Transition(Failure(DeleteFailed), rows)
  }

  /** `set visits = visits + 1 where key = :key` over every row. */
  function BumpVisits(rows: Rows, key: string): (r: Rows)
    ensures |r| == |rows|
    ensures forall i :: 0 <= i < |rows| ==>
      r[i] == if rows[i].key == key then rows[i].(visits := rows[i].visits + 1) else rows[i]
  {
    seq(|rows|, i requires 0 <= i < |rows| =>
      if rows[i].key == key then rows[i].(visits := rows[i].visits + 1) else rows[i])
  }

  /** `inc_visits`: the key's row gains exactly one visit; the call fails unless exactly one row was updated. */
  function IncrementVisits(rows: Rows, key: string): (t: Transition<(), Rows>)
    requires WellFormed(rows)
    ensures WellFormed(t.state) && |t.state| == |rows|
    ensures forall i :: 0 <= i < |rows| ==>
      t.state[i] == if rows[i].key == key then rows[i].(visits := rows[i].visits + 1) else rows[i]
    ensures t.result.Success? <==> HasKey(rows, key)
    ensures t.result.Failure? ==> t.result == Failure(IncrementFailed) && t.state == rows
  {
    var rows' := BumpVisits(rows, key);
    KeyCount(rows, key);
    SameIdentityKeeps(rows, rows', key, "");
    if Count(rows, KeyIs(key)) == 1 then Transition(Success(()), rows')
    else
      assert rows' == rows;
      Transition(Failure(IncrementFailed), rows')
  }

  /**
   * What the scan of `get_all_redirects` meets: whether the query itself fails, the position at which the cursor
   * reports an error (if any), and which stored rows deserialise into a `RedirectRow`.
   */
  datatype Cursor = Cursor(queryFails: bool, errorAt: Option<nat>, decodes: RedirectRow -> bool)

  /** The number of rows the cursor yields before it ends or reports an error. */
  function Reached(n: nat, c: Cursor): (m: nat)
    ensures m <= n
  {
    match c.errorAt
    case Some(e) => if e < n then e else n
    case None => n
  }

  /**
   * `get_all_redirects`: the rows in scan order, skipping those that fail to deserialise, stopping without failure
   * at the first cursor error; only a failing query is an error.
   */
  function Scan(rows: Rows, c: Cursor): (r: Result<Rows>)
    ensures r.Failure? <==> c.queryFails
    ensures r.Failure? ==> r.error == ScanQueryFailed
    ensures r.Success? ==> |r.value| <= Reached(|rows|, c) <= |rows|
    ensures r.Success? ==> forall x :: x in r.value ==> x in rows && c.decodes(x)
  {
    if c.queryFails then Failure(ScanQueryFailed) else Success(Filter(rows[..Reached(|rows|, c)], c.decodes))
  }

  /** A cursor that meets no fault: the query runs, no cursor error, every row deserialises. */
  function Faultless(): Cursor
  {
    Cursor(false, None, _ => true)
  }

  /** With no fault, the scan lists the whole table in order. */
  lemma ScanFaultless(rows: Rows)
    ensures Scan(rows, Faultless()) == Success(rows)
  {
    assert rows[..|rows|] == rows;
    FilterAllKept(rows, Faultless().decodes);
  }

  /** Every listed row is a stored row that deserialises, and none is listed from beyond a cursor error. */
  lemma ScanListsStoredRows(rows: Rows, c: Cursor)
    requires Scan(rows, c).Success?
    ensures forall j :: 0 <= j < |Scan(rows, c).value| ==>
      Scan(rows, c).value[j] in rows[..Reached(|rows|, c)] && c.decodes(Scan(rows, c).value[j])
  {
  }

  /** A listed row's key is a key of the table, so incrementing it succeeds. */
  lemma ListedKeyIsStored(rows: Rows, c: Cursor, key: string)
    requires Scan(rows, c).Success? && HasKey(Scan(rows, c).value, key)
    ensures HasKey(rows, key)
  {
    var listed := Scan(rows, c).value;
    var j :| 0 <= j < |listed| && listed[j].key == key;
    assert listed[j] in rows[..Reached(|rows|, c)];
    var i :| 0 <= i < Reached(|rows|, c) && rows[..Reached(|rows|, c)][i] == listed[j];
    assert rows[i].key == key;
  }

  /** After a successful delete, lookups of that key and host fail. */
  lemma DeleteThenLookupFails(rows: Rows, key: string, host: string)
    requires WellFormed(rows) && Delete(rows, key, host).result.Success?
    ensures Lookup(Delete(rows, key, host).state, key, host) == Failure(LookupFailed)
  {
    var rows' := Delete(rows, key, host).state;
    var i :| 0 <= i < |rows| && rows[i].key == key && rows[i].redirectHost == host &&
             rows' == rows[..i] + rows[i + 1..];
    forall j | 0 <= j < |rows'| ensures rows'[j].key != key {
      if j < i { assert rows'[j] == rows[j]; } else { assert rows'[j] == rows[j + 1]; }
    }
  }

  /** The deviation of the delete as written: a row the evident intent would remove stays, and the call fails. */
  lemma DeleteAsWrittenKeepsLiveRow(rows: Rows, key: string, host: string)
    requires WellFormed(rows) && HasKeyHost(rows, key, host)
    ensures Delete(rows, key, host).result.Success?
    ensures DeleteAsWritten(rows, key, host).result.Failure? && DeleteAsWritten(rows, key, host).state == rows
    ensures HasKeyHost(DeleteAsWritten(rows, key, host).state, key, host)
  {
  }

  /** The in-memory `redirects` table. */
  class RedirectTable {
    var rows: Rows

    ghost predicate Valid()
      reads this
    {
      WellFormed(rows)
    }

    /** A table holding the rows already stored. */
    constructor (stored: Rows)
      requires WellFormed(stored)
      ensures Valid() && rows == stored
    {
      rows := stored;
    }

    method SaveNewRedirect(key: string, url: string, host: string, createdBy: int, now: Timestamp)
      returns (r: Result<RedirectRow>)
      requires Valid()
      modifies this
      ensures Valid()
      ensures Transition(r, rows) == Insert(old(rows), key, url, host, createdBy, now)
    {
      var t := Insert(rows, key, url, host, createdBy, now);
      rows := t.state;
      r := t.result;
    }

    method UpdateRedirect(key: string, url: string, host: string) returns (r: Result<RedirectRow>)
      requires Valid()
      modifies this
      ensures Valid()
      ensures Transition(r, rows) == Update(old(rows), key, url, host)
    {
      var t := Update(rows, key, url, host);
      rows := t.state;
      r := t.result;
    }

    method DeleteRedirect(key: string, host: string) returns (r: Result<()>)
      requires Valid()
      modifies this
      ensures Valid()
      ensures Transition(r, rows) == Delete(old(rows), key, host)
    {
      var t := Delete(rows, key, host);
      rows := t.state;
      r := t.result;
    }

    method GetRedirect(key: string, host: string) returns (r: Result<RedirectRow>)
      ensures r == Lookup(rows, key, host)
    {
      r := Lookup(rows, key, host);
    }

    /** The `while let Ok(Some(r)) = result.next()` loop, pushing every row that deserialises. */
    method GetAllRedirects(c: Cursor) returns (r: Result<Rows>)
      ensures r == Scan(rows, c)
    {
      if c.queryFails {
        return Failure(ScanQueryFailed);
      }
      var results: Rows := [];
      var i := 0;
      var stop := Reached(|rows|, c);
      while i < stop
        invariant 0 <= i <= stop
        invariant results == Filter(rows[..i], c.decodes)
      {
        var row := rows[i];
        FilterSnoc(rows[..i], row, c.decodes);
        assert rows[..i + 1] == rows[..i] + [row];
        if c.decodes(row) {
          results := results + [row];
        }
        i := i + 1;
      }
      return Success(results);
    }

    method IncVisits(key: string) returns (r: Result<()>)
      requires Valid()
      modifies this
      ensures Valid()
      ensures Transition(r, rows) == IncrementVisits(old(rows), key)
    {
      var t := IncrementVisits(rows, key);
      rows := t.state;
      r := t.result;
    }
  }
}
