/**
 * The `users` table and its two repository calls (src/models/user.rs): an insert that becomes an in-place
 * update when the Discord id is already present, and a lookup by Discord id.
 */
module UserStore {
  import opened Wrappers
  import opened Seqs

  /** Text of `strftime('%Y-%m-%d %H:%M:%S', 'now')`. */
  type Timestamp = string

  datatype UserRow = UserRow(
    id: int,
    discordSnowflake: string,
    discordUsername: string,
    createdUtc: Timestamp,
    updatedUtc: Timestamp)

  type Users = seq<UserRow>

  /** Error texts, as `to_string` shows them. */
  const UpsertFailed := "Failed to upsert user into database"
  const UserLookupFailed := "Failed to get user by discord id"

  function SnowflakeIs(snowflake: string): UserRow -> bool
  {
    (u: UserRow) => u.discordSnowflake == snowflake
  }

  function UserId(u: UserRow): int
  {
    u.id
  }

  /** The schema's constraints: `discord_snowflake TEXT UNIQUE`, and distinct positive `INTEGER PRIMARY KEY` ids. */
  predicate WellFormed(users: Users)
  {
    && (forall i, j :: 0 <= i < j < |users| ==> users[i].discordSnowflake != users[j].discordSnowflake)
    && (forall i, j :: 0 <= i < j < |users| ==> users[i].id != users[j].id)
    && (forall i :: 0 <= i < |users| ==> users[i].id >= 1)
  }

  predicate HasSnowflake(users: Users, snowflake: string)
  {
    exists i :: 0 <= i < |users| && users[i].discordSnowflake == snowflake
  }

  /** The id SQLite gives a new row: one more than the largest id, and 1 in an empty table. */
  function NewUserId(users: Users): (id: int)
    ensures id >= 1
    ensures forall i :: 0 <= i < |users| ==> users[i].id < id
  {
    MaxOf(users, UserId) + 1
  }

  /** Under the unique Discord id, a statement filtered by it affects one row when the id is present, else none. */
  lemma SnowflakeCount(users: Users, snowflake: string)
    requires WellFormed(users)
    ensures Count(users, SnowflakeIs(snowflake)) == if HasSnowflake(users, snowflake) then 1 else 0
  {
    CountAtMostOne(users, SnowflakeIs(snowflake));
  }

  /** `get_user_by_discord_id`: the row with that Discord id, or an error when there is none. */
  function FindBySnowflake(users: Users, snowflake: string): (r: Result<UserRow>)
    ensures r.Success? <==> HasSnowflake(users, snowflake)
    ensures r.Success? ==> r.value in users && r.value.discordSnowflake == snowflake
    ensures r.Failure? ==> r.error == UserLookupFailed
  {
    match FirstIndex(users, SnowflakeIs(snowflake))
    case Some(i) => Success(users[i])
    case None => Failure(UserLookupFailed)
  }

  /** The `DO UPDATE` arm: the username and update time of the row with the Discord id change. */
  function Rename(users: Users, snowflake: string, username: string, now: Timestamp): (r: Users)
    ensures |r| == |users|
    ensures forall i :: 0 <= i < |users| ==>
      r[i] == if users[i].discordSnowflake == snowflake
              then users[i].(discordUsername := username, updatedUtc := now) else users[i]
  {
    seq(|users|, i requires 0 <= i < |users| =>
      if users[i].discordSnowflake == snowflake
      then users[i].(discordUsername := username, updatedUtc := now) else users[i])
  }

  /**
   * The table after the `INSERT ... ON CONFLICT(discord_snowflake) DO UPDATE` statement, and the number of rows
   * it reports as changed: the conflicting rows when the id is present, the one inserted row otherwise.
   */
  function UpsertStatement(users: Users, snowflake: string, username: string, now: Timestamp): (r: (Users, nat))
    ensures HasSnowflake(r.0, snowflake)
    ensures !HasSnowflake(users, snowflake) ==> |r.0| == |users| + 1 && r.0[..|users|] == users && r.1 == 1
    ensures HasSnowflake(users, snowflake) ==> |r.0| == |users| && r.1 >= 1
  {
    if HasSnowflake(users, snowflake) then
      (Rename(users, snowflake, username, now), Count(users, SnowflakeIs(snowflake)))
    else
      var added := users + [UserRow(NewUserId(users), snowflake, username, now, now)];
      assert added[|users|].discordSnowflake == snowflake && added[..|users|] == users;
      (added, 1)
  }

  /**
   * `upsert_user`: the statement runs (or, when `fails`, the database refuses it and nothing changes), then a
   * count of 1 re-reads the row by Discord id; any other count is an error.
   */
  function Upsert(users: Users, snowflake: string, username: string, now: Timestamp, fails: bool)
    : (t: Transition<UserRow, Users>)
    requires WellFormed(users)
    ensures WellFormed(t.state)
    ensures fails ==> t == Transition(Failure(UpsertFailed), users)
    ensures !fails && !HasSnowflake(users, snowflake) ==>
      t.state == users + [UserRow(NewUserId(users), snowflake, username, now, now)]
    ensures !fails && HasSnowflake(users, snowflake) ==>
      |t.state| == |users| &&
      forall i :: 0 <= i < |users| ==>
        t.state[i] == if users[i].discordSnowflake == snowflake
                      then users[i].(discordUsername := username, updatedUtc := now) else users[i]
    ensures !fails ==>
      t.result.Success? && t.result.value in t.state &&
      t.result.value.discordSnowflake == snowflake && t.result.value.discordUsername == username
  {
    if fails then Transition(Failure(UpsertFailed), users)
    else
      var (users', affected) := UpsertStatement(users, snowflake, username, now);
      SnowflakeCount(users, snowflake);
      assert HasSnowflake(users', snowflake) && WellFormed(users') && affected == 1 by {
        if HasSnowflake(users, snowflake) {
          RenameKeepsIdentity(users, snowflake, username, now);
        } else {
          assert users'[|users|].discordSnowflake == snowflake;
        }
      }
      var r := FindBySnowflake(users', snowflake);
      assert r.value.discordUsername == username by {
        var i :| 0 <= i < |users'| && users'[i] == r.value;
      }
      if affected == 1 then Transition(r, users') else Transition(Failure(UpsertFailed), users')
  }

  /** Renaming keeps the constraints and the Discord ids present. */
  lemma RenameKeepsIdentity(users: Users, snowflake: string, username: string, now: Timestamp)
    requires WellFormed(users) && HasSnowflake(users, snowflake)
    ensures WellFormed(Rename(users, snowflake, username, now))
    ensures HasSnowflake(Rename(users, snowflake, username, now), snowflake)
  {
    var r := Rename(users, snowflake, username, now);
    assert forall i :: 0 <= i < |users| ==>
      r[i].id == users[i].id && r[i].discordSnowflake == users[i].discordSnowflake;
    var i :| 0 <= i < |users| && users[i].discordSnowflake == snowflake;
    assert r[i].discordSnowflake == snowflake;
  }

  /** After a successful upsert exactly one row holds the Discord id: the upsert never adds a second one. */
  lemma UpsertLeavesOneRow(users: Users, snowflake: string, username: string, now: Timestamp)
    requires WellFormed(users)
    ensures Count(Upsert(users, snowflake, username, now, false).state, SnowflakeIs(snowflake)) == 1
  {
    var t := Upsert(users, snowflake, username, now, false);
    SnowflakeCount(t.state, snowflake);
    assert HasSnowflake(t.state, snowflake) by {
      var i :| 0 <= i < |t.state| && t.state[i] == t.result.value;
    }
  }

  /** Upserting a known Discord id keeps that user's id and creation time, so sessions naming the id survive. */
  lemma UpsertKeepsUser(users: Users, snowflake: string, username: string, now: Timestamp, i: nat)
    requires WellFormed(users) && i < |users| && users[i].discordSnowflake == snowflake
    ensures var t := Upsert(users, snowflake, username, now, false);
      t.result.Success? && t.result.value.id == users[i].id && t.result.value.createdUtc == users[i].createdUtc &&
      t.result.value.updatedUtc == now
  {
    var t := Upsert(users, snowflake, username, now, false);
    var j :| 0 <= j < |t.state| && t.state[j] == t.result.value;
  }

  /** The in-memory `users` table. */
  class UserTable {
    var rows: Users

    ghost predicate Valid()
      reads this
    {
      WellFormed(rows)
    }

    /** A table holding the users already stored. */
    constructor (stored: Users)
      requires WellFormed(stored)
      ensures Valid() && rows == stored
    {
      rows := stored;
    }

    method UpsertUser(snowflake: string, username: string, now: Timestamp, fails: bool) returns (r: Result<UserRow>)
      requires Valid()
      modifies this
      ensures Valid()
      ensures Transition(r, rows) == Upsert(old(rows), snowflake, username, now, fails)
    {
      var t := Upsert(rows, snowflake, username, now, fails);
      rows := t.state;
      r := t.result;
    }

    method GetUserByDiscordId(snowflake: string) returns (r: Result<UserRow>)
      ensures r == FindBySnowflake(rows, snowflake)
    {
      r := FindBySnowflake(rows, snowflake);
    }
  }
}
