/** The `pending` table of verification attempts (index.cjs:34-43) and the
    three statements the direct-message handlers run on it: the INSERT of
    index.cjs:220-222, the SELECT of index.cjs:239 and the UPDATE of
    index.cjs:253. */
module Pending {
  import opened Wrappers

  /** One row; `verified` is the INTEGER 0/1 column, `created_at` and
      `code_expires_at` are epoch seconds. */
  datatype Row = Row(
    id: nat,
    userId: string,
    guildId: string,
    emailHash: string,
    codeHash: string,
    codeExpiresAt: int,
    verified: bool,
    createdAt: int)

  /** A row the SELECT considers for a user: `user_id=? AND verified=0`. */
  predicate Awaiting(row: Row, userId: string) {
    row.userId == userId && !row.verified
  }

  /** Row `k` comes after row `j` in `ORDER BY created_at DESC`, ties going to
      the later insertion. */
  predicate NotLaterThan(rows: seq<Row>, j: nat, k: nat)
    requires j < |rows| && k < |rows|
  {
    rows[j].createdAt < rows[k].createdAt || (rows[j].createdAt == rows[k].createdAt && j <= k)
  }

  /** `SELECT * FROM pending WHERE user_id=? AND verified=0 ORDER BY created_at
      DESC LIMIT 1`, as the position of the row found: the user's unverified
      row created last. */
  function LatestUnverified(rows: seq<Row>, userId: string): (k: Option<nat>)
    ensures k.None? <==> forall j :: 0 <= j < |rows| ==> !Awaiting(rows[j], userId)
    ensures k.Some? ==> k.value < |rows| && Awaiting(rows[k.value], userId)
    ensures k.Some? ==> forall j :: 0 <= j < |rows| && Awaiting(rows[j], userId) ==> NotLaterThan(rows, j, k.value)
  {
    if rows == [] then None
    else
      var n := |rows| - 1;
      var earlier := LatestUnverified(rows[..n], userId);
      if Awaiting(rows[n], userId) && (earlier.None? || rows[earlier.value].createdAt <= rows[n].createdAt)
      then Some(n)
      else earlier
  }

  /** A new unverified row for a user, created no earlier than every row in
      the table, is the one the SELECT finds next. */
  lemma NewestRowSelected(rows: seq<Row>, row: Row)
    requires forall j :: 0 <= j < |rows| ==> rows[j].createdAt <= row.createdAt
    requires !row.verified
    ensures LatestUnverified(rows + [row], row.userId) == Some(|rows|)
  {
    assert (rows + [row])[..|rows|] == rows;
  }

  /** Appending a row of another user, or a verified one, does not change what
      the SELECT finds for a user. */
  lemma OtherRowNotSelected(rows: seq<Row>, row: Row, userId: string)
    requires !Awaiting(row, userId)
    ensures LatestUnverified(rows + [row], userId) == LatestUnverified(rows, userId)
  {
    assert (rows + [row])[..|rows|] == rows;
  }

  /** `UPDATE pending SET verified=1 WHERE id=?`. */
  function WithVerified(rows: seq<Row>, id: nat): (r: seq<Row>)
    ensures |r| == |rows|
  {
    seq(|rows|, j requires 0 <= j < |rows| => if rows[j].id == id then rows[j].(verified := true) else rows[j])
  }

  predicate IdsIncreasing(rows: seq<Row>) {
    forall i, j :: 0 <= i < j < |rows| ==> rows[i].id < rows[j].id
  }

  /** With distinct ids, the UPDATE sets `verified` on the one row with that id
      and leaves every other row as it was. */
  lemma WithVerifiedOneRow(rows: seq<Row>, k: nat)
    requires IdsIncreasing(rows)
    requires k < |rows|
    ensures WithVerified(rows, rows[k].id) == rows[k := rows[k].(verified := true)]
  {
    var r := WithVerified(rows, rows[k].id);
    forall j | 0 <= j < |rows|
      ensures r[j] == rows[k := rows[k].(verified := true)][j]
    {
      if j < k {
        assert rows[j].id < rows[k].id;
      } else if k < j {
        assert rows[k].id < rows[j].id;
      }
    }
  }

  /** Running the UPDATE twice is running it once. */
  lemma WithVerifiedIdempotent(rows: seq<Row>, id: nat)
    ensures WithVerified(WithVerified(rows, id), id) == WithVerified(rows, id)
  {
    var once := WithVerified(rows, id);
    var twice := WithVerified(once, id);
    forall j | 0 <= j < |rows|
      ensures twice[j] == once[j]
    {
    }
  }

  /** The UPDATE changes nothing but `verified` flags, and only from 0 to 1;
      rows already verified are left exactly as they were. */
  lemma WithVerifiedMonotone(rows: seq<Row>, id: nat)
    ensures var r := WithVerified(rows, id);
      forall j :: 0 <= j < |rows| ==>
        r[j] == rows[j].(verified := r[j].verified) && (rows[j].verified ==> r[j] == rows[j])
  {
  }

  /** The table itself. `nextId` stands for SQLite's AUTOINCREMENT counter. */
  class PendingTable {
    var rows: seq<Row>
    var nextId: nat

    /** Ids are positive, below the counter and increase with insertion order. */
    ghost predicate Valid()
      reads this
    {
      && nextId >= 1
      && IdsIncreasing(rows)
      && (forall j :: 0 <= j < |rows| ==> 1 <= rows[j].id < nextId)
    }

    constructor ()
      ensures Valid() && rows == [] && nextId == 1
    {
      rows := [];
      nextId := 1;
    }

    /** The INSERT: one unverified row, stamped with the current time. */
    method Insert(userId: string, guildId: string, emailHash: string, codeHash: string, codeExpiresAt: int, now: int)
      returns (id: nat)
      requires Valid()
      modifies this
      ensures Valid()
      ensures id == old(nextId) && nextId == id + 1
      ensures rows == old(rows) + [Row(id, userId, guildId, emailHash, codeHash, codeExpiresAt, false, now)]
    {
      id := nextId;
      rows := rows + [Row(id, userId, guildId, emailHash, codeHash, codeExpiresAt, false, now)];
      nextId := nextId + 1;
    }

    /** The UPDATE. */
    method SetVerified(id: nat)
      requires Valid()
      modifies this
      ensures Valid()
      ensures rows == WithVerified(old(rows), id) && nextId == old(nextId)
    {
      rows := WithVerified(rows, id);
    }
  }
}
