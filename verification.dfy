/** The two direct-message commands of the e-mail verification
    (index.cjs:207-257). `!email <address>` records a hashed one-time code for
    the user and mails it; `!code <code>` checks the code against the user's
    latest pending request and, when it matches in time, grants the verified
    role and marks the request verified.

    What the platform and the mail relay do is an input here: the draw of
    `crypto.randomInt`, the current time, the server found for the user, the
    outcome of the database calls, of the mail send and of the role grant. */
module Verification {
  import opened Wrappers
  import opened Text
  import opened Codes
  import opened Pending

  /** CODE_EXPIRE_MINUTES with its default (index.cjs:15). */
  const CODE_EXPIRE_MINUTES: int := 10

  /** How long, in seconds, a code stays valid after it is issued. */
  const CODE_LIFETIME: int := CODE_EXPIRE_MINUTES * 60

  /** The replies to `!email` (index.cjs:212, 218, 224, 227, 230). */
  datatype EmailReply = MalformedEmail | NoSharedServer | StoreFailed | CodeMailed | MailFailed

  /** The replies to `!code` (index.cjs:240, 241, 242, 245, 247, 254), and the
      absence of one when the role grant throws inside the callback. */
  datatype CodeReply = NotRequested | CodeExpired | WrongCode | ServerMissing | NotAMember | Verified | NoReply

  /** How the platform steps after a matching code end (index.cjs:244-251):
      the server is not in the cache, the member cannot be fetched, creating or
      adding the role throws, or the role is granted. */
  datatype GrantOutcome = ServerNotCached | MemberNotFound | GrantThrew | RoleGranted

  /** The row the INSERT writes for a request. */
  function IssuedRow(id: nat, userId: string, guildId: string, digest: string -> string,
                     email: string, code: string, now: int): Row
  {
    Row(id, userId, guildId, Sha256(digest, email), Sha256(digest, code), now + CODE_LIFETIME, false, now)
  }

  /** `!email <address>`: `email` is the trimmed argument, `draw` the value
      `crypto.randomInt` returned, `guild` the first server the bot shares with
      the user, if any. A row is written whether or not the mail is sent. */
  method HandleEmail(table: PendingTable, digest: string -> string, userId: string, email: string,
                     draw: nat, guild: Option<string>, now: int, insertOk: bool, mailOk: bool)
    returns (reply: EmailReply)
    requires table.Valid()
    requires draw < CODE_RANGE
    modifies table
    ensures table.Valid()
    ensures '@' !in email ==> reply == MalformedEmail
    ensures '@' in email && guild.None? ==> reply == NoSharedServer
    ensures '@' in email && guild.Some? && !insertOk ==> reply == StoreFailed
    ensures reply in {MalformedEmail, NoSharedServer, StoreFailed} ==>
      table.rows == old(table.rows) && table.nextId == old(table.nextId)
    ensures '@' in email && guild.Some? && insertOk ==>
      && table.rows == old(table.rows) + [IssuedRow(old(table.nextId), userId, guild.value, digest, email, GenCode(draw), now)]
      && table.nextId == old(table.nextId) + 1
      && reply == (if mailOk then CodeMailed else MailFailed)
  {
    if '@' !in email {
      return MalformedEmail;
    }
    var code := GenCode(draw);
    if guild.None? {
      return NoSharedServer;
    }
    if !insertOk {
      return StoreFailed;
    }
    var _ := table.Insert(userId, guild.value, Sha256(digest, email), Sha256(digest, code), now + CODE_LIFETIME, now);
    reply := if mailOk then CodeMailed else MailFailed;
  }

  /** What `!code` does, given the table, the hash of the trimmed input and
      the current time: the reply, and the table afterwards. */
  function ConfirmCode(rows: seq<Row>, userId: string, inputHash: string, now: int,
                       selectOk: bool, grant: GrantOutcome): (r: (CodeReply, seq<Row>))
    ensures var sel := if selectOk then LatestUnverified(rows, userId) else None;
      && (r.0 == NotRequested <==> sel.None?)
      && (r.0 == CodeExpired <==> sel.Some? && now > rows[sel.value].codeExpiresAt)
      && (r.0 == WrongCode <==> sel.Some? && now <= rows[sel.value].codeExpiresAt && inputHash != rows[sel.value].codeHash)
      && (r.0 == Verified <==> sel.Some? && now <= rows[sel.value].codeExpiresAt && inputHash == rows[sel.value].codeHash
                               && grant == RoleGranted)
      && (r.0 != Verified ==> r.1 == rows)
      && (r.0 == Verified ==> r.1 == WithVerified(rows, rows[sel.value].id))
  {
    var sel := if selectOk then LatestUnverified(rows, userId) else None;
    if sel.None? then (NotRequested, rows)
    else
      var row := rows[sel.value];
      if now > row.codeExpiresAt then (CodeExpired, rows)
      else if inputHash != row.codeHash then (WrongCode, rows)
      else match grant
        case ServerNotCached => (ServerMissing, rows)
        case MemberNotFound => (NotAMember, rows)
        case GrantThrew => (NoReply, rows)
        case RoleGranted => (Verified, WithVerified(rows, row.id))
  }

  /** `!code <code>`: `input` is the trimmed argument, `selectOk` whether the
      SELECT ran without error, `grant` how the platform steps ended. The
      UPDATE runs only once the role has been granted. */
  method HandleCode(table: PendingTable, digest: string -> string, userId: string, input: string,
                    now: int, selectOk: bool, grant: GrantOutcome)
    returns (reply: CodeReply)
    requires table.Valid()
    modifies table
    ensures table.Valid() && table.nextId == old(table.nextId)
    ensures (reply, table.rows) == ConfirmCode(old(table.rows), userId, Sha256(digest, input), now, selectOk, grant)
  {
    var selected := if selectOk then LatestUnverified(table.rows, userId) else None;
    if selected.None? {
      return NotRequested;
    }
    var row := table.rows[selected.value];
    if now > row.codeExpiresAt {
      return CodeExpired;
    }
    if Sha256(digest, input) != row.codeHash {
      return WrongCode;
    }
    match grant {
      case ServerNotCached => return ServerMissing;
      case MemberNotFound => return NotAMember;
      case GrantThrew => return NoReply;
      case RoleGranted =>
    }
    table.SetVerified(row.id);
    reply := Verified;
  }

  // ---------------------------------------------------------------------------
  // Properties of `!code`

  /** A successful `!code` flips exactly one row: the user's latest unverified
      one. Every other row, of this user or another, is left as it was. */
  lemma ConfirmFlipsOnlySelected(rows: seq<Row>, userId: string, inputHash: string, now: int,
                                 selectOk: bool, grant: GrantOutcome)
    requires IdsIncreasing(rows)
    requires ConfirmCode(rows, userId, inputHash, now, selectOk, grant).0 == Verified
    ensures var k := LatestUnverified(rows, userId).value;
      && rows[k].userId == userId && !rows[k].verified
      && ConfirmCode(rows, userId, inputHash, now, selectOk, grant).1 == rows[k := rows[k].(verified := true)]
  {
    var k := LatestUnverified(rows, userId).value;
    WithVerifiedOneRow(rows, k);
  }

  /** Whatever `!code` does, rows of other users and rows already verified
      stay exactly as they were. */
  lemma ConfirmKeepsOtherRows(rows: seq<Row>, userId: string, inputHash: string, now: int,
                              selectOk: bool, grant: GrantOutcome)
    requires IdsIncreasing(rows)
    ensures var after := ConfirmCode(rows, userId, inputHash, now, selectOk, grant).1;
      && |after| == |rows|
      && forall j :: 0 <= j < |rows| && !Awaiting(rows[j], userId) ==> after[j] == rows[j]
  {
    if ConfirmCode(rows, userId, inputHash, now, selectOk, grant).0 == Verified {
      ConfirmFlipsOnlySelected(rows, userId, inputHash, now, selectOk, grant);
    }
  }

  /** Preconditions of the scenarios below: `rows` is a table whose ids are
      below `id` and whose rows were all created by `now`. */
  predicate TableBefore(rows: seq<Row>, id: nat, now: int) {
    && IdsIncreasing(rows)
    && (forall j :: 0 <= j < |rows| ==> rows[j].id < id && rows[j].createdAt <= now)
  }

  /** Requesting a code and then sending it back before it expires (the
      expiry second included) verifies the new row and nothing else. */
  lemma RequestThenConfirm(rows: seq<Row>, id: nat, userId: string, guildId: string,
                           digest: string -> string, email: string, draw: nat, now: int, later: int)
    requires TableBefore(rows, id, now)
    requires draw < CODE_RANGE
    requires now <= later <= now + CODE_LIFETIME
    ensures var issued := rows + [IssuedRow(id, userId, guildId, digest, email, GenCode(draw), now)];
      ConfirmCode(issued, userId, Sha256(digest, GenCode(draw)), later, true, RoleGranted)
        == (Verified, issued[|rows| := issued[|rows|].(verified := true)])
  {
    var row := IssuedRow(id, userId, guildId, digest, email, GenCode(draw), now);
    var issued := rows + [row];
    NewestRowSelected(rows, row);
    assert IdsIncreasing(issued);
    WithVerifiedOneRow(issued, |rows|);
  }

  /** The same code sent back after the expiry second is refused, and the
      table is not touched. */
  lemma ExpiredCodeRefused(rows: seq<Row>, id: nat, userId: string, guildId: string,
                           digest: string -> string, email: string, draw: nat, now: int, later: int,
                           grant: GrantOutcome)
    requires TableBefore(rows, id, now)
    requires draw < CODE_RANGE
    requires later > now + CODE_LIFETIME
    ensures var issued := rows + [IssuedRow(id, userId, guildId, digest, email, GenCode(draw), now)];
      ConfirmCode(issued, userId, Sha256(digest, GenCode(draw)), later, true, grant) == (CodeExpired, issued)
  {
    NewestRowSelected(rows, IssuedRow(id, userId, guildId, digest, email, GenCode(draw), now));
  }

  /** With a collision-free digest, any other input before expiry is refused
      as a wrong code, the table is not touched, and so the right code still
      works afterwards. */
  lemma WrongCodeRefused(rows: seq<Row>, id: nat, userId: string, guildId: string,
                         digest: string -> string, email: string, draw: nat, now: int, later: int,
                         input: string, grant: GrantOutcome)
    requires forall x, y :: digest(x) == digest(y) ==> x == y
    requires TableBefore(rows, id, now)
    requires draw < CODE_RANGE
    requires now <= later <= now + CODE_LIFETIME
    requires input != GenCode(draw)
    ensures var issued := rows + [IssuedRow(id, userId, guildId, digest, email, GenCode(draw), now)];
      ConfirmCode(issued, userId, Sha256(digest, input), later, true, grant) == (WrongCode, issued)
  {
    NewestRowSelected(rows, IssuedRow(id, userId, guildId, digest, email, GenCode(draw), now));
    OnlyTheCodeMatches(digest, input, draw);
  }

  /** Two requests in a row: only the second code is checked, so with a
      collision-free digest the first code, if different, is refused. */
  lemma SecondRequestSupersedes(rows: seq<Row>, id: nat, userId: string, guildId: string,
                                digest: string -> string, email1: string, draw1: nat,
                                email2: string, draw2: nat, now1: int, now2: int, later: int,
                                grant: GrantOutcome)
    requires forall x, y :: digest(x) == digest(y) ==> x == y
    requires TableBefore(rows, id, now1)
    requires draw1 < CODE_RANGE && draw2 < CODE_RANGE && draw1 != draw2
    requires now1 <= now2 <= later <= now2 + CODE_LIFETIME
    ensures var issued := rows + [IssuedRow(id, userId, guildId, digest, email1, GenCode(draw1), now1)]
                               + [IssuedRow(id + 1, userId, guildId, digest, email2, GenCode(draw2), now2)];
      && LatestUnverified(issued, userId) == Some(|rows| + 1)
      && ConfirmCode(issued, userId, Sha256(digest, GenCode(draw1)), later, true, grant) == (WrongCode, issued)
  {
    var first := rows + [IssuedRow(id, userId, guildId, digest, email1, GenCode(draw1), now1)];
    var second := IssuedRow(id + 1, userId, guildId, digest, email2, GenCode(draw2), now2);
    NewestRowSelected(first, second);
    OnlyTheCodeMatches(digest, GenCode(draw1), draw2);
  }
}
