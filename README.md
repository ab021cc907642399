# Discord verification bot — verified model of its core

The bot (one file, `index.cjs`) verifies members of a Discord server by e-mail.
A user sends the bot the direct message `!email <address>`. The bot records a
pending request in the SQLite table `pending` and mails a six-digit code. The
user then sends `!code <code>`. If the code matches the user's latest pending
request and has not expired, the bot grants the verified role and marks that
request verified. Around this workflow the file has three more small pieces of
logic: the line-based chunker `splitMessage`, a per-(user, command) cooldown
map, and the name chosen for a user's verification ticket channel.

This project models those pieces in Dafny and proves what they guarantee:

- `text.dfy` (module `Text`) holds the JavaScript string behaviour the code relies on:
  - `.length` in UTF-16 code units;
  - ASCII `toLowerCase`;
  - `trim` over ECMAScript's white-space set;
  - decimal `toString` of non-negative integers;
  - `padStart`.
- `codes.dfy` (module `Codes`) holds `genCode` and the `sha256` wrapper. The wrapper is the digest of the lower-cased text.
- `chunking.dfy` (module `Chunking`) holds `splitMessage`: a loop, proved against a fold that states what it computes.
- `cooldown.dfy` (module `Cooldown`) holds the cooldown map, as a class whose method updates the map.
- `ticket_name.dfy` (module `TicketName`) holds the channel-name sanitiser and the `while` loop that finds a free name.
- `pending.dfy` (module `Pending`) holds the `pending` table as a class over a sequence of rows. It also has the INSERT, the SELECT of the latest unverified row and the UPDATE.
- `verification.dfy` (module `Verification`) holds the `!email` and `!code` handlers. The `!code` decision is also a function, so lemmas can reason about it across several commands.
- `dispatch.dfy` (module `Dispatch`) holds the message guard and the parsing of the two command prefixes.
- `wrappers.dfy` (module `Wrappers`) holds an `Option` type.

Time, the random draw, the digest function, and the outcomes of the database,
mail and Discord calls are parameters. The hash is modelled as
`digest(lower(text))` for an arbitrary `digest: string -> string`. Lemmas that
need it to be collision-free say so in their `requires`.

Resolved ambiguities:

- `ORDER BY created_at DESC LIMIT 1` leaves ties between rows created in the
  same second unordered. The model picks the row inserted last, which is the
  one with the highest `id`.
- `created_at` comes from SQLite's clock and `code_expires_at` from the
  process's clock. Both are taken to be the same `now`.
- `CODE_EXPIRE_MINUTES` is taken at its default of 10.
- `!email` only checks that the address contains an '@' (index.cjs:212); the
  model does the same.
- The row is inserted before the mail is sent and stays usable when sending
  fails (index.cjs:220-231); the model does the same.
- `.length` counts UTF-16 code units, so a character above U+FFFF counts
  twice wherever `splitMessage` measures a part (index.cjs:73); the model
  measures with `Utf16Length`.

## Model

| member | source | states |
|---|---|---|
| `Text.Trim` | index.cjs:211 | `trim` returns a string no longer than its input, neither starting nor ending with white space |
| `Text.TrimIsSlice` | index.cjs:211 | `trim` returns a slice of its input with only white space before and after it, so an all-white-space argument becomes "" |
| `Text.TrimPadded` | index.cjs:237 | `trim` removes exactly the white space around a text: padded on both sides, the text comes back unchanged |
| `Text.TrimTrimmed` | index.cjs:211 | a string without white space at either end is its own trim |
| `Text.Decimal` | index.cjs:67 | `toString` of a non-negative integer is a non-empty digit string whose first digit is 0 only for 0 |
| `Text.DecimalRoundTrip` | index.cjs:67 | reading the decimal form back gives the number |
| `Text.DecimalLength` | index.cjs:67 | a number below 10^k has at most k digits |
| `Text.PadStart` | index.cjs:67 | `padStart(width, fill)` yields max(length, width) characters: fill characters, then the original string as a suffix |
| `Text.LeadingZeros` | index.cjs:67 | leading zeros do not change the value of a digit string |
| `Text.LowerOfDigits` | index.cjs:66 | a text that lower-cases to a digit string is that digit string |
| `Codes.GenCode` | index.cjs:67 | the code has exactly 6 characters, all decimal digits, and its value is the drawn integer in [0, 1000000) |
| `Codes.GenCodeInjective` | index.cjs:67 | different draws give different codes |
| `Codes.HashIgnoresCase` | index.cjs:66 | texts that differ only in letter case have the same stored hash |
| `Codes.OnlyTheCodeMatches` | index.cjs:66-67 | with a collision-free digest, an input's hash equals the stored code hash exactly when the input is the code |
| `Text.Utf16LengthAppend` | index.cjs:73 | the UTF-16 length of a concatenation is the sum of the lengths |
| `Text.Utf16LengthZero` | index.cjs:76 | `current.length` is 0 exactly for the empty string, so the final push tests for a non-empty part |
| `Chunking.Split` | index.cjs:72 | `split('\n')` gives at least one piece, none containing a newline |
| `Chunking.JoinSplit` | index.cjs:72 | the pieces, each followed by a newline, concatenate to the text plus one newline |
| `Chunking.SplitJoin` | index.cjs:72 | conversely, newline-free lines are recovered by splitting their join |
| `Chunking.SplitMessage` | index.cjs:70-78 | the loop computes the parts. They concatenate to `text + '\n'`. There is at least one part and the last is non-empty. Each part's UTF-16 length is within `maxLength` unless it is one over-long line. Only the first part can be empty, and it is empty exactly when the first line's UTF-16 length plus one exceeds `maxLength` |
| `Chunking.OverflowsMeasuresJoin` | index.cjs:73 | the loop's test is `(current + line + '\n').length > maxLength`, measured in UTF-16 code units |
| `Chunking.StepConcat` | index.cjs:73-74 | one turn of the loop keeps the text: collected parts and the part in progress gain exactly `line + '\n'` |
| `Chunking.ChunksConcat` | index.cjs:72-77 | from any state of the loop, the parts concatenate to the parts already collected, then the part in progress, then the remaining lines |
| `Chunking.ChunksShape` | index.cjs:72-77 | while a part is in progress, every part collected is within budget and every part pushed after that point is non-empty |
| `Chunking.MessagePartsConcat` | index.cjs:70-78 | `splitMessage` is lossless: its parts concatenate to the text plus a final newline |
| `Chunking.MessagePartsShape` | index.cjs:73-76 | at least one part, the last non-empty. Every part is within budget unless it is a single line over budget. An empty part appears only first, and exactly when the first line plus newline exceeds `maxLength` UTF-16 code units |
| `Cooldown.CooldownKeyInjective` | index.cjs:160 | for user ids without '-', the key `${user}-${cmd}` determines user and command |
| `Cooldown.Use` | index.cjs:162-164 | a use is rejected exactly when the key is present with `now < deadline`, and then the map is unchanged. Otherwise the key's deadline becomes `now + 100`. No other key changes in either case |
| `Cooldown.Cooldowns.constructor` | index.cjs:110 | the map starts empty |
| `Cooldown.Cooldowns.TryUse` | index.cjs:160-164 | the check and update on the process's map, as `Use` states them |
| `Cooldown.Admitted` | index.cjs:162-164 | replaying a history of uses decides each attempt once |
| `Cooldown.AdmittedNotBefore` | index.cjs:162-164 | once a key is blocked until t, no later attempt on it before t is admitted |
| `Cooldown.AdmittedUsesSpaced` | index.cjs:162-164 | any two admitted uses of one key are at least COOLDOWN_MS apart, whatever happens in between |
| `TicketName.Sanitize` | index.cjs:183 | the sanitised text contains only `[a-z0-9-]` and is no longer than the input |
| `TicketName.SanitizeAppend` | index.cjs:183 | sanitising distributes over concatenation |
| `TicketName.SanitizeClean` | index.cjs:183 | text of allowed characters is left unchanged, so sanitising is idempotent |
| `TicketName.Base` | index.cjs:183 | the base name has at most 80 characters, all in `[a-z0-9-]` |
| `TicketName.BaseOfUsername` | index.cjs:183 | the prefix's CJK characters are stripped, so the base is '-' plus the sanitised, lower-cased user name, cut to 80 characters. It always starts with '-' |
| `TicketName.CandidateInjective` | index.cjs:185 | the names tried (`base`, `base-1`, `base-2`, ...) are pairwise distinct |
| `TicketName.TriedBeforeSize` | index.cjs:184-185 | after k attempts, k distinct names have been tried |
| `TicketName.TicketChannelName` | index.cjs:183-185 | the chosen name is not among the existing names. It is the first free one of `base`, `base-1`, ..., reached after at most as many attempts as there are names, so the loop ends for every finite set |
| `Pending.LatestUnverified` | index.cjs:239 | the SELECT finds nothing exactly when the user has no unverified row. Otherwise it finds an unverified row of that user, and no such row comes later in `created_at` order (ties go to the later insertion) |
| `Pending.NewestRowSelected` | index.cjs:220-239 | a newly inserted unverified row, created no earlier than the rest, is the one the next SELECT for that user finds |
| `Pending.OtherRowNotSelected` | index.cjs:239 | a row of another user, or a verified row, never changes what the SELECT finds |
| `Pending.WithVerified` | index.cjs:253 | the UPDATE keeps the number of rows |
| `Pending.WithVerifiedOneRow` | index.cjs:253 | with distinct ids, the UPDATE flips `verified` on the one row with that id and leaves every other row unchanged |
| `Pending.WithVerifiedIdempotent` | index.cjs:253 | running the UPDATE twice is running it once |
| `Pending.WithVerifiedMonotone` | index.cjs:253 | the UPDATE only changes `verified`, and rows already verified stay exactly as they were |
| `Pending.PendingTable.constructor` | index.cjs:34-43 | the table starts empty, with ids counting from 1 |
| `Pending.PendingTable.Insert` | index.cjs:220-222 | the INSERT appends one unverified row with the next id and `created_at = now`, and keeps ids increasing |
| `Pending.PendingTable.SetVerified` | index.cjs:253 | the UPDATE on the table, keeping its invariant |
| `Verification.HandleEmail` | index.cjs:210-233 | without '@' the reply is "bad format" and nothing is inserted. Without a shared server, or when the INSERT fails, nothing is inserted either. Otherwise exactly one row is appended: unverified, `email_hash = H(lower(email))`, `code_hash = H(code)`, `code_expires_at = now + 600`. The reply then depends only on the mail outcome |
| `Verification.ConfirmCode` | index.cjs:239-254 | "request first" exactly when no unverified row is found. "Expired" exactly when `now > code_expires_at`. "Wrong code" exactly when the code is in time but its hash differs. Success exactly when the code is in time, the hash matches and the role is granted. Only success changes the table, and then only by the UPDATE of the selected row |
| `Verification.HandleCode` | index.cjs:236-256 | the handler's reply and new table are those of `ConfirmCode`, and the table invariant is kept |
| `Verification.ConfirmFlipsOnlySelected` | index.cjs:239-253 | on success exactly one row changes: the user's latest unverified row, now verified |
| `Verification.ConfirmKeepsOtherRows` | index.cjs:239-253 | rows of other users and verified rows are never changed by `!code` |
| `Verification.RequestThenConfirm` | index.cjs:220-254 | after `!email`, sending the generated code back at any time up to the expiry second (included) verifies the new row |
| `Verification.ExpiredCodeRefused` | index.cjs:241 | the right code after the expiry second is refused as expired and the table is unchanged |
| `Verification.WrongCodeRefused` | index.cjs:242 | with a collision-free digest, any other input in time is refused as a wrong code, with the table unchanged |
| `Verification.SecondRequestSupersedes` | index.cjs:239 | after two requests, only the second row is checked, so the first code is refused |
| `Dispatch.DirectMessageIgnoredAsWritten` | index.cjs:208 | as written, the guard drops every direct message, including a person's |
| `Dispatch.RouteExactly` | index.cjs:208-236 | with the corrected guard, a message yields a command exactly when it is a person's direct message starting with `!email ` or `!code ` |
| `Dispatch.PrefixesExclusive` | index.cjs:210 | no message starts with both `!email ` and `!code ` |
| `Dispatch.ParseCommand` | index.cjs:210-237 | a message is an e-mail request exactly when it starts with `!email `, and a code submission exactly when it starts with `!code ` |
| `Dispatch.Route` | index.cjs:207-210 | only a person's direct message yields a command |
| `Dispatch.RouteCommands` | index.cjs:210-237 | `!email <arg>` and `!code <arg>` from a person's direct message carry the trimmed argument |

## Findings

| source | as written | input that shows it | evidently intended | confidence | as-written member | corrected member |
|---|---|---|---|---|---|---|
| index.cjs:208 | `message.channel.type !== 'DM'` compares a string with `channel.type`, which discord.js 14 gives as the number `ChannelType.DM` (1). The file imports `GatewayIntentBits`, `Events` and `ChannelType`, names that only exist from version 14 on | a direct message from a person: channel type 1, author not a bot | handle direct messages (`channel.type === ChannelType.DM`) and drop bots | high if the installed discord.js is version 14 (the package manifest is not part of this model); not executed | `Dispatch.DirectMessageIgnoredAsWritten` | `Dispatch.RouteExactly` |

## Left out

- Text.Lower: only ASCII letters are lower-cased. Unicode `toLowerCase` maps a few non-ASCII characters (the Kelvin sign, dotted capital I) to ASCII letters. Such characters would then survive the ticket-name sanitiser and take part in the e-mail hash.
- Codes.Sha256: the digest is an arbitrary function, not SHA-256. Only case-insensitivity and determinism are modelled. Lemmas that need collision-freedom assume it in their `requires`.
- The Discord client is not modelled: login, intents and partials, slash-command registration (index.cjs:96-107), button replies, category and channel creation, and permission overwrites are external SDK calls.
- The server `!email` picks (index.cjs:216-217) is the first cached server whose member cache holds the user. The Discord client's caches are not modelled, so that server is an `Option` input of `Verification.HandleEmail`.
- In `!code`, the server lookup, member fetch and role find-or-create-and-add (index.cjs:244-251) are the input `GrantOutcome` of `Verification.HandleCode`. When the role step throws, the model replies nothing and leaves the table unchanged. In the source, the promise rejection is unhandled.
- Mail sending (index.cjs:59-64, 124-132, 226) is network I/O. Its outcome is a boolean input that only selects the reply. The SMTP provider switch (index.cjs:48-57) only reads the environment.
- The INSERT's and SELECT's errors are boolean inputs. The UPDATE (index.cjs:253) has no callback in the source. Its failure cannot be observed and is not modelled.
- `Date.now`, `crypto.randomInt` and the real SHA-256 are not modelled. They are non-deterministic or foreign, so they are parameters.
- The default budget of 1900 (index.cjs:70), which the one caller relies on (index.cjs:167), is not a separate constant: `Chunking.SplitMessage` takes `maxLength` for every budget.
- Verification.HandleEmail: `CODE_EXPIRE_MINUTES` is the default 10. A non-numeric environment value (which `parseInt` turns into NaN) is not modelled.
- The `/驗證` command, the `CREATOR_ID` permission check and the message-sending loop with `sleep(500)` (index.cjs:141-171) are platform calls. The loop's timing is not modelled. Only `splitMessage` and the cooldown from that handler are modelled.
- The Express keep-alive server (index.cjs:261-264) is not part of this model.
- Handlers run as async callbacks that may interleave. Each command is modelled as one atomic step.
- Ties in `created_at` are left unordered by SQLite. The model breaks them in favour of the later insertion.
