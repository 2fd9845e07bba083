# gsbot character updates and deletions, modelled in Dafny

gsbot is a Discord bot that keeps one game character profile per member and server
(family name, character name, class, level and level progress, AP, AAP, DP, gear score,
gear picture, and a history of earlier stats). This project models the two command
groups that change those records:

- the **update** commands (`cogs/update.py`): finding the target record, with the rule
  that only officers may tag another member; the single-field updates `ap`, `aap`, `dp`,
  `lvl`, `progress` and `pic`, where setting `aap` or `dp` re-derives the gear score from
  the other stored field; and `all`, which first appends a `Historical` snapshot of the
  old stats to the record's history and then overwrites level, AP, AAP, DP and progress,
  with gear score = AAP + DP. Every successful update stamps `updated` with the one time
  taken when the command starts.
- the **delete** commands (`cogs/delete.py`): `delete`, which removes the author's own
  primary character or, for an officer, the first primary character of the server whose
  family name contains the given text (case-insensitively); and `delete_all`, which is
  officer-only, asks for a confirmation and removes every character of the server only
  when the author answers exactly `Yes` before the timeout.

The database is a `Records.Store` object holding the character documents as a sequence in
store order (a query's `.first()` is the first match in that order). Each command is a
method that acts on the store, with a specification function beside it (`UpdateAttributeSpec`,
`AllSpec`, `PicSpec`, `DeleteSpec`, `DeleteAllSpec`) that gives its outcome and the new
store contents; the method's postcondition is that it does what its specification says,
and the lemmas state the properties of the specifications.

Modules: `Common` (option type, first match), `Text` (case handling), `Numeric` (Python's
`round` and the combined level value of a snapshot), `Records` (data model and store),
`Update`, `Delete`.

Inputs from outside the core are parameters: the time a command starts (`date`), the
author with their role names and the configured officer role name (`Context`), the
image host (`upload`, a function returning the stored picture's URL or `None` on
failure), and the messages that reach the bot while the confirmation prompt is open
(`incoming`, in arrival order; the end of the sequence is the timeout).

Points where the code is followed as written:

- With no tagged user (update) or no family name (delete), the lookup is the author's
  primary character in any server, not only the current one (`Delete.OwnDeleteIgnoresServer`).
- With a tagged user or family name, the lookup runs first and the role check after it,
  so a non-officer is refused whether or not a record matched; this path also prints the
  "could not find character" message in the update commands. Tagging oneself still needs
  the officer role.
- `delete_all` does not stop at the first reply: the wait skips every message that is
  not exactly `Yes` from the author, and confirms if such a message comes at any point
  before the timeout.
- No parameter is range-checked: progress outside 0..100 or negative stats are stored
  as given.
- `all` fails without writing anything when the stored progress rounds to a negative
  number, because the snapshot's level text (such as `5.-1`) is then not a number.
- A `delete` whose target does not exist fails on the missing record and writes nothing.

## Model

| member | source | states |
|---|---|---|
| Common.First | cogs/delete.py:23-25 | the query's `.first()`: the index of the first record satisfying the filter, with no earlier record satisfying it, and None exactly when no record satisfies it |
| Update.ResolveMember | cogs/update.py:18-28 | a tagged user by a non-officer is refused (and only then); otherwise the result is the first primary character of the author (any server) or of the tagged user in this server, and "not found" exactly when there is none |
| Update.ApplyChange | cogs/update.py:53-70 | the record one `update_attributes` call leaves behind; no ensures of its own: `ChangeWritesItsValue`, `ChangeTouchesOnlyItsFields` and `GearScoreAfterChange` state what it writes and what it keeps |
| Update.ChangeTouchesOnlyItsFields | cogs/update.py:53-70 | a single-field update writes only its own fields and `updated`, which becomes `date`; owner, server, names, class, primary flag and history are unchanged |
| Update.ChangeWritesItsValue | cogs/update.py:53-70 | setting `aap` stores it and makes gear score aap + stored dp, dp unchanged; setting `dp` symmetric; ap, level, progress and gear picture store the value and leave the gear score alone |
| Update.GearScoreAfterChange | cogs/update.py:53-70 | after a single-field update, gear score = aap + dp holds exactly when the update was to aap or dp, or it held before |
| Update.UpdateAttributeSpec | cogs/update.py:44-70 | a refused or unresolved update leaves the store unchanged; an own update, or an officer's, with a matching record succeeds; a successful one rewrites only the first matching record, with every other record unchanged |
| Update.OwnUpdateIgnoresServer | cogs/update.py:19-20 | with no tagged user, the author's first primary character is updated even when it belongs to another server |
| Update.UpdateAttribute | cogs/update.py:44-70 | the method resolves, checks and writes the store exactly as `UpdateAttributeSpec` says |
| Update.UpdateAttributeKeepsGearScores | cogs/update.py:53-70 | if every record satisfies gear score = aap + dp, it still does after any single-field update |
| Update.PicSpec | cogs/update.py:153-168 | no URL and no attachment, or a failed upload of the URL (or else of the first attachment), leave the store unchanged; a successful upload acts exactly as a gear-picture update of the author's own character with the uploaded URL |
| Update.Pic | cogs/update.py:153-168 | the method does what `PicSpec` says |
| Update.CreateHistorical | cogs/update.py:30-40 | `__create_historical`, with level and rounded progress kept as two integers; no ensures of its own: `OverwriteSnapshotsThePriorState` states each field of the snapshot and `SnapshotKeepsLevelAndProgressApart` that level and progress stay apart |
| Update.SnapshotFails | cogs/update.py:35 | `float()` of the level text fails; no ensures of its own: by the contract of `Numeric.LevelDecimal` it holds exactly when the progress rounds to a negative number, and `AllSpec` states that `all` then fails and writes nothing |
| Update.SnapshotKeepsLevelAndProgressApart | cogs/update.py:30-40 | two snapshots agree on level and progress exactly when the characters agree on level and rounded progress |
| Update.Overwrite | cogs/update.py:102-116 | the record `all` writes; no ensures of its own: `OverwriteAppendsOneSnapshot`, `OverwriteSnapshotsThePriorState` and `OverwriteSetsTheArguments` state its history, its snapshot and its fields |
| Update.OverwriteAppendsOneSnapshot | cogs/update.py:102-116 | `all` makes the history one entry longer, the old entries unchanged and in order, the new entry being the snapshot of the old record |
| Update.OverwriteSnapshotsThePriorState | cogs/update.py:30-40 | the appended entry has type "update", the upper-cased class, timestamp `date`, and the old level, rounded progress, ap, aap, dp and gear score |
| Update.OverwriteSetsTheArguments | cogs/update.py:107-116 | after `all` the level, ap, aap, dp and progress are the arguments, gear score = aap + dp, `updated` is `date`, and nothing else changed |
| Update.AllSpec | cogs/update.py:91-116 | refusal, no character, or a snapshot that cannot be formed leave the store unchanged; an allowed `all` whose first match can be snapshotted succeeds; success rewrites only the first matching record |
| Update.All | cogs/update.py:91-125 | the method resolves, snapshots, appends and overwrites exactly as `AllSpec` says |
| Update.AllKeepsGearScores | cogs/update.py:107-116 | if every record satisfies gear score = aap + dp, it still does after `all` |
| Update.HistoryOnlyGrows | cogs/update.py:53-116 | no record's history loses or reorders an entry: single-field updates keep it, `all` extends it |
| Update.SetDpScenario | cogs/update.py:60-65 | a record with aap 200, dp 50 set to dp 70 has gear score 270 and aap 200 |
| Delete.ResolveDeleteTarget | cogs/delete.py:22-29 | a family name given by a non-officer is refused (and only then); otherwise the first primary character of the author (any server) or the first primary character of this server whose family name contains the text, ignoring case |
| Delete.RemoveAtDropsOne | cogs/delete.py:30 | removing one position drops exactly that record; the others keep their values and order |
| Delete.DeleteSpec | cogs/delete.py:16-36 | a refused or unmatched delete leaves the store unchanged; an own delete, or an officer's, with a match succeeds; a successful one removes exactly the first matching record |
| Delete.Delete | cogs/delete.py:16-36 | the method does what `DeleteSpec` says |
| Delete.OwnDeleteIgnoresServer | cogs/delete.py:22-23 | in any store, an own delete removes the author's first primary character even when it belongs to another server |
| Delete.WaitForMessage | cogs/delete.py:49 | the wait yields a message by the author with exactly the given content, and None exactly when no such message arrives before the timeout |
| Delete.WithoutServer | cogs/delete.py:51 | every remaining record is of another server, and every record of another server remains |
| Delete.WithoutServerExact | cogs/delete.py:51 | bulk removal keeps every copy of a record of another server and no copy of a record of this server |
| Delete.DeleteAllSpec | cogs/delete.py:39-54 | a non-officer removes nothing; an officer removes exactly this server's records when the author sent exactly "Yes" in time, and nothing otherwise |
| Delete.DeleteAll | cogs/delete.py:39-57 | the method does what `DeleteAllSpec` says |
| Delete.DeleteAllScenario | cogs/delete.py:48-54 | with three records of the server and one of another, "Yes" from the officer leaves only the other server's record; "yes", or "Yes" from someone else, removes nothing |
| Text.IContains | cogs/delete.py:25 | true exactly when the text occurs at some position of the family name, letters compared without regard to case |
| Text.Upper | cogs/update.py:33 | the upper-cased class has the same length, each letter upper-cased |
| Numeric.Round | cogs/update.py:35 | the rounded progress is within one half of the progress, and even at a tie |
| Numeric.RoundUnique | cogs/update.py:35 | the two properties of `Round` determine its result |
| Numeric.Digits | cogs/update.py:35 | `str(n)` has `d` digits, where 10^(d-1) <= n < 10^d (one digit for zero) |
| Numeric.LevelDecimal | cogs/update.py:35 | no number exactly when the rounded progress is negative; otherwise the whole part of the value is the level (for a negative level, of its negation): the level always reads back, only the progress digits can collide |
| Numeric.LevelDecimalTimesTen | cogs/update.py:35 | for every level and every non-negative rounded progress r, the combined value for r and for 10 * r is the same |
| Numeric.LevelDecimalCollides | cogs/update.py:35 | the combined value is the same for progress 7 and 70, and for 1, 10 and 100, on one level |

## Findings

| source | as written | input that shows it | evidently intended | confidence | as-written member | corrected member |
|---|---|---|---|---|---|---|
| cogs/update.py:35 | the snapshot's level is `float(str(level) + '.' + str(round(progress)))` | level 5 with progress 7 and with progress 70 both give 5.7 (also 1, 10 and 100 all give 5.1; in general r and 10 * r collide) | the snapshot keeps the level and the rounded progress so that each can be read back | not executed | Numeric.LevelDecimalTimesTen | Update.SnapshotKeepsLevelAndProgressApart |

The rest of the model uses the corrected snapshot, whose `level` and `progress` are two
integers (`Update.CreateHistorical`). The as-written value is kept only to decide when
`all` fails (`Update.SnapshotFails`).

## Left out

- Discord messaging, the `tabulate`/`codify` output and the `update` group's help text: output only.
- The activity log (`logActivity`) and error printing: output only, no effect on the store.
- `gsbot.py` (database connection, picture host configuration, extension loading, command error replies): start-up wiring with no business rule.
- The picture upload is the `upload` parameter; its network behaviour is not part of this model.
- The 10-second timeout and the asynchronous wait: the messages that arrive in time are the `incoming` input.
- Exceptions other than the ones modelled as failures (no matching record on delete, a snapshot whose level text is not a number, a failed upload): a failing database write or a missing field is not modelled; every modelled failure leaves the store unchanged.
- Whether `Historical.create` also persists the snapshot in a collection of its own: `models/historical.py` is not part of this model; the snapshot is modelled only as the entry appended to the character's history.
- The character documents are values inside the store; the in-memory document whose `hist_data` list is appended before the write, and any aliasing of it, are not modelled.
- Concurrent commands on one record: commands are modelled one at a time.
- Floating point: progress is an exact `real`; the binary rounding of a float is not modelled, and neither is a NaN or infinite progress: the `progress` command's float argument accepts one, and `round` then raises in the snapshot of `all` (cogs/update.py:35), so `all` writes nothing for such a record, a failure a `real` progress cannot show.
- Numeric.LevelDecimal: gives the exact decimal the level text denotes, not the nearest double gsbot stores, because floats are not modelled; equal decimals give equal doubles, so the collisions shown hold for the stored floats too. Whether `float()` fails is decided by the sign of the rounded progress, not by a model of the text and its parsing.
- Text.Upper: upper-cases only the ASCII letters, because Unicode case mapping is not modelled.
- Text.IContains: compares only ASCII letters without regard to case, for the same reason.
- The primary-per-owner uniqueness of the database: not assumed; lookups take the first match in store order.
