# CustomDiscordBot core, modelled in Dafny

This project models the rules underneath the slash commands of the
100 Devs 1 Game community bot:

- **games.db tables** (`databases.dfy`).
  - The `games`, `contributors` and `asset_requests` tables are held in memory as row sequences by a `Database` class.
  - The class provides the helpers that insert, update a single field, delete by predicate, fetch and test for existence.
  - The games-table lookups (`get_game_info`, `get_default_game_info`, `get_game_channel`) are functions over the rows.
  - Row ids follow SQLite:
    - `games` has `INTEGER PRIMARY KEY`, so the next id is the largest id plus one;
    - the other two tables have `AUTOINCREMENT`, so the next id comes from a counter that deletes never lower.
  - An insert that leaves a NOT NULL column NULL fails, as SQLite's IntegrityError does.
- **Asset requests** (`assets.dfy`).
  - The `/assets request` gate, the request modal, the list flow (one initial response, then one follow-up per row), and the Accept and Finish buttons.
- **Contributor registration** (`contributors.dfy`): check, then insert.
- **Chain Game Collab schedule** (`chain.dfy`).
  - `/chain claim` rewrites the message's lines.
  - `/chain updateschedule` seeds a fresh schedule, or drops a stale first day and appends the next open day.
  - The wall clock and the epoch second of day 1 at 10:00 are parameters.
- **Game channels** (`game_channel.dfy`).
  - `sanitize_repo_name`, the gate in front of `/create_game`, the duplicate-repository check and the thread-lock edit.
  - The message copier and its 2000-character cut. The copier is not called by the handler (`game_channel.py:113` is commented out).
- **Game info** (`game.py`, modelled in `game.dfy`): the `/game info` embed.
- **Reactions** (`reactions.dfy`): the potato and 💯 listeners.
- **Bot entry file** (`discord_bot.dfy`): `guild_slash_command` and the `/lintorder` truncation.

`py_strings.dfy` gives the Python string operations these use, and the properties they need:

- `in`, `startswith`, `split`, `split(sep, 1)`, `strip`, `rstrip`;
- `str()` and `int()` on integers;
- ASCII `lower` and `capitalize`.

`wrappers.dfy` holds `Option`. A Python exception becomes an explicit outcome (`Raises`, `None`).

Where the code and the repository's design description differ, the model follows the code:

- The description lists game and contributor columns that the schema does not have (description, lifecycle state, timezone, trust points). The model has only the columns `setup_db` creates.
- There is no trust-score heuristic in the modelled files.
- The description says extension "appends one open day". The code also drops the stale first line, so the number of lines stays the same (`Chain.ExtendRollsStaleDay`).
- The description says a claim checks that the day "reads Open". The code matches every line that starts with `*Day #<n>`, so day 1 also matches days 10–19. It refuses when any matching line lacks the substring `Open` (`Chain.ClaimDayOneTakesDayTen`).

## Model

| member | source | states |
|---|---|---|
| Databases.NotNullColumns | databases.py:339-384 | the NOT NULL columns of each schema are columns of that schema |
| Databases.Select | databases.py:250-270 | a row is returned exactly when it is in the table and satisfies the WHERE predicate; never more rows than the table |
| Databases.SelectIdsIncrease | databases.py:250-270 | the rows returned keep the table's increasing id order |
| Databases.First | databases.py:229-248 | `LIMIT 1`: none exactly when no row matches, otherwise a matching row with no matching row before it |
| Databases.FirstWhere | databases.py:229-248 | `field = ?`: none exactly when no row has that non-NULL value, otherwise a row of the table that has it |
| Databases.FirstWhereIsFirst | databases.py:229-248 | the `field = ?` lookup returns the first matching row |
| Databases.SetWhereId | databases.py:201-214 | `UPDATE ... WHERE id = ?`: same rows, same ids and order; rows with that id get the field replaced, every other row is unchanged |
| Databases.UpdateMissingIdChangesNothing | databases.py:201-214 | updating an id no row has leaves the table as it was |
| Databases.SelectKeepsTableOk | databases.py:272-286 | deleting rows keeps ids distinct, increasing and below the next id, and every row well-formed |
| Databases.LastIdBound | databases.py:339 | in a well-formed table every id is at most the last row's id |
| Databases.NextIdOf | databases.py:339-384 | the id the next insert receives: one past the last games row (`INTEGER PRIMARY KEY`), or one past the table's AUTOINCREMENT counter for the other tables; the insert lemmas state what it guarantees |
| Databases.AppendKeepsTableOk | databases.py:174-192 | appending a well-formed row with the next id keeps the table well-formed |
| Databases.InsertKeepsTableOk | databases.py:174-192 | the inserted id is positive, the next id becomes one more than it, and the table stays well-formed |
| Databases.UpdateKeepsNextId | databases.py:201-214 | a field update does not change the next id |
| Databases.SetWhereIdKeepsTableOk | databases.py:201-214 | an update that sets no NOT NULL column of an existing row to NULL keeps the table well-formed |
| Databases.NewCols | databases.py:174-187 | the inserted row holds every schema column, with the given value or NULL when it was not given |
| Databases.CountWhere | databases.py:302-307 | the number of rows whose field equals the value is zero exactly when no row has it |
| Databases.CountWhereAppend | databases.py:174-192 | an inserted row adds one to the count exactly when its field equals the value |
| Databases.GetGameInfo | databases.py:54-58 | none exactly when no game has that channel id; otherwise a game row with that channel id |
| Databases.GetDefaultGameInfo | databases.py:67-69 | none exactly when no game has id 1; otherwise the game with id 1 |
| Databases.GetGameChannel | databases.py:60-65 | NULL when no game has that id; when some game has it, the `channel_id` of the first game with that id (which may itself be NULL) |
| Databases.GameInsertFills | databases.py:42-52 | `add_game` passes schema columns only, meets NOT NULL, and stores its five values with `itch_io_link` NULL |
| Databases.ContributorInsertFills | databases.py:82-98 | `register_contributor` passes exactly the schema's columns and meets NOT NULL |
| Databases.RequestInsertFills | databases.py:100-111 | `add_asset_request` meets NOT NULL and stores its values with status "Pending" and `accepted_by` NULL |
| Databases.Database.constructor | databases.py:319-387 | the three tables start empty and well-formed |
| Databases.Database.Store | databases.py:174-300 | the one table receives the given rows and counter, provided they are well-formed; every other table and counter is kept |
| Databases.Database.FetchOne | databases.py:229-248 | `fetch_one_as_dict`: none exactly when no row satisfies the WHERE predicate; otherwise a satisfying row with no satisfying row before it |
| Databases.Database.FetchAll | databases.py:250-270 | `fetch_all_as_dict_arr`: a row is returned exactly when it is in the table and satisfies the predicate; never more rows than the table |
| Databases.Database.InsertInto | databases.py:174-199 | succeeds exactly when every NOT NULL column gets a non-NULL value, and then appends one row with the next id; on failure nothing changes; other tables untouched |
| Databases.Database.UpdateField | databases.py:201-227 | the table becomes the field update of the old one, unless NULL would enter a NOT NULL column of an existing row (then it raises and nothing changes); other tables and next ids untouched |
| Databases.Database.DeleteWhere | databases.py:272-300 | the table keeps exactly the rows not matching, in order; the AUTOINCREMENT counter and other tables are untouched |
| Databases.Database.EntryExists | databases.py:302-307 | true exactly when some row has that field equal to the value; never true for NULL |
| Databases.Database.AddGame | databases.py:42-52 | appends one games row with the given name, repository, channel and owner, and next id; other tables untouched |
| Databases.Database.RegisterContributor | databases.py:82-98 | appends exactly one contributors row with the given values and the next id; other tables untouched |
| Databases.Database.AddAssetRequest | databases.py:100-111 | appends one asset_requests row carrying game id, type, content, context and requester, with status "Pending" |
| Databases.Database.MarkRequestAccepted | databases.py:113-120 | on the row with that id, whatever its status, status becomes "Accepted" and `accepted_by` the user; every other row and table is unchanged |
| Databases.Database.MarkRequestFinished | databases.py:122-126 | on the row with that id only status changes, to "Finished"; `accepted_by` and all other fields and rows keep their values |
| Databases.Database.IsRequestPending | databases.py:128-136 | true exactly when a row with that id exists and its status is "Pending" |
| Databases.Database.GetAssetRequestsByType | databases.py:138-154 | exactly the rows of that type with that status, and, when a user is given, requested by that user |
| Databases.Database.RemoveAssetRequestsForGame | databases.py:156-163 | removes exactly the asset_requests rows with that game id; every other row and table is untouched |
| Assets.RequestGame | assets.py:25 | in the test environment none exactly when no game has id 1, else that game; otherwise none exactly when no game has the channel, else a game with that channel |
| Assets.Request | assets.py:23-35 | "No game found" exactly when there is no game row (game 1 in the test environment); the menu exactly when the caller's display name is a substring of the stored owner text |
| Assets.OwnerTestIsSubstring | assets.py:30 | any part of the owner text passes the owner test, the empty name included |
| Assets.StoredContext | assets.py:72 | an empty context is stored as "N/A"; any other context is stored unchanged |
| Assets.SubmitRequest | assets.py:70-80 | the modal appends one Pending request for the game with the given type, content, stored context and user |
| Assets.ListQuery | assets.py:106-111 | with a user, the query is status "Accepted" filtered by `requested_by`; without one, status "Pending" |
| Assets.ListAcceptedMatchesRequester | assets.py:106-111 | a request accepted by the user but requested by someone else is not listed by `listaccepted` |
| Assets.ContextText | assets.py:123 | a NULL or empty context shows as "N/A"; any other text shows as itself |
| Assets.CardFor | assets.py:120-135 | a card, when one can be built, is for that request's id |
| Assets.CardForShape | assets.py:120-135 | no card exactly when no game has the request's game channel; otherwise the card's game has it, its description is the context line, and it has the Finish button exactly when a user was given |
| Assets.NoCardWithoutGame | assets.py:124-135 | a request whose game row is gone cannot be shown: building its view raises |
| Assets.CardsOf | assets.py:119-135 | one card attempt per row |
| Assets.CardsOfAt | assets.py:119-135 | the card attempt at position k is the one for row k |
| Assets.Announce | assets.py:137-141 | one message per card |
| Assets.AnnounceShape | assets.py:137-141 | message k shows card k; the first is the initial response, the rest are follow-ups |
| Assets.AnnounceSnoc | assets.py:137-141 | one more card adds an initial response if it is the first, a follow-up otherwise |
| Assets.CardRunStopped | assets.py:119-141 | once a card fails, the rows after it change nothing |
| Assets.CardRunStep | assets.py:119-141 | one more row either raises or adds its card |
| Assets.CardRunComplete | assets.py:119-141 | the loop finishes exactly when every card can be built, and then holds them all in row order |
| Assets.ListRequests | assets.py:106-141 | the list action's messages and whether it raises match the specification of the flow |
| Assets.SendCards | assets.py:119-141 | the loop, with its `first` flag, sends the announcement of the cards built before the first failure, and raises exactly when one fails |
| Assets.Post | assets.py:137-141 | the initial response when `first` is set, a follow-up otherwise |
| Assets.ListSends | assets.py:106-141 | no rows: the single "No requests" message; otherwise it raises exactly when some row's card fails, else one message per row in order, the first initial and the rest follow-ups, each showing its request |
| Assets.SendsFor | assets.py:113-141 | the same, for any list of rows |
| Assets.RunRaises | assets.py:119-135 | the loop raises exactly when some row has no card |
| Assets.RunOrder | assets.py:119-141 | when nothing raises, the cards are for the rows, one each, in row order |
| Assets.Accept | assets.py:159-160 | the clicked request's columns become the old ones with status "Accepted" and `accepted_by` the clicking user, nothing else; no other row or table changes; no table's next id changes |
| Assets.Finish | assets.py:180-181 | the clicked request's columns become the old ones with status "Finished", nothing else, so its acceptor is kept; no other row or table changes; no table's next id changes |
| Assets.AcceptThenFinish | assets.py:159-181 | after Accept then Finish, the request is Finished, accepted by that user, and no longer pending |
| Contributors.OptionalInput | contributors.py:66-67 | an empty link is stored as NULL, any other as its text |
| Contributors.DisplayNameValue | contributors.py:17-21 | the display name captured when the command ran, NULL when absent |
| Contributors.RowsFor | contributors.py:54 | the number of contributors rows with that user name; zero exactly when none has it, so `entry_exists` is false |
| Contributors.SubmitRegistration | contributors.py:53-73 | "already registered" exactly when a row with that user name exists, and then nothing changes; otherwise exactly one row is added with the captured names, the credit name and the links; the user name ends up with one row; other tables untouched |
| Contributors.RegisterTwice | contributors.py:53-68 | submitting twice for a new user registers once, then refuses, leaving exactly one row |
| Chain.IntToStringChars | chain.py:138 | a decimal day number has only digits and a minus sign |
| Chain.HeaderStr | chain.py:123-125 | `get_header_str()`: the fixed header line; `Chain.SeedSchedule` states it heads a fresh schedule |
| Chain.DayTimestamp | chain.py:127-134 | `get_day_timestamp(day)`: the `<t:N:d>` tag for day 1's 10:00 epoch second plus day - 1 days; `Chain.DayLineTimestamp` proves N is read back |
| Chain.DayStr | chain.py:136-138 | `get_day_str(day)`: the head of day `day`'s line; `Chain.DayLineTimestamp` and `Chain.DayLineIndex` prove its timestamp and day number are read back |
| Chain.SplitNoSep | chain.py:104 | splitting text with no separator gives the text itself |
| Chain.SplitAfter | chain.py:104 | splitting after the first separator gives the head, then the split of the rest |
| Chain.SplitHead | chain.py:111 | the first part of a split starts with the separator-free prefix |
| Chain.SecondField | chain.py:104 | the second field of `a:x:b` is `x` |
| Chain.DayLineTimestamp | chain.py:104-105 | the timestamp read back from a day line is the epoch second the line was written with |
| Chain.IndexTextOf | chain.py:111 | the text between the first "#" and the next "*" |
| Chain.DayLineIndex | chain.py:111 | the day number read back from a day line is the one it was written with |
| Chain.ClaimSnoc | chain.py:35-49 | one more line extends the rewrite, the found flag and the refusal by that line alone |
| Chain.ClaimedLinesSnoc | chain.py:35-49 | one more line adds its own rewritten line |
| Chain.HasDaySnoc | chain.py:35-37 | one more line finds the day exactly when it or an earlier one matches |
| Chain.HasReservedSnoc | chain.py:35-47 | one more line is refused exactly when it or an earlier one matches without "Open" |
| Chain.ClaimSpec | chain.py:20-58 | what `claim` does (no schedule message, already reserved, not found, or the rewritten lines); `Chain.ClaimOutcome` states its meaning and `Chain.Claim` is proved against it |
| Chain.ClaimOutcome | chain.py:32-53 | a claim keeps the line count, replaces every matching line by the reservation and keeps every other line; "not found" exactly when no line matches; "already reserved" exactly when a matching line lacks "Open" |
| Chain.Claim | chain.py:20-58 | the loop over the lines gives the specified reply and lines |
| Chain.ClaimSingleLine | chain.py:35-49 | with one matching open line, the claim replaces just that line |
| Chain.NoOpenWithoutO | chain.py:38 | text without an "O" does not contain "Open" |
| Chain.OpenAfterPrefix | chain.py:38 | a prefix without "O" does not change whether "Open" occurs |
| Chain.ReservedLineHasNoOpen | chain.py:38-41 | the reservation line still matches its day but no longer contains "Open" |
| Chain.ClaimTwiceRefused | chain.py:36-47 | claiming a claimed day again is refused as already reserved |
| Chain.ClaimDayOneTakesDayTen | chain.py:36 | a claim of day 1 matches, and takes, an open day 10 line |
| Chain.ScanSnoc | chain.py:100-112 | one more line runs one more turn of the update loop |
| Chain.ScanRaisesOnward | chain.py:100-112 | once a line raises, the whole update raises |
| Chain.Step | chain.py:100-112 | one turn of the update loop as a value: a non-day line is kept, a stale first day line is dropped and flags the added day, a malformed day line raises; `Chain.Turn` is proved against it |
| Chain.ScanLines | chain.py:96-112 | the update loop over the lines; `Chain.ScanLinesMeaning` and `Chain.StaleScan` state what it keeps and records |
| Chain.ExtendSchedule | chain.py:95-116 | the update of a non-empty schedule; `Chain.ExtendKeepsFreshSchedule` and `Chain.ExtendRollsStaleDay` state its result |
| Chain.UpdateScheduleSpec | chain.py:63-119 | what `updateschedule` does: refused without manage_guild, seeded when empty, extended otherwise; `Chain.UpdateSchedule` is proved against it |
| Chain.SeedSchedule | chain.py:90-93 | a fresh schedule is the header followed by days 1 to 8, each ending "Open" |
| Chain.Seed | chain.py:90-93 | the seeding loop builds the fresh schedule |
| Chain.SeededIsSchedule | chain.py:90-93 | lines matching the fresh schedule line by line are the fresh schedule |
| Chain.ScanSchedule | chain.py:96-112 | the update loop over the lines gives the specified scan |
| Chain.Turn | chain.py:101-112 | one turn of the update loop |
| Chain.Extend | chain.py:95-116 | updating a non-empty schedule gives the specified edit |
| Chain.AppendDay | chain.py:113-116 | when the first day was dropped, one "Open" line is appended for the last retained day plus one |
| Chain.UpdateSchedule | chain.py:63-119 | refused without manage_guild before anything is read; an empty channel is seeded; otherwise the schedule is extended |
| Chain.FirstDayIndex | chain.py:100-103 | the position of the first line starting with "*Day" |
| Chain.FirstDayIndexUnique | chain.py:100-103 | that position is determined by the lines |
| Chain.FirstDayIndexSnoc | chain.py:100-103 | one more line moves the first day only when there was none |
| Chain.LastIndexTextSnoc | chain.py:111 | a kept day line sets the last day index, other lines leave it |
| Chain.WithoutSnoc | chain.py:110-112 | dropping one line commutes with appending another after it |
| Chain.ScanLinesMeaning | chain.py:96-112 | the scan keeps all lines, or all but a stale first day line; the last day index is that of the last kept day line |
| Chain.ExtendKeepsFreshSchedule | chain.py:100-116 | when the first day is not stale, the content is unchanged |
| Chain.ExtendRollsStaleDay | chain.py:100-116 | when the first day is stale, that line is dropped and one "Open" line for the last retained day plus one is appended; the line count is unchanged |
| Chain.StaleScan | chain.py:100-112 | a stale first day is dropped and flags the appended day |
| Chain.SeedScheduleReadsBack | chain.py:90-111 | every seeded day line reads back its own timestamp and day number |
| GameChannel.LowerRun | game_channel.py:182 | the longest `[a-z0-9]*` run |
| GameChannel.PascalGroupsAreAlnum | game_channel.py:182 | text accepted by `(?:[A-Z][a-z0-9]*)+` is ASCII letters and digits |
| GameChannel.AlnumArePascalGroups | game_channel.py:182 | ASCII letters and digits starting with a capital are accepted |
| GameChannel.MatchesPascalGroups | game_channel.py:182 | `re.fullmatch(r"(?:[A-Z][a-z0-9]*)+", name)` as a recursive test; `GameChannel.PascalGroupsIff` states exactly which texts it accepts |
| GameChannel.PascalGroupsIff | game_channel.py:182 | the regular expression accepts exactly the alphanumeric texts starting with a capital |
| GameChannel.Replace | game_channel.py:185-186 | each occurrence of the character is replaced, everything else kept |
| GameChannel.AlnumOf | game_channel.py:188 | only ASCII letters and digits remain |
| GameChannel.KeepAlnumSpace | game_channel.py:188 | `re.sub(r"[^a-zA-Z0-9 ]", "", s)`; `GameChannel.CleanKeepsAlnum` and `GameChannel.KeepAlnumSpaceKeepsAll` state what it keeps |
| GameChannel.CleanedName | game_channel.py:185-188 | `_` and `-` turned into spaces, then the cleaning expression; `GameChannel.CleanedAbsorbsSeparator` states the separators act as spaces |
| GameChannel.JoinCapitalized | game_channel.py:190-191 | `"".join(word.capitalize() for word in words)`; `GameChannel.LowerJoinCapitalized` and `GameChannel.JoinCapitalizedHead` state its case and head |
| GameChannel.SanitizeRepoName | game_channel.py:180-192 | a PascalCase name is kept, any other is cleaned, split and capitalised; `GameChannel.SanitizeKeepsLettersAndDigits`, `GameChannel.SanitizeEmptyWithoutAlnum`, `GameChannel.SanitizeIdempotent` and `GameChannel.SanitizeNotIdempotent` state its meaning |
| GameChannel.WordLength | game_channel.py:190 | the length of the leading run of non-whitespace |
| GameChannel.Words | game_channel.py:190 | `split()` gives nonempty words |
| GameChannel.RemoveSpacesAppend | game_channel.py:190-191 | removing whitespace distributes over concatenation |
| GameChannel.RemoveSpacesOfWord | game_channel.py:190-191 | a word has no whitespace to remove |
| GameChannel.ConcatWords | game_channel.py:190-191 | joining the words gives the text without whitespace |
| GameChannel.CleanKeepsAlnum | game_channel.py:188-191 | `re.sub` then join keeps exactly the letters and digits |
| GameChannel.ReplaceKeepsAlnum | game_channel.py:185-188 | turning a symbol into a space does not change the letters and digits |
| GameChannel.LowerAppend | game_channel.py:191 | lowering distributes over concatenation |
| GameChannel.LowerJoinCapitalized | game_channel.py:191 | capitalising then joining differs from plain joining only in case |
| GameChannel.AlnumOfLower | game_channel.py:191 | lowering keeps a non-letter-or-digit one |
| GameChannel.SanitizeKeepsLettersAndDigits | game_channel.py:185-192 | outside the PascalCase shortcut the result is exactly the input's ASCII letters and digits, in order, up to case; nothing else |
| GameChannel.AlnumOfNone | game_channel.py:188 | text without letters or digits keeps nothing |
| GameChannel.SanitizeEmptyWithoutAlnum | game_channel.py:180-192 | an input with no letters or digits yields the empty name |
| GameChannel.JoinCapitalizedHead | game_channel.py:191 | the result starts with the first word's first character upper-cased |
| GameChannel.SanitizeIdempotent | game_channel.py:180-192 | sanitising a result again changes nothing unless it starts with a digit |
| GameChannel.WordLengthOfWord | game_channel.py:190 | a word followed by whitespace or nothing is the whole first word |
| GameChannel.WordsOfWord | game_channel.py:190 | `split()` of a nonempty text without whitespace is that text alone |
| GameChannel.WordsOfTwo | game_channel.py:190 | two such words with one space between split into the two |
| GameChannel.KeepAlnumSpaceKeepsAll | game_channel.py:188 | the cleaning regular expression keeps text of letters, digits and spaces unchanged |
| GameChannel.CleanedNameKeepsAll | game_channel.py:185-188 | text of letters, digits and spaces is already clean |
| GameChannel.DigitLedNotPascal | game_channel.py:182 | a digit-led name is not PascalCase |
| GameChannel.JoinCapitalizedTwo | game_channel.py:191 | joining one or two words capitalises each and concatenates them |
| GameChannel.CapitalizeKeepsAlnum | game_channel.py:191 | `capitalize()` keeps letters and digits letters and digits |
| GameChannel.SanitizeDigitLed | game_channel.py:180-192 | a digit-led alphanumeric name comes back `capitalize()`d |
| GameChannel.SpacedWordsChars | game_channel.py:188 | two alphanumeric words with a space hold only letters, digits and that space |
| GameChannel.SanitizeTwoWords | game_channel.py:180-192 | a digit-led word, a space and another word give the two words capitalised and joined |
| GameChannel.AppendAlnum | game_channel.py:191 | joining alphanumeric texts gives an alphanumeric text |
| GameChannel.CapitalizeLowersInnerCapital | game_channel.py:191 | `capitalize()` changes a text with a capital after its first character |
| GameChannel.SanitizeNotIdempotent | game_channel.py:180-192 | for a digit-led word and a letter-led word joined by a space, the result has an inner capital and a second pass changes it |
| GameChannel.TwoBarBazNotStable | game_channel.py:180-192 | "2bar Baz" sanitises to a name that sanitises again to a different one |

| GameChannel.CleanedAbsorbsSeparator | game_channel.py:185-188 | turning `_` or `-` into spaces first does not change the cleaned text |
| GameChannel.PascalHasNoSeparator | game_channel.py:182-186 | a PascalCase name has no `_` or `-` |
| GameChannel.PascalAfterReplace | game_channel.py:182-186 | a name that is PascalCase after replacing `_` or `-` had none |
| GameChannel.SeparatorActsAsSpace | game_channel.py:182-190 | writing a space instead of `_` or `-` gives the same repository name |
| GameChannel.SeparatorsActAsSpaces | game_channel.py:185-190 | `_` and `-` both act exactly like spaces |
| GameChannel.CreateGameGate | game_channel.py:26-54 | each outcome exactly characterised: wrong forum exactly in a thread outside the forum outside the test environment; locked exactly in an accepted thread that is locked; approval requested exactly in an accepted unlocked thread without manage_guild; no permission exactly outside a thread without manage_guild; creation proceeds exactly when the caller has manage_guild and, in a thread, the thread is unlocked and in the forum (or the test environment); the reasons for stopping |
| GameChannel.FindExistingRepo | game_channel.py:58-63 | the first repository equal to the sanitised name ignoring case, none exactly when no repository matches |
| GameChannel.SetBitBits | game_channel.py:131-132 | OR-ing in bit j sets bit j and keeps every other bit |
| GameChannel.LockThread | game_channel.py:125-133 | the edit renames to "[LOCKED] " + name, archives, locks, and keeps all flag bits plus bit 2 |
| GameChannel.CreateGame | game_channel.py:25-139 | a passed gate with no case-insensitively equal repository always creates (here in a channel, from the thread otherwise); a refused gate or an existing repository records nothing; in a channel it records the game there with no repository; from a thread it records the game in the new channel with the created repository and locks the thread; other tables untouched |
| GameChannel.Cut | game_channel.py:150-152 | `content[:2000]`: a prefix of at most 2000 characters, the text itself when it fits |
| GameChannel.CopiedStops | game_channel.py:142-144 | the copier sends nothing from the bot's own message on |
| GameChannel.CopiedStep | game_channel.py:142-155 | one more message adds its own piece |
| GameChannel.CopyText | game_channel.py:145-148 | the bold author name, the content and one line per attachment URL; `GameChannel.PieceNeverBlank` shows it is never blank |
| GameChannel.Piece | game_channel.py:145-155 | one message's contribution: nothing when blank, else its text cut at 2000; `GameChannel.PieceNeverBlank` shows it is always the cut text |
| GameChannel.CopiedMessages | game_channel.py:141-155 | the texts the copier sends, oldest first, stopping at the bot's own message; `GameChannel.CopiedMessagesAll` states them and `GameChannel.CopyMessages` is proved against it |
| GameChannel.AppendAttachments | game_channel.py:146-148 | each attachment URL is appended on its own line |
| GameChannel.CopyMessages | game_channel.py:141-155 | the loop sends the specified pieces in order |
| GameChannel.CopyOne | game_channel.py:145-155 | one message: its text with attachments, skipped when blank, cut at 2000 |
| GameChannel.StripKeepsNonSpaceHead | game_channel.py:149 | text starting with a non-space is not blank |
| GameChannel.PieceNeverBlank | game_channel.py:145-149 | each message's text starts with "**", so it is always sent |
| GameChannel.PieceIsOneText | game_channel.py:145-155 | every message contributes exactly one text |
| GameChannel.CopiedMessagesCount | game_channel.py:141-155 | one text per message before the bot's first one |
| GameChannel.CopiedMessagesAt | game_channel.py:141-155 | the k-th text sent is the k-th message's text |
| GameChannel.CopiedShift | game_channel.py:142-155 | after the first message's text come the texts of the rest of the history |
| GameChannel.CopiedMessagesAll | game_channel.py:141-155 | every message before the bot's first one is sent, in order, cut to 2000 characters |
| Game.RepoUrl | game.py:40 | the link is GITHUB_URL_PREFIX followed by the repository name; raises when the name is not text |
| Game.OwnerField | game.py:41 | defined exactly when the owner is text containing "("; the result has no surrounding whitespace |
| Game.GameEmbedOf | game.py:33-44 | the embed exists exactly when the link and the owner field do, and carries them |
| Game.Info | game.py:14-21 | "No game info found" exactly when no game row has the channel |
| Game.OwnerFieldRoundTrip | game.py:41 | an owner "name (display)" yields the display name |
| Game.InfoRaisesForPlainOwner | game.py:41 | an owner without "(" makes the embed raise |
| Game.DescriptionIsDefault | game.py:37 | a games row has no description key, so the default text is shown |
| Reactions.MatchingWords | potato.py:24-26 | a word is matched exactly when it is a list word that occurs as a substring; never more entries than the list |
| Reactions.MatchingPositions | potato.py:24-25 | the list positions whose word occurs, ascending and each once; a position is listed exactly when its word occurs |
| Reactions.MatchingWordsFromLength | potato.py:24-26 | one reaction per matching list position |
| Reactions.MatchingWordsFromAt | potato.py:24-26 | the j-th reaction is for the word at the j-th matching position |
| Reactions.MatchingWordsOnePerMatch | potato.py:24-26 | the reactions are exactly the matching list entries in list order, one per entry, none skipped or repeated |
| Reactions.PotatoReactions | potato.py:22-26 | `Potato.on_message`: the number of 🥔 `add_reaction` calls, one per matching POTATOES entry (`Reactions.MatchingWordsOnePerMatch`) |
| Reactions.HundredReactions | onehundred.py:12-15 | `OneHundred.on_message`: the number of 💯 `add_reaction` calls, one per matching HUNDRED entry (`Reactions.MatchingWordsOnePerMatch`) |

| Reactions.ContainsTransitive | potato.py:25 | a substring of a substring of the message is a substring of it |
| Reactions.PotatoWordCore | potato.py:6-17 | every potato word contains "bake", "potat" or "tato" |
| Reactions.PotatoTriggers | potato.py:24-26 | the message gets a potato reaction exactly when it contains "bake", "potat" or "tato"; none otherwise |
| Reactions.CapitalPotato | potato.py:25 | matching is case-sensitive: "Potato" lacks "potat" yet is matched through "tato" |
| Reactions.AbsentLonger | onehundred.py:14 | a word longer than the message does not occur in it |
| Reactions.AbsentHead | onehundred.py:14 | a word whose first character is not in the message does not occur |
| Reactions.AbsentLast | onehundred.py:14 | a word whose last character is not in the message does not occur |
| Reactions.AbsentSameLength | onehundred.py:14 | a different word of the message's length does not occur |
| Reactions.PotatoParts | potato.py:9-14 | "potato" contains "potat" and "tato" |
| Reactions.PotatoMatchesSeveralWords | potato.py:6-26 | a message containing "potato" matches "potat", "potato" and "tato" |
| Reactions.PotatoListHas | potato.py:6-17 | "potat", "potato" and "tato" are potato words |
| Reactions.HundredIsCaseSensitive | onehundred.py:6-15 | "100Devs" gets no 💯 |
| Reactions.HundredAloneNoReaction | onehundred.py:6-15 | "100" alone gets no 💯 |
| Reactions.HundredTwice | onehundred.py:6-15 | "100 100" matches "100 " and " 100", in that order |
| DiscordBot.GuildSlashCommand | discord_bot.py:28-30 | `guild_ids` is always GUILD_IDS, overriding the caller; every other option is passed on |
| DiscordBot.TruncateDescription | discord_bot.py:80-82 | at most 4096 characters are left unchanged; longer text becomes its first 4093 characters plus "...", exactly 4096 |
| DiscordBot.TruncateIdempotent | discord_bot.py:80-82 | truncating twice is truncating once |
| DiscordBot.LintOrder | discord_bot.py:68-90 | a missing file gives the error reply and no embed; otherwise the embed's description fits and equals the file exactly when it is at most 4096 characters |
| PyStrings.ContainsIff | potato.py:25 | `w in s` exactly when `w` occurs at some position |
| PyStrings.ContainsInSlice | potato.py:25 | what occurs in a slice occurs in the whole |
| PyStrings.Split | chain.py:104 | `split` always gives at least one part |
| PyStrings.SplitPartsFree | chain.py:104 | no part holds the separator |
| PyStrings.SplitJoin | chain.py:104 | joining the parts with the separator gives the text back |
| PyStrings.SplitCount | chain.py:104 | more than one part exactly when the separator occurs |
| PyStrings.AfterFirst | game.py:41 | `split(sep, 1)[1]`: defined exactly when the separator occurs |
| PyStrings.AfterFirstAppend | game.py:41 | the part after the first separator is everything after it |
| PyStrings.TrimStart | game.py:41 | `lstrip()`: a suffix, with only whitespace removed and no leading whitespace left |
| PyStrings.TrimEnd | game.py:41 | `rstrip()`: a prefix, with only whitespace removed and no trailing whitespace left |
| PyStrings.Strip | game.py:41 | `strip()` leaves no whitespace at either end and is never longer than its input |
| PyStrings.StripIsSlice | game.py:41 | `strip()` keeps one contiguous slice of the text and removes only whitespace before and after it |
| PyStrings.StripOfStripped | game.py:41 | stripping text without surrounding whitespace changes nothing |
| PyStrings.TrimEndChar | game.py:41 | `rstrip(")")`: a prefix, only ")" removed, none left at the end |
| PyStrings.NatToString | chain.py:138 | `str(n)` is a nonempty string of digits |
| PyStrings.IntToString | chain.py:138 | `str(n)` is nonempty |
| PyStrings.ParseInt | chain.py:105 | `int()` succeeds only on text that is not blank |
| PyStrings.DigitsValueOfNat | chain.py:105 | the digits of `str(n)` have value n |
| PyStrings.ParseNatString | chain.py:105 | `int(str(n)) == n` for n ≥ 0 |
| PyStrings.ParseNegString | chain.py:105 | `int("-" + str(m)) == -m` for m > 0 |
| PyStrings.ParseIntToString | chain.py:115 | `int(str(n)) == n` for every integer |
| PyStrings.ToUpper | game_channel.py:191 | lower-case letters become upper-case, other characters are kept |
| PyStrings.ToLower | game_channel.py:61 | upper-case letters become lower-case, other characters are kept |
| PyStrings.Lower | game_channel.py:61 | `lower()` lowers each character |
| PyStrings.Capitalize | game_channel.py:191 | `capitalize()`: the first character upper-cased, the rest lower-cased |

## Left out

- Discord I/O is not modelled: sending, editing, deferring, modals, views, buttons, embeds and channel or thread creation. Replies are return values, and ids Discord creates are parameters.
- Message texts are not modelled. Replies are datatype constructors named after the text they send.
- SQLite itself is not modelled: connections, SQL text, type affinity, `_log` logging, `print`.
- `setup_db` is modelled only as the constructor's empty, well-formed tables.
- Tables the core never touches are not modelled: `tasks`, `events`, `game_contributors` and `contributor_requests`, with `add_task` and `remove_contributor_requests_for_game`.
- The GitHub client and its auth are not modelled: github_wrapper.py, the JWT and token exchange, issue creation and repository creation. Existing repository names and the created repository's name are parameters.
- Wall-clock time and timezones are parameters: `now`, and the epoch second of day 1 at 10:00. Daylight-saving shifts inside the schedule are not modelled.
- The utils.py in this repository defines only `Utils.is_test_environment`. As written, chain.py:79 (`Utils.channel_is_empty`) and game_channel.py:114 (`Utils.send_guide_link`) would raise AttributeError. The model assumes working helpers: channel emptiness is a parameter and sending the guide is I/O. `Game.get_channel_id` is likewise absent from game.py; the Accept/Finish channel notice that uses it is I/O.
- Concurrency is not modelled: simultaneous claims or double accepts. The code has no concurrency control.
- `int()` is modelled on ASCII digits with an optional sign and surrounding whitespace. Underscores and non-ASCII digits are not.
- `lower`, `capitalize` and `split` are modelled on ASCII letters. Python's Unicode case mappings are not.
- The request branch of `AssetTypeSelect.callback` is not modelled, because it only opens the modal.
- Discord enforces the modal's required and optional input flags before the handler runs. Credit name and links are plain parameters.
- The `hello` command is not modelled.
- Files outside the core are not modelled: tasks.py, report.py, sfx_request.py, onboarding.py, google_drive.py, help.py, remake.py and utils.py.
- Reactions.PotatoMatchesSeveralWords: states that the three words are matched, not that there are at least three reactions.
- Assets.CardFor: its own contract states only the card's request id. The rest of what it builds is stated by Assets.CardForShape.
