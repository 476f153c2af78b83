# Board-game club: session recording, stats, badges, attendance

A model of the core of a board-game club's web application: a Node/Express
backend over PostgreSQL and Redis, and a React frontend.

- **Session recorder** (`createSession`). Inside one transaction it inserts a
  session row, then one participation row per participant. For each participant
  it creates or updates the `(user, game)` row of `user_stats`. After the commit
  it runs the badge rules for each participant and invalidates the participants'
  `stats:user:<id>` cache keys and every `rankings:*` key.
- **Stats aggregate** (`updateUserStats` and the same inline code in the
  recorder). The counters, the average score and the best rank of a
  `user_stats` row.
- **Badge rules** (`checkAndAwardBadges`). Three threshold rules, each guarded
  by a "not already held" check.
- **Stats reads**: `getUserStats` and `getRankings`, which read through the
  cache, and the head-to-head tally.
- **Redis helpers**: get, set with TTL, delete, and delete by KEYS glob. Store
  errors come back as `null` or `false`.
- **Attendance**: a once-a-day check-in worth 10 points, today's status, the
  newest-first history, and the year/month filter over it.
- **SQL text builders**: the game listing with optional filters, and the
  `UPDATE ... SET` builders for games and users.
- **Frontend logic**: the session form (field edits, the participant list and
  submit validation), the participant picker (search filter and score/rank
  normalisation) and the navbar's active-link test.

How the model is laid out:

- **Database.** The tables are fields of one class, `Schema.Database`. Every
  stateful operation changes only the tables named in its `modifies` clause.
- **Failing queries.** A parameter `fault: Option<nat>` means that the k-th
  query (counting from 0) of the call throws.
- **Cache.** `Redis.Cache<V>` is a class over a map. A parameter `fails`
  means the client throws on that call.
- **Dates, `parseInt` and the `::int` cast.** The dates are parameters.
  `parseInt` and the cast are parameters of type `string -> Option<int>`.

One behaviour of the recorder is worth knowing. When a badge query throws after
the COMMIT, the client gets a 500 although the session is recorded. Because the
invalidation comes after the badges, every `stats:user:<id>` and `rankings:*`
entry then stays stale until its TTL runs out. `SessionController.CreateSession`
states this: after a failure past the COMMIT the tables hold the new rows and
the cache is unchanged.

## Model

| member | source | states |
|---|---|---|
| Js.OrZero | backend/src/services/statsService.js:23-25 | `x \|\| 0`: the value when it is truthy, 0 when it is null or 0 |
| Schema.SumForUser | backend/src/models/badgeModel.js:35-42 | a column's SQL `SUM` over the user's rows is NULL exactly when the user has no row |
| Redis.Cache.Get | backend/src/config/redis.js:25-33 | a hit exactly when the client does not throw and the key is stored, and then the stored value; `null` otherwise |
| Redis.Cache.Set | backend/src/config/redis.js:35-43 | true, and the key maps to the value with its TTL; false with the store unchanged when the client throws. A `Get` after a successful `Set` returns the value |
| Redis.Cache.Del | backend/src/config/redis.js:45-53 | removes exactly the key, or on error changes nothing and returns false |
| Redis.Cache.DelPattern | backend/src/config/redis.js:55-66 | removes exactly the keys the pattern matches (none when nothing matches), or on error changes nothing and returns false |
| Redis.MatchingKeys | backend/src/config/redis.js:57 | `KEYS pattern`: the stored keys the pattern matches, with `*` and `?` as wildcards |
| Redis.LiteralMatch | backend/src/config/redis.js:57 | a pattern without glob characters matches exactly the key equal to it |
| Redis.PrefixMatch | backend/src/config/redis.js:57 | `prefix*` with a literal prefix matches exactly the keys that start with the prefix |
| Redis.StarMatchesAll | backend/src/config/redis.js:57 | `*` matches every key |
| StatsService.StepValid | backend/src/services/statsService.js:12-44 | a new row, or an update of a valid row, is valid (`wins + losses = total_plays`, `avg_score = total_score / total_plays` as reals, `mvp_count` at most the plays); an update adds one play, exactly one win or loss, and `score \|\| 0` to the total score; the key stays |
| StatsService.RowAverage | backend/src/services/statsService.js:36-37 | a valid row's average is its total score over its plays |
| StatsService.MinRank | backend/src/services/statsService.js:41-44 | the reference minimum of two optional ranks: absent only when both are absent, and at most each present one |
| StatsService.BestRankIsMinimum | backend/src/services/statsService.js:41-44 | the best-rank update is the minimum of the old best and the truthy new rank; a null or 0 rank never overwrites it |
| StatsService.Find | backend/src/services/statsService.js:7-10 | `SELECT ... WHERE user_id = $1 AND game_id = $2`: the first matching row (NULL never equals), or none when no row matches |
| StatsService.FindIsFirst | backend/src/services/statsService.js:7-12 | any index that is the first match, or the absence of a match, is what `Find` returns |
| StatsService.Upsert | backend/src/services/statsService.js:12-69 | the insert-or-update keeps every row's play count non-negative |
| StatsService.UpsertLookup | backend/src/services/statsService.js:12-69 | after the call, the `(user, game)` row is the new row (none before) or the updated row (one before) |
| StatsService.UpsertOtherKey | backend/src/services/statsService.js:30-69 | the rows of every other `(user, game)` key are unchanged |
| StatsService.UpsertKeepsTable | backend/src/services/statsService.js:12-69 | the table stays valid with at most one row per key; it grows by one row exactly when no row matched; every row of another key keeps its position and value |
| StatsService.UpdateUserStats | backend/src/services/statsService.js:3-71 | succeeds exactly when neither the SELECT nor the INSERT/UPDATE throws; the table is then the upsert, and otherwise unchanged |
| StatsService.Extend | backend/src/services/statsService.js:12-69 | folding plays into an optional row yields a row exactly when there was one or some play, with plays counted exactly |
| StatsService.Replay | backend/src/services/statsService.js:12-69 | the row built from nothing by a sequence of plays exists exactly when there is a play, and counts every play |
| StatsService.ReplayTotals | backend/src/services/statsService.js:12-44 | over any sequence of plays the row is valid, and wins, losses, total score, total playtime and MVP count are the sums over the plays |
| StatsService.ReplayAverage | backend/src/services/statsService.js:24-37 | the average is the sum of `score \|\| 0` over the number of plays |
| StatsService.ReplayBestRank | backend/src/services/statsService.js:26-44 | the best rank is the minimum of the truthy ranks supplied, and is null when none was supplied |
| StatsService.EditedDurationConcatenates | backend/src/services/statsService.js:38 | as written, 30 minutes plus a posted duration `"45"` is stored as `"3045"` |
| StatsService.PlaytimeCorrectedAdds | backend/src/services/statsService.js:38 | the corrected update adds a duration posted as a number or as its decimal text |
| BadgeModel.Totals | backend/src/models/badgeModel.js:35-46 | missing sums read as 0: a user without stats rows has `(0, 0)` |
| BadgeModel.Awards | backend/src/models/badgeModel.js:57-93 | at most one badge per rule, all of the user and of type `achievement` |
| BadgeModel.AwardsClosedForm | backend/src/models/badgeModel.js:57-93 | in the fixed order: first game iff `totalPlays >= 1`, first win iff `totalWins >= 1`, 10 wins iff `totalWins >= 10`, each only if its name is not held yet |
| BadgeModel.HasBadgeAppend | backend/src/models/badgeModel.js:49-55 | a badge is held after new inserts exactly when it was held before or was inserted |
| BadgeModel.AwardsIdempotent | backend/src/models/badgeModel.js:49-91 | a second evaluation right after the first awards nothing |
| BadgeModel.AwardsKeepUnique | backend/src/models/badgeModel.js:49-55 | with sequential calls each `(user, badge_name)` is held at most once |
| BadgeModel.AwardIfEligible | backend/src/models/badgeModel.js:49-67 | one guarded rule: the `hasBadge` query and the insert; on success it appends the rule's award, and on a failure it changes nothing |
| BadgeModel.ApplyRules | backend/src/models/badgeModel.js:57-93 | the three rules in order; each success appends its award; a failure stops the sequence with the earlier inserts kept |
| BadgeModel.CheckAndAwardBadges | backend/src/models/badgeModel.js:31-94 | on success it returns and appends exactly the awards for the user's summed plays and wins; on a failure only a prefix of them was inserted |
| SessionController.ParticipationRowsContent | backend/src/controllers/sessionController.js:33-44 | one participation per participant, in input order, with consecutive ids and the posted fields |
| SessionController.ApplyAllValid | backend/src/controllers/sessionController.js:35-109 | recording every participant keeps user_stats valid |
| SessionController.ApplyAllLookup | backend/src/controllers/sessionController.js:35-109 | each `(user, game)` row after the loop is its earlier row extended by that user's plays in this session, in order |
| SessionController.FirstSessionReplays | backend/src/controllers/sessionController.js:52-68 | a user without a row gets the row built from their plays; their first play gets `total_plays=1`, the win/loss from `isWinner`, and `score \|\| 0`, `duration \|\| 0`, `rank \|\| null`, `mvpBadge ? 1 : 0` |
| SessionController.UserIds | backend/src/controllers/sessionController.js:115-121 | the participants' ids, in order |
| SessionController.AwardSequencePrefix | backend/src/controllers/sessionController.js:114-118 | the badges awarded for the first k participants are a prefix of those for all participants |
| SessionController.AwardSequenceUnique | backend/src/controllers/sessionController.js:114-118 | awarding in sequence keeps each `(user, badge_name)` held at most once |
| SessionController.StatsKeyLiteral | backend/src/controllers/sessionController.js:122 | the key `stats:user:<id>` has no glob character, so it deletes only itself |
| SessionController.PurgedKeys | backend/src/controllers/sessionController.js:121-124 | the keys the invalidation removes: each participant's stats key and every `rankings:` key, except for the calls whose client throws |
| SessionController.DeleteStatsStep | backend/src/controllers/sessionController.js:121-123 | each `stats:user:<id>` call removes that key, or nothing when the client throws |
| SessionController.DeleteRankingsStep | backend/src/controllers/sessionController.js:124 | `rankings:*` removes every key under `rankings:`, or nothing when the client throws |
| SessionController.RecordParticipant | backend/src/controllers/sessionController.js:37-108 | the participation insert and the stats upsert of one participant; they succeed together when none of the three queries throws |
| SessionController.RecordStep | backend/src/controllers/sessionController.js:35-109 | one more participant adds one participation and one stats upsert |
| SessionController.RecordNext | backend/src/controllers/sessionController.js:35-109 | one iteration of the loop, stated against the rows and stats up to that participant |
| SessionController.RecordParticipants | backend/src/controllers/sessionController.js:35-109 | the whole loop succeeds exactly when its first `3n` queries do not throw, and then yields the participations and stats above |
| SessionController.RecordTransaction | backend/src/controllers/sessionController.js:11-135 | BEGIN to COMMIT: on commit, one session row, the participations and the updated stats; a failure anywhere before it leaves sessions, participations and user_stats as they were |
| SessionController.AwardAll | backend/src/controllers/sessionController.js:114-118 | badges for each participant in order; when nothing throws it returns them all; a failure keeps the prefix already inserted |
| SessionController.InvalidateCaches | backend/src/controllers/sessionController.js:121-124 | the store loses exactly the purged keys |
| SessionController.AfterCommit | backend/src/controllers/sessionController.js:113-124 | the badges, then the invalidation; a badge failure skips the invalidation; at most one badge per name is kept |
| SessionController.CreateSession | backend/src/controllers/sessionController.js:7-139 | 201 with the session, the participations in input order and all new badges; a failure before COMMIT leaves every table unchanged (500); a failure after COMMIT keeps the committed rows and a prefix of the badges and leaves the cache alone (500). user_stats stays valid and badges stay unique |
| StatsController.UserStatsKeyInvalidated | backend/src/controllers/statsController.js:7 | the read key for an id's decimal text is the key the recorder deletes |
| StatsController.GameRowsOf | backend/src/controllers/statsController.js:29-36 | the per-game rows are exactly the user's rows that join a game, as a set |
| StatsController.OverallBalanced | backend/src/controllers/statsController.js:16-26 | the overall sums are all NULL or all present; when present, wins and losses add up to the plays, there is at least one play, and MVPs are at most the plays |
| StatsController.GetUserStats | backend/src/controllers/statsController.js:4-51 | a cache hit is returned without a query; on a miss the computed document is returned and stored for 600 seconds unless the set fails; a failing query is a 500 with the cache unchanged |
| StatsController.OrderBy | backend/src/controllers/statsController.js:64-68 | `score`, `playtime` and `mvp` choose their column; every other type falls back to `total_wins` |
| StatsController.RankingsKeyPurged | backend/src/controllers/statsController.js:55-56 | every rankings key starts with `rankings:` and matches `rankings:*`; the defaults give `rankings:wins:10` |
| StatsController.GetRankings | backend/src/controllers/statsController.js:53-94 | a cache hit is returned as is; on a miss the rows are returned and stored for 3600 seconds; a failing query is a 500 |
| StatsController.OutcomeOf | backend/src/controllers/statsController.js:118-120 | the lower rank wins and equal ranks draw, with a null rank read as 0 |
| StatsController.SwapAll | backend/src/controllers/statsController.js:101-111 | the matches seen from the other user, one per match and in order |
| StatsController.CountsPartition | backend/src/controllers/statsController.js:113-129 | `wins1 + wins2 + draws = totalMatches` |
| StatsController.CountsSwap | backend/src/controllers/statsController.js:117-121 | swapping the users swaps `wins1` and `wins2` and keeps `draws` |
| StatsController.HeadToHead | backend/src/controllers/statsController.js:113-135 | the loop's tallies are the counts of each outcome, and the matches are returned unchanged; a failure is a 500 |
| AttendanceModel.InsertKeepsUnique | backend/src/models/attendanceModel.js:7-40 | a row for a `(user, date)` that has none keeps the pairs unique |
| AttendanceModel.CreateAttendance | backend/src/models/attendanceModel.js:3-49 | `ALREADY_ATTENDED` exactly when today's row exists, with nothing inserted or credited; otherwise one row with 10 points and 0 bonus, and the user's points go up by the row's points; the yesterday query has no effect; a failing UPDATE leaves the row inserted and nothing credited; uniqueness per `(user, date)` is kept |
| AttendanceModel.CheckTodayAttendance | backend/src/models/attendanceModel.js:62-69 | a row exactly when the user attended that day, and then one of the user's rows for the day |
| AttendanceModel.TodayIsTheRow | backend/src/models/attendanceModel.js:62-69 | with one row per `(user, date)`, the row returned is the one the table holds |
| AttendanceModel.RowsOf | backend/src/models/attendanceModel.js:53-54 | `WHERE user_id = $1`: only the user's rows, taken from the table |
| AttendanceModel.RowsOfComplete | backend/src/models/attendanceModel.js:53-54 | `WHERE user_id = $1` drops no row of the user: every one in the table is kept |
| AttendanceModel.InsertDesc | backend/src/models/attendanceModel.js:55 | insertion keeps every row and adds one |
| AttendanceModel.SortDesc | backend/src/models/attendanceModel.js:55 | `ORDER BY attendance_date DESC` is a permutation |
| AttendanceModel.InsertDescSorted | backend/src/models/attendanceModel.js:55 | insertion into a newest-first list keeps it newest first |
| AttendanceModel.SortDescSorted | backend/src/models/attendanceModel.js:55 | the sorted history is newest first |
| AttendanceModel.PrefixSorted | backend/src/models/attendanceModel.js:55-56 | keeping the first rows of a newest-first list leaves it newest first |
| AttendanceModel.HistoryIsPrefix | backend/src/models/attendanceModel.js:51-60 | the history is the user's rows sorted newest first and cut at `limit` |
| AttendanceModel.HistoryRows | backend/src/models/attendanceModel.js:53-54 | every history row belongs to the user and comes from the table |
| AttendanceModel.HistoryNewest | backend/src/models/attendanceModel.js:55-56 | the history is newest first and holds the user's newest rows: no row left out is newer than one returned |
| AttendanceModel.SortedPrefixNewest | backend/src/models/attendanceModel.js:55-56 | the first rows of a newest-first list are no older than any row after them |
| AttendanceModel.HistoryProperties | backend/src/models/attendanceModel.js:51-60 | exactly `limit` rows, or all the user's rows when there are fewer; newest first; rows of the user, from the table; every row of the user left out is no newer than any row returned, so the `limit` newest come back |
| AttendanceModel.HistoryCoversTable | backend/src/models/attendanceModel.js:51-60 | against the table: each row of the user comes back when the user has at most `limit` rows, and a row of the user in the table that does not come back is no newer than any row returned |
| AttendanceController.CheckAttendance | backend/src/controllers/attendanceController.js:3-22 | 201 exactly on success, with `pointsEarned` equal to the row's points; 400 "Already attended today" exactly for `ALREADY_ATTENDED`; 500 for any other error |
| AttendanceController.GetTodayStatus | backend/src/controllers/attendanceController.js:35-47 | `attended` is true exactly when today's row exists, and then the row is returned; a failure is a 500 |
| AttendanceController.FilterMonth | backend/src/controllers/attendanceController.js:58-62 | every kept row is from the history and has the parsed year and month |
| AttendanceController.FilterMonthAppend | backend/src/controllers/attendanceController.js:58-62 | filtering commutes with concatenation, so kept rows keep their relative order |
| AttendanceController.FilterMonthComplete | backend/src/controllers/attendanceController.js:58-62 | every history row of the month is kept |
| AttendanceController.FilterMonthSorted | backend/src/controllers/attendanceController.js:58-62 | a newest-first history stays newest first |
| AttendanceController.FilterMonthLength | backend/src/controllers/attendanceController.js:58-62 | the filter returns no more rows than the history has |
| AttendanceController.GetUserHistory | backend/src/controllers/attendanceController.js:49-72 | with a year and a month, only that month's rows; otherwise the history unchanged; a failure is a 500 |
| AttendanceController.UserHistoryFromTable | backend/src/controllers/attendanceController.js:55-62 | the filtered reply of the stored history has at most 30 rows, all the user's, newest first, and every history row of the month |
| SqlText.SnakeCase | backend/src/models/gameModel.js:63 | every capital becomes `_` and its lowercase letter: no capital left, and one character more per capital |
| SqlText.SnakeCaseKeepsLowercase | backend/src/models/gameModel.js:63 | a key without capitals is its own column |
| SqlText.SnakeCaseIdempotent | backend/src/models/userModel.js:47 | converting a column again changes nothing |
| SqlText.CamelCaseOfSnakeCase | backend/src/models/userModel.js:47 | for keys without underscores, the conversion has an inverse |
| SqlText.SnakeCaseInjective | backend/src/models/userModel.js:47 | distinct keys without underscores get distinct columns |
| SqlText.PlaceholderInjective | backend/src/models/gameModel.js:64 | distinct positions get distinct `$n` placeholders |
| SqlText.Defined | backend/src/models/gameModel.js:61-62 | exactly the pairs whose value is not `undefined`; falsy values stay |
| SqlText.DefinedAppend | backend/src/models/gameModel.js:61-62 | keeping the defined pairs commutes with concatenation, so they stay in key order |
| SqlText.DefinedEmpty | backend/src/models/gameModel.js:62-70 | no assignment is left exactly when every value is `undefined` |
| SqlText.SetClauses | backend/src/models/gameModel.js:57-68 | one `col = $i` per defined key, in key order, numbered from 1, the values in the same order, and `paramCount` one past the last |
| SqlText.BuildUpdate | backend/src/models/gameModel.js:56-79 | no query exactly when no key is defined; otherwise `n` assignments, the id as `$(n+1)`, and `n + 1` values ending in the id |
| SqlText.AssignmentsWellFormed | backend/src/models/gameModel.js:63-64 | the i-th assignment binds `$(i+1)` to a column without capitals, from a defined pair |
| GameModel.AppendFilter | backend/src/models/gameModel.js:31-39 | a pushed condition takes the next placeholder, `$(values.length + 1)` |
| GameModel.ConditionsWrittenOut | backend/src/models/gameModel.js:31-39 | `genre = $1` when the genre is truthy, then `name ILIKE $1` or `$2` when the search is truthy |
| GameModel.ValuesWrittenOut | backend/src/models/gameModel.js:31-39 | the genre, then `%search%`, each only when truthy |
| GameModel.PushConditions | backend/src/models/gameModel.js:31-39 | the conditions and values pushed are the numbered filter conditions and their values |
| GameModel.GetAllGames | backend/src/models/gameModel.js:26-49 | the SQL is the listing of those conditions, and the values bind `$1..$k` in order |
| GameModel.ListSqlShape | backend/src/models/gameModel.js:27-45 | the SQL starts with `SELECT * FROM games`, ends with `ORDER BY name ASC`, and has no WHERE exactly when there is no condition |
| GameModel.FilterValues | backend/src/models/gameModel.js:31-39 | no values exactly when neither filter is truthy; at most two; the genre first and `%search%` last |
| GameModel.UnfilteredListing | backend/src/models/gameModel.js:41-45 | without a truthy filter the SQL is the plain ordered listing |
| GameModel.UpdateGame | backend/src/models/gameModel.js:56-79 | the `games` update: skipped keys, no query when empty, `$1..$n` then the id as `$(n+1)` |
| UserModel.UpdateUser | backend/src/models/userModel.js:39-62 | the `users` update: skipped keys, no query when empty, `$1..$n` in key order then the id as `$(n+1)` |
| UserModel.FalsyValuesAssigned | backend/src/models/userModel.js:45 | a defined falsy value (`0`, `''`, `null`) is still assigned |
| SessionForm.HandleChange | frontend/src/features/session/SessionForm.jsx:32-38 | only the named field changes, to `checked` for a checkbox and `value` otherwise |
| SessionForm.AddParticipant | frontend/src/features/session/SessionForm.jsx:40-42 | appends at the end, with the earlier entries unchanged |
| SessionForm.RemoveParticipant | frontend/src/features/session/SessionForm.jsx:44-46 | no remaining entry has the user id, and every remaining entry was in the list |
| SessionForm.RemoveKeepsOthers | frontend/src/features/session/SessionForm.jsx:44-46 | every entry of another user stays |
| SessionForm.RemoveAppend | frontend/src/features/session/SessionForm.jsx:44-46 | removal commutes with concatenation, so the other entries keep their order |
| SessionForm.RemoveAfterAdd | frontend/src/features/session/SessionForm.jsx:40-46 | removing the user just added undoes the add |
| SessionForm.RemoveIdempotent | frontend/src/features/session/SessionForm.jsx:44-46 | removing twice is removing once |
| SessionForm.SessionFormState.constructor | frontend/src/features/session/SessionForm.jsx:10-17 | the initial form (`gameId` empty, duration 30, not a team game), no participants, not loading |
| SessionForm.SessionFormState.Change | frontend/src/features/session/SessionForm.jsx:32-38 | the form becomes `HandleChange` of the old form |
| SessionForm.SessionFormState.Add | frontend/src/features/session/SessionForm.jsx:40-42 | the list becomes the append |
| SessionForm.SessionFormState.Remove | frontend/src/features/session/SessionForm.jsx:44-46 | the list becomes the removal |
| SessionForm.SessionFormState.HandleSubmit | frontend/src/features/session/SessionForm.jsx:48-73 | no game: an error toast and no post; no participants: an error toast and no post; otherwise one post of the fields plus the participants, then a success toast and `/games`, or a failure toast; loading ends false |
| ParticipantInput.ExcludeAdded | frontend/src/features/session/ParticipantInput.jsx:31 | results never hold an already added user, and come from the search |
| ParticipantInput.ExcludeAddedComplete | frontend/src/features/session/ParticipantInput.jsx:31 | every user not yet added is offered |
| ParticipantInput.ExcludeAddedAppend | frontend/src/features/session/ParticipantInput.jsx:31 | the filter keeps the search's order |
| ParticipantInput.ToResult | frontend/src/features/session/ParticipantInput.jsx:51-52 | the normalised score and rank reach the backend's `\|\| 0` and `\|\| null` unchanged |
| ParticipantInput.ParticipantInputState.constructor | frontend/src/features/session/ParticipantInput.jsx:6-13 | empty query and results, nothing selected, fields blank |
| ParticipantInput.ParticipantInputState.SearchTick | frontend/src/features/session/ParticipantInput.jsx:16-36 | a query shorter than 2 clears the results; otherwise the fetched users minus those added; a failed fetch keeps the results |
| ParticipantInput.ParticipantInputState.SelectUser | frontend/src/features/session/ParticipantInput.jsx:38-42 | the user is selected; the query and the results are cleared |
| ParticipantInput.ParticipantInputState.HandleAdd | frontend/src/features/session/ParticipantInput.jsx:44-65 | nothing without a selection; otherwise the participant with `parseInt(score) \|\| 0` and `parseInt(rank) \|\| null`, then selection, score, rank, team, winner flag and badge are reset |
| Navbar.IsActive | frontend/src/shared/ui/Navbar.jsx:16-19 | `/` is active exactly on `/`; any other path exactly on pathnames that start with it |
| Navbar.ActiveOnItself | frontend/src/shared/ui/Navbar.jsx:17-18 | every path is active on itself |
| Navbar.RootOnlyOnRoot | frontend/src/shared/ui/Navbar.jsx:17 | `/` is not active elsewhere, although every absolute pathname starts with `/` |
| Navbar.NoSegmentCheck | frontend/src/shared/ui/Navbar.jsx:18 | raw prefix matching: `/games` is active on `/gamesX` |
| Navbar.ActiveOnExtension | frontend/src/shared/ui/Navbar.jsx:18 | a non-root path stays active on any extension of the pathname |

## Left out

- SQL semantics beyond the queries' effect on the tables.
  - The JOINs and aggregates are sums and filters over the in-memory tables.
  - StatsController.GameRowsOf drops the per-game `ORDER BY total_plays DESC`: it keeps the table order and states set membership only.
  - The rankings query and the head-to-head query are parameters or given sequences.
  - The `playtime` ordering names a column absent from the SELECT list; only the ORDER BY text is modelled.
- `NOW()`, `last_played_at`, `earned_at` and the dates from `new Date()`.
  - The calendar days are parameters.
  - JS `Date` parsing in the year/month filter is not modelled.
  - Dates are `(year, month, day)` triples.
- Floating point. `avg_score` is a Dafny `real`, so the division is exact.
- Concurrency and the absence of row locks. Two recorders running at once are not modelled, and no lost-update claim is made.
- Redis.Match: the KEYS glob covers `*` and `?` only. Character classes `[...]` and `\` escapes are matched as ordinary characters. The two patterns the code builds, `stats:user:<id>` and `rankings:*`, use neither.
- The Redis connection setup, key expiry over time and JSON encoding. A stored value reads back as itself, and the TTL is only recorded.
- `parseInt` and the `::int` cast of the URL id. Both are abstract `string -> Option<int>` parameters.
- StatsController.UserStatsKeyInvalidated: the read key uses the URL text as given. An id written non-canonically (`007`) is a key the recorder never deletes; only the TTL bounds its staleness.
- StatsService.UpdateUserStats: treats the posted duration as a number (`Option<int>`) and adds it. After the form's duration field is edited the posted value is text, and the source's JS `+` then concatenates (see Findings). That case is modelled only by StatsService.PlaytimeAsWritten and StatsService.EditedDurationConcatenates.
- SessionController.CreateSession: reads the duration as a number, as StatsService.UpdateUserStats does, for the update at backend/src/controllers/sessionController.js:76. For a duration posted as text its stats contract is the corrected behaviour, not the concatenation the source performs.
- StatsService.Upsert: requires non-negative play counts. With `total_plays = -1` the average would divide by zero (`Infinity` in JS), which `real` cannot represent. Every row the code writes has at least one play.
- The streak bonus. It is always 0 in the source, and the yesterday query is issued but its rows are never read.
- Object key order: `Object.keys` order is the order of the given pair sequence.
- The remaining functions of the source files. Game create, get-by-id and delete, user search, profile and the `findUser*` helpers are straight single queries.
- UI rendering, toasts' display, navigation mechanics, the HTML `required` attributes, the 300 ms debounce timer and the game list fetch.
  - The debounced search is one step, `SearchTick`, taken when the timer fires.
  - The query length is counted in characters, not in UTF-16 code units.
- Error logging (`console.error`). The messages of the 500 responses are modelled only for the attendance check.

## Findings

| source | as written | input that shows it | evidently intended | confidence | as-written member | corrected member |
|---|---|---|---|---|---|---|
| frontend/src/features/session/SessionForm.jsx:32-38 | After the duration field is edited, `handleChange` stores the input's text, so the posted `duration` is a string. The update (backend/src/controllers/sessionController.js:76, and backend/src/services/statsService.js:38) then computes `stats.total_playtime + (duration \|\| 0)` with JS `+`, which concatenates. | a stored `total_playtime` of 30 and a posted duration `"45"` give `"3045"`, which PostgreSQL then stores as 3045 | numeric addition, 75 | not executed | StatsService.EditedDurationConcatenates | StatsService.PlaytimeCorrectedAdds |
