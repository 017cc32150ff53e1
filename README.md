# Koinonia backend: a verified model

Koinonia is a campus quest game. Users register and log in. They browse quests (scripture
memory, campus side quests, trivia, encouragement) and submit completions. Admins create,
edit and soft-delete quests, and approve or reject submissions. Approving a submission
awards the quest's points to its owner. A leaderboard ranks the active users.

This project models the Go backend's handlers and data model in Dafny:

- `Models` holds the records and the JSON projections that hide the password hash and the
  trivia answer.
- `Auth` holds route-id parsing (`strconv.ParseUint(s, 10, 32)`), the register and login
  checks, and the profile update.
- `Middleware` holds the bearer-token guard and the admin gate.
- `Quests` holds the quest listing and lookup, validation, the partial update, the soft
  delete and the submission gate.
- `Submissions` holds the review state machine, the points-conservation invariant and the
  submission listing.
- `Leaderboard` holds the ranking query.
- `Handlers` holds the `Handler` class. It owns the three tables as sequences and has one
  method per handler that writes to the database. Each method states the whole new state and
  preserves the store invariant `Valid()`.
- `Seqs` is a generic filter and a stable insertion sort. These model `WHERE` and
  `ORDER BY`.

Row id k of the users and quests tables sits at index k - 1. Their ids come from
autoincrement, no insert into them is refused, and no handler removes a row. Submission ids
come from a sequence that a refused insert also advances (`SubmitQuest`'s foreign-key
refusal draws an id that no row then carries). So the handler keeps the sequence's next
value, submission ids only increase along the table, and the review handlers look a
submission up by its id. Times are natural numbers that the caller supplies. bcrypt and JWT
verification are function parameters.

Some behaviours of the code worth knowing, all of which the model follows:

- roles are "user" and "admin";
- ranks come from `ROW_NUMBER`, so tied users get distinct, consecutive ranks;
- `quests_completed` counts approved submission rows, not distinct quests;
- quest start and end dates are never checked;
- only `max_submissions == 1` blocks a repeat submission;
- the quest type can be any non-empty string;
- reviewing a submission that is not pending answers 400 "Submission already reviewed";
- a quest's correct answer is tagged `json:"-"`, so no request can set it: created quests
  store it empty and updates never write it;
- a quest create or update body may carry `created_at` (and, on create, `updated_at`), and
  those values are stored.

The model relies on these GORM and Postgres behaviours:

- The soft-delete scope applies to reads, updates and preloads. A soft-deleted quest
  therefore preloads as a zero quest worth 0 points.
- `default:true` on `Quest.IsActive` makes every created quest active.
- `Updates` with a struct skips zero fields.
- `UpdateColumn` does not touch `updated_at`.
- The foreign key created by `AutoMigrate` refuses a submission whose user does not exist.

## Model

| member | source | states |
|---|---|---|
| Models.StatusName | backend/models/models.go:79-83 | the three status strings are distinct and each names exactly one status |
| Models.PublishUser | backend/models/models.go:19 | the JSON view of a user keeps identity, points, role and status |
| Models.PublishedUserHidesPassword | backend/models/models.go:19 | the JSON view of a user does not depend on the password hash |
| Models.PublishQuest | backend/models/models.go:64 | the JSON view of a quest keeps its identity, content and points |
| Models.PublishedQuestHidesAnswer | backend/models/models.go:64 | the JSON view of a quest does not depend on the correct answer |
| Seqs.Filter | backend/handlers/quests.go:20-28 | a WHERE clause keeps exactly the matching rows, each as often as stored |
| Seqs.SortBy | backend/handlers/quests.go:32 | ORDER BY yields a permutation of its input, sorted by the ordering |
| Auth.Decimal | backend/handlers/auth.go:261-265 | the decimal spelling of a number is a non-empty string of digits |
| Auth.ParseId | backend/handlers/auth.go:261-265 | parseID succeeds exactly on non-empty all-digit strings whose value fits in 32 bits |
| Auth.DecimalValueOfDecimal | backend/handlers/auth.go:261-265 | reading back the decimal spelling of n gives n |
| Auth.ParseIdOfDecimal | backend/handlers/auth.go:261-265 | the decimal spelling of n parses to n exactly when n fits in 32 unsigned bits |
| Auth.ParseIdExamples | backend/handlers/auth.go:261-265 | leading zeros are accepted; empty, signed and space-prefixed strings are refused |
| Auth.DecimalOfMaxUint32 | backend/handlers/auth.go:263 | the largest 32-bit value is spelled 4294967295 and the next number 4294967296 |
| Auth.ParseIdBoundary | backend/handlers/auth.go:261-265 | 4294967295 is accepted and 4294967296 is refused |
| Auth.FindAccount | backend/handlers/auth.go:141-145 | the login lookup finds the first account whose username or email is the identifier, or reports that none has it |
| Auth.RegisterCheck | backend/handlers/auth.go:71-81 | registration passes exactly when all three fields are present and no account has the username or the email; otherwise 400 or 409 with the source's message |
| Auth.NewAccount | backend/handlers/auth.go:91-99 | a new account has role "user", is active, has no points and stores the hash |
| Auth.LoginCheck | backend/handlers/auth.go:135-157 | login succeeds exactly when both fields are present, an account matches, it is active and the password verifies, and the account that logs in is the first row matching the username or the email; a missing field gets 400, an unknown identifier and a wrong password both get 401 "Invalid credentials", an inactive account gets 401 "Account is deactivated" |
| Auth.UnknownAccountLooksLikeWrongPassword | backend/handlers/auth.go:142-157 | an unknown identifier and a wrong password get the same answer |
| Auth.DeactivatedBeforePassword | backend/handlers/auth.go:148-157 | a deactivated account gets "Account is deactivated" whatever the password check says |
| Auth.LoggedIn | backend/handlers/auth.go:160-162 | a login changes only the last-login time and the update time |
| Auth.GetProfile | backend/handlers/auth.go:182-192 | the caller's own row, or 404 "User not found" when there is none; with ids as positions, found exactly when some row has the caller's id, and the row returned carries that id |
| Auth.ProfileUpdated | backend/handlers/auth.go:211-218 | a profile update overwrites the first and last name, bio and avatar (empty strings included), sets updated_at to now, and leaves every other column as it was |
| Middleware.IndexOf | backend/handlers/middleware.go:22 | the position of the first separator |
| Middleware.Split | backend/handlers/middleware.go:22 | strings.Split yields separator-free pieces that join back to the header |
| Middleware.BearerToken | backend/handlers/middleware.go:15-28 | a missing header and a malformed header are both refused with 401 |
| Middleware.BearerTokenExactly | backend/handlers/middleware.go:22-28 | a header is accepted with token t exactly when it is "Bearer " followed by t and t has no space |
| Middleware.BearerTokenRefusesSchemeAlone | backend/handlers/middleware.go:22-26 | "Bearer" with no token is refused |
| Middleware.BearerTokenRefusesLowerCase | backend/handlers/middleware.go:22-26 | the scheme name is compared case-sensitively |
| Middleware.BearerTokenRefusesThreeParts | backend/handlers/middleware.go:22-26 | a header with three parts is refused |
| Middleware.BearerTokenRefusesDoubleSpace | backend/handlers/middleware.go:22-26 | a double space between scheme and token is refused |
| Middleware.Authenticate | backend/handlers/middleware.go:15-49 | a request passes exactly when the header is well formed and the token verifies; the identity passed on is the token's claims; every refusal is 401 |
| Middleware.AuthenticatedExactly | backend/handlers/middleware.go:22-49 | a request passes with claims c exactly when some space-free token after "Bearer " verifies to c |
| Middleware.AdminGate | backend/handlers/middleware.go:59-66 | only role "admin" passes, unchanged; any other role gets 403 "Admin access required" |
| Quests.GetQuests | backend/handlers/quests.go:15-38 | the listing holds exactly the active, undeleted quests that match the filters, each as often as stored, newest first |
| Quests.GetQuest | backend/handlers/quests.go:41-55 | a malformed id gets 400; otherwise the open quest with that id, or 404 |
| Quests.ValidateQuest | backend/handlers/quests.go:127-130 | a quest is accepted exactly when it has a title, a type and positive points |
| Quests.AnyQuestTypeIsAccepted | backend/handlers/quests.go:127-130 | every non-empty type outside the four defined quest types passes validation (given a title and positive points), "riddle" among them |
| Quests.NewQuest | backend/handlers/quests.go:119-138 | a created quest carries every decoded field of the request, takes its timestamps from the request or `now`, is active whatever the request says, and stores an empty correct answer |
| Quests.CreatedQuestIsFetched | backend/handlers/quests.go:118-139 | a quest just created is read back by its id, field for field |
| Quests.ApplyEdit | backend/handlers/quests.go:149-156 | for each of the fourteen request columns, the new value is the request's when it is non-zero and the stored one otherwise (is_active can only become true); updated_at is set to now; the id, the deletion mark and the correct answer are kept |
| Quests.EditWritesOnlyWhatIsGiven | backend/handlers/quests.go:156 | a request that sets any one of the fourteen columns (scripture and trivia columns included) writes that column and updated_at, and leaves every other column as it was |
| Quests.EditKeepsWhatZeroCannotSay | backend/handlers/quests.go:156 | an update never deactivates a quest, zeroes its points or cap, or clears its title; an all-zero request changes only the update time |
| Quests.EditIsIdempotent | backend/handlers/quests.go:156 | applying the same update twice equals applying it once |
| Quests.SubmitGate | backend/handlers/quests.go:78-92 | a submission passes exactly when the quest is open and not (cap 1 and already submitted); otherwise 404 or 409 with the source's message |
| Quests.CapAboveOneIsNotEnforced | backend/handlers/quests.go:85-92 | with any cap other than 1 an open quest accepts a repeat submission |
| Quests.NewSubmission | backend/handlers/quests.go:95-102 | a new submission is pending, owned by the caller, for the quest, with the request's content and no award |
| Quests.SoftDeleted | backend/handlers/quests.go:175-176 | a delete marks the quest deleted and changes nothing else; an already deleted quest is unchanged |
| Quests.SoftDeletedQuestIsHidden | backend/handlers/quests.go:175-176 | after a delete the quest is gone from the listing and from lookups by id |
| Submissions.ApprovedPointsAppend | backend/handlers/submissions.go:87-93 | appending a row adds exactly that row's contribution to a user's approved sum |
| Submissions.ApprovedPointsUpdate | backend/handlers/submissions.go:72-79 | replacing one row changes each user's approved sum by the difference of the two contributions |
| Submissions.ApprovedPointsOfNonOwner | backend/handlers/submissions.go:87-93 | a user who owns no submission has an approved sum of 0 |
| Submissions.FindSubmission | backend/handlers/submissions.go:58 | the lookup by primary key finds the first row carrying the id, or reports that no row carries it |
| Submissions.FindSubmissionAfterUpdate | backend/handlers/submissions.go:58 | rewriting a row under the same id moves no lookup |
| Submissions.ReviewGate | backend/handlers/submissions.go:48-67 | review goes ahead exactly on a well-formed id that some pending submission carries, and on that row; otherwise 400 "Invalid submission ID", 404 "Submission not found" or 400 "Submission already reviewed" |
| Submissions.AwardFor | backend/handlers/submissions.go:58 | the award is the quest's points, or 0 when the quest is soft-deleted or missing |
| Submissions.ApprovedAs | backend/handlers/submissions.go:72-79 | approval sets the status, the award, the reviewer, the review time and updated_at, and leaves every other column as it was |
| Submissions.RejectedAs | backend/handlers/submissions.go:132-139 | rejection sets the status, the notes, the reviewer, the review time and updated_at, and leaves every other column, the award included, as it was |
| Submissions.Credited | backend/handlers/submissions.go:87-93 | the owner's total grows by exactly the award and no other column changes |
| Submissions.ApprovalConservesPoints | backend/handlers/submissions.go:72-96 | approving a pending submission and crediting its owner keeps every total equal to that user's approved sum |
| Submissions.RejectionConservesPoints | backend/handlers/submissions.go:132-144 | rejecting a pending submission keeps every total equal to that user's approved sum |
| Submissions.NewSubmissionConservesPoints | backend/handlers/quests.go:95-107 | a new pending submission keeps every total equal to that user's approved sum |
| Submissions.NewUserConservesPoints | backend/handlers/auth.go:91-104 | a new account with no points and no submissions keeps the invariant |
| Submissions.ReviewIsFinal | backend/handlers/submissions.go:63-67 | once reviewed under its own id, a submission is refused by both review operations, so it is approved at most once |
| Submissions.GetSubmissions | backend/handlers/submissions.go:14-44 | the listing holds exactly the rows that match the filters, each as often as stored, newest first |
| Submissions.UnknownStatusSelectsNothing | backend/handlers/submissions.go:23-25 | a status filter that names no status selects no row |
| Submissions.MalformedIdFiltersAreIgnored | backend/handlers/submissions.go:26-35 | quest and user filters that do not parse are ignored, not rejected |
| Leaderboard.Ranking | backend/handlers/leaderboard.go:42-43 | the ranking holds exactly the active users, ordered by points descending, then by account age |
| Leaderboard.Numbered | backend/handlers/leaderboard.go:32 | rows are numbered 1, 2, ... in list order |
| Leaderboard.Leaderboard | backend/handlers/leaderboard.go:23-44 | the leaderboard is the first `limit` rows of the ranking, numbered from 1 |
| Leaderboard.LeaderboardIsOrdered | backend/handlers/leaderboard.go:32-43 | ranks are exactly 1..n, points never increase down the list, and of two rows with equal points the older account comes first |
| Leaderboard.LeaderboardRowsAreActiveUsers | backend/handlers/leaderboard.go:25-42 | every row is an active stored user with that user's total and approved-row count |
| Leaderboard.LeaderboardKeepsTheTop | backend/handlers/leaderboard.go:43-44 | an active user left out of the result ranks no higher than the last row, and the page is full |
| Leaderboard.LeaderboardTotalsAreEarned | backend/handlers/leaderboard.go:30 | under the conservation invariant every total shown is the user's approved sum |
| Leaderboard.EffectiveLimit | backend/handlers/leaderboard.go:12-17 | the limit is the requested positive 32-bit value, or 10 |
| Leaderboard.LimitAsWritten | backend/handlers/leaderboard.go:12-17 | the limit as the code computes it: the route value when the query value is present and the route value parses as a positive id, 10 otherwise |
| Leaderboard.LimitQueryIsIgnoredAsWritten | backend/handlers/leaderboard.go:13-14 | as written, a request for 5 rows yields 10 |
| Leaderboard.EffectiveLimitHonoursRequest | backend/handlers/leaderboard.go:12-17 | as intended, every positive 32-bit limit is honoured |
| Leaderboard.GetLeaderboard | backend/handlers/leaderboard.go:10-53 | whatever limit the query asks for, the result is the top 10 rows of the ranking (fewer when fewer users are active) |
| Leaderboard.IntendedLeaderboard | backend/handlers/leaderboard.go:12-17 | the corrected handler: at most the requested number of rows, and the same result as the handler when no limit is given |
| Leaderboard.RankingOfActiveUsers | backend/handlers/leaderboard.go:42 | when every user is active the ranking is a permutation of all of them |
| Leaderboard.StrictlyRankedThree | backend/handlers/leaderboard.go:43 | three users that each outrank the next come out in that order |
| Leaderboard.ActiveThree | backend/handlers/leaderboard.go:42 | a permutation of three active users holds only active users |
| Leaderboard.TiedUsersAreRankedByAge | backend/handlers/leaderboard.go:43 | for every stored order of two tied users and one with fewer points, the ranking lists the older tied account first, then the younger, then the third |
| Leaderboard.TiedUsersGetConsecutiveRanks | backend/handlers/leaderboard.go:32 | for every stored order of those three users, the handler numbers them 1, 2, 3: the tie does not share a rank |
| Leaderboard.CompletedCountsRowsNotQuests | backend/handlers/leaderboard.go:36-41 | two approved submissions for one quest count as 2 completed |
| Handlers.Handler.constructor | backend/handlers/auth.go:24-26 | an empty database satisfies the store invariant |
| Handlers.Handler.Register | backend/handlers/auth.go:55-119 | on a check failure nothing is written and the error is returned; otherwise one account is appended with the next id and the token carries its id and role "user" |
| Handlers.Handler.Login | backend/handlers/auth.go:122-177 | on a check failure nothing is written; otherwise only the account's last-login time changes and the token carries its id and role |
| Handlers.Handler.UpdateProfile | backend/handlers/auth.go:195-227 | only the caller's row changes, through ProfileUpdated; an unknown id writes nothing and answers with a zero user |
| Handlers.Handler.CreateQuest | backend/handlers/quests.go:118-139 | for an admin caller: an invalid request writes nothing and gets 400; a valid one appends NewQuest with the next id |
| Handlers.Handler.UpdateQuest | backend/handlers/quests.go:142-165 | for an admin caller: only a stored, undeleted quest is edited; any other id writes nothing and answers with a zero quest; a malformed id gets 400 |
| Handlers.Handler.DeleteQuest | backend/handlers/quests.go:168-182 | for an admin caller: a stored quest is soft-deleted and the answer is the success message even for an unknown id; a malformed id gets 400 |
| Handlers.ReviewKeepsIds | backend/handlers/submissions.go:81-84 | a review rewrites a row under its id, so submission ids keep increasing and stay below the sequence's next value |
| Handlers.Handler.SubmitQuest | backend/handlers/quests.go:58-113 | after the id check and the gate, the insert draws the next id; one pending submission with that id is appended, unless the caller's id names no stored user (500), in which case the drawn id is lost |
| Handlers.Handler.ApproveSubmission | backend/handlers/submissions.go:47-101 | after the gate, the submission is approved with its quest's points and the owner's total grows by the same amount; the store invariant holds |
| Handlers.Handler.RejectSubmission | backend/handlers/submissions.go:104-149 | after the gate, the submission is rejected with the notes and no total changes; the store invariant holds |

## Left out

- JSON decoding and encoding and HTTP response writing are not modelled. An error is the
  status and message passed to `writeJSONError`. The "Invalid JSON" paths are therefore
  absent, and so are the response bodies with preloaded associations.
- bcrypt hashing and comparison are oracles. The stored hash is a parameter and the
  password check is a function parameter. A hashing failure (500) is not modelled.
- JWT signing, expiry and verification are oracles. `Authenticate` takes the library's
  verdict as a function parameter. `Register` and `Login` return the claims the signed token
  would carry, not the token string. A signing failure (500) is not modelled.
- `time.Now()` is a `now` parameter that the caller supplies.
- Database failures, transaction rollback and the "Failed to ..." 500 answers for errors the
  driver reports are not modelled. The one exception is the foreign-key refusal in
  `SubmitQuest`.
- Concurrency is not modelled. The window between the review check and the update in
  `ApproveSubmission` (two admins approving at once could both pass the check) is outside a
  sequential model.
- Users and submissions also carry `deleted_at`, but no handler deletes them. The model
  leaves those columns out.
- Handlers.Handler.CreateQuest: the body is decoded into a whole quest. An `id` in the body
  would be inserted as given, and nested `submissions` would be saved with the quest. The
  model takes neither. Ids-as-positions and the conservation invariant are proved only for
  bodies without an id and without nested submissions. A nested approved submission would
  carry points that no user's total includes.
- Handlers.Handler.UpdateQuest: an `id` in the body is not modelled.
- Submissions.Credited: `total_points` is an unbounded integer. Overflow of the 64-bit
  column is not modelled.
- The read-only handlers (`GetProfile`, `GetQuests`, `GetQuest`, `GetSubmissions`,
  `GetLeaderboard`) are functions of the tables. They are not methods of `Handler`.
- Server setup, CORS, the database connection and the migrations in `main.go` are not
  modelled. Only its route grouping is used: the admin routes sit behind `AdminMiddleware`,
  which is why the quest-editing and review methods require an admin caller.
- The frontend is not modelled.

## Findings

| source | as written | input that shows it | evidently intended | confidence | as-written member | corrected member |
|---|---|---|---|---|---|---|
| backend/handlers/leaderboard.go:13-14 | the handler checks the `limit` query value but then parses the chi route parameter "limit", which the `/leaderboard` route does not declare, so parsing always fails and the limit is always 10 | `GET /api/leaderboard?limit=5` returns up to 10 rows | use the query value: `?limit=5` returns at most 5 rows | high, not executed | Leaderboard.LimitQueryIsIgnoredAsWritten | Leaderboard.EffectiveLimitHonoursRequest |
