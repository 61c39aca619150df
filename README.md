# Quiz application backend — a Dafny model

This project models the server core of a quiz application: an Express/Mongoose
backend where students and teachers register, log in with a cookie-borne JWT,
take quizzes, and see per-quiz statistics and a leaderboard, and where teachers
edit and delete quizzes. The modelled parts are:

- **The user record** (`model/user.js`): the role enumeration and its
  `student` default, embedded attempts, the `required` and `unique`
  validators, `comparePassword`, and the pre-save hook that hashes the
  password only when it was modified (module `UserModel`, with the in-memory
  document as class `UserModel.UserDocument`).
- **The quiz record and `calculateStats`** (`model/quizModel.js`): the
  user scan, the per-quiz filter, the attempt count and the average rounded
  to one decimal (module `QuizModel`).
- **The `requireLogin` middleware** (`middleware/authentication.js`): five
  mutually exclusive outcomes, all refusals being 401 (module
  `Authentication`).
- **The `requireRole` middleware** (`middleware/roleAuth.js`): exact role
  equality, 401 or 403 (module `RoleAuth`).
- **The request handlers of `routes/index.js`** that carry logic:
  - registration, login, profile update, saving an attempt, quiz update and
    quiz delete, as functions over the collections (module `Handlers`)
  - the same handlers performed step by step on a mutable store (class
    `Routes.Store`)
  - the leaderboard (modules `Leaderboard` and `Ranking`)

Module `ObjectIds` covers MongoDB ObjectIds as 24 hexadecimal digits, the
cast Mongoose applies to strings, the delete route's format check and
JavaScript's `String.prototype.trim`. Module `Scenarios` proves properties of
a whole session: two registrations, two attempts, the statistics and
leaderboard that follow, and a refused teacher route.

Inputs the server takes from its environment are parameters of the model:
the clock (`now`), the bcrypt salt, the `_id` the driver assigns to a new
document, JWT verification's verdict, and the stored filename of an uploaded
avatar. Password hashing is symbolic: a stored password is the term
`Hashed(salt, Plain(text))`, and `bcrypt.compare` holds exactly when the
candidate is that text (see "Left out" for bcrypt's 72-byte limit). A body
field that is missing or empty is the empty string, since the handlers test
both the same way, as falsy values. The one exception is the login password,
which is passed to `bcrypt.compare` untested: a missing one makes `compare`
reject and the route answer 500, while an empty one is compared like any other
text, so the model takes it as an optional string. Body fields that are
not strings at all (objects, numbers) are not modelled; see "Left out".

### Where the code and the design description disagree

- `registrationDate` is not the time of registration as written. Here the
  model follows the evident intent, the registration time, and keeps the
  as-written behaviour in separate members: see Findings. In the other cases
  below the model follows the code.
- The design describes the leaderboard rows as carrying a timestamp. The
  handler reads `attempt.timestamp`, a path the attempt schema does not have
  (it has `dateTaken`), so the field is always undefined. The model's rows
  carry only the username and the score.
- The profile update answers 500 when either of its two saves fails, for
  example on a duplicate username. That is a case the design does not list.
  It is modelled, and so is its consequence that a password change already
  saved stays in force (`Handlers.PasswordKeptWhenRenameFails`).
- On the teacher routes an unauthenticated request is answered by
  `requireLogin` (401 with a code) before `requireRole` runs, so the gate's
  own 401 is only reachable without `requireLogin`. Both are modelled, and
  `Handlers.TeacherRoute` states that a login refusal passes through
  unchanged before any role check.
- The design says an attempt always refers to an existing quiz. The
  attempts route stores an attempt for any quiz id that casts, without
  looking the quiz up, and `Handlers.SaveAttempt` models the code.

## Model

| member | source | states |
|---|---|---|
| UserModel.ParseRole | model/user.js:19-23 | a string is accepted as a role only if it is that role's stored name |
| UserModel.ParseRoleName | model/user.js:21 | both enumerated names, `student` and `teacher`, are accepted as their roles |
| UserModel.ParseRoleClosed | model/user.js:21 | any other string is refused: the enumeration is closed |
| UserModel.Hash | model/user.js:60-61 | a hash records the password it was made from, and `compare` against it succeeds exactly for that plaintext |
| UserModel.Matches | model/user.js:51-53 | a stored value that was never hashed, or a hash of a hash, matches no candidate |
| UserModel.RequiredFieldsPresent | model/user.js:6-18 | a record validates only with a non-empty username and email; with a plaintext password, exactly when username, email and password are all non-empty; with a hashed one, exactly when username and email are |
| UserModel.HashedPlainMatchesOnlyItself | model/user.js:51-53 | `comparePassword` against a hash of `p` succeeds exactly for the candidate `p` |
| UserModel.PlainNeverMatches | model/user.js:51-53 | comparison against a value that was never hashed always fails |
| UserModel.NewAttempt | routes/index.js:296 | a pushed attempt has the given quiz id and score and `dateTaken` defaulted to the current time (model/user.js:43-46) |
| UserModel.Public | routes/index.js:63-64 | the response object keeps every user field except the password |
| UserModel.NewUser | routes/index.js:119-124 | a new user has the given id, username, email and role, a plaintext password awaiting the hook, no avatar, no attempts, and the registration time as its date (corrected default of model/user.js:27) |
| UserModel.NewUserAsWritten | model/user.js:24-28 | as written, a new user is the corrected one with `registrationDate` replaced by the schema's load time |
| UserModel.RegistrationDateFrozenAsWritten | model/user.js:27 | as written, users registered at different times share one date; with the corrected default they differ |
| UserModel.PasswordOnSave | model/user.js:56-66 | the hook hashes the current password if and only if it was modified, and leaves it unchanged otherwise |
| UserModel.SaveOfAssignedPasswordVerifies | model/user.js:56-61 | after saving an assigned password, `comparePassword` succeeds exactly for that password |
| UserModel.ResaveKeepsPasswordVerifiable | model/user.js:57 | a save that does not touch the password keeps it verifiable; hashing again would break login |
| UserModel.UserDocument.Value | model/user.js:5-48 | the document's current field values as one user record |
| UserModel.UserDocument.Load | routes/index.js:32 | a loaded document holds the stored user, is not new and has nothing modified |
| UserModel.UserDocument.Create | routes/index.js:119-124 | a created document is `NewUser` of its arguments, new, with the password marked modified |
| UserModel.UserDocument.SetPassword | routes/index.js:50 | assigning the password changes only the password and marks it modified |
| UserModel.UserDocument.SetUsername | routes/index.js:55 | assigning the username changes only the username |
| UserModel.UserDocument.SetAvatar | routes/index.js:56-58 | assigning the avatar changes only the avatar |
| UserModel.UserDocument.PushAttempt | routes/index.js:296 | pushing appends the attempt and changes nothing else |
| UserModel.UserDocument.PreSave | model/user.js:56-66 | in place, the password becomes `PasswordOnSave` of its old value; afterwards it is always a hash |
| UserModel.UserDocument.MarkSaved | model/user.js:57 | after a save the document is neither new nor has a modified password; values are unchanged |
| ObjectIds.HexDigit | routes/index.js:319 | `toString()` prints each nibble as a lower-case hexadecimal digit of that value |
| ObjectIds.LowerHex | routes/index.js:409 | lower-casing a hexadecimal digit keeps its value |
| ObjectIds.ToHex | routes/index.js:319 | an id prints as 24 lower-case hexadecimal digits whose values are the id's nibbles |
| ObjectIds.CastObjectId | routes/index.js:381 | the ObjectId cast accepts exactly the strings of 24 hexadecimal digits in either case, each nibble being its digit's value |
| ObjectIds.IsHex24 | routes/index.js:409 | a string of 24 hexadecimal digits contains no white space |
| ObjectIds.IsWhiteSpace | routes/index.js:407 | no character `trim()` removes is a hexadecimal digit |
| ObjectIds.CastToHex | routes/index.js:319 | casting a printed id gives back the same id |
| ObjectIds.ToHexOfCast | routes/index.js:409 | a string that casts to an id is the id's printed form up to letter case |
| ObjectIds.HexDigitUnique | routes/index.js:319 | two lower-case digits with the same value are the same character |
| ObjectIds.TrimStart | routes/index.js:407 | leading white space is removed: a suffix, all dropped characters white space, the rest not starting with any |
| ObjectIds.TrimEnd | routes/index.js:407 | trailing white space is removed, symmetrically |
| ObjectIds.Trim | routes/index.js:407 | `trim()` returns a contiguous slice with only white space around it that neither starts nor ends with white space |
| ObjectIds.ParseQuizIdParam | routes/index.js:407-409 | the delete route's id is accepted exactly when the trimmed parameter is 24 hexadecimal digits, and is its cast |
| ObjectIds.PaddedIdParses | routes/index.js:407-409 | a printed id with any white space before and after it, of independent lengths, is accepted as that id |
| ObjectIds.TrimStartOfPadded | routes/index.js:407 | leading white-space padding is removed up to the first other character |
| ObjectIds.TrimEndOfPadded | routes/index.js:407 | trailing white-space padding is removed back to the last other character |
| ObjectIds.TrimOfPadded | routes/index.js:407 | trimming recovers a string that neither starts nor ends with white space from any white space before and after it |
| ObjectIds.TrimKeepsHex24 | routes/index.js:407-409 | a string of 24 hexadecimal digits is unchanged by trimming, so the delete route's check agrees with the cast on it |
| QuizModel.AllAttempts | model/quizModel.js:41-45 | an attempt is in the population exactly when some user holds it |
| QuizModel.CollectAttempts | model/quizModel.js:41-45 | the scan yields no more attempts than the population holds, each at the quiz and held by some user |
| QuizModel.TotalScore | model/quizModel.js:48 | the sum of non-negative scores is non-negative |
| QuizModel.UsersWithAttemptAt | model/quizModel.js:37-39 | the database prefilter keeps exactly the users holding an attempt at the quiz |
| QuizModel.QuizFieldsPresent | model/quizModel.js:4-15 | a quiz validates exactly when none of title, description and category is the empty string |
| QuizModel.AttemptsAt | model/quizModel.js:42-44 | the per-user filter keeps no more attempts than it is given, each from the input and at the quiz |
| QuizModel.AverageTenths | model/quizModel.js:52 | the average is the nearest tenth to total/count, halves away from zero (`toFixed(1)` on exact values) |
| QuizModel.RoundHalfUp | model/quizModel.js:52 | the nearest integer to n/d, with halves rounded up |
| QuizModel.DivBounds | model/quizModel.js:52 | floor division brackets the dividend |
| QuizModel.CalculateStats | model/quizModel.js:36-54 | the count is the number of collected attempts; the average is 0 with none and otherwise within half a tenth of total/count, an exact half being rounded away from zero |
| QuizModel.AttemptsAtAppend | model/quizModel.js:41-45 | filtering distributes over concatenation |
| QuizModel.CollectIsFilterOfAll | model/quizModel.js:41-45 | filtering each user and concatenating equals filtering all users' attempts together |
| QuizModel.AttemptsAtMultiplicity | model/quizModel.js:42-44 | an attempt occurs in the filtered list as often as in the input if it is at the quiz, otherwise never |
| QuizModel.CollectMultiplicity | model/quizModel.js:41-47 | the collected list holds every attempt at the quiz, from every user, as often as it occurs, and nothing else |
| QuizModel.NoAttemptsZeroStats | model/quizModel.js:52 | a quiz nobody attempted gets 0 attempts and average 0 |
| QuizModel.PrefilterIrrelevant | model/quizModel.js:37-39 | the database prefilter on `attempts.quizId` does not change the collected attempts |
| QuizModel.TotalScoreAppend | model/quizModel.js:48 | the sum distributes over concatenation |
| QuizModel.TotalScorePermutation | model/quizModel.js:48 | any reordering of the attempts gives the same total |
| QuizModel.TotalScoreRemove | model/quizModel.js:48 | removing one attempt removes its score from the total |
| QuizModel.AttemptsAtPermutation | model/quizModel.js:42-44 | the filter maps equal multisets to equal multisets |
| QuizModel.StatsDependOnlyOnAttempts | model/quizModel.js:36-54 | the statistics depend only on which attempts exist, not their order |
| QuizModel.AllAttemptsAppend | model/quizModel.js:41-45 | the population of a concatenation of users is the concatenation of the populations |
| QuizModel.MultisetRemove | model/quizModel.js:41-45 | taking an element out of a sequence takes it out of its multiset |
| QuizModel.AllAttemptsRemove | model/quizModel.js:41-45 | taking out a user takes out exactly that user's attempts |
| QuizModel.AllAttemptsPermutation | model/quizModel.js:41-45 | reordering the users keeps the population of attempts |
| QuizModel.ReorderedUsersSameStats | model/quizModel.js:36-54 | the order the database returns users in does not change the statistics |
| QuizModel.AllAttemptsReplace | model/quizModel.js:41-45 | replacing one user's record replaces only that user's block of attempts |
| QuizModel.ReorderedAttemptsSameStats | model/quizModel.js:36-54 | reordering one user's attempts does not change the statistics |
| QuizModel.AppendedAttemptStats | model/quizModel.js:36-54 | appending an attempt at the quiz raises the count by one and the total by its score; at another quiz, nothing changes |
| Ranking.Insert | routes/index.js:330 | inserting adds one row; the rows present are the inserted one and the input's |
| Ranking.SortByScore | routes/index.js:330 | sorting keeps the number of rows and which rows are present |
| Ranking.WithScore | routes/index.js:330 | the rows of one score, all from the input |
| Ranking.Take | routes/index.js:331 | `slice(0, n)` returns the first min(n, length) rows |
| Ranking.InsertPermutation | routes/index.js:330 | insertion adds exactly the inserted row |
| Ranking.InsertSorted | routes/index.js:330 | insertion keeps the descending order |
| Ranking.InsertTieOrder | routes/index.js:330 | the inserted row goes before the equal rows that follow it in the input |
| Ranking.SortPermutation | routes/index.js:330 | the sorted rows are the input rows with the same multiplicities |
| Ranking.SortSorted | routes/index.js:330 | the comparator `b.score - a.score` gives the highest score first |
| Ranking.SortStable | routes/index.js:330 | rows of equal score keep their input order (`Array.prototype.sort` is stable) |
| Ranking.SortLength | routes/index.js:330 | sorting keeps the number of rows |
| Ranking.WithScoreMembers | routes/index.js:330 | a row is among the rows of its score exactly when it is in the input |
| Ranking.FirstIsHighest | routes/index.js:330 | in sorted rows the first has the highest score |
| Ranking.SameTopScore | routes/index.js:330 | sorted lists with the same tie order start with the same score |
| Ranking.SameTieOrderTails | routes/index.js:330 | equal first scores and the same tie order give equal first rows and equal tie orders after them |
| Ranking.StableSortUnique | routes/index.js:330 | two sorted lists with the same tie order are equal |
| Ranking.IsStableSortOf | routes/index.js:330 | any stable descending sort of the rows returns exactly the modelled sort's output |
| Ranking.TopRows | routes/index.js:329-331 | the kept rows are the first min(n, length) of the sorted permutation, and no dropped row scores more than a kept one |
| Leaderboard.RowsFor | routes/index.js:316-326 | one row per attempt that `calculateStats` collects for the quiz |
| Leaderboard.EntryFor | routes/index.js:333-342 | an entry carries the quiz's id, title and category, the number of collected attempts, min(5, count) rows, and average 0 when nobody attempted the quiz |
| Leaderboard.RowsPrefilterIrrelevant | routes/index.js:312-314 | the database prefilter on `attempts.quizId` does not change the leaderboard's rows |
| Leaderboard.RowsOf | routes/index.js:320-324 | mapping attempts to rows keeps their number |
| Leaderboard.Leaderboard | routes/index.js:311-343 | one entry per quiz, in quiz order, with that quiz's id, title and category and at most five rows |
| Leaderboard.LeaderboardEntries | routes/index.js:311-343 | the entry at position i is the entry computed for quiz i |
| Leaderboard.RowsOfFacts | routes/index.js:320-324 | the rows of one user carry that user's name and scores, and add up to the scores' total |
| Leaderboard.RowTotal | routes/index.js:340 | the sum of non-negative scores is non-negative |
| Leaderboard.RowTotalAppend | routes/index.js:340 | the sum over rows distributes over concatenation |
| Leaderboard.RowTotalRemove | routes/index.js:340 | removing one row removes its score from the total |
| Leaderboard.RowTotalPermutation | routes/index.js:340 | any reordering of the rows gives the same total |
| Leaderboard.SortedRowTotal | routes/index.js:329-340 | `sort` reorders the rows in place before line 340 sums them, and the sorted rows have the unsorted rows' total that `EntryFor` averages |
| Leaderboard.RowsForMatchesCollect | routes/index.js:316-326 | the leaderboard's rows are as many as, and add up to the same as, the attempts `calculateStats` collects |
| Leaderboard.RowsForMembers | routes/index.js:316-326 | a row appears exactly when some user has an attempt at the quiz with that score |
| Leaderboard.AttemptsAtMembers | routes/index.js:319 | the filter keeps exactly the attempts at the quiz |
| Leaderboard.EntryAgreesWithStats | routes/index.js:338-341 | an entry's count and average equal `calculateStats` for the same quiz |
| Leaderboard.EntryTopList | routes/index.js:329-337 | an entry lists min(5, count) rows, the front of a stable descending sort of all the quiz's rows, none left out scoring more |
| Leaderboard.EmptyQuizEntry | routes/index.js:333-342 | a quiz nobody attempted still has an entry, with no rows, count 0 and average 0 |
| Authentication.Status | middleware/authentication.js:8-46 | every refusal is answered with 401 |
| Authentication.FindById | middleware/authentication.js:19 | `findById` returns the first user with the id, or none when no user has it |
| Authentication.RequireLogin | middleware/authentication.js:5-48 | exactly one of five outcomes: no cookie; expired; invalid signature or payload; no such user; authenticated as a stored user with the payload's id |
| Authentication.TamperedTokenIsInvalid | middleware/authentication.js:42-46 | a token that fails verification is answered `invalid-token`, never `token-expired` |
| Authentication.DeletedUserNotFound | middleware/authentication.js:21-28 | a valid token for a user no longer stored gives `user-not-found` |
| Authentication.TokenForUserAuthenticates | middleware/authentication.js:30-31 | a valid token carrying a stored user's id authenticates that user |
| RoleAuth.GateStatus | middleware/roleAuth.js:6-17 | proceeding sends nothing; missing user is 401; role mismatch is 403 |
| RoleAuth.RequireRole | middleware/roleAuth.js:1-19 | 401 exactly without a user, proceed exactly when the role equals the required one, 403 naming both roles otherwise |
| RoleAuth.NoRoleHierarchy | middleware/roleAuth.js:10-15 | a teacher is refused on a student route and a student on a teacher route |
| Handlers.FindByEmail | routes/index.js:101 | `findOne({email})` returns the first user with the email, or none when nobody has it |
| Handlers.FindByUsername | routes/index.js:110 | `findOne({username})` returns the first user with the username, or none when nobody has it |
| Handlers.FindQuiz | routes/index.js:381 | `Quiz.findById` returns the first quiz with the id, or none when no quiz has it |
| Handlers.SavedValue | model/user.js:56-66 | a save writes every field but the password unchanged; an unmodified password is kept; a modified one is written as its hash, against which exactly the assigned text verifies |
| Handlers.UsernameTakenByOther | model/user.js:9 | the unique index refuses a username only when `findOne({username})` finds it, and a username it does not refuse is first held by the record itself |
| Handlers.SaveUser | model/user.js:5-66 | a save succeeds iff the record validates, its username is not another user's, and it is new exactly when its id is not stored; an insert appends the saved value, an update overwrites the stored user with that id |
| Handlers.SaveUserKeepsUsersValid | model/user.js:6-18 | a successful save keeps ids and usernames unique and every stored password a hash |
| Handlers.FindStoredUser | middleware/authentication.js:19 | with unique ids, looking up a stored user's id finds that user |
| Handlers.SaveExisting | routes/index.js:60 | re-saving a stored user overwrites it in place, and succeeds when it validates and its username is not another user's |
| Handlers.OwnUsernameFree | model/user.js:9 | a user keeping its username does not clash with the unique index |
| Handlers.RequestedRole | routes/index.js:93-123 | the role field is accepted iff it is empty, `student` or `teacher`; empty gives `student`, otherwise the role of that name |
| Handlers.Register | routes/index.js:80-136 | a failure stores nothing; a failed save happens exactly when every check passes but the id is taken; success appends one user with the new id after the unchanged users |
| Handlers.RegisterStatus | routes/index.js:85-135 | registration answers 200 on success and 400 on every failure |
| Handlers.RegisterCheck | routes/index.js:85-116 | the first failing check decides: missing field, then invalid role, then taken email, then taken username; each iff its condition and the earlier ones passing |
| Handlers.DuplicateEmailRejected | routes/index.js:101-107 | a taken email is refused with "Email already registered" and nothing is stored |
| Handlers.RegisterOutcome | routes/index.js:80-136 | failures store nothing; success appends one user with the given fields, role or `student`, a hash of the given password, no avatar, no attempts |
| Handlers.RegisterSucceedsIff | routes/index.js:80-136 | registration succeeds iff the four checks pass and the new id is free, and then appends the saved new user |
| Handlers.RegisterKeepsUsersValid | routes/index.js:80-136 | registration keeps ids, usernames and emails unique and stores no plaintext |
| Handlers.LoginStatus | routes/index.js:148-185 | 200 on success, 404 for an unknown email, 401 for a wrong password, 500 for a server error |
| Handlers.Login | routes/index.js:143-186 | not found iff no user has the email; server error iff a user has it but the password field is missing, which `bcrypt.compare` rejects; wrong password exactly when the first user with the email (`findOne`) is found, a password is given and it does not verify against that user; success exactly when it does, returning that user without password and a token for its id |
| Handlers.RegisterThenLogin | routes/index.js:80-186 | a user just registered logs in with the chosen password |
| Handlers.FindByEmailAppended | routes/index.js:146 | a new email appended at the end is found there |
| Handlers.LoginThenRequireLogin | routes/index.js:166 | the token a login issues authenticates the same user on the next request |
| Handlers.TeacherRoute | routes/index.js:375-377 | a login refusal passes through unchanged before any role check; access is granted exactly to the authenticated user when that user is a teacher; any other role is refused as a mismatch |
| Handlers.StudentRefusedOnTeacherRoute | routes/index.js:402-404 | an authenticated student is refused with 403, naming `teacher` and `student` |
| Handlers.UpdateProfile | routes/index.js:27-74 | the users keep their number; 404 exactly when no user has the id; 400 "incorrect" exactly when the user is found, both passwords are given and the current one does not verify; 400 "too short" exactly when it verifies and the new one has fewer than 8 characters; the three refusals change nothing; a success answers with the requesting user's record |
| Handlers.ProfileOutcome | routes/index.js:27-74 | for a stored user in a valid store, each of the four answers is stated iff: the two 400s as above, 500 exactly on a username clash after the password checks pass or are skipped, 200 exactly without one; the new password is in force exactly when both checks passed, even on a 500 |
| Handlers.TakenIgnoresPassword | model/user.js:9 | whether a username clashes depends on ids and usernames only, so the password save cannot change the outcome of the rename save |
| Handlers.Renamed | routes/index.js:55-58 | only the username and avatar change; a non-empty username replaces the old one, an upload sets the avatar to its served path |
| Handlers.RenameAndSave | routes/index.js:54-73 | the second save fails exactly when the renamed record does not validate, its username is another user's, or the user has gone; a failure changes nothing; otherwise it answers with the user keeping its id, email, role and attempts, the number of users unchanged |
| Handlers.AvatarPath | routes/index.js:57 | an uploaded avatar is served under `/uploads/avatars/`, the path ending with the stored filename |
| Handlers.ProfileStatus | routes/index.js:33-73 | 200 on success, 404 for a missing user, 400 for a wrong or short password, 500 when a save fails |
| Handlers.ProfileRefusalsChangeNothing | routes/index.js:33-48 | a missing user, wrong current password or short new password changes nothing |
| Handlers.RenameEffect | routes/index.js:55-69 | the second save overwrites the user with the new username (or the old one when none given) and avatar, or fails and changes nothing |
| Handlers.ProfileUpdateEffect | routes/index.js:27-74 | only the user's own record changes, only in password, username and avatar; the password changes only after a verified current one and a new one of at least 8 characters, which then verifies |
| Handlers.PasswordKeptWhenRenameFails | routes/index.js:50-60 | when the rename clashes with another user, the answer is 500 yet the new password stays in force |
| Handlers.AttemptStatus | routes/index.js:299-302 | 200 when the attempt is saved, 500 otherwise |
| Handlers.SaveAttempt | routes/index.js:290-304 | a failure stores nothing; a save needs a quiz id that casts and a score, and appends the attempt to the attempts of the user with that id, nothing else changing |
| Handlers.SaveAttemptEffect | routes/index.js:290-304 | for any quiz-id text that casts to an id, in either letter case, an attempt with a score by a stored user is saved at the end of that user's attempts, nothing else changing |
| Handlers.SaveAttemptKeepsUsersValid | routes/index.js:290-304 | saving an attempt keeps the users collection valid, for any quiz-id text that casts |
| Handlers.SaveAttemptFailureChangesNothing | routes/index.js:296-302 | a bad quiz id, a missing score or a missing user is refused and stores nothing |
| Handlers.SaveAttemptUpdatesStats | routes/index.js:290-304 | for any quiz-id text that casts, a saved attempt raises its quiz's count by one and total by its score, and leaves every other quiz's statistics unchanged |
| Handlers.QuizStatus | routes/index.js:383-432 | 200 for update or delete, 404 for a missing quiz, 400 for a malformed id or a failed update |
| Handlers.UpdateQuiz | routes/index.js:375-399 | exactly one of updated, not found or failed; updated exactly when the id casts, a quiz has it and title, description and category are non-empty; not found exactly when the id casts but no quiz has it; only an update changes the collection, keeping its size and giving the quiz with that id the four new fields, which validate |
| Handlers.UpdateQuizEffect | routes/index.js:375-399 | a successful update replaces exactly the four fields of the quiz with that id and keeps the collection valid; every refusal changes nothing |
| Handlers.DeleteQuiz | routes/index.js:402-438 | exactly one of deleted, not found or malformed id; malformed exactly when the trimmed parameter is not 24 hexadecimal digits; not found exactly when it is but no quiz has that id; deleted exactly when a quiz has it; only a delete changes the collection, removing one quiz |
| Handlers.DeleteRejectsMalformedId | routes/index.js:407-414 | an id that is not 24 hexadecimal digits after trimming is refused before the store is read |
| Handlers.DeleteQuizEffect | routes/index.js:402-438 | a successful delete removes exactly the quiz with the id, keeps the others, and the leaderboard no longer lists it; refusals change nothing |
| Handlers.RemoveQuizAt | routes/index.js:423 | removing the quiz at a position keeps every other quiz and the collection valid |
| Handlers.NoEntryForAbsentQuiz | routes/index.js:311-343 | a quiz not stored has no leaderboard entry |
| Routes.SameEmailKeepsUniqueEmails | routes/index.js:60 | overwriting a user with a record of the same email keeps emails unique |
| Routes.Store.Save | model/user.js:56-66 | the in-place save changes the users exactly as `SaveUser` says, hashes the document's password as the hook does, and clears its flags on success |
| Routes.Store.Register | routes/index.js:80-136 | the step-by-step registration leaves exactly the response and users of `Handlers.Register` and keeps the store valid |
| Routes.Store.UpdateProfile | routes/index.js:27-74 | the step-by-step profile update, with its two saves, leaves exactly the response and users of `Handlers.UpdateProfile`, whose answers `Handlers.ProfileOutcome` decides, and keeps the store valid |
| Routes.Store.SaveAttempt | routes/index.js:290-304 | the step-by-step push and save matches `Handlers.SaveAttempt` and keeps the store valid |
| Routes.Store.UpdateQuiz | routes/index.js:375-399 | the in-place field assignment and save leaves exactly the response and quizzes of `Handlers.UpdateQuiz`, so a found quiz with its three fields present is updated; users are untouched |
| Routes.Store.DeleteQuiz | routes/index.js:402-438 | the in-place delete leaves exactly the response and quizzes of `Handlers.DeleteQuiz`, so a well-formed id of a stored quiz deletes it; users are untouched |
| Scenarios.TeacherAndStudentScenario | routes/index.js:80-350 | a teacher and a student register, the student scores 80 then 60: 2 attempts averaging 70.0, leaderboard rows 80 then 60, and the student gets 403 on a teacher route |

## Left out

- Network, HTTP framing, cookies' options (`httpOnly`, `sameSite`, domain, `maxAge`) and the logout route: they are I/O without decisions to verify.
- JWT signing and verification internals, including expiry time arithmetic: `jwt.verify`'s verdict is an input (`Verified`, `Expired`, `Invalid`).
- bcrypt internals and the cost factor 10: hashing is a symbolic term.
- `UserModel.Matches`: `compare` is idealised as exact equality of the candidate with the hashed text. bcrypt reads only the first 72 bytes of a password, so two passwords that agree on those bytes both verify. The "exactly that password" directions of `UserModel.Hash`, `UserModel.HashedPlainMatchesOnlyItself`, `UserModel.SaveOfAssignedPasswordVerifies`, `Handlers.SavedValue`, `Handlers.RegisterOutcome`, `Handlers.ProfileUpdateEffect` and `Handlers.PasswordKeptWhenRenameFails` therefore hold for the real library only for passwords of at most 72 bytes.
- Randomness and the clock: salts, new `_id`s, `Date.now()` and multer's generated filename are parameters.
- Database failures other than validation errors, duplicate keys and a vanished document (connection loss, timeouts): the model has no source for them.
- `Promise.all` in the leaderboard: the per-quiz lookups are independent reads, modelled in sequence.
- The delete route's `deletedCount === 0` answer: it is reachable only if the quiz disappears between `findById` and `deleteOne`, which needs concurrency.
- Routes without decision logic beyond a save or a read: `POST /quizzes`, `POST /quizzes/create`, `GET /users`, `GET /quizzes` and `GET /quizzes/:id`. The role gate they share is modelled.
- app.js (server setup, CORS, static files, database connection) is not part of this model.
- Mongoose `timestamps`, `toJSON`/`toObject` virtuals and the `attempts` count virtual on quizzes: they add fields to responses without affecting any decision.
- The cast of 12-character strings to ObjectIds (Mongoose also accepts any 12-byte string): the model casts only 24 hexadecimal digits. For a client that sends a 12-character id, PUT /quizzes/:id would answer 404 (or 200 if such a quiz existed) where the model answers 400, and POST /users/attempts would answer 200 where the model answers 500. The delete route checks the format itself and is not affected.
- String lengths are counted in characters, whereas JavaScript counts UTF-16 code units; this matters for the 8-character password minimum only outside the Basic Multilingual Plane.
- Unicode case folding and normalisation: not performed by the source either.
- Request-body fields are modelled as strings. Other JSON values are not: the body parsers (app.js:35-36) pass objects and numbers through unchecked. An object such as `{"$ne": null}` reaches `findOne` as a query operator (routes/index.js:101, 110, 146), so a login could be checked against the first stored user whatever its email. A number is cast to a string by Mongoose, and a non-string login password makes `bcrypt.compare` throw, answered 500.
- `QuizModel.AverageTenths`: scores are integers and the average is computed exactly in tenths, rounded half away from zero, while the source divides in floating point and rounds with `toFixed(1)`; the two can differ where a binary floating-point quotient lies just below a half tenth.
- `Handlers.UpdateQuiz`: a missing `questions` array in the body is modelled as the empty list, which is what Mongoose stores for an undefined array path.
- `Handlers.SaveAttempt`: `score` is an integer; Mongoose's `Number` cast of strings and fractions is not modelled.
- `Routes.Store.Save`: after a failed write the hook's hash stays on the in-memory document, as in Mongoose; no handler reuses the document after a failed save, so this is not observable.
- The database prefilter of `calculateStats` and of the leaderboard (`{'attempts.quizId': id}`) is not applied before the scan: the model scans every user. `QuizModel.PrefilterIrrelevant` proves that the two scans collect the same attempts, and `Leaderboard.RowsPrefilterIrrelevant` that they give the same leaderboard rows.

## Findings

| source | as written | input that shows it | evidently intended | confidence | as-written member | corrected member |
|---|---|---|---|---|---|---|
| model/user.js:27 | `default: Date.now()` evaluates the clock once, when the schema is defined, so every user gets the server's start time as registration date | two registrations at times 1000 and 2000 after the schema loaded at 0: both get 0 | `default: Date.now` (the function), giving each user its registration time, as the attempt schema does at model/user.js:45 | high; not executed | UserModel.NewUserAsWritten, UserModel.RegistrationDateFrozenAsWritten | UserModel.NewUser |
