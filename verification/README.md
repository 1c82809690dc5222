# Identity transactions

This project models the identity service of the content platform and proves what its transactions
guarantee: user accounts, login sessions, refresh tokens, temporary mutes, administrator actions and the
audit log. Verify it with `dafny verify dfyconfig.toml` (Dafny 4.11).

## The system

A small database holds users, sessions and an append-only audit log. Each service call runs as one
transaction. It locks user rows, then session rows, each in ascending order of id; it decides on the locked
rows, writes, and commits or rolls back. A mute whose end has passed is ended lazily by whichever call
notices it first. A ban or a self-deletion revokes all active sessions of the user. A logout is a single
conditional update without a user lock.

The model has four layers.

- **What a call decides.** `Protocol` states, for each call, which rows it locks and what it does with them:
  reject with an error, or commit a difference (`Delta`) with a reply. `Exec` is one call run alone.
  `Verdicts` says what a committed call has found and written, `Acceptance` exactly when each call commits,
  `Effects` what it achieves and that it touches nothing else, and `LegalSteps`, `Runs` and `Credentials` what
  every call and every serial run keeps. `Answers` spells out the whole answer of each call, errors included, in
  the fields of the rows alone.
- **How calls interleave.** `Interleaving` is a state machine of any number of transactions. A locking
  statement fixes its candidate rows, then locks them one at a time, waiting for each and checking the row
  condition again on the latest committed row. Writes are private until the commit. `Refinement` proves that
  every interleaving equals a serial run in commit order, `Locks` that it never deadlocks and that locked
  session sets are exact, and `Guarantees` carries the results about runs over to interleavings. `Rejections`
  and `StatusRejections` relate every error to the call run alone, and `LateTarget` gives the one exception.
  `SessionRows` says when the stored sessions stay well-formed.
- **How the service carries calls out.** `Repository` is a class with committed and staged rows and a plan of
  injected failures: any operation may fail. `Auth`, `Profile` and `Administration` are the service methods
  against it, statement by statement. Each is proved to commit exactly what `Exec` says with exactly its
  reply, or to change nothing and return its error, or an internal error if an operation failed by plan.
- **Tokens and helpers.** `Decimal`, `Base64Url` and `Tokens` are the identifiers and tokens, `Ids` and
  `Placeholders` the helpers of the locking statements, `PendingAudits` the order of deferred entries, and
  `Rfc3339` the syntax check on timestamps.

## Assumptions

- SHA-256 and the password hasher are arbitrary functions, and so are the email and name validators. No
  property rests on their inner workings. Properties about single use of tokens say explicitly that the
  generated digests are fresh (`FreshDigests`).
- A locking read returns the latest committed version of a row. A row lock lasts until the transaction ends.
- Table constraints are checked on every write (`UserRowOk`, `SessionRowOk`); a violation fails the statement.
- A commit that fails leaves the database unchanged.
- Id sequences are ahead of all stored ids. Session ids fit in 64 bits.
- An instant is an unbounded integer of nanoseconds since the Unix epoch. The year range that the code checks
  is written out; wrap-around of durations is not modelled.
- What a call read without locks before its transaction (the credential of a login, the owner of a session,
  the observed rows of `AuthenticateObserved`) is an arbitrary parameter of its transaction, however stale.

## What the proofs show about the code

- The checks that run after the commit in UpdateMe, ChangeUserStatus and recoverExpiredMuteAfterRead, and the
  checks on every returned row, cannot fail on a repository that obeys the table constraints.
- The internal errors for a non-positive lifetime (auth.go:452) and an invalid access expiry (auth.go:263)
  are unreachable under the TTL checks of the constructor.
- One internal error that looks unreachable is not: `Sign` refuses an expiry that falls exactly on the zero
  instant, which a clock in the year 0 can produce. `Credentials.ZeroExpiryIsRefused` gives the inputs;
  `Credentials.AdmittedLoginSucceeds`, `Credentials.AdmittedRefreshSucceeds` and `Auth.IssueTokens` state as
  equivalences when it happens.
- A call that rejects has the error that it has alone at some instant of its flight. The exception is a status
  change that reports an unknown target although the target was added in the meantime: that error can belong to
  no instant (`LateTarget.LateTargetIsNotSerial`). It belongs to one if and only if the administrator was fit
  while the target was still missing (`StatusRejections.StatusRejectionIsSerialExactly`). So no administrator
  who is fit when the call begins gets an error that belongs to no instant
  (`StatusRejections.FitCallersAreSerial`).
- The check on the expiry of a new session (auth.go:493-499) lets the zero instant pass, which the check on a
  stored session (auth.go:134-155) refuses. A login exactly one refresh TTL before it commits a session that this
  check refuses as malformed (`SessionRows.MalformedIsOpened`). From well-formed sessions this is the only way
  to a malformed one (`SessionRows.SessionsStayWellFormed`).
- Go's base64 decoder skips carriage returns and line feeds even in strict mode. The comparison with the
  reencoding is what makes the accepted tokens canonical.
- The README of the repository lists one lock order for all writing calls. A logout takes no user lock; the
  serialization proof covers it as a transaction of a single session row.

## Model

| member | source | states |
|---|---|---|
| Refinement.InterleavingIsSerializable | internal/infra/postgres/identity/repository.go:35-55 | Every reachable interleaving of any number of transactions leaves the database that its committed calls leave, with the same replies, when they run one at a time in commit order |
| Refinement.ReachableKeeps | internal/infra/postgres/identity/session.go:68-122 | In every reachable state all reads made under locks are still current, no row is locked twice, and every lockable session of a locked user is locked or still queued |
| Refinement.CommitKeeps | internal/infra/postgres/identity/repository.go:50-54 | A commit is the whole call executed at that instant, and it preserves the invariant of all other transactions in flight |
| Refinement.StepExtendsRun | internal/infra/postgres/identity/repository.go:44-54 | Each step leaves database and history alone, or extends the serial run by exactly the call that it commits |
| Refinement.CoverStays | internal/infra/postgres/identity/session.go:110-122 | While a transaction holds its user lock, no commit of another one adds an active session of that user outside the locked set |
| Refinement.CommitSparesOthers | internal/infra/postgres/identity/session.go:68-122 | A commit leaves the rows that any other transaction has read unchanged |
| Refinement.LogoutMissIsAtomic | internal/infra/postgres/identity/session.go:40-51 | A conditional revocation that matches no row is a serial logout that changes nothing |
| Interleaving.HeldIsSelected | internal/infra/postgres/identity/session.go:68-108 | While no missed row has appeared, and once every guarded session is locked, the held rows are exactly those that the statements would select at that instant |
| Interleaving.CommitIsAtomic | internal/infra/postgres/identity/repository.go:35-55 | A prepared verdict is the verdict of the call run alone on the current database |
| Interleaving.WritesHeldRows | internal/identity/service/auth.go:214-305 | A call writes only rows that it has locked, apart from the one row it may insert |
| Interleaving.AcceptFindsAll | internal/identity/service/auth.go:214-229 | An accepted call has found every row that it names, and locks active sessions only of users that it has locked |
| Locks.NoWaitCycle | internal/infra/postgres/identity/user.go:78-110 | In every reachable state the waits-for graph has no cycle |
| Locks.WaitsAbove | internal/infra/postgres/identity/session.go:110-122 | A transaction waits only for a row above every row it holds, users before sessions, each in ascending order |
| Locks.NoDeadlock | internal/infra/postgres/identity/session.go:68-108 | In every reachable state with a transaction in flight, one of them can take its next step, rejects, or meets a uniqueness conflict |
| Locks.SomeoneIsNotBlocked | internal/infra/postgres/identity/session.go:110-122 | Some transaction in flight waits for nobody |
| Locks.LockedSetIsExact | internal/identity/service/profile.go:225-235 | From the session locks of a self-deletion or ban until its end, a session is locked as active exactly when it is an active session of that user |
| Locks.RevocationsFindTheirRows | internal/infra/postgres/identity/session.go:145-164 | Every revocation of a prepared self-deletion or status change finds its row active, so the affected-rows error is unreachable |
| Interleaving.RejectionIsAtomic | internal/infra/postgres/identity/repository.go:44-49 | On the rows held, a rejection has the error of the call run alone on the current database, unless a row that it missed has appeared |
| Interleaving.ConflictIsAtomic | internal/infra/postgres/identity/user.go:27-55 | A uniqueness conflict at the commit is the error of the call run alone at that instant |
| Rejections.RejectionIsSerial | internal/infra/postgres/identity/repository.go:44-49 | In every execution, any call but a status change rejects with the error that it has alone at some instant of its flight: now, or at the start of the statement that missed its row |
| Rejections.RejectionIsSerialNow | internal/infra/postgres/identity/repository.go:44-49 | In every execution, any call rejects with the error that it has alone now, if no row that it missed has appeared |
| Rejections.ConflictIsSerial | internal/infra/postgres/identity/repository.go:50-54 | In every execution, a conflict at the commit is the error of the call alone now |
| Rejections.StaysInFlight | internal/infra/postgres/identity/repository.go:35-55 | From an instant of its flight to the end a transaction never leaves and keeps its call, so such an instant belongs to this transaction and to none that used its id before |
| StatusRejections.StatusRejectionIsSerialExactly | internal/identity/service/status.go:55-146 | In every execution, a status change rejects with the error that it has alone at some instant of its flight, if and only if it does not report an unknown target, or its administrator was fit at some instant at which the target was still missing |
| StatusRejections.UnknownTargetIsSerialExactly | internal/identity/service/status.go:111-143 | In every execution, the error for an unknown target is that of the call alone at some instant of its flight if and only if its administrator was fit while the target was still missing |
| StatusRejections.FitCallersAreSerial | internal/identity/service/status.go:55-146 | The guard for callers: under any interleaving, whatever error a status change returns whose administrator is fit when it begins, it has that error alone at some instant of its flight |
| StatusRejections.FitAtBeginIsSerial | internal/identity/service/status.go:55-146 | A target reported unknown was missing when the call began, and the call alone would have reported it there if and only if its administrator was fit there |
| StatusRejections.FitAtStatementIsSerial | internal/identity/service/status.go:55-78 | The same at the start of the statement that locks the users |
| StatusRejections.StatusRejectionIsSerial | internal/identity/service/status.go:55-146 | In every execution, a status change rejects with the error that it has alone at some instant of its flight, unless it reports an unknown target that has been added since |
| StatusRejections.UnknownTargetExactly | internal/identity/service/status.go:111-143 | On any rows that meet the table constraints, a status change alone reports an unknown target exactly when its input is valid, the target is missing and the administrator is fit |
| StatusRejections.FitOnHealthyRows | internal/identity/service/status.go:111-142 | On healthy rows the administrator is fit exactly with a usable session, in good standing, and for a mute that has not ended yet |
| SessionRows.SessionsStayWellFormed | internal/identity/service/auth.go:134-142 | In every reachable state the sessions have the structure that the checks ask for if and only if they had it at the start and no committed login opened one that ends at the zero instant |
| SessionRows.CommitKeepsSessions | internal/identity/service/auth.go:134-155 | A committed call leaves well-formed sessions exactly if it found such and opens none that ends at the zero instant |
| SessionRows.MalformedIsOpened | internal/identity/service/auth.go:493-499 | A login exactly one refresh TTL before the zero instant commits, and its session is one that the check on stored sessions refuses as malformed |
| LateTarget.LateTargetIsNotSerial | internal/identity/service/status.go:55-146 | The exception is real: on any healthy database with an ordinary user whose session is usable, a freeze started before its target is registered, and before its caller is promoted, reports an unknown target, and at no instant of its flight would it have done so alone |
| LateTarget.AppearedTargetIsMissed | internal/identity/service/status.go:55-146 | A status change whose target was added after its user statement started reports an unknown target although, alone, it would commit |
| Guarantees.ExpelledUsersHaveNoSession | internal/identity/service/status.go:78-103 | In every reachable state no banned or deleted user owns an unrevoked session, also after the shortcut for users already banned, and the table constraints hold |
| Guarantees.StatesOnlyMoveOn | internal/infra/postgres/identity/session.go:40-51 | Between any two moments of an execution a session keeps owner, creation and expiry and is revoked at most once, deleted accounts stay as they are, and the log only grows |
| Guarantees.LogAccountsForStandings | internal/identity/service/auth.go:501-542 | In every reachable state the log replays without a gap to each user's status and mute end; only a self-deletion is unrecorded |
| Guarantees.MuteEndsOnce | internal/identity/service/auth.go:518-541 | Under any interleaving, between two recorded mute expiries of one user an administrator has muted the user again |
| Guarantees.AdministratorsStayUntouched | internal/identity/service/status.go:138-142 | From active administrators no interleaving mutes, freezes or bans one |
| Guarantees.TokensWorkOnce | internal/identity/service/auth.go:230-290 | With fresh digests, two committed refreshes of a session never accept the same token |
| Guarantees.RevokedSessionsStayDead | internal/identity/service/auth.go:235-242 | Once a session is revoked, no refresh, edit, deletion or status change through it commits |
| Guarantees.StoredDigestsAreLatest | internal/infra/postgres/identity/session.go:137-143 | A stored digest is that of the token returned by the latest committed login or refresh |
| Guarantees.TokensEndWithLogin | internal/identity/service/auth.go:251-303 | No access token outlives the login of its session plus the refresh TTL |
| Guarantees.UsersMoveAlongMachine | internal/identity/service/status.go:257-262 | Each committed call moves each user along the status machine and keeps identity, email and password |
| Guarantees.EntriesHaveFitAuthors | internal/identity/service/status.go:111-160 | After the commit that writes it, a status entry has an administrator in good standing with a session in force as author and another, ordinary user as target |
| Guarantees.EmailsStayUnique | migrations/00002_identity.sql:24 | In every reachable state an email address belongs to one user at most, also after registrations that raced for it |
| Guarantees.RowsMeetConstraints | migrations/00002_identity.sql:2-35 | In every reachable state every row meets the constraints of its table, one by one |
| Runs.RunKeepsGood | internal/identity/service/status.go:189-197 | Along every serial run the constraints hold and expelled users have no active session |
| Runs.RunIsLater | internal/infra/postgres/identity/session.go:137-164 | Any later point of a run is a permitted continuation of an earlier one, row by row |
| Runs.NoRunTouchesAdmins | internal/identity/service/status.go:138-142 | A run from active administrators leaves each active or self-deleted |
| Runs.AuditLogReplays | internal/identity/service/status.go:154-213 | The entries of a run chain from each user's starting standing to the current one |
| Runs.AuthorsAuthorized | internal/identity/service/status.go:264-275 | Every appended entry records an expiry, or has an author in good standing right after its commit |
| Runs.OneRecoveryPerMute | internal/identity/service/auth.go:518-541 | One mute episode is recovered and recorded at most once |
| LegalSteps.ExecIsLegal | internal/identity/service/status.go:75-214 | Every committed call meets the step obligations: permitted row moves, expulsion of sessions, gap-free entries, authorised authors |
| LegalSteps.ChangeStatusReplays | internal/identity/service/status.go:164-213 | The pending entries in target order and the entry of the change replay for both parties |
| LegalSteps.ChangeStatusAuthorized | internal/identity/service/status.go:111-160 | The author of a status entry is still in good standing after the change |
| LegalSteps.RecoverIsLegal | internal/identity/service/auth.go:501-551 | Lazy recovery is a permitted move whose entry replays to the recovered standing |
| LegalSteps.ReplayAppend | internal/identity/service/auth.go:524-540 | Replaying two stretches of the log in turn is replaying them together |
| Answers.ChangeStatusAnswer | internal/identity/service/status.go:26-230 | On healthy rows the whole answer to a status change in the fields of the rows: each error in its order, or the two recoveries, the new standing, the revoked sessions, and the entry with author, target, both standings, reason, request and time |
| Answers.LoginAnswer | internal/identity/service/auth.go:393-478 | On healthy rows the whole answer to a login transaction: its errors, or the new session, the ended mute, the grant with its lifetime and the shown user |
| Answers.RefreshAnswer | internal/identity/service/auth.go:213-304 | On healthy rows the whole answer to a refresh transaction: its errors, or the replaced digest, the ended mute and the grant that ends with the access TTL or the session |
| Answers.LogoutAnswer | internal/identity/service/auth.go:157-185 | On healthy rows the whole answer to a logout, which never tells whether it found a session |
| Answers.UpdateMeAnswer | internal/identity/service/profile.go:93-201 | On healthy rows the whole answer to an edit: its errors in their order, or the row with the requested fields, written only if one differs |
| Answers.DeleteMeAnswer | internal/identity/service/profile.go:203-294 | On healthy rows the whole answer to a self-deletion: its errors in their order, or the deleted row and every active session revoked |
| Answers.RegisterAnswer | internal/identity/service/auth.go:566-614 | On healthy rows the whole answer to a registration: its errors, or the new row field by field |
| Answers.RecoverMuteAnswer | internal/identity/service/profile.go:370-400 | On healthy rows the whole answer to a recovery: its errors, or the ended mute with its entry field by field, or nothing |
| Answers.PromoteAnswer | README.md:395-405 | The operator statement that makes an active ordinary user an administrator, or finds no row |
| Answers.SaneIsHealthy | internal/identity/service/auth.go:134-155 | Healthy rows in the fields of the rows: presentable instants, valid spelling, status in step with mute end and deletion, nothing from the future |
| Answers.MalformedEdit | internal/identity/service/profile.go:135-152 | A recovery and an edit report a malformed row as an internal error, an edit its session before its owner |
| Answers.MalformedDeletion | internal/identity/service/profile.go:225-247 | A self-deletion reports a malformed active session, then a lost session, then a malformed user |
| Answers.MalformedAdminSession | internal/identity/service/status.go:81-120 | A status change through a malformed session is an internal error in the scan of a ban, and an invalid session otherwise |
| Answers.MalformedParty | internal/identity/service/status.go:121-158 | A status change reports a malformed administrator and a malformed target as internal errors |
| Answers.NowIsWholeSecond | internal/identity/domain/validation.go:64-66 | The instant of a call is the last whole second not after the clock reading, also before the epoch |
| Answers.BoundsOfTheCalendar | internal/identity/service/auth.go:148-155 | The bounds on instants are the years 0 and 9999 and the beginning of the year 1 of the Gregorian calendar |
| Verdicts.LoginVerdict | internal/identity/service/auth.go:394-478 | A committed login found a user who may log in, and its difference and reply are exactly the unmuted user, the new session, the expiry entry and the bounded grant |
| Verdicts.RefreshVerdict | internal/identity/service/auth.go:214-304 | A committed refresh found a usable session with the presented digest, and rotates nothing but the digest |
| Verdicts.DeleteMeVerdict | internal/identity/service/profile.go:203-284 | A committed self-deletion came through a usable session, and its difference is exactly the deleted row, all active sessions revoked and the expiry entry |
| Verdicts.ChangeStatusVerdict | internal/identity/service/status.go:75-214 | A committed status change consists of two recoveries followed by either nothing or the one change, its revocations and its entry; it changes something exactly when the target is not in the wanted standing yet |
| Credentials.StoredDigestIsLatest | internal/infra/postgres/identity/session.go:137-143 | At every point of a run the stored digest is the latest one handed out |
| Credentials.AcceptedIsLatest | internal/identity/service/auth.go:230-239 | An accepted refresh presented the latest token of its session |
| Credentials.RefreshTokenIsOneShot | internal/identity/service/auth.go:230-290 | Along a run a refresh token is accepted by at most one committed refresh |
| Credentials.CommitsThroughSessionInForce | internal/identity/service/status.go:121-126 | A call commits only through a session of its user that is neither revoked nor over |
| Credentials.RevokedSessionIsDead | internal/identity/service/auth.go:235-242 | After its revocation no call of the run commits through a session |
| Credentials.EveryGrantIsBounded | internal/identity/service/auth.go:251-303 | Each access token is issued now, ends at the earlier of access TTL and session expiry, and reports its exact lifetime, which is positive |
| Credentials.MadeGrantIsBounded | internal/identity/service/auth.go:448-454 | The earlier of two valid expiries gives a token within both bounds |
| Credentials.AccessExpiryIsValid | internal/identity/service/auth.go:256-264 | The internal error for an invalid access expiry of a refresh is unreachable under the TTL checks |
| Credentials.ZeroExpiryIsRefused | internal/infra/token/access.go:64-67 | A login exactly one access TTL before the zero instant passes the expiry checks and still ends in an internal error |
| Credentials.AdmittedLoginSucceeds | internal/identity/service/auth.go:413-465 | On fit rows and samples an admitted login succeeds exactly when its access token does not end at the zero instant |
| Credentials.AdmittedRefreshSucceeds | internal/identity/service/auth.go:265-294 | On fit rows and samples an admitted refresh succeeds exactly when its access token, which may end with its session, does not end at the zero instant |
| Credentials.NoGrantOutlivesLogin | internal/identity/service/auth.go:413-454 | However often a session is refreshed, no access token outlives its login plus the refresh TTL |
| Credentials.UnixIsMonotone | internal/identity/service/auth.go:450-454 | On whole-second instants the difference of Unix seconds is the exact lifetime and is positive |
| Credentials.ShownUserIsCurrent | internal/identity/service/profile.go:481-490 | No reply shows a lapsed mute or a password hash; apart from the hash a shown user is the row left behind, in every field |
| Effects.RegisterEffect | internal/identity/service/auth.go:566-614 | A registration adds one active ordinary user, with the given email, password hash and name, created now, under an email that was free, and nothing else |
| Effects.LoginEffect | internal/identity/service/auth.go:393-478 | A login adds one active session with the fresh digest, created now and ending after the refresh TTL; besides, only a lapsed mute of the user ends, with its entry |
| Effects.RefreshEffect | internal/identity/service/auth.go:265-304 | A refresh replaces the presented digest by the fresh one; besides, only a lapsed mute of the owner ends |
| Effects.LogoutEffect | internal/infra/postgres/identity/session.go:40-51 | A logout revokes the caller's active session and changes nothing else |
| Effects.LogoutIsIdempotent | internal/infra/postgres/identity/session.go:40-51 | A repeated logout succeeds and changes nothing |
| Effects.RecoverMuteEffect | internal/infra/postgres/identity/user.go:147-162 | A lapsed mute ends now: the user is active, every other field is kept, one entry is appended with its fields, and no session changes; without a lapsed mute nothing changes |
| Effects.UpdateMeEffect | internal/identity/service/profile.go:153-190 | An edit stores exactly the requested fields of a user who may edit, and leaves the rest |
| Effects.DeleteMeEffect | internal/identity/service/profile.go:249-284 | A self-deletion marks the account deleted now, keeps its other fields, and revokes exactly its active sessions |
| Effects.ChangeStatusEffect | internal/identity/service/status.go:164-214 | The target ends in the wanted standing with its other fields kept; the last entry names author, target, both standings, reason, request and time; a ban that takes effect revokes exactly its active sessions; otherwise no session changes |
| Effects.ChangeStatusIsIdempotent | internal/identity/service/status.go:164-170 | Repeating an accepted status change leaves the target alone and adds no status entry |
| Effects.RepeatedChange | internal/identity/service/status.go:164-170 | A change that finds the target in the wanted standing writes no row of the target, no session and no status entry |
| Acceptance.RegisterAccepted | internal/identity/service/auth.go:566-614 | On a healthy database a registration commits exactly for valid input, a non-empty hash and a free email |
| Acceptance.LoginAccepted | internal/identity/service/auth.go:394-411 | On a healthy database a login commits exactly for the credential on record of a user who may log in, unless the session would last beyond the year 9999 or the access token would end at the zero instant |
| Acceptance.RefreshAccepted | internal/identity/service/auth.go:214-264 | On a healthy database a refresh commits exactly for the current token of a usable session whose owner may log in, unless the access token would end at the zero instant |
| Acceptance.LogoutAccepted | internal/identity/service/auth.go:157-185 | On a healthy database a logout commits exactly for positive ids |
| Acceptance.UpdateMeAccepted | internal/identity/service/profile.go:93-162 | On a healthy database an edit commits exactly for valid fields, through a usable session of a user who may edit |
| Acceptance.DeleteMeAccepted | internal/identity/service/profile.go:203-258 | On a healthy database a self-deletion commits exactly through a usable session of a user who may delete the account |
| Acceptance.ChangeStatusAccepted | internal/identity/service/status.go:26-173 | On a healthy database a status change commits exactly for valid input by a fit administrator through a usable session, on an ordinary account that is not deleted: anywhere from active, muted and frozen, and from pending and banned to active |
| Acceptance.RecoverMuteAccepted | internal/identity/service/profile.go:370-400 | On healthy rows a recovery commits exactly for a stored user and an instant in whole seconds |
| Transactions.CarriedInFull | internal/infra/postgres/identity/repository.go:44-54 | Without a fault a call has its reply and exactly its writes, or its error and none; with a fault it may also end in an internal error and no writes |
| Transactions.ClassificationIsIdentity | internal/identity/service/profile.go:190-196 | The classification of errors after a transaction never rewrites the error of a decision |
| Transactions.StatusErrors | internal/identity/service/status.go:216-225 | A status change rejects only with the errors that are passed on |
| Transactions.SelectedInOrder | internal/infra/postgres/identity/session.go:90-108 | A locking read returns each selected session once, in ascending order |
| Transactions.RevokeSelected | internal/infra/postgres/identity/session.go:145-164 | Revoking the locked active sessions fails only by an injected failure or a table constraint |
| Transactions.RevokedAsSelected | internal/infra/postgres/identity/session.go:145-164 | Revoking the listed ids one by one revokes the selected set as a whole |
| Repositories.Repository.Begin | internal/infra/postgres/identity/repository.go:35-39 | A transaction starts from the committed database |
| Repositories.Repository.Finish | internal/infra/postgres/identity/repository.go:44-54 | Success publishes the staged writes; an error, a failed rollback or a failed commit leaves the database unchanged |
| Repositories.Repository.LockUsers | internal/infra/postgres/identity/user.go:78-110 | Returns the stored rows among the ids once each, in ascending order |
| Repositories.Repository.LockSessions | internal/infra/postgres/identity/session.go:68-108 | Returns the rows that are listed or are active sessions of listed users, in ascending order |
| Repositories.Repository.LockSession | internal/infra/postgres/identity/session.go:53-62 | Returns the row, or not-found exactly when there is none |
| Repositories.Repository.CreateSession | internal/infra/postgres/identity/session.go:124-135 | Adds exactly the new row; fails only by plan or constraint |
| Repositories.Repository.RotateSessionToken | internal/infra/postgres/identity/session.go:137-143 | Changes the digest of one row and nothing else |
| Repositories.Repository.RevokeLockedSessions | internal/infra/postgres/identity/session.go:145-164 | Revokes all listed sessions, or fails when one of them is missing, already revoked or unfit |
| Repositories.Repository.RevokeSession | internal/infra/postgres/identity/session.go:40-51 | Revokes the session if it is an active one of the user, and commits on its own |
| Repositories.Repository.UpdateUser | internal/infra/postgres/identity/user.go:112-140 | Replaces exactly the fields that are set |
| Repositories.Repository.RecoverExpiredMute | internal/infra/postgres/identity/user.go:147-162 | Ends a mute that is over, and reports whether there was one |
| Repositories.Repository.InsertAudit | internal/infra/postgres/identity/audit.go:10-31 | Appends exactly one entry |
| Repositories.Repository.CreateUser | internal/infra/postgres/identity/user.go:27-55 | Adds exactly the new row, or reports a taken email |
| Repositories.BuildCondition | internal/infra/postgres/identity/session.go:75-88 | Builds the disjuncts and collects the arguments in the order that the placeholders number them |
| Repositories.ClausesMeanCondition | internal/infra/postgres/identity/session.go:75-88 | The generated disjuncts over the combined arguments select exactly the listed sessions and the active sessions of the listed users |
| Auth.RecoverForAuth | internal/identity/service/auth.go:501-542 | Recovers exactly as specified; the check on the returned row never fails |
| Auth.LockForLogin | internal/identity/service/auth.go:394-411 | The locks and checks of a login admit exactly as specified |
| Auth.MintSession | internal/identity/service/auth.go:418-465 | Stores the session and issues tokens that carry its grant and secret; names every reason to fail |
| Auth.OpenSession | internal/identity/service/auth.go:413-478 | The staged writes and the reply of an admitted login are those of its verdict |
| Auth.LoginBody | internal/identity/service/auth.go:394-478 | Locks, checks and writes of a login stage exactly its decision on the locked rows |
| Auth.LoginTransaction | internal/identity/service/auth.go:393-484 | Commits exactly what the call run alone does, or changes nothing and returns its error |
| Auth.Login | internal/identity/service/auth.go:332-491 | Only the right password of a stored user who is neither banned nor deleted gets to the transaction; the owner of an email is refused exactly for a wrong password or a barred account, and the dummy comparison decides when there is no owner; an error changes nothing |
| Auth.LockForRefresh | internal/identity/service/auth.go:214-264 | The locks and checks of a refresh admit exactly as specified |
| Auth.ReissueTokens | internal/identity/service/auth.go:270-294 | Issues tokens that carry grant and secret, and stores the new digest; names every reason to fail |
| Auth.RotateSession | internal/identity/service/auth.go:265-304 | The staged writes and the reply of an admitted refresh are those of its verdict |
| Auth.RefreshBody | internal/identity/service/auth.go:214-304 | Locks, checks and writes of a refresh stage exactly its decision on the locked rows |
| Auth.RefreshTransaction | internal/identity/service/auth.go:213-311 | Commits exactly what the call run alone does, or changes nothing and returns its error |
| Auth.Refresh | internal/identity/service/auth.go:187-314 | A formatted token of a stored session, active or not, leads to the transaction with its id, digest and owner, and any other string is refused; on healthy rows the current token of a live session is accepted |
| Auth.LatestTokenIsAccepted | internal/identity/service/auth.go:230-290 | After any run the token of the latest login or refresh of a session parses and is accepted, while the session lives and its owner may log in |
| Auth.RandomnessNeeded | internal/infra/token/refresh.go:40-46 | 32 bytes for the secret and 16 for the token id are enough, and needed |
| Auth.GrantedTokens | internal/identity/service/auth.go:274-294 | The tokens of a grant letter by letter: the claims name its user, session and instants, and the refresh token is the session id, a dot and the encoded secret |
| Auth.GrantedAccessIsAccepted | internal/infra/token/access.go:93-135 | The access token of a grant authenticates its user and session from 30 seconds before its issue until its end, and not longer |
| Auth.IssuedTokenPresentsStoredDigest | internal/identity/service/auth.go:282-290 | The token handed out parses to its session and to the digest that was stored |
| Auth.GrantFor | internal/identity/service/auth.go:450-454 | The lifetime is computed and the internal error on it is unreachable |
| Auth.IssueTokens | internal/identity/service/auth.go:274-289 | Token issue fails only on a dry random source or an expiry at the zero instant |
| Auth.Register | internal/identity/service/auth.go:566-614 | Refuses invalid input, then fails if the password cannot be hashed, and otherwise carries out the registration with the hash |
| Auth.Logout | internal/identity/service/auth.go:157-185 | Carries out the logout; an error changes nothing |
| Auth.RecoverBody | internal/identity/service/profile.go:370-400 | The transaction behind a read recovers as specified |
| Auth.RecoverExpiredMuteAfterRead | internal/identity/service/profile.go:359-411 | An observed lapsed mute is ended if the stored one has lapsed, and on healthy rows that never fails without a fault; the stored user is returned with every field but the hash; the check after the commit never fails |
| Auth.FindAuthenticationState | internal/infra/postgres/identity/session.go:24-30 | Returns the stored session and its owner with every field but the hash, or not-found exactly when one is missing |
| Auth.AuthenticateObserved | internal/identity/service/auth.go:87-121 | For any observed session and user, however stale: rejects as they demand, recovers only an observed lapsed mute, treats a user who is gone as an invalid session, and otherwise returns the observed or stored user, which is fit now |
| Auth.Authenticate | internal/identity/service/auth.go:68-122 | On healthy rows and without a fault: an invalid session exactly when it is missing, foreign, revoked or over, or its user is banned or deleted; otherwise a lapsed mute has ended with its entry, and the stored user is returned with every field but the hash |
| Auth.AdmittedOnHealthyRows | internal/identity/service/auth.go:84-107 | On healthy rows the checks of a request pass exactly for an own, unrevoked, unexpired session of a user neither banned nor deleted |
| Auth.MalformedRequest | internal/identity/service/auth.go:84-92 | Malformed rows are internal errors: first the session, then, if it is the own active one, the user |
| Auth.AdmittedUserIsFit | internal/identity/service/auth.go:87-107 | Whoever the checks admit owns an unrevoked, unexpired session and is neither banned nor deleted |
| Profile.UpdateMe | internal/identity/service/profile.go:93-201 | Carries out the edit; the check after the commit never fails; an error changes nothing |
| Profile.WriteEdit | internal/identity/service/profile.go:164-181 | Writes only changed fields; the check on the returned row never fails |
| Profile.DeleteMe | internal/identity/service/profile.go:203-294 | Carries out the self-deletion; an error changes nothing |
| Profile.ValidateLockedActiveSessions | internal/identity/service/profile.go:317-341 | Accepts exactly the ordered, well-formed active sessions of the user, and otherwise returns the error of the first offending one |
| Profile.LockOwnSessions | internal/identity/service/profile.go:225-235 | The locked set is the user's active sessions; fails only on a malformed row or a missing current session |
| Profile.CurrentHasExpired | internal/identity/service/profile.go:243-247 | Finds out whether the current session is over |
| Profile.DeleteRecovered | internal/identity/service/profile.go:259-284 | Writes the deleted row, all revocations and the pending entry of a user who is not frozen, or names the reason to fail |
| Profile.DeleteAccount | internal/identity/service/profile.go:249-284 | The staged writes of an admitted self-deletion are those of its verdict |
| Administration.ChangeUserStatus | internal/identity/service/status.go:26-230 | Carries out the status change; the check after the commit never fails; an error changes nothing |
| Administration.FindParties | internal/identity/service/status.go:62-78 | Finds each party among the locked rows, and refuses a row of anyone else |
| Administration.ValidateAdministrativeSessionSet | internal/identity/service/status.go:292-331 | Accepts exactly the sets of well-formed ordered rows with the administrator's session, splits off the target's, and otherwise returns the error of the first offending row |
| Administration.FirstOffender | internal/identity/service/status.go:301-329 | On the rows that a ban locks, the first offending row gives the verdict of the whole set |
| Administration.LockForStatus | internal/identity/service/status.go:55-120 | The locks and the checks on the administrator admit exactly as specified |
| Administration.RecoverParties | internal/identity/service/status.go:121-163 | Both recoveries and the checks on the target are those specified, in this order of errors |
| Administration.WriteChange | internal/identity/service/status.go:175-212 | The row, the revocations and the entries of a change are exactly its specified difference |
| Administration.CompleteChange | internal/identity/service/status.go:164-214 | The staged writes and the reply are those of the verdict |
| Administration.ChangedRowIsValid | internal/identity/service/status.go:285-290 | The check on the returned row never fails |
| PendingAudits.SortByTarget | internal/identity/service/status.go:239 | The in-place sort computes the stable sort by target |
| PendingAudits.SortIsStable | internal/identity/service/status.go:239 | The sort orders entries by target and keeps the entries of each target in their order |
| PendingAudits.PendingInTargetOrder | internal/identity/service/status.go:232-246 | At most one pending entry of each party comes out in ascending order of target |
| Tokens.GenerateRefreshSecret | internal/infra/token/refresh.go:40-46 | Encodes and digests the 32 random bytes, or fails when the source runs dry |
| Tokens.FormatSucceeds | internal/infra/token/refresh.go:48-60 | Formatting an int64 id with an encoded 32-byte secret never fails; the length check cannot fire |
| Tokens.ParseIsInverseOfFormat | internal/infra/token/refresh.go:62-76 | A string parses to an id and a secret if and only if it is their formatted token |
| Tokens.SecretIsEncoding | internal/infra/token/refresh.go:98-110 | A string decodes to a secret if and only if it is the encoding of those 32 bytes |
| Decimal.ParsePositiveId | internal/infra/token/refresh.go:82-96 | Accepts exactly the canonical decimal printings of 1 to 2^63-1 and returns the number printed |
| Decimal.PositiveIdIsCanonical | internal/infra/token/refresh.go:91-95 | The conversion and the comparison with the reprint leave only canonical printings |
| Decimal.PrintedDigits | internal/infra/postgres/identity/repository.go:140-145 | The digits of a number, last one first |
| Decimal.ReadPrint | internal/infra/token/refresh.go:55 | Reading a printed number gives it back, without a leading zero |
| Decimal.PrintRead | internal/infra/token/refresh.go:92-94 | Printing the value of digits without a leading zero gives them back |
| Base64Url.DecodeEncode | internal/infra/token/refresh.go:45 | Decoding undoes encoding for byte strings of any length |
| Base64Url.GroupIsBigEndian | internal/infra/token/refresh.go:45 | Three bytes and their four symbols are the same number of 24 bits, most significant first |
| Base64Url.TailIsBigEndian | internal/infra/token/refresh.go:45 | One or two bytes at the end give two or three symbols, filled up with zero bits, without padding |
| Base64Url.SymbolsAreTheAlphabet | internal/infra/token/refresh.go:45 | The symbols are those of table 2 in section 5 of RFC 4648, in its order |
| Base64Url.EncodingSpellsSextets | internal/infra/token/refresh.go:45 | The k-th symbol of an encoding spells the k-th sextet |
| Base64Url.CanonicalIsEncoding | internal/infra/token/refresh.go:102-108 | Decoding with the comparison of the reencoding accepts exactly the encodings |
| Base64Url.ReencodeDropsNewlines | internal/infra/token/refresh.go:102-108 | The reencoding of any decodable string is that string without its newlines |
| Base64Url.DecoderAloneIsNotCanonical | internal/infra/token/refresh.go:102-108 | A string with a line feed decodes but is not canonical: the comparison is needed |
| Tokens.GenerateJwtId | internal/infra/token/access.go:56-62 | Every generated token id is valid |
| Tokens.ValidJwtIdIsEncoding | internal/infra/token/access.go:137-148 | The valid token ids are exactly the encodings of 12 to 96 bytes |
| Tokens.VerifyAcceptsSigned | internal/infra/token/access.go:93-135 | Signed claims are accepted exactly while not expired and issued at most 30 seconds ahead, and name the signed user and session |
| Tokens.VerifiedIsSigned | internal/infra/token/access.go:113-134 | Accepted claims are exactly what signing the same principal produces, unless they were issued or end at the zero instant, which signing refuses |
| Ids.SortedUniqueIds | internal/infra/postgres/identity/repository.go:108-123 | Returns the same set in strictly ascending order and leaves the array of its argument alone |
| Ids.CompactInPlace | internal/infra/postgres/identity/repository.go:116-121 | In-place compaction over the array being read keeps each element once, in ascending order |
| Ids.SortInPlace | internal/infra/postgres/identity/repository.go:113-115 | Sorts in place |
| Decimal.AppendInt | internal/infra/postgres/identity/repository.go:140-145 | Appends the canonical decimal printing |
| Placeholders.GeneratePlaceholders | internal/infra/postgres/identity/repository.go:125-138 | Produces the specified text |
| Placeholders.PlaceholdersSpelled | internal/infra/postgres/identity/repository.go:125-138 | The list letter by letter |
| Placeholders.ConditionSpelled | internal/infra/postgres/identity/session.go:75-90 | The row condition letter by letter |
| Placeholders.ReferencesOfList | internal/infra/postgres/identity/repository.go:125-138 | A reader of a generated list finds consecutive numbers from its start, whatever text follows |
| Placeholders.EveryArgumentIsUsedOnce | internal/infra/postgres/identity/session.go:75-90 | Across both lists the k-th placeholder names the k-th argument, and each argument is used once |
| Rfc3339.ValidRfc3339Syntax | internal/identity/handler/status.go:59-94 | Accepts exactly the date-times of section 5.6 of RFC 3339 with upper-case T and Z, without calendar ranges; every index is in range |
| Rfc3339.DateTimeCharacters | internal/identity/handler/status.go:59-94 | The accepted shape in single characters, with offsets up to 23:59 |
| Rfc3339.CutIsUnique | internal/identity/handler/status.go:71-81 | There is at most one way to split a date-time into fraction and offset |
| Rfc3339.ByteArithmeticDoesNotWrap | internal/identity/handler/status.go:91-93 | The byte arithmetic on two digits computes their number without wrapping |

## Left out

- HTTP routing, request and response bodies, middleware, request ids and access logging.
- JSON decoding, and the JSON form of audit details: entries are records with typed fields.
- The internals of bcrypt, SHA-256, HS256 and the random source; the JWT encoding and its 4096-byte limit.
- SQL text beyond the generated placeholders, drivers, connection pools, migrations, Redis and configuration.
- Context cancellation and error wrapping: each repository call has one failure outcome, `Internal`.
- Atomicity of Authenticate, Me and PublicUser as whole calls: their first read takes no lock. The lookup and
  the recovery of Authenticate are modelled; of Me and PublicUser only the recovery transaction that they share
  with it.
- The rendering of users as views, and the masking of deleted users.
- Key-share locks that inserts take on referenced rows: the referenced user is locked already.
- The wait of a registration for a concurrent one with the same email: a registration holds no row lock, and
  the conflict shows when it commits.
- Unknown roles and statuses: the table constraints exclude them, so both are enumerations.
- The normalisation of email, display name and reason: calls carry normalised values. The constraints on the
  spelling of email and name are part of the opaque validators.
- Go strings as byte sequences: a Dafny `string` holds one character per byte in tokens and timestamps, and
  one per code point where the code counts code points.
- Interleaving.Enabled: a transaction that will reject may still lock its sessions first, which the code
  sometimes skips; this adds waiting and takes none away.
- Rejections.RejectionIsSerial: does not cover a status change, whose errors `StatusRejections` treats, because
  one of them is not serial.
- StatusRejections.StatusRejectionIsSerial: starts from well-formed sessions, with no committed login that opens
  one ending at the zero instant, because the scan of a ban reports a malformed row as an internal error. The
  same holds of StatusRejectionIsSerialExactly and FitCallersAreSerial for errors other than an unknown target.
- Auth.IssuedTokenPresentsStoredDigest: equality of digests stands for the constant-time comparison.
- Ids.SortInPlace: an insertion sort stands for the library sort; only its result matters.
- PendingAudits.SortByTarget: an insertion sort stands for the stable library sort.
