# Verified model of the devopsbin backend

A Dafny 4.11 model of five parts of the devopsbin backend, with proofs of what they promise together:
concurrent money transfers, cookie sessions with a per-user index, the login lockout, the fixed-window
rate limiter, and the forwarded-chain walker. `dafny verify dfyconfig.toml` checks all of it.

Two substrates carry the model.

**The row store.** `Serial.dfy` says what one transfer and one registration do when they run alone and
what every serial history of them keeps. `Machine.dfy` interleaves any number of calls step by step:
begin, lock the next existing row, check, debit, credit, append to the ledger, commit or fail, back off,
retry. Row locks are held until the attempt ends. Read-committed reads the latest row once its lock is
granted; the two snapshot levels fail with a retryable conflict if the row changed since the snapshot.
At any point the database may report any error. A failed commit is a commit that did not happen.
`Transfers.dfy` proves that every run is serializable in commit order and derives the rest from the serial
histories; the database's non-negative constraint is not assumed but proved. `Progress.dfy` proves deadlock
freedom and termination, and `Alone.dfy` that a call which meets nobody gets its rows and the serial answer. `Store.dfy` is the code itself, tables updated in place and the retry loop, proved
against the same serial functions; there the outcome of each statement is an input (`faults`), as are
cancellation (`cancels`) and the random draws (`seeds`).

**The key store.** `KeyStore.dfy` is a map from keys to values with deadlines, a clock in nanoseconds, and
a set of operation numbers that fail. A key is gone once the clock reaches its expiry; a non-positive ttl
stores forever. The client library sends a ttl in whole milliseconds, cut off, but at least one; the counter
sends zero for less than one, which deletes it. A remaining time is reported in whole seconds, rounded to the
nearest. `Cache` is the same as a class, updated in place, and
`KeyStoreLaws.dfy` says what one operation means for the next. `Sessions.dfy`,
`Lockout.dfy` and `RateLimit.dfy` hold the classes of the source with the functions they are proved against;
`SessionRuns.dfy`, `LockoutRuns.dfy`, `LockoutBound.dfy` and `RateLimitRuns.dfy` prove properties of whole
runs, in which other users of the store may change anything outside the family of keys concerned.
For the session limits the steps are single store-backed operations in any order, stale copies of sessions
included; for the session index they are whole requests, taken atomically; any store operation may fail in
both. The login steps of the lockout are whole requests too. A limiter call is two steps, the clock read of its replica and its increment, with other
calls in between. `Handlers.dfy` writes the request handlers statement by statement over these classes.

What is assumed: drawn session ids are fresh; the UUID scanner inverts canonical printing and may do
anything with other spellings; JSON encoding is the identity; a password matches its hash when equal;
replicas and store share one clock that never goes back. The configuration checks of
`internal/config/config.go` (positive times, idle at most absolute, limits at least one) are preconditions.

Where documentation and code differ, the model follows the code:

- The comment on the backoff bounds (internal/store/transfer.go:29-30) says `base*2^attempt`; the code shifts by
  `attempt - 1`, and that is the bound proved.
- The limiter's documentation promises counting within each window for every positive window. For windows of at
  least a second in whole milliseconds that holds in a run if and only if every counted increment but the first of
  its window arrives less than a window's length after that first one (`AnswersMatchCounting`); so it does when none
  arrives after its window (`PunctualAnswersMatch`), and runs where it does not exist for every such window
  (`LateIncrementsMiscount`). For every other positive window, `InexactWindowsMiscount` gives, from any time on, a run
  of two calls whose answer is wrong though no increment is late.
- The session comments promise that no key outlives the absolute timeout. As the store keeps at least a millisecond,
  a touch within the last millisecond before the cap gives it until up to a millisecond after; `GetSession` then
  still accepts it at the cap itself, though not later (`AcceptedOnlyBeforeLimits`, `AcceptedAtTheCap`), and the
  index, which has been given the cap in whole milliseconds, may be gone by then. The results on the index are
  therefore about sessions before that cap.
- Rounding a duration up to seconds wraps for durations within a second of the largest int64, and then
  reports one second; `SecondsRoundUp` has the exact condition.
- The settings table (README.md:215) calls the lockout window a rolling one. The code anchors it at its first
  failure, and a lock may be shorter than a window, for configuration asks only that it be positive
  (internal/config/config.go:361). `WorstIsExact` gives the most failures that any half-open interval one window
  long holds: one if the maximum is one and `2 * max - 2` otherwise, plus one for every lock time that fits strictly
  into a window; every anchored history happens, this worst one included. Lock times count as the store keeps them. So the maximum holds as documented exactly for at most
  two attempts and locks of at least a window (`RollingWindow`), and `2 * max - 1` exactly for locks of at least
  half a window, or a whole one when the maximum is one (`TwiceTheMaximumLessOne`). A window below a millisecond
  keeps no count at all (`TinyWindowNeverLocks`).
- The wait a refused login is told is meant to last until its lock ends. The store reports remaining times rounded
  to the nearest second, so it covers the lock exactly when that rounding was not downward to a positive number
  (`WaitCoversUnlessRoundedDown`), and falls short by less than half a second otherwise. So every wait covers its
  lock if and only if locks last at most a second, or failures cannot set any (`WaitsCoverExactly`).

## Model

| member | source | states |
|---|---|---|
| Transfers.EveryRunIsSerializable | internal/store/transfer.go:160-275 | for every interleaving, isolation level and fault: the committed state is what running the committed transfers and registrations alone, in commit order, gives, with the same returned balances; a call answered success exactly when it has one commit; failed attempts leave no trace |
| Transfers.LedgerDeterminesBalances | internal/store/transfer.go:239-255 | in every reachable state the ledger is the opening ledger followed by exactly the committed transfers in commit order, and each balance is its opening balance plus the credits minus the debits of these |
| Transfers.NoBalanceIsNegative | internal/store/transfer.go:203-246 | no committed or uncommitted balance is ever negative or out of int64, and total money is the opening total plus 100000 per committed registration |
| Transfers.ChecksHoldUntilCommit | internal/store/transfer.go:208-264 | from the checks to the commit both rows stay locked, distinct, named by the request's canonical ids, owned by the caller and able to pay, in the state committed at that moment |
| Transfers.UpdatesCannotFail | internal/store/transfer.go:239-246 | while the opening total plus 100000 per registration fits in int64, neither balance update can conflict or overflow |
| Transfers.RefusalsAreSerial | internal/store/transfer.go:216-228 | every refusal is the serial bank's answer: a missing account was missing from the state committed when the attempt began, any other refusal is right for the state now |
| Transfers.OneCallCommitsAtMostOnce | internal/store/transfer.go:153-182 | one call has at most one commit; success reports attempt number 1..budget with every earlier attempt failed with 40001 or 40P01; exhausted exactly when the whole budget, five by default, failed so |
| Progress.NoWaitCycle | internal/store/sqlc/accounts.sql.go:81-87 | the waits-for graph of every reachable state is acyclic |
| Progress.HeldRanksBelowWanted | internal/store/sqlc/accounts.sql.go:81-87 | a client that satisfies the invariant kept by every step holds only rows that sort before the one it waits for |
| Progress.SomeTransferCanStep | internal/store/transfer.go:201-203 | while some call is unfinished, some unfinished call can take a step without a fault |
| Progress.RunsAreBounded | internal/store/transfer.go:160-180 | without new calls, the clients of a reachable state take a bounded number of further steps, whatever faults strike |
| Alone.LocksAreGranted | internal/store/sqlc/accounts.sql.go:81-87 | in every reachable state a row nobody else holds is granted as committed now, if the level is "read-committed" or the row's version is still the snapshot's, and otherwise the attempt fails with 40001 |
| Alone.AloneIsAnsweredSerially | internal/store/transfer.go:160-275 | from every reachable state a call about to start an attempt, whose rows nobody else holds, is answered by its own fault-free steps exactly as the serial transfer on the state committed now, with this attempt's number |
| Alone.FaultFreeActionIsUnique | internal/store/transfer.go:187-275 | a client has no more than one step that is neither a fault nor a cancellation |
| Alone.FaultsAreAnswered | internal/store/transfer.go:160-182 | 40001 and 40P01 are retried while the budget lasts and then exhausted; any other error is the answer at once |
| Alone.BackoffIsAnswered | internal/store/transfer.go:173-178 | after the backoff the next attempt starts, or the call is canceled |
| Alone.BudgetIsFiveByDefault | internal/store/transfer.go:153-156 | the budget is what the request asks for if positive, and five otherwise |
| Machine.StepKeepsInv | internal/store/transfer.go:187-275 | every step of any client or registration keeps lock exclusion, stability of what was read under lock, the pending balances, the retry bookkeeping and serializability |
| Machine.CommitIsSerial | internal/store/transfer.go:239-264 | a commit is the serial transfer run on the state it commits into, with the same answer |
| Machine.OthersAreStable | internal/store/sqlc/accounts.sql.go:81-87 | a commit or registration that leaves a transfer's locked rows alone keeps everything that transfer has read, planned and computed valid |
| Machine.VerdictStillStands | internal/store/transfer.go:216-246 | once past the checks, the serial transfer on the current state succeeds, or fails only by overflow of the destination |
| Attempt.VerdictIsSerial | internal/store/transfer.go:208-228 | the verdict read off the string-keyed maps is the serial one, and passing it names two distinct existing rows, whatever spelling of ids was sent |
| Attempt.LockOrder | internal/store/sqlc/accounts.sql.go:81-87 | exactly the existing rows among the two requested, strictly ascending |
| Attempt.Validate | internal/store/transfer.go:133-151 | which requests pass the checks ahead of any transaction, and with which error each other request fails, the checks taken in order |
| Attempt.LockedRowByName | internal/store/transfer.go:208-214 | under a locked row's canonical name the maps hold that row's balance and owner |
| Serial.LedgerReplaysBalance | internal/store/transfer.go:239-255 | for any serial history and account: opening balance plus ledger credits minus debits |
| Serial.LedgerIsTheLog | internal/store/sqlc/transfers.sql.go:14-18 | the ledger grows by one row per committed transfer, in commit order |
| Serial.MoneyIsConserved | internal/store/users.go:73-79 | the total of all balances is the opening total plus 100000 per registration |
| Serial.BalancesStayInRange | internal/store/transfer.go:226-246 | serial histories keep every balance between zero and the int64 maximum |
| Serial.NoOverflowWhileTotalFits | internal/store/sqlc/accounts.sql.go:14-20 | no credit can overflow while all the money fits in an int64 |
| Serial.TransferIsRefused | internal/store/transfer.go:216-246 | which transfers are refused and with which error, each by an if-and-only-if, in the order of the checks |
| Serial.TransferMovesTheAmount | internal/store/transfer.go:239-275 | an accepted transfer moves the amount between the two rows, leaves owners and all other rows alone, appends one ledger row and answers both new balances |
| Serial.RegisteredOwnsItsAccount | internal/store/users.go:58-93 | in every serial history a registered account is owned by the user stored under its username, holds 100000 and what the ledger moved since, and no username is registered twice |
| Store.Store.GetAccountsForUpdate | internal/store/sqlc/accounts.sql.go:97-115 | returns the existing requested rows in id order with their current owner and balance |
| Store.Store.AdjustBalance | internal/store/sqlc/accounts.sql.go:28-33 | adds the delta to one row in place and returns the new balance; a missing row or an int64 overflow is an error and changes nothing |
| Store.Store.TransferOnce | internal/store/transfer.go:187-275 | one attempt is the serial transfer or, after any error at any statement, leaves every table as it was |
| Store.Store.Transfer | internal/store/transfer.go:132-182 | the loop's answer and final tables are those of the retry specification; total backoff is below 50 ms times (budget - 1) |
| Store.RetryCommitsAtMostOnce | internal/store/transfer.go:160-182 | success is one serial transfer by the first attempt that did not conflict; any error leaves the tables unchanged |
| Store.ExhaustedExactlyWhenAllConflict | internal/store/transfer.go:166-181 | the budget is reported exhausted if and only if every attempt conflicts and nobody cancels |
| Store.RetryEndsOnce | internal/store/transfer.go:160-182 | the loop ends at the first attempt that does not fail with 40001 or 40P01, with that attempt's result or error, or exhausted after the last, or canceled after the first conflict the caller does not wait out |
| Store.OnceAnswers | internal/store/transfer.go:187-275 | one attempt without a fault is the serial transfer; a fault of a statement that is reached is its answer |
| Store.Store.RegisterUser | internal/store/users.go:58-93 | user and starter account appear together or not at all; a taken username is refused |
| Backoff.MaxDelayIsCappedDoubling | internal/store/transfer.go:40-44 | for every attempt, wrapping shifts included, the bound is min(50 ms, 1 ms * 2^(attempt-1)) and positive |
| Backoff.RetryBackoff | internal/store/transfer.go:40-46 | the delay is any value below that bound; the random draw never gets a non-positive argument |
| Uuids.UuidStringInjective | internal/store/users.go:169-175 | canonical printing of UUIDs is injective |
| Uuids.PrintingIsCanonical | internal/store/users.go:169-175 | 36 characters, hyphens at 8, 13, 18 and 23, every byte as two lower-case hexadecimal digits |
| Uuids.RankIsLexicographic | internal/store/sqlc/accounts.sql.go:81-87 | rows are ordered by their id bytes, the first that differ deciding |
| KeyStore.Cache.Set | internal/cache/redis.go:78-83 | stores the value with its deadline, forever if the ttl is not positive |
| KeyStore.Cache.Incr | internal/cache/redis.go:125-151 | increments, setting the deadline in whole milliseconds on the first increment only |
| KeyStore.Cache.SAdd | internal/cache/redis.go:171-183 | adds a member and renews the set's deadline |
| KeyStoreLaws.MillisRounds | internal/cache/redis.go:75-83 | rounding a positive ttl loses less than a millisecond and never leaves nothing |
| KeyStoreLaws.SetThenGet | internal/cache/redis.go:75-98 | a value is read back until its ttl is over, forever without one, and no other key changes |
| KeyStoreLaws.DelThenGet | internal/cache/redis.go:88-105 | a deleted key is missed, and no other key changes |
| KeyStoreLaws.SAddThenSMembers | internal/cache/redis.go:167-193 | a set lists what was added while it lasted, and nothing when it is missing or over, which is no error |
| KeyStoreLaws.IncrThenIncr | internal/cache/redis.go:119-151 | a counter starts at one, counts on for the whole milliseconds of its first ttl, and then starts again |
| KeyStoreLaws.SetThenTTL | internal/cache/redis.go:153-165 | the remaining time is read within half a second, in whole seconds, and zero without a deadline |
| KeyStoreLaws.FailuresChangeNothing | internal/cache/redis.go:75-193 | an operation the store does not answer is an error and changes nothing |
| Keys.FamiliesAreDisjoint | internal/auth/lockout.go:10-15 | keys of two families (session, index, counters, locks, limiter, reset) never coincide, for any suffixes |
| Sessions.Manager.CreateSession | internal/auth/auth.go:107-136 | the store afterwards: the session under the idle ttl, its id in the user's index under the absolute ttl, or the error of the first failing operation |
| Sessions.Manager.GetSession | internal/auth/auth.go:141-163 | miss, failure, expiry with deletion, or the stored session |
| Sessions.Manager.TouchSession | internal/auth/auth.go:169-178 | rewrites the session under the smaller of idle window and remaining lifetime, or deletes it when none remains |
| Sessions.Manager.RevokeUserSessions | internal/auth/auth.go:194-214 | on success exactly the listed sessions but the spared one, and the index when none is spared, are deleted; on failure nothing else is touched and the index stays |
| SessionRuns.AcceptedOnlyInTime | internal/auth/auth.go:141-224 | after any operations, store errors and touches with stale copies included, a session is accepted exactly when it is stored, the store answers, its age is at most the absolute cap, and less time than the smaller of the idle window and the rest of its lifetime, as the store keeps it, has passed since its last successful touch; what is handed out is the record created under that id, with the time of that touch |
| SessionRuns.AcceptedOnlyBeforeLimits | internal/auth/auth.go:165-178 | an accepted session is strictly before its last touch plus an idle window of at least a millisecond, and never past its cap; strictly before the cap unless touched within the last millisecond before it |
| SessionRuns.AcceptedWhileItLasts | internal/auth/auth.go:107-178 | a session whose creation reached the store and that nobody deletes is accepted until its cap exactly while the store answers and the time given at its last touch lasts |
| SessionRuns.RefusalsOfLoad | internal/auth/auth.go:141-163 | which error a load that fails answers; a session past its cap is dropped |
| SessionRuns.AcceptedAtTheCap | internal/auth/auth.go:156-178 | a run in which a session is accepted at its very cap, when its user's index is gone |
| SessionRuns.OperationKeepsHistory | internal/auth/auth.go:169-235 | every operation leaves under every session key the record created there, under a positive lifetime up to the nearer of the two limits, as the store keeps it, and hands out only such sessions |
| SessionRuns.IndexCoversLiveSessions | internal/auth/auth.go:107-136 | in every reachable state, whatever store operations failed, each live session whose creation succeeded is in its user's live index, which lasts until the session's cap |
| SessionRuns.PasswordChangeLeavesOneSession | internal/httpapi/auth_password.go:17-59 | after a change answered with a session, whatever store operations failed, that is the user's only live session of those whose creation succeeded, and nobody else's live sessions change |
| SessionRuns.PasswordResetLeavesNone | internal/httpapi/auth_password.go:95-128 | after a reset that succeeds the user has no live session of those whose creation succeeded and nobody else's change |
| SessionRuns.RevokeKeeps | internal/auth/auth.go:194-214 | bulk revocation that succeeds reaches every live session of the user whose creation succeeded but the spared one; successful or not, it changes no other |
| SessionRuns.AuthenticateKeeps | internal/httpapi/authmw.go:41-94 | the middleware prefix keeps the index invariant, and lets through only the live session its cookie names |
| SessionRuns.RequestsAreLetThrough | internal/httpapi/authmw.go:41-94 | in every reachable history a request is let through exactly when its cookie names an accepted session with time left, an unsafe one carries that session's CSRF token, and a required role is the session's; otherwise 403 for token and role, 401 for the rest |
| SessionRuns.RevocationsSucceed | internal/auth/auth.go:194-214 | without store errors every revocation succeeds, whether or not the user has an index |
| SessionRuns.LoginRotates | internal/httpapi/auth.go:144-184 | without store errors a login opens its session, drops the one its cookie named and changes no other |
| SessionRuns.LogoutEndsSession | internal/httpapi/auth.go:108-124 | a logout deletes the session its cookie names and no other, and answers 204 exactly when the store did it |
| SessionRuns.TouchKeeps | internal/auth/auth.go:169-178 | sliding a session that was just loaded keeps it covered by the index |
| Handlers.Server.Authenticate | internal/httpapi/authmw.go:41-94 | the middleware's statements compute the specified store and answer |
| Handlers.Server.PostAuthLogin | internal/httpapi/auth.go:63-106 | lock scan if there is a lockout, user lookup, password check, failure recording or reset, session rotation, each with its answer and the store after it |
| Handlers.Server.StartSession | internal/httpapi/auth.go:144-184 | the request's own session is dropped and a new one opened; an unparseable user id is an error after that |
| Handlers.Server.PostAuthPasswordChange | internal/httpapi/auth_password.go:17-59 | refusals and errors before the update change nothing; otherwise the password is replaced, it succeeds whenever no store operation fails, and success and later errors leave what the rotation and the revocation leave |
| Handlers.Server.ServePasswordChange | internal/httpapi/authmw.go:41-76 | middleware and handler together, with every answer; success is the specified protected request for the user whose session the cookie names |
| Handlers.Server.PostAuthLogout | internal/httpapi/auth.go:108-124 | the session is deleted, or the store's error is answered and nothing changes |
| Handlers.Server.PostAuthPasswordReset | internal/httpapi/auth_password.go:95-128 | refusals and errors before the update change nothing; otherwise the password is replaced, it succeeds whenever no store operation fails, with or without an index of the user, and success and later errors leave what the revocation leaves |
| Lockout.Lockout.Locked | internal/auth/lockout.go:57-79 | the loop over the lock keys computes the specified scan, failing open on store errors |
| Lockout.Lockout.RecordFailure | internal/auth/lockout.go:85-98 | both counters are bumped and locked at the maximum |
| Lockout.Lockout.Reset | internal/auth/lockout.go:102-112 | both counters and both locks are deleted |
| Lockout.Lockout.Unlock | internal/auth/lockout.go:118-128 | counter and lock of the username are deleted, up to the first store error |
| LockoutRuns.LocksFollowFailures | internal/auth/lockout.go:57-98 | over any run without store errors, a request is refused exactly while the last failure of its username or address, since that was last cleared by a successful login or an unlock, brought a count of the failures' times to the maximum or beyond less than the lock time ago |
| LockoutRuns.SuccessClears | internal/auth/lockout.go:102-112 | a successful login leaves no counter and no lock of its username and address, and all others as they were |
| LockoutRuns.UnlockClears | internal/auth/lockout.go:118-128 | an unlock leaves no counter and no lock of the username, and all others as they were |
| LockoutRuns.LockedFailsOpen | internal/auth/lockout.go:57-79 | a request whose lock keys cannot all be read is let through |
| LockoutRuns.UnreadableWaitIsTheLockTime | internal/auth/lockout.go:71-77 | a lock whose remaining time cannot be read is told the whole lock time |
| LockoutRuns.UncountedFailureIsIgnored | internal/auth/lockout.go:90-94 | a failure that cannot be counted sets no lock |
| LockoutRuns.ResetGoesOn | internal/auth/lockout.go:102-112 | a reset deletes every key whose own deletion works, whatever happens to the others |
| LockoutRuns.UnlockStops | internal/auth/lockout.go:118-128 | an unlock succeeds exactly when both deletions do, and touches nothing after an error |
| LockoutRuns.LockedMeansHeld | internal/auth/lockout.go:57-79 | without store errors a request is refused exactly when one of its locks is live, and is told the longest of them as the store rounds it, or the whole lock time when that is zero |
| LockoutRuns.WaitCoversUnlessRoundedDown | internal/auth/lockout.go:57-79 | in every run the wait exceeds the longest lock less half a second, and it and its Retry-After cover that lock exactly when the store did not round it down to a positive number of seconds |
| LockoutBound.WaitsCoverExactly | internal/cache/redis.go:153-165 | every Retry-After told in every run covers its longest lock if and only if locks last at most a second or failures can set none |
| LockoutBound.TinyWindowKeepsNothing | internal/cache/redis.go:125-151 | with a window below a millisecond and a maximum above one, no run ever keeps a counter or a lock |
| LockoutBound.WaitEndsBeforeLock | internal/cache/redis.go:153-165 | for every lock longer than a second that failures can set, a run in which the wait told ends before the lock |
| LockoutRuns.BumpAddsHit | internal/auth/lockout.go:90-98 | a failure on an unlocked subject counts up within the anchored window or starts a new one after it |
| LockoutBound.FailedChecksAreBounded | internal/auth/lockout.go:57-98 | for every configuration and run, any half-open interval one window long holds at most `Worst` failed password checks of a username or an address since it was last cleared |
| LockoutBound.WorstIsAttained | internal/auth/lockout.go:57-98 | for every configuration some run, from any start time, holds that many |
| LockoutBound.WorstIsExact | internal/config/config.go:355-363 | a bound holds in every run if and only if it is at least `Worst` |
| LockoutBound.EveryHistoryHappens | internal/auth/lockout.go:85-98 | every sequence of failures that respects the anchored windows and the locks is that of a run |
| LockoutBound.TwiceTheMaximumLessOne | internal/auth/lockout.go:57-98 | the bound `2 * max - 1` holds if and only if a lock lasts at least half a window, or a whole one when max is 1, windows below a millisecond aside |
| LockoutBound.WorstUnderLongLocks | internal/auth/lockout.go:57-98 | with locks of at least a window the most is one failure for a maximum of one, and two less than twice the maximum otherwise |
| LockoutBound.RollingWindow | internal/auth/lockout.go:47-49 | the maximum holds for a rolling window if and only if it is at most two and locks last at least a window, windows below a millisecond aside |
| LockoutBound.TinyWindowNeverLocks | internal/cache/redis.go:125-151 | with a window below a millisecond and a maximum above one, any number of failures at one instant sets no lock |
| RateLimit.Limiter.Allow | internal/ratelimit/ratelimit.go:77-103 | the store and the answer, header values and fail-open included |
| RateLimit.KeyInjective | internal/ratelimit/ratelimit.go:81 | for one limiter name, scope and window second are recovered from the key, though scopes may contain colons |
| RateLimit.DigitsAreDecimal | internal/ratelimit/ratelimit.go:81 | the window second is printed in decimal without leading zeros |
| RateLimit.KeyTellsWindowsApart | internal/ratelimit/ratelimit.go:79-81 | distinct aligned windows of at least a second have distinct keys |
| RateLimit.NamesCollideExactly | internal/ratelimit/ratelimit.go:81 | keys of two limiters can meet if and only if one name is the other or continues it after a colon |
| RateLimitRuns.AnswersMatchCounting | internal/ratelimit/ratelimit.go:77-103 | over any run of interleaved clock reads and increments, outages included, every answer is the one that counting the window's calls that arrived earlier gives, if and only if every counted increment but the first of its window arrives less than a window's length after that first one |
| RateLimitRuns.PunctualAnswersMatch | internal/ratelimit/ratelimit.go:77-103 | so every answer is right when no increment arrives after its window |
| RateLimitRuns.LateIncrementsMiscount | internal/ratelimit/ratelimit.go:78-83 | for every exact window, from any time on, a run that breaks that condition and is answered wrongly |
| RateLimitRuns.InexactWindowsMiscount | internal/config/config.go:372 | for every other positive window, from any time on, some run of two calls gets a wrong answer though no increment is late |
| RateLimitRuns.WindowAllowsTheFirstLimit | internal/ratelimit/ratelimit.go:89-102 | of k counted calls in a window exactly min(k, limit) are allowed |
| RateLimitRuns.AtMostTwiceTheLimit | internal/ratelimit/ratelimit.go:77-103 | any closed interval one window long lets at most twice the limit of counted calls through, under the same condition; calls let through by an outage are not counted |
| RateLimitRuns.RetryAfterReachesALaterWindow | internal/ratelimit/ratelimit.go:93-117 | waiting the reported Retry-After seconds or longer after a rejection lands in a later window, for every positive window that can be rounded up to seconds, however late the increments |
| Durations.SecondsRoundUp | internal/ratelimit/ratelimit.go:108-117 | the least positive number of seconds covering the duration, if and only if adding the rounding term does not wrap |
| Durations.Seconds | internal/auth/lockout.go:143-152 | the statements compute that function |
| Forwarded.WalkXff | internal/httpapi/proxy.go:97-116 | the in-place scanner shows the visitor exactly the reversed trimmed non-empty entries, up to the first stop |
| Forwarded.TrimSpaceTrims | internal/httpapi/proxy.go:107 | trimming cuts white space off both ends, all of it and nothing else |
| Forwarded.AsciiSpaces | internal/httpapi/proxy.go:107 | the ASCII white space is tab, line feed, vertical tab, form feed, carriage return and blank |
| Forwarded.SplitSeparates | internal/httpapi/proxy.go:100-106 | the comma parts of a header hold no comma, and joined by commas they are the header |
| Forwarded.VisitedAreTrimmedParts | internal/httpapi/proxy.go:97-116 | what the visitor is shown are trimmed comma parts that are not blank, and all of them if the walk never stops |
| Forwarded.WalkHeader | internal/httpapi/proxy.go:100-114 | the inner loop does so for one header |
| Forwarded.InAnyPrefix | internal/httpapi/proxy.go:119-126 | true exactly when some prefix contains the address |
| Forwarded.ClientFromXff | internal/httpapi/proxy.go:73-91 | the visitor's `found` is the client of the reversed entries |
| Forwarded.ClientIsFirstUntrusted | internal/httpapi/proxy.go:73-91 | the client is the parseable untrusted entry with only parseable trusted entries to its right, and there is none otherwise |
| Forwarded.SplittingIsIrrelevant | internal/httpapi/proxy.go:93-98 | a header list and its comma-join have the same entries |
| Forwarded.TextOnTheLeftIsIgnored | internal/httpapi/proxy.go:69-91 | once the walk has found the client or met garbage, earlier headers and text in front of the first header cannot change the outcome |

## Left out

- HTTP plumbing, routing, cookies, security headers, generated API code, the console, CLI, logging and TLS: no state of interest here.
- bcrypt, random token generation and constant-time comparison: foreign cryptography, replaced by equality and fresh ids.
- PostgreSQL and Redis internals: serialization failures that PostgreSQL raises for other reasons than a changed row appear as faults at any step.
- The delay of `HoldMs`, and every other passage of time inside a transaction; it only widens the windows that the interleaving already contains.
- Ids and timestamps of ledger rows, account names and update times; NULL UUIDs, which the columns forbid.
- Store.Store.Transfer: runs without other transactions between its attempts; the interleaved machine covers those.
- Store.Store.RegisterUser: password hash and role columns are not stored, and the database's draws of unique ids are parameters.
- The store's clock: it counts whole milliseconds, the model nanoseconds; only durations are rounded as the client library rounds them.
- KeyStore.Cache.Incr: counters are unbounded, so the store's error at 2^63 calls in one window is not modelled, and a value stored as text is never a number, for no key is both set and incremented.
- Lockout.Lockout.Locked: the remaining time it reads is rounded from nanoseconds, not from the whole milliseconds of the store's clock.
- SessionRuns.IndexCoversLiveSessions: takes each request as one step, and a failed store operation as one that changed nothing; interleaving the store operations of two requests is not modelled.
- LockoutBound.FailedChecksAreBounded: takes each login as one step, without store errors, and measures the window in the whole milliseconds the store keeps.
- RateLimitRuns.AnswersMatchCounting: one limiter name; `NamesCollideExactly` says which two names may meet in one key.
- Forwarded.ClientFromXff: address parsing, unmapping and prefix arithmetic are parameters, and strings are sequences of characters rather than UTF-8 bytes.
- The peer gate of the proxy middleware, the forwarded scheme, reset-token storage, admin listings, probes and echo endpoints: each is settled by reading one branch.
