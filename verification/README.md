# Verified models of the social app's stateful cores

Dafny models of the parts of this social app (a NestJS API and a Next.js client) that carry
invariants over whole runs, and proofs about every run, every input or every interleaving.

| file | models |
|---|---|
| `RateLimiter`, `RateLimiterRuns`, `AuthRateLimiter` | the Redis script over a counter and a block key, runs of timed calls, and the loop over several identifiers of a request |
| `Sessions`, `RefreshProtocol`, `RefreshTheorems`, `RefreshService` | sessions, refresh-token rotation with reuse detection as a transition system, and the service run through it |
| `PasswordReset` | superseding reset tokens and committing a reset |
| `GoogleLogin`, `GoogleLoginService` | find-or-create over unique keys with two nested recoveries |
| `Keyset`, `Chronology` | keyset pagination, over any total order and over (createdAt, id) |
| `Comments`, `CommentForest`, `CommentListing` | creation with materialised path and counters, the forest it keeps, listing by cursor |
| `Backfill`, `BackfillJob` | the feed backfill's nested loops against one comprehension |
| `Follows` | the follow graph and its counters under interleaved checks and writes |
| `Mentions` | the mention pattern, the splitter and the extractor |
| `Redaction`, `RedactionTheorems`, `RedactionStack`, `RedactionLaws` | log redaction over object graphs: which keys are sensitive, when the recursive traversal ends, and what it hides, reaches and keeps |
| `UnitOfWork` | nested units of work over an ambient transaction |
| `Reactions` | the client's optimistic reaction update |
| `Common`, `Texts` | shared types, trimming and lower-casing |

`dafny verify dfyconfig.toml` checks everything.

Code that updates state in place (the script, the repositories, the services, the backfill loops, the
splitter) is written as methods over class fields or local variables, each proved equal to a function
of the old state; lemmas then say what the source promises about that function.

## Assumptions

- One clock serves the API and Redis, and calls reach Redis in the order of their times. Whether a Redis
  key is still there in the very millisecond of its deadline is a parameter (`Expiry`); the theorems
  that depend on it say so.
- A transaction is one atomic step, undone as a whole by a throw; transactions are serial. A read
  outside a transaction is a step of its own, and other requests may commit before the next one. Only
  the follow graph goes further: its check and its write are separate steps even inside a transaction.
- Unique keys and foreign keys are those of `api/prisma/schema.prisma`: session hash and rotated hash
  (lines 399-440), reset-token hash (192-205), account e-mail (152-154), (provider, providerId)
  (207-225), follow (299-309), friendship (501-516), feed (792-803). No user follows themself (also a
  database check, `api/prisma/migrations/20260611090000_add_follow_no_self_check/migration.sql`).
- Hashes, tokens, e-mails and random ids are values that are only compared. That a new hash or id was
  not in use before is never built in: it is a stated hypothesis (`FreshRun`, `FreshTicket`), and
  `FreshnessIsExact`, `StoreErrorExactlyWhen` and `DuplicateExactlyWhen` say exactly what it is needed
  for.
- Google names one e-mail per provider id, where a theorem says so (`FirstLoginsShareOneAccount`).
- The database's collation of ids is some total order; user ids and comment ids are random UUIDs, so
  never empty, and comment ids hold no "/".

## Where the code does not keep a promise

- A refresh that loses its session to a logout, a sign-in on the same device, or mere expiry, between
  read and commit reports token reuse and signs the account out everywhere: `LostExactlyWhen` is the
  exact condition, `LogoutRaisesReuseAlarm`, `AlarmIsReachable` and `QuietRefresh` show it.
- Two refresh tokens signed in the same second for one account are equal, since nothing random goes
  into them. A rotated hash then becomes a current one again, by a rotation or by a sign-in:
  `FreshnessIsExact` is the exact condition over whole runs, `JamIsReachable` and
  `JamAtBirthIsReachable` are inputs. Such a session can never be refreshed again: `JammedForEver`.
- For the same reason a Google login can end in a duplicate error that no race explains, when it draws
  the token of another sign-in: `DuplicateExactlyWhen` says exactly when, `TakenTicketFails` that it
  happens; with fresh draws it never does (`FreshRunsNeverFail`).
- One reset token can reset a password twice if both requests read it before either commits:
  `UsedTokenResetsExactlyWhen` is the exact condition, `TwoResetsOfOneToken` an example that
  `TwoResetsAreReachable` reaches; presented after its use it never does: `UsedTokenNeverResets`.
- If Redis keeps a key through the millisecond of its deadline, a client that retries exactly when told
  to can be refused for ever: `LockoutWithoutEnd`; `SpentCounterReopens` is the exact condition.
- A unit of work inside another one is not undone by its own throw if that is caught between the two:
  `ThrownWorkIsUndoneExactlyWhen`, `CaughtInnerWritesAreCommitted`.
- Log redaction recurses without end, and so overflows the stack, on a cycle of arrays alone: exactly
  then, by `EndsExactlyWhen`.
- On counters that are no correct tally the optimistic update is not always undone by clicking back:
  `ClickingBackRestoresExactlyWhen`.

## Model

| member | source | states |
|---|---|---|
| `RateLimiter.KeyPair.Run` | api/src/infrastructure/rate-limiting/redis-rate-limiter.ts:19-50 | command by command, the script leaves both keys and replies as the outcome-by-outcome step says: a block that is still running answers alone, a first call opens an epoch, an overrun blocks and never shortens the counter |
| `RateLimiter.KeyPair.Consume` | api/src/infrastructure/rate-limiting/redis-rate-limiter.ts:57-83 | a call is accepted, or rejected with the script's retry time and its whole seconds |
| `RateLimiterRuns.WindowBound` | api/src/infrastructure/rate-limiting/redis-rate-limiter.ts:28-50 | in every run from every state the script can leave, any windowMs milliseconds admit at most 2 * limit - 1 calls (none for limit 0): sharper than twice the limit |
| `RateLimiterRuns.WindowBoundIsMet` | api/src/infrastructure/rate-limiting/redis-rate-limiter.ts:28-36 | the bound cannot be improved: for every limit there is a run that reaches it |
| `RateLimiterRuns.EpochStep` | api/src/infrastructure/rate-limiting/redis-rate-limiter.ts:28-48 | where a key is gone at its deadline, or no call arrives on one, every call keeps the bound of the current epoch, or opens a new one: the counter deadline stays below epoch start + windowMs + blockMs, and if it has moved a block ends with it |
| `RateLimiterRuns.DeadlineMovesOnce` | api/src/infrastructure/rate-limiting/redis-rate-limiter.ts:38-45 | under the same condition, within an epoch, however many calls arrive, the counter deadline moves at most once, and not at all once it has moved |
| `RateLimiterRuns.LockoutIsBounded` | api/src/infrastructure/rate-limiting/redis-rate-limiter.ts:38-48 | however a client retries, an unbroken stretch of refusals spans at most windowMs + blockMs - 2 milliseconds, given that a key is gone at its deadline or that no call arrives on one |
| `RateLimiterRuns.SpentCounterReopens` | api/src/infrastructure/rate-limiting/redis-rate-limiter.ts:19-36 | that side condition is exact: a spent counter whose deadline has come admits the call if and only if the call does not hit a deadline the key lasts through |
| `RateLimiterRuns.LockoutWithoutEnd` | api/src/infrastructure/rate-limiting/redis-rate-limiter.ts:19-22 | without it the lockout has no bound, under any policy: a client that overruns the limit and then retries at each retry time is refused any number of times |
| `RateLimiterRuns.RetryTimeIsHonest` | api/src/infrastructure/rate-limiting/redis-rate-limiter.ts:19-22 | retries before the advertised time are refused and change nothing; the first one after a fresh refusal passes exactly when the counter is gone |
| `RateLimiterRuns.RetryTimeIsBlockEnd` | api/src/infrastructure/rate-limiting/redis-rate-limiter.ts:38-47 | the retry time of a refusal is the time until which the keys block, blockMs from a call that overruns the limit on |
| `RateLimiterRuns.BlockWithoutExpiryIsLifted` | api/src/infrastructure/rate-limiting/redis-rate-limiter.ts:24-26 | a block without expiry blocks nobody: the next call goes as if there were none |
| `RateLimiterRuns.RetryAfterIsLeast` | api/src/infrastructure/rate-limiting/redis-rate-limiter.ts:79-83 | the advertised seconds are the least positive whole number that reaches the retry time |
| `AuthRateLimiter.IdentifiersAreDistinct` | api/src/modules/auth/infrastructure/rate-limiting/redis-auth-rate-limiter.ts:40-54 | no identifier of a request is charged twice, so removing duplicates removes nothing |
| `AuthRateLimiter.IdentifiersAreOrdered` | api/src/modules/auth/infrastructure/rate-limiting/redis-auth-rate-limiter.ts:41-51 | the address comes first, the subject before the device |
| `AuthRateLimiter.AddressesAreMatched` | api/src/modules/auth/infrastructure/rate-limiting/redis-auth-rate-limiter.ts:41 | two requests are charged to one address key if and only if their addresses agree up to surrounding white space or neither has one (where one that reads "unknown" is none) |
| `AuthRateLimiter.SubjectsAreMatchedLoosely` | api/src/modules/auth/infrastructure/rate-limiting/redis-auth-rate-limiter.ts:42-47 | to one subject key if and only if neither subject is absent or blank and they agree up to case and surrounding white space |
| `AuthRateLimiter.DevicesAreMatched` | api/src/modules/auth/infrastructure/rate-limiting/redis-auth-rate-limiter.ts:43-51 | to one device key if and only if neither device id is absent or blank and they agree up to surrounding white space |
| `AuthRateLimiter.StrangersAreUntouched` | api/src/modules/auth/infrastructure/rate-limiting/redis-auth-rate-limiter.ts:27-75 | charging a request leaves every key of another that shares none of the three as it was |
| `AuthRateLimiter.AuthLimiter.AssertAllowed` | api/src/modules/auth/infrastructure/rate-limiting/redis-auth-rate-limiter.ts:27-38 | the loop charges the identifiers in order, each at its own time and on the keys that other requests have left by then, and stops at the first refusal |
| `AuthRateLimiter.ChargeEffect` | api/src/modules/auth/infrastructure/rate-limiting/redis-auth-rate-limiter.ts:27-38 | undisturbed, a request passes if and only if each identifier alone admits it at its time; an identifier takes one step exactly when all before it admit, and no other key changes; a refusal names the retry time of the first identifier that refuses and the fewest whole seconds that reach it |
| `AuthRateLimiter.QuietRunIsCharge` | api/src/modules/auth/infrastructure/rate-limiting/redis-auth-rate-limiter.ts:27-38 | a request whose charges nothing comes between runs in the interleaved system as the loop does |
| `AuthRateLimiter.AdmittedByIsAdmitted` | api/src/modules/auth/infrastructure/rate-limiting/redis-auth-rate-limiter.ts:31-75 | however requests interleave between their charges, those that an identifier admits in a stretch of time are among the calls its own keys admit then |
| `AuthRateLimiter.RequestWindowBound` | api/src/modules/auth/infrastructure/rate-limiting/redis-auth-rate-limiter.ts:27-75 | the single-key bound holds for whole requests under every interleaving of their charges: a request that passes was admitted by each of its identifiers, and fewer than twice the limit are admitted per window by any one identifier, whatever the others do |
| `Sessions.IssueEffect` | api/src/modules/auth/application/services/login.service.ts:111-126 | a sign-in adds one active row under a new id and an unused hash and leaves every other row's hash and owner alone |
| `Sessions.SignInReplacesItsDeviceOnly` | api/src/modules/auth/infrastructure/persistence/prisma-session.repository.ts:79-105 | a sign-in revokes, at once and for its reason, exactly the active sessions of its account on its own named device; every other row stays as it was |
| `Sessions.SessionLifetime` | api/src/modules/auth/domain/entities/session.entity.ts:12-18 | a session is active from its sign-in until just before its expiry, a rotation sets that anew, and a revoked one is active at no time |
| `Sessions.SessionRepository.Create` | api/src/modules/auth/infrastructure/persistence/prisma-session.repository.ts:24-37 | a row is inserted unless its id or hash is taken |
| `Sessions.SessionRepository.FindByRefreshTokenHash` | api/src/modules/auth/infrastructure/persistence/prisma-session.repository.ts:39-54 | the one session with the hash, or none |
| `Sessions.RotationIsFound` | api/src/modules/auth/infrastructure/persistence/prisma-session.repository.ts:56-77 | the look-ups undo a rotation: afterwards the old hash leads to the session as a rotated one, the new hash as its current one, and the old one is current nowhere unless the new one equals it |
| `Sessions.RevokedDeviceStaysOut` | api/src/modules/auth/infrastructure/persistence/prisma-session.repository.ts:79-105 | exactly the active sessions of the account and device are revoked, nothing else changes, none of them is active at any later time, and revoking again changes nothing |
| `Sessions.RevokedAccountStaysOut` | api/src/modules/auth/infrastructure/persistence/prisma-session.repository.ts:107-131 | the same for all active sessions of the account |
| `Sessions.RevokedHashStaysOut` | api/src/modules/auth/infrastructure/persistence/prisma-session.repository.ts:194-215 | the one session with the hash ends up revoked, expired or not, nothing else changes, and a revoked one is not marked twice |
| `Sessions.SessionRepository.RotateRefreshToken` | api/src/modules/auth/infrastructure/persistence/prisma-session.repository.ts:133-192 | the conditional update and the record of the old hash happen together or, on a clash with a unique key, not at all; a session no longer current is left alone |
| `Sessions.SessionRepository.IssueSession` | api/src/modules/auth/application/services/device-session.service.ts:18-34 | replace-then-create is one transaction: a taken id or hash undoes the replacement too; an absent or empty device id replaces nothing |
| `RefreshProtocol.RotationEffect` | api/src/modules/auth/infrastructure/persistence/prisma-session.repository.ts:149-192 | what a successful rotation changes: one session takes the new hash and expiry, the old hash joins the rotated ones, everything else stays |
| `RefreshProtocol.NextKeepsInv` | api/src/modules/auth/application/services/refresh-token.service.ts:70-127 | every single event, fresh hashes or not, keeps the unique keys, each session's chain of hashes and what every in-flight refresh has learned |
| `RefreshProtocol.RunKeepsInv` | api/src/modules/auth/application/services/refresh-token.service.ts:70-127 | so does every interleaved run of refreshes, sign-ins, logouts, resets and account changes |
| `RefreshTheorems.RotatedAtMostOnce` | api/src/modules/auth/infrastructure/persistence/prisma-session.repository.ts:161-191 | in every run from every world, fresh hashes or not, no two successful rotations take the same hash |
| `RefreshTheorems.FreshRunsAreLinear` | api/src/modules/auth/infrastructure/persistence/prisma-session.repository.ts:161-191 | over every run from the start: each session's hashes form one chain without repeats that ends at the current hash, chains are disjoint, the rotated hashes are exactly the chains without their ends, and none of them is current anywhere, if and only if every hash brought into the store was fresh |
| `RefreshTheorems.FreshnessIsExact` | api/src/modules/auth/infrastructure/persistence/prisma-session.repository.ts:24-37 | over every run, from any world where it holds: no rotated hash is a current one if and only if no sign-in and no rotation brought in a hash that had been in use |
| `RefreshTheorems.RepeatedTokenJamsSession` | api/src/modules/auth/infrastructure/services/jwt.service.ts:26-35 | in every world, a rotation leaves its session's current hash among the rotated ones if and only if the new hash was in use before |
| `RefreshTheorems.RepeatedTokenJamsNewSession` | api/src/modules/auth/application/services/login.service.ts:106-126 | in every world, a sign-in creates such a session if and only if its hash had been rotated away, which the unique key on current hashes does not stop |
| `RefreshTheorems.JamIsReachable` | api/src/modules/auth/infrastructure/services/jwt.service.ts:26-35 | the first happens from the start: a session created and refreshed with an equal token |
| `RefreshTheorems.JamAtBirthIsReachable` | api/src/modules/auth/application/services/login.service.ts:106-126 | the second too, though every rotation is fresh: a second sign-in brings the token of the first one, refreshed meanwhile |
| `RefreshTheorems.JammedForEver` | api/src/modules/auth/infrastructure/persistence/prisma-session.repository.ts:161-191 | from then on, in every run, that session keeps its hash and is never rotated again |
| `RefreshTheorems.StoreErrorExactlyWhen` | api/src/modules/auth/infrastructure/persistence/prisma-session.repository.ts:161-191 | a refresh that has passed its checks fails on a unique key if and only if its session still has the hash and is active, and that hash is a rotated one or another session has the new hash |
| `RefreshTheorems.InactiveForEver` | api/src/modules/auth/domain/entities/session.entity.ts:12-18 | once revoked or expired a session is inactive in the rest of every run, and a revoked row never changes again |
| `RefreshTheorems.OneActivePerDeviceAlways` | api/src/modules/auth/application/services/device-session.service.ts:18-34 | in every run an account has at most one active session per device, although rotation extends expiry and expired rows stay unrevoked |
| `RefreshTheorems.SignInLeavesOthers` | api/src/modules/auth/application/services/device-session.service.ts:18-34 | in the interleaved system a sign-in leaves every session of another account, of another device or of none, and every inactive one, as it was |
| `RefreshTheorems.OutcomeDeterminesStore` | api/src/modules/auth/application/services/refresh-token.service.ts:58-133 | success changes one session and adds one rotated hash; reuse leaves no active session on the account and touches nothing else; every other outcome leaves the store unchanged |
| `RefreshTheorems.LostExactlyWhen` | api/src/modules/auth/application/services/refresh-token.service.ts:110-126 | in every reachable world a rotation is taken for reuse if and only if its session no longer has the hash, or was revoked or ran out, since it was read; a hash it no longer has was rotated away, and where no rotated hash is current a rotated one is one it no longer has |
| `RefreshTheorems.LogoutRaisesReuseAlarm` | api/src/modules/auth/application/services/logout.service.ts:19-28 | so a plain logout between the two awaits of a refresh makes it report reuse and revoke the account's other sessions, though nothing was rotated |
| `RefreshTheorems.AlarmIsReachable` | api/src/modules/auth/application/services/logout.service.ts:19-28 | which happens from the start, in a run that rotates no token at all |
| `RefreshTheorems.ReplayNeverPasses` | api/src/modules/auth/application/services/refresh-token.service.ts:142-162 | in every fresh run the refresh of a hash already rotated away is still pending or ended with reuse detected |
| `RefreshTheorems.ReplaySignsOutEverywhere` | api/src/modules/auth/application/services/refresh-token.service.ts:142-171 | two awaits end it: with reuse detected and every session of the account revoked or run out when the hash was rotated by a session of the account the token names, with an invalid token and the store unchanged when it was another account's |
| `RefreshTheorems.ReuseIsDetected` | api/src/modules/auth/application/services/refresh-token.service.ts:142-171 | from the rotation on: whenever a refresh has rotated a hash away, and whatever fresh run follows, presenting it for the same account ends with reuse detected and the account signed out everywhere; presenting it for any other account ends with an invalid token and changes nothing |
| `RefreshTheorems.ReuseIsReachable` | api/src/modules/auth/application/services/refresh-token.service.ts:142-171 | which a run from the start reaches |
| `RefreshService.RefreshTokenService.RevokeSessionsAfterReuse` | api/src/modules/auth/application/services/refresh-token.service.ts:164-171 | no session of the account is active at any later time, exactly those that were active are marked with the reason, and nothing else changes |
| `RefreshService.RefreshTokenService.HandleMissingCurrentSession` | api/src/modules/auth/application/services/refresh-token.service.ts:142-162 | reuse is reported, and the account signed out, exactly when this account rotated the hash |
| `RefreshService.RefreshTokenService.Execute` | api/src/modules/auth/application/services/refresh-token.service.ts:50-133 | the service as written goes through the awaits of the transition system one after the other |
| `RefreshService.QuietRefresh` | api/src/modules/auth/application/services/refresh-token.service.ts:50-133 | undisturbed, in every store with its unique keys: a refresh succeeds if and only if the token is current in a session, active until the commit, of an enabled account, and no unique key is taken; it fails on a key if and only if one is; it reports reuse if and only if the token is current nowhere and a session of the named account rotated it, or the session runs out between read and commit; the whole store it leaves follows from the outcome |
| `RefreshService.LogoutService.Execute` | api/src/modules/auth/application/services/logout.service.ts:19-28 | a logout with a token revokes exactly the unrevoked session that has it, one without changes nothing |
| `PasswordReset.PasswordResetTokenRepository.Create` | api/src/modules/auth/infrastructure/persistence/prisma-password-reset-token.repository.ts:25-37 | a token is stored unless its id or hash is taken |
| `PasswordReset.SupersededTokensAreSpent` | api/src/modules/auth/infrastructure/persistence/prisma-password-reset-token.repository.ts:39-56 | superseding leaves the account no token that is usable at any time, and changes no other token and no time of an earlier use |
| `PasswordReset.PasswordResetTokenRepository.FindByTokenHash` | api/src/modules/auth/infrastructure/persistence/prisma-password-reset-token.repository.ts:58-68 | the one token with the hash, or none |
| `PasswordReset.MarkedTokenIsSpent` | api/src/modules/auth/infrastructure/persistence/prisma-password-reset-token.repository.ts:70-84 | a token marked used is still found by its hash but usable at no time, and no other token changes |
| `PasswordReset.PasswordResetTokenRepository.Request` | api/src/modules/auth/application/services/request-password-reset.service.ts:80-93 | superseding the old tokens and storing the new one happen together or not at all |
| `PasswordReset.IssuedTokenIsFound` | api/src/modules/auth/application/services/request-password-reset.service.ts:80-93 | afterwards the new hash leads to the new token, usable until it runs out and the only usable one of the account |
| `PasswordReset.ResetPasswordService.Execute` | api/src/modules/auth/application/services/reset-password.service.ts:42-95 | a reset goes through exactly for a usable token of an enabled account, and then sets the password, spends the token and signs out the account; otherwise nothing changes |
| `PasswordReset.TokensAlways` | api/src/modules/auth/application/services/request-password-reset.service.ts:80-93 | in every interleaved run an account has at most one unused token, and a used token stays used, on its account and hash |
| `PasswordReset.ResetSignsOutEverywhere` | api/src/modules/auth/application/services/reset-password.service.ts:76-94 | the commit of a reset leaves no active session on the account and its token used; no other await of a reset changes anything |
| `PasswordReset.QuietReset` | api/src/modules/auth/application/services/reset-password.service.ts:42-95 | undisturbed, the awaits of a reset go through if and only if the token exists, is unused and has not run out, and its account exists and is enabled; they then set the password, spend the token and revoke exactly the account's active sessions, and otherwise change nothing |
| `PasswordReset.UsedTokenNeverResets` | api/src/modules/auth/application/services/reset-password.service.ts:52-64 | a token presented after its use never resets anything, in any run |
| `PasswordReset.UsedTokenResetsExactlyWhen` | api/src/modules/auth/application/services/reset-password.service.ts:54-94 | a used token of an existing account can still be the one a given reset goes through with, by some continuation, if and only if that reset is under way and had read the token before it was used |
| `PasswordReset.TwoResetsOfOneToken` | api/src/modules/auth/infrastructure/persistence/prisma-password-reset-token.repository.ts:70-84 | for example, of two resets past their checks on one token both go through, and the later password stands |
| `PasswordReset.TwoResetsAreReachable` | api/src/modules/auth/application/services/reset-password.service.ts:54-94 | which happens from the start, with one token and two requests |
| `GoogleLogin.AwaitsRunOut` | api/src/modules/auth/application/services/google-login.service.ts:88-232 | every await brings a login nearer to its end, at most eight in all, whatever other requests do |
| `GoogleLogin.RegisterTxEffect` | api/src/modules/auth/application/services/google-login.service.ts:128-155 | registering commits account, link and session together, and with fresh ids fails exactly when the e-mail or the provider id is taken |
| `GoogleLogin.IssueTxEffect` | api/src/modules/auth/application/services/google-login.service.ts:251-275 | a session is issued to its account unless its id or hash is taken |
| `GoogleLogin.LinkTxEffect` | api/src/modules/auth/application/services/google-login.service.ts:110-121 | linking an account found by e-mail commits link and session together, or neither, and fails exactly on a taken key |
| `GoogleLogin.StepKeeps` | api/src/modules/auth/application/services/google-login.service.ts:88-232 | one await, whatever ids and token it draws, keeps the keys and what the login relies on: whom it found, or that a key was taken, by someone else or by its own draw |
| `GoogleLogin.NextKeepsInv` | api/src/modules/auth/application/services/google-login.service.ts:88-232 | every event of an interleaved run keeps that for all logins, and no account, link or session goes away or changes owner |
| `GoogleLogin.LoginsAgree` | api/src/modules/auth/application/services/google-login.service.ts:88-232 | in every interleaved run, fresh draws or not, all logins of one Google identity that succeed reach one account, and each session issued belongs to the account linked to the identity |
| `GoogleLogin.DuplicateExactlyWhen` | api/src/modules/auth/application/services/google-login.service.ts:156-231 | in every interleaved run, fresh draws or not, a login ends in a duplicate error if and only if a recovery issues its session with a taken id or hash, or the e-mail look-up finds none after its own registration drew a taken id or hash, or the last look-up finds no link after its own linking drew one |
| `GoogleLogin.TakenTicketFails` | api/src/modules/auth/application/services/google-login.service.ts:156-231 | which happens: undisturbed and with no account disabled, a login of an identity not linked yet ends so from every stage on when the session it draws is taken |
| `GoogleLogin.FreshRunsNeverFail` | api/src/modules/auth/application/services/google-login.service.ts:88-232 | with fresh draws no login ever ends in a duplicate error, whatever races it loses |
| `GoogleLogin.TurnedAwayExactlyWhen` | api/src/modules/auth/application/services/google-login.service.ts:96-242 | in every interleaved run a login is turned away if and only if one of its look-ups finds an account that is disabled at that moment, the one linked to the identity or the one with its e-mail |
| `GoogleLogin.DisabledEvent` | api/src/modules/auth/application/services/google-login.service.ts:234-242 | the await that turns it away, and every later one, leaves accounts, links and sessions as they are |
| `GoogleLogin.EnabledWhenFound` | api/src/modules/auth/application/services/google-login.service.ts:96-242 | a login comes to stand before a transaction on a known account only by a look-up that saw it enabled |
| `GoogleLogin.FirstLoginsShareOneAccount` | api/src/modules/auth/application/services/google-login.service.ts:128-232 | with fresh draws, no account disabled and one e-mail per provider id: however many first logins of an identity race, with each other and with password sign-ups for the e-mail, each that has run its awaits is logged in on the only account there is for the e-mail |
| `GoogleLogin.StartIsOrdinary` | api/prisma/schema.prisma:152-175 | an empty database is such a start, whatever e-mails Google names |
| `GoogleLoginService.Service.FindByEmail` | api/src/modules/auth/infrastructure/persistence/prisma-auth-account.repository.ts:44-57 | the one account with the e-mail, or none |
| `GoogleLoginService.Service.FindByOAuthAccount` | api/src/modules/auth/infrastructure/persistence/prisma-auth-account.repository.ts:59-85 | a look-up by provider id sees what others have committed by then and tells a missing, a disabled and an open account apart |
| `GoogleLoginService.Service.FindAccountByEmail` | api/src/modules/auth/application/services/google-login.service.ts:103-108 | so does the look-up by e-mail, in the first attempt and in the recovery |
| `GoogleLoginService.Service.Transact` | api/src/modules/auth/application/services/google-login.service.ts:98-155 | a transaction of any stage completes the login, or leaves the store others left and hands over to the stage that recovers from a taken key |
| `GoogleLoginService.Service.LinkAndIssue` | api/src/modules/auth/infrastructure/persistence/prisma-auth-account.repository.ts:103-120 | link and session are rolled back together |
| `GoogleLoginService.Service.RegisterAndIssue` | api/src/modules/auth/infrastructure/persistence/prisma-auth-account.repository.ts:87-101 | account, link and session are rolled back together |
| `GoogleLoginService.Service.IssueSession` | api/src/modules/auth/application/services/google-login.service.ts:251-275 | the device's session is replaced and the new one created, or nothing |
| `GoogleLoginService.Service.Attempt` | api/src/modules/auth/application/services/google-login.service.ts:88-157 | the first attempt ends the login or hands over to the recovery at the right await |
| `GoogleLoginService.Service.RecoverDuplicateLogin` | api/src/modules/auth/application/services/google-login.service.ts:169-232 | so does the recovery, whatever is committed in between |
| `GoogleLoginService.Service.RecoverByEmail` | api/src/modules/auth/application/services/google-login.service.ts:187-213 | and its second half, for an identity nobody has linked yet |
| `GoogleLoginService.Service.RecoverLinkedMeanwhile` | api/src/modules/auth/application/services/google-login.service.ts:210-231 | and the recovery inside it |
| `GoogleLoginService.Service.Execute` | api/src/modules/auth/application/services/google-login.service.ts:76-166 | the whole service takes the awaits of the transition system, each on the store that other requests have left by then |
| `GoogleLoginService.QuietLogin` | api/src/modules/auth/application/services/google-login.service.ts:76-166 | undisturbed and with fresh draws: a login is turned away, and changes nothing, if and only if the linked account is disabled, or there is no link and the account with the e-mail is; otherwise it is let in on that account or a new one, the identity ends up linked to it, one session is added, the one on the same device revoked, and nothing else changes |
| `Keyset.Select` | api/prisma/backfill-feed.ts:84-110 | taking the least remaining row n times is the query: the first n rows after the cursor in index order |
| `Keyset.SortedHolds` | api/src/modules/comments/infrastructure/persistence/prisma-comment.repository.ts:128-137 | index order lists every row once, ascending |
| `Keyset.SortedIsUnique` | api/src/modules/comments/infrastructure/persistence/prisma-comment.repository.ts:128-137 | and is the only such list |
| `Keyset.PageAdvances` | api/prisma/backfill-feed.ts:46-66 | a page that is not empty adds exactly its rows to those already passed, and leaves fewer |
| `Keyset.ShortPageIsLast` | api/prisma/backfill-feed.ts:191-193 | a page shorter than asked for leaves nothing behind |
| `Chronology.FetchHolds` | api/src/modules/comments/infrastructure/persistence/prisma-comment.repository.ts:138-158 | a fetch of limit + 1 rows returns, in order, exactly the first rows after its cursor, as many as the limit or all there are, up to the next cursor, which is null exactly when nothing is left |
| `Chronology.ListAllIsComplete` | api/src/modules/comments/infrastructure/persistence/prisma-comment.repository.ts:111-158 | following the cursors to null lists every row after the start once, in order, for every limit from 1 |
| `Chronology.CrawlHolds` | api/src/modules/comments/infrastructure/persistence/prisma-comment.repository.ts:111-158 | whatever is inserted or removed between the fetches, nothing is listed twice or out of order, and at the end everything that was there all along has been listed |
| `Comments.NormalizeLimit` | api/src/modules/comments/domain/value-objects/comment-list-query.value-object.ts:46-61 | a missing or NaN limit is the default, a whole one in range stands, everything else is refused |
| `Comments.CommentRepository.Insert` | api/src/modules/comments/infrastructure/persistence/prisma-comment.repository.ts:39-97 | the row and the counters are written together, or the store is as before with the first error that applies: invisible post, missing parent, too deep, taken id, missing statistics |
| `Comments.CreateExactlyWhen` | api/src/modules/comments/infrastructure/persistence/prisma-comment.repository.ts:43-51 | each error and success in plain terms: the post is there, neither deleted nor hidden, and public or the author's own; the parent, if named, is a shown comment of that post, at depth below 10; the id is new; the post has statistics |
| `Comments.CreatedRow` | api/src/modules/comments/infrastructure/persistence/prisma-comment.repository.ts:53-87 | the row written has the draft's author, post and parent, and nothing but it and the two counters changes |
| `Comments.VisibilityHolds` | api/src/modules/comments/infrastructure/persistence/prisma-comment.repository.ts:184-253 | deleted and hidden posts are visible to nobody, other public ones to everybody, the rest to their author alone |
| `Comments.CommentRepository.FindPage` | api/src/modules/comments/infrastructure/persistence/prisma-comment.repository.ts:99-166 | a page of the shown comments of a visible post, newest first, or of the replies to a shown parent, oldest first, with its next cursor |
| `CommentForest.RunKeeps` | api/src/modules/comments/infrastructure/persistence/prisma-comment.repository.ts:45-87 | every run of creations and moderation keeps a forest, with depth at most 10, parents on the same post, a reply count per comment and a comment count per post that are exact |
| `CommentForest.NextKeeps` | api/src/modules/comments/infrastructure/persistence/prisma-comment.repository.ts:45-87 | so does every single creation, successful or not, and every moderation |
| `CommentForest.PathTellsDepthAndRoot` | api/src/modules/comments/infrastructure/persistence/prisma-comment.repository.ts:52-70 | the depth is the number of separators of the path, and the root its first segment, a comment without parent on the same post |
| `CommentForest.EmptyIsSound` | api/src/modules/comments/infrastructure/persistence/prisma-comment.repository.ts:39-97 | an empty store is a sound start |
| `CommentForest.PathIsAncestry` | api/src/modules/comments/infrastructure/persistence/prisma-comment.repository.ts:52-70 | a comment is another or an ancestor of it if and only if the other's path is its path or continues it after a separator |
| `CommentForest.CommentCountIsRootsPlusReplies` | api/src/modules/comments/infrastructure/persistence/prisma-comment.repository.ts:72-87 | a post's comment count is its root comments plus the sum of all reply counts under it |
| `CommentListing.PagesListEverything` | api/src/modules/comments/infrastructure/persistence/prisma-comment.repository.ts:111-158 | pages of any size concatenate to every matching comment that is neither deleted nor hidden, once each; down a list of comments on a post the times never rise, down a list of replies they never fall, equal times going by id |
| `CommentListing.WritesNeverDisturbListing` | api/src/modules/comments/infrastructure/persistence/prisma-comment.repository.ts:111-158 | comments created between the fetches never cause a repeat, a break in the order, or the loss of one that was there at the start |
| `Backfill.AudienceIsGrounded` | api/prisma/backfill-feed.ts:112-134 | a post is due to a user exactly when the user has a ground for it: author, friend unless private, follower if public |
| `Backfill.BackfilledHolds` | api/prisma/backfill-feed.ts:39-253 | afterwards the rows are the old ones plus exactly those with a ground; new rows carry the first ground in the order AUTHOR, FRIEND_ACTIVITY, FOLLOWING; old rows keep their reason unless they lacked the author's |
| `Backfill.BackfilledPlainly` | api/prisma/backfill-feed.ts:39-253 | the same without naming grounds: a new row is for a post neither deleted nor hidden and goes to its author, to friends on either side unless the post is private, or to followers if it is public, and every such row is there |
| `Backfill.SecondRunIsIdle` | api/prisma/backfill-feed.ts:39-253 | a second run adds nothing and changes nothing |
| `Backfill.OfferedInTurnIsDelivered` | api/prisma/backfill-feed.ts:112-147 | offering a post to author, both friend sides and followers in turn, skipping rows already there, gives each user the first ground |
| `Backfill.DeliveredOneMore` | api/prisma/backfill-feed.ts:46-55 | delivering posts one at a time is delivering them all at once |
| `Backfill.MarkedHolds` | api/prisma/backfill-feed.ts:73-82 | afterwards every row of a post's own author has a reason, AUTHOR where it had none, all other rows are as before, and marking again changes nothing |
| `BackfillJob.Job.CreateFeedItems` | api/prisma/backfill-feed.ts:235-253 | rows already there are skipped, and the count is the growth |
| `BackfillJob.Job.BackfillRecipients` | api/prisma/backfill-feed.ts:149-233 | the cursor loop offers the post to every user of the column exactly, for every batch size, and ends |
| `BackfillJob.Job.BackfillFriendRecipients` | api/prisma/backfill-feed.ts:136-147 | both sides of the friendships are covered, and the counts add up |
| `BackfillJob.Job.BackfillPost` | api/prisma/backfill-feed.ts:112-134 | one post is delivered to its audience, and the count is the growth |
| `BackfillJob.Job.BackfillPage` | api/prisma/backfill-feed.ts:53-55 | a page of posts is delivered on top of those before it |
| `BackfillJob.Job.RunBackfill` | api/prisma/backfill-feed.ts:39-71 | for every pair of positive batch sizes the job ends with the feed of the one comprehension; it reports as many posts as are neither deleted nor hidden and as many rows as the feed grew by |
| `Texts.TrimHolds` | api/src/modules/follows/domain/value-objects/follow-pair.value-object.ts:11-12 | trimming takes white space off both ends and nothing else |
| `Texts.SpacesAreSpaces` | api/src/modules/follows/domain/value-objects/follow-pair.value-object.ts:11-12 | blanks and line ends are white space, printing ASCII characters are not |
| `Texts.LowerHolds` | web/src/shared/ui/mentionText.tsx:64 | lower-casing takes each capital ASCII letter to its small one and leaves the rest |
| `Follows.CreatePair` | api/src/modules/follows/domain/value-objects/follow-pair.value-object.ts:10-31 | a pair has two trimmed, non-empty, different ids; it is refused as a self-follow exactly when both trim to the same non-empty id, and as incomplete exactly when one is blank |
| `Follows.FollowRepository.UpdateFollowCounts` | api/src/modules/follows/infrastructure/persistence/prisma-follow.repository.ts:186-205 | both counters move by the amount, or a missing row is reported |
| `Follows.FollowRepository.Follow` | api/src/modules/follows/infrastructure/persistence/prisma-follow.repository.ts:31-66 | following adds edge and counts together, does nothing for an edge already there, and fails without a trace otherwise |
| `Follows.FollowRepository.Unfollow` | api/src/modules/follows/infrastructure/persistence/prisma-follow.repository.ts:68-105 | unfollowing takes both back, does nothing without an edge, and fails without a trace otherwise |
| `Follows.AddEdgeKeepsSound` | api/src/modules/follows/infrastructure/persistence/prisma-follow.repository.ts:48-56 | after a follow every counter is still the degree it stands for |
| `Follows.RemoveEdgeKeepsSound` | api/src/modules/follows/infrastructure/persistence/prisma-follow.repository.ts:85-95 | and after an unfollow |
| `Follows.TwoCountersMove` | api/src/modules/follows/infrastructure/persistence/prisma-follow.repository.ts:186-205 | the followers of the one followed and the followings of the one who follows move by one, and no other counter |
| `Follows.StatusIsTrue` | api/src/modules/follows/infrastructure/persistence/prisma-follow.repository.ts:156-184 | the status returned is whether the edge is there, and the in- and out-degree of the one followed |
| `Follows.FollowThenUnfollow` | api/src/modules/follows/infrastructure/persistence/prisma-follow.repository.ts:31-105 | following a new user and unfollowing restores the whole store |
| `Follows.NextKeepsSound` | api/src/modules/follows/infrastructure/persistence/prisma-follow.repository.ts:31-105 | every single check or write, of any request, keeps that |
| `Follows.CountersAreDegrees` | api/src/modules/follows/infrastructure/persistence/prisma-follow.repository.ts:31-105 | in every interleaving of checks and writes each counter is its in- or out-degree, no decrement passes zero and no self-edge exists |
| `Follows.OvertakenWriteFails` | api/src/modules/follows/infrastructure/persistence/prisma-follow.repository.ts:38-55 | a write whose check was overtaken by the same edge fails on the key or the missing row and changes nothing, and only then |
| `Follows.AnswerIsTrue` | api/src/modules/follows/infrastructure/persistence/prisma-follow.repository.ts:31-105 | a request that ends well is told the truth about its edge, one that is told that the user is unknown was so when it looked, and no check writes |
| `Follows.BothTotalsAreTheEdges` | api/src/modules/follows/infrastructure/persistence/prisma-follow.repository.ts:186-205 | the followers of all users and the followings of all users both add up to the number of edges |
| `Mentions.NameLengthHolds` | web/src/shared/ui/mentionText.tsx:9 | the greedy group with backtracking matches the longest name of 3 to 30 legal characters that ends at a word boundary, and fails only when there is none |
| `Mentions.MentionsAreTheRule` | web/src/shared/ui/mentionText.tsx:9 | the pattern matches exactly at an '@' with no letter, digit, underscore or dot to its left and 3 to 30 of these to its right that end at a word boundary |
| `Mentions.MentionsFromHolds` | web/src/shared/ui/mentionText.tsx:9 | the listed mentions are exactly the positions that meet that rule |
| `Mentions.MentionsFromAscends` | web/src/shared/ui/mentionText.tsx:9 | in text order, each once |
| `Mentions.ScanFindsEveryMention` | web/src/shared/ui/mentionText.tsx:48-67 | the left-to-right scan finds every position that meets the rule, although each match consumes text, and no other |
| `Mentions.FindNext` | web/src/shared/ui/mentionText.tsx:52 | the next match is the first mention ahead |
| `Mentions.SplitMentionText` | web/src/shared/ui/mentionText.tsx:48-74 | the parts join back to the text, none is empty, no two texts are adjacent, and the mention parts stand at the mentions, with the name as written and in lower case |
| `Mentions.PushMatch` | web/src/shared/ui/mentionText.tsx:53-66 | one turn of the loop covers the text up to the end of the match and adds exactly this mention |
| `Mentions.PushRest` | web/src/shared/ui/mentionText.tsx:69-73 | the rest is text without a mention |
| `Mentions.PartsAreDetermined` | web/src/shared/ui/mentionText.tsx:48-74 | that leaves no choice: two splittings that meet it are equal |
| `Mentions.ExtractMentionUsernames` | web/src/entities/mention/model/use-mentioned-users-map.ts:52-60 | the lower-case names of the mentions, each once, in order of first occurrence |
| `Mentions.FirstOccurrencesHolds` | web/src/entities/mention/model/use-mentioned-users-map.ts:52-60 | dropping repeats loses no name and keeps no repeat |
| `Mentions.SplitterAndExtractorAgree` | web/src/entities/mention/model/use-mentioned-users-map.ts:8 | the extractor returns exactly the names the splitter shows |
| `Redaction.SensitiveExactlyWhen` | api/src/core/logger/redaction.util.ts:54-65 | a key is sensitive if and only if its letters and digits in lower case are one of the sixteen names, or hold "credential", "password", "secret" or "token" anywhere, or end in "hash" |
| `Redaction.NormalizeKeyHolds` | api/src/core/logger/redaction.util.ts:50-52 | what is left of a key to be judged is its letters and digits, all of them and in order, in lower case |
| `Redaction.SpellingDoesNotMatter` | api/src/core/logger/redaction.util.ts:50-65 | a key is judged by its letters and digits alone: case and separators never hide a sensitive one |
| `RedactionStack.RedactValue` | api/src/core/logger/redaction.util.ts:67-103 | the recursive traversal, with its shared set of seen objects and one frame of the stack per nested call, computes the redaction or overflows |
| `RedactionStack.EndsExactlyWhen` | api/src/core/logger/redaction.util.ts:67-103 | on every graph the traversal comes to an end, on a large enough stack, if and only if no way through the graph, avoiding what stands under sensitive keys, leads into a cycle of arrays alone |
| `RedactionStack.MoreStack` | api/src/core/logger/redaction.util.ts:67-103 | a larger stack never changes a result |
| `RedactionStack.EndedIsRedacted` | api/src/core/logger/redaction.util.ts:67-103 | a traversal that ends has computed what a total function on the graph with its arrays written out computes |
| `RedactionStack.RedactItems` | api/src/core/logger/redaction.util.ts:71-73 | arrays are redacted item by item, in order, sharing what has been seen |
| `RedactionStack.RedactObject` | api/src/core/logger/redaction.util.ts:97-102 | so are the fields of an object |
| `RedactionStack.RedactKeyed` | api/src/core/logger/redaction.util.ts:98-101 | a value under a sensitive key becomes "[REDACTED]" without being looked at |
| `RedactionTheorems.ResultIsClean` | api/src/core/logger/redaction.util.ts:95-102 | at every depth of what that function returns, whatever stands under a sensitive key is the placeholder |
| `RedactionLaws.EndedIsClean` | api/src/core/logger/redaction.util.ts:95-102 | and so at every depth of the result of a traversal that ends |
| `RedactionLaws.FieldsKeepTheirPlaces` | api/src/core/logger/redaction.util.ts:97-102 | an object keeps its keys, in order; under a sensitive one stands "[REDACTED]", under every other one what its value redacts to |
| `RedactionLaws.ItemsKeepTheirPlaces` | api/src/core/logger/redaction.util.ts:71-73 | an array keeps its length, each item becoming what it redacts to |
| `RedactionLaws.ShapesAreKept` | api/src/core/logger/redaction.util.ts:71-95 | dates become their text, errors a record of name, message and stack, an object met before "[Circular]", and primitives stay |
| `RedactionLaws.SecretsDoNotMatter` | api/src/core/logger/redaction.util.ts:95-102 | graphs that differ only under sensitive keys, and in whatever only those lead to, redact to the same result on every stack or overflow it alike: secrets have no influence at all |
| `RedactionLaws.ExpandsExactlyTheReachable` | api/src/core/logger/redaction.util.ts:67-103 | with cycles and sharing, a traversal that ends has expanded exactly the objects that some way reaches without passing under a sensitive key, each once |
| `RedactionTheorems.ErrorReportIsClean` | api/src/core/logger/redaction.util.ts:54-65 | the name, message and stack of an error are not under sensitive keys |
| `RedactionLaws.CleanDataIsUnchanged` | api/src/core/logger/redaction.util.ts:67-103 | data without a sensitive key comes through unchanged, wherever in memory it lies with each object used once, on every stack as deep as the data |
| `RedactionLaws.RedactIsIdempotent` | api/src/core/logger/redaction.util.ts:67-103 | every result can be laid out in memory, and redacted again from wherever it lies it is unchanged |
| `UnitOfWork.TransactionalStore.Perform` | api/src/infrastructure/database/prisma-unit-of-work.ts:13-19 | programs of reads, writes, throws, catches and nested units of work mean what the big-step meaning says |
| `UnitOfWork.TransactionsStayOpen` | api/src/infrastructure/database/prisma-transaction-context.ts:7-15 | inside a transaction nothing is committed and the transaction stays the ambient one |
| `UnitOfWork.NestingIsFlattening` | api/src/infrastructure/database/prisma-unit-of-work.ts:13-16 | inside a transaction, units of work nested to any depth mean what their flattened body means |
| `UnitOfWork.TransactionIsPlainRun` | api/src/infrastructure/database/prisma-unit-of-work.ts:18 | inside a transaction a program does to the open view what it would do to the rows themselves |
| `UnitOfWork.AllOrNothing` | api/src/infrastructure/database/prisma-unit-of-work.ts:18 | an outermost unit of work commits exactly what its flattened body would have written on its own, or nothing when a throw leaves it |
| `UnitOfWork.ThrownWorkIsUndoneExactlyWhen` | api/src/infrastructure/database/prisma-unit-of-work.ts:13-19 | in every state, a unit of work that ends with a throw leaves everything as it was if and only if no transaction was open or its flattened body changes none of the open rows |
| `UnitOfWork.CaughtInnerWritesAreCommitted` | api/src/infrastructure/database/prisma-unit-of-work.ts:14-16 | so when the throw is caught, whatever the handler does, the writes of an outermost unit of work are gone, and those of an inner one are committed with the outer one |
| `Reactions.GetNextReactionStats` | web/src/features/react-post/model/use-react-post-mutation.ts:134-167 | the field-by-field update of a local copy: old reaction down, new one up, total only when the number of reactors changes |
| `Reactions.OptimisticIsRecount` | web/src/features/react-post/model/use-react-post-mutation.ts:113-167 | the optimistic update shows what recounting a user-to-reaction map would |
| `Reactions.ClampsNeverBind` | web/src/features/react-post/model/use-react-post-mutation.ts:147-164 | on a correct tally the clamps at zero never bind |
| `Reactions.TotalIsSum` | web/src/features/react-post/model/use-react-post-mutation.ts:134-167 | the total is the sum of the six counts |
| `Reactions.LastChoiceDecides` | web/src/features/react-post/model/use-react-post-mutation.ts:113-132 | a run of choices shows what its last one alone would; the old one again restores the post |
| `Reactions.ClickingBackRestoresExactlyWhen` | web/src/features/react-post/model/use-react-post-mutation.ts:147-164 | for counts that are no tally, clicking back restores the post if and only if no clamp bound |
| `Reactions.FeedUpdateHolds` | web/src/features/react-post/model/use-react-post-mutation.ts:86-102 | in the paged feed every copy of the post agrees with the reactions afterwards, every other post, page and cursor is as before, and the old choice restores the feed |

## Left out

- Anomalies of weaker isolation than serial transactions (for example two sign-ins on one device that
  do not see each other), and PostgreSQL refusing further statements after a failed one in a
  transaction; catching such an error inside the transaction therefore goes further here than there.
- Database errors other than unique-key, foreign-key and missing-row ones; malformed replies of Redis.
- The metadata of sessions (device name, address, user agent) and of accounts (role, user profile,
  generated user name and password, when the e-mail was verified); normalising Google's profile.
- Deleting accounts, users and sessions, with their cascades.
- Signing and verifying tokens, hashing, e-mail sending, rate limiting inside the services, cache
  invalidation, queues, notifications.
- RefreshService.RefreshTokenService.Execute: takes a token whose signature has been verified; a
  missing or unverifiable one is refused before any read, and its errors are library errors.
- RefreshService.QuietRefresh: its two times stand for all times of one call, since the code reads the
  clock at the read and again inside the rotation.
- GoogleLoginService.Service.Execute: one time stands for the several clock reads of a login; it only
  sets when replaced sessions were revoked.
- PasswordReset.ResetPasswordService.Execute: takes the hash of a non-blank token and a password that
  passed the policy, which are checked before any read; the commit assumes that account and token
  still exist, as nothing here deletes them; one time stands for the clock reads of the commit.
- AuthRateLimiter.SubjectsAreMatchedLoosely: lower-casing is modelled on ASCII letters only.
- Mentions.SplitMentionText: likewise; names hold ASCII letters only, so nothing else can occur.
- RedactionStack.RedactValue: values are scalars, dates, errors, arrays and plain objects; invalid dates,
  which throw, and objects of other classes are left out. What an overflow of the stack leaves in the
  set of seen objects is not stated, since nothing looks at it afterwards.
- BackfillJob.Job.RunBackfill: runs over posts, friendships and follows that nobody changes meanwhile;
  the score of a feed row is left out.
- Comments.CommentRepository.FindPage: returns the stamps (createdAt, id) of its rows, which determine
  them; cursor texts (JSON in base64) are taken as decoded.
- CommentForest.RunKeeps: deletion and hiding of comments stand for code outside the files modelled.
- Checks on the length and content of comments; the cap on how many mentioned users are looked up.
- Posts, friends, groups, messages, stories, realtime rooms, seed scripts, controllers and all of the
  user interface: they would add only easy members.
