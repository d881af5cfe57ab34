# Verification of the accounts service

This project models the parts of the service whose behaviour depends on order: what interleaves, what
fails half-way, what is cleaned up, and what a clock does. It proves what they guarantee over whole runs.
`dafny verify dfyconfig.toml` checks everything.

## What is modelled

**Read-through cache** (`CacheKeys`, `CacheCoherence`, `CacheRegularity`, `CacheStaleness`, `CachedDatabase`). Readers, committing
writers and an unreliable store take steps no larger than one lock or one store call makes atomic. Every account
carries the history of its committed rows, so a cached value has a version. The cache is a *regular* register and not
an atomic one: both halves are theorems, and so is the exact condition under which a read can still return an old row.
`CachedDatabase.Wrapper` is the code in program order, with arbitrary steps of other goroutines between any two of its
own, between the statements of a transaction too.

**Sessions** (`Subjects`, `Decimal`, `Sessions`, `SessionSafety`, `SessionDeadlock`, `SessionRefinement`,
`SessionCleanup`, `Authenticator`). Issue, Refresh, RevokeAll, Revoke, account deletion and expiry cleanup are
transactions that lock rows one at a time, keep the locks to their end, buffer writes, and commit or give
up. `Authenticator.Service` is the code over that machine; its parameter `alone` says that nothing else runs, in which
case its contracts give the exact result.

**In-memory store** (`MemorySpec`, `MemoryStore`, `MemorySafety`). A map, a doubly linked list and a byte count on the heap
refine a sequence of entries, and the sequence is related to the writes that made it.

**Rate limits** (`ExpiryBatches`, `RateLimit`, `RateSafety`, `RateBound`, `OtpBudgets`, `UpsertOrder`). The budget table with
its bounded cleanup, for both ways of writing the statement, arithmetic bounds over arbitrary runs, and a small language
of SQL assignment lists in which the two evaluation orders are compared. A denial is the 429 of section 4 of RFC 6585 and
its delay the Retry-After of section 10.2.3 of RFC 9110.

**Challenges, tokens and accounts** (`ExpiringRows`, `AccountIdentity`, `Records`, `RecordSafety`, `OneTimeCodes`,
`Transactions`, `HandlerRuns`, `Handlers`). The same database one statement or transaction at a time, with cleanup batches
anywhere in between. `Transactions.Database` is their code in place. `HandlerRuns` interleaves handler calls, each of
which charges budgets and may then store or try one code; `Handlers.Server` is the handlers' code over that machine.
`Sessions` looks inside the session transactions; `Records` takes them whole and adds login codes, email changes and
account identity. `SessionRefinement` shows that each commit of the first does to tokens and generations what a whole
step of the second does. The commits of a run do not have to make up a run of the second, whose times never decrease,
so what cleanup does to interleaved Refreshes is proved on `Sessions` itself, in `SessionCleanup`.

**Migrations** (`Migrations`, `MigrationRuns`, `MySqlMigrations`). Reading files into version order, the runner that lives in one
transaction, and the runner whose statements commit as they go and which may stop anywhere.

## Assumptions

Hashes are collision-free, and generations, token values and cache prefixes are fresh when made. A signed access token is
a predicate with an expiry (`exp`, section 4.1.4 of RFC 7519). An SQL statement is one transition of its tables. A write
or commit that returns an error had no effect, except in the migration runners, where a commit may happen unacknowledged.
Clock readings do not decrease in database order, where a theorem says so (`Monotone`, `Run`). Which expired rows a bounded
cleanup picks among equals, which statements fail, and what other connections do are parameters.

## Findings

- A cached read that begins after another has returned a new row can still return the old one, while the writer's
  invalidation is on its way: `CacheRegularity.ReadsAreNotAtomic` gives the run. Reads do not go back when no invalidation
  of the account is on its way (`CacheStaleness.SettledReadsStayInOrder`), and from a reachable state an old row can still be
  returned exactly when one is stored, or about to be filled, under the current generation (`StaleReadsAreExact`).
- Two codes for one key can be let through less than a minute apart, because a request is charged to the minute budget
  before its other check. After a first request that took `delay` seconds between the two, the distance is at least the
  rest of the minute, and nothing more can be promised (`OtpBudgets.IssuanceDistanceIsExact`).
- For the left-to-right upsert, assigning `requests` before `max_requests` is not needed: among all orders of the four
  assignments, exactly those with `expires_at` last are right (`UpsertOrder.OnlyExpiryLastIsRight`).
- A migration file numbered at or below the recorded version is skipped without an error, so an upgrade does what a new
  installation does exactly when the old files are the first of the new ones (`MigrationRuns.UpgradeIsExact`).

## Model

| member | source | states |
|---|---|---|
| CacheKeys.TaggedKeysDistinct | database/cached/coherence.go:31-33 | no two accounts and no two generations share a store key, although generation and subject are concatenated decimal text |
| CacheKeys.KeyLayout | database/cached/coherence.go:31-33 | a store key is the prefix, the generation, and the account's key, which is its subject in decimal behind a fixed text |
| CacheCoherence.StepKeepsInv | database/cached/internal.go:42-73 | every step of readers, writers and the store keeps: what is stored or about to be filled under the current generation is the latest version, or is followed only by versions whose generation bump is still pending |
| CacheCoherence.CommitKeepsInv | database/cached/querier.go:20-36 | a commit keeps it although creating an account invalidates nothing, because only accounts that never existed change unmarked |
| CacheCoherence.BumpKeepsInv | database/cached/cached.go:77-90 | the bump of one account's shard keeps it for every account, those sharing the shard included |
| CacheCoherence.FillKeepsInv | database/cached/internal.go:67-71 | filling under the re-checked generation keeps it, whatever the database did since the load |
| CacheRegularity.RunKeepsInv | database/cached/internal.go:42-73 | the invariant holds in every state of every run |
| CacheRegularity.ReadsAreRegular | database/cached/internal.go:47-72 | in every run a successful read returns a committed version no older than every version whose write and invalidation were over when it began, and no newer than the last commit when it ends |
| CacheRegularity.QuietReadsAreExact | database/cached/cached.go:77-90 | with no invalidation of the account under way and no commit during the read, the answer is the database row |
| CacheRegularity.QuietEntriesAreTheRow | database/cached/internal.go:67-71 | in every reachable state with no pending bump of an account, the entry a reader can reach equals the account's row |
| CacheRegularity.ReadsAreNotAtomic | database/cached/internal.go:61-71 | for any account and any two rows there is a run in which a read that starts after the new row was returned returns the old one |
| CacheStaleness.ReadsGoBackOverPendingOnly | database/cached/internal.go:47-72 | a read that begins after another has returned goes back only over versions whose invalidation is on its way when it begins |
| CacheStaleness.SettledReadsStayInOrder | database/cached/internal.go:47-72 | with none on its way, it returns no older version |
| CacheStaleness.StaleReadsAreExact | database/cached/internal.go:61-71 | from any reachable state some continuation makes a new read return an outdated version exactly when one is stored under the account's current generation or held by a reader that loaded it under that generation |
| CacheStaleness.DeletionsSpareTheCurrent | database/cached/cached.go:77-90 | the best-effort deletion of an outdated key, however late, never removes an entry that a read could find |
| CacheRegularity.FillThenHit | database/cached/internal.go:47-59 | a value just filled answers the next read of the account without the database |
| CachedDatabase.UnmarkedAreNew | database/cached/querier.go:20-36 | whatever a transaction writes, each account it changes is marked for invalidation or never existed before, and only changed accounts are marked |
| CachedDatabase.WrittenIsExact | database/cached/querier.go:20-36 | running a list of writes leaves a deleted account without a row, an updated one with the last address given and its old creation time, a created one as created, and writes nothing else |
| CachedDatabase.Wrapper.ReadThrough | database/cached/internal.go:42-73 | with any interference between its steps, a value or a not-found it returns is that of a version covering everything settled at the start; it fails only when cancelled or when the query fails |
| CachedDatabase.Wrapper.LoadAndFill | database/cached/internal.go:61-72 | after a miss the answer comes from the database and errors only with it; the cache is filled only at the sampled generation |
| CachedDatabase.Wrapper.Invalidate | database/cached/cached.go:77-90 | when it returns, the version it was called for is settled, and of the writer's tasks only that one is gone |
| CachedDatabase.Wrapper.InvalidateAll | database/cached/cached.go:63-65 | all marked keys are settled, in whatever order the map yields them |
| CachedDatabase.Wrapper.WithTx | database/cached/cached.go:46-67 | with others acting between its statements, a failed transaction changes nothing; a successful one has committed what its writes mean, each deletion, last address and creation as the next version of its account, and settled it before returning |
| CachedDatabase.Wrapper.WriteDirectly | database/cached/querier.go:20-36 | the same for an address update or a deletion outside a transaction |
| Decimal.ParseFormat | auth/authenticator.go:218 | decimal formatting followed by parsing is the identity on 64-bit integers |
| Decimal.ParseIntIsExact | database/migrations.go:46-49 | text is read as n exactly when n fits 64 bits and the text is an optional sign, zeros, and the decimal form of n |
| Decimal.DigitsAreUsual | handlers/otp.go:36-37 | numbers are written with the usual digits, most significant first, without leading zeros |
| Decimal.FormatIntDistinct | database/cached/internal.go:11-13 | different integers have different decimal forms |
| Subjects.SubjectRoundTrip | auth/authenticator.go:249-260 | a formatted subject is read back exactly when it is positive |
| Subjects.SubjectIsExact | auth/authenticator.go:249-260 | text is a subject exactly when it spells a positive 64-bit integer |
| Subjects.BlankIsNoSubject | auth/authenticator.go:250-252 | the blank check before parsing refuses nothing that parsing accepts |
| Sessions.StepKeepsInv | auth/authenticator.go:46-247 | every step of the interleaved transactions keeps the session invariant, in-flight transactions included |
| Sessions.CommitKeepsInv | auth/authenticator.go:84-119 | committing any transaction keeps every other transaction's saved reads and buffered writes consistent with the tables |
| SessionSafety.CommittedRowsAgree | auth/authenticator.go:195-208 | in every committed state of every run each refresh token belongs to an existing account and carries its current generation, and each session has at most one live token |
| SessionSafety.RowsChangeOnCommit | auth/authenticator.go:84-119 | no step of a transaction but its commit changes a row, so one that fails leaves the tables as they were |
| SessionSafety.RefreshConservesSessions | auth/authenticator.go:97-119 | a successful Refresh replaces one live token by one of the same session, account and generation and leaves all others and the row count alone |
| SessionSafety.SingleRedemption | database/sqlite/queries/20260721001_refresh_tokens.sql:10-13 | in any run each refresh token is exchanged at most once |
| SessionSafety.DeadForever | auth/authenticator.go:97-106 | a token that is gone is never a row again and never exchanged again |
| SessionSafety.RevocationTakesEffect | auth/authenticator.go:171-192 | the step that commits a revocation or deletion retires the old generation, kills every token the account ever had, and touches no other account's rows |
| SessionSafety.RevocationIsFinal | auth/authenticator.go:122-154 | from then on, whatever was in flight, no access token of the ended generation verifies and no earlier refresh token is exchanged |
| SessionSafety.RevocationEndsAllAccess | auth/authenticator.go:165-193 | nor does any access token of the account under a generation made earlier, unless a revocation in flight is about to install that generation |
| SessionSafety.SignedAccessEnds | auth/authenticator.go:122-154 | no access token that was signed for the account before the revocation or deletion ever verifies after it |
| SessionSafety.OnlyRevocationEnds | auth/authenticator.go:165-193 | no other step changes an existing account's generation |
| SessionSafety.UnrevokedAccessLasts | auth/authenticator.go:122-154 | without a revocation of its account an access token verifies later exactly until it expires |
| SessionSafety.TokensLeaveFourWays | auth/authenticator.go:156-193 | a live token leaves the table only by exchange, its own revocation, its account's revocation or deletion, or cleanup after it expired |
| SessionDeadlock.TokenHoldersHoldTheAccount | auth/authenticator.go:85-97 | whoever holds a token row in Refresh, RevokeAll or deletion holds its account row |
| SessionDeadlock.WaitersOutrankHolders | auth/authenticator.go:85-97 | a transaction that waits for a row outranks the one that holds it |
| SessionDeadlock.NoDeadlock | auth/authenticator.go:178-207 | in every reachable state the wait-for relation has no cycle, and no chain of more than three |
| SessionDeadlock.SomebodyMovesOn | auth/authenticator.go:178-207 | while anything but cleanup is in flight, some transaction can take its next step rather than give up |
| Authenticator.Service.Issue | auth/authenticator.go:46-62 | the session it returns is live under the account's current generation; alone, it succeeds exactly for existing accounts and adds one row |
| Authenticator.Service.Refresh | auth/authenticator.go:64-120 | success means the presented token was live and unexpired both times it was looked at and is dead now, and its successor has its account, generation and session and lives for the whole lifetime from the second look; alone, it succeeds exactly then, replaces exactly that row, changes nothing otherwise, and gives the source's error |
| Authenticator.RefreshedTokensRefresh | auth/authenticator.go:231-246 | what a Refresh hands out the next one accepts exactly until its lifetime is over, and what was handed in is refused |
| Authenticator.Service.Verify | auth/authenticator.go:122-154 | it accepts exactly tokens with a good signature and subject whose generation is not blank and the account's current one and that have not expired; only an expired one is called that |
| Authenticator.Service.Revoke | auth/authenticator.go:156-163 | the presented token is not a row afterwards; alone, nothing else changes |
| Authenticator.Service.RevokeAll | auth/authenticator.go:165-193 | afterwards, whatever runs beside it and also for an account that is absent, no token the account ever had is a row and no access token of an earlier generation verifies; alone, other accounts' rows are untouched |
| Authenticator.Service.SweepAll | auth/authenticator.go:191 | deleting rows locks them one at a time, meeting other transactions in between, and ends with all of them or none |
| Authenticator.Service.RemoveAccount | handlers/account.go:66-102 | revocation, then deletion: when it succeeds the account is gone, none of its tokens is a row, and no access token of an earlier generation verifies |
| SessionRefinement.CommitsAreWhole | auth/authenticator.go:84-119 | in any run of interleaved transactions rows change only by commits and account creation, and a commit does to tokens and generations what the whole transaction does at that moment, an exchange counting at the time it locked its token; a revocation of one token, provided its deletion saw the token if it is there |
| SessionRefinement.ConsumedBefore | auth/authenticator.go:107-110 | a Refresh that gets as far as signing found its token unexpired at the step that locked it |
| SessionRefinement.TargetsAreTheAccounts | auth/authenticator.go:178-192 | when a revocation or deletion commits, the rows it went through are all of the account's tokens and no others, whatever ran in between |
| SessionRefinement.RevokeOneIsOneStep | auth/authenticator.go:156-163 | revoking one token amounts to its removal at commit exactly when the token, if it is there by then, was there when the deletion looked for it |
| SessionCleanup.CleanupLeavesSessionsAlone | database/sqlite/queries/20260721001_refresh_tokens.sql:23-31 | under a clock that does not go back, in any interleaving, every step of Issue and Refresh is possible and does the same with all rows back that cleanup has removed |
| SessionCleanup.CleanedIsInert | database/sqlite/queries/20260721001_refresh_tokens.sql:23-31 | a token removed by cleanup has expired at every later time, and is dead: it is never a row or exchanged again |
| MemorySpec.DropExpiredIsExact | cache/memory/internal.go:24-40 | with entries in expiry order, looking at the front only removes exactly the expired entries |
| MemorySpec.EvictIsMinimal | cache/memory/memory.go:97-99 | eviction removes the shortest prefix that leaves room for one more entry of the size within both bounds, and there is always room before the list is empty |
| MemorySpec.KeptMakesRoom | cache/memory/memory.go:92-99 | what a Set keeps of the old entries leaves room for the new one within both bounds and lacks its key |
| MemorySpec.WithoutRemoves | cache/memory/memory.go:93-95 | removing a key removes exactly its entry and keeps order and bounds |
| MemorySpec.LookupFinds | cache/memory/memory.go:117-121 | a lookup finds an entry exactly when it is there |
| MemorySpec.RepliesAreExact | cache/memory/memory.go:79-137 | a write succeeds exactly when the context is live, the key not blank, the cache open and key and value within the byte bound; a read exactly when an unexpired entry has the key; a deletion exactly when it is heard; and each error is returned exactly for its cause |
| MemorySpec.BlankIsExact | cache/memory/internal.go:66-68 | a key is refused as blank exactly when it is the UTF-8 encoding of white-space characters only |
| MemoryStore.ConfiguredLimitsAreValid | cache/memory/memory.go:54-77 | no sequence of options makes a limit unusable |
| MemoryStore.ConfiguredIsExact | cache/memory/memory.go:36-77 | each limit is the last positive one set, or 20 seconds, 1024 entries and 8 MiB |
| MemoryStore.AgreesAfterRemove | cache/memory/internal.go:26-31 | removing a node from anywhere in the list keeps map, list and byte count in agreement |
| MemoryStore.FullIndexIsDistinct | cache/memory/memory.go:102 | a map as large as the list means that no key is repeated in the list |
| MemoryStore.Store.Remove | cache/memory/internal.go:26-31 | unlinking in place, with map and count, is removal at that position of the sequence |
| MemoryStore.Store.DeleteExpired | cache/memory/internal.go:33-40 | the expiry loop computes the sequence's expiry and terminates |
| MemoryStore.Store.MakeRoom | cache/memory/memory.go:97-99 | the eviction loop never meets an empty list, terminates, and computes the sequence's eviction, with room for the new entry |
| MemoryStore.Store.Set | cache/memory/memory.go:79-105 | contents and reply are those of the sequence; it succeeds exactly when heard and within the byte bound, and is too large exactly when only the size fails |
| MemoryStore.Store.Get | cache/memory/memory.go:107-122 | the same for a read |
| MemoryStore.Store.Delete | cache/memory/memory.go:124-137 | the same for a deletion |
| MemoryStore.Store.Stats | cache/memory/memory.go:140-144 | the counts are those of the sequence and within the bounds |
| MemoryStore.Store.Close | cache/memory/memory.go:148-160 | closing empties the store, and closing again changes nothing |
| MemorySafety.PlayStaysSound | cache/memory/internal.go:24-25 | over any operations under a monotone clock keys stay distinct, both bounds hold, and write order stays expiry order |
| MemorySafety.HoldsLatestWrites | cache/memory/memory.go:79-137 | the store holds an entry exactly when some Set that was heard and fits wrote it and nothing heard since rewrote, deleted or closed it, found it expired, or needed its room |
| MemorySafety.EvictionIsExact | cache/memory/memory.go:97-99 | an entry is evicted exactly when it, those written after it and the new one together exceed a bound |
| MemorySafety.GetReturnsTheLatestWrite | cache/memory/memory.go:107-122 | Get answers with a value exactly when such a write of the key exists and has not expired |
| ExpiryBatches.BatchExists | database/sqlite/queries/20261104000_rate_limits.sql:24-32 | a batch as the cleanup statement describes it always exists, whatever rows are due |
| ExpiryBatches.BatchesDrainAll | database/sqlite/queries/maintenance.go:8-16 | repeated batches at one time leave nothing due exactly when there are enough of them for the backlog, however ties are broken |
| ExpiryBatches.EarliestGoFirst | database/sqlite/queries/20261104000_rate_limits.sql:24-32 | over consecutive batches whatever is left when a row goes expires no earlier than it |
| RateLimit.UpsertedIsSound | database/sqlite/queries/20261104000_rate_limits.sql:4-22 | a request opens a new window after the old one and otherwise adds one to its count up to limit + 1; it is denied exactly when a running window is used up, with the delay to its end |
| RateLimit.SweepsDrain | database/sqlite/queries/20261104000_rate_limits.sql:24-32 | repeated batches delete every ended window in exactly as many rounds of a hundred as the backlog takes, and no running one |
| RateLimit.Budgets.UpsertInOrder | database/mysql/queries/20261104000_rate_limits.sql:2-21 | four assignments taking effect in the statement's order write the same row |
| RateLimit.TakenIgnoresCleanup | database/sqlite/queries/20261104000_rate_limits.go:10-32 | the batch deleted before counting changes neither the answer nor the row the request leaves, and spares every running window |
| RateLimit.FailuresCountNothing | database/mysql/queries/20261104000_rate_limits.go:10-48 | a request is refused before anything happens exactly for a window or limit that is not positive; one whose statement fails leaves the table as cleanup and others left it |
| RateLimit.Budgets.TakeThenSelect | database/mysql/queries/20261104000_rate_limits.go:10-48 | the same table and answer when the row is read back inside a transaction that may roll back |
| RateSafety.CleanupIsUnobservable | database/sqlite/queries/20261104000_rate_limits.sql:24-32 | in any run the answers equal those of the same run without its cleanup batches |
| RateSafety.StoredCountIsBounded | database/sqlite/queries/20261104000_rate_limits.sql:5-9 | in every reachable table a count exceeds its limit by at most one |
| RateSafety.RetryDelayIsExact | database/sqlite/queries/20261104000_rate_limits.go:28-31 | after a denial with delay d, d is positive, every request before now + d is denied with the same deadline, and the first one at or after it is admitted |
| RateBound.RateIsBounded | database/sqlite/queries/20261104000_rate_limits.sql:1-22 | any interval of length L admits at most limit * (ceiling(L / window) + 1) requests |
| RateBound.WindowsRoundUp | database/sqlite/queries/20261104000_rate_limits.sql:1-22 | the number of windows in that bound is the quotient rounded up |
| RateBound.WindowIsExact | database/sqlite/queries/20261104000_rate_limits.sql:5-9 | a window admits its first `limit` requests and no others |
| RateBound.AdmissionsAreSpaced | handlers/otp.go:53-57 | with a limit of one, admissions are a whole window apart |
| OtpBudgets.ScopesAreDistinct | handlers/otp.go:53-61 | no two budgets share a scope |
| OtpBudgets.BudgetsAreExact | handlers/otp.go:11-17 | in any run a budget lets through exactly the first request of each minute, or the first five of each ten minutes |
| Handlers.Server.AllowRequest | handlers/otp.go:21-50 | a call may go on exactly when it is allowed; a database failure allows nothing; undisturbed, verdict and row are those of the table without the cleanup, and other budgets lose only ended windows |
| Handlers.ChargeDecides | handlers/otp.go:21-50 | a charge is allowed unless a running window is used up, and otherwise answered with the seconds to its end as text; it leaves a new window of one per minute or five per ten minutes, or one more in the running one |
| Handlers.Server.AllowIssuance | handlers/otp.go:53-57 | the window budget is charged only when the minute budget admits, either check may fail, and only both together let a code be stored |
| OtpBudgets.TenPerTenMinutes | handlers/otp.go:11-17 | at most ten verifications, and ten window admissions, per key in any ten minutes |
| OtpBudgets.IssuancesAreSpaced | handlers/otp.go:53-57 | two issuances for one key are charged to the minute budget sixty seconds apart, and completed at least what was left of the first one's minute apart |
| OtpBudgets.IssuanceDistanceIsExact | handlers/otp.go:53-57 | for every delay between the first request's two checks, that bound is the largest that holds in all runs |
| HandlerRuns.TenUsesPerTenMinutes | handlers/otp.go:19-20 | over any interleaving of handler calls, whatever is reissued, spent, rolled back, broken off or cleaned up, at most ten codes per key are tried, and ten stored, on charges of any ten minutes |
| HandlerRuns.EveryTryIsAUse | handlers/otp.go:53-61 | no code is stored or tried in any run but on a charge of its own budget and key, made before and used once |
| HandlerRuns.TenLoginTries | handlers/otp.go:19-20 | an address has at most ten login codes tried on charges of any ten minutes |
| UpsertOrder.IndependentOrderDoesNotMatter | database/mysql/queries/20261104000_rate_limits.sql:4-21 | for any statement in which no expression reads a column assigned earlier, left-to-right and simultaneous assignment agree on every row |
| UpsertOrder.BackendsAgree | database/mysql/queries/20261104000_rate_limits.sql:4-21 | as written, both evaluation orders store the specified row for every row and input |
| UpsertOrder.AtOnceIsTheUpsert | database/sqlite/queries/20261104000_rate_limits.sql:4-22 | simultaneous assignment means the same in whatever order the columns are listed |
| UpsertOrder.OnlyExpiryLastIsRight | database/mysql/queries/20261104000_rate_limits.sql:4-21 | among all orders, left-to-right evaluation is right for every row exactly when `expires_at` is assigned last |
| ExpiringRows.RedemptionIsExact | database/sqlite/queries/20260509000_account_login_requests.sql:8-11 | a redemption succeeds exactly when the latest row put under the key is unsettled, matches and has not expired, cleanup notwithstanding |
| ExpiringRows.OncePerRow | database/sqlite/queries/20260509000_account_login_requests.sql:1-11 | between two successful redemptions of a key there is a new row for it |
| ExpiringRows.SweepsDrain | database/sqlite/queries/20260721001_refresh_tokens.sql:23-31 | repeated batches reach every expired row in exactly as many rounds of a thousand as the backlog takes |
| ExpiringRows.SweepsSpare | database/sqlite/queries/20260509000_account_login_requests.sql:17-25 | batches never delete a row that has not expired |
| AccountIdentity.EnsureAlwaysSucceeds | database/sqlite/queries/20260504000_accounts.sql:1-5 | the trigger never refuses a new account: an address that has an account keeps it and nothing changes; any other gets one row, of the given generation, above the mark |
| AccountIdentity.PlayIsLater | database/sqlite/migrations/20261104001_account_identity.up.sql:6-19 | over any operations the mark never falls, and subjects that appear lie above the earlier mark |
| AccountIdentity.InsertIsExact | database/sqlite/migrations/20261104001_account_identity.up.sql:14-19 | an insertion succeeds exactly for a new address and a subject above the mark, adds that row and moves the mark to it |
| AccountIdentity.NewSubjectsExceedAll | database/sqlite/migrations/20261104001_account_identity.up.sql:7-19 | a subject that appears exceeds every subject of every earlier moment, deleted or not |
| Records.AfterKeepsSane | database/sqlite/queries/20260504000_accounts.sql:7-10 | every statement keeps addresses unique, and challenges and tokens with existing accounts only |
| Records.ConflictRollsBack | handlers/account.go:221-237 | a confirmation that finds the address taken leaves every row as it was, the code included |
| Records.ConfirmationIsExact | handlers/account.go:221-228 | a confirmation succeeds exactly when the code is good and no other account has the address; then the account has it, the code is gone, and nothing else changed; otherwise nothing changes at all |
| Records.LoginIsAllOrNothing | handlers/auth.go:131-153 | a login succeeds exactly when the code is good and the role can be assigned; it spends the code and opens the account of the address or one new one of the given generation, or changes nothing |
| Records.StepsTouchTheirOwn | database/sqlite/queries/20260509000_account_login_requests.sql:1-6 | storing a code replaces that row only; deleting an account takes its challenge and tokens and no others; session steps leave codes and addresses alone |
| Records.SessionStepsAreExact | database/sqlite/queries/20260721001_refresh_tokens.sql:1-21 | a token is issued to an account with a generation and exchanged exactly while it is live under its account's generation; every refusal leaves all rows alone; revoking an account removes its tokens and no others |
| RecordSafety.CleanupIsUnobservable | database/sqlite/queries/maintenance.go:8-16 | in any run every login, email change, refresh and revocation is answered as in the run without its cleanup batches, up to which of two refusals an expired token gets |
| OneTimeCodes.LoginIsExact | handlers/auth.go:131-153 | a login code is accepted exactly when it is the latest issued for the address, unspent and unexpired, and is spent unless the transaction fails |
| OneTimeCodes.ChangeIsExact | handlers/account.go:216-228 | the same for email-change codes; accepted, they change the address or report a conflict according to who has it |
| Transactions.Database.InsertAccount | database/sqlite/migrations/20261104001_account_identity.up.sql:14-19 | insertion followed by the trigger has the specified outcome, undone when the subject is not above the mark |
| Transactions.Database.EnsureAccountByEmail | database/sqlite/queries/20260504000_accounts.sql:1-5 | finds or creates as specified |
| Transactions.Database.VerifyLoginTx | handlers/auth.go:137-153 | consume, ensure and assign a role, all or nothing |
| Transactions.Database.ConfirmChangeTx | handlers/account.go:221-228 | consume and update, all or nothing |
| Handlers.Server.LoginOrCreateAccount | handlers/auth.go:36-98 | undisturbed, a code that lives 600 seconds is stored for the address, and nothing else, exactly when both budgets admit it and it can be made and written; a failing mail is reported and keeps it |
| Handlers.Server.VerifyAuthenticationCode | handlers/auth.go:107-195 | undisturbed, the charge stays whatever comes of the code; an admitted login answers with a session exactly when the code is good, nothing fails and the account, if it was there, has a generation; the code is then spent, and one token of the account's generation added |
| Handlers.GoodLoginsSucceed | handlers/auth.go:177-195 | whatever an admitted login comes to, it is logged in exactly under those conditions, to the account with the address |
| Handlers.Server.RequestEmailChange | handlers/account.go:104-198 | undisturbed, a missing account, the same address or a failing lookup charge nothing; after that, as for logins |
| Handlers.Server.ConfirmEmailChange | handlers/account.go:200-263 | undisturbed, it succeeds exactly when the budget admits, nothing fails, the code is good and nobody else has the address; every other outcome leaves the records alone, and the charge stays |
| Handlers.Server.DeleteAccount | handlers/account.go:66-102 | with anything in between, success leaves no account, challenge or token of the subject; a failing deletion leaves the account but none of its tokens; undisturbed, nothing of other accounts changes |
| Migrations.CutIsFirst | database/migrations.go:41-44 | the version part is what precedes the first underscore |
| Migrations.RepeatedIsExact | database/migrations.go:67-71 | on ascending versions the neighbour check finds the least version that repeats, and none exactly when there is none |
| Migrations.ReadMigrations | database/migrations.go:29-74 | the loops yield what the directory means, in the terms of the next row |
| Migrations.ReadIsExact | database/migrations.go:29-74 | a reading is one migration per file that is no directory and ends in .up.sql, with its name, its body as the script and the number before the first underscore, by strictly increasing version; or the error of the first file without underscore, number or body; or the least version that two files have |
| MigrationRuns.Runner.ApplyMigrations | database/migrations.go:80-101 | pending migrations are executed and recorded in order until one fails |
| MigrationRuns.Runner.Migrate | database/sqlite/migrations.go:16-39 | the run commits as a whole or is rolled back; a failure leaves no trace unless only the commit's acknowledgement was lost |
| MigrationRuns.RunIsExact | database/migrations.go:80-101 | a run succeeds exactly when its files are read, the database answers, no migration above the recorded version fails and the commit is acknowledged; then exactly those were executed in order and the last version is recorded; the first failure decides the error |
| MigrationRuns.RunStaysFresh | database/migrations.go:76-101 | a run with any faults takes one installation of a list of files to another, and leaves out none of its own files if it succeeds |
| MigrationRuns.IncrementalEqualsFresh | database/migrations.go:80-101 | any series of runs that ends in a success leaves the log and version of one run on an empty database |
| MigrationRuns.UpgradeIsExact | database/migrations.go:89-92 | an upgrade does what a new installation does exactly when the new files are all numbered above the old ones |
| MySqlMigrations.Connection.Execute | database/mysql/migrations.go:78-80 | statements take effect one by one up to where the run stops |
| MySqlMigrations.Connection.SetPending | database/mysql/queries/20260515000_schema_migrations.sql:12-13 | a second marker is refused |
| MySqlMigrations.Connection.ApplyMigrations | database/mysql/migrations.go:22-93 | marker, script and finish for each pending migration, stopping anywhere, as specified |
| MySqlMigrations.RunIsSafe | database/mysql/migrations.go:67-90 | a run stopped anywhere leaves whole scripts in ascending order and at most the beginning of one more, exactly when the marker names it |
| MySqlMigrations.HistoryIsSafe | database/mysql/migrations.go:54-90 | so does any sequence of runs, each stopped anywhere, with later releases adding files above |
| MySqlMigrations.NoStatementTwice | database/mysql/migrations.go:67-90 | statements were executed in order of version and position, so none twice |
| MySqlMigrations.IncompleteStaysPut | database/mysql/migrations.go:59-61 | nothing runs past an incomplete migration |
| MySqlMigrations.RunnersAgree | database/mysql/migrations.go:67-90 | after any stopped runs, a run that succeeds leaves the statements and version of the transactional runner on an empty database |
| MySqlMigrations.UninterruptedSucceeds | database/mysql/migrations.go:67-93 | a run that nothing stops succeeds |
| MySqlMigrations.RunIsExact | database/mysql/migrations.go:22-93 | a run succeeds exactly when its files are read, it is not stopped at the start or in a version above the recorded one, and no marker is in its way; then exactly the statements above that version were executed in order and the last version is recorded |

## Left out

- HTTP decoding and writing, routing, localisation, mail contents, logging and configuration: handlers are their database steps and a response kind, and sending mail is a step that may fail.
- The PostgreSQL backend, and the subjects that MySQL numbers by auto-increment: the identity theorems are about the SQLite trigger.
- Cryptography, JSON encoding of cached accounts and random generation: assumed as stated above; stored bytes that do not decode are a miss.
- 64-bit overflow of timestamps and byte counts, and wrap-around of a generation after 2^64 bumps: integers are unbounded.
- Reads inside a transaction bypass the cache in the source and are plain database reads; they are not modelled.
- SessionDeadlock.NoDeadlock: says nothing of expiry cleanup, which locks rows of many accounts in no stated order.
- Authenticator.Service.Issue: a transaction that meets a lock it cannot have may give up with an unavailable error instead of waiting, so nothing is said about how long a caller waits.
- Roles and permissions: assigning a role is a statement that may fail; reading roles while signing is left out.
- SessionRefinement.CommitsAreWhole: account creation is outside it, because `Sessions` lets any unused subject appear where `Records` takes the next one. It does not say that the commits of a run make up a run of `RecordSafety`: an exchange counts at an earlier time than its commit, and a cleanup commits the batch it chose when it began.
- Handlers.Server.VerifyAuthenticationCode: its exact outcome, like that of the other handlers, is stated for a call that nothing disturbs; what holds when calls interleave is `HandlerRuns`. The session after a login is one step here, and `Sessions` has it in full.
- CachedDatabase.Wrapper.WithTx: rows a transaction has written are taken to be locked until its end, so nobody else commits them in between.
- MemoryStore.Store.Set: copies of keys and values, the mutex and the background ticker are left out; a tick is one expiry step at any time, and an evicted node's own pointers are not cleared.
- The sorting algorithm of the standard library: any ascending permutation would do, and the model uses insertion.
- How a server splits a script into statements is a parameter of the MySQL runner; the bootstrap script, the named lock and the connection are one way to stop before anything happens.
- Repairing a database by hand after an incomplete migration.
