# Knova, modelled and proved in Dafny

Knova is two services: an authorization service (login, tokens, a gateway) and a profile service
(versioned profiles with optimistic concurrency, idempotent creation, an audit log). This project
models the parts whose correctness depends on interleavings, clocks, failures or byte-level detail:

- **The storage contract** (`StoreContract`): profiles are projections of append-only revision logs,
  and an update is a compare-and-swap. `MemoryStore` is the in-memory backend as classes;
  `MemoryMachine` is the same backend one atomic access at a time under any number of threads, proved
  linearizable, with what overlapping clients can rely on in `RealTimeOrder` and its progress in
  `MemoryProgress`; `SqliteStore` is the
  two-table transactional backend with a driver that may fail; `BackendAgreement` drives both.
- **The optimistic protocol** (`OptimisticRetry`, `ConcurrentEdits`, `ConditionalPut`, `EntityTag`): no
  lost update, a terminating retry loop, and the status codes and entity tags that carry it.
- **Idempotent creation** (`Idempotency`, `CreateProtocol`, `CreateReplay`, `CreateAnswers`,
  `CreateHandler`): the
  reservation table with two lapse windows and lazy sweeping, all interleavings of the create handler,
  including lapsed reservations, foreign releases and handlers that die while they wait, and when
  exactly a request is answered 201, with what body, and why it is refused.
- **Login throttling** (`Throttle`, `LoginProtocol`, `LoginOverlap`, `AccountGuesses`, `LoginHandler`):
  lazily expiring windows, and the bounds that really hold, and are reached, when checks and records
  overlap.
- **Tokens, key lists, decoding** (`Tokens`, `KeyList`, `Base64Url`, `Sharding`, `Bits`).

`Text`, `Sums` and `Wrappers` are support. `CreateHandler` and `LoginHandler` are the two handlers as
methods over the store classes; their interleaved steps are the protocol modules.

## How to read the model

Time is a natural number handed to each operation; along a run it never goes back. One critical
section reads the clock once; a logout reads it before its critical section, so the log of revocations
need not be in clock order. Hashes, body parsing and rendering, credential checks and JWT decoding
are function parameters about which nothing is assumed. A concurrent protocol is a labelled step
function over shared state with a program counter per thread or request; a run is any sequence of
labels that are enabled in turn, so a theorem about runs is about every scheduler. Where the source
updates fields, the model is a class whose methods are proved against a function of the old state, and
the machines and laws use the same function.

## Where the code and its comments differ

- `crates/profile-service/src/routes/profile.rs:57` says that reserving first keeps two concurrent
  retries from both running. They can both run once the first is as slow as the reservation timeout:
  `SlowHolderIsOverlapped` gives such a run, `TimelyRunsAreExclusive` and
  `SecondHolderAdmittedExactlyAtTimeout` say exactly when exclusion holds. Creation stays exactly-once
  either way (`CreatedExactlyOnce`).
- `crates/profile-service/src/routes/profile.rs:34-36` promises a retry the original response. It gets
  one if and only if the user's creator had settled under the same key, with a body of equal
  fingerprint, less than the retention before the retry arrived (`AnsweredCreatedExactly`). A creator
  that dies before it settles breaks the promise (`DeadCreatorBreaksReplay`), and so does one that is
  alive but slower than the reservation timeout (`SlowCreatorBreaksReplay`): both retries get 409.
- `crates/profile-service/src/store/sqlite.rs:322-324` calls the overflow failure identical to the
  other backend's. At a quoted version of 2^63-1 and above SQLite answers "exhausted" before it looks
  anything up (`AgreeExactlyWithinI64`, `DisagreementAtTheBound`).
- `crates/auth-service/src/token.rs:76` says the accepted keys include the active one. A retired key
  under the same id and another secret shadows it (`ActiveKeyIsUsedExactly`, `RetiredKeyShadowsActive`).
- `crates/auth-service/src/token.rs:172-173` says a revocation is recorded until the token would have
  expired. That holds for every clock read so far, but the list can be ahead of the last prune's
  reading, because overlapping logouts may lock in another order than they read the clock
  (`ListIsStandingRevocations`, `PrunedAheadOfTheLastReading`).
- `crates/auth-service/src/throttle.rs:65-68` calls the address limit the failures before an address is
  throttled. With at most K attempts between check and record the counter stays within limit-1+K
  (`AddressLimitUnderOverlap`), and for every limit and every K, with a single permit already, a run
  reaches exactly that (`LimitIsOvershot`); the limit holds if and only if attempts do not overlap
  (`LimitHoldsExactlyWithoutOverlap`).
- `crates/auth-service/src/routes/login.rs:24-27` says no account holds the password a throttled attempt
  offers. `UserDirectory::with_seed_user` does not check that, so `Login` states the answers for every
  directory: a throttled attempt succeeds if and only if that password is accepted for it and the
  token can be signed. An environment variable cannot carry its NUL characters, so only a direct
  caller can seed it.

## Model

| member | source | states |
|---|---|---|
| StoreContract.CreateStoresInput | crates/profile-service/src/store/mod.rs:99-134 | a create goes ahead if and only if the user has no profile; the profile shown and the one revision stored hold the address, phone number and time sent, at version 1 |
| StoreContract.ReadsShowTheLog | crates/profile-service/src/store/mod.rs:141-189 | a read shows the fields of the newest revision and an audit all revisions, and neither changes anything |
| StoreContract.PutIsCompareAndSwap | crates/profile-service/src/store/mod.rs:99-134 | an update is applied if and only if the profile exists at the quoted version and the counter can advance; stale, missing and exhausted are told apart, and nothing but an applied update changes the store |
| StoreContract.PutStoresInput | crates/profile-service/src/store/memory.rs:183-203 | the profile shown and the revision stored by an applied update hold the address, phone number and time sent |
| StoreContract.ApplyExtends | crates/profile-service/src/store/mod.rs:47-62 | no call removes or rewrites a revision, and each call touches its own user only |
| StoreContract.RunExtends | crates/profile-service/src/store/mod.rs:47-62 | along any sequence of calls every log only grows at its end |
| StoreContract.VersionConsumedOnce | crates/profile-service/src/store/mod.rs:11-18 | two accepted updates of one user never consume the same version, so a resent PUT is applied at most once |
| Sharding.ShardIndexIsRemainder | crates/profile-service/src/store/memory.rs:96-111 | masking with count-1 is the remainder modulo count, always in range, for every power-of-two count |
| Sharding.RoundingGivesPowerOfTwo | crates/profile-service/src/store/memory.rs:92-102 | rounding the shard count up ends at a power of two |
| Sharding.RoundingIsLeast | crates/profile-service/src/store/memory.rs:92-102 | and at the smallest one that is large enough |
| MemoryStore.InMemoryProfiles.WithShards | crates/profile-service/src/store/memory.rs:96-102 | the empty sharded map stands for the empty flat map, with at least the requested and fewer than twice as many shards |
| MemoryStore.InMemoryProfiles.ShardOfIsRemainder | crates/profile-service/src/store/memory.rs:105-111 | a user's shard is the high half of the hash modulo the number of shards |
| MemoryStore.InMemoryProfiles.Slot | crates/profile-service/src/store/memory.rs:129-131 | finds the one record of a user, or none exactly when the flat map has none |
| MemoryStore.InMemoryProfiles.Create | crates/profile-service/src/store/memory.rs:148-167 | has the effect and answer of the contract's create on the flat map, and keeps projection and log in step |
| MemoryStore.InMemoryProfiles.Get | crates/profile-service/src/store/memory.rs:121-123 | answers the projection of the newest revision |
| MemoryStore.InMemoryProfiles.Update | crates/profile-service/src/store/memory.rs:173-204 | has the effect and answer of the contract's compare-and-swap on the flat map |
| MemoryStore.InMemoryProfiles.History | crates/profile-service/src/store/memory.rs:206-211 | answers the whole log, oldest first |
| MemoryMachine.StepKeepsInv | crates/profile-service/src/store/memory.rs:146-211 | every atomic access of every thread keeps: one mutex holder, versions 1..n, and the log at most one entry ahead of the projection, only while its writer holds the mutex |
| MemoryMachine.StepSimulates | crates/profile-service/src/store/memory.rs:146-211 | each access is either invisible or exactly one atomic call: update at publish, stale at version load, missing at lookup, history at clone |
| MemoryMachine.Linearizable | crates/profile-service/src/store/memory.rs:32-36 | every interleaving of create, get, update and history calls looks to clients like the calls taking effect one at a time between call and return, with the contract's answers |
| MemoryMachine.AtomicRunIsSequential | crates/profile-service/src/store/mod.rs:99-147 | the answers and the final store of an atomic run are those of the sequential contract in the order the calls took effect |
| MemoryMachine.UnpublishedRevisionIsHidden | crates/profile-service/src/store/memory.rs:198-211 | while a revision is pushed but not published, no auditor of that user can move, so none sees it |
| RealTimeOrder.RunOf | crates/profile-service/src/store/memory.rs:129-211 | every run has the sequence of machines and published logs the next results speak about |
| RealTimeOrder.TakesEffectBetween | crates/profile-service/src/store/memory.rs:129-211 | in every interleaving, each call is decided at one label between its call and its return, with the answer and the effect the contract gives on the logs published just before it |
| RealTimeOrder.CommittedInOrder | crates/profile-service/src/store/memory.rs:32-36 | calls are commits of the linearization in the order in which they are decided |
| RealTimeOrder.ReturnedBeforeCalled | crates/profile-service/src/store/memory.rs:32-36 | a call that has returned before another is made is decided and takes effect before it, and the logs it left are prefixes of those the other takes effect on |
| RealTimeOrder.ShownThenAudited | crates/profile-service/src/store/memory.rs:121-131 | once a client was shown a profile at version v, every audit called later has at least v entries and entry v is that profile, however reads and half-done writes overlap |
| RealTimeOrder.ShownThenRead | crates/profile-service/src/store/memory.rs:121-131 | and every read called later finds version v or later, at v the same profile: reads never go back |
| RealTimeOrder.AcceptedUpdatesConsumeOnce | crates/profile-service/src/store/mod.rs:11-18 | in the order overlapping updates took effect, no two accepted ones of a user consume the same version |
| MemoryProgress.ReadsNeverWait | crates/profile-service/src/store/memory.rs:24-30 | in every reachable state a read can make its next access, whoever holds a mutex, and is answered after two |
| MemoryProgress.AccessIsProgress | crates/profile-service/src/store/memory.rs:129-211 | every access of a call brings it nearer its answer, of which it is at most six away |
| MemoryProgress.BlockedOnlyByOneWhoCanMove | crates/profile-service/src/store/memory.rs:173-211 | no reachable state deadlocks: a call is blocked if and only if it is a write or audit at a held mutex, and then the holder can move and is at most four accesses from releasing it |
| SqliteStore.SqlVersionRoundTrip | crates/profile-service/src/store/sqlite.rs:320-335 | a version converts to i64 if and only if it is below 2^63, and converts back to itself |
| SqliteStore.NegativeReadsAsZero | crates/profile-service/src/store/sqlite.rs:329-335 | a stored counter reads as version 0 if and only if it is zero or negative |
| SqliteStore.WriteKeepsConsistent | crates/profile-service/src/store/sqlite.rs:45-65 | writing one revision to both tables keeps each profiles row equal to its newest revision and the revisions gapless; the primary key of the insert is always free |
| SqliteStore.SqliteProfiles.Create | crates/profile-service/src/store/sqlite.rs:115-172 | reports a driver fault if and only if a driver call on its path fails, with both tables unchanged, and otherwise answers and acts like the contract |
| SqliteStore.SqliteProfiles.Get | crates/profile-service/src/store/sqlite.rs:174-196 | a driver fault if and only if the query fails, otherwise the contract's read |
| SqliteStore.SqliteProfiles.Update | crates/profile-service/src/store/sqlite.rs:198-278 | a driver fault if and only if a driver call on the path taken fails, commit included; otherwise row count, follow-up read and rollback give the contract's compare-and-swap within i64; everything but an applied update leaves both tables unchanged |
| SqliteStore.SqliteProfiles.History | crates/profile-service/src/store/sqlite.rs:280-309 | a driver fault if and only if the query fails, otherwise the rows ordered by version are the user's log, oldest first |
| SqliteStore.OneToN | crates/profile-service/src/store/sqlite.rs:285-291 | the ascending enumeration of the versions 1..n is 1, 2, …, n |
| SqliteStore.AgreeExactlyWithinI64 | crates/profile-service/src/store/sqlite.rs:214-230 | on one call the backends agree if and only if the quoted version's successor fits an i64 (or the log is at the last u64 version and quoted as such) |
| SqliteStore.DisagreementAtTheBound | crates/profile-service/src/store/sqlite.rs:320-327 | at 2^63-1 and no profile, memory answers missing and SQLite answers exhausted |
| BackendAgreement.BackendsAgree | crates/profile-service/src/store/mod.rs:30-32 | one SQLite store with a failing driver and one in-memory store, driven through any calls within the bound, go through the same logs: a call faults exactly if a driver call on its path fails, and otherwise both answer what the contract answers there |
| OptimisticRetry.RetryTerminates | crates/profile-service/tests/concurrency.rs:196-216 | under every scheduler the k-th client to commit was stale at most k times, stale answers total at most N(N-1)/2, and no run makes more than N(N+1) requests |
| OptimisticRetry.NeverStuck | crates/profile-service/tests/concurrency.rs:196-216 | a client can make its next request if and only if it is not done, so a run ends only when all are |
| OptimisticRetry.EveryEditSurvives | crates/profile-service/src/store/mod.rs:11-18 | when all clients are done each committed exactly once, and the versions are their edits applied one after another in commit order |
| OptimisticRetry.RunLosesNothing | crates/profile-service/src/store/memory.rs:183-203 | at every point of every run, each version is the next committer's edit of the version before it |
| OptimisticRetry.IncrementsAddUp | crates/profile-service/tests/concurrency.rs:180-237 | if each edit adds one to a reading of the profile, the reading has grown by exactly the number of commits |
| OptimisticRetry.StepIsOneRequest | crates/profile-service/src/store/memory.rs:187-203 | every request keeps the protocol's invariant and uses up one unit of the bounded work |
| ConcurrentEdits.EveryVersionIsAnEdit | crates/profile-service/src/store/memory.rs:183-203 | on the interleaved store, when each writer sends its edit of a profile it was shown with that version, version v+1 is always what one call sent as its edit of version v, there is one version for the create and one for each accepted update, and every profile shown to anyone is one of the versions |
| ConcurrentEdits.LogCountsAccepted | crates/profile-service/tests/concurrency.rs:180-237 | a user's log is as long as its create and its accepted updates together |
| ConcurrentEdits.IncrementsAddUp | crates/profile-service/tests/concurrency.rs:180-237 | so when each edit adds one to a reading, n accepted updates have added exactly n, in every interleaving of accesses |
| EntityTag.DisplayRoundTrips | crates/common/src/version.rs:52-57 | parsing a printed tag gives the version back, for every u64 |
| EntityTag.PrintsDecimal | crates/common/src/version.rs:52-57 | a version is printed in decimal digits, from the last one up |
| EntityTag.TagIsQuotedDecimal | crates/common/src/version.rs:52-57 | a printed tag is a quote, digits of that value without a leading zero, and a quote |
| EntityTag.BareDigitsAreAccepted | crates/common/src/version.rs:74-75 | the bare form typed by hand parses too |
| EntityTag.BlanksAreAccepted | crates/common/src/version.rs:79-85 | and so does a tag with blanks around it |
| EntityTag.PlusIsAccepted | crates/common/src/version.rs:79-85 | and a plus sign before the digits |
| EntityTag.ParseAcceptsExactly | crates/common/src/version.rs:71-86 | a header parses to v if and only if it is whitespace, quotes, an optional plus sign and digits of value v, quotes, whitespace |
| EntityTag.AccumulateIsValue | crates/common/src/version.rs:79-85 | overflow checks at each digit refuse exactly the digit strings of value 2^64 and above |
| EntityTag.AcceptedCharacters | crates/common/src/version.rs:74-78 | an accepted header holds only whitespace, quotes, plus signs and digits |
| EntityTag.WildcardWeakAndListRejected | crates/common/src/version.rs:77-78 | `*`, weak tags and tag lists are never accepted |
| ConditionalPut.ReadIsExact | crates/profile-service/src/routes/profile.rs:132-142 | a GET answers 200 if and only if there is a profile, with the tag of its version and the fields of its newest revision, and 404 otherwise |
| ConditionalPut.WritesExactlyOnMatch | crates/profile-service/src/routes/profile.rs:157-207 | a PUT writes if and only if it answers 200, which takes a valid body, a tag naming the stored version and a counter that can advance; 400, 404, 412, 422 and 428 are characterised likewise, by the shape of the tag |
| ConditionalPut.AcceptedPutStoresInput | crates/profile-service/src/routes/profile.rs:157-177 | an accepted PUT appends the one revision that holds what was sent and when, and touches nothing else |
| ConditionalPut.RefusalsShowAtMostTheTag | crates/profile-service/src/error.rs:155-163 | a 412 carries the tag of the stored version; no refusal shows a profile or another tag |
| ConditionalPut.RetryWithWinnersTag | crates/profile-service/src/error.rs:155-163 | quoting the tag of a 412 with no write in between is applied, unless the counter is exhausted |
| ConditionalPut.ReadThenWrite | crates/profile-service/src/routes/profile.rs:132-142 | and so is quoting the tag of a GET, for every user with a profile |
| ConditionalPut.WildcardNeverWrites | crates/profile-service/src/routes/profile.rs:193-207 | `If-Match: *`, weak tags and lists never write and answer 400 |
| Idempotency.IdempotencyStore.Expire | crates/profile-service/src/idempotency.rs:159-164 | keeps exactly the entries whose window is open, unchanged, and changes no answer and no effect of any later begin |
| Idempotency.IdempotencyStore.Begin | crates/profile-service/src/idempotency.rs:109-132 | sweeps, then reserves a free slot or reports what its entry says |
| Idempotency.IdempotencyStore.Finish | crates/profile-service/src/idempotency.rs:135-144 | for the retention the slot answers a begin with this outcome for an equal fingerprint and with a mismatch for any other; no other slot is touched |
| Idempotency.IdempotencyStore.Abandon | crates/profile-service/src/idempotency.rs:150-157 | frees a reserved slot for the next begin, leaves a recorded outcome answering as before, and touches no other slot |
| Idempotency.SweepingIsUnobservable | crates/profile-service/src/idempotency.rs:109-164 | in every run of calls, each begin is answered as by a machine of its slot alone whose entry vanishes at its exact deadline |
| Idempotency.OtherSlotsIrrelevant | crates/profile-service/src/idempotency.rs:225-235 | runs that agree on the calls of a slot answer its next begin alike, whatever other users and keys did |
| Idempotency.AnswersAreRecent | crates/profile-service/src/idempotency.rs:85-95 | a key is busy only through a reservation younger than the timeout, replays only an outcome younger than the retention, and mismatches only against another fingerprint, so a dead holder blocks its key for less than the timeout |
| Idempotency.EntryHasCause | crates/profile-service/src/idempotency.rs:59-70 | every entry comes from a begin that was told to go ahead or from a finish, with its fingerprint, time and outcome |
| CreateProtocol.StepKeepsInv | crates/profile-service/src/routes/profile.rs:45-108 | every step of every request, faulty or dying ones included, keeps all fresh, recorded and replayed outcomes equal to the first revision rendered, and takes no answer back |
| CreateProtocol.CreatedExactlyOnce | crates/profile-service/src/routes/profile.rs:45-108 | in every run at most one request per user ever holds or has sent a fresh outcome, and every 201 of a user is the same response, with tag "1" |
| CreateProtocol.OutcomeIsForever | crates/profile-service/src/routes/profile.rs:69-82 | in every continuation that response and the creating request stay the same |
| CreateProtocol.RecordedOutcomeIsReplayed | crates/profile-service/src/idempotency.rs:117-157 | a recorded outcome answers every later request on its key within the retention: itself for an equal fingerprint, 422 otherwise, whatever ran in between |
| CreateProtocol.TimelyRunsAreExclusive | crates/profile-service/src/routes/profile.rs:57-65 | if every request finishes or releases within the timeout, at most one per user and key works at a time and it still owns its reservation |
| CreateProtocol.SecondHolderAdmittedExactlyAtTimeout | crates/profile-service/src/idempotency.rs:85-88 | after a timely run and any further step, a second request is let in under a held key if and only if its holder has taken the reservation timeout |
| CreateProtocol.SlowHolderIsOverlapped | crates/profile-service/src/routes/profile.rs:57 | a run in which two requests work under one key at once |
| CreateReplay.RunHasTrace | crates/profile-service/src/routes/profile.rs:45-108 | every run has the sequence of worlds the next theorems speak about, and ends in its last |
| CreateReplay.ReplaysExactlyRecorded | crates/profile-service/src/idempotency.rs:117-157 | at every point of every run, a key is answered with a replay if and only if the user's creator settled under it with a body of equal fingerprint less than the retention ago |
| CreateReplay.AnsweredCreatedExactly | crates/profile-service/src/routes/profile.rs:34-36 | in every run a request is answered 201 if and only if it is the user's creator and reaches its settle, or the creator had settled under the same key and fingerprint less than the retention before it arrived |
| CreateReplay.DeadCreatorBreaksReplay | crates/profile-service/src/routes/profile.rs:34-36 | for every user, key and body a run in which the creator dies while it waits and the retry gets 409 |
| CreateReplay.SlowCreatorBreaksReplay | crates/profile-service/src/routes/profile.rs:34-36 | and one in which the creator is only slow: the retry gets 409 and then the creator answers 201 |
| CreateAnswers.CreatedBodyIsWhatWasSent | crates/profile-service/src/routes/profile.rs:86-108 | in every run, every 201 of a user, fresh or replayed, is the rendering of the profile the creating request's body describes, at version 1 with tag "1" |
| CreateAnswers.RefusalHasCause | crates/profile-service/src/routes/profile.rs:57-98 | in every run, every refusal has its cause: a held key (409), a key used for another body (422), a bad body (its status), an existing profile (409) or a failed store (500) |
| CreateAnswers.RefusedFreesKey | crates/profile-service/src/routes/profile.rs:69-80 | a refused request frees its key for a corrected retry, unless an outcome is recorded there, and touches no other key |
| CreateAnswers.CreatedHoldsKey | crates/profile-service/src/routes/profile.rs:69-80 | a created outcome is answered and replayed to every equal body for the retention |
| CreateAnswers.NoKeyNoEntry | crates/profile-service/src/routes/profile.rs:51-55 | a request without a key or with an empty one is always let in and begins nothing |
| CreateHandler.ProfileService.CreateOnce | crates/profile-service/src/routes/profile.rs:86-108 | succeeds if and only if the body parses and the user has no profile, with the rendering of the profile sent, and fails with the right status and an unchanged store |
| CreateHandler.ProfileService.Create | crates/profile-service/src/routes/profile.rs:45-83 | begins, creates and settles at three clock readings; a fresh 201 is the rendering of the profile sent, at version 1 |
| CreateHandler.StandingEntryAnswers | crates/profile-service/src/routes/profile.rs:57-65 | a standing entry answers by itself and nothing is created: 422 to another body, 409 while at work, its outcome once recorded |
| CreateHandler.FreeRequestIsAnswered | crates/profile-service/src/routes/profile.rs:67-108 | otherwise a bad body is refused with its status, an existing profile with 409, and anything else creates the profile sent and answers its rendering |
| CreateHandler.FreeRequestSettlesKey | crates/profile-service/src/routes/profile.rs:69-80 | and the key then holds the outcome if one was created, and nothing otherwise |
| CreateHandler.AloneIsARun | crates/profile-service/src/routes/profile.rs:45-83 | every such answer, with any waits in between, is one of the runs the protocol theorems speak about, with the same answer and stores |
| Throttle.Counters.Over | crates/auth-service/src/throttle.rs:146-160 | answers whether the open window has reached the limit, and drops a lapsed one |
| Throttle.Counters.RecordOne | crates/auth-service/src/throttle.rs:163-175 | counts one more failure in the open window, or opens a new one |
| Throttle.LoginThrottle.Check | crates/auth-service/src/throttle.rs:89-111 | tests the address first, then the account, with the verdict and the pruning of both |
| Throttle.LoginThrottle.RecordFailure | crates/auth-service/src/throttle.rs:114-123 | bumps the account and, if known, the address |
| Throttle.LoginThrottle.RecordSuccess | crates/auth-service/src/throttle.rs:130-132 | clears the account's counter and nothing else |
| Throttle.VerdictIsFoldOfLog | crates/auth-service/src/throttle.rs:89-175 | in every run each verdict is computed from the recorded failures and successes alone: checks, other accounts and other addresses leave no trace |
| Throttle.TallyCountsLastFailures | crates/auth-service/src/throttle.rs:46-51 | a count of n in a window from s means the last n events are failures from s on and before s+window |
| Throttle.LockoutEnds | crates/auth-service/src/throttle.rs:69-70 | failures during a lockout never extend it past window_started + window |
| Throttle.IntervalBound | crates/auth-service/src/throttle.rs:163-175 | if no window counts more than c failures, no interval one window long holds more than 2c-1 |
| Throttle.IntervalBoundIsAttained | crates/auth-service/src/throttle.rs:163-175 | and 2c-1 is reached, for every cap and every window of at least two ticks |
| LoginProtocol.PermitsAreConserved | crates/auth-service/src/lib.rs:76-84 | free and held permits always add up to the total, through crashes and dead handlers, so never more verifications run than there are permits |
| LoginProtocol.AddressLimitUnderOverlap | crates/auth-service/src/routes/login.rs:47-77 | with limit L and at most K overlapping attempts, count plus pending never exceeds L-1+K, nor does the stored counter, and any interval one window long sees at most 2(L-1+K)-1 failures |
| LoginOverlap.LimitIsOvershot | crates/auth-service/src/routes/login.rs:65-77 | for every limit L, every K and every positive number of permits, a run with at most K overlapping attempts stores exactly L-1+K failures in one window |
| LoginOverlap.LimitHoldsExactlyWithoutOverlap | crates/auth-service/src/throttle.rs:65-68 | all runs with overlap at most K keep the stored count within the limit if and only if K is at most 1 |
| LoginOverlap.IntervalBoundIsReached | crates/auth-service/src/throttle.rs:163-175 | and a run records 2(L-1+K)-1 failures in an interval one window long, for every window of at least two ticks |
| AccountGuesses.GuessesUnderOverlap | crates/auth-service/src/routes/login.rs:47-77 | with account limit L and at most K overlapping guesses, the wrong guesses of the caller's own password recorded in the open window since the last success, plus those in flight, never exceed L-1+K, although throttled attempts count without bound |
| AccountGuesses.GuessesInAnyInterval | crates/auth-service/src/throttle.rs:163-175 | and no interval one window long sees more than 2(L-1+K) such guesses with no success after them |
| LoginOverlap.GuessLimitIsOvershot | crates/auth-service/src/routes/login.rs:65-77 | a run with at most K overlapping guesses records exactly L-1+K in one window, for every account limit L, K and number of permits |
| LoginOverlap.GuessesAcrossWindows | crates/auth-service/src/throttle.rs:163-175 | and another 2(L-1+K)-1 in an interval one window long |
| LoginHandler.AuthService.Login | crates/auth-service/src/routes/login.rs:34-85 | 200, 401, 429, 500 and 503 each if and only if; a throttled account is judged by the unmatchable password, counted like any failure and, when nobody holds that password, never let in; the permit always comes back |
| LoginHandler.AloneIsARun | crates/auth-service/src/routes/login.rs:34-85 | every answer of the handler, with any time between check and record, is a run of the protocol with the same answer, tables and permits |
| Tokens.TokenService.constructor | crates/auth-service/src/token.rs:88-111 | the table maps each key id to the last key of active-then-retired that carries it |
| Tokens.TokenService.Issue | crates/auth-service/src/token.rs:128-136 | the claims name the user, the login and the token, are issued now and live for the ttl |
| Tokens.TokenService.Verify | crates/auth-service/src/token.rs:151-168 | accepts a token if and only if its key id is known, it decodes under that key and its id is not revoked |
| Tokens.TokenService.Revoke | crates/auth-service/src/token.rs:174-180 | forgets exactly the other tokens whose expiry its clock reading has reached, keeps the rest unchanged and lists this one until its expiry |
| Tokens.ActiveKeyIsUsedExactly | crates/auth-service/src/token.rs:95-101 | fresh tokens are looked up under the key that signed them if and only if no retired key reuses the active id with another secret in last place |
| Tokens.RetiredKeyShadowsActive | crates/auth-service/src/token.rs:95-101 | one retired key under the active id and another secret is looked up instead of the active one |
| Tokens.RotationOverlaps | crates/auth-service/src/token.rs:5-10 | with distinct ids, tokens of the new and of the retired key are both looked up under their own key |
| Tokens.RevokedUntilExpiry | crates/auth-service/src/token.rs:170-180 | when no two tokens share an id, a revoked token stays on the list for as long as no clock read since has reached its expiry, in whatever order overlapping logouts lock |
| Tokens.RevokedForItsLifetime | crates/auth-service/src/token.rs:170-180 | so a revoked token stays revoked for the ttl it was issued with, counted from its issue |
| Tokens.ListIsStandingRevocations | crates/auth-service/src/token.rs:170-180 | an id is on the list with an expiry if and only if some revocation of it was followed by no prune at or past that expiry and by no revocation of the same id |
| Tokens.PrunedAheadOfTheLastReading | crates/auth-service/src/token.rs:174-180 | clock readings 10, 13, 11 of overlapping logouts lose a token that expires at 12 |
| Tokens.ListIsBounded | crates/auth-service/src/token.rs:172-173 | after a revocation the list holds at most one entry more than the tokens this service issued in the last ttl seconds |
| Tokens.TokenService.RevokedCount | crates/auth-service/src/token.rs:182-187 | reports the size of the list, and so, when only tokens of this service are revoked, at most one more than those issued in the last ttl seconds |
| KeyList.EntryIsParsed | crates/auth-service/src/config.rs:92-98 | an entry's key id loses the blanks around it, its secret keeps its own, the first equals sign separates them, and an empty secret skips it |
| KeyList.MalformedEntryIsSkipped | crates/auth-service/src/config.rs:86-98 | an entry without a separator, or with only blanks before it, is skipped |
| KeyList.ParseJoined | crates/auth-service/src/config.rs:86-98 | parsing a;b is parsing a and then b, for all strings, so a malformed entry affects no other |
| KeyList.RoundTripExactlyWhenPrintable | crates/auth-service/src/config.rs:92-98 | the parser inverts the printer if and only if every key is one the syntax can carry |
| KeyList.ReparseIsStable | crates/auth-service/src/config.rs:92-98 | printing and reparsing a parsed list changes nothing |
| Base64Url.PositionIsIndex | crates/loadgen/src/main.rs:147-153 | the sextet of a character is its index in the alphabet, and foreign characters have none |
| Base64Url.ScaleIsPowerOfTwo | crates/loadgen/src/main.rs:155-159 | the right shift by `bits` divides by two to the power of `bits` |
| Base64Url.DecodePayload | crates/loadgen/src/main.rs:150-163 | the loop, with its unmasked 32-bit buffer, computes the decoding function and stops at the first foreign character |
| Base64Url.OnlyLowBitsMatter | crates/loadgen/src/main.rs:157-162 | the high bits the buffer has collected or dropped never influence a byte |
| Base64Url.DecodeInvertsEncode | crates/loadgen/src/main.rs:149-163 | decoding the unpadded base64url encoding (section 5 of RFC 4648) of any byte string gives it back |
| Base64Url.FourCharactersDecode | crates/loadgen/src/main.rs:149-163 | any four characters give the three bytes of their 24 bits, and what follows decodes on its own |
| Base64Url.TailOfTwo | crates/loadgen/src/main.rs:149-163 | a tail of two characters gives one byte, whatever bits are left over |
| Base64Url.TailOfThree | crates/loadgen/src/main.rs:149-163 | and a tail of three gives two |
| Base64Url.DecodedLength | crates/loadgen/src/main.rs:149-163 | decoding succeeds if and only if every character is in the alphabet, and n characters give 6n/8 bytes rounded down |

## Left out

- axum routing, extractors, middleware, the gateway hop and request correlation: plumbing.
- Argon2, decoy-hash timing, constant-time comparison, JWT encoding and signatures: foreign code or wall-clock claims; a credential check and a token decoder are parameters.
- The expiry rule of the JWT library: its leeway is not visible in this repository, so revocation is claimed for times before `exp`; `now + ttl` is not bounded to 64 bits.
- The SQLite engine: tables are maps, a transaction is a copy that is committed or dropped, and a failed commit has no effect; the driver's refusal of timestamps from 2^63 on is one of the driver faults. Rows written by other programs are not modelled.
- JSON: parsing with validation is one function from bodies to inputs or statuses, rendering is total. The individual branches of `ProfileInput::validate` are not modelled.
- The SQLite connection mutex is held for a whole call, so those calls are modelled one at a time. `CreateProtocol` and `OptimisticRetry` take a store call as one step; for the in-memory backend `ConcurrentEdits` carries no-lost-update to single accesses, but the bounds on retries stay at whole calls.
- Shard locks are not separate states of `MemoryMachine`: each is held across one lookup or insert, which is one step there.
- Sequentially consistent memory is assumed for the atomic projection and the mutex; a power-of-two rounding that does not fit a machine word is not modelled.
- The account counter has no overflow claim: throttled attempts bump it too, so no bound of this kind exists for it.
- A guess whose handler died while it was verified is neither answered nor recorded, and `AccountGuesses` does not count it.
- `LoginOverlap` is about limits of at least 1; a limit of 0 lets an attempt through like a limit of 1.
- Audit timestamps carry no ordering claim; the version sequence orders revisions.
- Loss of the counters and reservations on restart, and several replicas with their own copies.
- FxHash quality, benchmarks, load generation, error bodies and environment configuration other than the key list.
