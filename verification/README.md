# A closed-alpha matching service, modelled and proved

The service lets at most fifty people register through single-use invites, has them answer
onboarding questions, unlock each other's private profiles, and exchange messages until one blocks
the other. This project models the parts where that is hard: database protocols whose statements
interleave, and the numeric and list code that decides admission, depth, readiness and supply.

**Protocols.** Each protocol is a deterministic machine: a state of committed rows, open
transactions and locks, and one action per SQL statement. Everything the environment decides is in
the action: which session moves, what clock value a session read earlier, which statement fails or
loses its reply, what id or capability was generated. "Every interleaving" is therefore "every
sequence of actions", and the theorems quantify over `Runs.Run(Apply, s, acts)` for all `acts`.
Statements read committed rows plus their own transaction's writes, and wait for uncommitted rows
of other transactions. Beside each machine stands a class whose fields are the tables and whose
methods are the procedures of the source, each proved to do what its statements do when no other
session interferes.

- `Invites`, `InviteTheorems`, `InviteService`: the Stage-1 invite lifecycle. Only creation takes
  the capacity lock; reserving, releasing, consuming and revoking interleave with it.
- `Registration`, `RegistrationTheorems`: finalization consumes the invite, stores the legal
  acceptance, marks the user and ensures the profile in one transaction; a compensating delete
  follows a failure.
- `Conversation`, `ConversationTheorems`, `ConversationService`: block against message under the
  pair lock, with an arbitrary hash.
- `RateLimit`: the fixed-window limiter, with pruning in the same statement.
- `Onboarding`, `OnboardingTheorems`, `OnboardingService`: a save without a transaction, that may
  stop between any two statements; undisturbed, its statements are the procedure.
- `Unlocks`: attempt and unlock rows written in one transaction.

**Algorithms.** `ObservationLog`, `ProofCases`, `ProofArtifact` and `ReadinessEvidence` follow a
readiness proof from the test log to the check of the combined evidence, with `Hostnames` for the
deployment it is about. `SchemaSnapshot` (on `StableSort` and `Doubles`) is the canonical form of a
schema and the migration ledger comparison; `SchemaTheorems` says which changes it shows. `Supply` is the
balance metric, `BalancePolicy` the admission gate and the consent check. `AnswerText` reads an answer
(trimming, tokens, the literal patterns), `DepthHeuristic` scores it and `DepthTheorems` says what the
verdict does on actual texts; `DepthFeatures` and `Percentile` are the other scoring code. `Options`,
`Runs` and `Products` are shared vocabulary.

## What turned out false, and exactly when it holds

- The 65% share bound on an admitted invite holds of the seats counted, not of the committed table:
  a revocation between count and insert breaks it (`RevokeBetweenCountAndInsertBreaksShare`). It
  holds exactly when the gate would still admit at the insert (`ShareAfterInsertExactly`).
- A consumed invite does not always have a consumer. In every run from a table without consumed rows,
  each consumed invite belongs to a finalized user unless some commit took effect, was reported as a
  failure, and was followed by the compensating delete of its user; then, and only then, an invite is
  consumed by nobody (`ConsumedHaveConsumersExactly`, `OrphanedExactly`; `LossCanHappen` is such a run).
- The conversation protocol is safe in every run exactly when the lock key ignores the order of the
  pair (`SafeExactlyWhenKeySymmetric`); the code's key does.
- `compareScalars` is not transitive on a column that mixes numbers and text
  (`MixedColumnNotTransitive`), so there the canonical form depends on the order the rows were read
  in (`MixedColumnRemembersOrder`). For rows from any set and any columns, it forgets that order
  exactly when the comparison is transitive there and tells different rows apart
  (`RowSortForgetsOrderExactly`, `SectionForgetsOrderExactly`); columns of one type are transitive
  (`RowsConsistent`).
- The canonical section lists a composite foreign key in its declared column order exactly when the
  comparator sees its ordinals ascending (`FkPairingSurvivesExactly`). Numbers always do
  (`NumbersAscend`). The query delivers a 64-bit ordinality; a driver that hands it over as text keeps
  the order only up to nine columns (`TextsAscendExactly`).
- The depth verdict is monotone in the score exactly for texts of at most one or at least twelve
  characters (`MonotoneExactly`): at every length in between, a one-word answer is reviewed and a
  better one is rejected as too short.
- The burst bound is sharper than twice the limit: at most 2 * limit - 1 in any window-long span,
  and that is reached (`BurstBelowTwiceLimit`, `BurstBoundIsTight`).
- From no counted seats at all, no counted invite is ever admitted (`NoCountedSeatIsEverAdmitted`).
- The 80% coverage requirement of the supply metric refuses nothing on the rows its query delivers,
  because that query selects counted buckets only (`CountedRowsCoverFully`).
- In an onboarding retry the stored text stays and the evaluation is that of the later call
  (`CompleteExistingOnboardingAnswer`). The completion of an existing answer is returned without
  being awaited, so its exceptions reject the promise instead of becoming a database error
  (`Onboarding.Rejected`).

## Model

| member | source | states |
|---|---|---|
| BalancePolicy.ShareThreshold | lib/alpha/stage1-policy.ts:101-108 | comparing the majority share with a percentage is an exact integer comparison |
| BalancePolicy.GateBands | lib/alpha/stage1-policy.ts:90-109 | the four bands of the gate in whole seats, and the favoured bucket is the strictly smaller one |
| BalancePolicy.AdmittedIffBelow65 | lib/alpha/invite-admin.ts:128-138 | a counted seat is admitted if and only if its own bucket, with it, stays below 65% of the counted seats |
| BalancePolicy.RefusedInSeats | lib/alpha/invite-admin.ts:128-138 | HARD_GATE exactly from 70% of the counted seats on, SOFT_WAITLIST exactly from 65% up to it, in whole seats of the own bucket |
| BalancePolicy.FirstCountedSeatRefused | lib/alpha/invite-admin.ts:128-138 | from 0/0 counted seats either bucket is refused as HARD_GATE |
| BalancePolicy.ValidateConsent | lib/alpha/stage1-policy.ts:66-85 | no error exactly for an uncounted seat without consent, or a counted one with the current version and a day of the calendar |
| BalancePolicy.CalendarDateExactly | lib/alpha/stage1-policy.ts:78-84 | round trip: the consent dates accepted are exactly the days of the calendar as they are written |
| BalancePolicy.MonthLengths | lib/alpha/stage1-policy.ts:81-84 | the month lengths a consent date is checked against alternate as in the calendar |
| BalancePolicy.LeapRule | lib/alpha/stage1-policy.ts:81-84 | its years are those of the Gregorian calendar, by inclusion and exclusion of the multiples of 4, 100 and 400 |
| Invites.StepEvolves | lib/auth/invite-gate.ts:40-56 | no statement removes a row, changes what identifies it, or touches a consumed, expired or revoked row |
| Invites.EvolvingKeepsCreator | lib/alpha/invite-admin.ts:84-127 | what the capacity transaction has swept, checked and counted survives any statement of another session |
| Invites.InsertKeepsInv | lib/alpha/invite-admin.ts:139-154 | the insert keeps the cap of 50, one live seat per email, and unique codes |
| Invites.StepKeepsInv | lib/alpha/invite-admin.ts:84-154 | every statement of every session keeps the whole invariant |
| InviteTheorems.CapacityInEveryRun | lib/alpha/invite-admin.ts:84-154 | in every interleaved run at most 50 Stage-1 rows are pending, reserved or consumed and no two of them share an email, with clocks read before the lock wait |
| InviteTheorems.LifecycleInEveryRun | lib/auth/invite-gate.ts:130-195 | over any run of invite statements rows keep their identity, and consumed rows (with their consumer), expired and revoked rows never change |
| InviteTheorems.DeadCapabilityNeverConsumes | lib/auth/invite-gate.ts:140-160 | a capability whose reservation was released, superseded or ended never reserves the row again and never consumes it, in any later state |
| InviteTheorems.OnlyHolderConsumes | lib/auth/invite-gate.ts:130-175 | consumption needs the current capability and an unexpired Stage-1 row, and changes exactly that row |
| InviteTheorems.ShareAfterInsertExactly | lib/alpha/invite-admin.ts:111-154 | after an insert the own bucket is below 65% of the committed counted seats if and only if the gate on the seats at the insert still admits |
| InviteTheorems.AdmittedLeavesOwnBucketBelow65 | lib/alpha/invite-admin.ts:111-138 | with nothing between count and insert every admitted counted invite leaves its bucket below 65% |
| InviteTheorems.RevokeBetweenCountAndInsertBreaksShare | scripts/alpha/invite.ts:84-95 | a concrete run of six statements from a table with no open transaction, in which a revocation between count and insert leaves an admitted seat's bucket above the bound |
| InviteTheorems.NoCountedSeatIsEverAdmitted | lib/alpha/invite-admin.ts:60-66 | every run that starts without counted seats stays without them |
| InviteService.Service.CreateStage1Invite | lib/alpha/invite-admin.ts:73-166 | refuses an invalid consent before the transaction; then performs exactly the lock, sweep, check, count and insert; refuses for each reason exactly when it applies, in the fields of the rows that take a seat; on success the new row and every other row are stated field by field, and only expired open rows have changed |
| InviteService.ObservedSeats | lib/alpha/invite-admin.ts:84-127 | what the transaction counts after its sweep are the committed rows that are consumed, or open and unexpired |
| InviteService.Service.ReserveInviteForEmail | lib/auth/invite-gate.ts:26-99 | a reservation is of a pending, unexpired Stage-1 row with this code and this email, and changes only its status, time and capability; whenever there is such a row it is reserved; otherwise the table is left alone and the report is given by the fields of the row with the code: the email first, then how the invite ended |
| InviteService.Service.ReleaseStaleReservedInvites | lib/auth/invite-gate.ts:177-198 | exactly the Stage-1 reservations older than fifteen minutes become pending, every other row stays; returns how many rows changed |
| InviteService.Service.VerifyInviteReservation | lib/auth/invite-gate.ts:103-128 | true exactly for the current capability and email of a reserved, unexpired Stage-1 row, which is when presenting the ticket now would consume the invite it names |
| InviteService.Service.ConsumeReservedInvite | lib/auth/invite-gate.ts:130-175 | succeeds exactly with the current capability of a reserved, unexpired Stage-1 row, changes only that row, and distinguishes missing, consumed and mismatched |
| InviteService.Service.RevokeInvite | scripts/alpha/invite.ts:84-98 | exactly the open rows of the email become revoked, every other row stays; returns how many rows changed |
| InviteService.CreatedSeats | lib/alpha/invite-admin.ts:111-127 | the seats live after an insert are the seats counted before it and the new one, in total and per bucket |
| InviteService.ReserveVerifyConsume | lib/auth/invite-gate.ts:26-175 | round trip: a reservation yields a capability that consumes exactly its row at any instant before expiry |
| Registration.CommitKeepsInv | lib/auth/invite-finalization.ts:113-146 | a committed finalization makes exactly one consumer, acknowledged or not |
| Registration.DeleteCommittedKeepsInv | lib/auth/invite-finalization.ts:65-79 | deleting a user whose commit took effect keeps every invariant but leaves its invite without consumer |
| Registration.CompensationErasesUser | lib/auth/invite-finalization.ts:65-79 | after a failure and after a lost commit alike, the compensating delete leaves the user in no table and consumer of no invite, and changes nothing of anybody else |
| Registration.StepKeepsInv | lib/auth/invite-finalization.ts:102-159 | every statement of every session keeps: consumers are exactly the committed finalizations, one invite each |
| Registration.FinalizedExactlyWhenOwningOneInvite | lib/auth/invite-finalization.ts:47-159 | in every run a user is marked finalized exactly when it owns exactly one consumed invite, and then has an acceptance and a profile |
| Registration.FailureLeavesInviteReusable | lib/auth/invite-finalization.ts:146-158 | failing at any statement, whether or not the compensating delete works, changes no invite row, and the invite can be consumed by the next attempt |
| Registration.FailedCommitOutcome | lib/auth/invite-finalization.ts:146-158 | what each failure after the last statement leaves: rolled back, the invite is open; committed unacknowledged, it is consumed, by nobody if the delete works |
| RegistrationTheorems.LifecycleInEveryRun | lib/auth/invite-finalization.ts:65-159 | between any two points of a registration run rows keep their identity, and a consumed, expired or revoked row stays as it is except that its consumer may be cleared |
| RegistrationTheorems.OwnerClearedOnlyByCompensation | lib/auth/invite-finalization.ts:65-79 | a consumer is cleared only by the compensating delete of that user, at a point where its commit had been lost |
| RegistrationTheorems.CompensatedStaysGone | lib/auth/invite-finalization.ts:65-79 | in every continuation of every run a compensated user has no row, acceptance, profile or invite again |
| RegistrationTheorems.OrphanedExactly | lib/auth/invite-finalization.ts:146-158 | in every run some invite is consumed by nobody if and only if an effective commit that was reported as a failure was later followed by the compensating delete of its user |
| RegistrationTheorems.ConsumedHaveConsumersExactly | lib/auth/invite-finalization.ts:102-159 | in every run every consumed invite has a finalized consumer if and only if there was no such loss |
| RegistrationTheorems.LossCanHappen | lib/auth/invite-finalization.ts:146-158 | a concrete registration run with such a loss, ending with an orphaned invite |
| Registration.CallSucceeds | lib/auth/invite-finalization.ts:102-146 | an undisturbed call that passes its checks leaves exactly these four writes |
| Registration.CallFails | lib/auth/invite-finalization.ts:146-158 | an undisturbed call that fails any check or injection leaves only the effect of the compensation |
| Registration.CallIsAllOrNothing | lib/auth/invite-finalization.ts:102-159 | the call performs its statements, keeps every invariant, and either finalizes or changes no invite |
| Registration.Database.Transaction | lib/auth/invite-finalization.ts:113-143 | each outcome exactly when its check is the first to fail; on success all four tables are written, the invite field by field |
| Registration.Database.CompensateFailedRegistration | lib/auth/invite-finalization.ts:65-79 | the user is gone from all three tables and no invite names it; every other user, acceptance, profile and invite field stays; or nothing changes |
| Registration.Database.FinalizeInviteRegistration | lib/auth/invite-finalization.ts:102-159 | a success leaves the four writes; a failure leaves the tables before the call, or those without this user if the compensating delete works; refused legal versions leave everything alone |
| Conversation.SendStepKeepsInv | lib/db/repositories/messages.repository.ts:33-162 | each statement of a send, under the lock or not, keeps the protocol invariant |
| Conversation.BlockStepKeepsInv | lib/db/repositories/blocks.repository.ts:23-37 | each statement of a block keeps it, so no sender past its checks can meet a committing block |
| Conversation.StepKeepsInv | lib/db/repositories/messages.repository.ts:127-162 | every statement of every transaction keeps it |
| ConversationTheorems.ConversationSafe | lib/db/repositories/conversation-lock.ts:12-21 | for any hash and any number of transactions, no message commits after a block on its pair, and every message had a committed unlock in one direction |
| ConversationTheorems.AsymmetricKeyUnsafe | lib/db/repositories/conversation-lock.ts:17-20 | with a key that depends on the order of the pair a concrete run sends after a block |
| ConversationTheorems.SafeExactlyWhenKeySymmetric | lib/db/repositories/conversation-lock.ts:17-20 | no message after a block in every run, if and only if the key is symmetric |
| ConversationService.MayTalkIsMutual | lib/db/repositories/messages.repository.ts:33-83 | permission to talk does not depend on who asks |
| ConversationService.SendAlone | lib/db/repositories/messages.repository.ts:127-162 | a send running alone commits its message exactly when the pair may talk, and releases its lock |
| ConversationService.Database.AuthorizeConversation | lib/db/repositories/messages.repository.ts:33-83 | grants exactly to an onboarded user asking for another onboarded user's profile, with no block either way and an unlock in one direction; names the first reason otherwise |
| ConversationService.Database.CreateMessage | lib/db/repositories/messages.repository.ts:127-162 | stores the message exactly when the body is acceptable and the pair may talk, and otherwise nothing |
| ConversationService.Database.CreateBlock | lib/db/repositories/blocks.repository.ts:18-58 | afterwards the block exists, inserted or found, and neither user may talk to the other; a self block, a missing user or a storage failure changes nothing |
| RateLimit.PruneOrderIrrelevant | lib/security/rate-limit.ts:47-66 | pruning before or after the upsert gives the same row for the requested key |
| RateLimit.PruningRefinesReference | lib/security/rate-limit.ts:43-66 | over every nondecreasing-time run on any keys the pruning limiter decides as the one that never prunes |
| RateLimit.AllowedExactlyFirstInWindow | lib/security/rate-limit.ts:52-79 | a request is allowed if and only if it is among the first `limit` of its key's window; `remaining` is what is left |
| RateLimit.WindowSpan | lib/security/rate-limit.ts:55-62 | between the request that starts a window and its end nothing else starts one |
| RateLimit.BurstBelowTwiceLimit | lib/security/rate-limit-policy.ts:5-13 | any half-open span of one window length holds at most 2 * limit - 1 allowed requests of a key |
| RateLimit.BurstBoundIsTight | lib/security/rate-limit-policy.ts:5-13 | for every scope some run reaches that bound: 19, 39, 9 or 5 requests within its 10, 15, 60 or 1440 minutes |
| RateLimit.RetryAfterIsExact | lib/security/rate-limit-policy.ts:28-34 | Retry-After is the fewest whole seconds after which the key's next request is allowed, whatever else happens and however often the key retries before |
| RateLimit.RateLimiter.ConsumeRateLimit | lib/security/rate-limit.ts:35-84 | decides and updates the table as the one statement does: the row restarts exactly when its window has passed, rows of other keys go exactly when older than two days; a storage failure changes nothing |
| Onboarding.InsertAnswerKeepsInv | lib/db/repositories/answers.repository.ts:180-194 | inserting an answer, refused, applied or applied with its reply lost, keeps every invariant |
| Onboarding.InsertEvaluationKeepsInv | lib/db/repositories/answers.repository.ts:82-101 | so does inserting an evaluation: one per answer, and never without its answer |
| Onboarding.MarkKeepsInv | lib/server/persistence/onboarding-finalize.ts:11-17 | marking keeps the invariant: a call passes the gate only with flags that claim an evaluation, and its flags claim only what is stored |
| Onboarding.StepKeepsInv | lib/db/repositories/answers.repository.ts:103-227 | every statement of every call keeps the invariant |
| OnboardingTheorems.OnboardedOnlyWhenComplete | lib/db/repositories/answers.repository.ts:103-227 | in every run with crashes, failures and lost replies an onboarded profile has a stored answer with its evaluation, one answer per user and question, one evaluation per answer |
| OnboardingTheorems.OnTrackStep | lib/db/repositories/answers.repository.ts:129-227 | an undisturbed call moves strictly closer to its end with every statement, having written exactly what belongs to that point |
| OnboardingTheorems.UndisturbedCallRecovers | lib/db/repositories/answers.repository.ts:129-227 | from any state such a run can leave, one undisturbed call succeeds within eight statements, does exactly what the procedure does (text, verdict, nickname, duplicate, and nothing else), and leaves the profile onboarded with its answer evaluated |
| OnboardingTheorems.UndisturbedCallIsTheProcedure | lib/db/repositories/answers.repository.ts:161-227 | with the foreign keys in force, for every input, known user and question or not: the undisturbed run of the statements writes and reports what `SaveOnboardingAnswer` does |
| Onboarding.SavesDetermines | lib/db/repositories/answers.repository.ts:161-227 | that description of a save leaves neither its tables nor its result open |
| OnboardingTheorems.LostRaceCompletesWinner | lib/db/repositories/answers.repository.ts:211-218 | a call that loses the race for the answer completes the winner's: its text stays and a duplicate is reported |
| OnboardingTheorems.WrappedRaceIsReported | lib/db/repositories/answers.repository.ts:211-223 | when the violation arrives wrapped its code is not seen: a database error, and nothing is written |
| OnboardingTheorems.LostProfileRaceSaves | lib/db/repositories/answers.repository.ts:45-56 | a call that loses the race for the profile row saves as if it had found it |
| OnboardingTheorems.FailedStatementEnds | lib/db/repositories/answers.repository.ts:161-227 | a failing statement ends its call without reporting success: rejected exactly on the way of completing an earlier answer, except at the evaluation; it changes nothing unless only its reply was lost |
| OnboardingTheorems.ContentsInEveryRun | lib/db/repositories/answers.repository.ts:82-112 | in every run each answer, verdict and nickname stored was there at the start or came from a call of that user for that question |
| OnboardingService.Repository.UpsertProfileMetadata | lib/db/repositories/answers.repository.ts:32-57 | writes the nickname and never changes whether the profile is onboarded |
| OnboardingService.Repository.HasDepthEvaluation | lib/db/repositories/answers.repository.ts:72-80 | true exactly when the answer has an evaluation, and then it has exactly one |
| OnboardingService.Repository.CompleteExistingOnboardingAnswer | lib/db/repositories/answers.repository.ts:129-159 | keeps the stored text, adds a missing evaluation from the call at hand, and onboards the profile |
| OnboardingService.Repository.SaveOnboardingAnswer | lib/db/repositories/answers.repository.ts:161-227 | an undisturbed save from tables to tables: succeeds exactly for an existing user and question; states all tables and the result after success and after failure, and that a failure onboards nobody |
| Unlocks.CommitKeepsInv | lib/server/unlock/db-unlock.service.ts:195-251 | a commit adds its attempt and its unlock together or neither |
| Unlocks.UnlockedExactlyWhenPassed | lib/server/unlock/db-unlock.service.ts:142-251 | in every run of concurrent, failing submissions a pair has an unlock row exactly when a committed PASS attempt exists, has at most one, and the viewer never owns the profile |
| Unlocks.RowsCount | lib/db/repositories/unlocks.repository.ts:57-74 | counting the rows of a pair and finding one agree |
| Unlocks.Database.CreateUnlock | lib/db/repositories/unlocks.repository.ts:17-55 | afterwards the pair has its row, and `inserted` says whether it is new |
| Unlocks.Database.SubmitDbUnlockAnswer | lib/server/unlock/db-unlock.service.ts:50-286 | each refusal exactly for its reason, the body limits in UTF-16 units; an evaluated submission records its attempt with the verdict of the text and unlocks exactly on PASS; any failure leaves both tables alone |
| Unlocks.Database.Check | lib/server/unlock/db-unlock.service.ts:67-183 | every refusal before the evaluation exactly when it is due |
| Unlocks.Database.Persist | lib/server/unlock/db-unlock.service.ts:209-251 | the attempt and, on PASS, the unlock are written together or neither |
| Unlocks.SubmitOpensExactly | lib/server/unlock/db-unlock.service.ts:128-154 | a transaction opens exactly for an existing, onboarded profile of somebody else |
| Unlocks.SubmissionAlone | lib/server/unlock/db-unlock.service.ts:209-251 | the statements of one submission run alone append its attempt, whatever the verdict, and insert the unlock exactly on a first PASS |
| Unlocks.Database.HasUnlock | lib/db/repositories/unlocks.repository.ts:57-65 | true exactly when the pair has a row, which is exactly when a passing attempt was committed |
| Unlocks.Database.CountUnlocks | lib/db/repositories/unlocks.repository.ts:67-74 | the number of rows of the pair: one when a passing attempt was committed, else zero |
| Unlocks.Database.GetDbUnlockStatus | lib/server/unlock/db-unlock.service.ts:288-347 | each failure for its reason; otherwise unlocked exactly when a passing attempt was committed, with count one, and zero otherwise |
| ProofCases.CollectDuplicateNames | lib/readiness/proof-artifact.ts:143-151 | the names that occur more than once; none exactly when the list is distinct |
| ProofCases.RequireExactPassCases | lib/readiness/evidence.ts:42-75 | each failure is reported exactly when its flaw is there; none exactly when names are distinct and every required case passed |
| ProofCases.ExactPassCase | lib/readiness/evidence.ts:53-66 | then a required case occurs once, and every occurrence is a PASS |
| ObservationLog.ReadLines | lib/readiness/integration-case-log.ts:71-107 | no failure exactly when every nonblank line observes a required case; the accepted observations are those lines with their multiplicity |
| ObservationLog.Collate | lib/readiness/integration-case-log.ts:109-119 | the maps hold the number of observations of each name, and FAIL exactly when one of them failed |
| ObservationLog.AggregateIntegrationObservations | lib/readiness/integration-case-log.ts:55-143 | no failure exactly when the log exists, every nonblank line is a well-formed observation of a required case, and each required case is observed once; in every outcome a case is PASS only if it was observed and never failed |
| ObservationLog.LineOrderIrrelevant | lib/readiness/integration-case-log.ts:109-136 | neither the verdict nor any reported case depends on the order of the lines |
| ObservationLog.CompleteAndPassing | lib/readiness/integration-runner-core.ts:288-291 | in a complete log all cases are reported PASS exactly when no line is a FAIL |
| Hostnames.HostAcceptedExactly | lib/readiness/hostnames.ts:48-84 | accepted are exactly the bare preview hosts other than the two permanent deployments, and of those only the expected one if its normal form is not empty |
| ProofArtifact.ValidateTimestampBounds | lib/readiness/proof-artifact.ts:153-178 | accepts exactly the canonical times within the age limit and the skew |
| ProofArtifact.ValidateCaseInventory | lib/readiness/proof-artifact.ts:180-239 | no failure exactly when names are distinct and disjoint and the verdict fits the statuses; every reported failure is there |
| ProofArtifact.HexMeans | lib/readiness/proof-artifact.ts:16-27 | a commit, checksum, fingerprint or digest is that many lower-case hexadecimal digits and nothing else |
| ProofArtifact.ParseProofArtifact | lib/readiness/proof-artifact.ts:245-318 | accepts exactly the artifacts that are well formed, fresh, coherent, of one commit on the expected host, and free of secrets; a smoke artifact then has the expected host's normal form |
| ProofArtifact.ParseCombinedReadinessArtifact | lib/readiness/proof-artifact.ts:344-390 | accepts exactly the combined artifacts whose three times are in bounds, whose names are distinct, whose host is the expected one and whose digest matches |
| ReadinessEvidence.ValidateReadinessEvidence | lib/readiness/evidence.ts:77-129 | no failure exactly when the evidence is acceptable now, describes this commit, migration set and host, and every required case passed once; without failure the host's normal form is the expected one |
| ReadinessEvidence.EvidenceIsOfOneDeployment | lib/readiness/evidence.ts:77-129 | one piece of evidence validates for two expectations, at any clocks, only if they agree on commit, migrations and host, unless one leaves the host open; never for a permanent deployment |
| ReadinessEvidence.SmokeIsOfOneHost | lib/readiness/proof-artifact.ts:260-266 | so does one smoke artifact, as to the host |
| ReadinessEvidence.CombineSourceArtifacts | lib/readiness/evidence.ts:156-241 | succeeds exactly when both sources are acceptable, passing, complete and agree; the result is built from them |
| ReadinessEvidence.CompletePassesCombine | lib/readiness/evidence.ts:156-241 | nothing more is asked: complete passing suites, fresh, of one commit and migration set, against the expected preview host, always combine |
| ReadinessEvidence.CombiningInventsNoPass | lib/readiness/proof-artifact.ts:481-488 | although every status is written as PASS, the combined cases are the source cases, all PASS there, each required one exactly once |
| ReadinessEvidence.EvidenceLifetime | lib/readiness/evidence.ts:77-129 | combined evidence validates at its own clock and later if and only if the oldest of its three times is within the age limit |
| ReadinessEvidence.RecombinationExactly | lib/readiness/evidence.ts:156-241 | sources that combined once combine later if and only if both are still within the age limit |
| ReadinessEvidence.RecombiningCannotRefresh | lib/readiness/evidence.ts:77-241 | whenever they were combined, sources older than the limit prove nothing |
| ReadinessEvidence.EvidenceIsRecent | lib/readiness/proof-constants.ts:5-9 | under the default limits accepted evidence rests on sources at most 24 hours old and 5 minutes ahead |
| ReadinessEvidence.BuildFromLog | lib/readiness/integration-runner-core.ts:281-305 | an integration artifact is built exactly from a complete log without a FAIL that validates |
| ReadinessEvidence.EvidenceTracesToLog | lib/readiness/integration-runner-core.ts:281-305 | however the runner's artifact was combined later, evidence that validates is of the commit the suite ran on and within the age limit, and each of its integration cases has exactly one line in the log, a PASS |
| StableSort.SortIsStableSort | lib/db/schema-snapshot.ts:110-121 | the sort is sorted, a permutation, and keeps the order of equal elements |
| StableSort.SortEqualIffClassesEqual | lib/db/schema-snapshot.ts:110-121 | two lists sort alike if and only if each class of equal keys holds the same elements in the same order |
| StableSort.SortEqualIffSameMultiset | lib/db/schema-snapshot.ts:110-121 | where equal keys mean equal elements, two lists sort alike if and only if they are the same multiset |
| StableSort.ForgetsOrderExactly | lib/db/schema-snapshot.ts:100-121 | for any sign-symmetric comparator on any set, sorting forgets the order of its input if and only if the comparator is transitive there and only equal elements compare equal |
| StableSort.SelectionSorted | lib/db/schema-snapshot.ts:110-121 | the selected part of a sorted list is the sorted list of the selected elements |
| SchemaSnapshot.CompareByKeys | lib/db/schema-snapshot.ts:114-120 | the loop compares lexicographically by the key columns |
| SchemaSnapshot.PickByKeys | lib/db/schema-snapshot.ts:82-98 | the loop projects the row to exactly these columns: absent ones are null; nulls, numbers, booleans and texts are kept; a bigint becomes a number no integer a double can hold is nearer to, and any other object its text |
| Doubles.ToDoubleIsNearest | lib/db/schema-snapshot.ts:85 | the number of a bigint is a double, and none is nearer to it |
| Doubles.RoundsToNearer | lib/db/schema-snapshot.ts:85 | of the two multiples of the spacing around it the nearer one, the even one of two equally near |
| SchemaSnapshot.BigintsCollapse | lib/db/schema-snapshot.ts:82-87 | two different bigints that become the same number |
| SchemaSnapshot.MixedColumnNotTransitive | lib/db/schema-snapshot.ts:100-107 | a concrete cycle: 9 < 10 < "5" < 9 |
| SchemaSnapshot.MixedColumnRemembersOrder | lib/db/schema-snapshot.ts:100-121 | the same three rows, read in two orders, sort to two results |
| SchemaSnapshot.RowsSymmetric | lib/db/schema-snapshot.ts:100-121 | whatever the types in the columns, the lexicographic comparison answers consistently the other way round |
| SchemaSnapshot.RowSortForgetsOrderExactly | lib/db/schema-snapshot.ts:100-121 | sorting rows from any set by any columns forgets their order if and only if the comparison is transitive there and only equal rows compare equal |
| SchemaSnapshot.RowsConsistent | lib/db/schema-snapshot.ts:100-121 | on columns of one type the lexicographic comparison is an order |
| SchemaSnapshot.CanonicalExactly | lib/db/schema-snapshot.ts:123-240 | two snapshots canonicalize alike if and only if the schema names agree and, in all twelve sections, rows of each sort key are the same in the same order |
| SchemaSnapshot.CanonicalIsNormalForm | lib/db/schema-snapshot.ts:123-240 | where a sort key determines its row, if and only if each section has the same multiset of picked rows |
| SchemaSnapshot.CanonicalIdempotent | lib/db/schema-snapshot.ts:123-240 | canonicalizing twice is canonicalizing once |
| SchemaTheorems.EqualFormsSameRows | lib/db/schema-snapshot.ts:123-240 | whatever the locale and the column types, equal canonical forms have the same picked rows, with multiplicity, in every section |
| SchemaTheorems.ReplacedRowVisibleExactly | lib/db/schema-snapshot.ts:89-240 | replacing one row of one section changes the canonical form if and only if it changes what is picked of the row |
| SchemaTheorems.ChangedValueIsVisible | lib/db/schema-snapshot.ts:82-240 | a picked column going from one null, number, boolean or text to another changes the canonical form |
| SchemaTheorems.RowCountIsVisible | lib/db/schema-snapshot.ts:123-240 | so does a row added or lost |
| SchemaTheorems.NothingGatheredIsDropped | lib/db/schema-snapshot.ts:254-454 | every column of every catalog query is among the picked ones |
| SchemaTheorems.CatalogNormalForm | lib/db/schema-snapshot.ts:123-240 | where the catalog's own keys identify the rows and the locale tells texts apart, two schemas have the same canonical form if and only if they have the same name and the same rows, in whatever order read |
| SchemaTheorems.NumberTextsDiffer | lib/db/schema-snapshot.ts:106 | different numbers have different texts, so comparing them by text never ties two of them |
| SchemaTheorems.CanonicalRowsInOrder | lib/db/schema-snapshot.ts:100-121 | in every section the first sort column in which two rows differ decides: nulls first, numbers ascending, false before true, texts by the locale |
| SchemaSnapshot.SectionForgetsOrderExactly | lib/db/schema-snapshot.ts:123-240 | the canonical form of any section forgets the order of picked rows from a set if and only if its sort columns are transitive there and tell different rows apart |
| SchemaSnapshot.FkPairingSurvivesExactly | lib/db/schema-snapshot.ts:62-80 | round trip over a whole section of foreign keys, all ten columns: however the rows are shuffled, the canonical rows of a key are its declared pairs in order if and only if its ordinals, where the comparator tells them apart, ascend under it |
| SchemaSnapshot.NumbersAscend | lib/db/schema-snapshot.ts:104 | numeric ordinals do, for any number of columns |
| SchemaSnapshot.TextsAscendExactly | lib/db/schema-snapshot.ts:106 | ordinals as text do, in a locale that orders digits and puts "10" before "2", exactly up to nine |
| SchemaSnapshot.LedgerUnchangedIffSameRows | lib/db/migration-contract.ts:60-69 | normalized ledgers are equal if and only if no row was added, lost or changed |
| SchemaSnapshot.CompareMigrationLedgers | lib/db/migration-contract.ts:71-90 | no failure exactly when the ledger is not empty and the same rows are there afterwards |
| Supply.TallyByDay | lib/alpha/metrics-snapshot.ts:43-53 | the map holds the sums of every day with rows, per bucket and in total |
| Supply.SupplyMaintenance | lib/alpha/metrics-snapshot.ts:43-97 | the day-by-day scan is the prefix-sum definition: observed days have counted seats up to them, balanced days a majority of at most 60% |
| Supply.OnlyDailyTotalsMatter | lib/alpha/metrics-snapshot.ts:43-97 | the result depends on the totals of each day and bucket alone |
| Supply.RowOrderIrrelevant | lib/alpha/metrics-snapshot.ts:43-53 | not on the order of the rows |
| Supply.SplitIrrelevant | lib/alpha/metrics-snapshot.ts:43-53 | not on how a day and bucket is split into rows |
| Supply.PassMeans | lib/alpha/metrics.ts:28-72 | PASS if and only if at least 7 days were observed, at least 80% of the seats are counted, and at least 80% of the observed days were balanced; insufficient data if and only if one of the first two fails |
| Supply.CountedRowsCoverFully | lib/alpha/metrics-snapshot.ts:215-226 | on rows of counted buckets the coverage is one whenever it is defined |
| AnswerText.TrimTrims | lib/depth/evaluate-depth-answer.ts:88 | trimming leaves no space at either end, loses no other character, and is idempotent |
| AnswerText.TokensPartition | lib/depth/evaluate-depth-answer.ts:92-101 | the tokens are words, and together they are the non-space characters in order |
| AnswerText.TokensOfJoin | lib/depth/evaluate-depth-answer.ts:101 | round trip: words joined by single spaces are tokenized back |
| DepthHeuristic.LongestRunIsLongestBlock | lib/depth/evaluate-depth-answer.ts:60-74 | the value is the length of some constant block, and no block is longer |
| DepthHeuristic.LongestCharRun | lib/depth/evaluate-depth-answer.ts:60-74 | the loop computes it |
| DepthHeuristic.MaxFrequencyIsMaximum | lib/depth/evaluate-depth-answer.ts:76-85 | the value is the multiplicity of some token, and none is larger |
| DepthHeuristic.MaxTokenFrequency | lib/depth/evaluate-depth-answer.ts:76-85 | the loop over the map computes it |
| DepthHeuristic.HardRejectedExactly | lib/depth/evaluate-depth-answer.ts:94-146 | rejected outright are exactly: the empty answer, three symbols in five characters, a character three times in a row, a token four times, two generic phrases without a signal |
| DepthHeuristic.PassHasNoRepeats | lib/depth/evaluate-depth-answer.ts:100-183 | PASS means no character three times in a row, no token four times, and the minimum length |
| DepthHeuristic.LadderExactly | lib/depth/evaluate-depth-answer.ts:169-183 | past the guards: fast track exactly from 0.55 and eight characters, review exactly from 0.35 to 0.41, a basic pass above that exactly from twelve characters |
| DepthHeuristic.ScoreRounds | lib/depth/evaluate-depth-answer.ts:58 | the reported score is a nearest ten-thousandth, the upper one of two |
| DepthHeuristic.ScoreCeiling | lib/depth/evaluate-depth-answer.ts:148-162 | no answer scores above the ceiling of its signals (0.45, 0.7, 0.75 or 1), and a long, varied, clean answer without repeats reaches it |
| DepthHeuristic.GenericPhrasesCost | lib/depth/evaluate-depth-answer.ts:106-160 | each generic phrase up to the third lowers the score by 7/60, further ones by nothing |
| DepthHeuristic.SymbolsCost | lib/depth/evaluate-depth-answer.ts:96-160 | a character that is a symbol costs three fifths of its share of the answer |
| DepthHeuristic.RepeatsCost | lib/depth/evaluate-depth-answer.ts:100-160 | each character of a run beyond the first, or occurrence of a token beyond the second, up to three, costs a sixth |
| DepthHeuristic.FastTrackHasSignal | lib/depth/evaluate-depth-answer.ts:100-183 | FAST_TRACK is a PASS with a specificity or emotional signal |
| DepthHeuristic.EvaluateDepthAnswer | lib/depth/evaluate-depth-answer.ts:87-183 | the evaluation of the text as read, by both loops; its verdict guarantees both facts above |
| DepthTheorems.CleanEvaluation | lib/depth/evaluate-depth-answer.ts:88-183 | the whole evaluation of a text of different plain words without repeats: signals, length and variety decide |
| DepthTheorems.FastTrackReachableExactlyWithSignal | lib/depth/evaluate-depth-answer.ts:87-183 | some text in which the patterns find exactly these signals takes the fast track if and only if there is a signal |
| DepthTheorems.OneCharacterScore | lib/depth/evaluate-depth-answer.ts:46-50 | a one-character text scores at most 0.3625, because no character carries both signals |
| DepthTheorems.MonotoneExactly | lib/depth/evaluate-depth-answer.ts:134-183 | among texts of one length that pass the hard guards a higher score never gives a worse verdict, if and only if the length is at most 1 or at least 12 |
| DepthFeatures.CauchySchwarz | services/depth-service/app/features.py:57-63 | the squared dot product, cut to the shorter vector, is at most the product of the full sums of squares |
| DepthFeatures.CosineBounded | services/depth-service/app/features.py:57-63 | the similarity lies in [-1, 1] for all vectors, unequal lengths and zero vectors included |
| DepthFeatures.SelfSimilarity | services/depth-service/app/features.py:57-63 | a nonzero vector has similarity 1 with itself |
| DepthFeatures.RelevanceClampIsIdentity | services/depth-service/app/features.py:93-95 | the relevance clamp never changes its argument |
| DepthFeatures.DepthRawBounded | services/depth-service/app/features.py:66-173 | whatever the texts, every rounded feature is in [0, 1] and the raw depth in [-0.7, 1] |
| DepthFeatures.FeatureWorth | services/depth-service/app/features.py:66-80 | the worth of each feature in hundredths |
| DepthFeatures.DepthMonotone | services/depth-service/app/features.py:66-173 | a text that shows no less and has no more of what is penalized is never scored lower, clamping and rounding included |
| DepthFeatures.SignalWorth | services/depth-service/app/features.py:93-176 | the worth of each signal in whole numbers, before cutting off at zero and one |
| DepthFeatures.ShareWorth | services/depth-service/app/features.py:97-108 | density and specificity as shares of the tokens, from the sixth and the ninth token on |
| DepthFeatures.SymbolWorth | services/depth-service/app/features.py:158-161 | an emoji weighs as two and a half symbols, per token from the third on |
| DepthFeatures.RoundsToNearest | services/depth-service/app/features.py:66-173 | a rounded feature is a nearest ten-thousandth, the even one of two |
| DepthFeatures.DifferentTokensPenalty | services/depth-service/app/features.py:142-155 | four or more different tokens carry no repeat penalty, a repeated character costs them 0.35, and fewer are charged for their share beyond a quarter |
| Percentile.AtRankMonotone | scripts/local-ai/helpers.py:304-310 | within a segment and across rank boundaries, a higher rank never has a lower value |
| Percentile.PercentileMonotone | scripts/local-ai/helpers.py:297-310 | for any p at all the percentile lies between first and last element and never falls as p rises |
| Percentile.ExactAtElements | scripts/local-ai/helpers.py:304-310 | at p = 100k/(n-1) it is element k |
| Percentile.PercentileInterpolates | scripts/local-ai/helpers.py:304-310 | for every p strictly between 0 and 100 the value is exactly proportional between the two elements around its rank |

## Left out

- The capacity trigger in the migrations: the cap is proved of the creation procedure itself, without its help.
- Account deletion and the rows that cascade from it, except the compensating delete of a failed registration.
- Cohort and channel labels of an invite, the stored consent columns, and the invite list command: no check depends on them.
- Hashes (SHA-256, HMAC, peppers): codes, capabilities and rate-limit subjects stand for their hashes, taken as injective; the content digest and the lock hash are arbitrary functions.
- Freshness of capabilities: a drawn value is assumed never to have been drawn before.
- Waiting: a statement that would wait for a lock or an uncommitted row is a step that changes nothing; deadlock and timeouts are not modelled.
- `listConversation`, message bodies beyond acceptance, and the deletion of messages.
- Event logging and correlation ids of the unlock service, and its code for a failing evaluation: the heuristic is total.
- The separate clocks of a reservation: the failure report compares expiry strictly and the update does not, so an invite at its exact expiry millisecond is reported as invalid; the model keeps both comparisons.
- Lone surrogates in an answer: a text is a sequence of Unicode scalar values. Word lists and patterns of the Python depth service enter as counts.
- Floating point: scores, shares, coverages and percentiles are real numbers; square roots enter as values whose square is the sum of squares. Numbers in schema rows are integers, and a bigint too large for any double is not turned into infinity. Which form the database driver gives a 64-bit value is not part of this model.
- Days of the supply metric are integers and the sorting of their texts is their order; times of the readiness artifacts are milliseconds or malformed.
- Host names: lower-casing is an arbitrary function, and `extractHostname`, which reads a host out of a URL, is not part of this model.
- JSON text and the checks for unknown keys, legacy case shapes and skipped statuses: an unrecognized status stands for all of them.
- The order of failure messages: which failures are reported is stated, not in which order.
- Reading, writing and replacing artifact files, the smoke runner, git, and the process exit codes.
- Reason codes of the depth service and the founder decision built on the metrics: flat lists of comparisons.
- The library sort is modelled as a stable insertion sort; for a comparator that is not transitive the result of another stable sort may differ, though both keep a list whose neighbours are in order.
- DepthFeatures.CosineBounded: states the bound over reals, so a last-place rounding excess in floating point is not excluded.
