# CiteVyn backend: a verified model

A Dafny model of the parts of the CiteVyn backend whose behaviour depends on whole runs,
on interleavings or on scanning text, with proofs of what those parts promise.

| component | files | what it is |
|---|---|---|
| Membership synchroniser | `Memberships`, `MembershipProtocol`, `MembershipTrace`, `MembershipSteps`, `MembershipRecords`, `MembershipConvergence`, `MembershipHistory`, `MembershipRuns`, `MembershipTimeline`, `MembershipExact`, `MembershipOutcomes`, `MembershipEntitlement` | Stripe, webhook handlers, the event log and the rows as one protocol of interleaved steps: what every run keeps, what follows, the runs that show it is exact, what the log says, and who has Pro |
| Rate limiter | `RateLimit`, `RateLimitKeys`, `RedisRateLimit`, `RedisRateLimitKeys`, `RateLimitRoles` | the in-process deque, every caller's key and setting, and the Redis script with key expiry |
| Log redactor | `LeadingRuns`, `EntropySweep`, `BearerSweep`, `Credentials`, `QuotedText`, `Decimals`, `LogRedactor`, `LogFields` | the two regular expressions as matchers over characters, what a credential is, the path sweep, the caps, which fields are hidden and which printed |
| Answer pipeline | `Citations`, `CacheKey`, `AnswerPipeline`, `AnswerRuns`, `AnswerReplies` | one question through every branch of `ask`, and runs of questions over the cache |
| Ledger check | `LedgerParse`, `LedgerCheck` | the heading stack and the three rules |
| Bot check | `ProofOfWork`, `BotCheck`, `BotGuard` | the challenge, what verifies, who passes, and single use in spite of clean-up |
| Sessions | `AuthSessions`, `AuthHistory`, `AuthCookies` | minting, signing in and out, which cookie resolves, and who owns a chat over whole runs |
| Spend control | `Spend`, `SpendTight` | the budget check, the semaphore, the call and the row as separate steps |
| Allowance | `Calendar`, `Quota` | the monthly count and the usage page |
| Shared | `Collections`, `Wrappers` | a map without keys, regrouping of sequences, options and results |

Code that updates state in place is a class or a method with a loop (`Membership.Store`,
`RateLimiter.Check`, `RedisRateLimiter.Check`, `Orchestrator.Ask`, `ParseLedger`, `Check`,
`BotChecks.UseOnce`, `AuthStore.ClaimAndLogin`, `DailyUsage`), and each is proved equal to a
function of the old state. The theorems are about that function over every run. Concurrent
code (webhook handlers, sign-in requests, paid calls) is a state machine whose steps are the
atomic actions of the code; a run is any interleaving of enabled steps.

`dafny verify dfyconfig.toml` checks the project.

## What the proofs turned up

- **Rows do not always converge, and exactly when is known.** A row can stay wrong for ever
  although every event was logged. It depends only on the states Stripe gave the subscription
  and on who has an account (`MembershipConvergence.CanStray`): an account was named by the
  time of a state that differs from the last one in a mirrored field, and the last state does
  not name that account or another account is named too. Both directions are proved in
  `MembershipExact.RowsConvergeExactlyWhenNoneStrays`. There are two ways to get there.
  Metadata edited to a second account puts two handlers under two locks, and the older read
  is stored last (`EditedMetadataLosesTheCancellation`). Cleared metadata needs one account
  and one lock: the cancellation names nobody and is logged as unmatched, and a handler that
  read before it commits after it (`ClearedMetadataLosesTheCancellation`). Metadata that is
  only filled in is harmless (`FilledInMetadataConverges`).
- **Updates are lost exactly when two accounts are named**
  (`MembershipExact.UpdatesAreLostExactlyWhenTwoAreNamed`). Applying an event once, and rows
  never changing account, hold of every run.
- **A paying account can stay without a row.** An event that is handled before the account
  exists is logged as unmatched and nothing retries it. It happens exactly when the
  subscription's last state names nobody who had joined by then
  (`MembershipExact.UnboundExactlyWhenNoFounderIsNamed`).
- **The semaphore does not bound the overshoot.** `backend/app/cost/admission.py:1-12` says
  the in-flight cap bounds how far past the limit a burst can carry spend. The budget check
  comes before the semaphore (`backend/app/cost/metered.py:142-149`), so calls waiting for a
  slot have all passed it. `SpendTight.OvershootIsReached` reaches the bound for every number
  of waiting calls with a cap of one; `Spend.OvershootIsBounded` gives the bound that holds.
- **A counted marker may have no card.** `backend/app/answer/orchestrator.py:937-939` says
  splitting groups never removes a single marker. When the only single markers are inside
  code and a group is outside, the counted markers are not among the shown ones
  (`Citations.CodeMarkerIsCountedButNotShown`, exact condition in
  `Citations.CountedIsShownExactlyWhen`). What the pipeline relies on still holds: a reply
  that counts a marker shows one.
- **The cache key needs less than it says.** `backend/app/cache/answer_cache.py:42-45`
  rests on no field holding the separator. Only the four fields after the question matter
  (`CacheKey.KeysAreDistinct`), and they all do: a list of fields with a separator in one of
  them shares its key with a list that has none (`CacheKey.SharesExactlyWhenInseparable`).
- **The clean-up margin must cover more than clock skew.** A request reads its clock before
  it verifies and commits later, so the margin also has to cover a stall between the two.
  `BotCheck.SingleUseExactlyWhenNothingIsForgotten` is the exact condition on the readings.
- **The extra second of the Redis expiry is needed.** Redis's clock may gain one second on
  the caller's between two calls and no more (`RedisRateLimit.MoreDriftForgetsALiveHit`).
- **Signing in may leave a chat behind.** A chat whose request resolved the visitor's cookie
  before the sign-in and committed after it stays with the visitor
  (`AuthHistory.ALateRequestLeavesAChat`); with no such request under way nothing is left
  (`AuthHistory.SigningInTakesEverything`).

## Model

| member | source | states |
|---|---|---|
| `MembershipExact.RowsConvergeExactlyWhenNoneStrays` | backend/app/billing/memberships.py:170-221 | convergence, exactly: some run that goes through these states of a subscription with these users and logs every event leaves a wrong row if and only if an account was named by the time of a state whose mirrored fields differ from the last one's, and the last state does not name it or another user is named too |
| `MembershipConvergence.WrongRowStrayed` | backend/app/billing/memberships.py:170-221 | in every run at all, a row that is wrong once every event is logged comes from states that meet that condition |
| `MembershipConvergence.Convergence` | backend/app/billing/memberships.py:170-221 | in every state of a run with steady metadata a bound row agrees with Stripe or an event for it is not yet logged, whatever the order, the duplicates and the failures |
| `MembershipSteps.EveryRunFits` | backend/app/billing/memberships.py:170-221 | what every run keeps of one subscription: who holds which lock, what each handler's read knows of Stripe's states, and what excuses a logged event the row has not seen |
| `MembershipSteps.StepFits` | backend/app/billing/memberships.py:170-221 | every atomic step of Stripe, sign-up or a handler keeps it, with no hypothesis |
| `MembershipSteps.CommitFits` | backend/app/billing/memberships.py:202-221 | a commit stores the read made inside the lock and leaves every other handler's knowledge true |
| `MembershipExact.EditedMetadataLosesTheCancellation` | backend/app/billing/memberships.py:182-210 | a reachable drained run over two accounts whose row is Pro for ever though Stripe's subscription ended |
| `MembershipExact.ClearedMetadataLosesTheCancellation` | backend/app/billing/memberships.py:182-186 | the same with one user and one lock: the metadata is cleared and the cancellation is logged as unmatched |
| `MembershipExact.FilledInMetadataConverges` | backend/app/billing/memberships.py:182-186 | metadata that is filled in while unbound, from nobody to one account, never leaves a wrong row |
| `MembershipExact.UpdatesAreLostExactlyWhenTwoAreNamed` | backend/app/billing/memberships.py:202-221 | lost updates, exactly: some run over these states commits out of the order of its reads, or leaves a row that is not their replay, if and only if the states name two of the users |
| `MembershipHistory.LosingNeedsTwo` | backend/app/billing/memberships.py:202-221 | in every run at all, a subscription whose states name fewer than two users has commits in the order of their inside-lock reads and a row that is exactly their replay |
| `MembershipHistory.RowsReplayTheirReads` | backend/app/billing/memberships.py:202-221 | the same for every row of a run with steady metadata |
| `MembershipHistory.RowIsProUntilItsGraceEnds` | backend/app/billing/memberships.py:87-96 | in any run, a past-due row whose states name fewer than two users is Pro exactly until the grace period after the observation that began its current past-due run |
| `MembershipExact.UnboundExactlyWhenNoFounderIsNamed` | backend/app/billing/memberships.py:182-200 | no row, exactly: some run that logs every event leaves the subscription unbound if and only if its last state names nobody who had joined by then |
| `MembershipConvergence.FounderIsBound` | backend/app/billing/memberships.py:182-210 | in every run at all, once drained, a subscription whose last state names an account that had joined by then has a row |
| `MembershipConvergence.EveryOwedSubscriptionIsBound` | backend/app/billing/memberships.py:182-210 | in a steady run where accounts come first every subscription that names one has a row once drained, and it agrees with Stripe |
| `MembershipRuns.EveryStateCanBeDrained` | backend/app/billing/memberships.py:244-289 | from every reachable state handlers alone lead to one where every event is logged: those under way fail and free their locks, the open events are delivered |
| `MembershipRuns.SteadyRunsSettle` | backend/app/billing/memberships.py:244-289 | so a steady run can always go on to where every row agrees with Stripe |
| `MembershipRuns.QuietDelivery` | backend/app/billing/memberships.py:244-289 | one undisturbed delivery of any event, bound, unmatched or ignored, logs it and leaves handlers, locks and other rows alone |
| `MembershipRuns.UndisturbedDeliveryApplies` | backend/app/billing/memberships.py:244-289 | an undisturbed event for an account that is here is applied, and its row then agrees with Stripe |
| `MembershipRecords.AppliedAtMostOnce` | backend/app/billing/memberships.py:264-289 | over every run, with any two handlers past the duplicate check, applied events are distinct and the log says "applied" of exactly those |
| `MembershipRecords.AccountsNeverMove` | backend/app/billing/memberships.py:180-210 | a row's account never changes after creation, whatever the metadata says later |
| `MembershipRecords.StepIsRecorded` | backend/app/billing/memberships.py:264-289 | one step of any run: accounts stay, and rows change only together with one newly logged event |
| `MembershipOutcomes.LogSaysWhatHappened` | backend/app/billing/memberships.py:244-289 | over every run the log is right of each event: ignored exactly when it is none of ours, and an applied one names its row's account and whether the metadata that was read named it |
| `MembershipEntitlement.ProExactlyByTheLastStatus` | backend/app/billing/memberships.py:64-96 | after any observations a row is Pro exactly when the last status is "active" or "trialing", or is "past_due" and the grace from the start of the current stretch is not over; a missing status and every other fail closed |
| `MembershipEntitlement.AccountIsProExactly` | backend/app/billing/memberships.py:99-101 | an account is Pro exactly when one of its subscriptions is entitled in that sense |
| `MembershipEntitlement.RowIsProExactly` | backend/app/billing/memberships.py:87-96 | the same for a row of any run whose states name fewer than two users |
| `MembershipEntitlement.StripeDecidesOnceDrained` | backend/app/billing/memberships.py:64-96 | in any run, once drained and unless the states can stray, an active or trialing subscription is Pro and one that is neither, nor past due, is not |
| `MembershipEntitlement.RowMirrorsTheLast` | backend/app/billing/memberships.py:153-167 | the row shows the last state: its status or "incomplete", the period end of either layout, and ending by either field |
| `Memberships.Membership.Store` | backend/app/billing/memberships.py:153-167 | the row after one observation: every mirrored field agrees with Stripe and the grace clock is kept, started or cleared |
| `Memberships.GraceClock` | backend/app/billing/memberships.py:153-167 | after any observations the grace is null unless the last is past due, and otherwise runs from the first observation of the current unbroken run |
| `Memberships.PastDueIsProExactlyForTheGrace` | backend/app/billing/memberships.py:87-96 | a past-due row is Pro exactly until the grace period after the run began, however many observations follow |
| `Memberships.ProOnlyRunsOut` | backend/app/billing/memberships.py:99-101 | with no further events an account that stops being Pro never becomes Pro again, and stops only when a grace ends |
| `Memberships.Primary` | backend/app/billing/memberships.py:304-309 | the row shown is Pro exactly when the account is, and one that keeps billing is preferred |
| `RateLimit.RateLimiter.Check` | backend/app/core/rate_limit.py:249-266 | one request evicts, decides and records in its own bucket only |
| `RateLimit.ExactWindow` | backend/app/core/rate_limit.py:249-266 | over every run a request is accepted if and only if fewer than the limit of accepted hits lie in (now - window, now] |
| `RateLimit.NoWindowHoldsMore` | backend/app/core/rate_limit.py:249-266 | no interval of the window's length ever holds more accepted hits than the limit |
| `RateLimit.RefusedLeaveNoTrace` | backend/app/core/rate_limit.py:252-266 | deleting any set of refused requests from a run changes no remaining decision |
| `RateLimitKeys.KeyNamesItsRole` | backend/app/core/rate_limit.py:736-800 | the key of every entry point determines its role |
| `RateLimitKeys.OneKeyOneRole` | backend/app/core/rate_limit.py:872-962 | two callers with one key have one role: the prefixes keep the buckets apart |
| `RateLimitKeys.LimiterIsExact` | backend/app/core/rate_limit.py:249-266 | the exact window for a run over any mix of keys |
| `RateLimitKeys.EveryCallerIsLimitedExactly` | backend/app/core/rate_limit.py:786-1011 | every entry point of the application gets the exact window of its own role |
| `RateLimitRoles.EveryRoleHasItsOwn` | backend/app/core/rate_limit.py:195-247 | every entry point's role has the limit and the window its own setting says |
| `RateLimitRoles.OneKeyOneCaller` | backend/app/core/rate_limit.py:736-962 | two callers share a bucket only if they are the same caller |
| `RateLimitRoles.EveryCallerGetsItsOwnSetting` | backend/app/core/rate_limit.py:195-266 | over any mix of callers one is let in exactly when fewer than its own setting of its own arrivals were let in during its own window |
| `RateLimitRoles.RedisLetsInTheSame` | backend/app/core/rate_limit.py:376-490 | the Redis limiter with the same settings lets in exactly the same arrivals |
| `RedisRateLimit.RedisRateLimiter.Check` | backend/app/core/rate_limit.py:434-490 | one call of the script, and 503 with nothing written when Redis is unreachable |
| `RedisRateLimit.RedisRefinesTheDeque` | backend/app/core/rate_limit.py:303-319 | for one bucket and the same times the script makes exactly the deque's decisions |
| `RedisRateLimit.ExpiryDropsNothingLive` | backend/app/core/rate_limit.py:457-473 | a key that has expired holds no hit still inside the window |
| `RedisRateLimit.RedisIsExact` | backend/app/core/rate_limit.py:303-319 | the exact window for the Redis limiter |
| `RedisRateLimit.RedisRefusedLeaveNoTrace` | backend/app/core/rate_limit.py:300-319 | deleting refused calls changes no other decision of the script |
| `RedisRateLimit.MoreDriftForgetsALiveHit` | backend/app/core/rate_limit.py:457-473 | with more than a second of drift the script lets through what the deque refuses |
| `RedisRateLimitKeys.BothLimitersAgree` | backend/app/core/rate_limit.py:434-490 | over a run of any mix of keys the Redis limiter decides every request as the in-process one does |
| `RedisRateLimitKeys.BucketsAreIndependent` | backend/app/core/rate_limit.py:434-490 | after any such run a key's sorted set is what its own calls alone would leave |
| `RedisRateLimitKeys.EveryCallerIsLimitedExactlyByRedis` | backend/app/core/rate_limit.py:786-1011 | every entry point gets the exact window of its own role from the Redis limiter too |
| `EntropySweep.TheSweepIsItsSimpleForm` | backend/app/core/logging.py:100-121 | leftmost greedy substitution of the lookaround pattern equals the maximal-run scanner and the bare pattern |
| `EntropySweep.TheSweepErasesExactlyTheLongRuns` | backend/app/core/logging.py:183 | the substitution replaces exactly the maximal class runs of 32 or more and copies everything else |
| `EntropySweep.SweepIsIdempotent` | backend/app/core/logging.py:183 | a second sweep changes nothing |
| `EntropySweep.SweptHasNoLongRun` | backend/app/core/logging.py:183 | no run of 32 class characters is left |
| `EntropySweep.SweepNeverGrows` | backend/app/core/logging.py:183 | a sweep never makes a text longer |
| `EntropySweep.PathSweepKeepsTheRoute` | backend/app/core/logging.py:1195-1205 | the segment sweep keeps the number and order of separators and every segment with no long run |
| `EntropySweep.PathSweepIsTheNarrowerSweep` | backend/app/core/logging.py:427-434 | the segment sweep is the whole-string sweep of the class without the slash, and blanks only positions the full sweep would blank |
| `EntropySweep.SegmentsHaveNoLongRun` | backend/app/core/logging.py:1199-1205 | no segment keeps a run of 32 or more |
| `BearerSweep.NoCredentialSurvives` | backend/app/core/logging.py:58 | no Bearer credential is left anywhere in the swept text |
| `BearerSweep.BearerSubIsBounded` | backend/app/core/logging.py:58 | a match of at least 8 becomes 17, so the output is at most 17/8 of the input |
| `BearerSweep.BearerSubIsIdempotent` | backend/app/core/logging.py:58 | a second Bearer sweep changes nothing |
| `Credentials.MatchesExactly` | backend/app/core/logging.py:58 | the matcher finds something at the front of a text exactly when a credential starts there: "bearer" in any case, white space, a token |
| `Credentials.NoneSurvives` | backend/app/core/logging.py:58 | no such credential is anywhere in the swept text |
| `Credentials.ReplacesExactlyTheCredentials` | backend/app/core/logging.py:58 | from left to right every credential is replaced as far as its token goes, and every other character is kept in order |
| `QuotedText.SweptIsClear` | backend/app/core/logging.py:1205-1206 | sweeping long runs out of a text without a credential never joins pieces into one |
| `QuotedText.CutIsClear` | backend/app/core/logging.py:1177-1178 | cutting such a text and appending the truncation mark leaves none either |
| `LogRedactor.OneRulePerKey` | backend/app/core/logging.py:1154-1206 | no key is in two exempting sets, so its rule does not depend on the order of the tests |
| `LogRedactor.StringIsBounded` | backend/app/core/logging.py:1154-1206 | every string prints as a marker or within its rule's cap: 17408, 172 or 64 characters |
| `LogRedactor.NoCredentialIsPrinted` | backend/app/core/logging.py:1154-1206 | no string printed under any rule holds a Bearer credential: not after the entropy sweep, the segment sweep, the cut or the marker |
| `LogRedactor.RedactionIsBounded` | backend/app/core/logging.py:1119-1212 | in any nesting of lists and mappings every printed string is a marker or within the cap of its own key's rule, and holds no credential |
| `LogRedactor.PathSegmentsHideSecrets` | backend/app/core/logging.py:1195-1205 | no segment of a printed path has a run of 32 or more, also after the cut |
| `LogRedactor.NoSecretShapeSurvives` | backend/app/core/logging.py:1206 | no run of 32 or more is left in an ordinary field |
| `LogRedactor.ExemptKeepsNoCredential` | backend/app/core/logging.py:1172-1194 | an exempt identifier of any length prints no credential, and within its cap it is the Bearer sweep of itself |
| `LogFields.HiddenExactlyByName` | backend/app/core/logging.py:1119-1135 | a field is hidden, whatever is in it, exactly when its name holds one of fifteen words in any case; lists and mappings go on inside, and a text is printed by its rule |
| `LogFields.OrdinaryTexts` | backend/app/core/logging.py:1206 | an ordinary text of up to 8192 characters prints no run of 32, and is printed as it is when it has neither such a run nor a credential |
| `LogFields.LongTexts` | backend/app/core/logging.py:1160-1170 | a longer text prints its length and nothing else |
| `LogFields.WindingPaths` | backend/app/core/logging.py:1154-1158 | a path of more than 64 slashes prints their number and nothing else |
| `LogFields.CountIsTheSlashes` | backend/app/core/logging.py:1156 | the number printed is the number of slashes |
| `LogFields.Identifiers` | backend/app/core/logging.py:1172-1194 | without a credential an identifier is printed as it is within its cap; above, a correlation id is cut and a model name counted |
| `LogFields.Paths` | backend/app/core/logging.py:1195-1205 | a path with no credential and no long run in a segment is printed as it is, cut after 160 characters |
| `CacheKey.KeysAreDistinct` | backend/app/cache/answer_cache.py:78-113 | two lists of fields share a key if and only if they are equal, when the last four hold no separator |
| `CacheKey.KeyIsTheFields` | backend/app/cache/answer_cache.py:78-113 | the pre-image: the five fields in their order with a unit separator between |
| `CacheKey.SharesExactlyWhenInseparable` | backend/app/cache/answer_cache.py:42-45 | a list of fields shares its key with a different, separable one if and only if one of its last four holds the separator |
| `CacheKey.AreaSeparatorCollides` | backend/app/cache/answer_cache.py:42-45 | two such lists, written out |
| `Citations.ExpandAddsTheGroups` | backend/app/llm/validation.py:332-363 | splitting groups shows every grouped index beside the single ones and removes none |
| `Citations.ExpandIsIdempotent` | backend/app/llm/validation.py:332-363 | splitting twice is splitting once |
| `Citations.ExpandsInPlace` | backend/app/llm/validation.py:332-363 | a group is replaced where it stands by its indices in their order, and every other piece stays |
| `Citations.VerdictExactly` | backend/app/llm/validation.py:624-680 | piece by piece: what a reply shows, what it counts, and that it is valid exactly when it refuses or every marker of either kind is a bullet's number |
| `Citations.ValidIsInRange` | backend/app/llm/validation.py:624-680 | a valid reply shows and counts only real bullets, and one that counts a bullet shows one |
| `Citations.GroupsNeverCount` | backend/app/llm/validation.py:588-602 | a reply counts a marker if and only if it wrote one singly and is no refusal |
| `Citations.CountedIsShownExactlyWhen` | backend/app/llm/validation.py:301-320 | exactly when the counted markers are among the shown ones |
| `Citations.CodeMarkerIsCountedButNotShown` | backend/app/llm/validation.py:301-320 | a valid reply whose counted marker has no card |
| `AnswerPipeline.Orchestrator.Ask` | backend/app/answer/orchestrator.py:452-1003 | every branch of one question, its reply and what it does to the cache |
| `AnswerPipeline.Orchestrator.AskAfresh` | backend/app/answer/orchestrator.py:748-1003 | retrieval, generation, validation, the retry and the answer, past the cache |
| `AnswerPipeline.Orchestrator.RetryWithoutExactLookup` | backend/app/answer/orchestrator.py:1031-1100 | the second look is kept if and only if it grounds on its own non-empty evidence, and a model that fails in it is no error |
| `AnswerRuns.EveryAnswerIsCited` | backend/app/answer/orchestrator.py:713-1003 | over every run an answer that is no greeting or refusal, fresh or cached, has cards under exactly the markers its text shows, in order, and at least one |
| `AnswerRuns.FreshAnswerCites` | backend/app/answer/orchestrator.py:934-981 | each card of a fresh answer is the evidence under its own number |
| `AnswerRuns.HitIsTheLastFrozenAnswer` | backend/app/answer/orchestrator.py:706-724 | a question is answered from the cache if and only if an answer was frozen under its five fields and the last has not expired, and then gets exactly that answer |
| `AnswerRuns.CacheHoldsTheLastFrozen` | backend/app/cache/answer_cache.py:147-183 | the row under a key is the last fresh undegraded answer of its fields with its expiry, and there is none otherwise |
| `AnswerRuns.NothingFrozenLater` | backend/app/cache/answer_cache.py:157-183 | the frozen answer a hit repeats is the newest of its fields |
| `AnswerRuns.OneQuestionWrites` | backend/app/answer/orchestrator.py:1432-1445 | a question writes the cache exactly when it froze an answer |
| `AnswerReplies.OutageExactly` | backend/app/answer/orchestrator.py:780-804 | over every run a question gets the embeddings error exactly when it got past the guards and the cache, found nothing, and its retrieval was unavailable |
| `AnswerReplies.ModelDownExactly` | backend/app/answer/orchestrator.py:833-848 | it gets the model error exactly when it found something and the first reply failed |
| `AnswerReplies.NothingFoundIsNoAnswer` | backend/app/answer/orchestrator.py:805-824 | with nothing found and nothing down the reply is a bare no-answer, unsupported exactly when off topic |
| `AnswerReplies.StoppedQuestions` | backend/app/answer/orchestrator.py:476-746 | a question the guards stop never fails: it is greeted, refused as off topic or told there is no answer |
| `AnswerReplies.AnsweredExactly` | backend/app/answer/orchestrator.py:713-1003 | it is answered exactly when a live cache row repeats an answer or a reply grounds in what was found, the second only after an exact lookup that counted nothing |
| `AnswerReplies.FreshAnswersSayWhatTheyRestOn` | backend/app/answer/orchestrator.py:934-1003 | a fresh answer's strategy, confidence, text and cards are those of the reply and the hits it rests on |
| `AnswerReplies.NotedExactly` | backend/app/answer/orchestrator.py:966-978 | a product is noted as left out exactly when two or more are compared, comparisons are on, nothing degraded, and it is searched and not counted |
| `AnswerReplies.EveryReplyIsDated` | backend/app/answer/orchestrator.py:209-218 | every reply, fresh or cached, carries the oldest date among its own cards |
| `AnswerReplies.FrozenExactly` | backend/app/answer/orchestrator.py:1432-1445 | an answer is cached exactly when it is fresh and the retrieval it rests on did not degrade |
| `AnswerReplies.RepeatedExactly` | backend/app/answer/orchestrator.py:706-724 | a repeated answer was made earlier for the same query, area, index, embedder and policy; no later such answer is passed over and its time is not up |
| `AnswerReplies.RepliesAreFiled` | backend/app/answer/orchestrator.py:930-1003 | every reply is under the question's own intent, and a fresh answer under its index and policy |
| `AnswerRuns.HitWasMadeForTheseSettings` | backend/app/answer/orchestrator.py:1009-1015 | a hit was made for this index, policy, embedder and comparison setting, though settings change during the run |
| `AnswerRuns.ARefusalIsNeverAnOutage` | backend/app/answer/orchestrator.py:776-824 | a refusal is never an embedding outage, and says unsupported exactly of an off-topic question for which nothing was found |
| `AnswerRuns.AnswersAreWhatCounts` | backend/app/access/quota.py:43-56 | a question counts against the allowance if and only if it got an answer |
| `AnswerRuns.NoComparisonIsHalfAnswered` | backend/app/answer/orchestrator.py:966-978 | the note names exactly the searched products no singly cited bullet belongs to |
| `AnswerRuns.DocsAsOfIsTheOldest` | backend/app/answer/orchestrator.py:209-218 | the date shown is the oldest of the cards, and none when no card has one |
| `LedgerParse.ParseLedger` | scripts/ledger_check.py:96-131 | the rows of the ledger in order, each with its own section, or the first refused line |
| `LedgerParse.OpenSection` | scripts/ledger_check.py:107-115 | what a heading does to the stack: its equals and betters go, and it is pushed |
| `LedgerParse.StackHoldsTheEnclosing` | scripts/ledger_check.py:107-115 | at every line of every ledger the stack holds exactly the headings that enclose it, levels rising |
| `LedgerParse.FlagIsTheOr` | scripts/ledger_check.py:109-115 | each flag on the stack is the OR of the closed words of its heading and all above it |
| `LedgerParse.TopTellsTheSection` | scripts/ledger_check.py:123-130 | the flag on top is true if and only if some enclosing heading is closed |
| `LedgerParse.RowsAreTheTableLines` | scripts/ledger_check.py:116-130 | a row is in the result if and only if it is a table line with a number, with the section it stands in |
| `LedgerCheck.Check` | scripts/ledger_check.py:191-250 | the whole report in order, the number of rows outside closed sections, and the covered issues |
| `LedgerCheck.CheckRow` | scripts/ledger_check.py:196-237 | one row's violations, once for every time a number is written, and what it covers |
| `LedgerCheck.EmptyReportIsAgreement` | scripts/ledger_check.py:191-250 | no violation if and only if all three rules hold |
| `LedgerCheck.ViolationsAreCounted` | scripts/ledger_check.py:191-250 | the number of violations is the number of offending places under R2 and R3 and of issues missing under R1 |
| `LedgerCheck.WillCloseIsTheLaterVerdict` | scripts/ledger_check.py:32-33 | naming the issues to be closed gives the verdict after they are closed, violation for violation |
| `LedgerCheck.ReportedExactly` | scripts/ledger_check.py:191-250 | a violation is in the report exactly when a row breaks R2 or R3 by that number, or an issue that stays open has no open row |
| `LedgerCheck.ReasonsAreTrue` | scripts/ledger_check.py:205-237 | the one reason given for a number is true of the issue and the row |
| `LedgerCheck.RulesAsWritten` | scripts/ledger_check.py:191-250 | the three rules in the words of the ledger's rows and GitHub's lines |
| `LedgerCheck.FetchItems` | scripts/ledger_check.py:134-188 | the issues, or an error if and only if gh gave nothing, a line that cannot be read, an issue twice, or no issue |
| `LedgerCheck.ItemsAreTheIssues` | scripts/ledger_check.py:157-187 | the numbers in the result are exactly those of the lines |
| `LedgerCheck.ItemsAreAsTold` | scripts/ledger_check.py:157-187 | each number's state and pull-request flag are those of its line |
| `LedgerCheck.Run` | scripts/ledger_check.py:253-295 | status 2 if and only if the ledger or GitHub cannot be read, else 0 if and only if rows and lines agree |
| `ProofOfWork.Solve` | backend/app/core/pow.py:52-61 | the smallest number that solves, or none in range |
| `ProofOfWork.MadeAndSolvedVerifies` | backend/app/core/pow.py:36-89 | a challenge the server made and any solution of it verify if and only if the expiry is not negative and not reached |
| `ProofOfWork.SaltCarriesItsExpiry` | backend/app/core/pow.py:86-88 | the text after the last mark of a salt is the expiry put into it |
| `ProofOfWork.OneIssuePerChallenge` | backend/app/core/pow.py:28-33 | a challenge id belongs to one issue, although the hash joins salt and number with nothing between |
| `ProofOfWork.OneSaltPerChallenge` | backend/app/core/pow.py:64-89 | two signed messages for one challenge id carry one salt and one expiry |
| `BotGuard.VerifiesExactly` | backend/app/core/pow.py:64-89 | a payload verifies exactly when it is well formed, signed under the secret, solved by its number, and its salt ends in an expiry that is ahead |
| `BotGuard.VerifiedIsIssued` | backend/app/core/pow.py:64-89 | if signatures cannot be forged, what verifies is a challenge the server issued with the very number it drew |
| `BotCheck.BotChecks.UseOnce` | backend/app/access/bot_check.py:76-97 | clean-up, insert and conflict as one commit; a conflict rolls the clean-up back |
| `BotCheck.BotChecks.Require` | backend/app/access/bot_check.py:51-73 | what passes the guard, and that a refusal before the record writes nothing |
| `BotGuard.OnlySolversPass` | backend/app/access/bot_check.py:56-75 | over every run, whoever passes has an issued challenge, the number drawn for it, and came before it expired |
| `BotGuard.OnlyTheFirstSolutionPasses` | backend/app/access/bot_check.py:56-97 | while nothing is forgotten a request passes exactly when its solution verifies and no earlier one presented the same challenge |
| `BotGuard.NoMorePassesThanIssues` | backend/app/access/bot_check.py:56-97 | however many requests come, no more pass than challenges were issued |
| `BotGuard.NothingPassesWithoutASecret` | backend/app/access/bot_check.py:62-66 | without a secret nothing passes and no challenge is made |
| `BotCheck.OnlyTheFirstUseIsAccepted` | backend/app/access/bot_check.py:76-97 | when no clean-up forgets, a use is accepted if and only if it is the first of its challenge |
| `BotCheck.SingleUseExactlyWhenNothingIsForgotten` | backend/app/access/bot_check.py:84-97 | single use holds for every set of challenges if and only if no clean-up can fall between two uses and read a clock past the expiry and the margin |
| `BotCheck.ForgettingIsReplay` | backend/app/access/bot_check.py:84-97 | readings that forget let one challenge be accepted twice |
| `BotCheck.AFreshSolutionIsAccepted` | backend/app/access/bot_check.py:51-97 | from the server's draw to the guard: an unexpired, unused, solved challenge is accepted |
| `AuthSessions.AuthStore.MintPrincipal` | backend/app/core/auth_sessions.py:199-239 | a new anonymous principal with one row |
| `AuthSessions.AuthStore.ClaimAndLogin` | backend/app/core/auth_sessions.py:338-394 | the visitor's chats move, the old row goes and a new one is made; a cookie with an unknown id, a wrong secret or a past expiry moves nothing |
| `AuthSessions.AuthStore.RevokeCurrentSession` | backend/app/core/auth_sessions.py:397-426 | the caller's row goes and the cookie stops resolving; a second sign-out is no error |
| `AuthSessions.AuthStore.RevokeOtherSessions` | backend/app/core/auth_sessions.py:461-484 | every other row of the account goes, counted |
| `AuthCookies.ResolvesExactly` | backend/app/core/auth_sessions.py:106-136 | over every run a request is taken for somebody exactly when its cookie's row was issued with that secret, not taken back, and has not expired |
| `AuthCookies.RowsAreTheLive` | backend/app/core/auth_sessions.py:166-239 | the table holds exactly the rows issued and not taken back |
| `AuthCookies.PendingHeldTheCookie` | backend/app/core/auth_sessions.py:106-136 | whoever a request acts as, its cookie was the one issued to that user, and live when it came |
| `AuthCookies.NobodyActsWithoutTheCookie` | backend/app/core/auth_sessions.py:338-484 | no run takes a session or a chat from a user, or adds a chat to one who already exists, except by a request that came with such a cookie |
| `AuthHistory.OwnerChangesAtMostOnce` | backend/app/core/auth_sessions.py:384-394 | over every run a chat is never lost and its owner changes at most once, from the visitor to the account signed in to |
| `AuthHistory.OneLiveSessionPerVisitor` | backend/app/core/auth_sessions.py:199-239 | an anonymous principal has at most one live auth session |
| `AuthHistory.RetiredCookiesStayDead` | backend/app/core/auth_sessions.py:384-426 | a cookie rotated, signed out or cut off by a password change never resolves again |
| `AuthHistory.GoneForGood` | backend/app/core/auth_sessions.py:106-136 | an id without a row never has one again |
| `AuthHistory.StepKeepsInv` | backend/app/core/auth_sessions.py:166-239 | every step keeps ids, principals and resolved requests consistent |
| `AuthHistory.AbandonedChatsAreFrozen` | backend/app/core/auth_sessions.py:384-394 | the chats of a visitor nobody can act for are the same ever after |
| `AuthHistory.SigningInTakesEverything` | backend/app/core/auth_sessions.py:355-361 | with no other request of the visitor under way, signing in takes every chat for good |
| `AuthHistory.ALateRequestLeavesAChat` | backend/app/core/auth_sessions.py:384-394 | any other request of the visitor can still commit a chat that stays behind |
| `AuthHistory.LateRequestsHappen` | backend/app/core/auth_sessions.py:384-394 | such a moment is reached |
| `Spend.OvershootIsBounded` | backend/app/cost/metered.py:142-149 | in every interleaving, with or without ingest, gated spend of a day plus what is pending stays below the limit plus one dearest call for each call that can be pending |
| `Spend.StepKeepsBounded` | backend/app/cost/metered.py:309-334 | every step keeps that bound |
| `Spend.InFlightNeverExceedsTheCap` | backend/app/cost/admission.py:32-44 | no process ever has more calls at the provider than the cap |
| `Spend.LimitHoldsForTheDay` | backend/app/cost/budget.py:89-145 | once a day's spend reaches the limit no gated call is admitted for the rest of the day |
| `Spend.AdmittedExactly` | backend/app/cost/budget.py:103-145 | a gated call is let past the budget exactly when it is off, or the day's sum is read and below the limit, or it cannot be read and the operator fails open |
| `Spend.SpendOnlyGrows` | backend/app/cost/budget.py:69-83 | a day's recorded spend never shrinks |
| `Spend.DayStartIsMidnight` | backend/app/cost/budget.py:58-66 | a later moment is in the same day or after the next midnight |
| `SpendTight.OvershootIsReached` | backend/app/cost/admission.py:1-12 | the bound is reached for every cap and every number of pending calls |
| `Calendar.MonthsPartitionTime` | backend/app/access/quota.py:59-68 | a moment lies in exactly one month, the one its month start names |
| `Calendar.NowIsInItsMonth` | backend/app/access/quota.py:59-68 | month start is not after now, and now is before the next month |
| `Quota.EmptyDays` | backend/app/access/quota.py:161-166 | the zero-filled days from the first to today, none missing |
| `Quota.DailyUsage` | backend/app/access/quota.py:149-180 | each day holds exactly its counted answers by channel, later stamps on today; no answer misses a day |
| `Quota.TheDaysAddUpToTheAllowance` | backend/app/access/quota.py:96-180 | the days' chat and mcp counts add up to exactly what the Pro allowance counts as used |
| `Quota.TheMonthResetsWhenItSays` | backend/app/access/quota.py:96-127 | at the reset moment shown every earlier answer has stopped counting |
| `Quota.AllowanceIsExact` | backend/app/access/quota.py:96-146 | what each allowance counts, by position, and gives: the trial with what deleted accounts carry, to a verified address; the month its Pro answers |
| `Quota.OthersDoNotCount` | backend/app/access/quota.py:128-140 | answers of other users and those the platform did not pay for change nobody's usage |
| `Quota.WhoMayAsk` | backend/app/access/quota.py:183-222 | a free account may ask exactly while verified and below its trial, a Pro one while below the month; the refusal names what helps |
| `Quota.DaysAreExact` | backend/app/access/quota.py:149-180 | a day's count of a channel is the number of the user's counted answers shown on it |

## Left out

- Convergence: steady metadata is enough for one run but not needed; the exact condition, over all runs with the same states and users, is in `MembershipExact`.
- RowsReplayTheirReads: the same; `LosingNeedsTwo` has the condition that needs no hypothesis on the run.
- EveryOwedSubscriptionIsBound: for runs in which accounts come first; `FounderIsBound` needs no hypothesis on the run.
- EveryStateCanBeDrained: that such steps exist, not that Stripe's retries come in that order; how long Stripe retries is not modelled.
- RedisRefinesTheDeque: for request times that do not go back, members used once, and a Redis clock that gains at most one second on the caller's between two calls.
- BothLimitersAgree: the same, over all keys together.
- RedisLetsInTheSame: the same, and a Redis limiter also refuses an empty key prefix.
- HitIsTheLastFrozenAnswer: for turns whose product area, index hash, policy and embedder hold no U+001F, which the service itself writes.
- Membership payloads: the JSON shapes, item and invoice layouts and the missing-account warning; an event is what its type and subscription id say, a subscription the fields `_store` reads.
- `memberships_for` and the billing routes around `apply_event`; account deletion, the deletion list and database restores.
- Rate limiting: HMAC digests are 32 characters and nothing more, the rebuild of a limiter on a settings change, the HTTP layer, and Redis commands half done when a connection drops.
- Times in the limiters are real numbers; rounding of floating-point clocks is not modelled.
- Log redactor: `str.lower` is any function, string subclasses, the log filter, `render_extras` and the query-credential expression of the access log.
- The regular-expression engine: the two patterns are written as matchers for leftmost, greedy, backtracking search, not derived from a parsed pattern.
- Answer pipeline: greeting, domain and intent classifiers, alias and memory rewrites, retrievers and the model itself are inputs of a turn; where code spans and fences lie in a reply is given with its pieces; suggestions, messages and audit rows are not kept.
- `rewrite_evidence_references` and the trimming of the text before the note, which change no marker.
- Retrieval labels: `_confidence_for` uses exact fractions where the source divides floating-point numbers.
- VerifiedIsIssued: that nobody makes up a signature is a hypothesis on the payloads that come, as is that SHA-256 has no collision; neither is shown of the functions themselves.
- ResolvesExactly: without the list of deleted accounts a restore brought back, which resolve to nobody until they are removed again.
- SHA-256, HMAC and UUIDs: injective, unforgeable and fresh where a lemma says so, otherwise arbitrary; cookie digests are compared as the secrets themselves.
- The session-level details of the cache table: `last_used_at`, the backfilled columns and the no-op store.
- Ledger lines are classified already: the heading, table and issue patterns, `gh`'s process and JSON, the printed text and a ledger that is not UTF-8 (the script then ends with an exception) are not modelled.
- Bot check: base64 and JSON decoding is one `Malformed` case, and a salt's digits are ASCII.
- Sessions: a chat is never deleted, OAuth nonces, the step-up stamp and the password itself; only a registered account changes a password.
- Spend: prices and token counts are a cost bounded by the dearest call, the soft limit only logs, the semaphore's rebuild on a settings change, and clocks that differ between processes.
- Allowance: which tier has which allowance, the refusal texts, the deleted-account lookup beyond the carried count, and years past 9999.
- Frontend, migrations, settings validators, OAuth transport, mail and the other scripts.
