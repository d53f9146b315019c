# Catalyst Auth: a verified model of its stateful core

This project models, in Dafny, the parts of Catalyst Auth whose correctness spans many calls, and
proves what those parts promise over every run. `dafny verify dfyconfig.toml` checks all of it.

## What is modelled

**Effective identities and their cache.** The Postgres profile and entitlement stores
(`ProfileTables`, `ProfileRepository`) answer `computeEffectiveIdentity` from tables, what an answer is
made of is said field by field (`IdentityMeaning`), and the stores keep the
answers in a tagged cache that eight mutations purge (`CacheInvalidation`). `IdentityCoherence` finds
the exact condition under which a mutation and its purge leave every cached identity right.
`IdentityRuns` concludes that caching is invisible over every run in which callers meet three
conditions, and that breaking one of them at a cached key always shows:

- an organisation that a request only implies is stored when the identity is computed, because the
  tags name the stored organisation and not the requested one;
- a group id that memberships already list is created in the organisation of those memberships;
- an entitlement keeps its subject, because only the new subject is purged. When one is moved away,
  the cached identity stays right exactly if dropping the row from the listing changes no name or
  place in it (`Shadowed`).

**The tagged caches.** `MemoryCache` keeps entries, a tag index and timers; its index is exactly the
inverse of the entries' tags. `TimedMap` proves that a read answers what the history of calls alone
determines. `RedisCache` keeps four families of Redis keys; `CacheRefinement` proves that whatever it
answers, the in-memory cache answers too, and says at which call the two part: a purge whose tag index
still names a live key from an earlier life. That needs a time to live, and any time to live can
cause it.

**Webhook delivery.** `Retry`, `WebhookWorker` and `WebhookQueue` model the retry policy, the delivery
worker with failing lookups and writes, the poller and the queue consumer. On either path the number
of requests is bounded, and the bound is met. The two bounds differ: the consumer does not look at
the status of a delivery, so each further message of a delivery that was enqueued several times may
send it once more, finished or not. Messages are conserved; a delivery that was enqueued once has at
most one waiting message, and is never sent again once it is finished.

**Runbooks.** `CanonicalJson` and `JsonText` model the canonical form behind the spec hash down to its
text, in UTF-16 code units, with the engine's own order of index-like keys (`PropertyOrder`). `Runbook` models plan and
apply: convergence, what a second apply does, and dependency skipping as reachability. Skipping has
one exception, found in the code: the first blocking dependency is read as a truth value, so an
action may run although the action with the empty id, on which it depends, failed.

**Policies.** `Glob` proves that a pattern compiled to regular-expression text means the glob it was
written as, on one-line candidates and only there. `Policy` proves that rule normalisation keeps the
meaning of rules, and that evaluation is deny-overrides with an allow bit independent of rule order.

**Forward auth.** `Credentials` goes from the headers of a request to an identity, through access tokens
or API keys. `ForwardAuth` characterises every decision served from the cache over every run.
`DecisionCoherence` and `DecisionRuns` put the profile tables and their invalidator behind it, and find
when a cached decision outlives a change of the identity it was made for. Beside the three conditions above there is a
fourth. Decisions carry no tag of their membership, and a membership saved for another user in another
organisation purges only what the new record names, so the old user's decision stays until it expires;
that is harmless exactly if the user's earliest other membership gives the same identity.

**The in-memory stores.** `ProfileStore`, `KeyStore` and `EntitlementQuery` keep ordered secondary
indexes (`OrderedIndex`) exact, and answer as scans of their tables do. The forward-auth service and
the key store disagree about one kind of key: one whose expiry cannot be read is active to the store
for ever, and refused by the service.

Clocks, generated ids, HTTP results, identity-provider answers and the failures of stores and queues
are parameters. Classes stand for the objects that change in place; each method is proved against a
function or predicate of the state, and lemmas are about those: the lemmas named `...Meaning` pin such
a function in terms of the stored fields, numbers and texts alone.

## Model

| member | source | states |
|---|---|---|
| IdentityRuns.CachingIsInvisible | packages/data-postgres/src/repositories/profile-repository.ts:414-525 | over every permitted run of mutations, requests, expiry and evictions, every request gets the identity or error it would get without a cache |
| IdentityCoherence.MutationExact | packages/data-postgres/src/utils/cache-invalidation.ts:73-118 | a mutation with its purge keeps all cached identities right if and only if it is harmless to every cached key |
| IdentityRuns.RunCoherenceExact | packages/data-postgres/src/repositories/profile-repository.ts:414-525 | over every run, the cache is right after each event exactly if each mutation is harmless to the keys cached when it comes |
| IdentityCoherence.SurvivorExact | packages/data-postgres/src/repositories/profile-repository.ts:467-481 | an entry a mutation does not purge stays right exactly when the mutation is harmless to its key |
| IdentityCoherence.MovedEntitlement | packages/data-postgres/src/repositories/entitlement-repository.ts:113-144 | moving an entitlement away from a key keeps its entitlement names exactly when the old row was shadowed |
| IdentityCoherence.PurgedKeys | packages/data-postgres/src/repositories/profile-repository.ts:499-525 | a right entry is purged exactly when the mutation's notice names its user, organisation, membership or a stored listed group |
| IdentityCoherence.SurvivesExactly | packages/data-postgres/src/utils/cache-invalidation.ts:73-97 | which keys each of the eight mutations leaves cached, in terms of its record: all but those of its user, organisation, membership or subject, or of a stored listed group of it |
| IdentityCoherence.RightTags | packages/data-postgres/src/repositories/profile-repository.ts:499-525 | the tags of an identity are its user, stored organisation, membership and the listed groups that exist |
| IdentityCoherence.SubjectTags | packages/data-postgres/src/repositories/entitlement-repository.ts:158-176 | an entitlement change purges one tag, carried by exactly the keys that list the subject |
| IdentityCoherence.NoticeHasTags | packages/data-postgres/src/utils/cache-invalidation.ts:99-113 | no mutation that notifies clears the whole identity cache |
| IdentityRuns.ReadExact | packages/data-postgres/src/repositories/profile-repository.ts:414-481 | on a coherent cache the answer differs from the plain one exactly for a cached key whose requested organisation is not stored |
| IdentityRuns.ReadKeepsCoherence | packages/data-postgres/src/repositories/profile-repository.ts:433-481 | a request, hit or miss, leaves the cache coherent |
| IdentityRuns.ChangeKeepsLinks | packages/data-postgres/src/repositories/profile-repository.ts:353-412 | purged caches keep only keys whose organisation is stored and whose membership is of that organisation |
| IdentityRuns.HarmShows | packages/data-postgres/src/repositories/profile-repository.ts:414-481 | on any coherent cache with an unexpired identity for the key, a harmful change makes the answer wrong |
| IdentityRuns.HarmIsObservable | packages/data-postgres/src/repositories/profile-repository.ts:414-481 | ask, change harmfully, ask again: from any coherent cache and before the identity expires, the second answer is always the wrong one |
| IdentityRuns.LateOrganisationHarms | packages/data-postgres/src/repositories/profile-repository.ts:469-477 | creating the implied organisation after caching leaves a wrong identity |
| IdentityRuns.GroupOfAnotherOrganisationHarms | packages/data-postgres/src/repositories/profile-repository.ts:289-323 | creating a listed group in another organisation can leave a wrong identity |
| IdentityRuns.MovedEntitlementHarms | packages/data-postgres/src/repositories/entitlement-repository.ts:141-142 | moving an entitlement to another subject can leave a wrong identity |
| ProfileTables.IdentityGroups | packages/data-postgres/src/repositories/profile-repository.ts:448-466 | the groups of an identity are the listed ids that have a row, if groups are included |
| ProfileTables.EarliestMeaning | packages/data-postgres/src/repositories/profile-repository.ts:545-578 | the implied membership is one of the user's, in the organisation if one is given; no such membership was created before it, and those created with it have larger ids |
| ProfileTables.EarliestOtherMeaning | packages/data-postgres/src/repositories/profile-repository.ts:552-578 | the same of the memberships but one |
| ProfileTables.AfterMeaning | packages/data-postgres/src/repositories/entitlement-repository.ts:113-156 | row by row and table by table, what each of the eight mutations leaves: the saved row under its id, no row under a deleted id, every other row as before |
| IdentityMeaning.OrgMeaning | packages/data-postgres/src/repositories/profile-repository.ts:414-440 | an identity is for the organisation asked for, else its membership's, else the user's own, if that is stored |
| IdentityMeaning.IdentityMeaning | packages/data-postgres/src/repositories/profile-repository.ts:433-481 | user, role, scopes, and as entitlements exactly the names of the rows granted to the user, the organisation or the membership |
| IdentityMeaning.GroupsMeaning | packages/data-postgres/src/repositories/profile-repository.ts:448-466 | the groups, if asked for, are exactly those of the membership's list that are stored |
| IdentityMeaning.GroupsInOrder | packages/data-postgres/src/repositories/profile-repository.ts:580-589 | in the order of the list |
| IdentityMeaning.LabelMeaning | packages/data-postgres/src/repositories/profile-repository.ts:81-92 | label by label: that of the last stored listed group that has it, else of the membership, else of the organisation, else of the user |
| IdentityMeaning.ListingMeaning | packages/data-postgres/src/repositories/profile-repository.ts:591-623 | entitlement rows come in the order of their creation, then of their names, then of their ids |
| IdentityMeaning.ErrorMeaning | packages/data-postgres/src/repositories/profile-repository.ts:527-550 | which error a request gets, and exactly when |
| ProfileTables.ConflictsExact | packages/data-postgres/src/migrations/0001_initial.sql:13-21 | a mutation keeps slugs and the entitlements of a subject unique exactly when the tables do not refuse it |
| ProfileRepository.PostgresStores.ComputeEffectiveIdentity | packages/data-postgres/src/repositories/profile-repository.ts:414-481 | answer and cache afterwards, in full, for hit, miss, expiry and each error |
| ProfileRepository.PostgresStores.ResolveMembership | packages/data-postgres/src/repositories/profile-repository.ts:527-550 | the membership or the error of a request, explicit or implied |
| ProfileRepository.PostgresStores.CollectEntitlements | packages/data-postgres/src/repositories/profile-repository.ts:591-623 | the deduplicated sorted names of the rows of the user, organisation and membership |
| ProfileRepository.PostgresStores.CacheIdentity | packages/data-postgres/src/repositories/profile-repository.ts:499-525 | what is stored, under which tags and expiry |
| ProfileRepository.PostgresStores.UpsertUserProfile | packages/data-postgres/src/repositories/profile-repository.ts:184-221 | new tables and both purged caches |
| ProfileRepository.PostgresStores.UpsertOrgProfile | packages/data-postgres/src/repositories/profile-repository.ts:245-279 | new tables and both purged caches, or a refusal and no change exactly if another organisation holds the slug |
| ProfileRepository.PostgresStores.UpsertGroup | packages/data-postgres/src/repositories/profile-repository.ts:289-323 | new tables and both purged caches |
| ProfileRepository.PostgresStores.DeleteGroup | packages/data-postgres/src/repositories/profile-repository.ts:325-335 | new tables and both purged caches; nothing if there is no row |
| ProfileRepository.PostgresStores.UpsertMembership | packages/data-postgres/src/repositories/profile-repository.ts:353-395 | new tables and both purged caches |
| ProfileRepository.PostgresStores.RemoveMembership | packages/data-postgres/src/repositories/profile-repository.ts:397-412 | new tables and both purged caches; nothing if there is no row |
| ProfileRepository.PostgresStores.UpsertEntitlement | packages/data-postgres/src/repositories/entitlement-repository.ts:113-144 | new tables and the caches purged for the new subject, or a refusal and no change exactly if the subject has it under another id |
| ProfileRepository.PostgresStores.RemoveEntitlement | packages/data-postgres/src/repositories/entitlement-repository.ts:146-156 | new tables and the caches purged for the stored subject; nothing if there is no row |
| ProfileRepository.PostgresStores.Serve | packages/data-postgres/src/repositories/profile-repository.ts:414-525 | the stores at work in any permitted order answer every request as without a cache |
| Contracts.MergeLabelSets | packages/data-postgres/src/repositories/profile-repository.ts:81-92 | the merge of the operands that are given, in order |
| Contracts.LastMentionWins | packages/data-postgres/src/repositories/profile-repository.ts:81-92 | a merged label is there exactly if some set has it, with the value of the last set that does |
| Prelude.FirstOccurrencesOrder | packages/data-postgres/src/repositories/profile-repository.ts:94-105 | of two values kept, the one kept first occurs before the other does |
| Prelude.DedupeStrings | packages/data-postgres/src/repositories/profile-repository.ts:94-105 | the first occurrences, in order; the same values |
| MemoryCache.MemoryCache.Get | packages/cache-memory/src/memory-cache.ts:25-37 | the unexpired value, if any; an expired entry is evicted; the index stays exact |
| MemoryCache.MemoryCache.Set | packages/cache-memory/src/memory-cache.ts:39-65 | the entry replaced under new tags and expiry, a timer exactly if it expires; the index stays exact |
| MemoryCache.MemoryCache.Delete | packages/cache-memory/src/memory-cache.ts:67-74 | the entry gone, the others untouched; the index stays exact |
| MemoryCache.MemoryCache.PurgeByTag | packages/cache-memory/src/memory-cache.ts:76-87 | exactly the entries with the tag are gone |
| MemoryCache.MemoryCache.Clear | packages/cache-memory/src/memory-cache.ts:89-95 | no entry, bucket or timer is left |
| MemoryCache.MemoryCache.FireTimer | packages/cache-memory/src/memory-cache.ts:109-118 | only the very entry the timer captured goes, and only if it has expired |
| MemoryCache.MemoryCache.Evict | packages/cache-memory/src/memory-cache.ts:129-148 | the entry, its timer and its index memberships go, and buckets that empty with them |
| TimedMap.GetAnswersTheTimedMap | packages/cache-memory/src/memory-cache.ts:25-148 | with a nondecreasing clock a read answers a value exactly if the last set of the key stored it, unexpired, with no delete, purge of its tags or clear since |
| TimedMap.EveryEntryExplained | packages/cache-memory/src/memory-cache.ts:105-148 | on any clock, what is stored is exactly what was set last, not ended and not seen expired since |
| TimedMap.GetExact | packages/cache-memory/src/memory-cache.ts:25-148 | on any clock, a read answers a value exactly if the last set of the key stored it, unexpired, not ended since, and no read or timer has seen it expired |
| TimedMap.LostExactly | packages/cache-memory/src/memory-cache.ts:25-37 | a standing unexpired value is lost exactly when a read or its timer saw it expired, which takes a clock that ran backwards |
| TimedMap.LifeOfAnEntry | packages/cache-memory/src/memory-cache.ts:39-65 | after any history, a value set for s seconds is answered for exactly the next s seconds of a clock in milliseconds, and for ever without a time to live |
| TimedMap.BackwardClockShows | packages/cache-memory/src/memory-cache.ts:25-37 | such a loss |
| TimedMap.Perform | packages/cache-memory/src/memory-cache.ts:25-148 | the class does to its entries what the history function says |
| CacheInvalidation.InvalidateCache | packages/data-postgres/src/utils/cache-invalidation.ts:99-118 | for a cache that can purge by tag, clear, both or neither: what is left |
| CacheInvalidation.PurgeTags | packages/data-postgres/src/utils/cache-invalidation.ts:110-113 | concurrent purges, in any interleaving of their deletes, leave exactly the entries with none of the tags |
| CacheInvalidation.InvalidationExact | packages/data-postgres/src/utils/cache-invalidation.ts:99-118 | no entry is left under a tag, except in a cache that can neither purge nor clear and holds one |
| CacheInvalidation.InvalidationMeaning | packages/data-postgres/src/utils/cache-invalidation.ts:99-118 | key by key: purging takes exactly what has one of the tags; clearing, which also answers for no tags at all, takes everything; else all stays |
| CacheInvalidation.IdentityTags | packages/data-postgres/src/utils/cache-invalidation.ts:73-97 | the identity tags a context purges are exactly those of its user, organisation, membership and groups |
| CacheInvalidation.DecisionTags | packages/data-postgres/src/utils/cache-invalidation.ts:51-71 | the decision tags a context purges are exactly those of its user, organisation and groups; the membership gives none |
| CacheInvalidation.CacheInvalidator.InvalidateDecisionCache | packages/data-postgres/src/utils/cache-invalidation.ts:51-71 | the decision cache without the context's user, organisation and groups, as far as the cache can |
| CacheInvalidation.CacheInvalidator.InvalidateIdentityCache | packages/data-postgres/src/utils/cache-invalidation.ts:73-97 | the identity cache without the context's tags, as far as the cache can |
| CacheInvalidation.CacheInvalidator.Invalidate | packages/data-postgres/src/utils/cache-invalidation.ts:18-23 | both caches at once, each as far as it can |
| RedisCache.NamesDisjoint | packages/cache-redis/src/redis-cache.ts:125-141 | for plain keys, two names of the four families render alike only if they are the same |
| RedisCache.DeletesCompose | packages/cache-redis/src/redis-cache.ts:72-101 | deleting keys one by one is deleting them all |
| RedisCache.SetMeaning | packages/cache-redis/src/redis-cache.ts:36-70 | key by key, the value, tags, times to live and key index after a set; the empty tag is dropped |
| RedisCache.SetIndexMeaning | packages/cache-redis/src/redis-cache.ts:36-70 | a key is in the index of a tag after a set exactly if it was given the tag now, or was there and is not the key set under a live tag of its old life |
| RedisCache.DeletesMeaning | packages/cache-redis/src/redis-cache.ts:72-90 | key by key, all four families after deletes; a key leaves the index of a tag only if its tag set is still alive and names the tag |
| RedisCache.PurgeMeaning | packages/cache-redis/src/redis-cache.ts:92-101 | key by key, all four families after a purge; nothing is left in the index of the tag |
| RedisCache.ClearMeaning | packages/cache-redis/src/redis-cache.ts:103-110 | key by key, all four families after a clear; only keys of the key index go |
| RedisCache.RedisCache.Set | packages/cache-redis/src/redis-cache.ts:36-70 | all four families after the old life of the key is deleted and the new one stored |
| RedisCache.RedisCache.Delete | packages/cache-redis/src/redis-cache.ts:72-90 | the key gone from all families; indexes that empty are dropped; expired tag sets unindex nothing |
| RedisCache.RedisCache.PurgeByTag | packages/cache-redis/src/redis-cache.ts:92-101 | every key the index names is deleted, live under the tag or not |
| RedisCache.RedisCache.Clear | packages/cache-redis/src/redis-cache.ts:103-110 | every key of the key index is deleted |
| CacheRefinement.RedisAnswersRefine | packages/cache-redis/src/redis-cache.ts:28-140 | over every run of the same calls, any value the Redis cache answers is the in-memory cache's answer |
| CacheRefinement.RunRefines | packages/cache-redis/src/redis-cache.ts:36-110 | every live Redis value is the in-memory entry, and every index it belongs in names it |
| CacheRefinement.AgreementExact | packages/cache-redis/src/redis-cache.ts:92-101 | caches that agree go on agreeing over a call exactly unless it purges a tag whose index names a live key that no longer carries it |
| CacheRefinement.RunAgreementExact | packages/cache-redis/src/redis-cache.ts:28-140 | over every run the caches agree after each call exactly if no call purges a tag with such a leftover |
| CacheRefinement.LeftoverLosesEntry | packages/cache-redis/src/redis-cache.ts:36-101 | for any time to live, a run in which Redis loses an entry that the in-memory cache keeps |
| CacheRefinement.WithoutTtlAlike | packages/cache-redis/src/redis-cache.ts:28-140 | without times to live the two caches always answer alike |
| CacheRefinement.PerformRedis | packages/cache-redis/src/redis-cache.ts:28-110 | the class does to its state what the run function says |
| CanonicalJson.NormalFormDecides | packages/mcp-runner/src/diff.ts:5-23 | two values have the same normal form exactly when they are equal up to key order, dropped undefined fields and undefined as null |
| CanonicalJson.NormalizeKeepsForm | packages/mcp-runner/src/diff.ts:5-23 | a value equals its normal form up to those differences |
| CanonicalJson.NormalizeIdempotent | packages/mcp-runner/src/diff.ts:5-23 | normalising twice is normalising once |
| JsonText.RoundTrip | packages/mcp-runner/src/diff.ts:25-25 | reading any printed value, in front of any text that does not start with a digit, gives it back |
| JsonText.CanonicalTextReadsBack | packages/mcp-runner/src/diff.ts:25-25 | the canonical text reads back as the normal form |
| JsonText.CanonicalTextDecides | packages/mcp-runner/src/diff.ts:25-28 | two values have the same canonical text exactly when they are equal up to form |
| JsonText.UnitMeaning | packages/mcp-runner/src/diff.ts:25-25 | which units of a string are escaped, and how |
| PropertyOrder.IndexMeaning | packages/mcp-runner/src/diff.ts:10-20 | the names that an engine orders as numbers are exactly the decimal texts of those below 2^32 - 1 |
| PropertyOrder.NormalOrder | packages/mcp-runner/src/diff.ts:10-20 | of two properties of a normalised object the first has the lower number, if both are indexes, or the lower name, if neither is; indexes come first |
| Glob.CompiledParses | packages/policy-basic/src/basic-policy-engine.ts:69-89 | for every pattern, escaping and rewriting gives a text that parses to one literal per character and any-string per star |
| Glob.CompilationExact | packages/policy-basic/src/basic-policy-engine.ts:69-89 | on every candidate the compiled expression accepts the glob whose stars stay within a line |
| Glob.MatchersExact | packages/policy-basic/src/basic-policy-engine.ts:77-89 | all matchers mean their globs on a candidate exactly if it has no line terminator |
| Glob.MatcherMeaning | packages/policy-basic/src/basic-policy-engine.ts:77-89 | on a one-line candidate a matcher accepts exactly the trimmed pattern's glob language, a blank pattern nothing |
| Glob.MatcherExact | packages/policy-basic/src/basic-policy-engine.ts:77-89 | on every candidate: a lone star accepts all; any other pattern the glob it is once trimmed, with stars that stay within a line; a blank one nothing |
| Glob.TrimMeaning | packages/policy-basic/src/basic-policy-engine.ts:49-89 | trimming takes white space off both ends, and all of it |
| Policy.NormalizationKeepsMeaning | packages/policy-basic/src/basic-policy-engine.ts:213-289 | trimming, dropping blanks and deduplicating keep which inputs a rule applies to, by a definition of that on the rule as written which shares no test with the engine; an all-blank list counts as absent |
| Policy.LabelsMean | packages/policy-basic/src/basic-policy-engine.ts:96-148 | the tests of labels and environment pass exactly if every required label is there with its value, no forbidden one is, and every property of the environment is there, scalar and equal |
| Policy.ResourcesMean | packages/policy-basic/src/basic-policy-engine.ts:291-368 | the test of the resource passes exactly if its type, id and labels are as the rule asks, each as far as it asks |
| Policy.DecisionMeaning | packages/policy-basic/src/basic-policy-engine.ts:420-433 | the decision that a rule as written makes: allowance, reason or the one made of its id, obligations and token |
| Policy.NormalizeStringArray | packages/policy-basic/src/basic-policy-engine.ts:49-67 | the trimmed non-blank entries once each, in order, or nothing if there are none |
| Policy.NormalizeRule | packages/policy-basic/src/basic-policy-engine.ts:261-289 | the normal form of a rule |
| Policy.ActionsAreGlobs | packages/policy-basic/src/basic-policy-engine.ts:91-94 | on one-line actions a rule's patterns are the globs its author wrote |
| Policy.CreateBasicPolicyEngine | packages/policy-basic/src/basic-policy-engine.ts:375-384 | an engine for the rules as written, or an error exactly if one has no action pattern |
| Policy.Decide | packages/policy-basic/src/basic-policy-engine.ts:375-418 | rules in, decision out: the verdict on the rules as written |
| Policy.BasicPolicyEngine.Evaluate | packages/policy-basic/src/basic-policy-engine.ts:386-418 | the decision of the first denial on the raw rules, else of the first permission, else the default |
| Policy.AllowBit | packages/policy-basic/src/basic-policy-engine.ts:386-418 | allowed exactly if no denial applies and some permission or the default allows |
| Policy.DefaultDenies | packages/policy-basic/src/basic-policy-engine.ts:375-418 | where no permission applies, the default decision denies |
| Policy.OrderDoesNotMatter | packages/policy-basic/src/basic-policy-engine.ts:386-418 | permuting or repeating rules keeps the allow bit |
| Policy.DenialOnlyDenies | packages/policy-basic/src/basic-policy-engine.ts:402-405 | one more denial allows exactly those allowed before to whom it does not apply |
| Retry.DelaySeconds | packages/webhook-worker/src/retry.ts:34-44 | always positive: a listed back-off or the default, with the index in range |
| Retry.DelayOfAttempt | packages/webhook-worker/src/retry.ts:34-44 | attempt n waits the n-th back-off, the default where that is not positive, and the last one beyond the list |
| Retry.NextAttemptAt | packages/webhook-worker/src/retry.ts:46-64 | a next attempt exactly below the maximum, at least a second ahead |
| Retry.NextAttemptMeaning | packages/webhook-worker/src/retry.ts:16-64 | when the next attempt is, in milliseconds: after the policy's own n-th back-off, beyond its list the last one, 30 seconds for one that is not positive, and 30, 60 and 120 seconds without a list; below its maximum, or three |
| Retry.RetryMatures | packages/webhook-worker/src/queue-worker.ts:22-36 | a queued retry matures no earlier than the next attempt, and less than a second and the enqueuing later |
| WebhookWorker.SendsBounded | packages/webhook-worker/src/worker.ts:216-366 | on the polling path, under any HTTP results and failing writes, a fresh delivery is sent at most max(1, maxAttempts) times plus the outcomes that could not be recorded |
| WebhookWorker.BoundMet | packages/webhook-worker/src/worker.ts:260-366 | for every maximum and number of lost outcomes, a run that meets the bound |
| WebhookWorker.ProcessingProgresses | packages/webhook-worker/src/worker.ts:260-366 | with no failing write a processing ends the delivery or uses up an attempt |
| WebhookWorker.OutcomeMeaning | packages/webhook-worker/src/worker.ts:260-366 | with both writes made, a delivery is succeeded exactly for a response with 200 <= status < 300, else pending while its policy has a next attempt, else dead-lettered; and all other fields |
| WebhookWorker.FailureMeaning | packages/webhook-worker/src/worker.ts:216-366 | what is stored and answered when the lookup or a write fails or the subscription is gone, and whether a request was sent |
| WebhookWorker.DeadLetterUriMeaning | packages/webhook-worker/src/worker.ts:319-366 | the answer is the stored record, with the dead-letter address of its policy exactly if it was given up |
| WebhookWorker.FinishedStaysFinished | packages/data-postgres/src/repositories/webhook-repository.ts:608-640 | the poller never touches a succeeded or dead-lettered delivery again |
| WebhookWorker.PendingRowsMeaning | packages/data-postgres/src/repositories/webhook-repository.ts:608-640 | the listed rows are stored, due and listed once |
| WebhookWorker.DueMeaning | packages/data-postgres/src/repositories/webhook-repository.ts:608-640 | a poll takes only deliveries that are pending or under delivery with no next attempt after its time, at most the limit; one it leaves out comes no sooner than any it takes |
| WebhookWorker.DueOrder | packages/data-postgres/src/repositories/webhook-repository.ts:608-640 | within a poll, those without a next attempt first, then by that, then by creation |
| WebhookWorker.PatchMeaning | packages/data-postgres/src/repositories/webhook-repository.ts:469-542 | a patch changes exactly the fields it gives, and the time of the change |
| WebhookWorker.DeliveryStore.UpdateDelivery | packages/data-postgres/src/repositories/webhook-repository.ts:469-542 | the patched record, or an error and no change |
| WebhookWorker.DeliveryStore.ListPending | packages/data-postgres/src/repositories/webhook-repository.ts:608-640 | the due rows sorted and cut at the limit |
| WebhookWorker.DeliveryWorker.ProcessDeliveryRecord | packages/webhook-worker/src/worker.ts:216-240 | stored record, answer and request sent, for every combination of failures |
| WebhookWorker.DeliveryWorker.AttemptDelivery | packages/webhook-worker/src/worker.ts:260-317 | the same for a delivery with a subscription |
| WebhookWorker.DeliveryWorker.HandleFailure | packages/webhook-worker/src/worker.ts:319-366 | the same once the request failed |
| WebhookWorker.DeliveryWorker.RunOnce | packages/webhook-worker/src/worker.ts:100-192 | stored records, requests sent and summary or error of one pass over the due deliveries, up to the first error |
| WebhookWorker.DeliveryWorker.ProcessAll | packages/webhook-worker/src/worker.ts:137-161 | the same for a given list |
| WebhookWorker.PassSettles | packages/webhook-worker/src/worker.ts:122-171 | a pass that returns leaves every listed delivery terminal, or pending for later than its processing |
| WebhookWorker.PassCounts | packages/webhook-worker/src/worker.ts:133-166 | its three counts are the listed deliveries left in each state, and add up to the total |
| WebhookWorker.PassElsewhere | packages/webhook-worker/src/worker.ts:137-161 | a pass, failed or not, leaves every other delivery as it was |
| WebhookWorker.PassFails | packages/webhook-worker/src/worker.ts:137-149 | a pass fails exactly when the processing of a listed delivery fails |
| WebhookQueue.JobHandle.Finish | packages/webhook-queue-redis/src/redis-webhook-queue.ts:187-215 | the first settlement counts, later ones change nothing |
| WebhookQueue.JobHandle.Ack | packages/webhook-queue-redis/src/redis-webhook-queue.ts:227-230 | acknowledges unless settled |
| WebhookQueue.JobHandle.Retry | packages/webhook-queue-redis/src/redis-webhook-queue.ts:231-253 | puts the message back after its delay, with its metadata extended, unless settled |
| WebhookQueue.JobHandle.DeadLetter | packages/webhook-queue-redis/src/redis-webhook-queue.ts:254-279 | dead-letters with reason, attempts and extended metadata, unless settled |
| WebhookQueue.QueueWorker.HandleMessage | packages/webhook-worker/src/queue-worker.ts:99-173 | the stored delivery and the one settlement, for every combination of failures |
| WebhookQueue.SettlementMeaning | packages/webhook-worker/src/queue-worker.ts:99-173 | a succeeded or missing delivery is acknowledged, a dead-lettered one dead-lettered with its error and attempts, a pending one put back, any failure retried after the fixed delay; no other delivery changes |
| WebhookQueue.MetadataMeaning | packages/webhook-worker/src/queue-worker.ts:99-173 | what a retry and a dead letter carry along |
| WebhookQueue.EventCounts | packages/webhook-worker/src/queue-worker.ts:99-173 | per delivery, each event adds to the ledgers exactly what it enqueues, acknowledges, dead-letters or fails to settle |
| WebhookQueue.SettledForGood | packages/webhook-worker/src/queue-worker.ts:99-173 | every handled job is settled, and a message put back is for the same delivery |
| WebhookQueue.NothingLost | packages/webhook-queue-redis/src/redis-webhook-queue.ts:136-300 | over every run, per delivery, the messages enqueued are those waiting, acknowledged, dead-lettered and failed to settle |
| WebhookQueue.OneMessageAtMost | packages/webhook-worker/src/queue-worker.ts:99-173 | a delivery enqueued once has at most one waiting message, beyond the attempts made, and none once it is finished |
| WebhookQueue.QueueSendsBounded | packages/webhook-worker/src/queue-worker.ts:99-173 | on the queue path, over every run, a fresh delivery enqueued k times is sent at most max(1, maxAttempts) - 1 + k times plus the outcomes that could not be recorded, less its waiting messages |
| WebhookQueue.QueueBoundMet | packages/webhook-worker/src/worker.ts:260-366 | for every maximum, number of enqueuings and number of lost outcomes, a run that meets that bound |
| WebhookQueue.OnceSendsBounded | packages/webhook-worker/src/queue-worker.ts:99-173 | enqueued once, a delivery meets the bound of the polling path, and has an attempt left while it is not finished |
| WebhookQueue.SentAgainExactly | packages/webhook-worker/src/worker.ts:194-240 | a finished delivery can be sent again without further enqueuing exactly when a message for it is still waiting |
| WebhookQueue.FinishedNeverSentAgain | packages/webhook-worker/src/queue-worker.ts:99-173 | enqueued once, a finished delivery is never sent or changed again |
| WebhookQueue.NoMessageNoSend | packages/webhook-worker/src/queue-worker.ts:99-173 | a delivery without a waiting message is neither sent nor changed until it is enqueued |
| WebhookQueue.ScheduledRetryOnTime | packages/webhook-worker/src/queue-worker.ts:22-36 | a scheduled retry never comes up before the record says it is due, and less than a second and the enqueuing after |
| Runbook.Runner.ValidateRunbook | packages/mcp-runner/src/runner.ts:245-260 | accepts exactly distinct ids and known dependencies |
| Runbook.Runner.PlanAll | packages/mcp-runner/src/runner.ts:286-297 | the change of every action, or the error of the first read |
| Runbook.Runner.HasChanges | packages/mcp-runner/src/runner.ts:271-304 | true exactly if some action would change its resource |
| Runbook.Runner.Apply | packages/mcp-runner/src/runner.ts:332-502 | results, resources, state store and port calls after an apply; nothing changes on an error |
| Runbook.Runner.Perform | packages/mcp-runner/src/runner.ts:419-480 | one action carried out, with a port call or store write that may fail |
| Runbook.ExecuteMeaning | packages/mcp-runner/src/runner.ts:419-480 | carrying out one action makes the one create, update or delete its resource asks for, or none, records the hash or removes the record, and reports which; a failing call changes nothing |
| Runbook.DesiredMeans | packages/mcp-runner/src/runner.ts:131-170 | a resource is as desired exactly if its properties equal the wanted ones up to form |
| Runbook.PlanDecides | packages/mcp-runner/src/runner.ts:121-229 | no change is planned exactly if the resource is as desired |
| Runbook.OwnResource | packages/mcp-runner/src/runner.ts:360-480 | the resource of a skipped, converged or dry-run action is as before; that of a successful one is as desired |
| Runbook.ApplyConverges | packages/mcp-runner/src/runner.ts:332-480 | every action reported applied or already there is at its desired state, and untargeted resources are as before |
| Runbook.ConvergedStays | packages/mcp-runner/src/runner.ts:332-480 | over any number of applies, whatever fails, the converged set never shrinks |
| Runbook.SuccessIsFinal | packages/mcp-runner/src/runner.ts:271-304 | if nothing failed, the next plan has no changes and the next apply makes no changing call |
| Runbook.DryRunTouchesNothing | packages/mcp-runner/src/runner.ts:397-417 | a dry run makes no port call and changes no resource |
| Runbook.DryRunRecords | packages/mcp-runner/src/runner.ts:419-438 | a dry run may still write the state store |
| Runbook.SkippedIsReachable | packages/mcp-runner/src/runner.ts:360-395 | an action is skipped exactly when a chain of dependencies, each listed before its dependent, leads to a failed one |
| Runbook.SkippingExact | packages/mcp-runner/src/runner.ts:369-374 | skipping is reachability, whatever fails, exactly if no action depends on an earlier one with the empty id |
| Runbook.SkippedTouchesNothing | packages/mcp-runner/src/runner.ts:374-417 | a skipped action leaves resources, state store and port alone |
| ForwardAuth.ServedExact | packages/forward-auth/src/forward-auth-service.ts:268-312 | a response is served for a token exactly when it is in full what the latest allow with that token built, within the time to live, with no change of its user, organisation or groups and no clear since |
| ForwardAuth.EveryOkIsAllowed | packages/forward-auth/src/forward-auth-service.ts:76-127 | every 200 of a run was allowed by the policy engine on this request or on an earlier one that still stands |
| ForwardAuth.OkMeaning | packages/forward-auth/src/forward-auth-service.ts:76-127 | a 200 that is not served from the cache rests on an active token with a subject, or on a stored active key of the secret, and on an allow of the policy engine for the identity that comes of it |
| ForwardAuth.InactiveTokenIsUnauthorized | packages/forward-auth/src/forward-auth-service.ts:129-148 | a token that the identity provider finds inactive or without a subject gets a 401 and its error code, whatever the policy engine would say |
| ForwardAuth.StatusMeaning | packages/forward-auth/src/forward-auth-service.ts:76-192 | each status answers exactly to its causes: allowed, unauthorised, forbidden, not configured, or a failing port |
| ForwardAuth.ErrorMeaning | packages/forward-auth/src/forward-auth-service.ts:404-424 | an error code is given exactly if nothing is allowed |
| ForwardAuth.RefusalMeaning | packages/forward-auth/src/forward-auth-service.ts:404-424 | different refusals have different error codes, and the message of a failing port is passed on |
| ForwardAuth.DenialMeaning | packages/forward-auth/src/forward-auth-service.ts:112-122 | reason and obligations of a denial, and the error of a failing policy engine, are passed on |
| ForwardAuth.AllowTells | packages/forward-auth/src/forward-auth-service.ts:377-402 | which of the thirteen headers of an allow carries which field of the caller or the decision; the error headers are absent |
| ForwardAuth.JoinMeaning | packages/forward-auth/src/forward-auth-service.ts:377-386 | lists are told with one comma between their entries |
| ForwardAuth.QuestionMeaning | packages/forward-auth/src/forward-auth-service.ts:97-110 | the policy engine is asked about the action and resource of the request, else those built for it, else the verb in upper case and the path |
| ForwardAuth.EnvironmentMeaning | packages/forward-auth/src/forward-auth-service.ts:430-438 | property by property, the environment is what the request says, else what is built for it |
| ForwardAuth.NothingTouchedIsServed | packages/data-postgres/src/utils/cache-invalidation.ts:51-71 | whatever is served after a change, however long the run goes on, was granted after it or to a caller it does not touch |
| ForwardAuth.ChangeIsSeenAtOnce | packages/data-postgres/src/utils/cache-invalidation.ts:51-71 | once the caller a token was last granted to has changed, nothing is served for the token until it is granted again |
| ForwardAuth.ChangeEndsMeaning | packages/forward-auth/src/forward-auth-service.ts:293-304 | which changes take a cached decision away |
| ForwardAuth.ForwardAuthService.Handle | packages/forward-auth/src/forward-auth-service.ts:76-127 | from the headers of a request to the response, the cache and the key store, on every path; the rows on tokens, keys, questions and headers say what these are |
| ForwardAuth.ForwardAuthService.Conclude | packages/forward-auth/src/forward-auth-service.ts:107-126 | response and cache from the identity and the policy engine's answer on |
| ForwardAuth.ForwardAuthService.TryResolveCachedDecision | packages/forward-auth/src/forward-auth-service.ts:268-279 | the cached headers with the token, or nothing |
| ForwardAuth.ForwardAuthService.BuildAllowResponse | packages/forward-auth/src/forward-auth-service.ts:377-402 | the headers of an allow, empty ones left out |
| ForwardAuth.ForwardAuthService.MaybeCacheDecision | packages/forward-auth/src/forward-auth-service.ts:281-312 | what is cached for a decision with a token, under which tags and expiry |
| ForwardAuth.EntryMeaning | packages/forward-auth/src/forward-auth-service.ts:281-312 | what is cached lasts the time to live, says until when, and has the tags of its caller |
| Credentials.ResolveApiKeyIdentity | packages/forward-auth/src/forward-auth-service.ts:150-192 | the identity or refusal of a secret, and the key store afterwards, on every path |
| Credentials.ResolveIdentity | packages/forward-auth/src/forward-auth-service.ts:83-96 | the identity or refusal of the credentials in the headers, and the key store afterwards; TokenMeaning and SecretMeaning say which |
| Credentials.TokenMeaning | packages/forward-auth/src/forward-auth-service.ts:129-148 | an access token gives an identity exactly if the provider finds it active and names a subject it builds an identity for, and then that one; else the error that says which failed |
| Credentials.ResolvedMeaning | packages/forward-auth/src/forward-auth-service.ts:83-96 | credentials are resolved for the organisation of the request, else of its header; only an API key touches the key store |
| Credentials.SecretMeaning | packages/forward-auth/src/forward-auth-service.ts:150-202 | a secret comes to what the one stored key of its hash comes to; that key alone is used, once, exactly if an identity came of it and it is alive when that is recorded |
| Credentials.SecretRefusalMeaning | packages/forward-auth/src/forward-auth-service.ts:150-168 | why a secret is refused without a look at a key |
| Credentials.KeyRefusalMeaning | packages/forward-auth/src/forward-auth-service.ts:548-556 | a key is refused as inactive exactly if the store does not report it active, or its expiry cannot be read or has come |
| Credentials.KeyCallerMeaning | packages/forward-auth/src/forward-auth-service.ts:520-534 | who comes of a key: its user with the key's labels over their own and the scopes of both, or the key itself for its own organisation or the one asked for |
| Credentials.HeldTokenMeaning | packages/forward-auth/src/forward-auth-service.ts:77-81 | the token looked up is that of the last header of its name which has a value |
| Credentials.CredentialsReadBack | packages/forward-auth/src/forward-auth-service.ts:343-375 | a scheme and a value without spaces are read back from the header, as token or key by the scheme in any case |
| Credentials.ManyWordsReadBack | packages/forward-auth/src/forward-auth-service.ts:356-374 | the same for any number of words after the scheme |
| Credentials.KeyHeaderFirst | packages/forward-auth/src/forward-auth-service.ts:343-349 | a key in its own header goes before everything in the authorization header |
| ForwardAuth.RevokedKeyIsForbidden | packages/forward-auth/src/forward-auth-service.ts:150-173 | whatever the store has been through since a revocation was asked for, a request whose secret is that key's is forbidden and uses nothing, unless served from the cache |
| Credentials.ResolvedKeyIsUsed | packages/forward-auth/src/forward-auth-service.ts:194-202 | an identity that comes of a key is a use the store counts exactly unless the key expires between check and recording |
| Credentials.NormalizeHeaders | packages/forward-auth/src/utils.ts:1-11 | the headers that have a value, under their names in lower case |
| Credentials.LastNamedWins | packages/forward-auth/src/utils.ts:1-11 | a name is there exactly if some header with a value has it in lower case, with the value of the last that does |
| Credentials.Dedupe | packages/forward-auth/src/forward-auth-service.ts:536-544 | the non-empty values once each, in order |
| ForwardAuth.Configured | packages/forward-auth/src/forward-auth-service.ts:65-69 | the time to live is at least a second |
| ForwardAuth.ConfiguredMeaning | packages/forward-auth/src/forward-auth-service.ts:65-69 | the time to live is the one asked for, if that is a second or more, else a second, and 55 seconds if none is asked for; the prefix is the one given, or the default |
| DecisionRuns.ServedIsFreshFromStart | packages/forward-auth/src/forward-auth-service.ts:76-127 | with an identity provider that answers from the profile tables, and nothing cached to begin with: over every permitted run, whatever is served for a token is what the request it was granted to would get now |
| DecisionRuns.ServedIsFresh | packages/forward-auth/src/forward-auth-service.ts:76-127 | the same from any tables and cache that agree |
| DecisionRuns.RunKeepsRight | packages/forward-auth/src/forward-auth-service.ts:281-312 | with such a provider, every permitted run keeps each cached decision built for the identity that its request still has |
| DecisionRuns.RunFreshExact | packages/data-postgres/src/utils/cache-invalidation.ts:51-71 | with such a provider, over every run, each cached decision is for the identity of its request after each event exactly if each mutation is harmless to the decisions it keeps |
| DecisionCoherence.DecisionMutationExact | packages/data-postgres/src/utils/cache-invalidation.ts:51-71 | a mutation and its purge keep every cached decision for the right identity exactly when it is harmless to each decision it keeps |
| DecisionCoherence.DecisionExact | packages/data-postgres/src/utils/cache-invalidation.ts:51-71 | a kept decision is for the identity its request has afterwards exactly when the mutation is harmless to it |
| DecisionCoherence.SameEarliest | packages/data-postgres/src/repositories/profile-repository.ts:545-578 | the implied membership stays the same when only later ones go |
| DecisionCoherence.GivenAwayExact | packages/data-postgres/src/repositories/profile-repository.ts:353-395 | giving away the membership that a request goes by keeps its answer exactly if the user has another one and the earliest of those gives the same identity on the present tables |
| DecisionCoherence.GivenAwayIsRemoved | packages/data-postgres/src/repositories/profile-repository.ts:353-395 | giving a membership to another user is, to its user's requests, as good as removing it |
| DecisionCoherence.GivenAwayOutlives | packages/data-postgres/src/repositories/profile-repository.ts:353-395 | a user's only membership given to another user elsewhere leaves a decision cached, with a role that the user has no more |
| DecisionCoherence.OnlyMembershipGivenAway | packages/data-postgres/src/repositories/profile-repository.ts:353-395 | such tables, request and change |
| DecisionCoherence.KeptEntries | packages/forward-auth/src/forward-auth-service.ts:293-309 | a mutation purges exactly the decisions of the users, organisations and groups it tells of, or all if it tells of none |
| ProfileStore.InMemoryProfileStore.UpsertUserProfile | packages/profile-memory/src/memory-profile-store.ts:300-304 | the new tables; all indexes stay exact |
| ProfileStore.InMemoryProfileStore.UpsertOrgProfile | packages/profile-memory/src/memory-profile-store.ts:306-315 | the new tables and slug index; the group and membership indexes stay exact |
| ProfileStore.InMemoryProfileStore.GetOrgProfileBySlug | packages/profile-memory/src/memory-profile-store.ts:96-99 | only a stored organisation of that slug; with an exact index, none only if there is none |
| ProfileStore.SlugsStayExact | packages/profile-memory/src/memory-profile-store.ts:306-315 | the slug index stays exact exactly when no other organisation holds the saved slug |
| ProfileStore.SavedGroupMeaning | packages/profile-memory/src/memory-profile-store.ts:317-326 | row by row, what saving a group leaves, and that nothing else changes but the order of groups |
| ProfileStore.SavedMembershipMeaning | packages/profile-memory/src/memory-profile-store.ts:328-342 | the same for a membership |
| ProfileStore.RemovalsMeaning | packages/profile-memory/src/memory-profile-store.ts:122-166 | row by row, what removing a membership and deleting a group leave |
| ProfileStore.OrdersMeaning | packages/profile-memory/src/memory-profile-store.ts:317-367 | a saved membership is last in order, and so is a group that is new or has moved; the others keep theirs |
| ProfileStore.InMemoryProfileStore.UpsertGroup | packages/profile-memory/src/memory-profile-store.ts:317-326 | the new tables, the group's place in its organisation; the indexes stay exact |
| ProfileStore.InMemoryProfileStore.DeleteGroup | packages/profile-memory/src/memory-profile-store.ts:122-130 | the group gone from its table, its organisation and that organisation's memberships; the indexes stay exact |
| ProfileStore.InMemoryProfileStore.RemoveGroupFromMemberships | packages/profile-memory/src/memory-profile-store.ts:279-298 | exactly the memberships of the organisation lose the group |
| ProfileStore.InMemoryProfileStore.UpsertMembership | packages/profile-memory/src/memory-profile-store.ts:328-342 | the new tables, the membership last in order; the indexes stay exact |
| ProfileStore.InMemoryProfileStore.RemoveMembership | packages/profile-memory/src/memory-profile-store.ts:159-166 | the membership gone; the indexes stay exact |
| ProfileStore.InMemoryProfileStore.ListGroups | packages/profile-memory/src/memory-profile-store.ts:106-115 | all groups of the organisation and no others, in order |
| ProfileStore.InMemoryProfileStore.ListMembershipsByUser | packages/profile-memory/src/memory-profile-store.ts:132-141 | all memberships of the user and no others, in order |
| ProfileStore.InMemoryProfileStore.ListMembershipsByOrg | packages/profile-memory/src/memory-profile-store.ts:143-152 | all memberships of the organisation and no others, in order |
| ProfileStore.InMemoryProfileStore.ResolveMembership | packages/profile-memory/src/memory-profile-store.ts:208-243 | the membership or error of a request, found without the index |
| ProfileStore.InMemoryProfileStore.ComputeEffectiveIdentity | packages/profile-memory/src/memory-profile-store.ts:168-206 | the identity or error of the index-free definition |
| ProfileStore.DeletedGroupUnlisted | packages/profile-memory/src/memory-profile-store.ts:279-298 | no membership of its organisation lists a deleted group; other ids and memberships are as before |
| ProfileStore.DeletedGroupGone | packages/profile-memory/src/memory-profile-store.ts:122-130 | no membership at all lists it exactly when only memberships of its organisation did |
| ProfileStore.LastOneWins | packages/profile-memory/src/memory-profile-store.ts:182-189 | each label is that of the last of user, organisation, membership and groups that has it, and no other label is there |
| ProfileStore.StoresAgree | packages/profile-memory/src/memory-profile-store.ts:168-243 | without entitlements, and with memberships saved in the order of creation, the in-memory store answers as the Postgres store |
| OrderedIndex.AddedExact | packages/profile-memory/src/memory-profile-store.ts:349-356 | filing a new id keeps an index exact, in order |
| OrderedIndex.RemovedExact | packages/profile-memory/src/memory-profile-store.ts:358-367 | taking an id out keeps an index exact, with no empty bucket |
| OrderedIndex.RefiledExact | packages/data-postgres/src/testing/fallback-query-executor.ts:322-339 | moving an id to another key keeps an index exact |
| OrderedIndex.BucketRows | packages/profile-memory/src/memory-profile-store.ts:132-152 | a bucket holds exactly the ids filed under its key |
| OrderedIndex.RowedOrder | packages/profile-memory/src/memory-profile-store.ts:132-152 | the rows listed are in the order of their ids |
| KeyStore.MemoryKeyStore.InsertInitialKey | packages/key-memory/src/memory-key-store.ts:358-367 | stored as given, or refused for a used id or hash; the indexes stay exact |
| KeyStore.MemoryKeyStore.IssueKey | packages/key-memory/src/memory-key-store.ts:183-228 | the new key or the error, the table afterwards; the indexes stay exact |
| KeyStore.MemoryKeyStore.GetKeyByHash | packages/key-memory/src/memory-key-store.ts:239-245 | what a scan of all keys finds |
| KeyStore.MemoryKeyStore.ListKeysByOwner | packages/key-memory/src/memory-key-store.ts:247-277 | exactly the owner's keys that the options show, in order |
| KeyStore.MemoryKeyStore.RecordKeyUsage | packages/key-memory/src/memory-key-store.ts:279-315 | one more use of an active key, or the error and no change |
| KeyStore.MemoryKeyStore.RevokeKey | packages/key-memory/src/memory-key-store.ts:317-346 | the key revoked, or the error and no change |
| KeyStore.IssueMeaning | packages/key-memory/src/memory-key-store.ts:183-228 | an issued key has the owner, hash, expiry, labels and scopes asked for, is active and unused; a used id or hash is refused |
| KeyStore.ChangeMeaning | packages/key-memory/src/memory-key-store.ts:279-346 | what using and revoking change of a key, and with which error they fail exactly when |
| KeyStore.ShowsMeaning | packages/key-memory/src/memory-key-store.ts:247-277 | a listing leaves out exactly the revoked and expired keys that it is not asked to include |
| KeyStore.OwnersDiffer | packages/key-memory/src/memory-key-store.ts:93-93 | owners are the same exactly if their index keys are |
| KeyStore.KeyAfter | packages/key-memory/src/memory-key-store.ts:183-346 | over every run a key stays; its use count is the initial one plus its live uses; hash, owner, scopes, creation and expiry never change |
| KeyStore.StatusExact | packages/key-memory/src/memory-key-store.ts:109-123 | the reported status is revoked once a revocation was asked for, and else depends on the clock alone |
| KeyStore.StatusMovesForward | packages/key-memory/src/memory-key-store.ts:109-123 | with a nondecreasing clock the status never moves back along active, expired, revoked |
| KeyStore.UseCountedExactly | packages/key-memory/src/memory-key-store.ts:279-315 | a use is counted exactly when its caller is told it succeeded |
| KeyStore.HonouredExact | packages/forward-auth/src/forward-auth-service.ts:548-556 | the service honours a record it has read exactly when the store would report the key active at the check and its expiry can be read |
| KeyStore.NeverHonouredAgain | packages/forward-auth/src/forward-auth-service.ts:548-556 | a key once not honoured is never honoured again |
| EntitlementQuery.BuildSubjectClauses | packages/data-postgres/src/repositories/entitlement-repository.ts:52-73 | one clause per subject, whose two parameter numbers point at that subject's kind and id |
| EntitlementQuery.SelectedMeaning | packages/data-postgres/src/repositories/entitlement-repository.ts:62-72 | the disjunction of the clauses selects exactly the rows of the subjects |
| EntitlementQuery.ExtractSubjects | packages/data-postgres/src/testing/fallback-query-executor.ts:909-919 | the pairs of texts, two by two, others left out |
| EntitlementQuery.DecodesSubjects | packages/data-postgres/src/testing/fallback-query-executor.ts:909-919 | taking the parameters apart gives back the subjects |
| EntitlementQuery.NothingLostExactly | packages/data-postgres/src/testing/fallback-query-executor.ts:909-919 | a parameter list is taken apart without loss exactly when it is made of pairs of texts |
| EntitlementQuery.FallbackDatabase.SetEntitlement | packages/data-postgres/src/testing/fallback-query-executor.ts:322-339 | the new table; the subject index stays exact |
| EntitlementQuery.FallbackDatabase.DeleteEntitlement | packages/data-postgres/src/testing/fallback-query-executor.ts:341-352 | the new table; the subject index stays exact |
| EntitlementQuery.FallbackDatabase.ListEntitlementsBySubject | packages/data-postgres/src/testing/fallback-query-executor.ts:354-374 | the rows under the subject, sorted |
| EntitlementQuery.FallbackDatabase.ListEntitlementsBySubjects | packages/data-postgres/src/testing/fallback-query-executor.ts:376-389 | the rows under each subject, collected and sorted |
| EntitlementQuery.FallbackDatabase.ListEntitlementsForSubjects | packages/data-postgres/src/repositories/entitlement-repository.ts:100-111 | from subjects to rows: the right rows always, the sorted filtered table exactly when no subject with a row is given twice |
| EntitlementQuery.RowsUnderMeaning | packages/data-postgres/src/testing/fallback-query-executor.ts:354-374 | the listing of a subject holds its rows, once each |
| EntitlementQuery.ListingExact | packages/data-postgres/src/testing/fallback-query-executor.ts:376-389 | the indexed listing is the table filtered and sorted exactly when no subject that has a row is given twice |
| EntitlementQuery.ListingIsTheQuery | packages/data-postgres/src/repositories/entitlement-repository.ts:52-73 | for distinct subjects it is the plain query's one answer |
| EntitlementQuery.ListingMeaning | packages/data-postgres/src/testing/fallback-query-executor.ts:354-389 | older rows come first, those of one time in the order of their ids |

## Left out

- Interleavings inside one asynchronous operation: each public operation is one step, except the concurrent purges of several tags, which are interleaved.
- Running the poller and the queue consumer on one delivery, several workers, and the redelivery of stalled jobs by the queue library.
- SQL text, HTTP, HMAC, SHA-256, JWT signing, UUIDs, telemetry, logging, sessions, audit events and health checks. Tables are maps, statements are patches, filters and sorts; the spec hash is taken as injective, so it is the canonical text itself.
- Record columns that no modelled behaviour reads: names, descriptions, metadata, actors, response data.
- Ids of users, organisations, groups, memberships, entitlements and keys are non-empty strings, so truthiness tests on them ask only whether they are given. Elsewhere (tokens, headers, group ids of a caller, action ids) the empty string is modelled.
- The identity cache key is the tuple of its parts, not the joined text, which could collide for ids with colons.
- `fetchGroupsByIds` has no ORDER BY in the source; its rows are taken in the order of the id list. Rows that tie in an ORDER BY or a locale comparison are listed in the order of their ids, compared character by character.
- JSON numbers are integers within the range printed without an exponent; NaN, infinities, dates and class instances are not modelled. Property names of `Object.fromEntries` are UTF-16 texts, as are all strings there.
- Lower-casing is a given function; Trim and the split of credentials go by ECMAScript's white space and line terminators.
- Redis: a cell is gone from the instant its time to live has elapsed, times to live are positive, commands of one call are not interleaved with others, and a value's JSON text is the value.
- Retry delays and back-offs are whole seconds, and the arithmetic of dates is on integers of milliseconds.
- Policy rules: token factories are functions of the input that do not throw, and obligations are their JSON text; a structured environment value of a rule is identical to no value of an input, since rules are copied.
- ForwardAuth.ForwardAuthService.Handle: does not model session records, which never change the response or a cache; builders and the policy engine do not throw, obligations are their JSON text, and the JSON text of labels is a given function of the label set, so the order of its keys is not modelled. The lookup and the caching of one request share a clock reading.
- Runbooks: the port stores specifications verbatim under the action's selector, and convergence is stated for actions on distinct resources. Diffs, timestamps and events are not modelled. A failing port call changes no resource.
- DecisionRuns.ServedIsFresh: takes an identity provider that answers from `computeEffectiveIdentity`, as `RunKeepsRight` and `RunFreshExact` do. No adapter in the repository does: the Authentik client builds identities from Authentik's own API. Callers come through an access token; what an API key adds to an identity does not come from the tables.
- The caches of the Postgres stores can purge by tag and clear, as both caches of the repository can.
- Stored keys, profiles and rows are values in maps: that records handed out are copies is built into the model.
- The constructors' initial records of the in-memory profile store are saves like any others.
- In the fallback database, the key upsert that conflicts on a hash unregisters the existing key before it throws; its key indexes are not modelled.
- The webhook dispatcher, in-memory webhook stores, SDK, UI, adapters, middleware, the identity-provider client and the command line: thin wrappers and plumbing.
