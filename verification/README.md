# Verified model of doci's shared state and parsers

doci is a document-processing service. Its workers share a token bucket, a checkpoint store and a
task board in Valkey, a set of Postgres tables beside an object store, and a two-tier cache; its
agents call small deterministic tools on dates and money. This project models those pieces in Dafny
and proves what the rest of the service relies on.

- **Rate limiting** (`TokenBucket`, `RateLimiter`, `Middleware`): the two Lua scripts as one
  transition function on a bucket of real-valued tokens; runs of script steps by any number of
  workers; the key's expiry; the polling loop and the reserve-then-reconcile middleware as methods
  on a shared hash.
- **Checkpoints** (`Keyspace`, `Checkpoints`, `PendingWrites`, `ValkeySaver`, `SaverRuns`,
  `Versions`): expiring hashes and index sets, with the four commands of a put at four server times;
  the saver's methods, proved against store functions; whole runs of puts and write batches;
  version strings.
- **Documents and media** (`Documents`, `DocumentService`, `EnsurePartRuns`): three tables and an
  object store, one step per transaction; the service's methods; interleaved, crashing runs of
  `ensure_part`.
- **Cache** (`Caching`, `CacheService`, `MediaViews`): a history of KV and memory events by any
  number of instances, with failures, evictions and a circuit breaker; the cache and `view_url`
  methods, whose calls extend that history.
- **Task board** (`TaskBoard`, `TaskMonitor`): expiring records and their sorted index; the
  monitor's methods; a reference semantics computed from each task's own updates, under callers'
  clocks that agree with the server's or do not.
- **Tools** (`Lexing`, `Patterns`, `Calendar`, `Dates`, `DateChecks`, `Money`): the three regular
  expressions run by a backtracking matcher; the calendar with ISO text (ISO 8601-1:2019, section
  5.2.2) and day counts; the date checks; the money parser on exact decimals.
- `Text`, `Sorting` and `Options` hold string order, numerals, sorting and missing values.

Where a promise is false, the code is kept and the exact condition is proved:

- Key expiry is invisible exactly when the level is within `rate * ttl` of full; the default TTL
  covers every level down to minus one capacity, a deeper debt is forgotten.
- Charges equal reported totals exactly when every estimate fits the capacity: a larger one is
  clamped when reserved and refunded unclamped, and the excess is what is missing.
- A put stands for a full TTL exactly when no key it rewrites lapses inside its pipeline.
- A lookup without an id finds the newest put, while it is alive, exactly when no id in the index
  exceeds its own; ids put in increasing order suffice, two out of order can hide it.
- Versions grow exactly while the counter fits its padding (or prints no longer); page locators
  likewise past 99999.
- After a cache delete has reached the KV, an older value is returned exactly when a process's
  memory answers that has been given none since. A delete while the KV is down leaves its value.
- The default cache TTL is accepted exactly for URL lifetimes of two seconds or more.
- A monitor update drops another live record exactly when its caller's clock is a whole TTL past
  the time the record's last caller wrote; over a history that is what the index is missing.
- Ungrouped money text is read as its decimal value exactly when it does not look like one group of
  thousands, or says zero.
- A deleted document's blobs stay all marked for purge exactly while no part is recorded with an
  unmarked row and no unmarked thumbnail is set; what is recorded late is never purged.
- A region's recorded size is its object's length exactly when the last render committed is as long
  as the last one stored.

Environment facts are parameters: server and client times, random suffixes, fresh row ids, rendered
content, KV outcomes, evictions, jitter and the word characters beyond ASCII.

## Model

| member | source | states |
|---|---|---|
| TokenBucket.LevelBound | doci/llm/ratelimit.py:37-99 | along any run, whatever the clock does, the level is at most the starting level plus accrued refill less charges |
| TokenBucket.Budget | doci/llm/ratelimit.py:37-99 | grants plus signed adjustments between any state and any later grant are at most one capacity plus the refill of the clock's forward motion |
| TokenBucket.BudgetOverTime | doci/llm/ratelimit.py:37-99 | with a non-decreasing clock they are at most capacity + rate × elapsed time |
| TokenBucket.ClockStepRefillsTwice | doci/llm/ratelimit.py:55-57 | a clock stepping back and forth exceeds that bound, so the clock condition is needed |
| TokenBucket.RefillComposes | doci/llm/ratelimit.py:55-57 | two refills in a row equal one, through the cap |
| TokenBucket.RefusedPollsTransparent | doci/llm/ratelimit.py:55-67 | deleting any set of refused polls from a run changes no other answer and no later level |
| TokenBucket.ExpiryInvisible | doci/llm/ratelimit.py:65-66 | every history in which the key vanishes only from levels its idle TTL has refilled answers like a key that never expires, whatever debts it carries while it is polled |
| TokenBucket.ExpiryInvisibleIff | doci/llm/ratelimit.py:50-57 | dropping one key at its deadline goes unnoticed for ever exactly when its level was within rate × TTL of full |
| TokenBucket.ExpiringBudget | doci/llm/ratelimit.py:37-99 | the budget bound holds across such expiries, from any state of the key to any later grant |
| TokenBucket.DefaultTtlRecovers | doci/llm/ratelimit.py:143-147 | the default TTL outlasts two full refills, so every level from minus one capacity up recovers within it |
| TokenBucket.DeepDebtForgotten | doci/llm/ratelimit.py:70-99 | a debt of two capacities is forgiven by expiry while the bucket itself would still refuse |
| TokenBucket.WaitExact | doci/llm/ratelimit.py:59-67 | the wait is 0 exactly on a grant; a lone retry after it is granted, one a millisecond or more before it is refused |
| RateLimiter.BucketHash.AcquireScript | doci/llm/ratelimit.py:37-68 | the imperative script rewrites the hash and deadline and answers as the transition function says |
| RateLimiter.BucketHash.AdjustScript | doci/llm/ratelimit.py:73-99 | the same for the adjust script |
| RateLimiter.RedisTokenBucket.constructor | doci/llm/ratelimit.py:132-150 | a usable bucket: capacity tpm, rate times the window (at least one second) is tpm, and the given TTL, else twice the window but at least 60 |
| RateLimiter.RedisTokenBucket.Acquire | doci/llm/ratelimit.py:152-175 | a lone caller is granted within its deficit over one full sleep's refill, rounded up, plus one polls; however many were refused, what is taken is what was asked for, tpm when more was asked for, nothing when less than nothing, if the level recovers within the TTL or no sleep lasts one |
| RateLimiter.MaxPollsTight | doci/llm/ratelimit.py:152-175 | that bound on the polls is no looser: what all full sleeps but the last refill is less than the deficit |
| RateLimiter.RedisTokenBucket.AdjustBy | doci/llm/ratelimit.py:177-184 | a zero delta leaves the hash alone, any other runs the adjust script once |
| Middleware.ActualTotalTokens | doci/agents/ratelimit.py:33-44 | the total of the last message reporting a non-zero one, None exactly when none does |
| Middleware.AwrapModelCall | doci/agents/ratelimit.py:54-70 | the bucket after one call: the estimate, at most tpm, reserved, or reserved and then adjusted by actual minus estimate, across an expiry in between |
| Middleware.BooksBalance | doci/agents/ratelimit.py:54-70 | in every interleaving, expiries included, level, charges, refunds lost at the cap and debt forgiven by expiry balance, and charges are what begun calls drew |
| Middleware.ForgivesIff | doci/llm/ratelimit.py:65-66 | an expiry forgives nothing when the level recovers within the TTL, and at its deadline only then |
| Middleware.OvershootMissing | doci/agents/ratelimit.py:65-69 | what calls draw falls short of what is due by exactly the part of each estimate above the capacity, so by nothing exactly when every estimate fits |
| Middleware.ChargesMatchReports | doci/agents/ratelimit.py:54-70 | over any history charges fall short of reported totals of finished calls plus estimates of all others by exactly what the estimates exceed the capacity by; they are equal exactly when every estimate fits |
| Checkpoints.PutRecordedIff | doci/workflows/checkpoint.py:117-132 | a put's checkpoint and index entry stand for a full TTL exactly when nothing it rewrites lapses inside its pipeline |
| Checkpoints.PutKeepsCover | doci/workflows/checkpoint.py:117-132 | a clean put keeps every unexpired checkpoint of every thread in an index that outlives it |
| Checkpoints.HistoryCovered | doci/workflows/checkpoint.py:117-132 | after each completed put of a history every unexpired checkpoint's id is in its thread's unexpired index |
| Checkpoints.HistoryReadsBack | doci/workflows/checkpoint.py:103-139 | until put again, a checkpoint reads back as it was put, deadline included |
| Checkpoints.LatestIs | doci/workflows/checkpoint.py:289-291 | the latest id is the member no other member exceeds |
| Checkpoints.LookupIs | doci/workflows/checkpoint.py:172-211 | a lookup by id finds the unexpired checkpoint as stored; its parent is the stored parent id in the same thread, none exactly when that id is empty |
| Checkpoints.PutReadsBack | doci/workflows/checkpoint.py:103-211 | a put not made again is found by its id until a TTL after it, not from then on, with its content and metadata, and a parent exactly when it named one |
| Checkpoints.ParentsFound | doci/workflows/checkpoint.py:187-209 | while a chain of puts, each made from the one before, is alive, following parents from the last visits each in turn as it was put |
| Checkpoints.LatestIsNewest | doci/workflows/checkpoint.py:171-183 | with increasing ids a lookup without an id returns the newest put with its parent link and pending writes, and nothing exactly when every checkpoint of the scope has expired |
| Checkpoints.NewestFoundIff | doci/workflows/checkpoint.py:171-183 | in any order of puts, while the newest put of a scope is alive, a lookup without an id returns it exactly when no id in the index exceeds its own |
| Checkpoints.UnorderedIdsHideLive | doci/workflows/checkpoint.py:289-291 | two puts with ids out of order leave a live checkpoint that the lookup does not find |
| Checkpoints.HitsAre | doci/workflows/checkpoint.py:213-254 | a scan yields exactly the live, wanted, matching checkpoints, each once, as stored, in descending id order |
| Checkpoints.AnswersMeans | doci/workflows/checkpoint.py:232-249 | what a listing keeps: the one id asked for, ids before `before`, and metadata equal to the filter with null for missing |
| Checkpoints.ListExact | doci/workflows/checkpoint.py:213-254 | a listing is the first limit, by count and prefix, of all unexpired checkpoints of the scope that answer, newest id first, each once |
| ValkeySaver.ValkeySaver.Aput | doci/workflows/checkpoint.py:103-139 | the four commands at their times give the put store |
| ValkeySaver.ValkeySaver.AputWrites | doci/workflows/checkpoint.py:142-169 | with a special channel or a slot not held, the key holds the applied batch until exactly a TTL from now; with neither, everything is as it was; other keys never change |
| ValkeySaver.ValkeySaver.Writes | doci/workflows/checkpoint.py:293-301 | the pending writes as one list, whatever order the hash yields: one entry per field, ascending by task and index |
| ValkeySaver.ValkeySaver.LatestId | doci/workflows/checkpoint.py:289-291 | the running maximum: a member of the live index that no other exceeds, None exactly when it is empty |
| ValkeySaver.ValkeySaver.AgetTuple | doci/workflows/checkpoint.py:172-211 | equals the lookup function, with and without an id |
| ValkeySaver.ValkeySaver.Alist | doci/workflows/checkpoint.py:213-254 | the loop with its decreasing limit equals the limited listing |
| ValkeySaver.CallRenews | doci/workflows/checkpoint.py:152-169 | on any store, what one call does to its key, deadline included, and to the others |
| ValkeySaver.ReadsForTtl | doci/workflows/checkpoint.py:166-168 | after a call that wrote, the applied batch reads back for every instant less than a TTL later and for none after |
| ValkeySaver.StaysLiveIff | doci/workflows/checkpoint.py:152-169 | the write key never lapses between calls exactly when each comes less than a TTL after the last that wrote; its deadline is that last one plus the TTL, and there is no key while none wrote |
| ValkeySaver.WindowTimely | doci/workflows/checkpoint.py:152-169 | calls that all fall within one TTL are so |
| ValkeySaver.LiveHashIsApplied | doci/workflows/checkpoint.py:152-169 | while the write key stays live it holds exactly the batches applied in order |
| ValkeySaver.LiveSlotsKeepFirstOrLast | doci/workflows/checkpoint.py:152-169 | after any calls and replays each ordinary slot holds its first write and each special slot its last |
| SaverRuns.RunFollows | doci/workflows/checkpoint.py:103-169 | over any run of puts and write batches, checkpoints and indexes are those of the puts alone |
| SaverRuns.PendingApplied | doci/workflows/checkpoint.py:142-169 | over any run in which a checkpoint's batches each come less than a TTL after the last that wrote, the pending writes are those batches applied in order until a TTL after that last one, and none from then on |
| SaverRuns.PendingInWindow | doci/workflows/checkpoint.py:142-169 | in particular when its batches and the read all fall within one TTL |
| SaverRuns.RunKeepsFirst | doci/workflows/checkpoint.py:152-165 | over any run, a task's first write to an ordinary channel at a position is the row that slot holds, whatever replays follow |
| SaverRuns.RunKeepsLast | doci/workflows/checkpoint.py:152-165 | over any run, a task's last write to a special channel is the row its slot holds |
| SaverRuns.RunFindsNewest | doci/workflows/checkpoint.py:171-211 | over such runs with increasing ids a lookup returns the newest put with its own batches pending and its parent, none exactly when it named none; and nothing exactly when the scope has expired |
| PendingWrites.OrdinarySlot | doci/workflows/checkpoint.py:155-165 | a batch fills the slot (task, position) of an ordinary channel with its task, channel, value and path, unless the hash held it |
| PendingWrites.SpecialSlot | doci/workflows/checkpoint.py:155-165 | a special channel's slot takes the batch's last write to it |
| PendingWrites.OtherSlot | doci/workflows/checkpoint.py:155-165 | no other slot changes |
| PendingWrites.SlotsKeepFirstOrLast | doci/workflows/checkpoint.py:152-169 | the same for the hash after any sequence of batches |
| PendingWrites.FirstWriteStands | doci/workflows/checkpoint.py:152-165 | after any batches an ordinary slot holds the first write made to it |
| PendingWrites.LastWriteStands | doci/workflows/checkpoint.py:152-165 | and a special slot the last |
| PendingWrites.ReplayIsNoop | doci/workflows/checkpoint.py:157-161 | replaying a batch of ordinary channels changes nothing |
| PendingWrites.FieldDecodes | doci/workflows/checkpoint.py:293-301 | the field text decodes back to its task and index, colons in the task included |
| PendingWrites.FieldInjective | doci/workflows/checkpoint.py:155-160 | different slots have different field texts |
| PendingWrites.PendingDeterministic | doci/workflows/checkpoint.py:293-301 | the returned list is the same for every order of the fields |
| PendingWrites.PendingIs | doci/workflows/checkpoint.py:293-301 | it has one entry per field, the field's row with the index in the field's text, by task and then by index |
| Versions.NextOfPrinted | doci/workflows/checkpoint.py:264-271 | the counter is read back from the text whatever the suffix and grows by one in 32 digits; integers grow alike and no version counts as zero |
| Versions.NextIsGreaterIff | doci/workflows/checkpoint.py:264-271 | the next version is greater as a string exactly while the counter fits its padding or prints no longer |
| Versions.ChainCounts | doci/workflows/checkpoint.py:264-271 | n calls from no version give counter n |
| Versions.ChainOrdered | doci/workflows/checkpoint.py:264-271 | below 10^32 calls the versions of a chain order as strings as their positions |
| Versions.PageLocatorInjective | doci/documents/models.py:15-22 | different pages have different locators |
| Versions.PageLocatorOrder | doci/documents/models.py:15-22 | up to 99999 locators sort in page order |
| Versions.NextPageSortsIff | doci/documents/models.py:15-22 | the next page's locator sorts after a page's exactly while it needs no more digits |
| Text.NumeralOrder | doci/documents/models.py:15-22 | digit texts of equal length order as the numbers they print |
| Text.PadSuccessor | doci/workflows/checkpoint.py:264-271 | a padded counter's successor sorts after it exactly when it needs no more room |
| Documents.PageKeysDistinct | doci/documents/service.py:146-167 | original, page and thumbnail keys of all documents and pages are pairwise different |
| Documents.LocatorCollidesIff | doci/documents/service.py:146-167 | a free-form locator collides with the original exactly when it is "original", and with a thumbnail exactly when it ends another region's name that way |
| Documents.OwnerUnique | doci/documents/service.py:82-94 | no object key lies in two documents' folders |
| Documents.InvKept | migrations/20260610000001_create_document_part.sql:6-17 | every operation keeps unique keys and locators, recorded blobs in their own document's folder, marks only on deleted documents, and an object behind every unmarked server-made row |
| Documents.HistoryInv | doci/documents/service.py:82-206 | every reachable state is consistent in that sense |
| Documents.DeleteMarksExactly | doci/documents/service.py:287-321 | a deletion marks exactly the blobs recorded for the named live documents, all unmarked before, with one deadline, and changes nothing else |
| Documents.DeletionReaches | doci/documents/service.py:294-312 | which blobs those are: the originals of the live documents named, their parts' blobs and their parts' thumbnails |
| Documents.PurgeExact | doci/media/service.py:246-272 | a sweep keeps every row, object, document and part as it was except: rows due whose object went, those objects, documents and parts resting on them, and thumbnails, which become unset |
| Documents.StepKeepsRows | doci/media/service.py:237-272 | no operation rewrites a row's key or moves its mark; only a sweep past the deadline removes a row, after its object, and a sweep removes every row it can |
| Documents.RowLifecycle | doci/media/service.py:246-272 | over any stretch of a history a row keeps its key and mark, or was removed by a sweep past its deadline whose object was already gone |
| Documents.StepKeepsLive | doci/documents/service.py:287-321 | one operation takes no recorded blob, row or object from a document that stays live |
| Documents.LiveDocumentLosesNothing | doci/media/service.py:246-272 | over any stretch in which a document is live, everything recorded for it stays, unmarked, with its object |
| Documents.DeletedAllMarked | doci/documents/service.py:287-321 | a deletion leaves every blob recorded for its documents marked |
| Documents.LateRecordingIff | doci/documents/service.py:129-206 | one operation keeps a deleted document's blobs all marked exactly when it records no part with an unmarked row and no unmarked thumbnail for it |
| Documents.StaysMarkedIff | doci/documents/service.py:129-206 | over any stretch with the document deleted and not yet swept, its blobs are all marked throughout exactly when nothing was recorded late |
| Documents.UnmarkedNeverPurged | doci/media/service.py:246-272 | an unmarked blob in a deleted document's folder stays, unmarked, in every later state |
| Documents.LatePartEscapesPurge | doci/documents/service.py:146-206 | in any history, what is recorded late for a deleted document is never marked or removed again |
| DocumentService.DocumentService.InsertBlob | doci/media/service.py:102-126 | one row per object key; a known key keeps its row and mark and takes the new size |
| DocumentService.DocumentService.PartRowByLocator | doci/documents/service.py:350-361 | finds the region's part exactly when there is one |
| DocumentService.DocumentService.CreateUpload | doci/documents/service.py:82-94 | exactly one new document and its original's row, unmarked and without size; nothing else changes, invariant kept |
| DocumentService.DocumentService.RecordPart | doci/documents/service.py:155-167 | the transaction: blob row upserted with the new size, part inserted on it unless another run recorded one, and that part returned |
| DocumentService.DocumentService.MaterializePart | doci/documents/service.py:129-167 | a region not found gets the rendered object at its key, a row of that key and size, and a new part on it; one that is found changes nothing; None exactly when the document row is gone |
| DocumentService.DocumentService.RegisterSourcePart | doci/documents/service.py:172-197 | the part already recorded for page one is returned and nothing changes; without one a live document gets exactly that part on its original blob, and any other none |
| DocumentService.DocumentService.MaterializeThumb | doci/media/service.py:161-182 | an unmarked thumbnail row is reused and nothing changes; else the rendered object and its row, keeping a mark it had; None exactly when the source is gone or marked |
| DocumentService.DocumentService.RecordPartThumb | doci/documents/service.py:200-206 | the thumbnail is set exactly when unset and its row exists, refused exactly when that row is gone, invariant kept |
| DocumentService.DocumentService.DeleteDocuments | doci/documents/service.py:287-321 | the new tables of a deletion and the number of live documents named |
| DocumentService.DocumentService.PurgeExpired | doci/media/service.py:237-272 | the loop deletes each due object it can, then exactly those rows with their cascades |
| EnsurePartRuns.StepGood | doci/documents/service.py:146-167 | every step of any worker, crash included, keeps database and workers sound |
| EnsurePartRuns.RunGood | doci/documents/service.py:146-167 | every state of every interleaving is sound |
| EnsurePartRuns.RunGrows | doci/documents/service.py:146-167 | parts, rows and objects only grow along an interleaving |
| EnsurePartRuns.OnePartOneBlob | doci/documents/service.py:146-167 | a region has at most one part and its blob row is the only row of its key |
| EnsurePartRuns.SameAnswer | doci/documents/service.py:146-167 | all calls that return for a region return the same part, which is still there |
| EnsurePartRuns.StoredBeforeVisible | doci/documents/service.py:146-167 | a part that a step makes visible already had its object stored |
| EnsurePartRuns.FinderDoesNothing | doci/documents/service.py:146-167 | a run starting when the part exists neither renders nor uploads, ever |
| EnsurePartRuns.LastOnesStand | doci/documents/service.py:150-158 | the object is the last render stored and the row's size that of the last one committed |
| EnsurePartRuns.SizeAgreesIff | doci/documents/service.py:150-158 | the size recorded is the object's length exactly when the last render committed is as long as the last one stored |
| EnsurePartRuns.AlikeAgree | doci/documents/service.py:150-158 | with all renders of a region of one length they always agree |
| Caching.KvHoldsLast | doci/cache/cache.py:105-146 | the KV holds exactly the value of the last command that wrote the key, if a set |
| Caching.MemHoldsLast | doci/cache/cache.py:84-88 | an instance's memory holds at most the value it last stored there |
| Caching.ValueIsRecent | doci/cache/cache.py:78-146 | through any failures, recoveries and evictions a returned value was given to a set of its key less than its own TTL ago |
| Caching.DeletedStaysGone | doci/cache/cache.py:137-146 | after a delete that reached the KV, neither the KV to any reader nor a process whose memory it cleared returns a value stored before it |
| Caching.OldValueIff | doci/cache/cache.py:105-146 | for any reader and any delete that reached the KV, the value returned is older than the delete exactly when it comes from a memory given none since |
| Caching.TripHolds | doci/cache/cache.py:81-82 | an error keeps the breaker open for at least the cooldown |
| Caching.CooldownRespected | doci/cache/cache.py:78-82 | no operation begun within the cooldown after an error touches the KV |
| Caching.DeleteElsewhereKeepsMemory | doci/cache/cache.py:105-146 | after a delete by another process, a read without the KV is possible and returns what this process's memory held |
| Caching.StaleValueReturned | doci/cache/cache.py:105-146 | a whole possible history, for every key, value, TTL and cooldown long enough, that returns a value after its delete |
| Caching.DeleteWhileDownKeepsKv | doci/cache/cache.py:137-146 | a delete while the breaker is open leaves the KV value, returned again later |
| CacheService.SetContinues | doci/cache/cache.py:120-133 | a set extends the history and stores the value in KV, memory or both according to the outcome |
| CacheService.DeleteContinues | doci/cache/cache.py:137-146 | a delete extends the history and clears memory always, the KV only when up and not lost |
| CacheService.Cache.Get | doci/cache/cache.py:105-116 | the unexpired value of the KV when it was up and answered, else of this process's memory, at the namespaced key; an error opens the breaker for the cooldown; no store changes; and it is what the extended history returns |
| CacheService.Cache.Set | doci/cache/cache.py:120-133 | refused exactly when the given TTL, or without one the default, is not positive; None is not stored; otherwise the exact new stores and breaker |
| CacheService.Cache.Delete | doci/cache/cache.py:137-146 | the exact new stores and breaker |
| MediaViews.CachedUrlLives | doci/media/service.py:212-219 | a cached URL is the asked key's and has more than view_expiry − TTL − delay seconds left |
| MediaViews.DefaultUrlLives | doci/media/config.py:23-31 | under the default TTL, more than a tenth of its lifetime rounded up, less the delay |
| MediaViews.DefaultTtlAcceptedIff | doci/media/config.py:23-31 | the cache accepts the default TTL exactly for lifetimes of two seconds or more |
| MediaViews.MediaService.ViewUrl | doci/media/service.py:212-219 | an unexpired cached URL is returned and nothing stored; otherwise a URL signed now is returned and stored under the cache TTL in the KV or in memory; either is the key's with at least view_expiry − TTL − delay left; None only when the TTL is not positive |
| TaskBoard.TouchSynced | doci/taskiq/monitor.py:72-86 | with agreeing clocks an update keeps each id indexed once at its record's last-update time and every live record in a live index |
| TaskBoard.SweepSynced | doci/taskiq/monitor.py:156-159 | removing stale ids while listing keeps it too |
| TaskBoard.SweptIs | doci/taskiq/monitor.py:156-159 | a listing removes from the index exactly the ids among its first 1000 whose record is gone |
| TaskBoard.TrimsExactlyExpired | doci/taskiq/monitor.py:72-86 | trimming by score drops exactly the expired records' ids |
| TaskBoard.SkewLosesLiveIff | doci/taskiq/monitor.py:72-86 | on any board, with any clocks, an update drops another live record exactly when its caller is a TTL past the record's last caller |
| TaskBoard.LivePrefix | doci/taskiq/monitor.py:141-163 | expired ids rank after every live one: the live records, newest first, are a prefix of the index |
| TaskBoard.ListExact | doci/taskiq/monitor.py:141-163 | a listing has min(limit, rest after offset) rows, its i-th the (offset+i)-th of the state-filtered newest 1000 live records |
| TaskBoard.RowAt | doci/taskiq/monitor.py:153-162 | each scanned id adds its row, in its place, exactly when its record is unexpired and shows the asked state |
| TaskBoard.SliceIs | doci/taskiq/monitor.py:163-163 | the asked page by length and positions |
| TaskBoard.ListIsPage | doci/taskiq/monitor.py:141-163 | on any board a listing is that page of the rows of the first 1000 indexed ids |
| TaskBoard.HistoryHolds | doci/taskiq/monitor.py:72-125 | after any history each key holds its task's own record until one TTL after its last update |
| TaskBoard.HistoryFinds | doci/taskiq/monitor.py:165-168 | after any history a task reads back as the fields its own updates left while the last is less than a TTL old, else as nothing |
| TaskBoard.HistorySynced | doci/taskiq/monitor.py:72-163 | every history of updates and listings with agreeing clocks keeps records and index in step |
| TaskBoard.HistoryPlaced | doci/taskiq/monitor.py:72-163 | over any history with any callers' clocks the index is in order, ranks each task by its last caller, and holds a current one exactly when no later update's caller was a TTL past it |
| TaskBoard.AgreeingKeeps | doci/taskiq/monitor.py:72-86 | agreeing clocks never trim a current record |
| TaskBoard.FoundExists | doci/taskiq/monitor.py:141-163 | every history, with any clocks, has its newest-first list of current, ranked tasks |
| TaskBoard.HistoryListFound | doci/taskiq/monitor.py:141-163 | with any clocks, while the index fits one scan, a listing is, row by row, the asked page of the current tasks still ranked, newest caller first |
| TaskBoard.RecordShape | doci/taskiq/monitor.py:88-125 | a record shows its last update's state, and a (re)queued one nothing but its own fields |
| TaskBoard.NewestExists | doci/taskiq/monitor.py:141-163 | every history has such a newest-first list of its live tasks |
| TaskBoard.HistoryListExact | doci/taskiq/monitor.py:141-163 | with agreeing clocks, after any history a listing is, row by row, the asked page of the newest 1000 tasks updated less than a TTL ago, each with the fields its own updates left, picked by its last state |
| TaskBoard.PagesJoin | doci/taskiq/monitor.py:141-163 | asked one after another, the pages at offsets 0, limit, 2·limit and so on join to that whole list, although each sweeps the index |
| TaskMonitor.TaskMonitor.Update | doci/taskiq/monitor.py:72-86 | the task's fields less the cleared plus the new, with the TTL from now; the index gains the id at the caller's time and loses what is a TTL older |
| TaskMonitor.TaskMonitor.MarkQueued | doci/taskiq/monitor.py:88-101 | the task holds its seven queued fields and none of the five runtime ones |
| TaskMonitor.TaskMonitor.MarkRunning | doci/taskiq/monitor.py:103-104 | the task's state is running since the given time, its other fields kept |
| TaskMonitor.TaskMonitor.MarkSuccess | doci/taskiq/monitor.py:106-114 | the task's state is success with its finish and execution times, its other fields kept |
| TaskMonitor.TaskMonitor.MarkFailed | doci/taskiq/monitor.py:116-125 | the task's state is failed with its finish time, error and error type, its other fields kept |
| TaskMonitor.TaskMonitor.List | doci/taskiq/monitor.py:141-163 | the loop returns the listing and removes exactly the scanned stale ids |
| Lexing.StripIs | doci/tools/parse_date.py:27-27 | stripping takes all white space off both ends and nothing else |
| Patterns.MatchReads | doci/tools/parse_date.py:30-41 | a match found is a reading of the text, item by item, with that reading's groups |
| Patterns.MatchIff | doci/tools/parse_date.py:30-41 | the backtracking matcher matches exactly when some reading exists |
| Patterns.SearchSkips | doci/tools/parse_date.py:30-41 | a search takes the leftmost place that matches |
| Patterns.SearchFailsIff | doci/tools/parse_date.py:30-41 | a search fails exactly when the pattern matches at no place |
| Calendar.OrdinalCounts | doci/tools/invoice_age.py:33-33 | the day count of the next date is one more |
| Calendar.FromIsoInverts | doci/tools/invoice_age.py:33-33 | the ISO text of a valid date reads back as the date |
| Calendar.OrdersAgree | doci/tools/check_date_order.py:18-20 | ISO string order, calendar order and day-count order are one order, with equality |
| Calendar.DifferenceIsDays | doci/tools/invoice_age.py:33-33 | day counts differ by n exactly when one date is n days after the other |
| Dates.AnswerIsDate | doci/tools/parse_date.py:14-42 | every answer is the ISO text of a valid date |
| Dates.VietnameseInverted | doci/tools/parse_date.py:30-33 | "d tháng m năm yyyy" in any letter case and spacing, before any text, after text that has no digits or does not end in one and lacks "tháng", gives that date, or None when it is no date |
| Dates.IsoInverted | doci/tools/parse_date.py:34-37 | yyyy-m-d with any of the separators, apart, after text that has no digits, or no separators and no "tháng", and before text that has no digits or no "tháng", gives that date or None; a day-first date may follow |
| Dates.DmyInverted | doci/tools/parse_date.py:38-41 | d/m/yyyy, apart in text that on either side has no digits, or no separators and no "tháng", gives that date or None |
| Dates.NoFormNoDate | doci/tools/parse_date.py:30-42 | a text in which none of the three forms can be read anywhere gives None |
| Dates.FormsInverted | doci/tools/parse_date.py:14-42 | every valid date comes back from all three forms, day and month padded or not, and as itself |
| DateChecks.CheckDateOrder | doci/tools/check_date_order.py:13-42 | the loops' lists and violations, and ordered exactly when all pairs of parsed dates are in order |
| DateChecks.NoViolationIffInOrder | doci/tools/check_date_order.py:29-32 | no adjacent violation exactly when all pairs, near or far, are in order |
| DateChecks.ViolationsAre | doci/tools/check_date_order.py:29-32 | the violations are exactly the neighbours out of order |
| DateChecks.ViolationAt | doci/tools/check_date_order.py:29-32 | each is reported once and in order |
| DateChecks.NothingLost | doci/tools/check_date_order.py:21-28 | every item is stamped as read or reported as unread, never both or neither, in its place and under its name or number |
| DateChecks.AgeCountsDays | doci/tools/invoice_age.py:15-42 | the age is the number of calendar days from invoice to reference in either direction, with the flags and error cases exact |
| DateChecks.ChecksAgree | doci/tools/check_date_order.py:29-32 | listing (invoice, reference) violates the order exactly when the age check calls the invoice future-dated |
| Money.GroupingInverted | doci/tools/parse_money.py:23-55 | thousands grouping by either separator is inverted for every natural number |
| Money.GroupedFractionInverted | doci/tools/parse_money.py:28-32 | grouped text of at least 1000 with a fraction of any length after the other separator is inverted |
| Money.UngroupedReads | doci/tools/parse_money.py:33-50 | digits, one separator, digits: thousands exactly when at most three stand before and exactly three after, else the decimal |
| Money.UngroupedExactIff | doci/tools/parse_money.py:33-50 | the decimal value comes back exactly outside that case, or when it is zero |
| Money.RejectedIff | doci/tools/parse_money.py:26-54 | rejected exactly when there is no digit, or the rightmost of two separator kinds repeats, or the only kind repeats without grouping by it |
| Money.SignNegates | doci/tools/parse_money.py:24-24 | a leading minus or parenthesis negates a text without one of its own |
| Money.TrailingIgnored | doci/tools/parse_money.py:25-27 | trailing text without digits or separators changes nothing |
| Money.AmountReads | doci/tools/parse_money.py:23-55 | sign, digits with separators, unit: the signed value of the middle |
| Money.GroupedAmountReads | doci/tools/parse_money.py:23-55 | a signed grouped amount with a unit gives the signed number |

## Left out

- RateLimiter.RedisTokenBucket.Acquire: termination is for a lone caller on the key; with other workers drawing, a caller can starve, so only the safety bounds of TokenBucket cover interleaved callers.
- Middleware.AwrapModelCall: the bucket after the call is not stated for a level too deep to recover within the TTL when one sleep also outlasts the TTL: expiry then forgives the debt.
- Checkpoints.HistoryCovered: puts of one history follow each other, each with four command times; two puts of one thread interleaved command by command are not modelled.
- Checkpoints.ListExact: a listing reads its keys at one instant.
- ValkeySaver.ValkeySaver.AputWrites: the read of existing fields, the writes and their EXPIRE happen at one instant, so two batches for one checkpoint are not interleaved between them and the key does not lapse between them.
- EnsurePartRuns.OnePartOneBlob: runs interleave with each other and crash, but not with deletes and sweeps.
- Caching.ValueIsRecent: interleaved calls of many instances are covered as histories; the methods of CacheService run one call at a time.
- TaskBoard.HistoryListExact: the clocks agree and the commands of one update run at one instant; with clocks that disagree, TaskBoard.HistoryListFound says what is listed while the index fits one scan.
- ValkeySaver.ValkeySaver.Alist: all reads of one listing happen at one instant.
- DocumentService.DocumentService.PurgeExpired: selecting due rows, deleting their objects and removing the rows are one step; the source awaits between them.
- TaskMonitor.TaskMonitor.List: rows are returned as stored; decoding their JSON fields is not modelled.
- Dates.ToDate: digits are ASCII, lower-casing covers ASCII, Latin-1 and Ă, and a datetime instance is not distinguished from a date.
- Dates.IsoInverted: text before the date that has both other digits and separators is not covered, since it may read as a date itself; Dates.DmyInverted leaves out such text on both sides.
- Versions.NextVersion: `int` on spaces, underscores or signs in the counter is not modelled.
- Money.ToMoney: exact decimals; rounding to doubles and overflow to infinity are not modelled.
- Floating-point rounding of the Lua and Python arithmetic in the rate limiter.
- `adelete_thread` with its key glob, and keys as colon-joined text (keys are tuples).
- `finalize`, part kinds, MIME types, page counts and document status; reuse of a UUID.
- MIME detection by content, fuzzy name matching, trigram search.
- Agents, prompts, language-model calls, PDF rendering, the task queue's retries, HTTP routers, telemetry and configuration from the environment beyond the cache TTL.
- VAT, tolerance and tax-id tools, tool ranking and workflow rows: single formulas or updates.
