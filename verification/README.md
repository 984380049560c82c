# A verified model of the tiered memory engine

The system keeps an agent's memories in three tiers (working, episodic, semantic).
Each tier is a keyed store with a vector index. Above the tiers sit keyset pagination,
lifecycle passes (promotion, forgetting, statistics), cross-tier recall, scopes and snapshots.
This project models that logic in Dafny and proves what it does for all inputs, runs and schedules.
`dafny verify dfyconfig.toml` checks all of it.

## What is proved, in short

- **Paging one store while it changes** (`Listing`): following cursors never returns a key twice, and every key
  that is listed throughout is returned exactly once, whatever else happens to the store between pages.
- **Paging all tiers at once** (`Rounds`, `PagedLoop`, `CycledListing`): the loop drops the cursor of a finished
  tier, and a missing cursor means "from the start", so finished tiers go round again. The loop runs for the least
  common multiple of the page counts and returns each tier's listing (rounds / page count) times. A tier is
  enumerated once, as its comment promises, if and only if every tier's page count divides its own. `PagedOnce` has
  the loop that asks only unfinished tiers, and its exactly-once proof.
- **What that means for the callers** (`Stats`, `ForgetProofs`, `Lifecycle`): counts are multiplied while averages and
  ages stay right; forgetting by capacity keeps too few; consolidation clones items without a metadata map once per
  copy. Each comes with its exact condition.
- **Consolidation** (`Consolidation*`): metadata maps are references, modelled by an explicit heap. Which listed items
  a call promotes has a closed form that can be read off the listing before the call; from it follow promote-once per
  call and over whole runs (no two episodic items name the same source), idempotence, and the exact metadata of
  every clone. Also tidy failure, and clones that share no map with any working item.
- **Recall** (`Merge`, `Recall`, `RecallProofs`, `Pushdown`, `TierSearch`, `Facades`): conservation of hits, the exact
  condition under which goroutine and map order do not matter, lossless top-K push-down, recall over searched stores
  returning the best of all admitted items, and agreement of the three search facades.
- **Stores** (`VectorIndex`, `ScoredStore`, `WorkingMemory`, `Persistence`): the vector index under interleaved
  critical sections, capacity and eviction, export/import round trips.
- **Scores and tokens** (`Similarity`, `ScoreLaws`, `Tokens`): Cauchy-Schwarz and the score bounds for all queries, vectors
  and items; how scores respond to similarity, importance, age and saving; tokens as maximal runs.
- **Scopes** (`Scoping`, `ScopedRuns`, `ScopedLifecycle`, `ScopedSearch`): gets and removals never touch items of other
  scopes, updates only through a callback that writes their maps, and scoped listings and forgetting reach no other
  items. An addition can: it overwrites by ID, stamps the map it is given, and may evict. The exact condition is proved
  for each, also over runs, as is that of a scoped search returning all it should.

## Modelling decisions

- Time is an integer with one reading per call (`ZERO_TIME` is the unset stamp); floats are reals; square root and
  exponential are parameters constrained by what is used of them; embedding is a parameter that may fail.
- Map iteration, channel arrival and the library sort are arbitrary: loops pick any remaining key, arrivals are any
  sequence with one message per tier, and `Ordering.Sort` promises only a sorted permutation.
- Strings are ordered character by character, which is the byte order on valid UTF-8. Lower-casing is a parameter.
- A cursor text is empty, the encoding of a (time, ID) pair, or malformed; decoding undoes encoding.
- Well-formedness of a store is that every item lies under its own, non-empty ID; update callbacks keep the ID.
- `IsPinned`, `IsDisabled`, `GetSource`, `GetCategory` and `Scope.Matches` belong to the contract module and are
  parameters. Filters are arbitrary predicates in the paging results and are spelled out in `Scoping`.
- Listings, merges and rankings that depend on arbitrary order are specified by relations; lemmas say which of their
  parts are nevertheless unique.
- Where code and comment disagree the code is followed. The comments promise a plain enumeration by the paging loops,
  a promote-once policy of the consolidator, determinism of the tie-break in recall, and that a scoped manager enforces
  its scope. `ListedOnceIff`, `PromotedOnceIff`, `SecondConsolidateIdleIff`, `DeterministicIff`, `AddIsConfinedIff` and
  `AlwaysCompleteIff` say exactly when these hold. Inputs for which they fail are given by `ShortTierListedTwice`,
  `CapacityOverDeletes`, `PromotedTimes`, `NegativeCountSpoilsClone`, `RetryClonesAgain`, `TiesAreOpen`,
  `AddOverwrites`, `AddEvictsForeign`, `ScopedSearchMisses` and the lemmas from `OverlappingUpdates` to
  `WrongVectorImported`.

## Model

| member | source | states |
|---|---|---|
| `Listing.ListFromStore` | memory/engine_list.go:80-130 | returns the page that the cursor selects in the unique sorted listing of the matching items. In the items' fields: stored, admitted items after the cursor, newest first and by ascending ID among equals, at most the page size (50 if not positive), the next cursor naming the last item exactly when something comes after it. A malformed cursor is the only error |
| `Listing.FirstPageStartsNewest` | memory/engine_list.go:96-120 | no admitted item is newer than the first item of the first page, which is empty only if nothing is admitted |
| `Ordering.StringLessIff` | memory/engine_list.go:100-110 | the order of IDs is dictionary order: the first difference decides, and a proper prefix comes first |
| `Listing.ListingUnique` | memory/engine_list.go:88-101 | the listing does not depend on map iteration or on how the sort breaks ties |
| `Listing.PageCovers` | memory/engine_list.go:102-127 | a listed key after the cursor is on the page or lies beyond the page's next cursor |
| `Listing.KeysNeverRepeat` | memory/engine_list.go:80-130 | over a pass with arbitrary store changes between pages, no (creation time, ID) pair is returned twice |
| `Listing.StableKeyReturnedExactlyOnce` | memory/engine_list.go:80-130 | a key listed in every round has been returned exactly once when the next cursor becomes empty |
| `PagedLoop.ListAll` | memory/manager.go:318-346 | one page per active tier, a missing cursor starting from the beginning; errs iff an active tier's cursor is malformed |
| `PagedLoop.TierAtEnd` | memory/consolidator.go:170-182 | after r rounds a tier is at its end iff its page count divides r, and has then contributed r / count whole listings |
| `PagedLoop.StopsAtCommonMultiples` | memory/consolidator.go:179-182 | no cursor is left exactly after a common multiple of all page counts |
| `PagedLoop.ListAllPaged` | memory/consolidator.go:159-184 | terminates after the least common multiple of the page counts and returns each listing whole, rounds / count times |
| `CycledListing.NothingMissed` | memory/consolidator.go:150-184 | no matching item is missed, and each comes out exactly rounds / count times |
| `CycledListing.ListedOnceIff` | memory/scoped_lifecycle.go:223-256 | a tier is enumerated once iff it is empty or every tier's page count divides its own |
| `CycledListing.ShortTierListedTwice` | memory/scoped_lifecycle.go:231-256 | one working item beside an episodic tier of one page and one item is listed twice |
| `PagedOnce.ListAllOnce` | memory/consolidator.go:150-184 | a loop that asks only the tiers with pages left returns every listing exactly once, as the comment promises, for all page counts |
| `Rounds.LcmIsOwnCount` | memory/consolidator.go:170-182 | the number of rounds equals a tier's own page count iff all page counts divide it |
| `Stats.Summarise` | memory/scoped_lifecycle.go:179-207 | count, average importance and age of the oldest item; zeros for no items |
| `Stats.CycledStats` | memory/scoped_lifecycle.go:171-209 | over a listing returned m times the count is m times too high, average and oldest age are right |
| `PairSort.SortPairsByImpAsc` | memory/scoped_lifecycle.go:215-221 | the in-place loop computes insertion sort |
| `PairSort.InsertionSortIsStableSort` | memory/scoped_lifecycle.go:211-221 | sorted by importance, a permutation, and stable |
| `PairSort.SortedAscending` | memory/scoped_lifecycle.go:211-221 | importances ascend from left to right, over the same pairs |
| `Forget.Manager.Remove` | memory/manager.go:255-261 | deletes one item of one tier; false when tier or item is missing |
| `Forget.Manager.ForgetByCapacity` | memory/scoped_lifecycle.go:133-156 | removes exactly the evicted IDs and counts them |
| `Forget.Manager.ForgetScoped` | memory/scoped_lifecycle.go:98-162 | removes exactly the strategy's victims from this kind's listing, touches no other tier, counts the removed; errs iff the strategy is unknown or by age without a positive age. In the items' fields: by importance an admitted, unpinned item stays iff its importance reaches the threshold, by age iff it is no older than the limit; by capacity at most Keep of them stay, none less important than one removed, and nothing goes when Keep is not positive; all other items stay as they are |
| `ForgetProofs.MatchingIsExact` | memory/scoped_lifecycle.go:107-132 | an item goes iff it is admitted, not pinned and, by importance, below the threshold or, by age, older than the limit, repeated listings included |
| `ForgetProofs.VictimsAreAdmittedAndUnpinned` | memory/scoped_lifecycle.go:92-162 | no strategy removes a pinned item or one the filter does not admit |
| `ForgetProofs.CapacityKeepsIff` | memory/scoped_lifecycle.go:133-156 | over a listing returned m times, exactly min(n, Keep) survive iff m is 1 or all copies fit, never more, and each survivor is at least as important as each removed item |
| `ForgetProofs.CapacityKeepsQuotient` | memory/scoped_lifecycle.go:133-156 | with pairwise distinct importances and copies that do not fit, exactly Keep / m items survive a listing returned m times |
| `ForgetProofs.CapacityOverDeletes` | memory/scoped_lifecycle.go:133-156 | keeping 2 of 2 items listed twice removes one |
| `Lifecycle.ForgetKeepsIff` | memory/scoped_lifecycle.go:98-162 | for the whole operation, in terms of the tiers' page counts: exactly min(n, Keep) survive iff all page counts divide the tier's or all copies fit; never more survive, and each survivor is at least as important as each removed item |
| `Lifecycle.StatsCountIff` | memory/scoped_lifecycle.go:171-209 | the scoped count is right iff the tier is empty or all page counts divide its own; average and oldest age are always right |
| `Lifecycle.ConsolidatePromotesIff` | memory/consolidator.go:71-125 | a successful call promotes an item without map, or with a map of its own, iff it is admitted, reaches the threshold and the minimum age, and has a count below one |
| `Lifecycle.ConsolidatePromotesOnceIff` | memory/consolidator.go:71-125 | a call promotes nothing twice iff no entry of the paged listing is chosen again; where negative counts lie in maps of their own, iff all page counts divide the working tier's or no ripe item without map or with a negative count is listed |
| `Lifecycle.SecondConsolidateIdleIff` | memory/consolidator.go:71-125 | after a successful call, a second with the same options and clock is idle iff no listed count was too negative for the first call's stamps; the second listing is the paging loop's over the changed tiers |
| `Consolidation.Engine.CloneInto` | memory/consolidator.go:92-108 | stores a copy with its own metadata map and the back reference |
| `Consolidation.Engine.StampSource` | memory/consolidator.go:110-117 | writes the two stamp keys into the map the stored source refers to |
| `Consolidation.Engine.PromoteAll` | memory/consolidator.go:81-124 | the loop computes the promotion of the list, item by item, with its count and failure |
| `Consolidation.Engine.Consolidate` | memory/consolidator.go:71-125 | pages through the wired tiers, then promotes the working listing it got; without an episodic tier nothing changes. Every promoted item was stored and admitted, reaches the threshold (0.7 if not positive) and, if one is set, the minimum age |
| `Consolidation.PromotedMeetTheBar` | memory/consolidator.go:82-91 | only listed items at or above the threshold and of the minimum age are promoted, whatever the backend does |
| `Consolidation.NothingAdded` | memory/consolidator.go:106-108 | when nothing can be added nothing changes, and the call fails iff there is something to promote |
| `Consolidation.CountIsRead` | memory/consolidator.go:127-148 | integers are taken as they are, fractions cut towards zero, anything else counts as none |
| `Consolidation.CloneInFields` | memory/consolidator.go:92-108 | the clone has the next minted ID, the source's content, tags, clamped importance and creation time, and a new map with the source's entries and the back reference; nothing else changes |
| `Consolidation.StampInFields` | memory/consolidator.go:110-117 | the source keeps all but access time and clamped importance, its map gains the time and the count plus one, and no other item changes |
| `ConsolidationProofs.CallOnlyStamps` | memory/consolidator.go:82-122 | a call changes working items only in access time, clamped importance and the two stamp keys, and counts never fall |
| `ConsolidationProofs.PromotionWrites` | memory/consolidator.go:92-117 | a promotion writes its two keys into the map its source was listed with, and into no other map of that time |
| `ConsolidationExact.PromotesTheChosen` | memory/consolidator.go:81-124 | closed form of a call: it promotes, in order and up to the first backend failure, the ripe entries whose map's count plus the ripe entries on that map before them is below one, or that have no map; on success every map holds exactly those stamps |
| `ConsolidationExact.PromotedIff` | memory/consolidator.go:82-122 | over any listing with repeats, a successful call promotes an item without map, or with a map of its own, iff it is listed, reaches the threshold and the minimum age, and has a count below one |
| `ConsolidationExact.PromotedOnceIff` | memory/consolidator.go:29-40 | without failures no item is promoted twice iff none is chosen at two places of the listing |
| `ConsolidationExact.OncePerCall` | memory/consolidator.go:71-125 | at most one promotion per item also when a backend call fails |
| `ConsolidationExact.MappedItemsPromotedOnce` | memory/consolidator.go:82-122 | an item with a map and no negative count is chosen at most once, however often it is listed and whoever shares the map |
| `ConsolidationExact.PromotedTimes` | memory/consolidator.go:89-117 | a ripe item with a nil map is promoted once per listing of it, one with a map of its own min(listings, 1 - count) times |
| `ConsolidationExact.ChoosesTwiceIff` | memory/consolidator.go:89-91 | repeats cause double promotions exactly for ripe items without a map or with a negative count |
| `ConsolidationRuns.PromotedAreStamped` | memory/consolidator.go:110-121 | every counted source shows a higher promotion count at return |
| `ConsolidationRuns.SecondCallIsIdle` | memory/consolidator.go:71-125 | with no negative counts a second call over any part of the same items promotes and changes nothing, even if listings repeat |
| `ConsolidationRuns.SecondCallIdleIff` | memory/consolidator.go:89-116 | for all listings: the second call is idle iff no listed count plus all ripe entries on its map stays below one |
| `ConsolidationRuns.StepKeepsInv` | memory/consolidator.go:71-148 | adds with fresh IDs, gets, updates that keep counts and back references, removals from either tier and consolidations keep the promote-once invariant |
| `ConsolidationRuns.PromotedOnceInEveryRun` | memory/consolidator.go:23-40 | in every state of any such run no source was promoted twice, and two episodic items with the same back reference are the same item |
| `ConsolidationRuns.EmptyHistory` | memory/engine_scored_store.go:29-36 | a new engine satisfies the promote-once invariant, so runs may start there |
| `ConsolidationClones.ClonesAreSeparate` | memory/consolidator.go:92-105 | the clone of each promotion stands at return under the next minted ID, shares its map with no working item, and carries exactly the source's map at its turn plus the back reference; with a count that is not negative that is the map before the call |
| `ConsolidationClones.CloneIsExactIff` | memory/consolidator.go:92-105 | a clone carries its source's metadata from before the call plus the back reference iff no ripe entry before it refers to the same map |
| `ConsolidationClones.NegativeCountSpoilsClone` | memory/consolidator.go:89-105 | an item with count -1 listed twice: the second clone carries the first promotion's stamp |
| `ConsolidationClones.FailsTidily` | memory/consolidator.go:106-120 | clones made equal the count, plus one exactly when stamping failed; other episodic items are untouched |
| `ConsolidationClones.BackRefsOfCall` | memory/consolidator.go:105-120 | a back reference at return was there before the call or belongs to the clone minted for a counted promotion of that source |
| `ConsolidationFailures.RetryClonesAgain` | memory/consolidator.go:106-120 | after a failed stamp a call with the same options and clock that lists the source clones it again: two episodic items carry its back reference |
| `Merge.BestIsFirstMaximum` | memory/recall_engine.go:178-193 | deduplication keeps, per (ID, content), the first hit in tier order with the highest score |
| `Merge.Deduplicate` | memory/recall_engine.go:178-193 | the nested loop computes that map, the per-tier counts and the total |
| `Merge.Materialize` | memory/recall_engine.go:195-201 | lists each deduplicated result once, in any order, with its tier of origin |
| `Merge.Rank` | memory/recall_engine.go:202-207 | a sorted enumeration: score descending, ID ascending |
| `Recall.Participating` | memory/recall_engine.go:237-255 | the selected and active tiers in canonical order: a tier is asked iff the mask is 0 or contains 1 for working, 2 for episodic, 4 for semantic |
| `Recall.MasksSelectTiers` | memory/recall_engine.go:22-34 | with all tiers active, masks 1, 2 and 4 ask exactly the working, episodic and semantic tier, and 0 and 7 all three |
| `Recall.UnionOfMasks` | memory/recall_engine.go:237-255 | a union of non-zero masks asks the tiers that either of them asks |
| `Recall.BudgetIs` | memory/recall_engine.go:143-147 | a positive budget is used as it is, otherwise TopK, which is 10 if not positive |
| `Recall.Drain` | memory/recall_engine.go:158-167 | the answers received, whatever the order; fails iff some tier failed; disabled tiers are skipped |
| `Recall.MergeAnswers` | memory/recall_engine.go:169-230 | merge, dedupe, rank, truncate and count as specified by `IsRecall` |
| `Recall.Recall` | memory/recall_engine.go:124-233 | the whole call, from options and arrivals to results, provenance and drop count. In the results' fields: at most TopK (10 if not positive) of them, by descending score and then ascending ID, no ID and content twice, each given by an active tier whose mask value was set; and every hit is returned under its ID and content with at least its score, or the list is full of results that rank no lower |
| `RecallProofs.Conservation` | memory/recall_engine.go:178-230 | considered hits are results plus dropped, every result counts for one tier, results number min(TopK, distinct keys) |
| `RecallProofs.ProvenanceIsExact` | memory/recall_engine.go:215-230 | with provenance every asked tier has a row: how many hits it gave, and how many of the results it was the first tier in canonical order to give with their score |
| `RecallProofs.ResultsAreMaximal` | memory/recall_engine.go:186-192 | a result carries the highest score any tier gave its key |
| `RecallProofs.ScheduleIndependent` | memory/recall_engine.go:141-213 | for all arrival and map orders: same drop count, same scores and IDs in place; everything the same without ties on score and ID |
| `RecallProofs.DeterministicIff` | memory/recall_engine.go:113-121 | all schedules agree on results and counters iff no two neighbours tie on score and ID among the first TopK places and the next |
| `RecallProofs.TiesAreOpen` | memory/recall_engine.go:202-207 | two results with equal score and ID but different content may come in either order |
| `Pushdown.ScoresAreLossless` | memory/recall_engine.go:143-213 | each of the first TopK scores is that of merging the full lists |
| `Pushdown.EntriesAreLossless` | memory/recall_engine.go:143-213 | without score ties the result and its tier of origin are the same too |
| `Pushdown.PushdownIsLossless` | memory/recall_engine.go:102-121 | the score sequence, and without ties the results, of cut answers equal those of the full lists |
| `Pushdown.RecallIsLossless` | memory/recall_engine.go:124-215 | the same for a recall's result when every budget is at least TopK |
| `Pushdown.SmallBudgetLosesIff` | memory/recall_engine.go:46-51 | over one tier, for every budget and TopK: the scores are those of the full list iff the budget is at least TopK or covers all hits |
| `TierSearch.Search` | memory/engine_working.go:46-71 | a cut, at the limit, of the list of all admitted items with their scores; errs iff the query is blank or cannot be embedded. In the results' fields: at most topK (5 if not positive), each a stored, admitted item with its score, by descending score and without repeats, and an admitted item that is missing scores no more than any of a full list |
| `TierSearch.RecallReturnsBest` | memory/recall_engine.go:124-215 | recall over tiers searched with budgets of at least TopK: every result is an admitted item with its tier's score, in order and without repeats, and every admitted item of every tier is among them or scores no more than each of TopK results |
| `Facades.SearchAll` | memory/manager.go:296-311 | gathers exactly the answers of the enabled tiers; fails iff a tier fails |
| `Facades.SearchAllParallel` | memory/parallel_search.go:74-103 | for every schedule, gathers what the serial search gathers |
| `Facades.SearchUnified` | memory/unified_search.go:56-97 | the first topK of a ranking of the merged answers, all of it for topK not positive |
| `Facades.UnifiedUncut` | memory/unified_search.go:92-97 | for topK not positive every ID and content given is among the results with at least the score given |
| `Facades.UnifiedAgreesWithRecall` | memory/unified_search.go:46-97 | for positive topK, same scores and IDs as recall in every place, same results without ties, also when tiers are not wired |
| `VectorIndex.StepKeepsInv` | memory/engine_scored_store.go:38-124 | every disciplined critical section keeps: a stale vector has an update in flight that will repair it |
| `VectorIndex.QuiescentStatesAreCoherent` | memory/engine_scored_store.go:38-124 | in every disciplined run, quiescent states have exactly the embeddings of the stored contents |
| `VectorIndex.UninterruptedUpdate` | memory/engine_scored_store.go:83-113 | an update without interruption keeps the index coherent |
| `VectorIndex.UninterruptedGet` | memory/engine_scored_store.go:65-81 | a get without interruption renews the access time of a stored item and changes nothing else |
| `VectorIndex.RemovedIsGone` | memory/engine_scored_store.go:115-124 | a removal takes item and vector of its ID and leaves all others |
| `VectorIndex.OverlappingUpdates` | memory/engine_scored_store.go:83-113 | overlapping updates finished in reverse are coherent iff their embeddings agree |
| `VectorIndex.RemoveDuringUpdate` | memory/engine_scored_store.go:103-124 | a removal between an update's sections leaves a vector without an item |
| `VectorIndex.AddDuringUpdate` | memory/engine_scored_store.go:38-113 | an addition between an update's sections ends up with the update's vector: coherent iff the embeddings agree |
| `VectorIndex.ImportDuringUpdate` | memory/engine_persistence.go:66-78 | so does an entry imported between them, even with its right vector |
| `VectorIndex.FailedEmbedding` | memory/engine_scored_store.go:99-107 | a failed re-embedding leaves the old vector under the new content |
| `VectorIndex.WrongVectorImported` | memory/engine_persistence.go:66-78 | an imported vector is taken as it comes: coherent iff it is the content's embedding |
| `VectorIndex.VectorlessItemsWereImported` | memory/engine_scored_store.go:38-124 | with no discipline at all, an item without a vector was so at the start or came from an import without one |
| `ScoredStore.Store.Add` | memory/engine_scored_store.go:38-63 | mints, normalises, embeds and stores; nothing is stored when embedding fails. The stored item keeps content, tags, map and a creation time that is set, and has the current access time and the importance moved to 0 or 1 if it lies outside |
| `ScoredStore.Store.Get` | memory/engine_scored_store.go:65-81 | returns the item with its access time renewed, or not found |
| `ScoredStore.Store.Update` | memory/engine_scored_store.go:83-113 | stores the changed item with the current access time and the importance moved to 0 or 1 if it lies outside; the vector follows iff content changed and embedding succeeds |
| `ScoredStore.Store.Remove` | memory/engine_scored_store.go:115-124 | deletes item and vector |
| `WorkingMemory.Working.EvictLowest` | memory/engine_working.go:142-153 | removes one item of minimal score |
| `WorkingMemory.Working.EvictOldest` | memory/engine_working.go:156-171 | removes an oldest item iff some item lies strictly in the past |
| `WorkingMemory.Working.EvictIfOverCapacity` | memory/engine_working.go:126-154 | evicts by the capacity rule: nothing while there is room, else a lowest-scoring item for the probe or, if that cannot be embedded, an oldest past one if there is any |
| `WorkingMemory.SomeVictim` | memory/engine_working.go:126-171 | the capacity rule has an outcome for every tier: a lowest-scoring item exists, and an oldest one if anything lies in the past |
| `WorkingMemory.EvictsInFields` | memory/engine_working.go:126-171 | in the items' fields: what goes scores no higher than anything else for the probe or, without one, was created no later than anything else and in the past |
| `WorkingMemory.Working.Add` | memory/engine_working.go:37-44 | at most one eviction, by the capacity rule, all other items untouched; the tier outgrows max(previous size, capacity) iff the addition takes it beyond that, the probe cannot be embedded and nothing lies in the past |
| `WorkingMemory.RunStaysWithin` | memory/engine_working.go:126-171 | runs of such additions, gets, updates and removals that start within the capacity stay within it |
| `Persistence.Export` | memory/engine_persistence.go:8-33 | each item once with its vector, if it has one, oldest first and then by ascending ID |
| `Persistence.ExportUnique` | memory/engine_persistence.go:15-25 | export order does not depend on map iteration |
| `Persistence.Import` | memory/engine_persistence.go:35-93 | the fold of the entries in the given mode; errs on kind, version or unknown mode and then changes nothing; a well-formed store stays so, and replacing makes it so. Over any store: upserting leaves each ID of the snapshot with the item and the vector, or none, of its last entry; replacing leaves exactly those IDs, with the last item and the last vector given; merging keeps what is there and gives a new ID its first entry; IDs outside the snapshot stay as they are, except when replacing. Entries without ID are errors, merging and upserting load the distinct new IDs and skip or replace the rest, replacing loads all |
| `Persistence.ImportIsOneStep` | memory/engine_persistence.go:40-93 | importing distinct entries one by one leaves the items and vectors that the single import step of the interleaving model leaves, in every mode |
| `Persistence.EveryEntryCounted` | memory/engine_persistence.go:46-91 | loaded + skipped + replaced + errors is the number of entries |
| `Persistence.ExportImportRoundTrip` | memory/engine_persistence.go:8-93 | replace-importing an export over any store restores the items and the vectors of those items |
| `Persistence.ModesAgreeOnEmpty` | memory/engine_persistence.go:46-87 | distinct entries over an empty store: replace, merge and upsert agree in contents and report |
| `Persistence.SecondMergeIsIdle` | memory/engine_persistence.go:54-65 | merging the same snapshot again loads and changes nothing |
| `Similarity.CauchySchwarz` | memory/engine_scored_store.go:264-271 | the accumulators satisfy dot^2 <= normA * normB for all vectors |
| `Similarity.Accumulate` | memory/engine_scored_store.go:264-271 | the loop fills dot, normA and normB with the three inner products of the whole vectors |
| `Similarity.VectorCosineSimilarity` | memory/engine_scored_store.go:260-276 | the loop computes the cosine, which lies in [-1, 1] |
| `Similarity.SelfSimilarity` | memory/engine_scored_store.go:260-276 | a non-zero vector has similarity 1 to itself |
| `ScoreLaws.DotOfConcat` | memory/engine_scored_store.go:264-271 | the accumulated product is additive over parts of the vectors, down to single components |
| `ScoreLaws.CosineSymmetric` | memory/engine_scored_store.go:260-276 | similarity does not depend on the order of its arguments |
| `ScoreLaws.CosineOfMultiple` | memory/engine_scored_store.go:260-276 | stretching a vector leaves its similarities alone, turning it round turns their sign |
| `Similarity.DecayBounded` | memory/engine_scored_store.go:214-220 | decay lies in [0, 1] |
| `Similarity.WorkingScoreBounded` | memory/engine_working.go:118-124 | for all queries, vectors and items of importance in [0, 1], working scores lie in [-0.84 B, 1.2 B], B = max(1, boost) |
| `Similarity.SemanticScoreBounded` | memory/engine_semantic.go:57-59 | for all vectors, wanted tags and such items, semantic scores lie in [-0.84 B, 1.2 B] |
| `Similarity.EpisodicScoreBounded` | memory/engine_episodic.go:59-61 | for all vectors and such items, episodic scores lie in [-0.96 B, 1.2 B] |
| `ScoreLaws.WorkingScoreValues` | memory/engine_working.go:118-124 | new and not saved: 0.7 similarity plus 0.3 keywords, times 0.8, 1 and 1.2 at importances 0, 0.5 and 1 |
| `ScoreLaws.SemanticScoreValues` | memory/engine_semantic.go:57-59 | not saved: 0.7 similarity plus 0.3 tag overlap, times 0.8, 1 and 1.2 at importances 0, 0.5 and 1 |
| `ScoreLaws.EpisodicScoreValues` | memory/engine_episodic.go:59-61 | not saved: 0.8 similarity plus 0.2 recency, times 0.8, 1 and 1.2 at importances 0, 0.5 and 1 |
| `ScoreLaws.DecayValues` | memory/engine_scored_store.go:214-220 | recency is 1 for age or half-life not positive, else the exponential of minus age over half-life |
| `ScoreLaws.SavedItemsAreBoosted` | memory/engine_scored_store.go:204-212 | saving an item multiplies its score in every tier by the boost, or by 1 if that is not positive |
| `ScoreLaws.WorkingScoreFades` | memory/engine_working.go:118-124 | a working score is the score of the same item created now, times its recency |
| `ScoreLaws.ScoresGrowWithSimilarity` | memory/engine_working.go:118-124 | every tier's score grows with the similarity |
| `ScoreLaws.ScoresGrowWithImportance` | memory/engine_scored_store.go:200-202 | of two items that differ in importance the more important scores no lower iff the rest of the tier's formula is not negative |
| `Tokens.SplitTokens` | memory/engine_scored_store.go:222-240 | the builder loop computes the tokens of the lower-cased text |
| `Tokens.TokensAreMaximalRuns` | memory/engine_scored_store.go:222-240 | tokens are exactly the maximal runs of letters and digits |
| `Tokens.SpansAreRuns` | memory/engine_scored_store.go:231-238 | tokens come in order and do not touch |
| `Tokens.AlnumByCode` | memory/engine_scored_store.go:232 | exactly the ASCII codes 97 to 122 and 48 to 57 belong to tokens |
| `Tokens.SplitJoin` | memory/engine_scored_store.go:222-240 | splitting tokens joined by spaces gives them back |
| `Tokens.KeywordScore` | memory/engine_scored_store.go:162-181 | the fraction of the lower-cased query's distinct tokens found in the lower-cased content, in [0, 1] |
| `Tokens.KeywordScoreIs` | memory/engine_scored_store.go:162-181 | the score times the number of distinct tokens is the number of those found; it is 1 iff all are, and 0 iff none is |
| `Tokens.ContainsIff` | memory/engine_scored_store.go:176 | a token is found iff the content is some text, the token and some text |
| `Tokens.SameTokensSameScore` | memory/engine_scored_store.go:165-180 | queries joined from the same tokens in any order and number have the same score, that of the token set |
| `Tokens.AnyTagMatches` | memory/engine_semantic.go:142-153 | true iff a wanted and an owned tag agree up to case |
| `Tokens.TagOverlap` | memory/engine_scored_store.go:183-198 | the fraction of wanted tags the item has, up to case; positive exactly when such tags exist, so every hit of a tagged search has positive overlap |
| `Tokens.SharedCounts` | memory/engine_scored_store.go:183-198 | what is counted are the places of the wanted list whose tag the item has up to case, repeats included |
| `Tokens.OverlapIs` | memory/engine_scored_store.go:183-198 | the overlap times the number of wanted tags is that count |
| `Scoping.StampReadsBack` | memory/scope_local.go:21-33 | a stamped non-zero scope is read back, in both map encodings, and other metadata stays |
| `Scoping.StampInFields` | memory/scope_local.go:21-33 | the stamp lies under "_scope" with the three fields by name, in the item's own map or a new one; a zero scope writes nothing |
| `Scoping.ScopeIsRead` | memory/engine_list.go:132-158 | each field is read by name from either encoding; what is missing or not text is empty |
| `Scoping.MatchesFilter` | memory/engine_list.go:42-78 | the chain of checks, tag loop included, decides the filter; a rejected item fails one of the checks that is switched on, an admitted one fails none |
| `Scoping.ScopedFilterCuts` | memory/scoped_manager_local.go:82-87 | under a non-zero scope an item is admitted iff the caller's filter admits it in any scope and the scope matches it; a zero scope changes nothing |
| `Scoping.FilterByScope` | memory/scoped_manager_local.go:101-112 | keeps, in order, the results of the scope; everything for a zero scope |
| `Scoping.KeepScopeIsExact` | memory/scoped_manager_local.go:61-80 | a result is kept iff the scope matches it |
| `ScopedLifecycle.ScopedPagesAreConfined` | memory/scoped_manager_local.go:82-87 | every item on every page of a scoped listing, whatever the cursor, is stored in the tier, belongs to the scope and, unless asked for, is not disabled |
| `ScopedLifecycle.ScopedListingIsCut` | memory/scoped_manager_local.go:82-87 | the scoped listing of a tier is its plain listing, cut to the scope, in the same order |
| `ScopedLifecycle.ScopedForgetIsConfined` | memory/scoped_lifecycle.go:92-162 | scoped forgetting by any strategy, over the listing of the paging loop, removes no pinned, disabled or out-of-scope item |
| `ScopedLifecycle.ScopedForgetIsExact` | memory/scoped_lifecycle.go:98-132 | by importance or age an item goes iff it is neither pinned nor disabled, belongs to the scope if one is set, and is below the threshold or older than the limit |
| `ScopedSearch.ScopedSearch` | memory/scoped_manager_local.go:61-67 | the tier's admitted items, ranked in some order among ties, cut at the limit, and only then reduced to the scope; errs iff the query is blank or cannot be embedded |
| `ScopedSearch.ScopedSearchCompleteIff` | memory/scoped_manager_local.go:61-67 | for each ranking of the tier's hits, the scope's best hits are returned iff none of them was cut off while one outside the scope was kept |
| `ScopedSearch.AlwaysCompleteIff` | memory/scoped_manager_local.go:61-67 | they are returned for every order among ties iff no foreign hit with fewer than the limit above it scores at least as much as a hit of the scope with more than the limit at or above it |
| `ScopedSearch.ScopedSearchMisses` | memory/scoped_manager_local.go:61-67 | one wanted and a foreign hit ranked first: the scope's only hit is lost |
| `ScopedRuns.AddIsConfinedIff` | memory/scoped_manager_local.go:23-26 | an addition leaves all items of other scopes alone, whichever candidate the capacity rule evicts, iff none has its ID, none has its metadata map, and, if the tier becomes too large, none scores lowest for the new content (or is oldest, when that cannot be embedded) |
| `ScopedRuns.AddOverwrites` | memory/scoped_manager_local.go:23-26 | adding under the ID of another scope's item destroys that item |
| `ScopedRuns.AddEvictsForeign` | memory/engine_working.go:126-154 | adding to a full working tier whose lowest-scoring item belongs to another scope evicts exactly that item |
| `ScopedRuns.UpdateIsConfinedIff` | memory/scoped_manager_local.go:39-48 | an update leaves items of other scopes alone iff its callback writes nothing else into their maps |
| `ScopedRuns.OwnWritesStayWithin` | memory/scoped_manager_local.go:39-48 | callbacks that write only the item's own map meet that condition, even if the map is shared |
| `ScopedRuns.StepIsConfined` | memory/scoped_manager_local.go:23-59 | get, update, remove and add under these conditions return, change or delete only items of the scope; others keep contents, metadata and vector, and change at most their access time |
| `ScopedRuns.StepActs` | memory/scoped_manager_local.go:28-59 | on an item of the scope the operation takes effect: the item is returned, rewritten by the callback with its map and vector, or deleted with its vector |
| `ScopedRuns.StepRefuses` | memory/scoped_manager_local.go:28-59 | on a missing item or one of another scope nothing is returned and at most an access time is renewed |
| `ScopedRuns.AddActs` | memory/scoped_manager_local.go:23-26 | the added item stands under its own or a minted ID with its fields, the current access time and its vector, unless it is evicted itself |
| `ScopedRuns.AddSparesOthers` | memory/engine_scored_store.go:38-63 | an addition changes no item or vector but its own and the evicted one, and none if embedding fails |
| `ScopedRuns.RunIsConfined` | memory/scoped_manager_local.go:23-59 | over any run of such operations under one scope, items of other scopes are never changed or deleted, whatever the capacity rule evicts |

## Left out

- The SQLite snapshot store, JSON and base64 encodings, the embedder, and IEEE rounding: input/output and library code.
- `Scope.Matches`, `IsPinned`, `IsDisabled` and the other metadata readers: defined in the contract module; parameters here.
- Write policies, policy hooks, observer events, option folding and constructors' nil checks: short switches and plumbing.
- `ConsolidateScoped`: it neither stamps its sources nor copies their metadata maps, so the promote-once results do not apply to it.
- Concurrent callers of the working tier's eviction: its capacity bound is sequential.
- `parseTagPrefix` and `splitCSV`: the semantic tier's query syntax; searches take the wanted tags as given.
- `ExportAll`, `ImportAll` and the snapshot-store dispatch: per-tier loops over the modelled operations.
- Cancellation of contexts: every tier's search is taken to run to its end, as the wait group makes it.
- TierSearch.Search: one model for the three tiers' searches; the filter and the score formula are parameters, the formulas are spelled out and bounded in `Similarity`.
- Stats.Summarise: the capacity reported beside the statistics is passed through.
- Forget.Manager.Remove: models items per tier; that removal also deletes the vector is in `ScoredStore.Store.Remove`.
- Consolidation.Engine.Consolidate: backend failures are an oracle per promotion; vectors of the clones are not part of this module.
- ScopedRuns.RunIsConfined: one tier and one scope per run; callers of other scopes that act in between are not part of it.
