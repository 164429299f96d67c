# Penfold, verified

A Dafny 4.11 model of ten cores of this repository and proofs about them.  The results are for all
inputs, all runs or all interleavings; where the code does not keep a promise, a lemma at one
concrete input or run stands beside the exact condition.  `dafny verify dfyconfig.toml` checks the project.

| modules | core |
|---|---|
| `ChunkRuns`, `CharacterSplit`, `SentenceSplit`, `WordSplit`, `LargeParagraph`, `ParagraphGroups`, `GroupOffsets`, `Chunker`, `ChunkSizes` | text chunking: four nested splitters under one offset discipline, and overlap |
| `LogSink` | the asynchronous log sink as a transition system, and the object that takes its steps |
| `LruSpec`, `LruRuns`, `MemoryCache`, `CacheContract` | the LRU cache with expiry: a list specification, theorems over runs, the class with map and recency list |
| `EmbeddingPool`, `EmbeddingClient` | the worker pool as a transition system, and single and batch embedding through a cache |
| `PipelineGate`, `StageClosure` | the concurrency gate as an interleaved transaction protocol, and the downstream stages |
| `VectorMath`, `TopK` | vector functions over exact reals, and the partial selection sort |
| `EntityMerge`, `DuplicateSearch`, `AutoMerge` | merging people, the blocked duplicate search, and merging what it finds |
| `ProductTree` | the recursive hierarchy and ancestor queries |
| `EmailWhitespace`, `EmailReplies`, `QuotedReply` | white space, boilerplate and quoted replies of emails |
| `Migrations`, `MigrationHistory` | the migration runner: failing runs, targets, status; and what any sequence of runs commits |

`GoStrings` holds the Go string functions the others call, defined from their documentation, and
`Wrappers` the result types and a fact on sets.  Concurrent code is a state machine whose steps are what one goroutine
or transaction does without another getting in between; SQL statements are their effect on maps and
sequences of rows.  Token estimators, regular expressions, lower-casing, similarity scores, the
square root, the service behind the embeddings, clocks and failures are parameters of which only
what is stated is assumed.

Where code and documentation part, the model follows the code:

- The comment above `RunMigrations` promises that recorded migrations do not run again; a file named
  ".sql" is tried again and fails (`Migrations.UndisturbedRunSucceeds`, `Migrations.BareNameStopsEveryRun`).
- Of two files of one version the second may never run, though nothing fails
  (`MigrationHistory.HistoryIsPrefixExactly`, `MigrationHistory.SharedVersionLeavesOut`).
- The chunker is documented to keep chunks near 400 tokens; a long sentence stays whole
  (`ChunkSizes.ChunkMayExceed`).
- `DBSink.Flush` is documented as flushing pending entries; entries in the channel stay there, and when
  the loop does not answer within 100 ms `Flush` returns without an error and the batch stays too
  (`LogSink.FlushHandsOverBatchOnly`, with runs in `LogSink.FlushMayLeaveEntries` and
  `LogSink.FlushMayGiveUp`).
- A pair `AutoMergeDuplicates` reports as skipped may have been merged (`AutoMerge.SkippedMayBeMerged`,
  `AutoMerge.MergedAndSkipped`), and what it merges may end at a person it merged away before
  (`AutoMerge.AutoMergeEnds`, `AutoMerge.AutoMergeMayEndAtMerged`).
- `BatchEmbed` reports the text that failed by its place among the texts that were not in the cache, not by
  its place in the batch (`EmbeddingClient.Client.BatchEmbed`).
- A merge of a person with itself drops that person's memberships (`EntityMerge.MergeLosesNothing`,
  `EntityMerge.SelfMergeDrops`).
- Undeleting a source can take the pipeline over its limit (`PipelineGate.UndeleteKeepsBound`,
  `PipelineGate.UndeleteMayExceed`), and a limit lowered while a claim is under way is missed
  (`PipelineGate.LoweredLimitIsMissed`).
- The hierarchy queries need a product on no cycle, which no statement ensures
  (`ProductTree.HierarchyEnds`, `ProductTree.AncestorsEnd`, `ProductTree.OwnParent`); `Set` of the cache
  needs a positive capacity (`MemoryCache.EvictionEnds`).

## Model

| member | source | states |
|---|---|---|
| `Chunker.ChunkContent` | pkg/chunking/chunker.go:31-67 | for the options as the caller gives them, each missing one standing for 400, 50 or a quarter of the length: no chunk for an empty text, the whole text when it fits; otherwise raw chunks that are ordered and disjoint, keep every character but white space in order, each a proper group or piece, and one chunk a raw chunk with the overlap in front |
| `ChunkRuns.DefaultsAre` | pkg/chunking/chunker.go:37-49 | what is given is taken and what is missing has its default, each option by itself |
| `Chunker.ChunkRangesAreOrdered` | pkg/chunking/chunker.go:31-67 | the ranges of the chunks handed out are non-empty, in bounds, increasing and disjoint, with indices from 0 on |
| `ParagraphGroups.BuildChunksWithoutOverlap` | pkg/chunking/chunker.go:75-172 | for every text and estimator the ranges are non-empty, in bounds, increasing and disjoint, the content is conserved, and every chunk is a group that ends only because the next paragraph would not fit, or a piece of a paragraph over its limit |
| `GoStrings.SpacesAre` | pkg/chunking/chunker.go:232-234 | the characters that count as white space, one by one |
| `Chunker.OffsetsAreExact` | pkg/chunking/chunker.go:87-170 | exactly when a raw chunk is `text[start:end]`: a group if and only if it has no empty paragraph inside, or those it has stand before a last paragraph that is a line break; a sentence or byte piece always; a word piece if and only if its words are single spaced |
| `GroupOffsets.GroupExact` | pkg/chunking/chunker.go:87-170 | the text of a group is what stands in its range if and only if no paragraph inside it is empty, or the empty ones all stand right before a last one that is a lone line break |
| `LargeParagraph.SplitLargeParagraph` | pkg/chunking/chunker.go:174-230 | whichever splitter is chosen, the pieces are ordered, lose nothing but white space and meet the promise of that splitter |
| `WordSplit.SplitByWords` | pkg/chunking/chunker.go:232-306 | falls back to bytes exactly for one word over the maximum; otherwise the pieces hold all words in order |
| `WordSplit.LocateWords` | pkg/chunking/chunker.go:240-252 | the search finds the true position of every field |
| `WordSplit.WordFound` | pkg/chunking/chunker.go:244-252 | searching a word from the end of the one before finds the word itself, never an earlier occurrence |
| `WordSplit.GroupWords` | pkg/chunking/chunker.go:254-303 | greedy grouping: every piece is one word or fits, and the next word would take it over |
| `WordSplit.WordPieceExact` | pkg/chunking/chunker.go:254-303 | a word piece equals its range of the paragraph if and only if its words are single spaced there |
| `WordSplit.PieceText` | pkg/chunking/chunker.go:273-283 | a piece is its words with one space between, and exactly when one more stands behind them |
| `CharacterSplit.SplitByCharacters` | pkg/chunking/chunker.go:308-335 | terminates and cuts the paragraph without gap or overlap; each piece fits or is one character, and one character more would not fit |
| `CharacterSplit.FindChunkSize` | pkg/chunking/chunker.go:337-354 | the result is a fitting prefix or 1, one more character does not fit, and for a monotone estimator no longer prefix fits |
| `SentenceSplit.SplitSentences` | pkg/chunking/chunker.go:356-384 | the sentences concatenate to the text and end exactly at the marks the code describes |
| `SentenceSplit.MarksEnd` | pkg/chunking/chunker.go:356-384 | exactly the three marks end a sentence, before a space, a newline or the end |
| `SentenceSplit.GroupSentences` | pkg/chunking/chunker.go:185-226 | sentence pieces cover the paragraph, begin and end at sentence ends, and are as long as the limit lets them be, or one sentence |
| `Chunker.AddOverlapToChunks` | pkg/chunking/chunker.go:386-407 | chunk `i` keeps its range and has the overlap of raw chunk `i-1` in front of its own text |
| `Chunker.ExtractOverlap` | pkg/chunking/chunker.go:409-447 | which sentences, or how many characters, the overlap takes |
| `Chunker.TokensAdd` | pkg/chunking/chunker.go:414-432 | the tokens of the sentences of an overlap are the sum of the tokens of each |
| `Chunker.OverlapIsSuffix` | pkg/chunking/chunker.go:409-447 | every overlap is a suffix of the raw chunk before, and not empty unless that is |
| `ChunkSizes.SizedOverlapFits` | pkg/chunking/chunker.go:437-447 | for an estimator that looks at the length only, the overlap cut by size fits or is one character, and one character more would not fit |
| `ChunkSizes.DefaultIsByLength` | pkg/chunking/chunker.go:45-49 | the default estimator is such an estimator |
| `ChunkSizes.OverlapFits` | pkg/chunking/chunker.go:409-447 | so the overlap fits, or is one character, whenever no sentence ends inside the raw chunk |
| `ChunkSizes.ChunkMayExceed` | pkg/chunking/chunker.go:174-230 | with all defaults a sentence of 1604 characters or more makes a chunk of over 400 tokens |
| `LogSink.SinkConserves` | pkg/logging/sink.go:99-253 | in every interleaving handed batches ++ batch ++ channel are the accepted entries in order, every batch has 1 to `batchSize` entries, and after `Close` everything accepted was handed over |
| `LogSink.AcceptedExactly` | pkg/logging/sink.go:99-114 | over any run the accepted entries are, in order, those whose `Write` found the sink open and room in the channel |
| `LogSink.NothingIsDropped` | pkg/logging/sink.go:99-114 | with no more entries than the channel holds and no `Close`, all entries written are accepted, in order |
| `LogSink.CanHandOverAll` | pkg/logging/sink.go:163-253 | from every state the goroutine alone can hand over everything accepted |
| `LogSink.CloseCanReturn` | pkg/logging/sink.go:146-160 | a `Close` under way can always come to its return |
| `LogSink.FlushStepHandsOver` | pkg/logging/sink.go:166-235 | a tick, a flush request and both flushes around the draining hand over the batch as one |
| `LogSink.FlushCanBeServed` | pkg/logging/sink.go:188-225 | a waiting flush request can be served at both selects |
| `LogSink.TakeStepTakesFirst` | pkg/logging/sink.go:216-223 | the first entry of the channel is taken, and the batch handed over exactly when that fills it |
| `LogSink.StepKeepsInv` | pkg/logging/sink.go:99-253 | every step of producers, `Flush`, `Close` and the loop keeps the conservation invariant |
| `LogSink.NothingAfterClose` | pkg/logging/sink.go:99-107 | a closed sink accepts nothing more, in any continuation |
| `LogSink.FlushHandsOverBatchOnly` | pkg/logging/sink.go:117-143 | for every way `Flush` returns without an error, closed and timed out included: everything accepted was handed over if and only if the channel is empty and, where the loop did not answer within 100 ms, the batch too; a served flush hands over exactly the batch |
| `LogSink.FlushMayLeaveEntries` | pkg/logging/sink.go:117-143 | a run in which `Flush` returns with an accepted entry still in the channel |
| `LogSink.FlushMayGiveUp` | pkg/logging/sink.go:117-143 | a run in which `Flush` returns after 100 ms, the channel empty and the accepted entry still in the batch |
| `LogSink.RankFalls` | pkg/logging/sink.go:219-250 | once `done` is closed no step moves the loop away from its exit and each of its own steps brings it nearer |
| `LogSink.NotStuck` | pkg/logging/sink.go:163-253 | until it has exited the loop always has a step of its own after `done` |
| `LogSink.DrainIsBounded` | pkg/logging/sink.go:146-160 | so in every interleaving `Close` waits for a bounded number of steps |
| `LogSink.DBSink.constructor` | pkg/logging/sink.go:67-95 | with a writer, the sizes and interval given or their defaults, and an empty sink |
| `LogSink.DBSink.Write` | pkg/logging/sink.go:99-114 | an open sink with room in the channel queues the entry, a full or closed one leaves everything as it is; the write step of the state machine |
| `LogSink.DBSink.BeginClose` | pkg/logging/sink.go:146-153 | only the first `Close` goes on |
| `LogSink.DBSink.CloseDoneChannel` | pkg/logging/sink.go:155-155 | the step in which `done` is closed |
| `LogSink.DBSink.DrainAll` | pkg/logging/sink.go:219-250 | the drain loop ends with channel and batch empty and everything handed over in proper batches |
| `LruRuns.LruInclusion` | pkg/embeddings/cache.go:92-201 | after any run the cache of size m is an order-preserving sub-list of the cache of size n >= m with equal values, the gap stays within n-m, and every hit of the small one is a hit of the large one |
| `LruRuns.StepKeepsInclusion` | pkg/embeddings/cache.go:92-201 | every operation keeps the inclusion invariant with its size gap |
| `LruRuns.EntrySurvives` | pkg/embeddings/cache.go:92-173 | an entry just used survives, unchanged, any run that sets or hits fewer than `MaxSize` other keys |
| `LruRuns.HitIsLastSet` | pkg/embeddings/cache.go:92-201 | whatever a `Get` returns after any run is the value of the last `Set` of its key, with no `Delete` or `Clear` since and not older than the TTL: what expired is never returned |
| `LruRuns.SetThenGet` | pkg/embeddings/cache.go:92-162 | a value set at t is read back until t + TTL, that moment included, and not after; without a TTL always |
| `LruRuns.SetStaysUntilExpiry` | pkg/embeddings/cache.go:92-173 | and so after any run that leaves the key alone and sets or hits fewer than `MaxSize` others |
| `LruRuns.HitIsRefreshed` | pkg/embeddings/cache.go:112-116 | an entry that is hit becomes as safe from eviction as one just set, and keeps its value and its expiry |
| `LruRuns.UpdateEvictsNothing` | pkg/embeddings/cache.go:139-143 | a new value for a key that is there evicts nothing |
| `LruRuns.MaxSizeSetsEvict` | pkg/embeddings/cache.go:126-173 | that many is exact: setting `MaxSize` distinct other keys evicts it |
| `LruSpec.RunBounded` | pkg/embeddings/cache.go:92-201 | in every run no key is there twice and the size is at most `MaxSize` |
| `MemoryCache.MemoryCache.Get` | pkg/embeddings/cache.go:92-123 | hit, miss and expiry with counters, move to front, a fresh copy; map and list agree before and after; what a hit is, `SetThenGet` and `HitIsLastSet` say |
| `MemoryCache.MemoryCache.Set` | pkg/embeddings/cache.go:126-162 | update in place or eviction and insertion, as the list specification says |
| `MemoryCache.MemoryCache.EvictOldest` | pkg/embeddings/cache.go:166-173 | the least recently used entry goes from list and map, if there is any |
| `MemoryCache.MemoryCache.Delete` | pkg/embeddings/cache.go:176-188 | the key goes from list and map |
| `MemoryCache.MemoryCache.Clear` | pkg/embeddings/cache.go:191-201 | no entries, counters at zero |
| `MemoryCache.CallerMayWrite` | pkg/embeddings/cache.go:92-162 | after a write anywhere into the array passed in and one anywhere into the array handed out, a `Get` of any key answers as if neither had happened |
| `MemoryCache.WriteOutside` | pkg/embeddings/cache.go:112-132 | a write anywhere into any array that is not the cache's leaves the cache valid and its contents as they are |
| `MemoryCache.EvictionEnds` | pkg/embeddings/cache.go:139-143 | the eviction loop ends if and only if `MaxSize` is at least 1 |
| `MemoryCache.ZeroCapacity` | pkg/embeddings/cache.go:139-143 | with `MaxSize` 0 the loop does not end, on an empty cache either |
| `EmbeddingPool.PoolIsSafe` | pkg/embeddings/client.go:344-405 | in every schedule, cancellation included, at most `maxConcurrency` workers hold a permit, no index reports twice, no send finds the channel full, and an error-free result has the embedding of text i at i |
| `EmbeddingPool.StepKeepsInv` | pkg/embeddings/client.go:344-405 | every step of workers, closer and collector keeps the pool invariant |
| `EmbeddingPool.SendHasRoom` | pkg/embeddings/client.go:346-375 | a worker that has not reported finds room in the results channel |
| `EmbeddingPool.EveryIndexOnce` | pkg/embeddings/client.go:380-390 | when the collector is done every index was received exactly once |
| `EmbeddingPool.ResultIsComplete` | pkg/embeddings/client.go:380-405 | without an error every slot has its own vector, whatever the arrival order; an error is that of the first report that has one, with the index of its text |
| `EmbeddingPool.ReportsHaveCauses` | pkg/embeddings/client.go:344-375 | every report is an answer of the service to that text, or says cancelled and there was a cancellation |
| `EmbeddingPool.NoErrorWithoutCause` | pkg/embeddings/client.go:344-405 | without a cancellation and with no request failing there is no error |
| `EmbeddingPool.AllPermitsAreUsed` | pkg/embeddings/client.go:344-365 | the concurrency limit, 10 unless given, is reached when there are enough texts |
| `EmbeddingPool.RankFalls` | pkg/embeddings/client.go:344-405 | every step brings a run nearer to its end |
| `EmbeddingPool.RunIsBounded` | pkg/embeddings/client.go:344-405 | no run is longer than its rank |
| `EmbeddingPool.NotStuck` | pkg/embeddings/client.go:344-405 | until the collector is done some step other than a cancellation is enabled |
| `EmbeddingClient.Client.Embed` | pkg/embeddings/client.go:91-155 | an empty text is an error; otherwise the text is looked up, a hit is the result, a miss is asked for with retries and stored; every call of the cache and both counters are accounted for, and the cache stays consistent |
| `EmbeddingClient.Client.EmbedSingle` | pkg/embeddings/client.go:158-192 | for any replies and cancellations, the outcome: the first reply that ends the loop decides, and otherwise `MaxRetries + 1` attempts fail with the error of the last |
| `EmbeddingClient.Client.BatchEmbed` | pkg/embeddings/client.go:235-341 | exactly which inputs are refused, and a success is f(trim(texts[i])) at every i for any mix of hits, misses, duplicates and failing or evicting `Set`s; every text is looked up once and every miss stored; an error names the first report that failed by its place among the texts not found |
| `EmbeddingClient.Client.TrimTexts` | pkg/embeddings/client.go:247-255 | the first empty text stops the batch |
| `EmbeddingClient.Client.CheckCache` | pkg/embeddings/client.go:258-283 | every text is looked up once, in order; an index is in the index table beside its text exactly when nothing was found |
| `EmbeddingClient.Client.MergeResults` | pkg/embeddings/client.go:310-330 | merging through the index table fills every slot with its own vector and stores each of them once |
| `EmbeddingClient.Client.BatchEmbedConcurrent` | pkg/embeddings/client.go:344-405 | the pool under any scheduler ends, with all vectors in order or the error of the first report that failed, naming its text |
| `CacheContract.MemoryCacheIsACache` | pkg/embeddings/cache.go:92-188 | the memory cache never makes a value appear that was not set for its key, which is all the client relies on |
| `PipelineGate.GateHolds` | pkg/pipeline/repository.go:319-379 | in every interleaving of claims, failures, outside status changes and changes of limits the sources in flight stay within the largest limit any tenant has on the way |
| `PipelineGate.OwnLimitHolds` | pkg/pipeline/repository.go:319-379 | in every interleaving each commit of a claim leaves the sources in flight within the limit its tenant had in the step in which the claim read it |
| `PipelineGate.OwnLimitStays` | pkg/pipeline/repository.go:319-379 | which is the tenant's limit all the time when nobody changes a limit |
| `PipelineGate.GateIsTight` | pkg/pipeline/repository.go:319-379 | undisturbed claims of as many live sources as the limit has room for all commit |
| `PipelineGate.NextIsRefused` | pkg/pipeline/repository.go:356-358 | and the next one is refused |
| `PipelineGate.RollbackFrees` | pkg/pipeline/repository.go:319-324 | a claim can roll back until it has ended, which frees the lock and changes no source |
| `PipelineGate.StatementsDo` | pkg/pipeline/repository.go:256-412 | what each statement outside the gate does to each source |
| `PipelineGate.LimitWasRead` | pkg/pipeline/repository.go:334-349 | a claim holds a limit only by having read it from the table in some step |
| `PipelineGate.LoweredLimitIsMissed` | pkg/pipeline/repository.go:334-379 | a limit lowered after it was read does not stop the claim: one source in flight under a limit of 0 |
| `PipelineGate.StartIsSafe` | pkg/pipeline/repository.go:319-379 | any rows within the bound and no open claim are a safe start |
| `PipelineGate.StepKeepsInv` | pkg/pipeline/repository.go:319-379 | what a claim has read under the advisory lock stays true until it commits |
| `PipelineGate.OutsideOnlyShrinks` | pkg/pipeline/repository.go:256-313 | no statement outside the gate adds a source in flight |
| `PipelineGate.UndeleteKeepsBound` | pkg/pipeline/repository.go:393-412 | undeleting keeps the bound if and only if the source is not `processing` or there is room |
| `PipelineGate.AnyStatusKeepsBound` | services/worker/activities/source_repo.go:98-138 | the worker writing a status keeps the bound if and only if it adds no source in flight or there is room |
| `PipelineGate.UndeleteMayExceed` | pkg/pipeline/repository.go:393-412 | rows for which undeleting breaks a limit of 1 |
| `PipelineGate.SoloClaim` | pkg/pipeline/repository.go:319-379 | the steps of an undisturbed claim come to the rows the method leaves |
| `PipelineGate.Repository.ClaimReprocessSlot` | pkg/pipeline/repository.go:319-379 | for every statement that may fail, the whole outcome read off the row of the tenant and the sources that are `processing` and not deleted: which answer with which numbers, and that only a commit that is done changes a source |
| `PipelineGate.Repository.ResetSourceStatus` | pkg/pipeline/repository.go:295-312 | back to pending unless missing or deleted; never more in flight |
| `PipelineGate.Repository.RetryFailedItems` | pkg/pipeline/repository.go:256-271 | exactly the failed sources of the job that are not deleted become pending, the number reported is the number changed, none in flight is touched |
| `PipelineGate.Repository.UndeleteSource` | pkg/pipeline/repository.go:393-412 | only a deleted source comes back, with its old status |
| `StageClosure.DownstreamIsReachable` | pkg/pipeline/repository.go:761-798 | the recursive query returns exactly the stages reached by one or more edges, on cyclic graphs too |
| `VectorMath.CauchySchwarz` | pkg/embeddings/normalize.go:69-93 | the square of the scalar product is at most the product of the squared lengths, for every length |
| `VectorMath.CosineBound` | pkg/embeddings/normalize.go:69-93 | the cosine of any two vectors lies in [-1, 1] |
| `VectorMath.CosineSelf` | pkg/embeddings/normalize.go:69-93 | a vector that is not zero has cosine 1 with itself |
| `VectorMath.CosineSymmetric` | pkg/embeddings/normalize.go:69-93 | the cosine does not depend on the order |
| `VectorMath.NormalizedDotIsCosine` | pkg/embeddings/normalize.go:12-109 | the scalar product of normalized vectors is the cosine, for zero vectors and unequal lengths too |
| `VectorMath.NormalizedIsUnit` | pkg/embeddings/normalize.go:12-29 | a normalized vector has length 1 unless it is zero |
| `VectorMath.NormalizedScales` | pkg/embeddings/normalize.go:12-29 | the length times the normalized vector is the vector, entry by entry |
| `VectorMath.Normalize` | pkg/embeddings/normalize.go:12-29 | the loop computes the normalized vector |
| `VectorMath.Magnitude` | pkg/embeddings/normalize.go:51-62 | the loop computes the length |
| `VectorMath.CosineSimilarity` | pkg/embeddings/normalize.go:69-93 | the accumulator loop computes the cosine, within [-1, 1], 0 for unequal lengths and zero vectors |
| `VectorMath.DotProduct` | pkg/embeddings/normalize.go:98-109 | the loop computes the scalar product, 0 for unequal lengths |
| `VectorMath.CosineDistance` | pkg/embeddings/normalize.go:144-146 | lies in [0, 2] |
| `TopK.FindTopK` | pkg/embeddings/normalize.go:230-263 | min(k, n) distinct indices with their true scores in descending order, and nothing left out scores higher than anything returned |
| `TopK.TopKScoresAgree` | pkg/embeddings/normalize.go:230-263 | these properties determine the list: any two such lists carry the same scores |
| `EntityMerge.RunIsRelabelling` | pkg/relationships/repository.go:1140-1188 | after any run of merges each person is in exactly the groups of the people whose label it is, with a role, and the team if any, one of them had |
| `EntityMerge.RunLosesNothing` | pkg/relationships/repository.go:1140-1188 | without self-merges every membership is found under the label of its person |
| `EntityMerge.MergeLosesNothing` | pkg/relationships/repository.go:1140-1188 | one merge loses no membership if and only if it is of two people or the one had none |
| `EntityMerge.SelfMergeDrops` | pkg/relationships/repository.go:1140-1188 | a person merged with itself loses the membership it had |
| `EntityMerge.AliasesAreConserved` | pkg/relationships/repository.go:1167-1173 | no run loses, adds or changes an alias; each belongs to the label of its person |
| `EntityMerge.LabelsAgree` | pkg/relationships/repository.go:1140-1188 | without self-merges memberships and aliases end at the same person |
| `EntityMerge.VacatedIsUnlabelled` | pkg/relationships/repository.go:1140-1188 | the people of whom nothing is left, computed from the steps, are exactly those nobody is labelled with |
| `EntityMerge.EndsExactly` | pkg/relationships/repository.go:1140-1188 | everything ends at people never merged away if and only if everyone merged is vacated in the end |
| `EntityMerge.NoMergedPrimaryIsEnough` | pkg/relationships/repository.go:1140-1188 | which is so if no step merges into somebody merged before |
| `EntityMerge.MembershipsEndWithTheUnmerged` | pkg/relationships/repository.go:1140-1188 | then no membership is left with a person merged away |
| `EntityMerge.MergedPersonMayReceive` | pkg/relationships/repository.go:1140-1188 | merging 2 into 1 and then 3 into 2 leaves the groups of 3 with 2 |
| `EntityMerge.PeopleAreOnlyMarked` | pkg/relationships/repository.go:1187-1194 | a run deletes nobody and only extends names of merged people of its tenant |
| `EntityMerge.MergedAreMarked` | pkg/relationships/repository.go:1187-1194 | after a run a person of the tenant has one mark in its name for each merge of it, in order, and is no longer up for review if there is any |
| `EntityMerge.MovingSize` | pkg/relationships/repository.go:1148-1164 | the rows the UPDATE reports are the groups only the merged person is in |
| `EntityMerge.TransferredRows` | pkg/relationships/repository.go:1148-1164 | the number reported is that of the rows of the merged person for teams and projects the other is not in |
| `EntityMerge.Repository.MergeEntities` | pkg/relationships/repository.go:1123-1211 | the id errors in their order; nothing changes on a failed transaction; otherwise all four tables after the merge and the transferred count, and an error after the commit leaves the merge done |
| `EntityMerge.KindDecides` | pkg/relationships/repository.go:1124-1138 | an id names a person exactly when its second part is `person`, whatever the first is |
| `EntityMerge.PartsDecide` | pkg/relationships/repository.go:1124-1138 | fewer than three parts are no id, and what follows the third is not looked at |
| `EntityMerge.Repository.RecordMerge` | pkg/relationships/repository.go:1622-1642 | one row more in the merge log, or none on an error |
| `AutoMerge.AutoMergeDuplicates` | pkg/relationships/repository.go:1559-1619 | below 0.90 an error, a dry run changes nothing, otherwise the tables are those of the run of merges of the pairs found, and the merge log has their records |
| `AutoMerge.MergePairs` | pkg/relationships/repository.go:1585-1616 | the loop: the tables after the committed merges, the records written, and the two lists of pairs |
| `AutoMerge.AutoMergeLosesNothing` | pkg/relationships/repository.go:1585-1616 | merging what the search found among the entities of distinct people loses no membership, whatever fails on the way |
| `AutoMerge.EntitiesAreDistinct` | pkg/relationships/repository.go:515-545 | ids written as "ent-person-" and a number are distinct, have no colon, and two of them name two people |
| `AutoMerge.DecimalDigits` | pkg/relationships/repository.go:528-528 | the number in an id is written in decimal, digit by digit |
| `AutoMerge.AutoMergeEnds` | pkg/relationships/repository.go:1585-1616 | everything ends at people never merged away if and only if each person merged is vacated in the end, and that is so if no pair is merged into the second person of an earlier one |
| `AutoMerge.AutoMergeEndsWithTheUnmerged` | pkg/relationships/repository.go:1585-1616 | under that condition on the pairs found no membership is left with a person merged away, whatever fails on the way |
| `AutoMerge.AutoMergeMayEndAtMerged` | pkg/relationships/repository.go:1585-1616 | the search may find the pairs (1, 2) and (2, 3), and merging them leaves the groups of 3 with 2, who was merged away |
| `AutoMerge.SearchFindsChain` | pkg/relationships/repository.go:1217-1323 | that pair list is a search result for three people of one domain whose first and last are not alike |
| `AutoMerge.LogIsTheReport` | pkg/relationships/repository.go:1606-1615 | the records are those of the pairs reported as merged, in order, if and only if no record failed |
| `AutoMerge.ReportsConserve` | pkg/relationships/repository.go:1585-1616 | every pair is reported once, as merged or skipped |
| `AutoMerge.SkippedMayBeMerged` | pkg/relationships/repository.go:1595-1604 | more pairs are merged than are reported if and only if a merge failed after its commit |
| `AutoMerge.MergedAndSkipped` | pkg/relationships/repository.go:1595-1604 | one pair whose merge fails after its commit is merged and reported as skipped |
| `DuplicateSearch.FindDuplicateEntities` | pkg/relationships/repository.go:1217-1323 | before truncation exactly the pairs of the all-pairs definition, each once and with its similarity and signals, whatever the order of map iteration; the first hundred are returned |
| `DuplicateSearch.CompareBlocks` | pkg/relationships/repository.go:1259-1314 | the loops over one map of blocks have compared exactly the pairs that share a key |
| `DuplicateSearch.CompareBlock` | pkg/relationships/repository.go:1261-1285 | the inner loops add exactly the pairs of the block |
| `DuplicateSearch.BlockByName` | pkg/relationships/repository.go:1237-1244 | every name block holds the entities of its key, in order |
| `DuplicateSearch.BlockByDomain` | pkg/relationships/repository.go:1247-1256 | every domain block holds the entities of its key, in order |
| `DuplicateSearch.BlockPairs` | pkg/relationships/repository.go:1235-1256 | the pairs of a block are the ordered pairs of the list with its key |
| `DuplicateSearch.FirstLetterDecides` | pkg/relationships/repository.go:1237-1244 | names share a block by their first letter alone, lower-cased |
| `DuplicateSearch.DomainDecides` | pkg/relationships/repository.go:1247-1256 | addresses share a block by what stands behind their only `@`, lower-cased |
| `DuplicateSearch.KeyIsInjective` | pkg/relationships/repository.go:1266-1270 | the pair key tells pairs apart |
| `DuplicateSearch.SearchIsComplete` | pkg/relationships/repository.go:1258-1315 | both passes together give the all-pairs answer |
| `ProductTree.GetHierarchy` | pkg/products/repository.go:321-370 | every descendant once, with its distance and path, ordered by distance and then by name |
| `ProductTree.LevelIs` | pkg/products/repository.go:326-346 | the working table after d joins is exactly the descendants at distance d |
| `ProductTree.HierarchyEnds` | pkg/products/repository.go:321-370 | the recursive query ends if and only if the product is on no cycle |
| `ProductTree.OwnParent` | pkg/products/repository.go:321-370 | the hierarchy query of a product that is its own parent does not end |
| `ProductTree.GetAncestors` | pkg/products/repository.go:373-413 | the evaluated query gives exactly the ancestors, root first, by distance |
| `ProductTree.AncestorLevelIs` | pkg/products/repository.go:381-401 | its working table after d joins is the product d steps up, or empty |
| `ProductTree.AncestorsEnd` | pkg/products/repository.go:373-413 | the working table of that query is empty at some time if and only if the way up meets no cycle |
| `ProductTree.OwnAncestor` | pkg/products/repository.go:373-413 | the ancestors query of a product that is its own parent does not end |
| `ProductTree.HierarchyAndAncestors` | pkg/products/repository.go:321-413 | y is in the hierarchy of x if and only if x is y or an ancestor of y |
| `EmailWhitespace.NormalizeWhitespace` | pkg/parse/email.go:253-271 | terminates and equals one pass that makes every gap one blank, one or two line breaks; the result is clean and keeps every other character |
| `EmailWhitespace.FixedExactlyWhenClean` | pkg/parse/email.go:253-271 | a text comes back unchanged if and only if it is clean, so the function is idempotent |
| `EmailWhitespace.CanonicalIsClean` | pkg/parse/email.go:253-271 | the pass leaves no CR, tab, double blank, blank at a line end or triple line break |
| `EmailWhitespace.LineEndsInTwoPasses` | pkg/parse/email.go:255-256 | the two replacements make one line end of CR LF, CR and LF each |
| `EmailWhitespace.TidiedText` | pkg/parse/email.go:259-263 | splitting lines, joining their fields and joining the lines agrees with the pass |
| `EmailWhitespace.CollapseIsSame` | pkg/parse/email.go:266-268 | shortening runs of line breaks agrees with the pass |
| `EmailReplies.StripConferencingBoilerplate` | pkg/parse/email.go:229-250 | exactly the lines before the first marker line, right-trimmed, or the text as it is |
| `EmailReplies.MatchesOne` | pkg/parse/email.go:229-250 | a line is a marker exactly when one of the patterns matches it |
| `EmailReplies.StrippedIsFinal` | pkg/parse/email.go:229-250 | what is kept holds no marker line, so stripping is idempotent |
| `EmailReplies.StrippedKeepsCharacters` | pkg/parse/email.go:229-250 | of the lines kept no character but white space is lost |
| `QuotedReply.SeparateQuotedReply` | pkg/parse/email.go:281-393 | splits at the first place where a reply may begin, and only if there is one |
| `QuotedReply.SplitRules` | pkg/parse/email.go:304-372 | a forward marker is no split, and one of four rules makes one |
| `QuotedReply.FiveLinesAhead` | pkg/parse/email.go:336-353 | behind a From line exactly the next five lines are searched for Sent or Date |
| `QuotedReply.NoBlockWhen` | pkg/parse/email.go:336-353 | without a From line, or behind a forward marker, there is no such block |
| `QuotedReply.SixRuns` | pkg/parse/email.go:356-372 | the six ways in which a quoted line and the four behind it make a run of three |
| `QuotedReply.RunIsCounted` | pkg/parse/email.go:356-372 | the counting look-ahead finds three quoted lines if and only if there are three with only quoted and empty lines between |
| `QuotedReply.SeparationKeepsCharacters` | pkg/parse/email.go:375-392 | nothing but white space is lost, and of quoted lines only the marks they begin with |
| `QuotedReply.NewContentIsFinal` | pkg/parse/email.go:281-393 | the new content has no place left where a reply may begin |
| `QuotedReply.CleanAngleBracketQuoting` | pkg/parse/email.go:396-408 | every line loses exactly its leading quote marks and surrounding blanks |
| `QuotedReply.CleaningKeepsCharacters` | pkg/parse/email.go:396-408 | cleaning keeps all characters but those quote marks |
| `QuotedReply.CleaningIsFinal` | pkg/parse/email.go:396-408 | cleaning is idempotent |
| `QuotedReply.CleanLine` | pkg/parse/email.go:398-405 | the loop on one line |
| `MigrationHistory.HistoryIsPrefix` | pkg/db/migrations.go:46-156 | without a gap in the list, after any sequence of full and to-target runs that fail anywhere, what was committed is a prefix of the version order, in that order, and how long it is |
| `MigrationHistory.HistoryIsPrefixExactly` | pkg/db/migrations.go:46-156 | every history is a prefix if and only if the list has no gap: no version, with no ".sql" up to its first file, shared by a later file that one of a new version follows |
| `MigrationHistory.GappedWhenSorted` | pkg/db/migrations.go:170-204 | sorted by version, a list has a gap if and only if a version other than the last is shared and no ".sql" stands first |
| `MigrationHistory.AtMostOneWay` | pkg/db/migrations.go:199-201 | any two versions compare |
| `MigrationHistory.SharedVersionLeavesOut` | pkg/db/migrations.go:46-156 | of two files of one version and one of another, a run to the first and a full run commit the first and the third for good, with nothing failing |
| `MigrationHistory.SharedVersionExists` | pkg/db/migrations.go:170-204 | "1.SQL", "1.sql" and "2.sql" are such a list |
| `MigrationHistory.CommitsOnce` | pkg/db/migrations.go:46-156 | no file commits twice in any history, one named ".sql" and files of one version included |
| `MigrationHistory.TargetThenFull` | pkg/db/migrations.go:46-156 | with distinct versions, a run to a target and then a full run commit what the full run alone commits if and only if the first gets no further than the second would; a ".sql" recorded before makes them equal, and one the first run records needs both to get equally far |
| `MigrationHistory.TargetsAreHarmlessExactly` | pkg/db/migrations.go:96-156 | with nothing failing, a run to a target beforehand never matters if and only if no version is shared and no ".sql" stands before another file |
| `MigrationHistory.RunExtendsPrefix` | pkg/db/migrations.go:66-90 | a run from a prefix commits exactly the next files up to the first failure or the first file of a recorded version, and none when a ".sql" is recorded |
| `Migrations.RecordedNameCounts` | pkg/db/migrations.go:185-214 | a recorded file name is read back as the version of its file if and only if it is longer than ".sql" |
| `Migrations.UndisturbedRunSucceeds` | pkg/db/migrations.go:46-91 | a run that nothing disturbs gets through if and only if no file named ".sql" was recorded, or a row with the empty version is there |
| `Migrations.BareNameStopsEveryRun` | pkg/db/migrations.go:46-91 | a file named ".sql" is committed once and stops every later run |
| `Migrations.SameVersionIsShadowed` | pkg/db/migrations.go:46-91 | once a file is recorded, no other file of its version is tried |
| `Migrations.SuccessLeavesNothingPending` | pkg/db/migrations.go:46-91 | after a successful full run a file is pending if and only if it is named ".sql" and there is no row with an empty version |
| `Migrations.StatusPartitions` | pkg/db/migrations.go:372-388 | every file is in exactly one of applied and pending |
| `Migrations.StatusKeepsOrder` | pkg/db/migrations.go:372-388 | and both lists keep the order of the files |
| `Migrations.Database.ApplyMigration` | pkg/db/migrations.go:260-298 | the row is there if and only if the file can be read, has text, its part before the Down marker executes and there is no such row yet; otherwise nothing changes |
| `Migrations.DownIsCut` | pkg/db/migrations.go:272-275 | what follows the Down marker decides nothing but whether the file is empty |
| `Migrations.NoDownRunsAll` | pkg/db/migrations.go:272-275 | a file without a Down marker is executed as it stands |
| `Migrations.Database.GetAppliedMigrations` | pkg/db/migrations.go:217-235 | the normalized recorded versions |
| `Migrations.Database.GetAppliedMigrationsWithTimestamps` | pkg/db/migrations.go:238-257 | the same versions, each with the time of one of its rows |
| `Migrations.Database.RunMigrations` | pkg/db/migrations.go:46-91 | what is committed, applied, skipped and reported, up to the first failure |
| `Migrations.Database.RunMigrationsToTarget` | pkg/db/migrations.go:96-156 | an empty list, an unknown target, and otherwise the run up to the target |
| `Migrations.Database.GetPendingMigrations` | pkg/db/migrations.go:301-329 | the files that do not count as applied, in order |
| `Migrations.Database.GetMigrationStatus` | pkg/db/migrations.go:336-402 | applied and pending files in order with their times, and as drift every applied version without a file, once |

## Left out

- Strings are sequences of characters, and offsets count characters: for text outside ASCII the source counts bytes and may cut inside a character.
- A bound on the tokens of every chunk text: `ChunkMayExceed` shows one over the maximum; besides, a first piece of a large paragraph may use the full limit and then get an overlap, and the word splitter appends a space after its check.
- The size of the overlap for other estimators than those of `OverlapFits`: the source measures a prefix of the text and takes a suffix of that length, which such an estimator may give more tokens.
- Token estimators that panic or do not answer alike for the same string.
- MemoryCache.MemoryCache.Set: the key is the text itself, because the hash of the source is taken as injective; a capacity below 1 is left to `EvictionEnds`, because the source does not return there.
- LogSink.DBSink.constructor: the panic on a writer that is nil is the type of the parameter; the interval is kept but a tick may come at any time.
- LogSink.DBSink.Write: the 100 ms timeout of `Flush` is a step that may happen at any time, and what the writer does with a batch is not modelled, because a failed batch is dropped like a written one.
- EmbeddingClient.Client.EmbedSingle: the length of the pauses between retries; that the context ends in one is part of the script.
- EmbeddingPool.PoolIsSafe: the caller is modelled with channels and a semaphore as counters; the Go memory model and the scheduler's fairness are not part of this model.
- TopK.FindTopK: which of two indices with equal scores comes first.
- VectorMath.CosineSimilarity: rounding of floats, overflow and NaN, because the model computes with exact reals.
- PipelineGate.GateHolds: a limit is per tenant while the count is over all tenants, so the bound at every moment is the largest limit, and `OwnLimitHolds` gives the claim's own limit; that `processing` is written through the gate only is an assumption: the worker and the ingest store have statements that write the status their caller names, and `AnyStatusKeepsBound` says exactly when such a write is harmless; one `processing` source must not be undeleted, and the exact condition is `UndeleteKeepsBound`.
- PipelineGate.Repository.RetryFailedItems: the `stage` parameter, because the query does not use it.
- ProductTree.GetHierarchy: the columns the query copies; how the database compares names is a parameter, any total order.
- EntityMerge.Repository.MergeEntities: rows of `project_members` that name no person, because the statements find rows by person; the entity read back after the commit, of which only the failure is modelled.
- DuplicateSearch.FindDuplicateEntities: the thousand entities the list query returns at most are the input; ids are distinct and hold no colon, which `EntitiesAreDistinct` derives from the form the repository gives them; similarity and signals are a parameter.
- EmailReplies.StripConferencingBoilerplate: the regular expressions are arbitrary predicates on trimmed lines, and so in `QuotedReply`; of them `NewContentIsFinal` assumes only that three do not match an empty line.
- Migrations.Database.RunMigrations: the directory listing and its sort are the input, as a list of files with distinct names; `applied_at` comes from a parameter; a commit that fails after taking effect.
- MigrationHistory.TargetThenFull: lists with shared versions, where the equality fails even with nothing failing; `TargetsAreHarmlessExactly` says for which lists it never does.
- Migrations.Database.ApplyMigration: a migration file with its own `COMMIT`, as 46 of the 175 in the repository have: its effects are then committed before the row is inserted, and stay without a row when the insertion fails.
- GetMergePreview, KickPendingProcessing, the product create, update and alias methods, the other list queries and the Redis cache.
- Database drivers, gRPC, HTTP, tracing, logging calls, JSON and UUIDs.
- pkg/langfuse, pkg/contentid, pkg/reviewqueue, pkg/health, pkg/graph, pkg/auth, pkg/config, pkg/metrics and the transcript parser.
