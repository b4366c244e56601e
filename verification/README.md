# Verified model of tellodb's self-contained algorithms

tellodb is a temporal memory engine: it stores memories per entity, embeds their text, and answers queries by vector
search, graph expansion and rank fusion. SQL, models and HTTP surround a core of algorithms that make hard promises.
This Dafny project models that core and proves the promises, for all inputs, all runs and all interleavings.

`dafny verify dfyconfig.toml` checks everything. One module stands for one source component:

| module | component |
|---|---|
| `Kernels`, `BitWords` | dot product, sign packing and i8 quantization, against their plain definitions |
| `Formats` | normalization and the four storage formats: how far each one's similarity is from the true one |
| `TopK` | what "the k nearest" means; selection, cut and merge |
| `FlatSegments` | one entity's vectors: ids, positions and a row-major code buffer kept in step |
| `VectorIndexes` | the lazily loaded cache of segments over a source of vectors, and search over it |
| `SlotProtocol` | the same cache under any interleaving of readers, loaders and writers |
| `Permits` | the compute semaphore as steps of any number of threads |
| `Embedding`, `Reranking` | batched embedding behind a persistent cache; chunked reranking behind an answer cache |
| `RateLimiting` | token buckets with idle buckets pruned, against a rule without tokens |
| `GraphExpansion`, `GraphScores` | memoised multi-seed graph expansion, against paths; deterministic score folding |
| `RankFusion` | reciprocal rank fusion |
| `Widening`, `ScopedSearch` | the scoped search that widens; what it may assume of the search it widens |
| `Spans`, `Holm` | flat span tagging; Holm correction and ablation verdicts |
| `Calendar` | civil dates, day numbers and time windows |
| `MemoryIds` | escaping, rendering, parsing and derivation of memory ids |
| `PlatformWriter`, `RecencyLists` | the write-behind platform state and its bounded recency lists |
| `Ordering`, `Collections`, `Wrappers` | stable sorting; minimum, subsets and sums; optional values and results |

Objects that the source updates in place are classes, loops over local state are methods with invariants, and
expressions are functions. Protocols are state machines whose events are the critical sections of the source. Each
method is proved equal to a specification function or predicate, and lemmas prove what that specification promises.
Hash-map iteration and unstable selection are left nondeterministic, so results hold for every order.

A specification that follows the code step by step has a second account that does not, and both are proved to agree:

- A format's similarity is the cosine similarity (for signs, the share of signs that agree minus the share that do not)
  up to a tolerance that the lemma states. So a scan misses the most similar vectors by no more than its tolerances and,
  unless only signs are kept or nothing is rescored, a search by no more than twice their bound
  (`Formats.EstimateIsNear`, `FlatSegments.FlatSegment.Scan`, `VectorIndexes.SearchIsNearest`).
- A call gets through the rate limiter exactly when, over every stretch that ends with it, its key's admitted calls stay
  within the burst and what refills in that stretch, unless a call carries an earlier instant than a pruning before it
  (`RateLimiting.AnswerIff`).
- A memory's graph score is the sum, over the levels, of the decayed weights of the edges that lead to it from the nodes
  that a path of that many edges reaches, each once (`GraphExpansion.WalkIsTotal`).
- When the widening search ends is stated over its passes alone (`Widening.StopsIff`), what a memory id reads as over
  its parts alone (`MemoryIds.ShortReads`, `MemoryIds.LongReads`), a fused score as a sum of reciprocal ranks
  (`RankFusion.FusedIsReciprocals`), usage counters as numbers of calls (`PlatformWriter.UsageIsCounted`).

Where the code does less than it seems to promise, the model keeps the code and states exactly when the promise holds:

- An insert leaves the vector cache coherent exactly when no inserted id is held by another loaded entity
  (`VectorIndexes.VectorIndex.InsertBatch`).
- Writers may overlap: a mutation begun while another is in flight is harmless in every run exactly when it leaves the
  ids that the first has still to write to a slot as the first left them (`SlotProtocol.OverlapIsSafeIff`). Writes of
  different ids do. Overwriting, removing or inserting elsewhere what an insert in flight has written, inserting what a
  remove in flight has removed, or clearing under an insert can leave a slot wrong for good
  (`SlotProtocol.ClashBreaksCoherence`). With inserts that take ids from other entities included, the step that begins
  a mutation keeps the cache right exactly under the stated conditions (`SlotProtocol.BeginKeepsInvIff`).
- `dot_f32` is the zipped dot product exactly for lengths whose remainders line up (`Kernels.DotF32AgreesIffAligned`).
- A cached rerank answer is right for every scorer exactly when the candidates come in the order it was computed in
  (`Reranking.CachedAnswerIsRightIff`); two calls that get it wrong are in `Reranking.AskSwapped`.
- The limiter reads the clock before it takes the lock, so instants may arrive out of order. Dropping refilled buckets
  cannot be observed exactly when each dropped bucket whose key calls again is refilled by that call's own instant
  (`RateLimiting.PruningIsUnobservableIff`), as it is unless a call carries an earlier instant than a pruning before it.
  One such call gets through without a token in `RateLimiting.EarlyReturnIsObserved`.
- The widening search loses ids that first show up while a lookup fails, because they already count as seen
  (`Widening.HitsMatchFinalSearchIff`, and a run that does in `Widening.LoseToFailedLookup`). Full-precision search of a
  flat segment grows with its width as that needs (`ScopedSearch.ExactSearchGrows`); rescored quantized search need not,
  and can lose all it found (`ScopedSearch.WiderSearchLoses`).
- A built memory id parses back to itself exactly when its tags are of the kind their own text would be read as. The ids
  of synthetic summaries in `src/query/respond.rs:214-216` are not such ids (`MemoryIds.SyntheticFactDoesNotRoundTrip`).
- `epoch_ms_from_ymd` accepts the 31st of a shorter month; the instant then reads back as a date of the next month
  (`Calendar.EpochRoundTripIff`). The two day-number formulas of the repository agree from March of year -4800 on
  (`Calendar.JulianFormAgreesIff`).

Scores are reals. Where a result does not depend on exact arithmetic, it is stated for an arbitrary addition:
`GraphExpansion` except the sums that scores are, `GraphScores`, and all of `RankFusion` except the order of lanes,
reciprocal ranks and dominance.

## Model

| member | source | states |
|---|---|---|
| Kernels.DotF32 | src/vector_index.rs:237-249 | eight accumulators and a tail give the plain dot product of equally long vectors |
| Kernels.ChunkedDotIsDot | src/vector_index.rs:237-249 | chunks plus remainder add up to the dot product for every dimension |
| Kernels.DotF32AgreesIffAligned | src/vector_index.rs:237-249 | for slices of different lengths the kernel is the zipped dot product for all contents iff the remainders line up |
| Kernels.MisalignedWitness | src/vector_index.rs:237-249 | concrete vectors of any misaligned lengths whose only product is lost |
| Kernels.SignBits | src/vector_index.rs:264-272 | setting bits in place gives the packing of all signs |
| Kernels.SignWordsPack | src/vector_index.rs:264-272 | one bit per component, zero padding, every word within 64 bits |
| Kernels.PackingIsUnique | src/vector_index.rs:264-272 | only one word sequence packs the signs of a vector |
| Kernels.HammingDistance | src/vector_index.rs:402-406 | the word loop computes the packed distance |
| Kernels.HammingCountsSignDisagreements | src/vector_index.rs:396-411 | XOR and popcount over packed words count exactly the components that disagree in sign, padding included |
| Kernels.BinaryEstimateIsAgreement | src/vector_index.rs:403-408 | the binary similarity is (agreeing - differing) / dims and lies in [-1, 1] |
| Kernels.QuantizedWithin | src/vector_index.rs:255-262 | codes times scale reproduce each component within half a step; nothing is clamped |
| Kernels.LargestCodeIsFull | src/vector_index.rs:255-262 | the largest components are coded as 127 or -127, so the whole range of codes is used |
| Kernels.RoundIsNearest | src/vector_index.rs:261 | rounding goes to the nearest integer, halves away from zero |
| Kernels.QuantizedDotError | src/vector_index.rs:251-262 | the i8 estimate differs from the real dot product by at most the sum of the products' rounding errors |
| Kernels.I8DotNeverOverflowsIff | src/vector_index.rs:251-253 | every partial i32 sum is exact for all codes iff the dimension is at most 133144 |
| Formats.NormalizedIsUnit | src/vector_index.rs:226-233 | a vector whose length is computed exactly, and is not negligible, is divided by it and becomes a unit vector |
| Formats.SimilarityIsCosine | src/vector_index.rs:226-233 | the dot product of two normalized vectors, times both lengths, is their plain dot product |
| Formats.EstimateIsNear | src/vector_index.rs:371-412 | the similarity of every format is the cosine similarity up to its tolerance: exact in full precision, rounding per component in half precision and i8; with signs only it is exactly the share agreeing minus the share differing |
| Formats.HalfTolerance | src/vector_index.rs:380-391 | if half precision moves no component by more than e, the estimate is within e times the sum of the query's absolute components |
| BitWords.BitXor | src/vector_index.rs:403-406 | a bit of the XOR is set iff the two bits differ |
| BitWords.PopCountIsBitsBelow | src/vector_index.rs:403-406 | counting ones by halving counts the set bits |
| BitWords.WordOrFits | src/vector_index.rs:264-272 | setting a bit keeps a word within 64 bits |
| Ordering.SortPermutes | src/vector_index.rs:682-685 | sorting keeps exactly the elements |
| Ordering.SortSorts | src/vector_index.rs:682-685 | sorting by a total preorder sorts |
| Ordering.SortIsCanonical | src/vector_index.rs:414-422 | under a total order the result depends on the elements only, so an unstable sort gives the same |
| Ordering.SortIsStable | src/vector_index.rs:682-685 | elements that rank alike keep their order |
| Ordering.LexIff | src/retrieval/mod.rs:21-23 | a string comes before another iff it is a prefix of it or smaller at the first difference |
| Ordering.LexIsTotalOrder | src/retrieval/mod.rs:21-23 | string comparison is a total order |
| TopK.TakeBest | src/vector_index.rs:413-422 | partial selection, truncation and sorting give the first k of the full sort, whichever arrangement the selection leaves |
| TopK.SelectThenSort | src/vector_index.rs:417-422 | any arrangement with the k best in front, cut and sorted, is the cut of the full sort |
| TopK.TopKSimilaritiesAreUnique | src/vector_index.rs:414-422 | two answers to the same top-k question have the same similarity sequence; only ids tied at the cut may differ |
| TopK.CoversConcat | src/vector_index.rs:672-684 | merging per-segment candidate lists of disjoint entities loses none of the k best overall |
| TopK.SortedHits | src/vector_index.rs:414-422 | a sorted list without repeated ids puts the more similar hit first and, of equally similar ones, the smaller id |
| TopK.NearTopKShortlists | src/vector_index.rs:413-422 | the k best by estimates leave an entry out only when they list k others that it does not outdo by more than the tolerances |
| TopK.BestOfShortlist | src/vector_index.rs:671-686 | the truly best of such a shortlist are the best of all up to twice any bound on the tolerances |
| TopK.CutIsTopK | src/vector_index.rs:682-686 | sorting and truncating such candidates answers the top-k question |
| TopK.CompleteCovers | src/vector_index.rs:672-684 | a list of everything covers every top-k question |
| FlatSegments.FlatSegment.constructor | src/vector_index.rs:290-298 | a new segment is valid and holds nothing |
| FlatSegments.FlatSegment.Upsert | src/vector_index.rs:304-341 | the id maps to the vector's code and no other id's code changes, in all four formats |
| FlatSegments.FlatSegment.AppendSlot | src/vector_index.rs:311-324 | a new last row leaves every other row as it was |
| FlatSegments.FlatSegment.WriteCode | src/vector_index.rs:325-340 | one row is overwritten and no other |
| FlatSegments.FlatSegment.Remove | src/vector_index.rs:343-364 | the id is gone, no other id's code changes, ids and positions stay inverse; reports whether it was there |
| FlatSegments.SwapRow | src/vector_index.rs:26-31 | the last row moves into the hole and every other row stays |
| FlatSegments.ContentsAfterRemove | src/vector_index.rs:343-364 | swap-remove of ids, positions and rows together is removal from the map they represent |
| FlatSegments.FlatSegment.ScoreRows | src/vector_index.rs:371-412 | every row gets its format's estimate, computed by the fast kernels; what the estimates are worth is `Formats.EstimateIsNear` |
| FlatSegments.FlatSegment.BestRows | src/vector_index.rs:413-422 | the selected rows are the first k of all rows sorted, a top-k answer over rows |
| FlatSegments.FlatSegment.Scan | src/vector_index.rs:367-424 | the k best rows, ties by row, under the ids they hold, a top-k answer over the estimates; and of whatever vectors the codes stand for the k most similar: each hit within the format's tolerance of its cosine similarity, nothing left out that is better than a hit by more than its own tolerance |
| FlatSegments.FlatSegment.BestInRowOrder | src/vector_index.rs:414-422 | of two hits the first is more similar, or as similar and in an earlier row |
| VectorIndexes.MemorySource.EntityVectors | src/vector_index.rs:57-66 | lists an entity's map, by id |
| VectorIndexes.MemorySource.Entities | src/vector_index.rs:67-78 | the entities with vectors, each once, by name |
| VectorIndexes.MemorySource.VectorsById | src/vector_index.rs:79-86 | exactly the requested ids that some entity stores, with a stored vector |
| VectorIndexes.MemorySource.RecordInsert | src/vector_index.rs:87-101 | items are written in order, later winning, and their ids leave every other entity; ids stay with one entity |
| VectorIndexes.LastInsertWins | src/vector_index.rs:87-101 | an inserted id holds the last vector given for it, any other id what it held |
| VectorIndexes.MemorySource.RecordRemove | src/vector_index.rs:102-107 | only this id of this entity goes |
| VectorIndexes.MemorySource.RecordClear | src/vector_index.rs:108-118 | one entity, or all, is emptied and nothing else |
| VectorIndexes.VectorIndex.BuildSegment | src/vector_index.rs:527-538 | above the threshold HNSW, otherwise a flat segment of exactly the rows; an error iff a flat row has the wrong dimension |
| VectorIndexes.VectorIndex.EnsureLoaded | src/vector_index.rs:552-575 | afterwards the segment is loaded, flat iff it fits the threshold, no other slot changed, and the cache is coherent |
| VectorIndexes.VectorIndex.UpsertSlot | src/vector_index.rs:622-641 | the loaded part of an insert; a flat segment is dropped iff it outgrows the threshold, and any other slot keeps its form |
| VectorIndexes.VectorIndex.InsertBatch | src/vector_index.rs:611-642 | all or nothing by dimension check; inserted ids leave every other entity's source rows but not its slot, which stays as it was; its own slot stays loaded, in the same form, unless a flat segment outgrows the threshold; the cache stays coherent iff no inserted id is held by another loaded entity |
| VectorIndexes.VectorIndex.Remove | src/vector_index.rs:690-702 | source and cache both lose the id and stay coherent; the count is what the loaded segment held; nothing is loaded or dropped |
| VectorIndexes.VectorIndex.Clear | src/vector_index.rs:706-718 | source rows and slots go together and the cache stays coherent |
| VectorIndexes.VectorIndex.Search | src/vector_index.rs:646-687 | errors only for wrong dimensions; at most `limit` hits, most similar first and ties by id; with flat segments the brute-force top `limit` of the searched entities in full precision, and quantized whenever every segment fits the candidates, with unique ids; in every format the truly most similar of a shortlist that leaves a vector out only for enough others that are as similar as far as the format tells; over any segments, graph ones included, exactly the candidates of every entity, refined, sorted and cut; a quantized hit always carries the true similarity of a stored vector |
| VectorIndexes.SearchIsNearest | src/vector_index.rs:646-687 | in every format that keeps more than signs, with a rescore factor above zero, an answer has as many hits as there are vectors up to the limit, and no vector left out is more similar than a hit by more than twice the format's tolerance |
| VectorIndexes.VectorIndex.SearchEach | src/vector_index.rs:661-686 | the part of a search after the checks, with the same answer: gathers, refines, cuts |
| VectorIndexes.VectorIndex.Gather | src/vector_index.rs:671-676 | loads every entity and keeps, over all of them, what a top-k answer needs; the hits are the segments' own, one after the other |
| VectorIndexes.VectorIndex.Refine | src/vector_index.rs:678-681 | rescoring turns whatever hits it is given into stored ids with true similarities, keeps distinct ids distinct, and loses no candidate of flat segments |
| VectorIndexes.AsksFor | src/vector_index.rs:658-660 | each segment is asked for the limit in full precision, for the saturating product with the rescore factor otherwise |
| VectorIndexes.JoinCandidates | src/vector_index.rs:671-676 | candidates of disjoint entities join into candidates of their union |
| VectorIndexes.RescoredIsTrue | src/vector_index.rs:678-681 | rescored hits are the same ids with the similarities of their stored vectors |
| SlotProtocol.StepKeepsInv | src/vector_index.rs:520-575 | every step of every thread keeps the cache invariant: locks exclude, slots are not shared, each segment agrees with the source at every id that no mutation has still to bring it |
| SlotProtocol.FetchKeepsInv | src/vector_index.rs:566-571 | rows read under the write lock are the source's, with or without the mutations in flight |
| SlotProtocol.StoreKeepsInv | src/vector_index.rs:566-574 | publishing the loaded segment keeps the invariant even when a write arrived since it was read |
| SlotProtocol.BeginKeepsInv | src/vector_index.rs:619-718 | changing the source before the slot is locked keeps the invariant, whatever compatible mutations are in flight |
| SlotProtocol.SourceAt | src/vector_index.rs:87-118 | an insert, remove or clear leaves its outcome at the ids it writes, nothing at inserted ids of other entities, and every other id alone |
| SlotProtocol.ApplyOpKeepsInv | src/vector_index.rs:620-641 | applying a change to a segment that may already hold it, while others are in flight, is harmless |
| SlotProtocol.DropSlotsKeepsInv | src/vector_index.rs:706-717 | dropping slots of a cleared source keeps the invariant, also for writers still holding a dropped slot |
| SlotProtocol.SegmentAfter | src/vector_index.rs:623-641 | a segment that survives a change keeps its kind and holds the changed rows; only a flat one that an insert takes over the threshold does not survive |
| SlotProtocol.SegmentAppears | src/vector_index.rs:527-574 | segments appear only by loading, with the rows read, flat iff they fit the threshold |
| SlotProtocol.SegmentChanges | src/vector_index.rs:619-702 | loaded segments change only by applying a mutation to their slot |
| SlotProtocol.SlotsChange | src/vector_index.rs:520-718 | entities keep the slot they get and lose it only to a clear of theirs or of all |
| SlotProtocol.AppliedTwice | src/vector_index.rs:619-641 | inserts and removes are idempotent |
| SlotProtocol.RunsAreCoherent | src/vector_index.rs:520-718 | in every run whose overlapping mutations are compatible and whose inserts take no id that another entity has cached, each loaded segment agrees with the source at every id that no mutation has still to bring it, holds exactly the source's rows when there is none, and never exceeds the threshold if flat |
| SlotProtocol.ClashBreaksCoherence | src/vector_index.rs:611-718 | for any incompatible overlap, any threshold and any source that does not store the second's ids elsewhere: a run from an unloaded index that ends with nothing in flight and a slot that differs from the source |
| SlotProtocol.ReadersSeeTheSource | src/vector_index.rs:552-575 | whenever a thread is inside a read, what it reads is the source's at that moment up to mutations still to come, unless a clear has dropped the slot since it got it |
| SlotProtocol.BeginKeepsInvIff | src/vector_index.rs:619-718 | a mutation keeps the cache invariant iff it is compatible with those in flight and takes no cached id |
| SlotProtocol.TakingCachedIdsBreaks | src/vector_index.rs:87-100 | an insert that takes an id another entity has cached, with nothing on its way to settle it, breaks coherence at once, or once the fetched rows that hold it are stored |
| SlotProtocol.UnstoredIdsKeepEntities | src/vector_index.rs:87-100 | an insert of ids that the source stores under no other entity takes none that is cached |
| SlotProtocol.OverlapIsSafeIff | src/vector_index.rs:611-718 | an overlap is harmless in every run iff the second mutation leaves what the first has written |
| Permits.StepKeepsInv | src/semantic.rs:44-69 | permits are conserved, and while a thread waits every free permit has a notification or a woken thread coming for it |
| Permits.RunsKeepInv | src/semantic.rs:44-69 | the same over all runs |
| Permits.AtMostPermitsHold | src/semantic.rs:44-58 | never more holders than permits |
| Permits.NoLostWakeUp | src/semantic.rs:49-68 | while any thread is inside, some thread other than a newcomer can step |
| Permits.DrainingDecreasesWork | src/semantic.rs:49-68 | release, notify and recheck all make progress |
| Permits.DrainsCompletely | src/semantic.rs:49-68 | without newcomers every run is finite and ends with all waiters served and all permits back |
| Embedding.BlobRoundTrip | src/semantic.rs:25-34 | a vector survives the byte encoding of the cache |
| Embedding.BytesAt | src/semantic.rs:25-27 | each value takes four bytes, the least significant first |
| Embedding.LookupIff | src/semantic.rs:139-151 | a lookup finds a vector iff the row holds its bytes and it has the configured length |
| Embedding.EmbeddingCache.GetMany | src/semantic.rs:123-162 | each position gets its usable row or nothing; a failed read is all misses; hits and misses grow by what was found and what was not |
| Embedding.EmbeddingCache.PutMany | src/semantic.rs:164-192 | all items are written in order or none |
| Embedding.EmbeddingCache.Clear | src/semantic.rs:204-213 | rows and counters are emptied |
| Embedding.ChunksFlatten | src/semantic.rs:675 | batches in order make up the list again |
| Embedding.ChunksAreFull | src/semantic.rs:675 | all batches but the last are full |
| Embedding.ChunksCover | src/semantic.rs:675 | every index is in some batch and batches hold nothing else |
| Embedding.SemanticInference.EmbedOnExecutor | src/semantic.rs:720-755 | the model's vectors for the batch, all valid, or an error that the batch explains |
| Embedding.SemanticInference.MissingByLength | src/semantic.rs:659-668 | exactly the positions without a vector, each once, shortest text first, equally long ones in order |
| Embedding.SemanticInference.Scatter | src/semantic.rs:701-705 | every batch's vectors land at the positions they came from and nothing else changes |
| Embedding.SemanticInference.FillMissing | src/semantic.rs:670-706 | every missing position gets the model's vector, whatever the batch size or number of executors |
| Embedding.SemanticInference.EmbedTexts | src/semantic.rs:650-718 | the result is the model mapped over the texts in order for a disabled, cold, warm or failing cache; every usable cache row stays the model's vector; with executors and valid rows every returned vector and every usable row has the configured number of finite values; an error means that a batch, no larger than configured, of texts the cache did not serve failed, and nothing was written |
| Embedding.SemanticInference.WritesKeepSound | src/semantic.rs:707-711 | writing the computed vectors keeps every usable row right and makes these texts cached |
| Reranking.SplitTiles | src/semantic.rs:918-929 | at most n pieces, each the stretch at its offset, covering every position |
| Reranking.SplitIsEven | src/semantic.rs:918-929 | more than eight texts for several rerankers go in pieces of the least size with which that many hold them all; otherwise one piece |
| Reranking.Reranker.RerankOnExecutor | src/semantic.rs:877-900 | scores come back in input order from an encoder that reports in any order |
| Reranking.Reranker.Compute | src/semantic.rs:834-871 | pieces stitched at their offsets score every text as one call would |
| Reranking.Reranker.PredictScores | src/semantic.rs:818-875 | a miss scores the texts in order; a hit answers in the order the cached candidates had |
| Reranking.AskSwapped | src/semantic.rs:827-831 | two calls with two candidates swapped: the second gets the first one's scores, each at the other's place |
| Reranking.CachedAnswerIsRightIff | src/semantic.rs:827-831 | a hit is right for every scorer iff the candidates come in the cached order |
| RateLimiting.RateLimiter.AllowWith | src/api/auth.rs:284-294 | one call, with pruning, refill and consumption, is one step of the run model; `AnswerIff` says which steps admit |
| RateLimiting.TryConsume | src/api/auth.rs:249-259 | refills up to the burst and takes a token if there is one |
| RateLimiting.PlainAnswerIff | src/api/auth.rs:236-259 | where no bucket is dropped, for instants in any order, a call is admitted iff over every stretch of its key's calls that ends with it the admitted ones and itself number at most the burst plus what refills in the stretch |
| RateLimiting.AnswerIff | src/api/auth.rs:236-294 | the same with pruning, unless a call carries an earlier instant than a pruning before it |
| RateLimiting.TokensAreLeastRoom | src/api/auth.rs:249-259 | the tokens a call finds are the least that any stretch leaves of the burst and its refill, so every admitted call costs exactly one |
| RateLimiting.BurstAtOnce | src/api/auth.rs:236-259 | of a new key's calls at one instant as many are admitted as its burst has whole tokens |
| RateLimiting.RefilledIsNew | src/api/auth.rs:261-265 | a bucket consumes like a new one iff it is refilled |
| RateLimiting.StepSimulates | src/api/auth.rs:284-294 | one call keeps the limiter like one that never forgets, in answer and buckets, iff a dropped bucket comes back refilled |
| RateLimiting.PruningIsUnobservableIff | src/api/auth.rs:284-294 | for instants in any order, a run cannot be told from one that never drops a bucket iff each dropped bucket whose key calls again is refilled by that call |
| RateLimiting.PruningIsUnobservable | src/api/auth.rs:284-294 | every call is answered as if no bucket were ever dropped, unless a call carries an earlier instant than a pruning before it |
| RateLimiting.EarlyReturnIsObserved | src/api/auth.rs:284-294 | a run whose last call alone is out of order and is admitted only because its bucket was dropped |
| RateLimiting.AdmissionBound | src/api/auth.rs:236-294 | over any stretch of a run, with instants in any order, a key gets at most its burst plus what refills while the instants move forward |
| RateLimiting.AdmissionBoundInOrder | src/api/auth.rs:236-294 | with instants in order, that is the burst plus what refills in the time of the stretch |
| RateLimiting.WaitingOneTokenIsEnough | src/api/auth.rs:249-259 | a call is admitted once a token has refilled since the key's previous call, if the burst allows one, whatever order other calls come in |
| GraphExpansion.CollectEdgeClusterScores | src/query/route.rs:7-74 | each seed gets exactly the scores of its own independent walk; the walks stop before the first level whose fetch is needed and fails; each node is fetched at most once, and without a failure exactly the nodes that the levels come by are |
| GraphExpansion.FrontierIsReached | src/query/route.rs:51-66 | the frontier of level d lists every node that a path of d edges reaches, once, for any arithmetic |
| GraphExpansion.ScoredIff | src/query/route.rs:51-66 | a walk scores exactly what some path of one to depth edges reaches |
| GraphExpansion.WalkIsTotal | src/query/route.rs:15-93 | in exact arithmetic a score is the sum over the levels of 0.6 to the level's power times the weights, times 1.5 where the type suits the intent, of the edges from the nodes that a path of that many edges reaches, each node once, in any order |
| GraphExpansion.WalkIsScoresAt | src/query/route.rs:67-69 | stopping when no frontier is left changes no score |
| GraphExpansion.ExpandFrontier | src/query/route.rs:51-66 | one seed's level through the shared memo is the level of an independent walk; what such levels list and score are `FrontierIsReached` and `WalkIsTotal` |
| GraphExpansion.FetchMissing | src/query/route.rs:26-48 | exactly the unknown frontier nodes are asked for; it fails iff the fetch does and something was to be asked |
| GraphScores.GraphLane.Accumulate | src/query/fuse.rs:57-74 | scores and linked ids are those of the canonical order, whatever order the hash maps iterate in |
| GraphScores.AnyListingSortsToCanonical | src/query/fuse.rs:64-69 | any listing of the contributions sorts to the same sequence |
| GraphScores.CanonicalOrder | src/query/fuse.rs:69 | in that sequence seeds ascend and, within a seed, ids do |
| GraphScores.CanonicalFoldIsSeedOrder | src/query/fuse.rs:70-73 | each memory's score is its boosts added in ascending seed order, for any addition |
| RankFusion.RrfFuse | src/retrieval/mod.rs:15-35 | every id once with its fused score, best first, ties by id |
| RankFusion.FusionIsUnique | src/retrieval/mod.rs:30-35 | that leaves one output: the hash map's order cannot show |
| RankFusion.OrderWithinLanesIsIrrelevant | src/retrieval/mod.rs:17-28 | rearranging entries within lanes changes nothing, for any addition |
| RankFusion.EmptyLanesAreIrrelevant | src/retrieval/mod.rs:17-28 | dropping empty lanes changes nothing, for any addition |
| RankFusion.OrderOfLanesIsIrrelevant | src/retrieval/mod.rs:17-28 | rearranging lanes changes nothing in exact arithmetic |
| RankFusion.ExactSharesFall | src/retrieval/mod.rs:26-27 | reciprocal-rank shares are positive and strictly falling |
| RankFusion.FusedIsReciprocals | src/retrieval/mod.rs:15-28 | in exact arithmetic a fused score is the sum, over the duplicate-free lanes that list the id, of the reciprocal of the constant plus one more than the number of entries ahead of it |
| RankFusion.DominatorIsPlacedAhead | src/retrieval/mod.rs:15-35 | an id ranked ahead of another in every duplicate-free lane holding the other is placed strictly ahead |
| Widening.WidenSearch | src/query/retrieve.rs:136-238 | widths grow step by step to at most the largest, attempts stay within the limit, the loop stops exactly when the rule says, hits and reranker seeds are those of the passes made |
| Widening.StopsIff | src/query/retrieve.rs:37-61 | a pass ends the run iff it is at the largest width or last attempt, or it is not the first, enough hits are in hand, and it found nothing new, or its first new hit is similar enough while the new hits are few or their first similarity has hardly changed |
| Widening.WidthAt | src/query/retrieve.rs:228-237 | pass i looks at the starting width and i steps more, never beyond the largest |
| Widening.TargetHits | src/query/retrieve.rs:28-35 | the hits aimed at: as many as configured, or twice the limit but at least 24, never more than the largest width |
| Widening.SeedsAreFirst | src/query/retrieve.rs:190-193 | the reranker's seeds are the first 25 hits |
| Widening.StopDecision | src/query/retrieve.rs:206-222 | the loop's own bookkeeping decides as the rule over the passes made |
| Widening.EnoughHitsOrExhausted | src/query/retrieve.rs:37-61 | the loop stops short of its target only with the widths or the attempts used up, or a step of zero |
| Widening.CollectedIsDistinct | src/query/retrieve.rs:178-204 | no vector id is collected twice |
| Widening.CollectedMembers | src/query/retrieve.rs:160-204 | a hit is exactly an id that resolves, is at least 0.30 similar, and whose first pass looked it up |
| Widening.HitsMatchFinalSearchIff | src/query/retrieve.rs:136-238 | for a search that grows with width the hits are the filtered result of one search at the final width iff no such id first showed up while a lookup failed |
| Widening.LoseToFailedLookup | src/query/retrieve.rs:136-238 | a run of the search, by the same rules, whose first lookup fails: later lookups succeed, yet it ends without the id that one search at its final width keeps |
| Widening.HitsAreFinalSearch | src/query/retrieve.rs:136-238 | with lookups that succeed and a search that extends itself the hits equal, in order, those of one final search |
| ScopedSearch.AnswersGrow | src/vector_index.rs:367-424 | over a full-precision flat segment a wider search finds every id a narrower one finds |
| ScopedSearch.ExactSearchGrows | src/query/retrieve.rs:136-238 | so the widening loop over such a segment meets the condition of its iff |
| ScopedSearch.ExactSearchExtends | src/query/retrieve.rs:136-238 | and without equally similar vectors the wider answer repeats the narrower one first |
| ScopedSearch.CompleteAnswer | src/vector_index.rs:646-687 | a quantized answer whose candidates are all the segment holds is the exact one |
| ScopedSearch.WiderSearchLoses | src/vector_index.rs:646-687 | for every rescore factor from two on: vectors for which a search for two finds nothing of what a search for one found |
| ScopedSearch.QuantizedSearchNeedNotGrow | src/query/retrieve.rs:136-238 | so the widening loop's condition fails for them |
| Spans.Candidates | src/gliner.rs:294-320 | the candidates are exactly the spans and labels that reach the threshold and have text, all within the kept words, listed by start, then width, then label |
| Spans.CandidateIff | src/gliner.rs:294-320 | a span is a candidate iff it is a stretch of kept words with text that scores at least the threshold under its label |
| Spans.ListingIsUnique | src/gliner.rs:294-320 | that order leaves one listing, so the order that the stable sort preserves among ties is fixed |
| Spans.SelectSpans | src/gliner.rs:322-341 | word-disjoint spans in strictly increasing position, drawn from the candidates, none left out unless a better-ranked selected one shares a word |
| Spans.RejectedForABetterOne | src/gliner.rs:331-340 | every rejected candidate shares a word with a selected one that scores higher or, at the same score, begins earlier or has no larger a label |
| Spans.FlatTaggingIsUnique | src/gliner.rs:331-341 | those conditions leave one selection |
| Holm.HolmAdjust | benchmarks/rust_evaluator/src/record.rs:169-185 | the result holds, at each index, the running maximum at its rank in a sorted order |
| Holm.AdjustedClears | benchmarks/rust_evaluator/src/record.rs:169-185 | whatever order ties take, an adjusted value is below alpha iff every p-value up to its own, times the number at least as large, is |
| Holm.AgreesWithStepDown | benchmarks/rust_evaluator/src/record.rs:163-185 | for every alpha in (0, 1] an adjusted p is below it iff the sequential step-down test rejects that arm |
| Holm.StepDownExists | benchmarks/rust_evaluator/src/record.rs:163-185 | the step-down test can always be carried out |
| Holm.MonotoneAndEquivariant | benchmarks/rust_evaluator/src/record.rs:169-185 | monotone in p and indifferent to the arrangement of the family, ties included |
| Holm.AtLeastRaw | benchmarks/rust_evaluator/src/record.rs:169-185 | no adjusted value falls below its p-value |
| Holm.AtMostBonferroni | benchmarks/rust_evaluator/src/record.rs:169-185 | no adjusted value exceeds the Bonferroni bound |
| Holm.Verdicts | benchmarks/rust_evaluator/src/record.rs:820-850 | an arm is kept iff the 5% step-down test rejects it in one of the two families; unpaired arms fill the family and are never kept by it |
| Calendar.NextDateIsNextDay | src/core/calendar.rs:45-66 | the next valid date has the next day number, in every year |
| Calendar.OrderOfDates | src/core/calendar.rs:59-66 | day numbers are ordered as dates are, and equal only for equal dates |
| Calendar.JulianFormAgreesIff | src/core/calendar.rs:59-66 | the Julian-day formula agrees with the era formula iff the March-year is at least -4800 or a leap year |
| Calendar.JulianDaysAreDays | src/core/calendar.rs:59-66 | from the year 0 on both formulas give the same day number for every valid date |
| Calendar.CivilRoundTrip | src/api/ingest/datetime.rs:166-189 | a valid date comes back from its day number, in every year before or after the epoch |
| Calendar.DaysRoundTrip | src/api/ingest/datetime.rs:177-189 | every day number reads as a valid date with that day number |
| Calendar.EpochRoundTripIff | src/api/ingest/datetime.rs:149-164 | an accepted date reads back from its instant iff the month has that day |
| Calendar.WindowCovers | src/core/calendar.rs:116-208 | an instant lies in a query's absolute window iff its date is one the query is about: the three months of a season, the seven days of a week, the clamped day, the month |
| Calendar.WindowIff | src/core/calendar.rs:116-208 | a query has an absolute window iff it gives a date, or a year with a season or a month |
| Calendar.DateSpan | src/core/calendar.rs:120-138 | the window of a full date is its day, cut to the month |
| Calendar.SeasonSpan | src/core/calendar.rs:149-166 | the window of a season runs from the start of its first month to the end of its third, winter into the next year |
| Calendar.MonthSpan | src/core/calendar.rs:168-205 | the window of a month is its last seven days, its first seven, one day cut to the month, or all of it |
| Calendar.MonthWindowsTile | src/core/calendar.rs:201-203 | each month window ends where the next begins |
| MemoryIds.EscapeComponent | src/core/memory_id.rs:184-194 | the loop computes the escaped text |
| MemoryIds.DecodeComponent | src/core/memory_id.rs:196-217 | the loop computes the decoded text or the error |
| MemoryIds.DecodeEscape | src/core/memory_id.rs:184-217 | decoding undoes escaping on every string |
| MemoryIds.DecodesIff | src/core/memory_id.rs:196-217 | decoding fails iff some percent sign does not begin an escape of a percent sign or a colon |
| MemoryIds.DecodeConcat | src/core/memory_id.rs:196-217 | texts decode piece by piece |
| MemoryIds.SplitJoins | src/core/memory_id.rs:111 | the parts joined again are the text, and none holds a separator |
| MemoryIds.SplitAppended | src/core/memory_id.rs:111 | splitting finds an appended part, unless the text ends in a raw colon that moves the separator |
| MemoryIds.NormalizingIsIdempotent | src/core/memory_id.rs:18-45 | reading a component normalizes it on every string |
| MemoryIds.ReadsBackIffCanonical | src/core/memory_id.rs:18-45 | a tag reads back from its own text iff it is of the kind that text is read as |
| MemoryIds.KindsIff | src/core/memory_id.rs:18-45 | which component reads as which kind of tag, and that only numbers are respelled |
| MemoryIds.Render | src/core/memory_id.rs:171-182 | the loop renders entity, session, turn and tags |
| MemoryIds.Parse | src/core/memory_id.rs:106-133 | parsing gives the reading of the text, with the error of the first part that fails; what that is, is `ShortReads` and `LongReads` |
| MemoryIds.ShortReads | src/core/memory_id.rs:111-122 | a text of fewer than three parts reads as one unstructured name, separators included, unless a percent sign in it begins no escape |
| MemoryIds.LongReads | src/core/memory_id.rs:124-132 | a text of more parts is refused for a bad escape or a bad turn, names before turn before tags, and else reads part by part |
| MemoryIds.NameReads | src/core/memory_id.rs:106-122 | every name, escaped, reads back as an unstructured id of that name |
| MemoryIds.TwoNamesRead | src/core/memory_id.rs:106-122 | two escaped names with a separator read as one name with the separator in it |
| MemoryIds.DerivedKeepsNewest | src/core/memory_id.rs:86-92 | deriving from an unstructured id adds each tag to its text and keeps the newest one only |
| MemoryIds.DerivedNameReads | src/core/memory_id.rs:86-133 | the first tag derived from a lone name reads back as part of the name, the second as the turn of a structured id or not at all |
| MemoryIds.BuiltReads | src/core/memory_id.rs:79-133 | every id built by new and derived parses, whatever its components contain, to itself with normalized tags |
| MemoryIds.RoundTripIff | src/core/memory_id.rs:79-133 | a built id parses to itself iff all its tags are canonical |
| MemoryIds.SyntheticFactDoesNotRoundTrip | src/query/respond.rs:214-216 | the id of a synthetic summary parses to a different tag |
| MemoryIds.RenderingIsInjective | src/core/memory_id.rs:79-99 | equal texts mean equal entities, sessions and turns and tags that read alike |
| MemoryIds.DerivedFromExtends | src/core/memory_id.rs:101-104 | derivation extends the parent's own spelling whether or not the parent parses |
| MemoryIds.DerivedFromReparsesIff | src/core/memory_id.rs:101-133 | an id derived from a structured parent parses to the parent plus one tag iff the parent's last part does not end in a raw colon |
| PlatformWriter.PlatformStore.RecordUsageN | src/platform.rs:469-527 | counters grow by the count; an unsafe id leaves an empty row and an error |
| PlatformWriter.PlatformStore.UpdateProfileFromText | src/platform.rs:646-738 | the profile's lists are those after inserting the text's facts one by one |
| PlatformWriter.CountsCommute | src/platform.rs:469-527 | recordings of any keys commute |
| PlatformWriter.CountsMerge | src/platform.rs:469-527 | two recordings of one key are one of their sum |
| PlatformWriter.CoalescedFlushIsImmediate | src/api/mod.rs:93-112 | flushing coalesced counts in any order does what the operations would have done one at a time |
| PlatformWriter.Writer.Receive | src/api/mod.rs:63-77 | the operation is accounted for and the buffer stays below its threshold |
| PlatformWriter.Writer.Tick | src/api/mod.rs:78-89 | afterwards the store holds everything received |
| PlatformWriter.Writer.Flush | src/api/mod.rs:93-131 | the buffer is emptied into the store and nothing received is lost |
| PlatformWriter.Writer.Serve | src/api/mod.rs:52-90 | after the channel closes the store equals the one with every operation applied at once in order, for any interleaving of ticks, threshold flushes and map orders |
| PlatformWriter.Writer.StoredAndPendingMakeReceived | src/api/mod.rs:52-131 | at every step what is stored and what is pending make up what was received |
| PlatformWriter.ProfileIsMostRecent | src/platform.rs:646-738 | a profile holds the 64 most recent distinct facts and 120 most recent distinct activities of everything its user's texts yielded |
| PlatformWriter.FactsAreComplete | src/platform.rs:646-709 | no fact is listed twice, and while there is room none that the notes yielded is missing |
| PlatformWriter.ActivitiesAreComplete | src/platform.rs:710-724 | no activity is listed twice with one source, and while there is room none is missing |
| PlatformWriter.ActivitiesAreNoted | src/platform.rs:710-711 | the activities are those of the user's notes, with their source and time |
| PlatformWriter.ProfileIsAsRecent | src/platform.rs:653-726 | exactly the users whose notes yield something have a profile, as recent as the newest such note |
| PlatformWriter.UsageIsCounted | src/platform.rs:464-524 | each counter of a well-formed id grows by the calls at its endpoint and the requests by all calls; other ids get an empty row |
| PlatformWriter.SafeIdIff | src/platform.rs:784-793 | a well-formed id is `usr_` and 4 to 124 letters, digits and underscores |
| RecencyLists.InsertUniqueFront | src/platform.rs:940-948 | the bounded front insertion |
| RecencyLists.RecencyIsRecencyOrder | src/platform.rs:940-948 | the unbounded list has every key once, as its last item, latest first |
| RecencyLists.BoundedListIsRecency | src/platform.rs:707-723 | after any insertions into an empty list the bounded list is the start of the recency order: cutting at every step loses nothing |

## Left out

- SQL text, pools, migrations, durability of the SQLite source and the schema of stored rows.
- HNSW graphs: kept as a map of vectors so that loading and coherence include them; their search is an arbitrary function and excluded from exactness, and their build and update errors are not modelled.
- Errors of the vector source other than rows of the wrong dimension.
- IEEE arithmetic, NaN, infinities and negative zero: reals stand for floats; square root and half-precision rounding are parameters of which nothing is assumed.
- Zero-dimensional indexes.
- VectorIndexes.VectorIndex.Search: says nothing about which vectors a graph segment proposes, because the graph search is foreign code; an answer is exactly what the segments propose, refined, sorted and cut.
- VectorIndexes.SearchIsNearest: not for formats that keep only signs, where similarity in sign bounds no cosine; there a search promises the best of its shortlist.
- TopK.TopKSimilaritiesAreUnique: which of several equally similar ids is kept at the cut is not fixed, because a scan breaks ties by row and a search by id.
- SlotProtocol: fairness and deadlock of the locks; the protocol's events are lock-protected sections and any order of them is allowed.
- Embedding.SemanticInference.EmbedTexts: the text hash is assumed to tell texts apart; text lengths are in characters where the source counts bytes.
- Reranking.Reranker.PredictScores: the cache key is the query and the multiset of texts, not its 64-bit hash, and which entries the bounded cache evicts is a parameter.
- The executors, model loading, device selection and panics of worker threads.
- RateLimiting: a key's limits do not change.
- GraphExpansion.CollectEdgeClusterScores: neighbours come from a total function of the node; the SQL that computes them, its degree cut and its limit are not part of this model.
- Calibration, merging and ordering of fused items, and the weighted fusion in `src/api/plan/scoring.rs`: single-branch facts.
- RankFusion.RrfFuse: the fusion constant is above -1 where shares are reciprocal ranks, so that no share divides by zero.
- Widening.WidenSearch: an id has the same similarity at every width; the unscoped branch and the threads per query variant are not modelled.
- Spans.Candidates: tokenization is not modelled; scores and trimmed texts are parameters, so the logits and the sigmoid are left to the caller.
- Holm: how p-values are bootstrapped.
- Calendar.WindowCovers: finding years, months, seasons and days in the text, and windows relative to a reference time; i32 and i64 overflow for years the callers never pass.
- MemoryIds: ids as the rest of the engine stores and routes them.
- PlatformWriter.Writer.Serve: timestamps of usage rows and failures of the database; which sentences count as facts is a parameter.
- HTTP routes, authentication, sessions, configuration, metrics, bindings and the command line.
