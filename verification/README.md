# tatami, verified

A Dafny model of tatami's exact top-k search stack and of the encoding and pruning layers
under it, with proofs that each fast, skipping, concurrent or compressed form gives the answer
of a simple one. `dafny verify dfyconfig.toml` checks the whole project.

The search stack, from the top:

- **Fan-out** (`Broker`, `BrokerSafety`, `BrokerExact`, `BrokerPruning`, `BrokerProgress`). `runQuery` is a
  transition system with one step per atomic load, store, add or critical section. For every
  interleaving, every answer a seeded shard search may give, and every pattern of failed opens,
  the query ends, and unless an open failed it returns the exact top k; and it prunes by the
  threshold it publishes.
- **Deduplicating search and fleet merge** (`Dedup`, `DedupSearch`, `DedupServing`). What survives
  pruning, over-fetch and merging: the scores of the exhaustive ranking, its entries above the last
  score, and the very reply of one broker that visits every shard.
- **Routing** (`Routing`, `RouteQuery`, `Serving`). The flat term-to-shards index, the bounds
  that justify the early stop, one and two levels up, and the composition with the fan-out.
- **Retrieval** (`Retrieval`, `Wand`, `WandLoop`). Seeded block-max WAND over cursors, with the
  invariant that lets documents and blocks go unscored, and termination.
- **Posting lists** (`Varint`, `BitPack`, `GroupVarint`, `PForDelta`, `Postings`, `Cursors`).
  Bytes and the cursor over them, which refines an index into the plain list.
- **Index construction** (`TermLists`, `ExternalMerge`, `InvertedFile`, `SegmentMerge`). The
  external merge sort against the in-memory builder, byte for byte, and segment merge.
- **Term dictionary** (`BlockTree`, `Dictionaries`). The block tree against the sorted list.
- **Open segments** (`SegCache`, `SegCacheSafety`, `SegCacheLru`). The reference-counted LRU, as an
  object and as a transition system over any number of readers: what is closed when, and which
  segment is given up.

The columnar layer: integer encodings and pages (`IntCodec`, `IntLoops`, `Cascade`), zone maps,
filters, scans and file pruning (`Predicate`, `Bloom`, `GroupWriter`), key lookup (`SortedFile`), and the
catalogue log (`ManifestCodec`, `Manifest`). `Digits`, `Keys`, `Sums`, `TopK`, `ScoreHeap` and
`Scoring` hold what these share, and `FormatExamples` byte strings worked out by hand.

Loops and objects of the source are methods and classes here, proved against specification
functions; the lemmas are about those functions. Scores are real numbers, document ids stay
below 2^32 - 1, and IDF is any positive value.

Where the code and its own words differ, the model follows the code:

- The deduplicating search is documented to keep, of a tie at the k-th score, the smaller document
  id. A shard cuts its list of 2k by document number, so that copy can be gone before ids are
  compared (`DedupSearch.TieExample`). The reply has the scores of exhaustive ranking, and is that
  ranking exactly when none of its entries is cut from its own shard's list
  (`DedupSearch.SearchBounds`). What is documented of pruning and of the fleet does hold, in score
  and id: the reply is what visiting every shard gives (`DedupSearch.ListedRanking`), and a fleet
  returns what one broker over all its shards returns (`DedupSearch.SearchFleet`). Only which of
  several copies of one id at one score supplies the other fields can differ.
- A swap is documented as atomic. Every cut of it shows the set before or the set after exactly
  when no more than one id comes or goes (`Manifest.SwapAtomicIff`). What no cut does is lose both
  an input and an output, exactly when ids are disjoint or no input was live (`Manifest.TornSwap`).
- A committed edit is documented as surviving a crash. With no torn tail before it, it does
  (`Manifest.CleanAppend`); after one, `Manifest.TornAppend` and `Manifest.LostAppend` say exactly
  when it is lost, and `Manifest.LostRemove` shows a log that loses a removal.
- The catalogue's comment says IS NULL never prunes a file; with null counts reported as zero
  it always does (`Predicate.NullLeafLoses`). `Predicate.PruneLoses` says which files with a
  matching row are dropped, and `Predicate.PruneSafe` which never are.
- The all-match verdict ignores nulls (`Predicate.NullExample`). `Predicate.Scan` says exactly
  when a scan is right in spite of that.
- Patched frame of reference admits 256 values, but counts exceptions in one byte, and its width
  search does reach 256 of them (`PForDelta.OverflowReached`), so its round trip holds exactly up
  to 255 (`PForDelta.RoundTripIff`). No page is written so: group varint, tried earlier, is
  always shorter there (`Cascade.NeverOverflows`), and every page reads back
  (`Cascade.PageRoundTrip`).

## Model

| member | source | states |
|---|---|---|
| `Varint.RoundTrip` | search/bitpack.go:92-112 | every 64-bit value written as unsigned LEB128 reads back, with the bytes after it untouched |
| `Varint.TornFrom` | search/bitpack.go:101-112 | an encoding cut anywhere is reported short, never read as another value |
| `Varint.EncodeReads` | search/bitpack.go:92-98 | the bytes of an encoding are the base-128 digits of the value, lowest first and no more than it has, the high bit on all but the last |
| `Varint.AppendUvarint` | search/bitpack.go:92-98 | the loop writes exactly the specified encoding |
| `Varint.ReadUvarint` | search/bitpack.go:101-112 | on any input, the seven-bit groups up to the first byte without the high bit, wrapped to 64 bits, and their number; (0, 0) when no byte ends them; on an accepted encoding, the encoded value |
| `BitPack.PackRoundTrip` | search/bitpack.go:39-81 | values below 2^width packed at that width unpack to themselves, and the following bytes are left |
| `BitPack.PackBits32` | search/bitpack.go:39-58 | the accumulator loop writes the values as one little-endian bit stream, never more than a 64-bit accumulator; width zero stands for one |
| `BitPack.UnpackBits32` | search/bitpack.go:62-81 | the accumulator loop reads that stream and reports the bytes used; width zero stands for one |
| `GroupVarint.RoundTrip` | search/groupvarint.go:27-68 | groups of four 32-bit values under one control byte decode to themselves |
| `GroupVarint.AppendGroupVarint` | search/groupvarint.go:27-47 | the encoder's loops write the specified groups |
| `GroupVarint.ReadGroupVarint` | search/groupvarint.go:51-68 | the decoder's loops read them, or report short input |
| `PForDelta.RoundTripAt` | search/pfordelta.go:49-96 | a block with at most 255 exceptions decodes to itself, at any width |
| `PForDelta.RoundTripIff` | encoding/integer.go:299-353 | an admitted block decodes to itself exactly when its exception count fits the one-byte field |
| `PForDelta.ChooseWidth` | search/pfordelta.go:23-43 | the width returned is the least of those with the least encoded size |
| `PForDelta.ChosenSmallest` | search/pfordelta.go:23-43 | the cost searched over is the size of the block, so no width gives a smaller one |
| `PForDelta.AppendPForDelta` | search/pfordelta.go:49-71 | the encoder writes the specified layout |
| `PForDelta.ReadPForDelta` | search/pfordelta.go:75-96 | the decoder reads it and patches the exceptions |
| `PForDelta.OverflowReached` | encoding/integer.go:357-373 | a concrete admitted block of 256 values for which the width search leaves 256 exceptions, so it does not decode to itself |
| `Postings.PayloadRoundTrip` | search/postings.go:60-91 | a block's gaps and frequencies decode to it, whichever gap stream its size selects |
| `Postings.BlockDecodes` | search/postings.go:46-91 | every block of an encoded list decodes, at its recorded offset, to its slice of the list |
| `Postings.EncodePostings` | search/postings.go:46-58 | a strictly ascending list is encoded block by block, any other is refused |
| `Postings.EncodeBlock` | search/postings.go:60-91 | a block's payload, skip record and true maximum frequency |
| `Postings.MaxFreq` | search/postings.go:31-39 | the maximum frequency of the whole list, from skip records alone |
| `Cursors.BlockFacts` | search/postings.go:60-91 | what a skip record says of the plain list: count, last document, frequency bound |
| `Cursors.BlockCovers` | search/postings.go:185-199 | a posting between a target and the end of the covering block is bounded by that block's maximum frequency |
| `Cursors.Cursor.Next` | search/postings.go:125-146 | moves to the next posting of the plain list, leaving the shallow pointer |
| `Cursors.Cursor.NextGEQ` | search/postings.go:151-180 | moves to the first posting at or after the position whose document reaches the target |
| `Cursors.Cursor.AdvanceShallow` | search/postings.go:195-199 | changes only the shallow pointer, to the block that covers the target |
| `Cursors.Cursor.DecodeBlock` | search/postings.go:201-219 | fills the buffers with exactly the block's documents and frequencies |
| `Scoring.Bm25Monotone` | search/scorer.go:19-29 | the term score is positive and grows with the frequency, strictly |
| `Scoring.Bm25Is` | search/scorer.go:19-29 | the score times `k1 + f` is `idf * (k1 + 1) * f`, at every frequency f |
| `Scoring.Bm25Range` | search/scorer.go:19-29 | so one occurrence scores the IDF, and the score saturates: it stays below `k1 + 1` times the IDF |
| `Scoring.Bm25ScorerIs` | search/scorer.go:19-29 | the scorer scores by that, and its bound is the score at the maximum frequency |
| `Scoring.Bm25Sound` | search/scorer.go:19-29 | so the bound of a maximum frequency bounds every frequency up to it |
| `TopK.Prune` | cluster.go:439-452 | leaving out elements that k others beat does not change the top k |
| `TopK.TopSize` | cluster.go:439-452 | the top k has k elements, or all of them |
| `TopK.TopBeatsRest` | cluster.go:439-452 | everything in the top k beats everything outside it |
| `TopK.ExactAnswerUnique` | cluster.go:439-452 | a ranked exact answer is unique |
| `TopK.PushKeepsTop` | search/wand.go:273-284 | a bounded heap stays the top k of everything pushed |
| `Retrieval.BelowPivot` | search/wand.go:185-194 | a document below the pivot scores at most the bounds of the terms before it |
| `Retrieval.PivotAboveFloor` | search/wand.go:116-160 | the pivot never returns below documents already settled |
| `Retrieval.NotCompetitive` | search/wand.go:132-147 | a document whose bound misses the threshold or the seed is below the seed or beaten by k scored documents |
| `Retrieval.Conclude` | search/wand.go:116-163 | when every document is settled the heap is exact down to the seed |
| `Retrieval.SeedZero` | search/wand.go:76-78 | with seed zero the answer is the whole exact top k |
| `Retrieval.TopIsFirst` | search/wand.go:273-284 | what being the top k means, spelled out: as many as there are up to k, scores falling, equal scores by rising document, and everything left out behind them all |
| `Wand.FindPivot` | search/wand.go:185-194 | the first prefix of bounds that is strictly above the threshold and reaches the seed |
| `Wand.ScoreDoc` | search/wand.go:244-252 | the sum over the terms standing on the document is its full score |
| `Wand.PickAdvance` | search/wand.go:258-266 | a term below the pivot with the largest bound among those |
| `Wand.SkippedDocument` | search/wand.go:199-241 | a document inside every pivot block and before the next term scores at most the block bounds |
| `Wand.BlockMaxSum` | search/wand.go:199-209 | positions only shallow pointers and sums the bounds of the covering blocks |
| `Wand.SkipBlock` | search/wand.go:216-241 | moves every live cursor to a target past the pivot, and no document before it scores above the block sum |
| `WandLoop.Exhausted` | search/wand.go:119-139 | stopping with no live term or no pivot is safe |
| `WandLoop.Realign` | search/wand.go:154-159 | advancing one term to the pivot keeps the invariant and leaves fewer postings ahead |
| `WandLoop.SkipOrScore` | search/wand.go:142-153 | skipping the block or scoring the pivot keeps the invariant and leaves fewer postings ahead |
| `WandLoop.WANDFilterSeeded` | search/wand.go:97-163 | terminates, and returns hits that are exactly the exhaustive top k down to the seed |
| `WandLoop.WANDFilter` | search/wand.go:63-78 | returns exactly the top k kept documents of the disjunction: scores fall, documents of one score rise, and a kept document left out has a lower score than every hit, or the score and a larger number |
| `Serving.SameMatches` | search/index.go:264-292 | what the loop ranks is the set of live documents holding a query term, with their own scores, repeats counted |
| `Serving.SearchSeeded` | search/index.go:264-292 | a shard searched through its encoded lists answers as scoring every document would |
| `Serving.RouteServes` | search/routing.go:352-376 | routing meets the fan-out's requirements, and unrouted shards hold no hit |
| `Serving.DocFreqCounts` | search/routing.go:265-280 | where each shard gives the length of its list as document frequency, the global one is the number of documents that hold the term |
| `Serving.BoundAttained` | search/routing.go:352-376 | a one-term bound is the score of some document of the shard, so it is no looser than it must be |
| `Serving.QueryReturns` | cluster.go:259-453 | from posting lists to the answer: under every schedule a query routed by its terms and searched through the encoded lists ends, and unless an open failed it returns the exact top k of scoring every document of every shard, equal scores by shard and then document |
| `ShardSearch.SeededIsAnswer` | cluster.go:379-381 | a shard's seeded answer, tagged with the shard, is one the fan-out may receive |
| `ScoreHeap.MinHeap.Push` | cluster.go:632-646 | the heap keeps the k largest scores pushed |
| `ScoreHeap.MinHeap.Min` | cluster.go:630 | the root is the least score held |
| `ScoreHeap.MinHeap.Up` | cluster.go:648-657 | sifting up restores the heap order and keeps the contents |
| `ScoreHeap.MinHeap.Down` | cluster.go:659-675 | sifting down restores the heap order and keeps the contents |
| `ScoreHeap.LargestUnique` | cluster.go:618-646 | the k largest of a multiset are determined |
| `ScoreHeap.LargestRises` | cluster.go:317-322 | once k scores are held the k-th best never falls |
| `BrokerSafety.WorkerSteps` | cluster.go:347-424 | whatever step a worker takes, what it then holds (seed, survivors, batch, pending publish) is consistent with the shared state it leaves |
| `BrokerExact.MainSteps` | cluster.go:331-363 | the serial warm-up, its publish and the decision to fan out keep the whole invariant, and the published word does not fall |
| `BrokerSafety.BelowKth` | cluster.go:396-402 | a hit below the k-th best score found so far is beaten by k hits |
| `BrokerSafety.SearchSurvivors` | cluster.go:365-390 | what a seeded search leaves out cannot be in the answer |
| `BrokerSafety.SharedSteps` | cluster.go:347-424 | every worker step keeps the shared invariant: heap, published word, stop flag, distinct candidates |
| `BrokerSafety.AccountedSteps` | cluster.go:347-424 | every claimed shard is in some worker's hands, or its hits are collected or ruled out |
| `BrokerSafety.PoolSteps` | cluster.go:347-424 | every step of every worker keeps the whole invariant |
| `BrokerExact.RunKeeps` | cluster.go:259-453 | the invariant holds at every state of every run, and the published word only rises |
| `BrokerExact.Threshold` | cluster.go:309-322 | in every run the heap is the k largest scores pushed, the published k-th only rises and never passes the final one, and after a stop every unclaimed bound is below it |
| `BrokerExact.Exact` | cluster.go:259-453 | whatever the interleaving and the seeded answers, a query that opened its shards returns the exact top k: scores fall, equal scores rise by shard and then document, and a hit left out stands behind every one returned |
| `BrokerExact.TopIsFirst` | cluster.go:439-452 | what that means, without the comparison used to sort: order, ties and what is left out |
| `BrokerExact.ThresholdIsLast` | cluster.go:434-436 | the reported threshold is the score of the last hit returned |
| `BrokerPruning.PublishedMirrors` | cluster.go:309-322 | in every run, whenever no worker holds the mutex and k scores are found, the published word is the k-th best of them |
| `BrokerPruning.OpensPastCheck` | cluster.go:368-390 | a shard is opened only past a check of its bound against the published word, which is then its seed, or before there is one, without a seed |
| `BrokerPruning.StopsClaims` | cluster.go:371 | a worker that sees the stop flag claims no further shard |
| `BrokerPruning.PoolStarts` | cluster.go:331-363 | the serial walk goes on until k scores are held or no shard is left; the pool starts unless no shard is left or the next bound is below the k-th, with as many workers as allowed, at least one, at most the shards left |
| `BrokerPruning.ErrorTells` | cluster.go:392-424 | in every run a recorded open failure has raised the flag that stops the pool, or its worker is about to |
| `BrokerPruning.FailureStops` | cluster.go:371 | a worker that sees that flag claims no further shard |
| `BrokerProgress.NoDeadlock` | cluster.go:343-429 | in every state short of the end some step is possible |
| `BrokerProgress.StepLesser` | cluster.go:343-429 | every step goes down a well-founded order |
| `BrokerProgress.EveryScheduleReturns` | cluster.go:259-453 | every schedule ends, with the exact top k in that order, or with the error exactly when an open failed |
| `DedupSearch.KthDistinct` | cluster.go:606-616 | the k-th best score over distinct ids, or none with fewer than k |
| `DedupSearch.CollectsShard` | cluster.go:515-543 | what is collected is what the shards list, up to entries that k ids already beat: a seed drops nothing else |
| `DedupSearch.CollectsStops` | cluster.go:515-541 | nor does stopping at a bound below the k-th distinct score |
| `DedupSearch.ExactIff` | cluster.go:507-577 | from such a collection the answer is the exhaustive ranking exactly when none of its entries was cut from a shard's list |
| `DedupSearch.ListedRanking` | cluster.go:19-25 | the collection ranks as what the shards list: the pruned result is the result of visiting every shard |
| `Dedup.Collected` | cluster.go:507-577 | a collection that covers the input has the scores of the exhaustive ranking place by place, and its entries above the last score |
| `Dedup.ReferenceReads` | cluster.go:547-577 | the exhaustive ranking spelled out: each id once, at its best score, scores falling, equal scores in byte order of id, and an id left out behind them all |
| `Dedup.NoTieLost` | cluster.go:507-577 | when no copy reaching the k-th score was lost the answer is the exhaustive ranking itself |
| `Dedup.MergeCovers` | aggregator.go:251-269 | score-exact partial answers together cover everything they came from |
| `DedupSearch.SearchBounds` | cluster.go:507-577 | whatever the seeds and the early stop did, the reply is the ranking, score and id, of each routed shard's first 2k documents, as visiting every shard gives; its scores are those of exhaustive ranking, and it is that ranking exactly when none of its entries is cut from its shard's 2k; the walk stops at the first bound below the k-th distinct score so far, and the threshold is the last score of a full reply |
| `DedupSearch.MergeLeafResults` | aggregator.go:251-269 | merging score-exact lists is score-exact, and is the exhaustive ranking of the fleet exactly when every entry of that is in some list; merging the rankings of any parts is the ranking of the parts together |
| `DedupSearch.SearchFleet` | aggregator.go:195-245 | the fleet, its leaves searched apart and merged, returns what one broker over all their shards returns, score by score and id by id, ties included |
| `DedupSearch.SplitListed` | aggregator.go:25-32 | however the shards are dealt out to leaves, together they list what one route lists |
| `DedupSearch.ListedIff` | cluster.go:507-577 | what the shards list ranks as all they hold does exactly when no entry of that ranking is cut |
| `DedupSearch.SameCopies` | aggregator.go:251-269 | where no id has two copies at one score, equal entries of the fleet and of the one broker are one document |
| `DedupServing.SearchWith` | cluster.go:507-577 | the whole deduplicating query with BM25 bounds and scores: over every document of every shard its scores are those of exhaustive ranking, and it is the ranking of each shard's first 2k |
| `DedupServing.SearchShard` | search/index.go:264-292 | a shard searched through its encoded lists answers as that query needs, for every seed |
| `DedupServing.FleetSplits` | aggregator.go:25-32 | a corpus dealt out to leaves anyhow is routed by them shard for shard as by one broker |
| `RouteQuery.Bm25Steady` | search/scorer.go:19-29 | BM25 without length normalisation meets what routing and pruning ask of a scorer |
| `DedupSearch.TieExample` | cluster.go:515-541 | the walk over one shard of three tied documents, k = 1: whatever its search answers, the reply is not the exhaustive ranking |
| `DedupSearch.TieSearchable` | cluster.go:515-541 | searches answering as that walk requires exist |
| `SegCache.SegCache.TryPin` | segcache.go:78-86 | the hit path: to the front of the list and pinned; a miss changes nothing |
| `SegCache.SegCache.Install` | segcache.go:93-109 | adopts an entry that raced in, or installs ours and evicts down to the limit |
| `SegCache.SegCache.EvictLocked` | segcache.go:133-147 | drops from the back until within the limit, closing only unpinned victims |
| `SegCache.SegCache.Release` | segcache.go:115-127 | one pin fewer, and whether this caller must close |
| `SegCacheSafety.Steps` | segcache.go:78-147 | every critical section, open and close keeps the invariant, whichever reader takes it |
| `SegCacheSafety.OpenBound` | segcache.go:78-147 | open segments are at most the limit plus pins, loose opens and deferred closes |
| `SegCacheSafety.EveryRun` | segcache.go:78-147 | in every run no pinned segment is closed, none is closed twice, map and list agree within the limit, few are open, and at rest only resident ones |
| `SegCacheLru.LeastRecentlyUsed` | segcache.go:78-147 | over every run only an acquire changes what is resident; it gives up no more than the limit asks, and only entries whose last acquire is longer ago than that of every entry kept |
| `SegCacheLru.RunRecent` | segcache.go:78-147 | in every state of every run the list is in order of last acquire, latest first |
| `SegCacheLru.RightShard` | segcache.go:73-109 | what a reader holds is always a segment of the shard it last asked for |
| `Routing.RoutingBuilder.AddShard` | search/routing.go:137-152 | folds one shard's terms under the next shard id, in any enumeration order |
| `Routing.Build` | search/routing.go:157-201 | the flat columns say of every term exactly what the shards said, terms ascending |
| `RouteQuery.CmpBytesStr` | search/routing.go:241-262 | three-way lexicographic comparison |
| `Keys.LessAt` | search/routing.go:241-262 | byte strings are ordered by the first byte that differs, a proper prefix before what it begins |
| `RouteQuery.Lookup` | search/routing.go:230-237 | finds a term exactly when some shard holds it, with its row |
| `RouteQuery.DocFreq` | search/routing.go:275-280 | the sum of the shards' document frequencies |
| `RouteQuery.BoundCovers` | search/routing.go:352-376 | a shard's bound is at least any of its documents' scores, repeated terms counted |
| `RouteQuery.ScoreAdds` | search/wand.go:244-252 | each occurrence of a term in a query adds its score for the document, wherever it stands |
| `RouteQuery.BoundAdds` | search/routing.go:352-376 | and adds its bound to a shard's, if the shard holds it |
| `RouteQuery.RouteWith` | search/routing.go:352-376 | exactly the shards holding a query term, by descending bound, each with its bound |
| `RouteQuery.Summarize` | search/routing.go:304-315 | one index enumerated as a shard: summed frequencies and the maximum of maxima |
| `RouteQuery.SummaryTight` | search/routing.go:304-315 | the greatest frequency a summary gives is one shard's, and no shard's is greater |
| `RouteQuery.BoxBound` | search/routing.go:304-315 | the bound one level up is at least each shard's bound |
| `RouteQuery.FleetDF` | search/routing.go:265-315 | document frequencies folded box by box are those of the whole fleet |
| `TermLists.GroupsUnique` | search/index.go:53-85 | a sorted list of nonempty groups is determined by what it holds for each term |
| `TermLists.InvertedBuilder.AddDocument` | search/index.go:34-44 | assigns the next id and appends the document's postings, dropping zero frequencies |
| `TermLists.InvertedBuilder.Groups` | search/index.go:53-60 | the terms in order, each with its complete ascending list |
| `ExternalMerge.GroupRoundTrip` | search_streaming.go:416-455 | a term group of a run reads back as it was spilled |
| `ExternalMerge.StreamingBuilder.Add` | search_streaming.go:146-196 | runs and batch together hold exactly the documents added, and forward columns and buffer exactly their stored fields, at any spill budget; and the postings in memory are counted and stay within it |
| `ExternalMerge.StreamingBuilder.FlushBatch` | search_streaming.go:205-297 | the batch becomes a sorted run, its stored fields go to the forward columns, and nothing is lost |
| `ExternalMerge.TakeTerm` | search_streaming.go:361-385 | every run's fragment of the least term, in run order, and those readers advanced |
| `ExternalMerge.MergeStep` | search_streaming.go:359-385 | each round feeds one new term with its full list and removes it from what is left |
| `ExternalMerge.StreamingBuilder.Merge` | search_streaming.go:342-388 | the encoder is fed every term once, in ascending order, with its full list |
| `ExternalMerge.CloseStreamed` | search_streaming.go:302-388 | the streamed segment is the segment of the documents, and row d of its forward columns is of document d |
| `ExternalMerge.CloseInMemory` | search/index.go:53-85 | the in-memory segment is the segment of the documents |
| `ExternalMerge.OneSegment` | search/streamencode.go:13-16 | a document sequence has one segment, byte for byte, so the two builds agree |
| `InvertedFile.StreamEncoder.Add` | search/streamencode.go:45-81 | appends one term's entry, payload and skip record, or refuses a list out of order |
| `InvertedFile.StreamEncoder.Finish` | search/streamencode.go:90-100 | the runs of the groups fed so far |
| `InvertedFile.BuildIndex` | search/index.go:53-85 | entries and lists of a sorted group list, singletons inline |
| `InvertedFile.EntryReads` | search/index.go:53-85 | a single posting stands in its entry; any other list is at the place its entry names, with its length |
| `InvertedFile.EncodeRuns` | search/index.go:333-355 | the posting and skip runs of a list sequence |
| `InvertedFile.SkipRoundTrip` | search/liststore.go:107-133 | a skip record decodes to the list's blocks |
| `InvertedFile.OpenLazy` | search/liststore.go:58-98 | offsets into both runs, without decoding a list |
| `InvertedFile.LazyLists.At` | search/liststore.go:107-133 | list i of the eager store, or an empty list out of range |
| `SegmentMerge.PerDocFreqs` | search/index.go:153-173 | the live documents rebuilt from the posting lists |
| `SegmentMerge.SameIndex` | merge.go:142-174 | zero frequencies leave no trace, so rebuilding loses nothing |
| `SegmentMerge.MergeSegments` | merge.go:125-174 | the merged index is the index, and the forward rows the rows, of one and the same sequence of places: all live documents of all inputs, by input and then number, so document n and row n are those of the n-th; no input and mixed kinds are refused |
| `SegmentMerge.Renumbering` | merge.go:142-174 | the n-th document kept and the n-th row kept are those of the n-th live place, places rise by input and then number, and every live one is among them |
| `BlockTree.TermRoundTrip` | search/blocktree.go:309-341 | a front-coded term and its entry decode after the term before it |
| `BlockTree.BlockStands` | search/blocktree.go:103-129 | each record locates its block in the blocks region |
| `BlockTree.BuildBlockTree` | search/blocktree.go:84-147 | writes header, sparse index and compressed blocks, a block at a time |
| `BlockTree.OpenBlockTree` | search/blocktree.go:201-238 | parses back the sparse index and the blocks region |
| `Dictionaries.SortedLookup` | search/terms.go:85-97 | exact lookup in the sorted list |
| `Dictionaries.SortedScan` | search/terms.go:102-111 | the calls a prefix scan makes, early stop included |
| `Dictionaries.CallsMade` | search/terms.go:102-111 | the calls are on the terms with the prefix, in order, none passed over but after a call that said stop |
| `Dictionaries.PastPrefix` | search/blocktree.go:385-392 | past a prefix and without it, no later term has it |
| `Dictionaries.BlockTreeDict.BlockOf` | search/blocktree.go:259-271 | the last block that can hold the term, or none |
| `Dictionaries.BlockTreeDict.DecodeBlock` | search/blocktree.go:276-304 | the block's body, the cache true and at most 32 blocks |
| `Dictionaries.BlockTreeDict.Lookup` | search/blocktree.go:345-367 | hit or miss, the sorted list's answer |
| `Dictionaries.BlockTreeDict.PrefixScan` | search/blocktree.go:372-397 | the sorted list's calls, early stop included |
| `Dictionaries.OpenDict` | search/blocktree.go:84-238 | a dictionary opened on built bytes serves the terms it was built from |
| `ManifestCodec.MemberRoundTrip` | manifest/manifest.go:325-383 | a member body decodes to the member |
| `ManifestCodec.RecordRoundTrip` | manifest/manifest.go:284-323 | a framed record reads back, the rest untouched |
| `ManifestCodec.CutRecord` | manifest/manifest.go:299-323 | a record cut anywhere stops the reader, without relying on the checksum |
| `Manifest.ApplyAgrees` | manifest/manifest.go:131-156 | a replayed record does what its edit means |
| `Manifest.LastWord` | manifest/manifest.go:131-156 | the last edit about a member decides: an add leaves it as added, a removal gone, a tier change on that tier if it was live and otherwise unchanged |
| `Manifest.Untouched` | manifest/manifest.go:131-156 | edits about other members leave a member as it is |
| `Manifest.TruncatedReplay` | manifest/manifest.go:104-129 | a log cut at any byte replays to the state after the longest prefix of whole edits |
| `Manifest.CleanAppend` | manifest/manifest.go:221-252 | with no torn tail every appended edit is replayed |
| `Manifest.WholeAppend` | manifest/manifest.go:221-252 | as it is after a record written to its last byte |
| `Manifest.TornAppend` | manifest/manifest.go:221-252 | after any tail, replay stays where it was exactly when no record is read from the tail and the appended bytes together, and then any appended edit is lost |
| `Manifest.LostAppend` | manifest/manifest.go:299-323 | after a tear past a record's length that is exactly when the record spliced there is short or its checksum differs |
| `ManifestCodec.SplicedRecord` | manifest/manifest.go:299-323 | a record cut past its length takes the bytes after the cut for its own, and is rejected exactly when they are too few or their checksum differs |
| `Manifest.LostRemove` | manifest/manifest.go:221-252 | a concrete log, for every checksum: an add is torn, a removal is committed after it, and replay still shows the member removed |
| `Manifest.TornHeader` | manifest/manifest.go:104-120 | a log torn inside its header and appended to no longer opens, unless only the version byte was missing and the first edit appended is an add |
| `Manifest.TornSwap` | manifest/manifest.go:210-219 | a log cut at any byte of a swap keeps every input or shows every output, exactly when no output takes an input's id or no input was live |
| `Manifest.SwapAtomicIff` | manifest/manifest.go:207-219 | every cut of a swap shows the set before or the set after exactly when no more than one id comes or goes |
| `Manifest.ProperChanges` | manifest/manifest.go:207-219 | in a swap of new outputs for live inputs, none repeated, every edit makes one id come or go |
| `Manifest.SwapLandsIff` | manifest/manifest.go:210-219 | a whole swap shows every output exactly when no output reuses an input's id |
| `Manifest.SharedIdLost` | manifest/manifest.go:210-219 | an output that takes an input's id is gone after the swap, whatever was live before, and that input with it |
| `Manifest.Manifest.Append` | manifest/manifest.go:224-252 | one write of the batch after whatever the log ends in, and the same edits in memory; a log without a torn tail stays so |
| `Manifest.Manifest.Open` | manifest/manifest.go:85-129 | a log that ends in a torn tail opens to the state of its whole edits |
| `Manifest.Manifest.Compact` | manifest/manifest.go:257-275 | a fresh log without a torn tail that replays to the same live set, whatever the old log ended in |
| `Predicate.ColumnZone` | value.go:236-260 | the exact range of the present values, absent for none |
| `Predicate.MergeZones` | value.go:264-279 | merged zones are the zone of the two regions together |
| `Predicate.LeafReads` | predicate.go:291-319 | what each operator asks of a value, by the order of integers and of byte strings |
| `Predicate.LeafOne` | predicate.go:291-319 | exactly one of less, equal and greater holds of a value, and of a null only IS NULL |
| `Predicate.LeafTight` | predicate.go:184-263 | a value leaf is ruled out exactly when no value of its zone could match or a filter denies the constant, and an order leaf ruled in exactly when every value would |
| `Predicate.Verdict` | predicate.go:151-263 | no means no row matches; yes means exactly those rows match that back it: not null under a value leaf, and for a disjunction through a branch ruled in, or left open and matching |
| `Predicate.BackedNoNulls` | predicate.go:151-263 | an all-match verdict is backed by every row without nulls in the columns compared, and for a conjunction by no other |
| `Predicate.PassedWhole` | predicate.go:151-263 | a region passed whole on a conjunction holds only matching rows exactly when no row is null in a column compared |
| `Predicate.NullExample` | query.go:126-191 | a scan whose group is passed whole and returns its null row, which does not match |
| `Predicate.NullCountExample` | collection.go:174 | a concrete file whose null IS NULL rules out, against the comment above the code |
| `Predicate.ScanGroup` | query.go:170-191 | the matching rows of one group, projected, in order; with the all-match verdict every row |
| `Predicate.ScanTakes` | query.go:126-191 | skipping and passing groups gives the matching rows, or, where a group is passed wrongly, strictly more |
| `Predicate.Scan` | query.go:126-165 | the rows returned are the matching rows of the file, in order, exactly when every group passed whole holds only rows that back the verdict; and it counts the groups not ruled out |
| `Predicate.EqualityScan` | query.go:126-191 | an equality scan returns exactly the rows that hold the value, in order, whatever zones and filters let it skip |
| `Predicate.FilteredPicks` | query.go:170-191 | the matching rows are projections of rows at rising positions, exactly those that match |
| `GroupWriter.BuildGroupBloom` | index_write.go:39-60 | the filter built over a column's present values denies none of them; a column without any has no filter |
| `GroupWriter.RecordsTell` | query.go:33-82 | a view of the recorded zones, null counts and filters is true of the group's rows |
| `GroupWriter.WriteChunk` | writer.go:234-296 | page zones merged and page null counts added are the zone and the null count of the chunk, however it is cut into pages |
| `GroupWriter.FlushGroup` | writer.go:173-296 | what the writer records of a group, its columns written page by page, gives a reader a view that is true of its rows |
| `GroupWriter.WriteThenScan` | query.go:126-191 | rows written in any grouping and paging and scanned, pruned by zones, null counts and filters: exactly the matching rows come back, in order, exactly when every group passed whole is passed rightly, so whenever no row is null in a column compared |
| `GroupWriter.MemberEntry` | collection.go:66-118 | the zones a catalogue entry carries are those of all the file's rows |
| `GroupWriter.WriteThenPrune` | collection.go:198-217 | a file written and rolled up is kept if any row matches for a reason other than IS NULL, and lost with a matching row exactly where its zones rule that out and a row matches through a null alone |
| `Predicate.Rollup` | collection.go:93-103 | a file's zone is the zone of all its rows, groups without a value in the column skipped |
| `Predicate.PruneSafe` | collection.go:198-217 | a file holding a row that matches with the IS NULL leaves read as false is never dropped |
| `Predicate.PruneSafeWithoutNulls` | collection.go:198-217 | so for predicates without IS NULL no file holding a matching row is dropped |
| `Predicate.PruneLoses` | collection.go:157-217 | a file with a matching row is dropped exactly when its zones rule out the predicate without its IS NULL leaves and some row matches through a null alone |
| `Predicate.NullLeafLoses` | collection.go:174 | an IS NULL leaf drops every file, and loses a row of exactly those with a null in the column |
| `Predicate.Prune` | collection.go:198-217 | the members kept are exactly those not ruled out, in catalogue order |
| `Bloom.BuildBloom` | index/bloom.go:35-65 | the bits set are exactly those some key put in probes, in the least power of two of bits that holds the budget, with the number of probes nearest 0.69 per bit |
| `Bloom.Filter.MayContain` | index/bloom.go:69-79 | yes exactly when every probe is set, so no is definitive |
| `Bloom.HashIs` | index/bloom.go:35-79 | the i-th probe is i strides from the base hash, in 32-bit words |
| `SortedFile.WriteGroup` | writer.go:174-308 | pages and bounds of a group, however it is cut, every page but the last full |
| `SortedFile.OnlyHere` | query.go:212-217 | a key can first stand only in the first part whose bound reaches it |
| `SortedFile.FirstReaching` | pageindex.go:65-76 | the first bound not below the key |
| `SortedFile.LookupGroup` | query.go:219-262 | the key's first row of the group, exactly when the group has it |
| `SortedFile.Lookup` | query.go:197-262 | the key's first row of the file, exactly when the file has it |
| `IntCodec.ForRoundTrip` | encoding/integer.go:73-107 | frame of reference decodes to its input, in signed or unsigned order, up to 64 bits |
| `IntCodec.DeltaRoundTrip` | encoding/integer.go:111-140 | wrapping deltas sum back over the whole 64-bit range |
| `IntCodec.RleRoundTrip` | encoding/integer.go:145-215 | runs and literals decode to the input |
| `IntCodec.RunWhole` | encoding/integer.go:145-173 | a run is coded as long as it goes |
| `IntCodec.LiteralsWhole` | encoding/integer.go:145-173 | literals go on up to the first run worth coding, and never into one |
| `IntCodec.ZigzagIs` | encoding/encoding.go:154-164 | differences of either sign get numbers in order of size: 0, -1, 1, -2, 2 |
| `IntCodec.IntsRoundTrip` | encoding/integer.go:21-60 | every accepted encoding gives its input back, patched frame of reference exactly when its exceptions fit a byte |
| `FormatExamples.Patched` | search/pfordelta.go:49-71 | a concrete block in bytes: width, count, the exception's position and value, the low bits |
| `FormatExamples.Run` | encoding/integer.go:145-173 | a concrete run in bytes |
| `FormatExamples.Skips` | search/index.go:333-355 | a concrete skip record in bytes: list length, block count, and per block first and last document, maximum frequency, offset and count |
| `FormatExamples.Tree` | search/blocktree.go:84-147 | a concrete one-term tree in bytes: header, sparse index, block |
| `FormatExamples.Spilled` | search_streaming.go:205-297 | a concrete spilled group in bytes |
| `FormatExamples.Member` | manifest/manifest.go:325-383 | a concrete member record in bytes, field by field |
| `IntLoops.PackBits64` | encoding/encoding.go:76-103 | chunked packing up to 64 bits writes the same stream, fewer than eight bits pending |
| `IntLoops.UnpackBits64` | encoding/encoding.go:107-139 | chunked unpacking reads it, or reports a short stream |
| `IntLoops.MinMax` | encoding/encoding.go:41-60 | least and greatest word in the chosen order |
| `IntLoops.AppendFor` | encoding/integer.go:73-86 | the frame-of-reference encoder |
| `IntLoops.ReadFor` | encoding/integer.go:88-107 | its decoder, errors included |
| `IntLoops.AppendDelta` | encoding/integer.go:111-121 | the delta encoder |
| `IntLoops.ReadDelta` | encoding/integer.go:123-140 | its decoder |
| `IntLoops.AppendRle` | encoding/integer.go:145-173 | the run-length encoder |
| `IntLoops.ReadRle` | encoding/integer.go:175-215 | its decoder |
| `Cascade.EncodePageValues` | cascade.go:31-49 | the smallest body among the plain one and the candidates that apply, the earliest on a tie |
| `Cascade.OverflowLoses` | cascade.go:22-45 | a patched block of 256 exceptions, whose count would wrap, is longer than the group varint of the same values |
| `Cascade.NeverOverflows` | cascade.go:31-49 | so the sampler never keeps a patched block with more than 255 exceptions |
| `Cascade.ScatterRestores` | cascade.go:177-302 | gathering then scattering restores present rows and leaves nulls at zero |
| `Cascade.DecodePageValues` | cascade.go:53-75 | whatever the sampler kept, the page reads back as its rows' values, zero where null |
| `Cascade.PageRoundTrip` | cascade.go:31-75 | encoding an integer page and decoding it restores present rows and leaves nulls at zero, with no condition on its values |

## Left out

- `QueryPhrase`, `SearchPhrase`: the adjacency bound does not bound the score they rank by, so no exactness is stated.
- Float32 arithmetic: scores are real numbers; summing bounds and scores in different orders can round differently.
- The logarithm in IDF and field re-ranking: IDF is any positive value.
- zstd and CRC-32C: an inverse pair of functions, and an arbitrary function below 2^32; the torn-record proof does not use the checksum.
- Files, memory maps, HTTP, the command line and Parquet conversion: byte sequences and parameters stand for them.
- Heap and sorting calls of the Go library (the hit heap of search/wand.go, the run heap of search_streaming.go, sort.Slice): by their contents in rank or run order; the hand-written heap of cluster.go is modelled itself.
- Map iteration order: any order, except that sorting makes the results independent of it.
- SegCache.SegCache.Install: entries and segments are named by creation order rather than by pointer, and `closeAll` with queries in flight is not modelled, which the source calls a caller error.
- Broker.NextShared: the fold of one shard's batch under the mutex is one step, since nothing else reads the candidates or the heap; the stores that publish the threshold are separate steps.
- DedupSearch.SearchBounds: fetching url and title of the survivors, and errors while reading a document id, are not modelled.
- Cursors.Cursor.Next: not called after exhaustion, where the source would index past its blocks.
- Wand.ScoreDoc: an accumulated `or` of bits is written as addition throughout the codecs, with the disjointness as an invariant.
- Manifest.TornAppend: where a record is read from a torn tail and the edits appended to it, so that a checksum of other bytes happens to agree, what replay makes of the rest is not followed.
- DedupSearch.SearchFleet: which of several copies of one id at one score is kept, which depends on the order shards are walked, is not stated beyond `DedupSearch.SameCopies`; leaves run one after another, since they share nothing.
- ExternalMerge.StreamingBuilder.Add: a document is its term frequencies and its stored fields; tokenizing and making snippets come before, and write errors are not modelled.
- PForDelta.ReadPForDelta: width bytes above 32, which no encoder writes, are not followed.
- Routing.Build: term offsets are natural numbers, so term bytes in all are taken to be below 2^32.
- BlockTree.OpenBlockTree: on bytes that `BuildBlockTree` did not write, only that it returns.
- IntLoops.UnpackBits64: width bytes above 64, which no encoder writes, would lose bits in the source.
- GroupWriter.FlushGroup: the encoding of a scalar to key bytes is any function; the bytes of the pages are not part of it, and sort bounds are in `SortedFile`.
- Predicate.Scan: scalars are integers and byte strings; floats are out because NaN compares equal to everything, and a bound's bytes are not modelled.
- Predicate.Rollup: blob columns, which carry no zone though they have values, are not rolled up.
- Bloom.BuildBloom: past a 32-bit budget of 2^31 the source's array has no bytes and the first insert panics, so callers stay below it; `h & mask` is h modulo the power-of-two size, the two hashes are any functions, the probe count uses exact arithmetic, and a stored filter is its bits, size and probe count rather than bytes.
- Cascade.EncodePageValues: validity bitmaps are sequences of booleans; bool, float, string and byte pages are not modelled.
- Cascade.DecodePageValues: integer pages only, as above.
- SortedFile.WriteGroup: page and group bytes are abstracted; a page is its keys, its first row and its zone.
- Footer, header and page-header bytes, blobs, snippets, the tokenizer, merge-policy selection, the serialized routing index and the live-document bitset's words: long or easy, and they would add little.
- Compression ratios, latency, memory and filter false-positive rates.
