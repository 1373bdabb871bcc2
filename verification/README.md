# dodam: dense keys, late selections, ordered sums, stages, CSV

dodam is a vectorised OLAP engine. Much of its speed comes from fast forms of simple
things: a bitmap with popcount ranks instead of a hash map, run-length row selections
instead of row lists, chunks that are summed apart and stitched together, a stage
scheduler that exchanges rows through shuffle files, and CSV writers without the generic
row loop. This project models those parts and proves that each fast form agrees with the
simple one, for all inputs, all runs and all operation sequences.

| module | models | main results |
|---|---|---|
| `BitWords`, `RankMap`, `RankMapChunks` | the rank map and its two builders | rank is an order isomorphism; lookup is last-write-wins; the chunked builder equals the sequential one |
| `AdaptiveSet`, `AdaptiveMap` | dense arrays that switch to hashing | every history refines a plain set or map |
| `DenseMap` | the base-offset map with a missing sentinel | every history refines a plain map; when the two layouts agree |
| `ThresholdSum` | running sums with threshold candidates | when the candidate shortcut equals the full scan |
| `PairDistinct` | packed pairs, sorted and deduplicated | counts of distinct second components |
| `CostModel`, `LateSelection`, `LateSelectionRuns` | the gap search and the selection builder | optimal gap; markers align with rows; the prediction is exact |
| `RowGroupSplit` | cutting selectors at row-group boundaries | exact cover; no row lost |
| `OrderedMerge`, `OrderedGroupSum`, `OrderedGroupTotals` | ordered chunked aggregation | the chunk merge is a homomorphism for any associative state; every division and completion order gives the totals above the threshold |
| `DictionaryColumns`, `DictionaryAgg`, `DictionaryAgreement` | plain and dictionary consumers | the same groups and counts always; the same sums where nothing saturates; both read off the columns |
| `Shuffle`, `StageGraph`, `StageRows`, `Scheduler` | repartition, shuffle store, stage loop | order, termination, exact error conditions, conservation of rows |
| `CsvText`, `CsvWriters` | CSV quoting and writers | round trip to the values; specialised output equals generic output |

Objects that the source updates in place are classes, its loops are loops, and pure code
is functions. Sequences that the source pushes to are `seq` values that methods reassign.

Where the code differs from what one would expect of it:

- The doubling search for a coalescing gap does not end for a limit of `usize::MAX`:
  doubling saturates there and never becomes 0, so the test for 0 never fires
  (`CostModel.SearchDivergesOnlyAtMax`).
- A value equal to the missing sentinel is dropped by the dense layout and kept by the
  fallback; the layouts agree exactly when no key ends with it (`DenseMap.LayoutsAgree`).
- The candidate shortcut trusts the predicate: it equals the full scan exactly when every
  kept sum is above a non-negative threshold (`ThresholdSum.ShortcutIsFullScan`).
- The chunked rank builder refuses some inputs that the sequential one accepts: the local
  bitmaps must fit the budget as well (`RankMapChunks.FromChunksParallel`, with an input in
  `RankMapChunks.ChunkedRefusesMore`).
- Sums that saturate can differ between the two dictionary consumers
  (`DictionaryAgreement.SaturationBreaksAgreement`); keys and counts never do, and the sum of
  a key agrees when nothing saturates on that key (`DictionaryAgreement.ConsumersShareSums`).
- An offset beyond the row count is counted by the cost model and skipped by the builder. On
  increasing offsets the search's own numbers are exact if and only if the last offset is in
  range (`LateSelectionRuns.MetricsIgnoreNothing`); on other lists they can agree by accident
  (`LateSelectionRuns.AccidentalAgreement`).
- Two stages with one id make a run end in the dependency error even without a cycle,
  because the loop counts ids against stages (`Scheduler.ExecuteGraph`).
- A batch with rows but no columns prints empty lines, which a reader takes for records
  with one empty field: a table is read back exactly when every record has a field
  (`CsvText.ReadTableUndoes`).

## Model

| member | source | states |
|---|---|---|
| `BitWords.MaskValue` | src/dense.rs:551-562 | The mask of the bits below a bit is that bit's value minus one, as the subtraction in the popcount expression computes it |
| `BitWords.MaskedCountOnes` | src/dense.rs:551-562 | The popcount of a word masked below a bit is the number of ones below that bit |
| `BitWords.ResizeKeepsBits` | src/dense.rs:153-156 | Growing a bitmap with zero words changes no membership answer |
| `BitWords.BitmapExtensionality` | src/dense.rs:420-425 | Two bitmaps of one length with the same members are equal word by word |
| `BitWords.RankMonotone` | src/dense.rs:551-562 | Rank never decreases, and grows strictly across a member |
| `BitWords.RankOnto` | src/dense.rs:551-562 | Every rank below the total is the rank of some member |
| `BitWords.RankIsCardinality` | src/dense.rs:551-562 | Rank counts the members below a key |
| `RankMap.RankFromPartsIsRank` | src/dense.rs:551-562 | With correct prefixes, prefix plus masked popcount is the rank of a present key, and nothing for any other `i64`, negative or out of range |
| `RankMap.GetIsLastValue` | src/dense.rs:480-492 | On every map built from a pair list, a lookup gives the value of the last pair with that key, and None for every other key |
| `RankMap.RankIsOrderIsomorphism` | src/dense.rs:309-366 | Rank is an order-preserving bijection from the distinct keys onto 0..n, so every lookup lands inside the values |
| `RankMap.RepresentationIsUnique` | src/dense.rs:309-366 | A pair list determines words, rank prefixes, values and key bounds completely |
| `RankMap.EstimateIsFootprint` | src/dense.rs:325-335 | The overflow-checked byte estimate is the true footprint, and it overflows only when the footprint exceeds every budget |
| `RankMap.FootprintOfMap` | src/dense.rs:325-335 | The footprint is 8 bytes for every word and 4 for every prefix of the built map, plus a value for every pair; the map holds no more values than there are pairs |
| `RankMap.RankPrefixes` | src/dense.rs:343-349 | Prefix i is the rank of bit 64*i; refused exactly when the total leaves `u32` |
| `RankMap.ScanPairs` | src/dense.rs:313-321 | Key bounds and number of the pairs, refused exactly for a negative key or more pairs than a word counts |
| `RankMap.PlaceValues` | src/dense.rs:350-358 | Slot rank - base ends up with the value of the last pair of each key |
| `RankMap.FromPairs` | src/dense.rs:309-366 | Accepts exactly the non-empty lists without negative keys that fit the budget and `u32`, and then builds the one map that represents the list, whose lookups give the last value of every key and None elsewhere; the words, the prefixes and a value for every pair fit the budget |
| `RankMap.MarkKeys` | src/dense.rs:337-341 | The bitmap has a bit exactly for every key |
| `RankMapChunks.BuildChunkBitmap` | src/dense.rs:511-549 | The local bitmap holds exactly the chunk's keys relative to its base word; refused exactly for a negative key or an oversized bitmap |
| `RankMapChunks.OrderedNonOverlapping` | src/dense.rs:409-419 | The flag promises that every key of a chunk is below every key of all later chunks |
| `RankMapChunks.ChunkRanks` | src/dense.rs:437-459 | In ordered chunks without duplicates, the keys of chunk i have the ranks right after those of all earlier chunks |
| `RankMapChunks.UnionBitmaps` | src/dense.rs:420-425 | The union bitmap has exactly the keys of all chunks |
| `RankMapChunks.FirstRank` | src/dense.rs:445-446 | The base rank of a chunk equals the number of pairs in the chunks before it |
| `RankMapChunks.PlaceChunk` | src/dense.rs:440-453 | Placing one chunk at rank minus base rank puts every value of the chunk where its global rank wants it |
| `RankMapChunks.PlaceOrderedChunks` | src/dense.rs:437-459 | Concatenating the locally placed chunks yields the globally placed values |
| `RankMapChunks.TotalChunks` | src/dense.rs:380-395 | Key bounds, pair count and local words summed over chunks are those of the concatenation; refused only on `usize` overflow |
| `RankMapChunks.FromChunksParallel` | src/dense.rs:368-478 | Accepts exactly what the sequential builder accepts of the concatenation, provided the local bitmaps fit the budget too; then builds the map that represents the concatenation, on the fast and on the slow path; its words, prefixes and a value for every pair fit the budget |
| `RankMapChunks.ChunkedRefusesMore` | src/dense.rs:404-407 | A concrete input that the sequential builder accepts and the chunked one refuses: two chunks that share a key |
| `RankMapChunks.ChunkedEqualsSequential` | src/dense.rs:368-478 | Whenever the chunked builder returns a map, the sequential builder returns one for the concatenated chunks and the two are equal: words, prefixes, values, bounds |
| `RankMapChunks.BuildBothWays` | src/dense.rs:368-478 | Both builders called on one input: a chunked map implies an equal sequential map |
| `AdaptiveSet.ProbesAgree` | src/dense.rs:91-121 | Word probe, cached-slice probe and length all answer for the one member set, in dense and in hash form |
| `AdaptiveSet.GrowKeepsMembers` | src/dense.rs:153-156 | Growing array and words keeps members and agreement |
| `AdaptiveSet.MarkAddsMember` | src/dense.rs:157-161 | Marking an index adds exactly that member and keeps array, words and length in agreement |
| `AdaptiveSet.MaxDenseIndex` | src/dense.rs:179-185 | A bound over all values exists exactly when every value may be stored densely |
| `AdaptiveSet.AdaptiveI64Set.Insert` | src/dense.rs:139-167 | Adds the key to the member set; the form stays dense exactly when it was dense and the key is in range |
| `AdaptiveSet.AdaptiveI64Set.TryInsertDenseValues` | src/dense.rs:169-199 | All or nothing: adds every value, or changes nothing and says so |
| `AdaptiveSet.AdaptiveI64Set.FromHash` | src/dense.rs:201-229 | Holds the members of the hash set; dense exactly when every member is in range |
| `AdaptiveSet.Replay` | src/dense.rs:70-199 | Over every operation sequence the set equals the plain set, gives its answers, and switches form once |
| `AdaptiveMap.LookupsAgree` | src/dense.rs:713-776 | Plain, presence-slice and word-slice lookups and the emptiness test answer for the one plain map |
| `AdaptiveMap.GrowKeepsContents` | src/dense.rs:808-812 | Growing the three arrays keeps the entries |
| `AdaptiveMap.StoreSetsValue` | src/dense.rs:813-819 | Storing sets exactly one entry and keeps presence, words and length in agreement |
| `AdaptiveMap.UpdateStoredChanges` | src/dense.rs:826-863 | An update changes one entry, starting from `init()` only when it was absent |
| `AdaptiveMap.AdaptiveI64Map.FromHash` | src/dense.rs:678-711 | Holds the entries of the hash map; dense exactly when every key is in 0..20,000,000 |
| `AdaptiveMap.AdaptiveI64Map.Insert` | src/dense.rs:794-824 | Sets the entry, in either form; a key outside 0..20,000,000 switches to hashing |
| `AdaptiveMap.AdaptiveI64Map.Update` | src/dense.rs:826-863 | Changes the entry in place, starting from `init()` only for an absent key, in either form and across the switch |
| `AdaptiveMap.AdaptiveI64Map.IntoFilteredHash` | src/dense.rs:865-885 | Exactly the entries whose value satisfies the predicate |
| `AdaptiveMap.Replay` | src/dense.rs:665-863 | Over every operation sequence the map equals the plain map and gives its answers |
| `DenseMap.WindowGrows` | src/dense.rs:1177-1193 | Growing the window to the right or shifting it to the left, filled with the sentinel, changes no entry |
| `DenseMap.WindowAssigns` | src/dense.rs:1196-1204 | Writing a slot sets one entry; writing the sentinel removes it |
| `DenseMap.DenseI64Map.WidenTo` | src/dense.rs:1177-1193 | Creating, growing or shifting the window changes no entry |
| `DenseMap.WidenedIsSmallest` | src/dense.rs:1155-1168 | The widened window covers the old slots and the range, and no window that covers both is smaller |
| `DenseMap.GrantedWhenItFits` | src/dense.rs:1145-1176 | A range of non-negative keys is granted exactly when the end of the window is an `i64` and some window within `max_entries` covers the old slots and the range |
| `DenseMap.GetIsLookup` | src/dense.rs:1082-1091 | The lookup answers for the plain map in both layouts, with checked index arithmetic |
| `DenseMap.DenseI64Map.ReserveDenseRange` | src/dense.rs:1145-1194 | Keeps all entries; granted exactly when some window within `max_entries` and `i64` covers the old slots and the range; refused changes nothing; granted makes all of [min,max] writable |
| `DenseMap.DenseI64Map.InsertDenseKey` | src/dense.rs:1196-1204 | Sets the entry inside the window; outside the window nothing changes |
| `DenseMap.DenseI64Map.ConvertToFallback` | src/dense.rs:1210-1222 | Changes no entry, and leaves an existing fallback in place |
| `DenseMap.ScanKeys` | src/dense.rs:1049-1059 | Key bounds of the pairs, and whether a negative key forces the fallback |
| `DenseMap.FromPairsWithDenseRangePolicy` | src/dense.rs:1039-1080 | Chooses the dense layout exactly when no key is negative and the span of the keys is within `max_entries`, within `i64` and within a finite factor of at least 1 times the number of pairs; holds the last value of each key, without sentinel values in the dense layout |
| `DenseMap.CollectedIsLast` | src/dense.rs:1039-1080 | The collected map gives the last value of each key |
| `DenseMap.LayoutsAgree` | src/dense.rs:1039-1080 | Both layouts give the same entries if and only if no key ends with the missing sentinel |
| `DenseMap.Apply` | src/dense.rs:1082-1222 | One operation keeps the refinement of the plain map and returns its answer |
| `DenseMap.Replay` | src/dense.rs:1082-1222 | Every sequence of reserves, inserts, conversions and lookups refines the plain map |
| `ThresholdSum.DenseI64F64Sum.AddDenseIndex` | src/dense.rs:914-927 | Adds to one sum; candidates stay exactly the indices above the threshold, once each, while all addends are non-negative |
| `ThresholdSum.DenseI64F64Sum.ReserveDenseTo` | src/dense.rs:929-933 | Growing changes no sum |
| `ThresholdSum.DenseI64F64Sum.TryReserveDenseTo` | src/dense.rs:935-956 | Granted exactly without a fallback and within the byte budget; no sum changes |
| `ThresholdSum.DenseI64F64Sum.TryAddDenseKey` | src/dense.rs:958-967 | Adds exactly when the key lies in the array, which is empty after a conversion |
| `ThresholdSum.DenseI64F64Sum.ConvertToFallback` | src/dense.rs:977-990 | No sum changes |
| `ThresholdSum.DenseI64F64Sum.IntoFilteredHash` | src/dense.rs:992-1015 | Every entry is a stored sum that the filter keeps; all of them are returned exactly when the shortcut hides none; a filter that drops zero then gets precisely the keys whose sum it keeps |
| `ThresholdSum.ShortcutIsFullScan` | src/dense.rs:1003-1015 | The candidate shortcut returns the map of the full scan if and only if every sum the predicate keeps is above a threshold that is not negative |
| `ThresholdSum.FilterTotals` | src/dense.rs:896-1015 | For a threshold t >= 0 and any predicate implying value > t, every sequence of additions, reserves and conversions ends with exactly the kept totals |
| `PairDistinct.PackUnpack` | src/dense.rs:598-606 | Unpacking a packed pair gives back both components |
| `PairDistinct.Sort` | src/dense.rs:586-586 | Ascending, and a permutation of the keys |
| `PairDistinct.Dedup` | src/dense.rs:587-587 | Strictly ascending, with the same keys |
| `PairDistinct.PackedU32PairDistinct.Push` | src/dense.rs:573-579 | Accepts exactly pairs of components from 0 to `u32::MAX`, and adds the pair |
| `PairDistinct.PackedU32PairDistinct.Append` | src/dense.rs:581-583 | Takes over all pairs of the other counter and leaves it empty |
| `PairDistinct.PackedU32PairDistinct.CountsByFirst` | src/dense.rs:585-595 | For each first component in range, the number of distinct second components |
| `PairDistinct.CountDistinct` | src/dense.rs:568-596 | After any tree of pushes and appends the counts are those of the set of accepted pairs: order and duplicates do not matter |
| `CostModel.LateCoalesceCandidateMetrics` | src/cost.rs:504-526 | The loop, whose additions saturate in the source, gives the exact runs and payload rows |
| `CostModel.MetricsBounded` | src/cost.rs:504-526 | Runs never exceed payload rows or offsets; payload rows never exceed the rows up to the last offset, so nothing saturates |
| `CostModel.LargerGapFewerRuns` | src/cost.rs:504-526 | Enlarging the gap never increases runs and never decreases payload rows |
| `CostModel.GateIsExact` | src/cost.rs:419-442 | Although its arithmetic saturates, the gate accepts a gap if and only if, for n > 0 offsets, n <= payload <= n*(1+expansion) and payload + runs*max(cost,1) is less than n + n*max(cost,1) capped at `usize::MAX`; on these gaps its cost is exact |
| `CostModel.ChooseLateCoalesceMaxGap` | src/cost.rs:444-502 | The result is the smallest gap of least exact cost among the tried gaps (powers of two up to the limit, and the limit) whose payload and cost keep the bounds in plain arithmetic; 0 exactly when there is none. Holds wherever the source loop ends: a limit below `usize::MAX`, or at most one offset |
| `CostModel.SearchDivergesOnlyAtMax` | src/cost.rs:459-482 | The saturating doubling passes every limit but `usize::MAX`, where it never does; the test for 0 never fires |
| `CostModel.ChosenGapIsAffordable` | src/cost.rs:419-442 | The chosen gap keeps payload rows within n*(1+expansion) and payload plus run cost within that of one run per row |
| `LateSelectionRuns.PredictionHolds` | src/cost.rs:504-526 | For every offset list, sorted or not, the metrics of its in-range offsets are the select runs and payload rows of every alternating selector list with the coalesced mask |
| `LateSelectionRuns.AcceptedInRange` | src/engine.rs:9093-9095 | Offsets out of range change nothing that is accepted, and a list within range is its own in-range list |
| `LateSelectionRuns.MetricsIgnoreNothing` | src/cost.rs:504-526 | On strictly increasing offsets, the metrics are those of the in-range offsets if and only if the last offset is in range |
| `LateSelectionRuns.AccidentalAgreement` | src/cost.rs:504-526 | A list that does not increase, with an offset out of range, on which the metrics agree by accident |
| `LateSelectionRuns.BuildCoalesced` | src/engine.rs:9074-9142 | A fresh builder writes exactly the runs and payload rows predicted for the in-range offsets at the gap it chose. For increasing offsets, what the search itself computed is exact if and only if the last offset is in range. When all are in range it stays within the payload and cost bounds |
| `LateSelection.AcceptedIncreases` | src/engine.rs:8996-8999 | The accepted offsets increase strictly and lie in range |
| `LateSelection.AcceptedAreStrictMaxima` | src/engine.rs:8996-8999 | From any list, sorted or not, exactly the in-range left-to-right strict maxima are accepted |
| `LateSelection.TakenIsMask` | src/engine.rs:9091-9130 | Building offset by offset gives the mask and the markers that are stated row by row |
| `LateSelection.MarkersDescribePositions` | src/engine.rs:9091-9130 | The k-th marker belongs to the k-th row read: its offset when accepted, None when bridged |
| `LateSelection.AppendRun` | src/engine.rs:10449-10475 | Appends rows, and keeps runs positive and alternating |
| `LateSelection.AppendMask` | src/engine.rs:8990-9031 | All rows of an offset list are appended as its mask, with the exact count of selected rows |
| `LateSelection.AppendCoalesced` | src/engine.rs:9091-9130 | Rows and markers after each accepted offset, with bridged gaps; payload rows equal markers |
| `LateSelection.AppendCoalescedMask` | src/engine.rs:9089-9142 | All rows of an offset list are appended as its coalesced mask, with the markers of that mask |
| `LateSelection.LateSelectionBuilder.Push` | src/engine.rs:8960-8971 | Appends one row; counters stay exact |
| `LateSelection.LateSelectionBuilder.PushRepeated` | src/engine.rs:8973-8988 | Appends equal rows, also zero of them |
| `LateSelection.LateSelectionBuilder.PushSelectedOffsets` | src/engine.rs:8990-9031 | Appends exactly the mask of the accepted offsets |
| `LateSelection.LateSelectionBuilder.PushSelectedOffsetsCoalesced` | src/engine.rs:9074-9142 | Appends accepted offsets and the gaps up to the chosen gap; one marker per row read, in order; the counters grow by the markers |
| `LateSelection.LateSelectionBuilder.Finish` | src/engine.rs:9144-9173 | The finished selectors alternate, have positive lengths and expand to exactly the rows pushed; a selection exists when some row is selected |
| `LateSelectionRuns.BuildSelection` | src/engine.rs:8959-9142 | Every interleaving of pushes, coalesced ones included: selectors expand to the pushed rows, both counters are exact, and one list collects the markers of all coalesced pushes |
| `LateSelectionRuns.MarkersCountRows` | src/engine.rs:9074-9142 | In every history there is one marker for each row read if and only if no other push reads rows |
| `LateSelectionRuns.HistoryMarkersAlign` | src/engine.rs:9074-9142 | In every such history, the k-th marker of the whole list describes the k-th row that the finished selectors read: its offset within its push, or None when bridged |
| `LateSelectionRuns.OffsetsSelectStrictMaxima` | src/engine.rs:8990-9031 | A row is selected exactly when it is an in-range strict maximum of the list |
| `LateSelectionRuns.SelectRunsAreReadRuns` | src/engine.rs:10449-10475 | In an alternating selector list, select runs are the maximal stretches of rows read |
| `LateSelectionRuns.MetricsCountRows` | src/cost.rs:504-526 | Offset by offset, the metrics are the runs and rows read so far |
| `LateSelectionRuns.MarkersAlign` | src/engine.rs:9074-9142 | For one push: the k-th payload marker names its row exactly when the k-th row read is an accepted offset, and is None exactly on a bridged row |
| `RowGroupSplit.SeekGroup` | src/engine.rs:8912-8921 | The cursor moves to the group that holds the row, over empty groups, or past the last group |
| `RowGroupSplit.SplitSelect` | src/engine.rs:8912-8939 | One select run cut along any number of group boundaries |
| `RowGroupSplit.SplitLateSelectorsByRowGroup` | src/engine.rs:8894-8943 | For every selector list and every list of group sizes, zeros included: the runs of a group are non-empty, in bounds, ordered and disjoint, and cover exactly the selected rows of that group, shifted to its start |
| `RowGroupSplit.RunsCoverTheirLength` | src/engine.rs:8894-8943 | Ordered disjoint runs cover as many rows as their lengths add up to |
| `RowGroupSplit.SplitConservesRows` | src/engine.rs:8894-8943 | Together the runs of the first g groups keep every selected row of those groups, once |
| `OrderedMerge.MergeOrderedRowGroupChunks` | src/engine.rs:526-591 | The loop over chunks with its pending boundary is the fold of the chunk step followed by the final emission |
| `OrderedMerge.RunsConcat` | src/engine.rs:526-591 | For keys with equality, states of any type and an associative state merge: the runs of a concatenation are the runs of the parts, glued where the keys at the seam are equal |
| `OrderedMerge.MergeChunkHolds` | src/engine.rs:526-591 | One merge step keeps: output so far plus pending boundary stand for the glued runs, whether the chunk is empty, one run or longer |
| `OrderedMerge.MergeIsRuns` | src/engine.rs:526-591 | For every division of a stream, every associative state merge and every output with a lawful merge, merging the chunks emits exactly the runs of the whole stream |
| `OrderedMerge.MergeLogIsRuns` | src/engine.rs:526-591 | Logging the emissions shows each run once, in order, with its whole state, for every associative state merge |
| `OrderedGroupSum.KeptConcat` | src/engine.rs:10839-10839 | Extending one kept map by another keeps the concatenated runs: the output merge is lawful |
| `OrderedGroupSum.OrderedGroupSumPartial.PushRun` | src/engine.rs:8611-8622 | The partial is the first run, the last run and the kept middle runs, after each run pushed |
| `OrderedGroupSum.OrderedGroupSumPartial.FinishCurrent` | src/engine.rs:8624-8628 | The open run is pushed, when there is one |
| `OrderedGroupSum.AddRow` | src/engine.rs:10799-10811 | One row extends the open run or closes it; a decreasing key is refused |
| `OrderedGroupSum.CleanIsWithoutNulls` | src/engine.rs:10794-10799 | The rows taken are exactly those with both a key and a value, in order, whatever the values |
| `OrderedGroupSum.CleanIsSorted` | src/engine.rs:10800-10803 | Neighbour by neighbour the keys taken do not decrease exactly when no row with key and value has a smaller key than an earlier such row |
| `OrderedGroupSum.OrderedI64DecimalGroupSumChunk` | src/engine.rs:10730-10816 | A chunk is refused exactly when, among its rows with both a key and a value, some key is smaller than an earlier one; otherwise its partial is that of the runs of these rows, in order |
| `OrderedGroupTotals.SortedRunsAreTotals` | src/engine.rs:10730-10816 | In a non-decreasing stream there is one run per key, in key order, holding the total of the key |
| `OrderedGroupTotals.KeptAreTotals` | src/engine.rs:10818-10851 | The kept runs of a non-decreasing stream are exactly the totals above the threshold |
| `OrderedGroupTotals.TotalsOfRows` | src/engine.rs:10794-10812 | The totals above the threshold, stated on the rows with their nulls: every key that comes with a value, with the sum of all its values, negative ones included |
| `OrderedGroupTotals.MergeOrderedGroupSumPartials` | src/engine.rs:10818-10851 | A missing partial or one with its last key below its first gives no result; otherwise the chunk merge of all partials |
| `OrderedGroupTotals.MergedReports` | src/engine.rs:10818-10851 | The merged reports of all chunks are the kept runs of the whole stream |
| `OrderedGroupTotals.GroupSums` | src/engine.rs:3062-3104 | For every division into chunks and every order of completion: no result exactly when some chunk has, among its rows with key and value, a key smaller than an earlier one; when the whole stream has none, every key that comes with a value and whose values sum to more than the threshold, with that sum |
| `DictionaryColumns.ComparisonLaws` | src/engine.rs:439-448 | The six comparisons: equality is equality, exactly one of less, equal and greater holds, the other three are their complements, and less is strict and holds below every value for which it holds |
| `DictionaryColumns.ClampedSumIsExact` | src/engine.rs:282-287 | Adding the addends of a group one by one with clamping gives their exact sum as long as no prefix leaves i64 |
| `DictionaryAgg.NullsGrow` | src/engine.rs:308-311 | The null group is there once a passing row has level 0, and holds the count and the clamped sum of these rows on top of what was there before |
| `DictionaryAgg.GroupsGrow` | src/engine.rs:299-316 | The groups are those before and those of the passing rows, each with the capped count and the clamped sum of exactly its rows |
| `DictionaryAgg.DirectUtf8CountSumState.GroupId` | src/engine.rs:271-280 | The index of the one group of a key, appended on first use |
| `DictionaryAgg.DirectUtf8CountSumState.UpdateGroup` | src/engine.rs:282-287 | Adds count and sum to one group: the count stops at the largest word, the sum is clamped to `i64` |
| `DictionaryAgg.DirectUtf8CountSumState.Consume` | src/engine.rs:289-318 | The rows that pass the comparison are counted; every group of such a row, and no other, is there afterwards with its count, capped, and its addends, added in row order and clamped; rows at level 0 form the null group, added to what earlier batches left |
| `DictionaryAgg.DirectUtf8CountSumState.SumPerId` | src/engine.rs:336-359 | The scratch table holds, per id, count and sum of its matching rows; touched ids are those used, once each; ids of dropped rows are not looked up |
| `DictionaryAgg.DirectUtf8CountSumState.DrainTouched` | src/engine.rs:360-366 | Every touched entry moves to the group of its key, and the scratch table is all zero again |
| `DictionaryAgg.DirectUtf8CountSumState.ConsumeDictionaryIds` | src/engine.rs:320-367 | Groups after each touched id; the passing rows are counted and those at level 0 form the null group, with count and clamped sum; scratch table all zero between calls; only ids of matching rows must be in the dictionary |
| `DictionaryAgg.TouchedWhenCounted` | src/engine.rs:352-357 | An id is touched exactly when its local count is not zero, so the zero test records each id once |
| `DictionaryAgreement.ConsumersShareKeys` | src/engine.rs:289-367 | Both consumers leave the same keys, also with duplicate dictionary entries, whatever the addends |
| `DictionaryAgreement.ConsumersShareCounts` | src/engine.rs:289-367 | Both consumers leave the same count for every key, saturated or not |
| `DictionaryAgreement.AddRowsIsExact` | src/engine.rs:289-318 | The plain consumer adds the exact sum of a key as long as no prefix of the rows of that key leaves i64 |
| `DictionaryAgreement.AddTouchedIsExact` | src/engine.rs:320-367 | The dictionary consumer adds the exact sum of a key as long as neither its sums per id nor their running total leave i64 |
| `DictionaryAgreement.ConsumersShareSums` | src/engine.rs:289-367 | Both consumers leave the same, exact sum for every key on which nothing saturates; other keys, null groups and dropped rows do not matter |
| `DictionaryAgreement.LightKeysDoNotSaturate` | src/engine.rs:282-287 | Nothing saturates on a key whose stored sum and own absolute addends fit an i64 together |
| `DictionaryAgreement.SaturationBreaksAgreement` | src/engine.rs:282-287 | A concrete batch on which a sum saturates and the two consumers differ |
| `DictionaryAgreement.MatchedExpands` | src/engine.rs:289-367 | Filtering the ids and expanding them gives the rows the plain consumer matches, with the same null rows and row count; ids of dropped rows may be anything |
| `DictionaryAgreement.LightKeysNeverSaturate` | src/engine.rs:270-367 | Over a batch sequence nothing saturates on a key whose own matching absolute addends fit an i64 |
| `DictionaryAgreement.HoldsBatchesStep` | src/engine.rs:289-318 | One more batch: null group, groups and row count stay those of all passing rows of the batches so far |
| `DictionaryAgreement.RunBoth` | src/engine.rs:270-367 | For every batch sequence, with dictionaries of any size: the same keys, counts, null group, row count and batch count, without any bound on the addends; and the same sum for every key on which nothing saturates. These groups are exactly those of the rows that pass the comparison, each with the capped count and the clamped sum of its rows over all batches |
| `Shuffle.RowsOfHashTo` | src/engine.rs:8519-8566 | A row is in partition p exactly when it is among the rows and hashes to p, so equal keys meet |
| `Shuffle.PartitionsConserveRows` | src/engine.rs:8519-8566 | The partitions together have as many rows as the batches |
| `Shuffle.SplitBatch` | src/engine.rs:8548-8556 | Row indices by partition, in row order; refused exactly when an index leaves `u32` |
| `Shuffle.PartBatchesHoldPartition` | src/engine.rs:8548-8563 | The batches of a partition hold exactly its rows, in batch and row order, and none is empty |
| `Shuffle.RepartitionBatchesByHash` | src/engine.rs:8519-8566 | Refused exactly for zero partitions or an oversized batch; otherwise every partition gets its batches |
| `Shuffle.RollFiles` | src/engine.rs:8274-8338 | Files hold the batches in order; a file exceeds the target only with a single batch, and a new file starts only when the next batch does not fit; numbers increase until they saturate |
| `Shuffle.BytesAreSummed` | src/engine.rs:8275-8293 | The bytes of a file are the sizes of its batches, an empty size counting 1, capped at the largest word |
| `Shuffle.NumbersDiffer` | src/engine.rs:8317-8321 | Two files of a partition share a number, and so a path, only once the saturating number has reached `usize::MAX` |
| `Shuffle.LocalShuffleStore.WritePartition` | src/engine.rs:8256-8338 | Appends the non-empty batches to one partition and touches no other; the partition exists afterwards even when nothing was written; file numbers increase within the partition until they saturate; the counts are exact |
| `StageRows.HashPartitionHoldsItsRows` | src/engine.rs:5626-5652 | After any runs, partition p of a hash-partitioned stage holds exactly the rows of its output that hash to p, in task, batch and row order |
| `StageRows.EqualKeysMeet` | src/engine.rs:5626-5652 | A row is found in partition p exactly when the stage produced it and it hashes to p |
| `StageRows.TaskPartitionHoldsItsRows` | src/engine.rs:5653-5661 | Without hash partitioning, partition p holds exactly the output of the tasks numbered p, in task, batch and row order |
| `StageRows.LaterRunsUntouched` | src/engine.rs:5626-5662 | Runs of other stages change nothing a reader of this stage sees |
| `StageRows.WritesStay` | src/engine.rs:5626-5662 | A partition that some run wrote, even with no rows, is there for every later task |
| `StageRows.RowsAreConserved` | src/engine.rs:5586-5666 | Over any runs, output rows equal shuffle-written rows plus rows of the returned streams |
| `StageRows.TotalsCount` | src/engine.rs:5604-5661 | Over any runs, the totals are the number of tasks, of their batches and rows, and of the batches and rows in all shuffle partitions |
| `StageGraph.OrderExcludesDeadEnds` | src/engine.rs:5575-5584 | When every stage ran, none lacks an input and none lies on or behind a cycle |
| `StageGraph.StuckMeansDeadEnd` | src/engine.rs:5674-5678 | A pass that runs nothing, with stages left over, means a missing input, a cycle, or a repeated stage id |
| `StageGraph.OrderExists` | src/engine.rs:5574-5679 | A graph has an order of all its stages, each after its inputs, if and only if its ids differ and no stage lacks an input or lies on or behind a cycle |
| `Scheduler.DownstreamIsRead` | src/engine.rs:5564-5567 | A stage is downstream if and only if some stage of the graph lists it among its inputs |
| `Scheduler.TasksOfInOrder` | src/engine.rs:5586-5591 | The tasks of a stage are all tasks of the graph with its id, in the order of the graph |
| `Scheduler.StreamsAreUnread` | src/engine.rs:5626-5665 | The streams are, in run order, exactly the batches of the runs whose stage no stage lists among its inputs |
| `Scheduler.ReportIsOfGraph` | src/engine.rs:5557-5686 | A report in terms of the graph: streams of the unread stages, tasks in order, counters of the graph and of each stage |
| `Scheduler.EveryTaskRunsOnce` | src/engine.rs:5586-5596 | The tasks run are exactly the tasks of the stages that ran, each once |
| `Scheduler.WriteOutput` | src/engine.rs:5626-5662 | A task's output reaches exactly its partitions; refused exactly when it cannot be split; counters grow by what was written |
| `Scheduler.RunTask` | src/engine.rs:5499-5539 | One task: how it ends, what it reads, and what it leaves in store, streams and counters |
| `Scheduler.RunStage` | src/engine.rs:5586-5666 | The tasks of a stage in graph order, up to the first that fails |
| `Scheduler.RunReadyStages` | src/engine.rs:5575-5672 | One pass either runs a stage or finds every remaining stage blocked |
| `Scheduler.InputsAreComplete` | src/engine.rs:5575-5584 | When a task starts, the partitions of its stage's inputs already hold all they will ever hold |
| `Scheduler.HashStagePartitions` | src/engine.rs:5626-5652 | In a run of the graph, each partition of a hash stage holds exactly its rows, and equal keys meet |
| `Scheduler.ListedArePresent` | src/engine.rs:8362-8373 | When a task starts that lists only partitions its stage's inputs write, every one of them is there |
| `Scheduler.WellPlannedTasksSucceed` | src/engine.rs:5586-5603 | Tasks that list written partitions, and succeed on contents that are present, fail in no state that the loop can reach |
| `Scheduler.ExecuteGraph` | src/engine.rs:5557-5686 | Terminates; on success every stage ran once, after all its inputs and with all its tasks in the order of the graph; the streams are, in run order, exactly the batches of the tasks whose stage no stage lists as an input; the counters of graph and stages count tasks, batches, rows and shuffle contents; output rows equal shuffle rows plus stream rows. When no task fails in a state the loop can reach, in particular for well-planned tasks, the dependency error comes exactly with a repeated id, a missing input or a cycle. Any other error names the first failing task |
| `CsvText.WriteCsvBytes` | src/copy.rs:1752-1773 | Appends the field, between quotation marks and with quotation marks doubled exactly when it has a comma, quotation mark, line feed or carriage return, given as bytes |
| `CsvText.ReadFieldUndoes` | src/copy.rs:1752-1767 | Reading a written field in front of a field end gives back the field |
| `CsvText.ReadRecordUndoes` | src/copy.rs:1482-1491 | Reading a written record gives back its fields |
| `CsvText.ReadTableOfLines` | src/copy.rs:1482-1491 | Every table is read back, a record without fields as a record with one empty field |
| `CsvText.ReadTableUndoes` | src/copy.rs:1467-1495 | A table is read back as it was written if and only if every record has a field |
| `CsvText.FormatParses` | src/copy.rs:1543-1591 | Integers print to a numeral, without leading zero or surplus sign, that parses back and needs no quotes |
| `CsvText.NumeralIsUnique` | src/copy.rs:1543-1570 | An integer has only one numeral, so parsing back fixes the printed bytes |
| `CsvWriters.TextStandsFor` | src/copy.rs:1543-1591 | The text of a value stands for it: the numeral of an integer, the bytes of a text, the printed float, the bytes of `true` or `false`; empty for a null of any type but never for an integer or boolean |
| `CsvWriters.WriteValue` | src/copy.rs:1543-1591 | Appends the encoded field that stands for the value: the numeral of an integer, the bytes of a text, the printed float, `true` or `false`; nothing for a null |
| `CsvWriters.AfterRowsIsLines` | src/copy.rs:1467-1495 | Writing field by field and row by row yields the lines of the table of texts |
| `CsvWriters.LinesReadBack` | src/copy.rs:1467-1495 | An RFC 4180 section 2 reader of the lines gets one record a row and in it, column by column, a field that stands for the value, if and only if there is a column or no row |
| `CsvWriters.WriteGenericCsvBatch` | src/copy.rs:1482-1491 | The generic loop keeps the output and appends what reads back as every value of every column type, row by row, if and only if there is a column or no row |
| `CsvWriters.WriteI32CsvBatch` | src/copy.rs:1650-1658 | Byte for byte what the generic loop writes for one integer column |
| `CsvWriters.WriteI32Utf8NoQuoteCsvBatch` | src/copy.rs:1660-1687 | Byte for byte the generic output for an integer and a never-quoted text, with and without nulls |
| `CsvWriters.WriteI32Utf8CsvBatch` | src/copy.rs:1689-1706 | Byte for byte the generic output for an integer and a text |
| `CsvWriters.WriteI32Utf8ColumnsNoQuoteCsvBatch` | src/copy.rs:1708-1741 | Byte for byte the generic output for an integer and any number of never-quoted texts |
| `CsvWriters.WriteSpecializedCsvBatch` | src/copy.rs:1594-1648 | Handles exactly the specialised column shapes, with the generic output; otherwise writes nothing |
| `CsvWriters.Utf8QuoteMode` | src/copy.rs:1743-1750 | Never exactly when no value of the column needs quotes |
| `CsvWriters.WriteBothWays` | src/copy.rs:1594-1648 | Whenever a specialised writer is chosen, its output equals that of the generic loop |
| `CsvWriters.WriteCsvRecordBatch` | src/copy.rs:1467-1495 | Fails exactly on an unsupported column of a non-empty batch; otherwise appends what an RFC 4180 section 2 reader turns back into the values: every integer parses to its value, texts, floats and booleans are their bytes, and a null is empty, if and only if the batch has a column |

## Left out

- Parquet, Arrow, IPC and object-store decoding, metadata and file caches, row-group pruning: batches are sequences of rows.
- The SQL front end, the logical and physical planners and the join operators: a task's plan is an opaque value, and running it is a function parameter that may fail.
- Threads, rayon, channels and atomics: workers are an arbitrary order of completion; results are stored by index.
- Errors of single workers other than a refused chunk, and of reading or writing files.
- Profiling, timings, logging and environment switches: tuning values are parameters.
- Floating-point rounding: sums, quantities and the amplification limit are reals; equality of sums under regrouping is claimed for reals only.
- 64-bit words are sequences of 64 booleans; `BitWords.MaskValue` ties the mask to word arithmetic.
- Failing allocations: `try_reserve_exact` never fails in the model.
- Row totals of the selection builder and row sums inside one batch list are unbounded; the source's unchecked additions are not modelled. Additions that saturate or are checked in the source are modelled so, the file number included.
- Two files of one partition that carry the saturated number `usize::MAX` would share a path, and the later one would replace the earlier; the model keeps the batches of both.
- `DenseI64BoolLookup`, `DenseI64Probe`, `DenseAtomicU8`, `selective_key_range` and small accessors of `src/dense.rs`: they would add easy members only.
- `push_selected_u32_offsets`: the same as `push_selected_offsets` for 32-bit offsets.
- `write_i32_utf8_rows` and `write_i32_rows` of the CSV sink: the first writes text without quoting, so neither belongs to the round trip.
- How `ryu` prints a float: a float column holds printed texts, made of digits, sign, point, exponent and the letters of `inf` and `NaN`.
- The CSV header line.
- `DirectUtf8CountSumState.finish`: sorting and materialising the groups as a record batch.
- The definition levels of the plain consumer are always present, as in the source; group keys are opaque values instead of byte strings.
- The separate loops for batches without nulls in the group-sum chunk: one loop with the null check stands for both, as the check never fires there.
- Missing key columns of a hash partitioning, and row conversion: the row hash is a function parameter.
- Shuffle byte counts, file counts per graph, read metrics and nanosecond counters; the files' contents stand for what a reader sees.
- How a plan consumes its shuffle inputs (exchange matching, broadcast refusal): running the plan receives the contents of the listed partitions, or nothing for a partition never written, and decides.
- ChooseLateCoalesceMaxGap: with two offsets or more it requires a limit below `usize::MAX`, where the source's loop does not end.
- ConsumersShareSums: covers keys on which no addition of either consumer saturates; where one does, the sums may still agree by accident.
- The vectors that writers push into are values passed in and returned; aliasing of the output buffer is not modelled.
- The row-group chunk size picker: any division into chunks is covered.
