# Faiss: verified models of its fast, parallel and pruned algorithms

The Faiss code modelled here promises, again and again, that a fast, parallel or
pruned form agrees with a simple one. Each Dafny module models one such algorithm
with the branches, edge cases, error conditions and constants of the code, and proves
that promise for every input, every run or every reachable state.

| File | What it models |
|---|---|
| `Wrappers.dfy`, `Arithmetic.dfy`, `Vectors.dfy`, `Permutations.dfy` | shared notions: options, products and quotients, concatenated parts, reorderings |
| `TopK.dfy` | the reference for all searches: sort every candidate, keep k |
| `ResultHeap.dfy` | the binary heap behind every result list; it is proved to behave as the sorted list of `TopK` |
| `HnswBuild.dfy` | deterministic HNSW build: bucketing by level, shuffling, prefix-doubling batches, entry point |
| `PhaseA.dfy` | one batch, phase A: threads fill the reverse-edge buffer through an atomic counter |
| `ReverseEdges.dfy` | phase B: the 256-way in-place cycle-sort partition |
| `PhaseB.dfy` | phase B: grouping by (level, destination), merging |
| `Snapshot.dfy` | one batch, phase A: the searches, while other threads write the rows of their own points |
| `HnswDeterminism.dfy` | both phases and all batches together: the linked graph does not depend on any schedule |
| `Pipeline.dfy` | the threaded pipeline of `big_batch_search` as a step relation |
| `BatchSearch.dfy` | its three execution modes, and its checkpoints |
| `OperatingPoints.dfy` | the incremental Pareto frontier |
| `ParameterSpace.dfy` | parameter combinations as mixed-radix numbers, and pruned exploration |
| `Flat1D.dfy` | one-dimensional exact search by bisection and two-pointer expansion |
| `Panorama.dfy` | Cauchy-Schwarz early abandoning |
| `IvfAdd.dfy` | owner-computes parallel insertion into inverted lists |
| `IvfSearch.dfy` | four ways of scheduling the top-k scan of inverted lists |
| `IvfBudget.dfy` | the scan budgets and the sorted-range selector |
| `ListCodec.dfy`, `Index2Layer.dfy` | variable-width list numbers; in-place expansion of codes |
| `SlidingWindow.dfy` | a window of slices over inverted lists |
| `FlatCodes.dfy`, `IdMap.dfy` | a flat code store and the id maps over it |
| `RangeMax.dfy` | range search with an adaptive radius |

Conventions. Distances, norms and times are exact reals. A result list is the
ascending sequence of the values in it, without the slots that are still empty; for a
similarity metric each value is read as the negated similarity, except where a
parameter (`sim`, `keepMax`) chooses the metric. Random numbers, thread counts and
thread schedules are nondeterministic choices, so a proved contract holds for all of
them. Exceptions are results (`thrown`, `Failure`, `None`). Classes and methods over
arrays stand where the source mutates an object or a buffer; each is proved against a
specification function or predicate whose properties are lemmas beside it.

Results that the proofs bring to light:

- `explore` with two combinations and a non-zero number of experiments always throws,
  because it demands more than two experiments (`ParameterSpace.Explore` gives the
  exact condition).
- The overlapped mode (`threaded=1`) of `big_batch_search` fails exactly on an empty
  range of lists; the other modes do not (`BatchSearch.Overlapped`).
- An accepted `IndexFlat1D::search` answers all queries exactly if and only if the
  permutation sorts the stored values (`Flat1D.ExactIffSorted`); its length check does
  not test that. The inherited `remove_ids`, `add_sa_codes`, `merge_from` and
  `permute_entries` change the values and leave the permutation. A removal followed by
  `add`, and `permute_entries` alone, lead to an accepted search with a wrong answer
  (`WrongAfterRemoval`, `WrongAfterPermuting`); `update_permutation` repairs every state.
- `IndexIDMap2` inherits `reset`, which leaves the reverse map as it was: the index
  passes its own self-check afterwards exactly when it was empty (`InheritedReset`).
- A flat store merged with itself ends empty (`FlatCodes.IndexFlatCodes.MergeFrom`).
- When min_results exceeds max_results, `range_search_max_results` can keep more than
  max_results results, for both metrics (`RangeMax.LimitBroken`); a batch fails exactly
  when the results number more than max_results but not more than min_results
  (`RangeMax.ProcessBatch`).
- The two computations of the list-number width agree exactly for
  1 <= nlist <= 2^48 (`WidthsAgree`).

## Model

| member | source | states |
|---|---|---|
| `TopK.BestMeaning` | faiss/utils/Heap.h:371-394 | the reference result of every search: an ascending part of the candidates, as long as k allows, that no omitted candidate undercuts |
| `TopK.BestPermutation` | faiss/utils/Heap.h:371-394 | the k best candidates do not depend on the order of arrival |
| `TopK.PushAllBest` | faiss/utils/Heap.h:371-394 | offering candidates one by one to a bounded list that was best for s leaves it best for s + t |
| `TopK.MergeBest` | faiss/IndexIVF.cpp:525-536 | merging the k best of t into the k best of s is as good as offering all of t |
| `ResultHeap.PickChild` | faiss/utils/Heap.h:122-140 | the child chosen while sifting is one that no sibling comes after |
| `ResultHeap.SiftDown` | faiss/utils/Heap.h:112-151 | replacing the root restores the heap order, exchanges exactly the top for the new entry, and touches nothing behind the heap |
| `ResultHeap.ReplaceIsPush` | faiss/utils/Heap.h:371-394 | replacing the top by a smaller candidate is what the bounded sorted list does with it |
| `ResultHeap.TopIsThreshold` | faiss/utils/Heap.h:383-383 | the heap's top is the last element of the sorted list, hence the threshold |
| `ResultHeap.AddN` | faiss/utils/Heap.h:371-394 | after n additions the heap holds, as a list, what pushing the candidates into the sorted list gives |
| `ResultHeap.Pop` | faiss/utils/Heap.h:46-78 | taking the top leaves a heap of exactly the other entries |
| `ResultHeap.Reorder` | faiss/utils/Heap.h:424-457 | the heap becomes its ascending list, smaller ids first among equal distances, real results first, empty slots at the end, nothing lost |
| `ResultHeap.Collect` | faiss/impl/ResultHandler.h:324-335 | initialise, add all, reorder: the first slots are the k best of the candidates below the largest float, in ascending order of distance, then id, each one of the candidates; the rest is empty |
| `HnswBuild.Histogram` | faiss/IndexHNSW.cpp:266-274 | entry l counts the new points of top level l; it covers every level that occurs |
| `HnswBuild.PrefixSums` | faiss/IndexHNSW.cpp:276-280 | the offsets are the starts of the buckets |
| `HnswBuild.SortOne` | faiss/IndexHNSW.cpp:283-287 | one point goes to the next free position of its bucket; the others keep theirs |
| `HnswBuild.BucketSort` | faiss/IndexHNSW.cpp:276-287 | the counting sort puts the level buckets one after the other, each in input order |
| `HnswBuild.BucketsAreAll` | faiss/IndexHNSW.cpp:260-288 | bucketing neither loses nor duplicates a new point |
| `HnswBuild.Shuffle` | faiss/IndexHNSW.cpp:314-319 | permutes one bucket and leaves the rest alone |
| `HnswBuild.TopLevelGrows` | faiss/IndexHNSW.cpp:326-331 | after a bucket the top level is the maximum over the prior graph and all inserted points |
| `HnswBuild.HistoryAt` | faiss/IndexHNSW.cpp:333-345 | every batch of the log is legal: levels never increase; its size is at most the batch law, one point to begin with, then as many as are done in the bucket, at most theta, and exactly that if the bucket goes on; its entry point is of the prior graph or an earlier batch, or the sole member of the first batch of an empty graph |
| `HnswBuild.BatchStep` | faiss/IndexHNSW.cpp:335-345 | one more batch keeps this, whether or not the entry point is then raised |
| `HnswBuild.SteeringStep` | faiss/IndexHNSW.cpp:321-331 | one more batch keeps what entry point and top level owe to the log: they change with the first batch only, before it in an empty graph, after it if its level is a new top |
| `HnswBuild.Hnsw.InsertBatch` | faiss/IndexHNSW.cpp:335-511 | one round of the batch loop: the next points of the bucket in a legal batch that searches from the current entry point; only a deferred raise moves it afterwards, to the first point of the bucket |
| `HnswBuild.Hnsw.InsertBucket` | faiss/IndexHNSW.cpp:321-511 | a bucket is inserted completely, in order, by legal batches; the top level becomes the maximum; the entry point moves only as the first batch of the log prescribes |
| `HnswBuild.Hnsw.NextBucket` | faiss/IndexHNSW.cpp:302-319 | a round of the level loop consumes exactly the last bucket |
| `HnswBuild.Hnsw.InsertAll` | faiss/IndexHNSW.cpp:300-514 | all buckets down to the lowest wanted one are inserted once; the remaining index equals the size of what is left |
| `HnswBuild.Hnsw.AddVertices` | faiss/IndexHNSW.cpp:225-525 | every new point (with init_level0; else every one above level 0) is in exactly one legal batch; max_level ends as the maximum; the entry point stays unless the graph was empty or the first batch has a new top level, then it is the point of that batch; the first batch searches from the prior entry point, or from itself in an empty graph, all others from the final one; the final assertion holds |
| `PhaseA.StepInv` | faiss/IndexHNSW.cpp:376-400 | reserving slots by fetch-and-add and writing one edge keep: reserved slots tile the buffer, written slots hold their edge |
| `PhaseA.ReserveInv` | faiss/IndexHNSW.cpp:393-394 | a fetch-and-add extends the tiling by exactly the block of its point |
| `PhaseA.WriteInv` | faiss/IndexHNSW.cpp:395-400 | no slot is written twice |
| `PhaseA.RunInv` | faiss/IndexHNSW.cpp:365-407 | this holds after every interleaving |
| `PhaseA.FilledBuffer` | faiss/IndexHNSW.cpp:349-415 | when all threads are done the first `edge_counter` slots hold exactly the reverse edges of the batch, in some order |
| `PhaseA.CapacitySuffices` | faiss/IndexHNSW.cpp:348-358 | in every state of every run the counter, all reserved blocks and all written slots stay within the summed link capacities of the points of the batch: the buffer is never overrun |
| `ReverseEdges.ComputeStarts` | faiss/IndexHNSW.cpp:421-430 | bstart[b] is the number of edges of smaller buckets |
| `ReverseEdges.RoomInBucket` | faiss/IndexHNSW.cpp:445-450 | while an edge of bucket tb lies outside its segment, head[tb] is inside it: the counting argument that makes every swap safe |
| `ReverseEdges.SwapStep` | faiss/IndexHNSW.cpp:445-450 | one swap of the cycle keeps the edges, places one more and decreases the termination measure |
| `ReverseEdges.FollowCycle` | faiss/IndexHNSW.cpp:439-451 | a cycle ends with an edge of the right bucket in hand and everything else in place |
| `ReverseEdges.PlaceOne` | faiss/IndexHNSW.cpp:438-454 | one round of the inner loop keeps the edges and the filled parts and decreases the measure |
| `ReverseEdges.FillBucket` | faiss/IndexHNSW.cpp:436-455 | the loop over one bucket fills it completely |
| `ReverseEdges.PartitionByBucket` | faiss/IndexHNSW.cpp:432-456 | the partition terminates, permutes the buffer, and each segment holds exactly the edges with dest mod 256 = b |
| `PhaseB.RunsAreGroups` | faiss/IndexHNSW.cpp:480-499 | in a sorted bucket the maximal runs are the groups: one call per key present, with exactly its sources |
| `PhaseB.SourcesMeaning` | faiss/IndexHNSW.cpp:487-491 | a key receives a source as often as there are edges from it |
| `PhaseB.GroupRange` | faiss/IndexHNSW.cpp:479-499 | the scanning loop emits exactly the runs |
| `PhaseB.SortRange` | faiss/IndexHNSW.cpp:472-478 | the bucket is sorted by (level, destination); nothing else changes; the order of equal keys is not promised |
| `PhaseB.RunEnd` | faiss/IndexHNSW.cpp:482-486 | the inner loop stops at the end of the maximal run |
| `PhaseB.CollectSources` | faiss/IndexHNSW.cpp:487-491 | the sources of the run, in order |
| `PhaseB.MergeBucket` | faiss/IndexHNSW.cpp:467-500 | sort and group one bucket: the calls group its edges whatever order the sort gives equal keys |
| `PhaseB.BucketsDisjoint` | faiss/IndexHNSW.cpp:413-414 | no destination is handled by two buckets |
| `PhaseB.MergeBuckets` | faiss/IndexHNSW.cpp:464-500 | every bucket is grouped by itself |
| `PhaseB.FlattenGroups` | faiss/IndexHNSW.cpp:464-500 | the groups of the buckets together are the groups of all edges |
| `PhaseB.MergeReverseEdges` | faiss/IndexHNSW.cpp:412-501 | one call per (level, destination) present, carrying exactly that pair's sources |
| `PhaseB.GroupsPermutation` | faiss/IndexHNSW.cpp:349-350 | the grouping is the same for any fill order of the buffer |
| `PhaseB.AnySchedule` | faiss/IndexHNSW.cpp:459-466 | running the calls in another order is still the same grouping |
| `PhaseB.MergedGraphDeterministic` | faiss/IndexHNSW.cpp:412-501 | two groupings of the same edges leave the same links everywhere |
| `Snapshot.StepInv` | faiss/impl/HNSW.cpp:797-857 | a step of any search, reading a row or writing a link, keeps: every search has done what it would do alone on the graph before the batch, has met no other point of the batch, and rows of other nodes are unchanged |
| `Snapshot.RunInv` | faiss/impl/HNSW.cpp:836-837 | this holds in every state of every interleaving: the points of a batch are not reachable yet, so the snapshot stays immutable |
| `Snapshot.SameSearches` | faiss/IndexHNSW.cpp:365-390 | two complete interleavings over the same links end with the same searches, and the same links in all rows |
| `Snapshot.EdgesLead` | faiss/impl/HNSW.cpp:841-852 | the reverse edges of a point lead to old nodes, from the point |
| `Snapshot.EdgesMeaning` | faiss/impl/HNSW.cpp:841-852 | there is one reverse edge for each link that the search wrote |
| `HnswDeterminism.BatchDeterministic` | faiss/IndexHNSW.cpp:340-501 | for given reverse edges: any two interleavings that fill the buffer and any two schedules of phase B leave the same links |
| `HnswDeterminism.NextBatch` | faiss/IndexHNSW.cpp:340-504 | two runs of a batch from the same links, with any interleavings of its searches, of the buffer and of the merges, leave the same links |
| `HnswDeterminism.MergedLink` | faiss/impl/HNSW.cpp:859-970 | after phase B a link is an old one or the reverse of an edge in the buffer |
| `HnswDeterminism.BatchClosed` | faiss/IndexHNSW.cpp:340-504 | if links lead to inserted points only, they still do after a batch, its points included |
| `HnswDeterminism.BatchReady` | faiss/IndexHNSW.cpp:321-345 | before each batch of the log its points are unreachable, and its entry point is linked or the only point of the batch |
| `HnswDeterminism.AddedLog` | faiss/IndexHNSW.cpp:225-525 | every log that the addition leaves fulfils what the determinism of the build needs |
| `HnswDeterminism.AddVertices` | faiss/IndexHNSW.cpp:225-525 | the addition itself leaves such a log |
| `HnswDeterminism.BuildDeterministic` | faiss/IndexHNSW.cpp:302-514 | whole additions: two builds along the log of batches, whatever the schedules, have the same links after every batch, and these lead to inserted points only |
| `Pipeline.ScanSeesInitial` | contrib/big_batch_search.py:396-402 | although `completed` is mutated during the scan, the scan skips exactly the initially completed buckets |
| `Pipeline.StepInv` | contrib/big_batch_search.py:385-533 | every step of every thread keeps: each bucket is in one place, markers come last |
| `Pipeline.RunInv` | contrib/big_batch_search.py:385-533 | this holds after every run |
| `Pipeline.RunBounded` | contrib/big_batch_search.py:385-482 | in every run neither queue ever holds more than two items, and no more buckets are fetched at once than there are prefetch threads |
| `Pipeline.StepOnePlace` | contrib/big_batch_search.py:422-475 | a step moves a bucket from one place to another, never copies or loses it |
| `Pipeline.StepFirstMarker` | contrib/big_batch_search.py:407-445 | the end marker of the first queue comes after all its buckets |
| `Pipeline.StepSecondMarker` | contrib/big_batch_search.py:395-407 | the end marker of the second queue comes after all results |
| `Pipeline.ResultsAtMostOnce` | contrib/big_batch_search.py:503-527 | in every run main receives a bucket at most once, and only wanted ones |
| `Pipeline.AllBeforeEndMarker` | contrib/big_batch_search.py:505-527 | when main sees the end marker it has exactly the wanted buckets, and `completed` is those and the initial ones |
| `Pipeline.NothingElsewhere` | contrib/big_batch_search.py:505-536 | then no bucket is left in a queue or with a worker |
| `Pipeline.RepostEnabled` | contrib/big_batch_search.py:442-445 | re-posting the end marker never blocks |
| `Pipeline.NeverStuck` | contrib/big_batch_search.py:385-536 | no reachable state in which main still runs is stuck |
| `Pipeline.StepRemaining` | contrib/big_batch_search.py:385-536 | every step decreases the measure |
| `Pipeline.RunsAreBounded` | contrib/big_batch_search.py:385-536 | a natural-number measure bounds the length of every run |
| `Pipeline.MaximalRunsDeliver` | contrib/big_batch_search.py:385-536 | a run that cannot go on has stopped properly and delivered every bucket of the range that was not completed initially, exactly once |
| `BatchSearch.Sequential` | contrib/big_batch_search.py:340-349 | threaded=0: the k best candidates of the range of lists |
| `BatchSearch.Overlapped` | contrib/big_batch_search.py:351-382 | threaded=1: the same, adding each bucket exactly once, one round late; it fails exactly on an empty range |
| `BatchSearch.StepInv` | contrib/big_batch_search.py:154-175 | whenever a checkpoint can be written, result list and `completed` agree exactly; thread steps, checkpoints, crashes and restarts keep this for memory and disk |
| `BatchSearch.AddingFresh` | contrib/big_batch_search.py:525-527 | the bucket about to be added is a real one not added before |
| `BatchSearch.HistoryInv` | contrib/big_batch_search.py:330-338 | the same over every sequence of such events |
| `BatchSearch.FileKept` | contrib/big_batch_search.py:529-533 | nothing but a checkpoint of main changes the file, over any sequence of events |
| `BatchSearch.Resumes` | contrib/big_batch_search.py:154-175 | a process started after a checkpoint, whatever happened in between, has the results of the state that was saved, and wants exactly the buckets not completed then |
| `BatchSearch.CrashSafe` | contrib/big_batch_search.py:502-533 | however often the process crashed and restarted: when main stops, the result is that of the sequential pass over all lists |
| `OperatingPointSet.FrontierOf` | faiss/AutoTune.cpp:151-156 | a staircase that covers all recorded points is exactly their Pareto frontier |
| `OperatingPointSet.CurveUnique` | faiss/AutoTune.cpp:95-158 | the (perf, t) content of the frontier does not depend on insertion order |
| `OperatingPointSet.PrunedMeaning` | faiss/AutoTune.cpp:151-156 | the backward erasing loop leaves an increasing staircase that still covers every point |
| `OperatingPointSet.RemoveDominated` | faiss/AutoTune.cpp:151-156 | the loop over the array computes that pruning |
| `OperatingPointSet.Place` | faiss/AutoTune.cpp:119-150 | a point is placed exactly when no known point dominates it |
| `OperatingPointSet.OperatingPoints.Clear` | faiss/AutoTune.cpp:103-109 | back to the single default point |
| `OperatingPointSet.OperatingPoints.Add` | faiss/AutoTune.cpp:112-158 | optimal_pts stays the exact frontier of all recorded points and (0,0), and each of its entries is one of the recorded ones, label and number included, or the default; the result tells whether the point was undominated |
| `OperatingPointSet.OperatingPoints.MergeWith` | faiss/AutoTune.cpp:160-171 | the frontier of both sets; the result counts the points undominated when they came |
| `OperatingPointSet.OperatingPoints.TForPerf` | faiss/AutoTune.cpp:173-189 | the least time among recorded points that reach the performance; none exactly when no point does |
| `ParameterSpaces.NumberOfDigits` | faiss/AutoTune.cpp:283-302 | the digits of a combination number describe it |
| `ParameterSpaces.DigitsOfNumber` | faiss/AutoTune.cpp:283-302 | and every digit vector belongs to one number |
| `ParameterSpaces.GePartialOrder` | faiss/AutoTune.cpp:304-316 | combination_ge is a partial order on combinations |
| `ParameterSpaces.LeastAndGreatest` | faiss/AutoTune.cpp:789-792 | 0 is the least and n_comb - 1 the greatest combination |
| `ParameterSpaces.NCombPositive` | faiss/AutoTune.cpp:274-280 | there is a combination exactly when no parameter range is empty |
| `ParameterSpaces.ParameterSpace.NCombinations` | faiss/AutoTune.cpp:274-280 | the loop multiplies the range sizes |
| `ParameterSpaces.ParameterSpace.CombinationGe` | faiss/AutoTune.cpp:304-316 | the loop decides the product order on the digits |
| `ParameterSpaces.ParameterSpace.UpdateBounds` | faiss/AutoTune.cpp:726-741 | a comparable recorded point tightens the bound on its side, any other none |
| `ParameterSpaces.ParameterSpace.Bounds` | faiss/AutoTune.cpp:811-819 | the loop over the recorded points computes the two bounds of the next row |
| `ParameterSpaces.BoundsTightest` | faiss/AutoTune.cpp:811-819 | the upper bound is the least of 1 and the performances of the recorded combinations above, the lower one the greatest of 0 and the times of those below |
| `ParameterSpaces.BoundsEnclose` | faiss/AutoTune.cpp:726-741 | for a monotone index the bounds enclose the true performance and time |
| `ParameterSpaces.SkipIsDominated` | faiss/AutoTune.cpp:820-829 | a skipped experiment is dominated, so it cannot change the frontier |
| `ParameterSpaces.ParameterSpace.ExperimentOrder` | faiss/AutoTune.cpp:788-797 | a permutation of the combinations that starts with the least and the greatest one |
| `ParameterSpaces.ParameterSpace.MaySkip` | faiss/AutoTune.cpp:810-829 | a combination is skipped exactly when a recorded point reaches the upper performance bound within the lower time bound; then a recorded point dominates it |
| `ParameterSpaces.ParameterSpace.Try` | faiss/AutoTune.cpp:799-890 | skipped or run and recorded, by that test, the frontier is that of all combinations considered so far |
| `ParameterSpaces.ParameterSpace.RunAndRecord` | faiss/AutoTune.cpp:832-880 | running one combination records its performance, time and name under its number |
| `ParameterSpaces.ExploredMeaning` | faiss/AutoTune.cpp:799-880 | what the loop records are experiments with tried combinations, each under its own number, at most one for each |
| `ParameterSpaces.ParameterSpace.RunBudget` | faiss/AutoTune.cpp:782-890 | for any permutation, the final frontier is that of running every considered combination; recorded are exactly those that were not skipped |
| `ParameterSpaces.ParameterSpace.RunAll` | faiss/AutoTune.cpp:755-780 | with no limit every combination is run once, in order, and recorded with its values under its number |
| `ParameterSpaces.ParameterSpace.Explore` | faiss/AutoTune.cpp:743-891 | pruned exploration is lossless; every recorded point shows what the combination of its number measures, each combination at most once, without a limit each once; it throws exactly when experiments are limited, there is not exactly one combination, and at most two combinations or experiments |
| `ParameterSpaces.SameCurve` | faiss/AutoTune.cpp:743-891 | pruned and exhaustive exploration of all combinations end with the same curve |
| `Flat1D.ArgSortCorrect` | faiss/IndexFlat.cpp:426-433 | the permutation sorts the values and holds every index once |
| `Flat1D.IndexFlat1D.UpdatePermutation` | faiss/IndexFlat.cpp:426-433 | makes the permutation fit the values, in any state |
| `Flat1D.IndexFlat1D.Add` | faiss/IndexFlat.cpp:435-440 | appends, in any state; with continuous update the permutation then sorts the values, without it stays as it was |
| `Flat1D.IndexFlat1D.RemoveIds` | faiss/IndexFlatCodes.cpp:56-76 | the inherited removal keeps the permutation: one that sorted the values still does exactly when nothing was removed |
| `Flat1D.IndexFlat1D.AddSaCodes` | faiss/IndexFlatCodes.cpp:38-45 | appends without an update, also with continuous update |
| `Flat1D.IndexFlat1D.MergeFrom` | faiss/IndexFlatCodes.cpp:99-109 | appends the other values without an update and empties the other index; an index merged with itself ends empty |
| `Flat1D.IndexFlat1D.PermuteEntries` | faiss/IndexFlatCodes.cpp:115-124 | the values move, the permutation does not |
| `Flat1D.IndexFlat1D.Reset` | faiss/IndexFlat.cpp:442-445 | empties values and permutation |
| `Flat1D.WindowIsKnn` | faiss/IndexFlat.cpp:489-552 | a window around the query grown nearest-first is an exact k-NN answer |
| `Flat1D.TakeLeft` | faiss/IndexFlat.cpp:505-512 | taking the left end when it is not farther keeps the window nearest-first |
| `Flat1D.TakeRight` | faiss/IndexFlat.cpp:513-521 | the same for the right end |
| `Flat1D.Locate` | faiss/IndexFlat.cpp:467-496 | the bisection and its two early exits, for any permutation: the gap that the bisection as a function finds |
| `Flat1D.Expand` | faiss/IndexFlat.cpp:498-523 | the two-pointer loop, for any permutation: what is emitted and what is still to come make up the answer |
| `Flat1D.EmitNearer` | faiss/IndexFlat.cpp:501-522 | each round emits the nearer end of the window, the right one on ties |
| `Flat1D.FindNearest` | faiss/IndexFlat.cpp:467-553 | the whole search through all exits writes the answer of its permutation |
| `Flat1D.FinishRight` | faiss/IndexFlat.cpp:525-538 | the rest comes from the right, then padding |
| `Flat1D.FinishLeft` | faiss/IndexFlat.cpp:540-552 | the rest comes from the left, then padding |
| `Flat1D.IndexFlat1D.Search` | faiss/IndexFlat.cpp:447-555 | accepted exactly when k is not 0 and the lengths agree; the answer is that of the permutation, exact when it sorts the values: distinct labels by non-decreasing distance, nothing closer left out, padded with -1 exactly when k exceeds ntotal |
| `Flat1D.Complete` | faiss/IndexFlat.cpp:498-552 | over sorted values the expansion and its two endings always end with a window grown nearest-first |
| `Flat1D.SortedIsExact` | faiss/IndexFlat.cpp:447-555 | if the permutation sorts the values every answer is exact |
| `Flat1D.UnsortedIsWrong` | faiss/IndexFlat.cpp:447-555 | if it does not, a query below all values that asks for all of them gets a wrong answer |
| `Flat1D.ExactIffSorted` | faiss/IndexFlat.cpp:447-555 | for every permutation that passes the length check: all answers are exact if and only if it sorts the values |
| `Flat1D.WrongAfterRemoval` | faiss/IndexFlat.cpp:456-458 | add, update, remove, add, search: accepted, and the farther of two values is returned |
| `Flat1D.WrongAfterPermuting` | faiss/IndexFlat.cpp:456-458 | add, update, permute_entries, search: the same without any removal |
| `Panorama.CauchySchwarz` | faiss/IndexFlat.cpp:881-890 | the inner product is bounded by the product of the norms |
| `Panorama.DeriveLevels` | faiss/impl/Panorama.cpp:67-84 | the level width is the least that fits the requested number of levels, and the level count the least that covers the dimensions with it; refused exactly for zero levels or more levels than dimensions |
| `Panorama.LevelStep` | faiss/IndexFlat.cpp:865-879 | a level's actual width splits the remaining inner product exactly |
| `Panorama.DistanceByDot` | faiss/IndexFlat.cpp:849-854 | the squared distance in terms of norms and inner product |
| `Panorama.BoundHolds` | faiss/IndexFlat.cpp:881-890 | at every level the partial value with its Cauchy-Schwarz term bounds the true one, for both metrics |
| `Panorama.Refine` | faiss/IndexFlat.cpp:850-911 | a surviving candidate has its exact value; a pruned one would not have entered the full heap |
| `Panorama.SearchSubset` | faiss/IndexFlat.cpp:813-916 | with early abandoning the result list, ids included, is that of evaluating every non-negative base label completely |
| `Panorama.EvaluateBest` | faiss/IndexFlat.cpp:813-916 | that list is, for both metrics, the k best of the values of the valid labels, in order, ties by id |
| `Panorama.HoldsAfterAdd` | faiss/utils/Heap.h:112-151 | one more candidate: the binary heap holds exactly the entries of the list, ids included, and empty slots |
| `Panorama.AddToHeap` | faiss/impl/ResultHandler.h:264-288 | the same for the array heap, and for similarities its mirror image |
| `IvfAdd.BlocksCompose` | faiss/IndexIVF.cpp:233-251 | adding two blocks one after the other is adding their concatenation, for the lists and for the direct map |
| `IvfAdd.AddingTwice` | faiss/IndexIVF.cpp:233-251 | the same for the whole index: lists, ntotal and direct map |
| `IvfAdd.RecordsLocate` | faiss/IndexIVF.cpp:275-291 | every vector is recorded exactly once, at the place where its entry is found; one without list (-1) once too, lower numbers never |
| `IvfAdd.StepLists` | faiss/IndexIVF.cpp:275-283 | one step of a thread extends its list as the sequential loop does |
| `IvfAdd.StepRecords` | faiss/IndexIVF.cpp:285-290 | and makes exactly the record of its item |
| `IvfAdd.ParallelAdd` | faiss/IndexIVF.cpp:269-292 | for any thread count and interleaving every list gets the sequential sequence of ids and codes, every direct-map cell its one record |
| `IvfAdd.GrowsLists` | faiss/IndexIVF.cpp:275-283 | a vector of list l gets the place behind the old entries and the earlier vectors of l, with its code and its given id, or the next number; lists keep what they had and get nothing else |
| `IvfAdd.GrowsMap` | faiss/IndexIVF.cpp:285-290 | the direct map gets one cell for each vector: that place, or a mark for -1 |
| `IvfAdd.IndexIVF.AddCore` | faiss/IndexIVF.cpp:227-302 | adding in blocks of 65536 with any threads equals one sequential pass; vector by vector: its list, its place there by counting, its id (given, or numbered on from ntotal), its code, its cell in the direct map; refused without effect exactly when ids are given and the direct map is an array |
| `IvfAdd.IndexIVF.AddBlocks` | faiss/IndexIVF.cpp:233-251 | the block loop has that effect, over all blocks |
| `IvfSearch.AnyOrder` | faiss/IndexIVF.cpp:687-727 | visiting every probe once, in any order, gives the k best of the probed lists |
| `IvfSearch.ScanOneList` | faiss/IndexIVF.cpp:551-634 | offers the list's entries to the heap; negative keys offer nothing, keys past the last list are an error |
| `IvfSearch.MergeNext` | faiss/IndexIVF.cpp:525-536 | merging a thread's heap adds exactly the probes that it scanned |
| `IvfSearch.SearchSequential` | faiss/IndexIVF.cpp:640-686 | modes 0 and 3: the k best over the probes |
| `IvfSearch.SearchByQuery` | faiss/IndexIVF.cpp:640-686 | modes 0 and 3 for a batch of queries |
| `IvfSearch.ScanShared` | faiss/IndexIVF.cpp:695-711 | mode 1, scan: each probe goes to one thread, whose heap is best for its probes |
| `IvfSearch.SearchSharedQuery` | faiss/IndexIVF.cpp:687-727 | mode 1: after merging in any order, the k best over the probes |
| `IvfSearch.SearchByProbe` | faiss/IndexIVF.cpp:687-727 | mode 1 for a batch of queries |
| `IvfSearch.AllPairs` | faiss/IndexIVF.cpp:738-740 | the flat loop over n * nprobe meets every probe of every query |
| `IvfSearch.ScanStep` | faiss/IndexIVF.cpp:738-750 | mode 2: scanning a pair keeps the state of all queries |
| `IvfSearch.MergeStep` | faiss/IndexIVF.cpp:751-758 | mode 2: merging a held heap keeps it, at any later time |
| `IvfSearch.SearchByPair` | faiss/IndexIVF.cpp:728-766 | mode 2: every query gets the k best over its probes |
| `IvfSearch.SearchPreassigned` | faiss/IndexIVF.cpp:416-770 | all parallel modes give the reference answer; failure exactly for k <= 0, no probes, an unknown mode or an invalid key |
| `IvfSearch.CutsTile` | faiss/IndexIVF.cpp:387-388 | the slice bounds n*s/nt tile the batch |
| `IvfSearch.SliceOf` | faiss/IndexIVF.cpp:384-398 | every query lies in one of the slices |
| `IvfSearch.SearchSliced` | faiss/IndexIVF.cpp:379-402 | searching the slices in any order answers every query |
| `IvfSearch.Search` | faiss/IndexIVF.cpp:320-414 | the whole search, in every mode, sliced or not |
| `IvfBudget.SortedBounds` | faiss/impl/IDSelector.cpp:27-67 | the bisections delimit exactly the rows whose id is in the range |
| `IvfBudget.ScanOneList` | faiss/IndexIVF.cpp:574-633 | the list is cut to its allowed size first, then restricted by the selector; the count is that of passing rows |
| `IvfBudget.HardBudgetIsPrefix` | faiss/IndexIVF.cpp:654-677 | without selector a hard budget scans exactly the first max_codes entries of the probed lists |
| `IvfBudget.LargeBudget` | faiss/IndexIVF.cpp:477-483 | a budget that covers the probed lists cuts nothing |
| `IvfBudget.ExhaustedBudget` | faiss/IndexIVF.cpp:671-677 | stopping when the budget is used up loses nothing the budget would still admit |
| `IvfBudget.ScanCodes` | faiss/impl/expanded_scanners.h:43-65 | the rows that pass the selector are offered to the heap and counted |
| `IvfBudget.ProbeHard` | faiss/IndexIVF.cpp:655-677 | one probe under a hard budget |
| `IvfBudget.ProbeSoft` | faiss/IndexIVF.cpp:655-677 | one probe under a soft budget |
| `IvfBudget.SearchHard` | faiss/IndexIVF.cpp:640-686 | each list is cut at what max_codes has left (unlimited if zero), until nothing is left or all probes are visited, an invalid key among the visited ones being the only failure; without selector the rows scanned are min(max_codes, all rows) and the answer is the k best of the first max_codes rows |
| `IvfBudget.UnlimitedIsPlain` | faiss/IndexIVF.cpp:477-483 | without selector and budget the rows scanned give the answer of the plain search |
| `IvfBudget.SearchUnlimited` | faiss/IndexIVF.cpp:640-686 | so the budgeted loop returns that answer, fails exactly for an invalid key, and counts all rows of the probed lists |
| `IvfBudget.SearchSoft` | faiss/IndexIVF.cpp:640-686 | ensure_topk_full: whole lists up to exactly the first boundary that reaches both max_codes (unlimited if zero) and k; at least min(k, all passing candidates) scanned, and the result is as full |
| `ListCodec.ByteCountLeast` | faiss/IndexIVF.cpp:138-146 | the code width is the least that fits nlist - 1 |
| `ListCodec.BytesExact` | faiss/IndexIVF.cpp:148-156 | n little-endian bytes hold a number exactly when it is below 256^n |
| `ListCodec.CoarseCodeSize` | faiss/IndexIVF.cpp:138-146 | the counting loop gives that width: the least number of bytes that tells nlist lists apart; 8 for nlist 0, by unsigned arithmetic |
| `ListCodec.EncodeListno` | faiss/IndexIVF.cpp:148-156 | overwrites exactly the bytes of that width with those of the number |
| `ListCodec.DecodeListno` | faiss/IndexIVF.cpp:158-169 | reads the number back; refused exactly when it is not below nlist |
| `ListCodec.ListnoRoundTrip` | faiss/IndexIVF.cpp:148-169 | decoding what was encoded gives the number exactly for list numbers |
| `ListCodec.CodeSize1` | faiss/Index2Layer.cpp:42-47 | the constructor's loop finds the least width below 7, or none |
| `ListCodec.WidthsAgree` | faiss/Index2Layer.cpp:42-49 | both width computations agree exactly for 1 <= nlist <= 2^48 |
| `Index2Layer.StoredIsUsed` | faiss/Index2Layer.cpp:42-49 | the width stored at construction is the one that the list-number codec uses, for 1 to 2^48 lists |
| `Index2Layer.ExpandedStep` | faiss/Index2Layer.cpp:299-303 | one round of the backward loop writes its record and keeps the unread codes and the finished records |
| `Index2Layer.ExpandBlock` | faiss/Index2Layer.cpp:299-303 | the in-place expansion never overwrites an unread code, and leaves the rest of the buffer |
| `Index2Layer.EncodeBlock` | faiss/Index2Layer.cpp:290-303 | every record holds its list number and its code; bytes outside the block stay |
| `Index2Layer.SaEncode` | faiss/Index2Layer.cpp:271-304 | the same for the whole input, in blocks |
| `Index2Layer.SaDecode` | faiss/Index2Layer.cpp:306-323 | every vector is its decoded second-level code moved by the centroid of its list |
| `Index2Layer.MemberAt` | faiss/Index2Layer.cpp:122-128 | a vector comes behind the earlier vectors of its list, under its number; the list holds no others |
| `Index2Layer.TransferToIVFPQ` | faiss/Index2Layer.cpp:113-129 | every list receives exactly its members, in order, each at the place that counting the earlier ones gives, under its number; refused exactly for another nlist, code size or a non-empty target |
| `SlidingWindow.ShiftAndAdd` | faiss/IVFlib.cpp:192-221 | drops the front and appends the new part |
| `SlidingWindow.ShiftSizes` | faiss/IVFlib.cpp:262-264 | the cumulative sizes of the remaining slices |
| `SlidingWindow.ReplaceOldest` | faiss/IVFlib.cpp:252-266 | one list after swapping the oldest slice for a new one, ids and codes aligned |
| `SlidingWindow.Append` | faiss/IVFlib.cpp:268-273 | one list after adding a slice |
| `SlidingWindow.PopOldest` | faiss/IVFlib.cpp:276-285 | one list after dropping the oldest slice |
| `SlidingWindow.SlidingIndexWindow.constructor` | faiss/IVFlib.cpp:183-191 | the window over an empty index is the empty queue |
| `SlidingWindow.SlidingIndexWindow.Replace` | faiss/IVFlib.cpp:252-266 | a slice in, the oldest out, in every list |
| `SlidingWindow.SlidingIndexWindow.AddSlice` | faiss/IVFlib.cpp:267-274 | a slice in, in every list |
| `SlidingWindow.SlidingIndexWindow.RemoveSlice` | faiss/IVFlib.cpp:275-287 | the oldest out, in every list |
| `SlidingWindow.JoinAligned` | faiss/IVFlib.cpp:258-261 | the codes of a list stay code_size bytes per id |
| `SlidingWindow.SlidingIndexWindow.Step` | faiss/IVFlib.cpp:237-292 | the window moves as a queue of slices: contents, cumulative sizes and ntotal; refused without effect exactly when there is nothing to remove or nothing to do |
| `FlatCodes.MoveRecord` | faiss/IndexFlatCodes.cpp:62-66 | moving code_size bytes moves one record and nothing else |
| `FlatCodes.CompactStep` | faiss/IndexFlatCodes.cpp:57-69 | one round of a compacting loop, for codes and ids alike |
| `FlatCodes.KeptAt` | faiss/IndexFlatCodes.cpp:57-69 | what compaction keeps is every element at an unselected position, behind those before it, and nothing else |
| `FlatCodes.Compact` | faiss/IndexFlatCodes.cpp:56-75 | the loop over the bytes leaves exactly the kept codes |
| `FlatCodes.KeptAligned` | faiss/IndexIDMap.cpp:257-275 | compaction by position keeps two sequences aligned |
| `FlatCodes.IndexFlatCodes.AddSaCodes` | faiss/IndexFlatCodes.cpp:38-45 | appends the given codes |
| `FlatCodes.IndexFlatCodes.Reset` | faiss/IndexFlatCodes.cpp:47-50 | empties the store |
| `FlatCodes.IndexFlatCodes.RemoveIds` | faiss/IndexFlatCodes.cpp:56-76 | keeps exactly the codes at unselected positions, in order, and counts the others |
| `FlatCodes.IndexFlatCodes.MergeFrom` | faiss/IndexFlatCodes.cpp:87-109 | appends the other store and empties it, also when it is the same store; refused without effect for another code size or an id offset |
| `FlatCodes.IndexFlatCodes.PermuteEntries` | faiss/IndexFlatCodes.cpp:115-124 | entry i becomes the former entry perm[i] |
| `FlatCodes.IndexFlatCodes.Reconstruct` | faiss/IndexFlatCodes.cpp:78-85 | the code at a position; refused exactly outside the store |
| `IdMap.CompactTogether` | faiss/IndexIDMap.cpp:257-275 | removal through the translated selector and removal by id leave exactly the pairs whose id is not selected |
| `IdMap.RemainingMeaning` | faiss/IndexIDMap.cpp:257-275 | a pair with an unselected id remains as often as it was there, no other does |
| `IdMap.IndexIDMap.AddSaCodes` | faiss/IndexIDMap.cpp:107-147 | appends the (id, code) pairs |
| `IdMap.IndexIDMap.RemoveIds` | faiss/IndexIDMap.cpp:257-275 | keeps exactly the pairs with unselected ids; j == index->ntotal holds |
| `IdMap.IndexIDMap.MergeFrom` | faiss/IndexIDMap.cpp:277-296 | appends the other's pairs with shifted ids and empties it; refused without effect when incompatible |
| `IdMap.IndexIDMap.Reset` | faiss/IndexIDMap.cpp:99-104 | empties the wrapper and its store |
| `IdMap.LastIsLast` | faiss/IndexIDMap.cpp:371-377 | the reverse map points to the last position of an id |
| `IdMap.InverseIffDistinct` | faiss/IndexIDMap.cpp:371-377 | the reverse map inverts the id map exactly when no id is repeated |
| `IdMap.ConsistentIffDistinct` | faiss/IndexIDMap.cpp:350-359 | the self-check accepts exactly the indexes without repeated ids |
| `IdMap.IndexIDMap2.ConstructRevMap` | faiss/IndexIDMap.cpp:371-377 | rebuilds the reverse map |
| `IdMap.IndexIDMap2.ExtendRevMap` | faiss/IndexIDMap.cpp:319-323 | recording the positions from the old end on keeps the reverse map |
| `IdMap.IndexIDMap2.AddSaCodes` | faiss/IndexIDMap.cpp:338-348 | appends the pairs and keeps the reverse map |
| `IdMap.IndexIDMap2.RemoveIds` | faiss/IndexIDMap.cpp:379-385 | removes pairs and keeps the reverse map |
| `IdMap.IndexIDMap2.MergeFrom` | faiss/IndexIDMap.cpp:361-369 | merges and keeps both reverse maps |
| `IdMap.IndexIDMap2.CheckConsistency` | faiss/IndexIDMap.cpp:350-359 | throws exactly when the maps are not inverse to each other, in any state |
| `IdMap.IndexIDMap2.Reconstruct` | faiss/IndexIDMap.cpp:387-396 | the last code stored under an id; refused exactly for unknown ids |
| `IdMap.IndexIDMap2.InheritedReset` | faiss/IndexIDMap.cpp:99-104 | after the inherited reset the self-check passes exactly when there was nothing to reset |
| `RangeMax.KeptTwice` | contrib/exhaustive_search.py:219-231 | filtering again with a tighter radius is filtering with the tighter radius |
| `RangeMax.KeptMeaning` | contrib/exhaustive_search.py:219-231 | filtering keeps exactly the hits strictly within the radius, for both metrics |
| `RangeMax.TightestRadius` | contrib/exhaustive_search.py:251-259 | the order statistic is one of the values, admits at most the target number, and any looser radius admits more, for both metrics |
| `RangeMax.NextRadius` | contrib/exhaustive_search.py:251-259 | taken from the current results, the radius is not looser, leaves at most the target number, and any looser radius up to the current one leaves more |
| `RangeMax.LimitsCut` | contrib/exhaustive_search.py:372-377 | the limits cut the flat results into the results of the single queries |
| `RangeMax.ThresholdRadius` | contrib/exhaustive_search.py:219-231 | the per-query counts and the kept results of a batch at a tighter radius |
| `RangeMax.ThresholdAll` | contrib/exhaustive_search.py:266-273 | every batch at the tighter radius, in place, and the total |
| `RangeMax.ApplyMaxres` | contrib/exhaustive_search.py:248-274 | all batches become the range search at the loosest radius that leaves at most the target number; the assertion fails exactly when there are not more results than the target |
| `RangeMax.ProcessBatch` | contrib/exhaustive_search.py:322-357 | after every batch the results are those of one radius, never looser than before; when they exceeded max_results they number at most min_results and any looser radius leaves more; it fails exactly when there are more than max_results but not more than min_results |
| `RangeMax.LimitBroken` | contrib/exhaustive_search.py:342-351 | for every min_results above max_results, and both metrics, a first batch whose results still exceed max_results afterwards |
| `RangeMax.RangeSearchMaxResults` | contrib/exhaustive_search.py:277-379 | the results and limits are those of one range search of all queries at the final radius; at most max_results unless min_results exceeds it, at most one and a half min_results without max_results, at most the lower limit when clipped; the radius stays while the results fit the upper limit, and each time they do not it becomes the loosest that leaves the lower one; it fails exactly without limits, without batches, or in a batch whose results exceed max_results but not min_results |

## Left out

- Floating-point rounding, SIMD dispatch, prefetching, wall-clock timing, statistics, printing and interrupts: none of the modelled promises is about them. The 0.02 of the HNSW batch bound and the 0.8 and 1.5 of the result limits are exact fractions here.
- HnswBuild.Hnsw.AddVertices: `levels` is given, because `prepare_level_tab` draws it at random; an exception out of phase A (interrupt) is not modelled.
- HNSW link computation and the link-shrinking rule: the search of a point is any program that reads rows of nodes it has met and links its point to such nodes; reading a row and writing a link are single steps. A merge replaces the links of one node by any function of the old links and of the set of sources that adds nothing else; the code sorts the sources and drops duplicates first (faiss/impl/HNSW.cpp:880-882).
- HnswDeterminism.BuildDeterministic: before the addition links lead from old nodes to old nodes only; a search depends on the graph only through the rows that it reads.
- ParameterSpaces.ParameterSpace.Explore: a combination has one performance, one time and one name, the same at every run (how the name is put together is left out), and performance and time are monotone in the combination order, as the pruning itself assumes; points recorded before the call must come from that index.
- OperatingPointSet.OperatingPoints.Add: a point of performance 0 with a negative time is excluded; the code never keeps one, although nothing need dominate it.
- OperatingPointSet.OperatingPoints.MergeWith: merging a set with itself, which appends to the vector it reads, is excluded.
- Flat1D.IndexFlat1D.Search: one query; queries write disjoint output rows. The code returns |x - q|, although the class derives from the squared-distance index; the model follows the code.
- Flat1D.IndexFlat1D.Search: refusing search parameters is not modelled.
- Panorama.SearchSubset: the norms of the suffixes are given as exact square roots; batch size 1, as the code demands.
- BatchSearch.CrashSafe: stated per query for distances; equal distances may keep different labels. A restart resumes from the last complete checkpoint, since the file is replaced atomically. Only the modes above 1 skip completed lists: the modes 0 and 1 also read an existing checkpoint but process every list again, as the documentation (checkpoints only for higher modes) warns.
- Pipeline.StepInv: exceptions in workers, which abort the process in the code, are not modelled.
- IvfAdd.IndexIVF.AddCore: encoding is done before the call; the direct map is absent or an array. With a hashtable and no ids the code numbers from a field that its constructor never sets, so that combination is left out.
- IvfSearch.SearchPreassigned: stated for distances; equal distances may keep different labels. The flag that skips heap initialisation, iterators over lists, and storing (list, offset) pairs are left out.
- IvfBudget.SearchHard: the rule that budgets are refused in modes 1 and 2 is a single check and is left out; the selector of the soft and hard budgets is a predicate on ids or a sorted id range.
- Index2Layer.SaEncode: coarse assignment and product quantization give arbitrary list numbers and codes; with no list, or more than 2^48, the stored width is not that of the codec (`WidthsAgree`) and nothing is claimed.
- Index2Layer.SaDecode: decoding of a second-level code and the centroids are given functions.
- SlidingWindow.SlidingIndexWindow.constructor: a wrapped index that already holds vectors, which would leave with the oldest slice, is left out.
- SlidingWindow.SlidingIndexWindow.Step: a sub-index has the same number of lists and the same code size, as the compatibility check demands; a sub-index that is the window itself is excluded.
- IdMap.IndexIDMap.MergeFrom: merging an index with itself, where the loop over the ids would never end, is excluded, as are two wrappers over one sub-index.
- IdMap.IndexIDMap.constructor: the code throws for a non-empty sub-index; here that is a precondition, because a Dafny constructor cannot fail. Encoding of vectors and translation of search labels are left out.
- RangeMax.RangeSearchMaxResults: the index reports the hits of a query in one order whatever the radius; GPU search and the conversion for binary indexes are left out.
- ResultHeap.Collect: ids are not -1, which marks empty slots.
- IVF merging, range search over inverted lists, k-means training, `hnsw_add_vertices` with locks, `ivf_residual_add_from_flat_codes`, the C API, remote and on-disk storage: not part of this model.
