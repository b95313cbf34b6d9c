# Grouped Top-N row-number accumulator

A Dafny model of Trino's `GroupedTopNRowNumberAccumulator`, the per-group
bounded Top-N buffer behind the row-number-per-partition operator, together
with the testing row handle `TestingRowReference` that drives it. The
behaviour is the one that `TestGroupedTopNRowNumberAccumulator` asserts.

For every group id the accumulator keeps at most `topN` row ids in an
array-backed max-heap under the natural order of ids (`Long::compare`), so
the root is the worst row kept. `add(groupId, row)` works as follows:

- A group that is not yet full extracts the row id (`allocateRowId`) and
  sifts it up.
- A full group compares the candidate with its root through the handle,
  without extracting it.
- If the candidate is not better, it is rejected: nothing is extracted and
  nothing is evicted.
- If it is better, its id is extracted, the old root goes to the eviction
  callback, and the candidate takes the root's place and is sifted down.

`drainTo(groupId, out)` writes the group's rows to the front of `out` in
ascending order, heap-sort style, returns how many it wrote and leaves the
group empty. `verifyIntegrity()` checks the heap property of every group.
Referencing a group id creates every missing group up to that id, empty; groups that already exist keep their rows.

The project is organised as follows:

- `heaps.dfy` (module `Heaps`): the max-heap property, in-place sift-up
  and sift-down on an array slice, and the lemmas that a heap's root is its
  worst row and that two ascending sequences with the same rows are equal.
- `reference.dfy` (module `TopNReference`): a heap-free reference
  definition. Each group is an ascending sequence, and `Run` replays a
  script of offers, recording each offer's acceptance and the evictions seen
  after it. It proves the Top-N promise: every group keeps the best
  min(topN, offered) rows offered to it.
- `row_reference.dfy` (module `RowReferences`): `TestingRowReference`
  as a class with a mutable row id and an "extracted" flag, and `Long::compare`.
- `accumulator.dfy` (module `TopNAccumulator`): the accumulator as a
  class holding one `array<int>` heap slice and one occupied count per
  group, updated in place. It also holds the eviction listener and the
  `LongBigArray` output buffer.
- `replay.dfy` (module `AccumulatorRefinement`): driving the accumulator
  through the row handle keeps it agreeing with the reference, offer by
  offer. A drain yields exactly the reference's ascending rows.
- `scenario_traces.dfy` and `many_groups_trace.dfy`: the reference runs of
  the test scenarios, proved one offer at a time.
- `scenarios.dfy` (module `AccumulatorScenarios`): each test scenario as a
  method that runs the accumulator and states the test's expected values in
  its `ensures`.

## Model

| member | source | states |
|---|---|---|
| RowReferences.LongCompare | core/trino-main/src/test/java/io/trino/operator/TestGroupedTopNRowNumberAccumulator.java:36 | the comparator is negative, zero or positive exactly when the first id is smaller than, equal to or larger than the second |
| RowReferences.TestingRowReference.constructor | core/trino-main/src/test/java/io/trino/operator/TestGroupedTopNRowNumberAccumulator.java:243-247 | a new handle holds row id 0 and is not extracted, the default values of its fields |
| RowReferences.TestingRowReference.SetRowId | core/trino-main/src/test/java/io/trino/operator/TestGroupedTopNRowNumberAccumulator.java:249-253 | the handle now holds the new id and its extracted flag is cleared |
| RowReferences.TestingRowReference.IsRowIdExtracted | core/trino-main/src/test/java/io/trino/operator/TestGroupedTopNRowNumberAccumulator.java:255-258 | reports the extracted flag without changing the handle |
| RowReferences.TestingRowReference.CompareTo | core/trino-main/src/test/java/io/trino/operator/TestGroupedTopNRowNumberAccumulator.java:260-264 | compares the handle's id with another id in the natural order: negative, zero or positive for smaller, equal or larger |
| RowReferences.TestingRowReference.AllocateRowId | core/trino-main/src/test/java/io/trino/operator/TestGroupedTopNRowNumberAccumulator.java:278-283 | returns the handle's id unchanged and sets the extracted flag |
| Heaps.RootIsMax | core/trino-main/src/test/java/io/trino/operator/TestGroupedTopNRowNumberAccumulator.java:99-111 | in a max-heap every row is not worse than the root, so the root is the worst row kept and is the one a better row evicts |
| Heaps.RootIsLargest | core/trino-main/src/test/java/io/trino/operator/TestGroupedTopNRowNumberAccumulator.java:99-111 | every row of a non-empty max-heap is at most its root |
| Heaps.SortedUnique | core/trino-main/src/test/java/io/trino/operator/TestGroupedTopNRowNumberAccumulator.java:113-117 | two ascending sequences holding the same rows are equal, so a drain's output is determined by the group's rows |
| Heaps.PopRoot | core/trino-main/src/test/java/io/trino/operator/TestGroupedTopNRowNumberAccumulator.java:113-117 | moving the last row into the root keeps all other rows and breaks the heap at most below the root |
| Heaps.SiftUpStep | core/trino-main/src/test/java/io/trino/operator/TestGroupedTopNRowNumberAccumulator.java:78-90 | swapping a node with its smaller parent moves the only heap violation one level up |
| Heaps.SiftDownStep | core/trino-main/src/test/java/io/trino/operator/TestGroupedTopNRowNumberAccumulator.java:99-111 | swapping a node with its larger, larger-than-it child moves the only heap violation one level down |
| Heaps.SiftUp | core/trino-main/src/test/java/io/trino/operator/TestGroupedTopNRowNumberAccumulator.java:78-90 | after appending a row, sifting it up makes the slice a max-heap again with the same rows and leaves the rest of the array alone |
| Heaps.SiftDown | core/trino-main/src/test/java/io/trino/operator/TestGroupedTopNRowNumberAccumulator.java:99-111 | after overwriting the root, sifting it down makes the slice a max-heap again with the same rows and leaves the rest of the array alone |
| TopNReference.WithGroup | core/trino-main/src/test/java/io/trino/operator/TestGroupedTopNRowNumberAccumulator.java:234-235 | referencing group g makes groups 0..g exist; new groups are empty and existing groups keep their rows |
| TopNReference.InsertSorted | core/trino-main/src/test/java/io/trino/operator/TestGroupedTopNRowNumberAccumulator.java:150-159 | placing a row into a group adds exactly that row, growing the group by one |
| TopNReference.InsertSortedIsSorted | core/trino-main/src/test/java/io/trino/operator/TestGroupedTopNRowNumberAccumulator.java:150-165 | placing a row into an ascending group keeps it ascending |
| TopNReference.OfferRowEffect | core/trino-main/src/test/java/io/trino/operator/TestGroupedTopNRowNumberAccumulator.java:41-60 | an offer is accepted iff the group is not full or the row is better than the worst kept row; a full group that accepts evicts exactly one row, and the kept plus evicted rows are the old rows plus the accepted row |
| TopNReference.OfferRowSorted | core/trino-main/src/test/java/io/trino/operator/TestGroupedTopNRowNumberAccumulator.java:113-117 | an offer keeps the group ascending |
| TopNReference.OfferAppends | core/trino-main/src/test/java/io/trino/operator/TestGroupedTopNRowNumberAccumulator.java:78-90 | a not-full group takes a row no better than its rows at its end, evicting nothing |
| TopNReference.OfferRejects | core/trino-main/src/test/java/io/trino/operator/TestGroupedTopNRowNumberAccumulator.java:92-97 | a full group rejects a row no better than its worst row and changes nothing |
| TopNReference.OfferReplacesFront | core/trino-main/src/test/java/io/trino/operator/TestGroupedTopNRowNumberAccumulator.java:55-60 | a full group takes a row better than all its rows in front and evicts its worst row |
| TopNReference.OfferReplacesLast | core/trino-main/src/test/java/io/trino/operator/TestGroupedTopNRowNumberAccumulator.java:106-111 | a full group takes a row better only than its worst row in the worst row's place and evicts the worst row |
| TopNReference.StepGood | core/trino-main/src/test/java/io/trino/operator/TestGroupedTopNRowNumberAccumulator.java:41-111 | one offer keeps every group ascending and within capacity |
| TopNReference.RunGood | core/trino-main/src/test/java/io/trino/operator/TestGroupedTopNRowNumberAccumulator.java:41-111 | after any script every group is ascending and holds at most topN rows |
| TopNReference.RunExtends | core/trino-main/src/test/java/io/trino/operator/TestGroupedTopNRowNumberAccumulator.java:41-111 | a run of one more offer is the previous run followed by that offer's step |
| TopNReference.OfferKeepsBest | core/trino-main/src/test/java/io/trino/operator/TestGroupedTopNRowNumberAccumulator.java:41-111 | one offer keeps the Top-N invariant: the group holds min(topN, offered) of the offered rows and no row left out is better than a kept one |
| TopNReference.RunKeepsBest | core/trino-main/src/test/java/io/trino/operator/TestGroupedTopNRowNumberAccumulator.java:177-221 | after any script of offers, every group is ascending and keeps the best min(topN, offered) of the rows offered to it |
| TopNAccumulator.EvictionListener.Accept | core/trino-main/src/test/java/io/trino/operator/TestGroupedTopNRowNumberAccumulator.java:35-36 | the eviction callback appends each evicted id to the record, so evictions are recorded in the order they happen |
| TopNAccumulator.DrainHeap | core/trino-main/src/test/java/io/trino/operator/TestGroupedTopNRowNumberAccumulator.java:113-117 | the drain writes the heap's rows to the output's first n positions in ascending order and leaves the other positions unchanged |
| TopNAccumulator.PopInPlace | core/trino-main/src/test/java/io/trino/operator/TestGroupedTopNRowNumberAccumulator.java:113-117 | removing the root returns the old root and leaves a max-heap of the remaining rows |
| TopNAccumulator.DrainStep | core/trino-main/src/test/java/io/trino/operator/TestGroupedTopNRowNumberAccumulator.java:113-117 | writing the popped root into the last free output slot keeps the drain invariant: the output tail is ascending and dominates the heap |
| TopNAccumulator.PushInPlace | core/trino-main/src/test/java/io/trino/operator/TestGroupedTopNRowNumberAccumulator.java:78-90 | appending a row to a heap slice that is not full yields a max-heap with that row added |
| TopNAccumulator.ReplaceRootInPlace | core/trino-main/src/test/java/io/trino/operator/TestGroupedTopNRowNumberAccumulator.java:99-111 | overwriting the root yields a max-heap of the old rows with the root replaced by the new row |
| TopNAccumulator.GroupedTopNRowNumberAccumulator.constructor | core/trino-main/src/test/java/io/trino/operator/TestGroupedTopNRowNumberAccumulator.java:34-37 | a new accumulator has no groups and satisfies its invariant |
| TopNAccumulator.GroupedTopNRowNumberAccumulator.EnsureGroupExists | core/trino-main/src/test/java/io/trino/operator/TestGroupedTopNRowNumberAccumulator.java:234-235 | referencing a group creates every missing group up to it, empty, and keeps the rows of the others |
| TopNAccumulator.GroupedTopNRowNumberAccumulator.Add | core/trino-main/src/test/java/io/trino/operator/TestGroupedTopNRowNumberAccumulator.java:41-111 | accepted iff the group is not full or the row is better than the root; an accepted row's id is extracted; a rejected row changes no group, flag or eviction; a full group that accepts evicts exactly its old root; other groups are unchanged |
| TopNAccumulator.GroupedTopNRowNumberAccumulator.AddToOpenGroup | core/trino-main/src/test/java/io/trino/operator/TestGroupedTopNRowNumberAccumulator.java:42-46 | a group that is not full accepts the row, extracts its id, adds it to its heap and evicts nothing |
| TopNAccumulator.GroupedTopNRowNumberAccumulator.OfferToFullGroup | core/trino-main/src/test/java/io/trino/operator/TestGroupedTopNRowNumberAccumulator.java:48-60 | a full group accepts iff the row is better than the root; on acceptance the row id is extracted and the root is replaced and reported to the listener; otherwise nothing changes |
| TopNAccumulator.GroupedTopNRowNumberAccumulator.DrainTo | core/trino-main/src/test/java/io/trino/operator/TestGroupedTopNRowNumberAccumulator.java:62-65 | returns the group's row count, writes exactly its rows ascending to the output's front, empties that group, leaves other groups and later output positions unchanged, and returns 0 for a group that was never referenced |
| TopNAccumulator.GroupedTopNRowNumberAccumulator.VerifyIntegrity | core/trino-main/src/test/java/io/trino/operator/TestGroupedTopNRowNumberAccumulator.java:37 | reports true iff every group's slice is a max-heap, changing nothing |
| AccumulatorRefinement.HeapRootIsSortedLast | core/trino-main/src/test/java/io/trino/operator/TestGroupedTopNRowNumberAccumulator.java:99-111 | the heap root is the last row of the same rows sorted ascending, so the accumulator evicts the reference's worst row |
| AccumulatorRefinement.AddFollowsStep | core/trino-main/src/test/java/io/trino/operator/TestGroupedTopNRowNumberAccumulator.java:41-111 | the accumulator's add takes a state agreeing with the reference to one agreeing with the reference's step, with the same acceptance |
| AccumulatorRefinement.OfferOne | core/trino-main/src/test/java/io/trino/operator/TestGroupedTopNRowNumberAccumulator.java:42-45 | one setRowId / add / verifyIntegrity / isRowIdExtracted round agrees with the reference step; the integrity check passes and the extracted flag equals the acceptance |
| AccumulatorRefinement.Replay | core/trino-main/src/test/java/io/trino/operator/TestGroupedTopNRowNumberAccumulator.java:181-208 | replaying a script leaves the accumulator agreeing with the reference run; each acceptance and extraction and the evictions seen after each add equal the reference's; every integrity check passes |
| AccumulatorRefinement.DrainGroup | core/trino-main/src/test/java/io/trino/operator/TestGroupedTopNRowNumberAccumulator.java:213-221 | a drain writes exactly the reference's ascending rows of the group and empties it, returning the count; the integrity check passes |
| ScenarioTraces.TopN1Trace | core/trino-main/src/test/java/io/trino/operator/TestGroupedTopNRowNumberAccumulator.java:32-60 | with topN 1 the script 0, 1, -1 is accepted, rejected, accepted; -1 evicts 0 and the group ends with -1 |
| ScenarioTraces.TopN2Trace | core/trino-main/src/test/java/io/trino/operator/TestGroupedTopNRowNumberAccumulator.java:68-111 | with topN 2 the script 0, 1, 2, -2, -1 is accepted except 2; the evictions are [1] then [1, 0]; the group ends with -2, -1 |
| ScenarioTraces.TopN2PartialFillTrace | core/trino-main/src/test/java/io/trino/operator/TestGroupedTopNRowNumberAccumulator.java:128-134 | with topN 2 the single row 0 is accepted and kept |
| ScenarioTraces.TopN4PartialFillTrace | core/trino-main/src/test/java/io/trino/operator/TestGroupedTopNRowNumberAccumulator.java:150-159 | with topN 4 the rows 0 and 1 are both accepted and kept in order |
| ScenarioTraces.EmptyDrainTrace | core/trino-main/src/test/java/io/trino/operator/TestGroupedTopNRowNumberAccumulator.java:232-236 | adding to group 1 first creates group 0 empty and puts the row in group 1 |
| ManyGroupsTrace.FillStep | core/trino-main/src/test/java/io/trino/operator/TestGroupedTopNRowNumberAccumulator.java:181-189 | each id of the first batch is appended to its group, which is not yet full |
| ManyGroupsTrace.RejectStep | core/trino-main/src/test/java/io/trino/operator/TestGroupedTopNRowNumberAccumulator.java:192-199 | each id of the second batch is rejected: it exceeds every kept id of its full group |
| ManyGroupsTrace.ReplaceStep | core/trino-main/src/test/java/io/trino/operator/TestGroupedTopNRowNumberAccumulator.java:202-208 | each id x of the decreasing third batch goes in front of its group and evicts x + 1000 |
| ManyGroupsTrace.MultiPrefix | core/trino-main/src/test/java/io/trino/operator/TestGroupedTopNRowNumberAccumulator.java:177-208 | after any number of offers the run's groups, evictions, acceptances and eviction history are those of the three batches up to that point |
| ManyGroupsTrace.MultiTrace | core/trino-main/src/test/java/io/trino/operator/TestGroupedTopNRowNumberAccumulator.java:177-221 | the whole run: first and third batches accepted, second rejected, evictions 1999 down to 1000, group h ends with h, 10 + h, ..., 990 + h |
| AccumulatorScenarios.NewAccumulator | core/trino-main/src/test/java/io/trino/operator/TestGroupedTopNRowNumberAccumulator.java:36-37 | a fresh accumulator of the given capacity has no groups and passes the integrity check |
| AccumulatorScenarios.SingleGroupTopN1 | core/trino-main/src/test/java/io/trino/operator/TestGroupedTopNRowNumberAccumulator.java:32-66 | acceptances and extractions are true, false, true; evictions after each add are [], [], [0]; the drain returns 1 and writes -1 |
| AccumulatorScenarios.SingleGroupTopN2 | core/trino-main/src/test/java/io/trino/operator/TestGroupedTopNRowNumberAccumulator.java:68-118 | acceptances and extractions are true, true, false, true, true; evictions [], [], [], [1], [1, 0]; the drain returns 2 and writes -2, -1 |
| AccumulatorScenarios.SingleGroupTopN2PartialFill | core/trino-main/src/test/java/io/trino/operator/TestGroupedTopNRowNumberAccumulator.java:120-140 | the one add is accepted and extracted with no eviction; the drain returns 1 and writes 0 |
| AccumulatorScenarios.SingleGroupTopN4PartialFill | core/trino-main/src/test/java/io/trino/operator/TestGroupedTopNRowNumberAccumulator.java:142-166 | both adds are accepted and extracted with no eviction; the drain returns 2 and writes 0, 1 |
| AccumulatorScenarios.EmptyDrain | core/trino-main/src/test/java/io/trino/operator/TestGroupedTopNRowNumberAccumulator.java:224-241 | the add to group 1 is accepted, and draining the never-filled group 0 returns 0 |
| AccumulatorScenarios.EvictedDownRange | core/trino-main/src/test/java/io/trino/operator/TestGroupedTopNRowNumberAccumulator.java:210-211 | an id is among the first n evicted ids iff it lies in 2000 - n .. 1999 |
| AccumulatorScenarios.DrainEvery | core/trino-main/src/test/java/io/trino/operator/TestGroupedTopNRowNumberAccumulator.java:214-221 | draining groups 0..9 in turn into one buffer yields each group's reference rows, ascending, with matching counts |
| AccumulatorScenarios.MultipleGroups | core/trino-main/src/test/java/io/trino/operator/TestGroupedTopNRowNumberAccumulator.java:168-222 | the first and third batches are accepted and extracted, the second rejected; nothing is evicted before the third batch; the evicted ids are exactly 1000..1999; every group drains 100 rows, row j of group h being 10 * j + h |

## Left out

- The accumulator's own implementation is not part of this model. The model chooses one array-backed max-heap per group, with the parent of node i at (i - 1) / 2. Only the behaviour the test observes is claimed to match: acceptance, extraction, evictions, drain counts and drained order. The real internal layout may differ, for example in heap positions or in storage shared between groups.
- TopNAccumulator.GroupedTopNRowNumberAccumulator.constructor: the error the accumulator raises for a capacity below 1 is not modelled; the constructor requires a capacity of at least 1.
- Row ids are unbounded integers rather than 64-bit longs. No arithmetic is done on ids, so this changes no behaviour.
- The comparator is fixed to the natural order of ids (`Long::compare`), the only one the test uses, rather than being a parameter.
- Group ids are natural numbers. The test never uses a negative group id.
- Memory accounting (`sizeOf`) and any compaction of backing storage.
- `LongBigArray`'s chunked storage: the output buffer is a sequence that a drain grows as needed, filling new positions with 0.
- The fastutil `LongArrayList` and `LongArraySet` eviction collections: the listener records evictions as a sequence. The test's `Set` comparison is stated as membership of the recorded ids.
- `RowReference.equals` and `hash`: the accumulator never calls them.
- Tie-breaking among equal row ids: no test asserts it, and the drain contract fixes only the ascending order.
- TopNAccumulator.GroupedTopNRowNumberAccumulator.DrainTo: draining a group id that was never referenced returns 0 and creates no group. This is a choice of the model: the test never drains such a group, and what the program does there (it might throw) is not known.
- Each group gets a heap slice of capacity `topN` as soon as its id is first referenced, not at its first insertion; this changes no observable result.
- TopNAccumulator.GroupedTopNRowNumberAccumulator.VerifyIntegrity: returns whether the heap property holds instead of throwing when it does not. Its precondition is only the storage layout, so it can report a broken heap.
- The test harness's assertions are stated as the scenario methods' postconditions. Nothing here is executed.
