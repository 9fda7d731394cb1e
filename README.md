# Parallel map and reduce over Swift collections, modelled in Dafny

This project models the core of the `swift-parallel-computing` library: the
four collection extensions in `ParallelComputing/SequenceType+Extensions.swift`.

- `parallelMap` submits one task per element. Each task writes
  `try? transform(object)` at its own index of a shared `[T?]` buffer.
- `partitionedParallelMap` splits the collection into `numberOfPartitions`
  contiguous ranges plus a leftover range. Each range's task maps its
  subsequence and `replaceRange`s that range of the buffer.
- `parallelReduce` submits one task per element. Each task folds its element
  into a shared accumulator inside the lock.
- `partitionedParallelReduce` submits one task per range. Each task folds its
  whole subsequence from the current accumulator inside the lock.

Both partitioned operations fall back to the sequential `map` / `reduce`
unless `0 < numberOfPartitions < count`. In that fallback a throw reaches the
caller.

How the model is built:

- The collection is a `seq<E>` with integer offsets.
- A closure that may throw returns an `Option`. `None` means "threw".
- `ThreadSafeReference` is a class with one field. Its `PerformBlock` is a
  single atomic `value := block(value)` step. That is what the private serial
  dispatch queue guarantees.
- The executor's final `waitUntilAllOperationsAreFinished` is a loop that runs
  the submitted tasks in `schedule`. The schedule is a parameter: any order
  that runs each submitted task exactly once (`Schedules.IsOrder`). Every
  result is proved for every such order.
- Task `k` is the task submitted `k`-th. For the element-wise operations that
  is the task for element `k`. For the partitioned operations it is the
  `k`-th range returned by `Partitions.SubmitPartitions`. That method is the
  partition loop both operations share.

What is proved:

- The partition ranges tile `[0, count)`.
- The partition clamp never fires.
- Each `replaceRange` keeps the buffer's length and changes nothing outside
  its range.
- For every task order, `parallelMap` returns `transform(self[i])` at each
  index.
- For every task order, `partitionedParallelMap` returns `transform(self[i])`
  at each index whose partition had no throwing element, and `nil` across the
  whole range of any partition that had one.
- `parallelReduce` returns the fold of the elements in the order the tasks
  ran, skipping each element whose `combine` throws.
- `partitionedParallelReduce` returns the result of running its partition
  steps in task order.
- Write `Skip(a, x)` for one guarded update: `combine(a, x)` when it
  returns, and `a` unchanged when it throws. Call `combine`
  right-commutative when `Skip(Skip(a, x), y) == Skip(Skip(a, y), x)` for
  all `a`, `x` and `y`. For a `combine` that never throws this is
  `combine(combine(a, x), y) == combine(combine(a, y), x)`.
- With a right-commutative `combine`, `parallelReduce` returns the in-order
  fold of guarded updates for any task order. If `combine` also never
  throws, both reduces return the sequential `reduce` for any order.
  Integer addition is such a `combine`. So the tests'
  `11 + (1 + ... + 1000)` gives 500511 for every task order and every
  partition count.

A partition task does not catch a throw per element. `try?` wraps the whole
`subsequence.map(transform)` (line 57) and the whole
`subsequence.reduce(currentValue, combine:)` (line 131). So one throw
discards the whole partition: its range stays `nil`, or the accumulator is
left as the task found it. `SequenceExtensions.PartitionedValue` and
`SequenceExtensions.FailureDiscardsWholePartition` state this.

## Model

| member | source | states |
|---|---|---|
| `Sequential.TryMap` | ParallelComputing/SequenceType+Extensions.swift:33 | `try self.map(transform)` succeeds exactly when no element throws, and then yields every element's result in order; one throw makes the whole map throw |
| `Sequential.TryFold` | ParallelComputing/SequenceType+Extensions.swift:106 | the throwing `reduce` (here and inside each partition task at line 131) gives up at the first `combine` that throws; when it completes it equals the fold of guarded updates, since nothing was skipped, and over no elements it is the initial value |
| `Sequential.Skip` | ParallelComputing/SequenceType+Extensions.swift:88-90 | one guarded update: the accumulator takes `combine`'s result when it returns, and stays as it was when `combine` throws |
| `Sequential.TryFoldAppend` | ParallelComputing/SequenceType+Extensions.swift:131 | a `reduce` over `s + t` is the `reduce` over `t` resumed from the `reduce` over `s`, and a throw anywhere in `s` aborts the whole fold |
| `Sequential.TryFoldNeverFails` | ParallelComputing/SequenceType+Extensions.swift:106 | when `combine` never throws, the sequential `reduce` succeeds and equals the fold that skips throwing elements, so nothing is skipped |
| `Sequential.FoldSkippingAppend` | ParallelComputing/SequenceType+Extensions.swift:85-91 | folding the per-element guarded updates over `s + t` is folding `t` after `s` |
| `Sequential.SkipCommutesWithFold` | ParallelComputing/SequenceType+Extensions.swift:87-91 | with a right-commutative `combine`, one guarded update commutes with a whole fold |
| `Sequential.FoldMoveToFront` | ParallelComputing/SequenceType+Extensions.swift:87-91 | with a right-commutative `combine`, any element may be folded in first |
| `Sequential.FoldSkippingPermutation` | ParallelComputing/SequenceType+Extensions.swift:82-101 | with a right-commutative `combine`, two sequences with the same multiset of elements fold to the same accumulator, whatever order the lock admits the tasks in |
| `Schedules.OrderRunsEveryTask` | ParallelComputing/SequenceType+Extensions.swift:77 | after the final wait every submitted task has run |
| `Schedules.PermuteRespectsMultiset` | ParallelComputing/SequenceType+Extensions.swift:85-99 | two task orders that name the same tasks equally often list the same multiset of elements |
| `Schedules.PermuteIsPermutation` | ParallelComputing/SequenceType+Extensions.swift:85-99 | the elements, listed in the order their tasks ran, are a permutation of the collection |
| `Sequences.FlattenAppend` | ParallelComputing/SequenceType+Extensions.swift:127-151 | the elements folded by a run of partition tasks split at any point into the two parts' elements |
| `Sequences.FlattenRespectsMultiset` | ParallelComputing/SequenceType+Extensions.swift:127-151 | running the partition tasks in another order folds the same multiset of elements |
| `Partitions.TilesOrdered` | ParallelComputing/SequenceType+Extensions.swift:41-52 | the ranges of a tiling come in increasing order, each ending before the next begins |
| `Partitions.TilesDisjoint` | ParallelComputing/SequenceType+Extensions.swift:41-75 | no index lies in two submitted ranges |
| `Partitions.Owner` | ParallelComputing/SequenceType+Extensions.swift:41-75 | every index lies in exactly one submitted range |
| `Partitions.FlattenSlices` | ParallelComputing/SequenceType+Extensions.swift:55 | the subsequences of the submitted ranges, concatenated in submission order, are the whole collection |
| `Partitions.Fallback` | ParallelComputing/SequenceType+Extensions.swift:32 | the guard (repeated at line 105) that sends both partitioned operations to the sequential path unless `0 < numberOfPartitions < count`; past it `numberOfPartitions` is positive and `count / numberOfPartitions` is at least 1 |
| `Partitions.PartitionArithmetic` | ParallelComputing/SequenceType+Extensions.swift:32-38 | past the guard, `partitionSize = count / numberOfPartitions` is at least 1 and the regular partitions end at `numberOfPartitions * partitionSize <= count`, exactly at `count` when `numberOfPartitions` divides `count` |
| `Partitions.RegularPartitionFits` | ParallelComputing/SequenceType+Extensions.swift:42-50 | regular partition `k` ends at `(k + 1) * partitionSize <= count`, so the clamp to `self.endIndex` never fires |
| `Partitions.Regular` | ParallelComputing/SequenceType+Extensions.swift:42-43 | regular partition `k` holds exactly `partitionSize` elements and ends at `(k + 1) * partitionSize`, where partition `k + 1` begins |
| `Partitions.Leftover` | ParallelComputing/SequenceType+Extensions.swift:64-75 | the leftover range `[numberOfPartitions * partitionSize, count)` is submitted exactly when `numberOfPartitions` does not divide `count`, and then it is non-empty and ends at `count` |
| `Partitions.RegularAdjacent` | ParallelComputing/SequenceType+Extensions.swift:41-52 | each regular partition starts exactly where the previous one ended, so `lastEndIndexInt` is where the next range begins |
| `Partitions.PartitionsTile` | ParallelComputing/SequenceType+Extensions.swift:41-75 | the regular partitions followed by the leftover range tile `[0, count)`, and the leftover range exists exactly when `count % numberOfPartitions != 0` |
| `Partitions.PartitionRanges` | ParallelComputing/SequenceType+Extensions.swift:38-75 | the ranges the partition loop submits tile `[0, count)`: non-empty, within bounds, contiguous, no gaps and no overlaps; there are `numberOfPartitions` of them plus one leftover range exactly when `count % numberOfPartitions != 0` |
| `Partitions.SubmitPartitions` | ParallelComputing/SequenceType+Extensions.swift:38-75 | the partition loop, with its clamp and its `lastEndIndexInt` tracking, submits partition `k` as `[k * size, k * size + size)` and then the leftover `[lastEndIndexInt, count)` only when it is non-empty |
| `ThreadSafeObject.ThreadSafeReference.constructor` | ParallelComputing/ThreadSafeObject.swift:20-22 | the cell starts out holding the given value |
| `ThreadSafeObject.ThreadSafeReference.UnsafeInternalReference` | ParallelComputing/ThreadSafeObject.swift:16-18 | reading the cell without the lock gives the value it holds |
| `ThreadSafeObject.ThreadSafeReference.PerformBlock` | ParallelComputing/ThreadSafeObject.swift:24-28 | one exclusive step: the held value becomes `block` applied to it, and nothing else changes |
| `SequenceExtensions.ReplaceRange` | ParallelComputing/SequenceType+Extensions.swift:58 | `replaceRange(start..<end, with:)` with exactly `end - start` elements keeps the buffer's length, puts the replacement in the range and changes nothing outside it |
| `SequenceExtensions.ParallelMap` | ParallelComputing/SequenceType+Extensions.swift:12-29 | for every task order the buffer keeps length `count` and holds `try? transform(self[i])` at each index `i`; a throwing element leaves `nil` at its own index only |
| `SequenceExtensions.AllSucceedSlice` | ParallelComputing/SequenceType+Extensions.swift:55-57 | when no element throws, no partition's subsequence throws |
| `SequenceExtensions.PartitionTask` | ParallelComputing/SequenceType+Extensions.swift:54-59 | one partition task of `partitionedParallelMap` (the leftover task at lines 68-74 is the same) keeps the buffer's length and every index outside its range; inside the range it writes `transform(self[i])` when no element of the partition throws, and leaves the buffer as it was otherwise |
| `SequenceExtensions.PartitionTaskStep` | ParallelComputing/SequenceType+Extensions.swift:54-59 | one partition task fills its own range with its results when none of its elements throws, leaves the range `nil` when one does, and leaves every other partition's indices unchanged |
| `SequenceExtensions.AllPartitionTasksRan` | ParallelComputing/SequenceType+Extensions.swift:77-79 | once the final wait returns, every index holds its partition's value, which is `transform(self[i])` everywhere when no element throws |
| `SequenceExtensions.PartitionedParallelMap` | ParallelComputing/SequenceType+Extensions.swift:31-80 | in the fallback: the sequential `map`, or a throw when an element throws; otherwise, for every task order, a buffer of length `count` holding `transform(self[i])` where `i`'s partition has no throwing element and `nil` across the whole range of a partition that has one; with no throwing element, exactly the sequential `map` |
| `SequenceExtensions.ParallelReduce` | ParallelComputing/SequenceType+Extensions.swift:82-102 | the accumulator is the fold of the elements in the order their tasks ran, each throwing `combine` skipped; with a right-commutative `combine` that is the in-order fold for any order, and with one that never throws it is the sequential `reduce` |
| `SequenceExtensions.PartitionStep` | ParallelComputing/SequenceType+Extensions.swift:130-133 | one partition task of `partitionedParallelReduce` (the leftover task at lines 146-150 is the same): when the partition's `reduce` from the current accumulator completes, the accumulator becomes that fold; when a `combine` in it throws, the accumulator is left as the task found it |
| `SequenceExtensions.FailureDiscardsWholePartition` | ParallelComputing/SequenceType+Extensions.swift:130-133 | a `combine` that throws part-way through a partition also discards the elements folded before it: the accumulator is left exactly as the task found it |
| `SequenceExtensions.RunPartitionTasksNeverFails` | ParallelComputing/SequenceType+Extensions.swift:127-151 | when `combine` never throws, a run of partition tasks folds the partitions' elements concatenated in the order the tasks ran |
| `SequenceExtensions.PartitionTasksAnyOrder` | ParallelComputing/SequenceType+Extensions.swift:127-151 | with a right-commutative `combine` that never throws, the partition tasks give the in-order fold whatever order they run in |
| `SequenceExtensions.PartitionedParallelReduce` | ParallelComputing/SequenceType+Extensions.swift:104-157 | in the fallback: the sequential `reduce`, whose throw propagates; otherwise the accumulator after the partition steps ran in task order; with a right-commutative `combine` that never throws, the sequential `reduce` for every partition count and task order |
| `TestScenarios.AdditionIsRightCommutative` | ParallelComputingTests/ParallelComputingTests.swift:18-21 | the tests' `combine`, `current + value`, is right-commutative |
| `TestScenarios.SumOneTo` | ParallelComputingTests/ParallelComputingTests.swift:39 | folding `1...n` with addition onto `a` adds `n * (n + 1) / 2` |
| `TestScenarios.SequentialSum` | ParallelComputingTests/ParallelComputingTests.swift:76 | `(1...1000).reduce(11, combine: +)` is 500511 |
| `TestScenarios.ParallelMapScenario` | ParallelComputingTests/ParallelComputingTests.swift:51-58 | `parallelMap` over `1...1000` equals the sequential `map` at every index, for any task order |
| `TestScenarios.PartitionedParallelMapScenario` | ParallelComputingTests/ParallelComputingTests.swift:60-94 | `partitionedParallelMap` over `1...1000` equals the sequential `map` for every partition count (71, 17 and 32 split; 0 and 50000 fall back) and every task order |
| `TestScenarios.ParallelReduceScenario` | ParallelComputingTests/ParallelComputingTests.swift:75-80 | `parallelReduce(initial: 11, combine: +)` over `1...1000` is 500511 for any task order |
| `TestScenarios.PartitionedParallelReduceScenario` | ParallelComputingTests/ParallelComputingTests.swift:82-87 | `partitionedParallelReduce(initial: 11, combine: +)` over `1...1000` is 500511 for every partition count and task order |

## Left out

- The `ParallelExecutor` protocol and its empty `NSOperationQueue` conformance
  (`ParallelComputing/ParallelExecutor.swift`) are a foreign scheduler with no
  logic of its own. Submission and the final wait are modelled by the
  `schedule` parameter, an arbitrary order that runs each submitted task once.
- The throttling waits `idx % executor.maxConcurrentOperationCount == 0`
  (lines 21-23 and 94-96) only restrict which task orders can happen. Every
  result is proved for all orders, so it also holds under throttling. A
  `maxConcurrentOperationCount` of 0 would make `%` trap; the model does not
  show that.
- `cancelAllOperations`, thread scheduling, lock fairness and timing are not
  modelled. The dispatch queue behind `performBlock` is modelled only as the
  atomicity of each `PerformBlock` step.
- The unused `lazyOperations` field of `ThreadSafeReference` is not modelled.
- `transform` and `combine` are modelled as pure, deterministic functions
  (`E -> Option<T>` and `(A, E) -> Option<A>`). A Swift closure may have side
  effects. `parallelMap` and `partitionedParallelMap` call `transform` outside
  the lock (lines 17 and 55-57), so such effects could race; the model does
  not capture them.
- A throw is modelled as `None`, so the identity of the error that a fallback
  rethrows is not kept.
- Swift's `advancedBy` index plumbing is replaced by integer offsets into a
  `seq`. `Int` overflow cannot arise: every offset is at most `count`.
- The tests' floating-point `sqrt` transform is replaced by integer squaring.
  Their `usleep` delays and the `measureBlock` performance tests are timing
  only and are left out.
