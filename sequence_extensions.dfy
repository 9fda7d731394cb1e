/** The four collection extensions: `parallelMap`, `partitionedParallelMap`,
    `parallelReduce` and `partitionedParallelReduce`.

    Every task the Swift library submits to its executor becomes one atomic step on
    a `ThreadSafeReference`. The executor's final `waitUntilAllOperationsAreFinished`
    becomes a loop that runs the submitted tasks in `schedule`, an arbitrary
    order that runs each of them exactly once (`IsOrder`); the results are
    proved for every such order. */
module SequenceExtensions {

  import opened Wrappers
  import opened Sequential
  import opened Sequences
  import opened Schedules
  import opened Partitions
  import opened ThreadSafeObject

  /** `buffer.replaceRange(start..<end, with: replacement)` with a replacement
      of exactly `end - start` elements: the length is kept, the range takes
      the new elements and nothing outside it changes. */
  function ReplaceRange<X>(buffer: seq<X>, start: nat, end: nat, replacement: seq<X>): (r: seq<X>)
    requires start <= end <= |buffer| && |replacement| == end - start
    ensures |r| == |buffer|
    ensures forall i :: 0 <= i < |buffer| ==> r[i] == if start <= i < end then replacement[i - start] else buffer[i]
  {
    buffer[..start] + replacement + buffer[end..]
  }

  /** `parallelMap`: one task per element; the task for index `idx` computes
      `try? transform(element)` and writes it at `idx`. Whatever order the tasks
      run in, every index holds its own element's result, and a throwing
      element leaves `nil` at its own index only. */
  method ParallelMap<E, T>(xs: seq<E>, transform: E -> Option<T>, schedule: seq<nat>) returns (r: seq<Option<T>>)
    requires IsOrder(schedule, |xs|)
    ensures |r| == |xs|
    ensures forall i :: 0 <= i < |xs| ==> r[i] == transform(xs[i])
  {
    var empty: seq<Option<T>> := seq(|xs|, _ => None);
    var result := new ThreadSafeReference(empty);
    for j := 0 to |schedule|
      invariant |result.internalObject| == |xs|
      invariant forall i :: 0 <= i < |xs| ==>
                  result.internalObject[i] == if i in schedule[..j] then transform(xs[i]) else None
    {
      var idx := schedule[j];
      var element := xs[idx];
      var transformedValue := transform(element);
      result.PerformBlock(buffer requires idx < |buffer| => buffer[idx := transformedValue]);
      assert schedule[..j + 1] == schedule[..j] + [idx];
    }
    r := result.UnsafeInternalReference();
    assert schedule[..|schedule|] == schedule;
    forall i | 0 <= i < |xs| ensures i in schedule {
      OrderRunsEveryTask(schedule, |xs|, i);
    }
  }

  /** Every element of a slice of `xs` transforms when every element of `xs` does. */
  lemma AllSucceedSlice<E, T>(xs: seq<E>, transform: E -> Option<T>, start: nat, end: nat)
    requires AllSucceed(xs, transform) && start <= end <= |xs|
    ensures AllSucceed(xs[start..end], transform)
  {
    forall j | 0 <= j < end - start ensures transform(xs[start..end][j]).Some? {
      assert xs[start..end][j] == xs[start + j];
    }
  }

  /** What `partitionedParallelMap` leaves at index `i`: `transform(xs[i])`
      when no element of `i`'s partition throws, otherwise `nil`, since
      `try? subsequence.map(transform)` discards the whole partition. */
  ghost function PartitionedValue<E, T>(xs: seq<E>, ps: seq<Partition>, transform: E -> Option<T>, i: nat): Option<T>
    requires Tiles(ps, |xs|) && i < |xs|
  {
    var p := ps[Owner(ps, |xs|, i)];
    if AllSucceed(xs[p.start..p.end], transform) then transform(xs[i]) else None
  }

  /** What one partition task of `partitionedParallelMap` does to the buffer:
      `try? subsequence.map(transform)`, and when that succeeds, the
      partition's range takes the results. */
  function PartitionTask<E, T>(buffer: seq<Option<T>>, xs: seq<E>, p: Partition, transform: E -> Option<T>): (r: seq<Option<T>>)
    requires p.start <= p.end <= |xs| == |buffer|
    ensures |r| == |buffer|
    ensures forall i :: 0 <= i < |buffer| && !Contains(p, i) ==> r[i] == buffer[i]
    ensures forall i :: 0 <= i < |buffer| && Contains(p, i) ==>
              r[i] == if AllSucceed(xs[p.start..p.end], transform) then transform(xs[i]) else buffer[i]
  {
    var partial := TryMap(xs[p.start..p.end], transform);
    if partial.Some? then ReplaceRange(buffer, p.start, p.end, Optionals(partial.value)) else buffer
  }

  /** The buffer once the partition tasks in `done` have run: an index of a
      finished partition holds its partitioned value, any other index `nil`. */
  ghost predicate MapBufferAfter<E, T>(xs: seq<E>, ps: seq<Partition>, transform: E -> Option<T>,
                                       done: seq<nat>, buffer: seq<Option<T>>)
    requires Tiles(ps, |xs|)
  {
    && |buffer| == |xs|
    && forall i :: 0 <= i < |xs| ==>
         buffer[i] == if Owner(ps, |xs|, i) in done then PartitionedValue(xs, ps, transform, i) else None
  }

  /** Running partition task `k` moves the buffer from "tasks `done` ran" to
      "tasks `done + [k]` ran": its range takes its results when none throws,
      and every index of another partition keeps its value. */
  lemma PartitionTaskStep<E, T>(xs: seq<E>, ps: seq<Partition>, transform: E -> Option<T>,
                                done: seq<nat>, k: nat, before: seq<Option<T>>)
    requires Tiles(ps, |xs|) && k < |ps|
    requires MapBufferAfter(xs, ps, transform, done, before)
    ensures MapBufferAfter(xs, ps, transform, done + [k], PartitionTask(before, xs, ps[k], transform))
  {
    var p := ps[k];
    var partial := TryMap(xs[p.start..p.end], transform);
    var after := PartitionTask(before, xs, p, transform);
    forall i | 0 <= i < |xs|
      ensures after[i] == if Owner(ps, |xs|, i) in done + [k] then PartitionedValue(xs, ps, transform, i) else None
    {
      var owner := Owner(ps, |xs|, i);
      if Contains(p, i) {
        assert owner == k;
        if partial.Some? {
          assert xs[p.start..p.end][i - p.start] == xs[i];
        }
      } else {
        assert owner != k;
      }
    }
  }

  /** `partitionedParallelMap`. Outside `0 < numberOfPartitions < count` it is
      the sequential `try self.map(transform)`, whose throw propagates. Otherwise
      one task per submitted partition maps its subsequence and, when no element
      throws, replaces its range of the buffer; any other task order gives the
      same buffer. */
  method PartitionedParallelMap<E, T>(xs: seq<E>, numberOfPartitions: int, transform: E -> Option<T>, schedule: seq<nat>)
    returns (r: Option<seq<Option<T>>>)
    requires IsOrder(schedule, SubmittedTaskCount(|xs|, numberOfPartitions))
    ensures Fallback(|xs|, numberOfPartitions) ==>
              r == if AllSucceed(xs, transform) then Some(Lifted(xs, transform)) else None
    ensures !Fallback(|xs|, numberOfPartitions) ==> r.Some? && |r.value| == |xs|
    ensures !Fallback(|xs|, numberOfPartitions) ==>
              forall i :: 0 <= i < |xs| ==>
                r.value[i] == PartitionedValue(xs, PartitionRanges(|xs|, numberOfPartitions), transform, i)
    ensures AllSucceed(xs, transform) ==> r == Some(Lifted(xs, transform))
  {
    if Fallback(|xs|, numberOfPartitions) {
      var mapped := TryMap(xs, transform);
      if mapped.Some? {
        r := Some(Optionals(mapped.value));
        assert Optionals(mapped.value) == Lifted(xs, transform);
      } else {
        r := None;
      }
      return;
    }
    var empty: seq<Option<T>> := seq(|xs|, _ => None);
    var result := new ThreadSafeReference(empty);
    var pending := SubmitPartitions(|xs|, numberOfPartitions);
    for j := 0 to |schedule|
      invariant MapBufferAfter(xs, pending, transform, schedule[..j], result.internalObject)
    {
      var partition := pending[schedule[j]];
      var subsequence := xs[partition.start..partition.end];
      var partialResult := TryMap(subsequence, transform);
      ghost var before := result.internalObject;
      if partialResult.Some? {
        var replacement := Optionals(partialResult.value);
        result.PerformBlock(buffer requires partition.start <= partition.end <= |buffer|
                                             && |replacement| == partition.end - partition.start
                              => ReplaceRange(buffer, partition.start, partition.end, replacement));
      }
      assert result.internalObject == PartitionTask(before, xs, partition, transform);
      PartitionTaskStep(xs, pending, transform, schedule[..j], schedule[j], before);
      assert schedule[..j + 1] == schedule[..j] + [schedule[j]];
    }
    assert schedule[..|schedule|] == schedule;
    AllPartitionTasksRan(xs, pending, transform, schedule, result.internalObject);
    r := Some(result.UnsafeInternalReference());
  }

  /** Once every partition task has run, each index holds its partitioned
      value, which is `transform(xs[i])` everywhere when nothing throws. */
  lemma AllPartitionTasksRan<E, T>(xs: seq<E>, ps: seq<Partition>, transform: E -> Option<T>,
                                   schedule: seq<nat>, buffer: seq<Option<T>>)
    requires Tiles(ps, |xs|) && IsOrder(schedule, |ps|)
    requires MapBufferAfter(xs, ps, transform, schedule, buffer)
    ensures |buffer| == |xs|
    ensures forall i :: 0 <= i < |xs| ==> buffer[i] == PartitionedValue(xs, ps, transform, i)
    ensures AllSucceed(xs, transform) ==> buffer == Lifted(xs, transform)
  {
    forall i | 0 <= i < |xs| ensures Owner(ps, |xs|, i) in schedule {
      OrderRunsEveryTask(schedule, |ps|, Owner(ps, |xs|, i));
    }
    if AllSucceed(xs, transform) {
      forall i | 0 <= i < |xs| ensures buffer[i] == transform(xs[i]) {
        var p := ps[Owner(ps, |xs|, i)];
        AllSucceedSlice(xs, transform, p.start, p.end);
      }
    }
  }

  /** `parallelReduce`: one task per element, each running
      `if let p = try? combine(currentValue, element) { currentValue = p }`
      inside the lock. The result is the fold of the elements in the order the
      tasks ran, a throwing element skipped; for a right-commutative `combine`
      that is the in-order fold whatever the order, and the sequential
      `reduce` when nothing throws. */
  method ParallelReduce<A(!new), E(!new)>(xs: seq<E>, initial: A, combine: (A, E) -> Option<A>, schedule: seq<nat>)
    returns (r: A)
    requires IsOrder(schedule, |xs|)
    ensures r == FoldSkipping(initial, Permute(xs, schedule), combine)
    ensures RightCommutative(combine) ==> r == FoldSkipping(initial, xs, combine)
    ensures RightCommutative(combine) && NeverFails(combine, xs) ==> Some(r) == TryFold(initial, xs, combine)
  {
    var result := new ThreadSafeReference(initial);
    for j := 0 to |schedule|
      invariant result.internalObject == FoldSkipping(initial, Permute(xs, schedule[..j]), combine)
    {
      var element := xs[schedule[j]];
      result.PerformBlock(currentValue => Skip(combine, currentValue, element));
      assert Permute(xs, schedule[..j + 1]) == Permute(xs, schedule[..j]) + [element];
      FoldSkippingAppend(initial, Permute(xs, schedule[..j]), [element], combine);
    }
    r := result.UnsafeInternalReference();
    assert schedule[..|schedule|] == schedule;
    if RightCommutative(combine) {
      PermuteIsPermutation(xs, schedule);
      FoldSkippingPermutation(initial, Permute(xs, schedule), xs, combine);
      if NeverFails(combine, xs) {
        TryFoldNeverFails(initial, xs, combine);
      }
    }
  }

  /** One partition task of `partitionedParallelReduce`, run inside the lock:
      `if let p = try? subsequence.reduce(currentValue, combine) { currentValue = p }`.
      One throw anywhere in the partition discards the whole partition's fold. */
  function PartitionStep<A, E>(currentValue: A, subsequence: seq<E>, combine: (A, E) -> Option<A>): (r: A)
    ensures TryFold(currentValue, subsequence, combine).Some? ==> r == FoldSkipping(currentValue, subsequence, combine)
    ensures TryFold(currentValue, subsequence, combine).None? ==> r == currentValue
  {
    match TryFold(currentValue, subsequence, combine)
    case Some(partialResult) => partialResult
    case None => currentValue
  }

  /** The accumulator after the partition tasks named by `order` ran, in that order. */
  function RunPartitionTasks<A, E>(initial: A, xs: seq<E>, ps: seq<Partition>, order: seq<nat>,
                                   combine: (A, E) -> Option<A>): A
    requires Tiles(ps, |xs|) && Bounded(order, |ps|)
    decreases |order|
  {
    if order == [] then initial
    else
      var p := ps[order[|order| - 1]];
      PartitionStep(RunPartitionTasks(initial, xs, ps, order[..|order| - 1], combine), xs[p.start..p.end], combine)
  }

  /** A throw part-way through a partition discards the elements folded before it too:
      the accumulator is left exactly as the task found it. */
  lemma FailureDiscardsWholePartition<A, E>(a: A, subsequence: seq<E>, combine: (A, E) -> Option<A>, k: nat)
    requires k < |subsequence|
    requires TryFold(a, subsequence[..k], combine).Some?
    requires combine(TryFold(a, subsequence[..k], combine).value, subsequence[k]).None?
    ensures PartitionStep(a, subsequence, combine) == a
  {
    var b := TryFold(a, subsequence[..k], combine).value;
    assert subsequence == subsequence[..k] + subsequence[k..];
    TryFoldAppend(a, subsequence[..k], subsequence[k..], combine);
    assert subsequence[k..][0] == subsequence[k];
  }

  /** When `combine` never throws, running partition tasks in some order folds
      the partitions' elements concatenated in that order. */
  lemma {:induction false} RunPartitionTasksNeverFails<A(!new), E>(initial: A, xs: seq<E>, ps: seq<Partition>,
                                                                   order: seq<nat>, combine: (A, E) -> Option<A>)
    requires Tiles(ps, |xs|) && Bounded(order, |ps|) && NeverFails(combine, xs)
    ensures RunPartitionTasks(initial, xs, ps, order, combine)
            == FoldSkipping(initial, Flatten(Permute(Slices(xs, ps), order)), combine)
    decreases |order|
  {
    if order != [] {
      var n := |order|;
      var prefix := order[..n - 1];
      var p := ps[order[n - 1]];
      var slice := xs[p.start..p.end];
      var before := RunPartitionTasks(initial, xs, ps, prefix, combine);
      calc {
        RunPartitionTasks(initial, xs, ps, order, combine);
        PartitionStep(before, slice, combine);
        { SliceNeverFails(xs, p.start, p.end, combine); TryFoldNeverFails(before, slice, combine); }
        FoldSkipping(before, slice, combine);
        { RunPartitionTasksNeverFails(initial, xs, ps, prefix, combine); }
        FoldSkipping(FoldSkipping(initial, Flatten(Permute(Slices(xs, ps), prefix)), combine), slice, combine);
        { FoldSkippingAppend(initial, Flatten(Permute(Slices(xs, ps), prefix)), slice, combine); }
        FoldSkipping(initial, Flatten(Permute(Slices(xs, ps), prefix)) + slice, combine);
        { PermuteLast(Slices(xs, ps), order); }
        FoldSkipping(initial, Flatten(Permute(Slices(xs, ps), order)), combine);
      }
    }
  }

  /** A slice of elements none of which makes `combine` throw. */
  lemma SliceNeverFails<A(!new), E>(xs: seq<E>, start: nat, end: nat, combine: (A, E) -> Option<A>)
    requires start <= end <= |xs| && NeverFails(combine, xs)
    ensures NeverFails(combine, xs[start..end])
  {
    forall a, i | 0 <= i < end - start ensures combine(a, xs[start..end][i]).Some? {
      assert xs[start..end][i] == xs[start + i];
    }
  }

  /** With a right-commutative `combine` that never throws, the partition tasks
      give the in-order fold whatever order they run in. */
  lemma PartitionTasksAnyOrder<A(!new), E(!new)>(initial: A, xs: seq<E>, ps: seq<Partition>,
                                                 order: seq<nat>, combine: (A, E) -> Option<A>)
    requires Tiles(ps, |xs|) && IsOrder(order, |ps|)
    requires RightCommutative(combine) && NeverFails(combine, xs)
    ensures RunPartitionTasks(initial, xs, ps, order, combine) == FoldSkipping(initial, xs, combine)
  {
    RunPartitionTasksNeverFails(initial, xs, ps, order, combine);
    var pieces := Slices(xs, ps);
    PermuteIsPermutation(pieces, order);
    FlattenRespectsMultiset(Permute(pieces, order), pieces);
    FlattenSlices(xs, ps);
    FoldSkippingPermutation(initial, Flatten(Permute(pieces, order)), xs, combine);
  }

  /** `partitionedParallelReduce`. Outside `0 < numberOfPartitions < count` it is
      the sequential `try self.reduce(initial, combine)`, whose throw propagates.
      Otherwise each submitted partition task folds its subsequence from the
      current accumulator and stores the result unless a `combine` in it threw.
      For a right-commutative `combine` that never throws the result is the
      sequential `reduce` for every task order. */
  method PartitionedParallelReduce<A(!new), E(!new)>(xs: seq<E>, numberOfPartitions: int, initial: A,
                                                     combine: (A, E) -> Option<A>, schedule: seq<nat>)
    returns (r: Option<A>)
    requires IsOrder(schedule, SubmittedTaskCount(|xs|, numberOfPartitions))
    ensures Fallback(|xs|, numberOfPartitions) ==> r == TryFold(initial, xs, combine)
    ensures !Fallback(|xs|, numberOfPartitions) ==>
              r == Some(RunPartitionTasks(initial, xs, PartitionRanges(|xs|, numberOfPartitions), schedule, combine))
    ensures RightCommutative(combine) && NeverFails(combine, xs) ==> r == TryFold(initial, xs, combine)
  {
    if Fallback(|xs|, numberOfPartitions) {
      r := TryFold(initial, xs, combine);
      return;
    }
    var result := new ThreadSafeReference(initial);
    var pending := SubmitPartitions(|xs|, numberOfPartitions);
    for j := 0 to |schedule|
      invariant result.internalObject == RunPartitionTasks(initial, xs, pending, schedule[..j], combine)
    {
      var partition := pending[schedule[j]];
      var subsequence := xs[partition.start..partition.end];
      result.PerformBlock(currentValue => PartitionStep(currentValue, subsequence, combine));
      assert schedule[..j + 1][..j] == schedule[..j];
    }
    r := Some(result.UnsafeInternalReference());
    assert schedule[..|schedule|] == schedule;
    if RightCommutative(combine) && NeverFails(combine, xs) {
      PartitionTasksAnyOrder(initial, xs, pending, schedule, combine);
      TryFoldNeverFails(initial, xs, combine);
    }
  }

}
