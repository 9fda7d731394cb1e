/** The scenarios of the library's test suite, on the model: the integers
    `1...1000`, the combine `current + value` with initial value 11, and a
    transform standing in for the floating-point square root. */
module TestScenarios {

  import opened Wrappers
  import opened Sequential
  import opened Schedules
  import opened Partitions
  import opened SequenceExtensions

  /** The tests' `combine`: integer addition, which never throws. */
  function Add(current: int, value: int): Option<int> {
    Some(current + value)
  }

  /** An integer transform in place of the tests' `sqrt(Double(value))`. */
  function Square(value: int): Option<int> {
    Some(value * value)
  }

  /** The tests' `range = 1...1_000`, as `1...n`. */
  function OneTo(n: nat): seq<int> {
    seq(n, i requires 0 <= i < n => i + 1)
  }

  /** Addition may be folded in either order. */
  lemma AdditionIsRightCommutative()
    ensures RightCommutative(Add)
  {
    forall a: int, x: int, y: int
      ensures Skip(Add, Skip(Add, a, x), y) == Skip(Add, Skip(Add, a, y), x)
    {
    }
  }

  /** Summing `1...n` onto `a` adds `n * (n + 1) / 2`. */
  lemma {:induction false} SumOneTo(a: int, n: nat)
    ensures 2 * (FoldSkipping(a, OneTo(n), Add) - a) == n * (n + 1)
  {
    if n > 0 {
      SumOneTo(a, n - 1);
      var b := FoldSkipping(a, OneTo(n - 1), Add);
      var x: int := n;
      var last := [x];
      assert OneTo(n) == OneTo(n - 1) + last;
      FoldSkippingAppend(a, OneTo(n - 1), last, Add);
      assert last[1..] == [];
      assert FoldSkipping(b, last, Add) == Skip(Add, b, x) == b + n;
      assert n * (n + 1) == (n - 1) * n + 2 * n;
    }
  }

  /** The sequential `reduce(11, combine: +)` over `1...1000` is 500511. */
  lemma SequentialSum()
    ensures TryFold(11, OneTo(1000), Add) == Some(500511)
  {
    TryFoldNeverFails(11, OneTo(1000), Add);
    SumOneTo(11, 1000);
  }

  /** `parallelMap` over `1...1000` equals the sequential `map` at every index,
      for any task order. */
  method ParallelMapScenario(schedule: seq<nat>) returns (r: seq<Option<int>>)
    requires IsOrder(schedule, 1000)
    ensures r == Lifted(OneTo(1000), Square)
  {
    r := ParallelMap(OneTo(1000), Square, schedule);
  }

  /** `partitionedParallelMap` over `1...1000` equals the sequential `map`,
      for any partition count (71, 17 and 32 split; 0 and 50000 fall back)
      and any task order. */
  method PartitionedParallelMapScenario(numberOfPartitions: int, schedule: seq<nat>) returns (r: Option<seq<Option<int>>>)
    requires IsOrder(schedule, SubmittedTaskCount(1000, numberOfPartitions))
    ensures r == Some(Lifted(OneTo(1000), Square))
  {
    r := PartitionedParallelMap(OneTo(1000), numberOfPartitions, Square, schedule);
  }

  /** `parallelReduce(initial: 11, combine: +)` over `1...1000` gives 500511,
      the sequential result, for any task order. */
  method ParallelReduceScenario(schedule: seq<nat>) returns (r: int)
    requires IsOrder(schedule, 1000)
    ensures r == 500511
  {
    AdditionIsRightCommutative();
    r := ParallelReduce(OneTo(1000), 11, Add, schedule);
    SumOneTo(11, 1000);
  }

  /** `partitionedParallelReduce` over `1...1000` gives 500511 for any partition
      count and any task order. */
  method PartitionedParallelReduceScenario(numberOfPartitions: int, schedule: seq<nat>) returns (r: Option<int>)
    requires IsOrder(schedule, SubmittedTaskCount(1000, numberOfPartitions))
    ensures r == Some(500511)
  {
    AdditionIsRightCommutative();
    r := PartitionedParallelReduce(OneTo(1000), numberOfPartitions, 11, Add, schedule);
    SequentialSum();
  }

}
