/** The partition arithmetic shared by `partitionedParallelMap` and
    `partitionedParallelReduce`: the fallback guard, the split of
    `[0, count)` into `numberOfPartitions` regular partitions of
    `count / numberOfPartitions` elements, and the leftover range. */
module Partitions {

  import opened Sequences

  /** The half-open index range `[start, end)` one partition task covers. */
  datatype Partition = Partition(start: nat, end: nat)

  predicate Contains(p: Partition, i: int) {
    p.start <= i < p.end
  }

  /** `ps` covers `[0, n)` in order: non-empty ranges within bounds, each
      starting where the previous one ends, the first at 0 and the last at `n`. */
  ghost predicate Tiles(ps: seq<Partition>, n: nat) {
    && (if ps == [] then n == 0 else ps[0].start == 0 && ps[|ps| - 1].end == n)
    && (forall k :: 0 <= k < |ps| ==> ps[k].start < ps[k].end <= n)
    && (forall k :: 0 < k < |ps| ==> ps[k - 1].end == ps[k].start)
  }

  /** Ranges of a tiling come in increasing order. */
  lemma {:induction false} TilesOrdered(ps: seq<Partition>, n: nat, j: nat, k: nat)
    requires Tiles(ps, n) && j < k < |ps|
    ensures ps[j].end <= ps[k].start
    decreases k - j
  {
    if j + 1 < k {
      TilesOrdered(ps, n, j + 1, k);
    }
  }

  /** No index lies in two ranges of a tiling. */
  lemma TilesDisjoint(ps: seq<Partition>, n: nat, i: int)
    requires Tiles(ps, n)
    ensures forall j, k :: 0 <= j < |ps| && 0 <= k < |ps| && Contains(ps[j], i) && Contains(ps[k], i) ==> j == k
  {
    forall j, k | 0 <= j < |ps| && 0 <= k < |ps| && Contains(ps[j], i) && Contains(ps[k], i)
      ensures j == k
    {
      if j < k {
        TilesOrdered(ps, n, j, k);
      } else if k < j {
        TilesOrdered(ps, n, k, j);
      }
    }
  }

  /** The last of the first `m` ranges that starts at or before `i`. */
  ghost function OwnerAmong(ps: seq<Partition>, n: nat, i: nat, m: nat): (k: nat)
    requires Tiles(ps, n) && 0 < m <= |ps| && i < ps[m - 1].end
    ensures k < m && Contains(ps[k], i)
  {
    if ps[m - 1].start <= i then m - 1 else OwnerAmong(ps, n, i, m - 1)
  }

  /** The one range of a tiling of `[0, n)` that holds index `i`. */
  ghost function Owner(ps: seq<Partition>, n: nat, i: nat): (k: nat)
    requires Tiles(ps, n) && i < n
    ensures k < |ps| && Contains(ps[k], i)
    ensures forall j :: 0 <= j < |ps| && Contains(ps[j], i) ==> j == k
  {
    TilesDisjoint(ps, n, i);
    OwnerAmong(ps, n, i, |ps|)
  }

  /** The elements of `xs` each range covers. */
  function Slices<E>(xs: seq<E>, ps: seq<Partition>): (ss: seq<seq<E>>)
    requires Tiles(ps, |xs|)
    ensures |ss| == |ps|
  {
    seq(|ps|, k requires 0 <= k < |ps| => xs[ps[k].start..ps[k].end])
  }

  /** Concatenating the slices of a tiling, in order, gives back the whole sequence. */
  lemma FlattenSlices<E>(xs: seq<E>, ps: seq<Partition>)
    requires Tiles(ps, |xs|)
    ensures Flatten(Slices(xs, ps)) == xs
  {
    if ps != [] {
      FlattenSlicesPrefix(xs, ps, |ps|);
      assert Slices(xs, ps)[..|ps|] == Slices(xs, ps);
    }
  }

  lemma {:induction false} FlattenSlicesPrefix<E>(xs: seq<E>, ps: seq<Partition>, m: nat)
    requires Tiles(ps, |xs|) && 0 < m <= |ps|
    ensures Flatten(Slices(xs, ps)[..m]) == xs[..ps[m - 1].end]
  {
    var ss := Slices(xs, ps);
    assert ss[..m][..m - 1] == ss[..m - 1];
    if m == 1 {
      assert ss[..0] == [];
    } else {
      FlattenSlicesPrefix(xs, ps, m - 1);
      assert xs[..ps[m - 1].end] == xs[..ps[m - 2].end] + xs[ps[m - 1].start..ps[m - 1].end];
    }
  }

  /** The guard of both partitioned operations: unless `0 < numberOfPartitions < count`
      they run the plain sequential `map` or `reduce`. */
  predicate Fallback(count: nat, numberOfPartitions: int)
    ensures !Fallback(count, numberOfPartitions) ==> numberOfPartitions > 0 && count / numberOfPartitions >= 1
  {
    !(numberOfPartitions < count && numberOfPartitions > 0)
  }

  /** With `0 < P < count`, `partitionSize = count / P` is at least 1 and `P`
      regular partitions end at `P * partitionSize <= count`, exactly at
      `count` when `P` divides `count`. */
  lemma PartitionArithmetic(count: nat, numberOfPartitions: int)
    requires !Fallback(count, numberOfPartitions)
    ensures count / numberOfPartitions >= 1
    ensures numberOfPartitions * (count / numberOfPartitions) <= count
    ensures numberOfPartitions * (count / numberOfPartitions) == count <==> count % numberOfPartitions == 0
  {
    var size := count / numberOfPartitions;
    assert count == numberOfPartitions * size + count % numberOfPartitions;
  }

  /** Regular partition `k < P` ends inside the collection, so the clamp to
      `count` never fires. */
  lemma RegularPartitionFits(count: nat, numberOfPartitions: int, k: nat)
    requires !Fallback(count, numberOfPartitions) && k < numberOfPartitions
    ensures k * (count / numberOfPartitions) + count / numberOfPartitions
            <= numberOfPartitions * (count / numberOfPartitions) <= count
  {
    var size := count / numberOfPartitions;
    PartitionArithmetic(count, numberOfPartitions);
    assert k * size + size == (k + 1) * size;
    assert (k + 1) * size <= numberOfPartitions * size by {
      MultiplyMonotone(k + 1, numberOfPartitions, size);
    }
  }

  lemma MultiplyMonotone(a: nat, b: nat, c: nat)
    requires a <= b
    ensures a * c <= b * c
  {
    assert b * c == a * c + (b - a) * c;
  }

  /** Regular partition `k` of size `size`: `[k * size, k * size + size)`. */
  function Regular(k: nat, size: nat): (p: Partition)
    ensures p.end - p.start == size
    ensures p.end == (k + 1) * size
  {
    assert k * size + size == (k + 1) * size;
    Partition(k * size, k * size + size)
  }

  /** The leftover range `[P * size, count)`, submitted only when non-empty:
      there is one exactly when `P` does not divide `count`, and it ends at `count`. */
  function Leftover(count: nat, numberOfPartitions: nat, size: nat): (r: seq<Partition>)
    requires !Fallback(count, numberOfPartitions) && size == count / numberOfPartitions
    ensures |r| == if count % numberOfPartitions == 0 then 0 else 1
    ensures r != [] ==> r[0].start == numberOfPartitions * size < r[0].end == count
  {
    PartitionArithmetic(count, numberOfPartitions);
    if numberOfPartitions * size < count then [Partition(numberOfPartitions * size, count)] else []
  }

  /** The regular partitions followed by the leftover range tile `[0, count)`. */
  lemma PartitionsTile(count: nat, numberOfPartitions: int, regular: seq<Partition>)
    requires !Fallback(count, numberOfPartitions)
    requires regular == seq(numberOfPartitions, k requires 0 <= k < numberOfPartitions => Regular(k, count / numberOfPartitions))
    ensures Tiles(regular + Leftover(count, numberOfPartitions, count / numberOfPartitions), count)
    ensures |Leftover(count, numberOfPartitions, count / numberOfPartitions)| == if count % numberOfPartitions == 0 then 0 else 1
  {
    var size := count / numberOfPartitions;
    var ps := regular + Leftover(count, numberOfPartitions, size);
    PartitionArithmetic(count, numberOfPartitions);
    forall k | 0 <= k < numberOfPartitions ensures ps[k].start < ps[k].end <= count {
      RegularPartitionFits(count, numberOfPartitions, k);
    }
    forall k | 0 < k < numberOfPartitions ensures ps[k - 1].end == ps[k].start {
      RegularAdjacent(k, size);
    }
    assert ps[0].start == 0;
    RegularAdjacent(numberOfPartitions, size);
  }

  /** Each regular partition starts where the previous one ends. */
  lemma RegularAdjacent(k: nat, size: nat)
    requires k > 0
    ensures Regular(k - 1, size).end == Regular(k, size).start
  {
    assert (k - 1) * size + size == k * size;
  }

  /** The ranges the partition loop submits: partition `k` is
      `[k * size, k * size + size)` for `k < P`, then the leftover
      `[P * size, count)` when it is non-empty. */
  function PartitionRanges(count: nat, numberOfPartitions: int): (ps: seq<Partition>)
    requires !Fallback(count, numberOfPartitions)
    ensures Tiles(ps, count)
    ensures |ps| == numberOfPartitions + (if count % numberOfPartitions == 0 then 0 else 1)
  {
    var size := count / numberOfPartitions;
    var regular := seq(numberOfPartitions, k requires 0 <= k < numberOfPartitions => Regular(k, size));
    PartitionsTile(count, numberOfPartitions, regular);
    regular + Leftover(count, numberOfPartitions, size)
  }

  /** How many tasks a partitioned operation submits: none in the fallback. */
  function SubmittedTaskCount(count: nat, numberOfPartitions: int): nat {
    if Fallback(count, numberOfPartitions) then 0 else |PartitionRanges(count, numberOfPartitions)|
  }

  /** The partition loop: one task per regular partition, the end clamped to
      `count`, `lastEndIndex` tracked, then one task for the leftover range
      when it is non-empty. Returns the submitted ranges in submission order. */
  method SubmitPartitions(count: nat, numberOfPartitions: int) returns (submitted: seq<Partition>)
    requires !Fallback(count, numberOfPartitions)
    ensures submitted == PartitionRanges(count, numberOfPartitions)
  {
    var partitionSize := count / numberOfPartitions;
    ghost var ps := PartitionRanges(count, numberOfPartitions);
    submitted := [];
    var lastEndIndex: int := 0;
    for partitionNumber := 0 to numberOfPartitions
      invariant submitted == ps[..partitionNumber]
      invariant lastEndIndex == partitionNumber * partitionSize
    {
      RegularPartitionFits(count, numberOfPartitions, partitionNumber);
      var startIndex: nat := partitionNumber * partitionSize;
      var endIndex: int := startIndex + partitionSize;
      if count < endIndex {
        endIndex := count;
      }
      lastEndIndex := endIndex;
      submitted := submitted + [Partition(startIndex, endIndex)];
      assert (partitionNumber + 1) * partitionSize == partitionNumber * partitionSize + partitionSize;
    }
    if lastEndIndex < count {
      submitted := submitted + [Partition(lastEndIndex, count)];
    }
    assert submitted == ps;
  }

}
