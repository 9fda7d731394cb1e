/** The order in which an executor runs the tasks submitted to it. Tasks are
    named by their submission index; a schedule lists every index exactly
    once, in the order the serial queue of the shared cell let the tasks in. */
module Schedules {

  import opened Sequences

  /** The task indices `0, 1, ..., n - 1`, in submission order. */
  function Iota(n: nat): seq<nat> {
    seq(n, i requires 0 <= i < n => i)
  }

  /** `order` runs each of the `n` submitted tasks exactly once. */
  ghost predicate IsOrder(order: seq<nat>, n: nat) {
    Bounded(order, n) && multiset(order) == multiset(Iota(n))
  }

  /** The elements of `xs` listed in the order `order` names them. */
  function Permute<X>(xs: seq<X>, order: seq<nat>): seq<X>
    requires Bounded(order, |xs|)
  {
    seq(|order|, j requires 0 <= j < |order| => xs[order[j]])
  }

  /** Listing by `order` ends with the element its last entry names. */
  lemma PermuteLast<X>(xs: seq<seq<X>>, order: seq<nat>)
    requires Bounded(order, |xs|) && order != []
    ensures Bounded(order[..|order| - 1], |xs|)
    ensures Flatten(Permute(xs, order))
            == Flatten(Permute(xs, order[..|order| - 1])) + xs[order[|order| - 1]]
  {
    var pieces := Permute(xs, order);
    assert pieces[..|order| - 1] == Permute(xs, order[..|order| - 1]);
  }

  /** Every submitted task is run by a schedule. */
  lemma OrderRunsEveryTask(order: seq<nat>, n: nat, k: nat)
    requires IsOrder(order, n) && k < n
    ensures k in order
  {
    assert Iota(n)[k] == k;
    assert k in multiset(Iota(n));
  }

  /** Every entry of `order` names one of `n` tasks. */
  ghost predicate Bounded(order: seq<nat>, n: nat) {
    forall j :: 0 <= j < |order| ==> order[j] < n
  }

  lemma BoundedSplit(order: seq<nat>, n: nat, p: nat)
    requires Bounded(order, n) && p < |order|
    ensures Bounded(order[..p], n) && Bounded(order[p + 1..], n) && Bounded(order[..p] + order[p + 1..], n)
    ensures Bounded(order[1..], n)
  {
  }

  lemma PermuteAppend<X>(xs: seq<X>, o: seq<nat>, o': seq<nat>)
    requires Bounded(o, |xs|) && Bounded(o', |xs|)
    ensures Bounded(o + o', |xs|)
    ensures Permute(xs, o + o') == Permute(xs, o) + Permute(xs, o')
  {
    var l, r := Permute(xs, o + o'), Permute(xs, o) + Permute(xs, o');
    assert |l| == |r|;
    forall j | 0 <= j < |l| ensures l[j] == r[j] {
      if j < |o| {
        assert (o + o')[j] == o[j];
      } else {
        assert (o + o')[j] == o'[j - |o|];
      }
    }
  }

  /** Taking one entry out of an order takes its element out of the listed multiset. */
  lemma PermuteRemove<X>(xs: seq<X>, o: seq<nat>, p: nat)
    requires Bounded(o, |xs|) && p < |o|
    ensures Bounded(o[..p] + o[p + 1..], |xs|)
    ensures multiset(Permute(xs, o)) == multiset{xs[o[p]]} + multiset(Permute(xs, o[..p] + o[p + 1..]))
  {
    BoundedSplit(o, |xs|, p);
    var front, back := o[..p], o[p + 1..];
    assert o == front + [o[p]] + back;
    PermuteMiddle(xs, front, o[p], back);
  }

  lemma PermuteMiddle<X>(xs: seq<X>, front: seq<nat>, i: nat, back: seq<nat>)
    requires Bounded(front, |xs|) && i < |xs| && Bounded(back, |xs|)
    ensures Bounded(front + [i] + back, |xs|) && Bounded(front + back, |xs|)
    ensures multiset(Permute(xs, front + [i] + back)) == multiset{xs[i]} + multiset(Permute(xs, front + back))
  {
    PermuteAppend(xs, front, [i]);
    PermuteAppend(xs, front + [i], back);
    PermuteAppend(xs, front, back);
    var pf, pb := Permute(xs, front), Permute(xs, back);
    assert Permute(xs, [i]) == [xs[i]];
    calc {
      multiset(Permute(xs, front + [i] + back));
      multiset(pf + [xs[i]] + pb);
      multiset(pf) + multiset{xs[i]} + multiset(pb);
      multiset{xs[i]} + multiset(pf + pb);
    }
  }

  /** Two orders that name the same indices equally often list the same multiset of elements. */
  lemma {:induction false} PermuteRespectsMultiset<X>(xs: seq<X>, o: seq<nat>, o': seq<nat>)
    requires Bounded(o, |xs|) && Bounded(o', |xs|)
    requires multiset(o) == multiset(o')
    ensures multiset(Permute(xs, o)) == multiset(Permute(xs, o'))
    decreases |o|
  {
    if o == [] {
      EmptyMultiset(o, o');
    } else {
      var p := FindIndex(o', o[0]);
      var rest := RemoveMatching(o, o', p);
      BoundedSplit(o, |xs|, 0);
      BoundedSplit(o', |xs|, p);
      calc {
        multiset(Permute(xs, o));
        { PermuteRemove(xs, o, 0); assert o[..0] + o[1..] == o[1..]; }
        multiset{xs[o[0]]} + multiset(Permute(xs, o[1..]));
        { PermuteRespectsMultiset(xs, o[1..], rest); }
        multiset{xs[o[0]]} + multiset(Permute(xs, rest));
        { PermuteRemove(xs, o', p); }
        multiset(Permute(xs, o'));
      }
    }
  }

  /** Listing the elements in the order a schedule runs them permutes them. */
  lemma PermuteIsPermutation<X>(xs: seq<X>, order: seq<nat>)
    requires IsOrder(order, |xs|)
    ensures multiset(Permute(xs, order)) == multiset(xs)
  {
    PermuteRespectsMultiset(xs, order, Iota(|xs|));
    assert Permute(xs, Iota(|xs|)) == xs;
  }


}
