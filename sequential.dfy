/** The sequential operations of Swift's standard library that the parallel
    extensions fall back to and are compared against: `map` and `reduce`
    with a closure that may throw. A closure that throws is modelled as one
    that returns `None`. */
module Sequential {

  import opened Wrappers

  /** No element makes `transform` throw. */
  ghost predicate AllSucceed<E, T>(xs: seq<E>, transform: E -> Option<T>) {
    forall i :: 0 <= i < |xs| ==> transform(xs[i]).Some?
  }

  /** The per-element results as optionals: at index `i`, what `try? transform(xs[i])` yields. */
  function Lifted<E, T>(xs: seq<E>, transform: E -> Option<T>): seq<Option<T>> {
    seq(|xs|, i requires 0 <= i < |xs| => transform(xs[i]))
  }

  /** A Swift array `[T]` used where `[T?]` is expected: every entry is present. */
  function Optionals<T>(vs: seq<T>): seq<Option<T>> {
    seq(|vs|, i requires 0 <= i < |vs| => Some(vs[i]))
  }

  /** `try xs.map(transform)`: either every element's result, in order, or a
      throw as soon as one element throws. */
  function TryMap<E, T>(xs: seq<E>, transform: E -> Option<T>): (r: Option<seq<T>>)
    ensures r.Some? <==> AllSucceed(xs, transform)
    ensures r.Some? ==> |r.value| == |xs|
    ensures r.Some? ==> forall i :: 0 <= i < |xs| ==> Some(r.value[i]) == transform(xs[i])
  {
    if xs == [] then Some([])
    else
      match transform(xs[0])
      case None => None
      case Some(y) =>
        (match TryMap(xs[1..], transform)
         case None =>
           assert !transform(xs[1..][IndexOfFailure(xs[1..], transform)]).Some?;
           None
         case Some(ys) => Some([y] + ys))
  }

  /** The index of some element whose transform throws, when there is one. */
  ghost function IndexOfFailure<E, T>(xs: seq<E>, transform: E -> Option<T>): (i: nat)
    requires !AllSucceed(xs, transform)
    ensures i < |xs| && transform(xs[i]).None?
  {
    var i :| 0 <= i < |xs| && transform(xs[i]).None?; i
  }

  /** `try xs.reduce(a, combine)`: a left fold that is abandoned as soon as
      one `combine` throws. When it completes, no element was skipped, so it
      agrees with the fold of guarded updates. */
  function TryFold<A, E>(a: A, xs: seq<E>, combine: (A, E) -> Option<A>): (r: Option<A>)
    ensures r.Some? ==> r.value == FoldSkipping(a, xs, combine)
    ensures xs == [] ==> r == Some(a)
  {
    if xs == [] then Some(a)
    else
      match combine(a, xs[0])
      case None => None
      case Some(b) => TryFold(b, xs[1..], combine)
  }

  /** One guarded accumulator update, `if let p = try? combine(a, x) { a = p }`:
      a throwing `combine` leaves the accumulator as it was. */
  function Skip<A, E>(combine: (A, E) -> Option<A>, a: A, x: E): (r: A)
    ensures combine(a, x).Some? ==> r == combine(a, x).value
    ensures combine(a, x).None? ==> r == a
  {
    match combine(a, x)
    case Some(b) => b
    case None => a
  }

  /** The left fold of guarded updates: every element whose `combine` throws
      is skipped, the others are folded in order. */
  function FoldSkipping<A, E>(a: A, xs: seq<E>, combine: (A, E) -> Option<A>): A {
    if xs == [] then a else FoldSkipping(Skip(combine, a, xs[0]), xs[1..], combine)
  }

  /** `combine` never throws on an element of `xs`, whatever the accumulator. */
  ghost predicate NeverFails<A(!new), E>(combine: (A, E) -> Option<A>, xs: seq<E>) {
    forall a, i :: 0 <= i < |xs| ==> combine(a, xs[i]).Some?
  }

  /** Folding in `x` and then `y` gives what folding in `y` and then `x` gives
      (integer addition is the usual case). */
  ghost predicate RightCommutative<A(!new), E(!new)>(combine: (A, E) -> Option<A>) {
    forall a, x, y :: Skip(combine, Skip(combine, a, x), y) == Skip(combine, Skip(combine, a, y), x)
  }

  /** A reduce over `s + t` is the reduce over `t` resumed from the reduce over
      `s`; a throw in `s` aborts the whole fold. */
  lemma {:induction false} TryFoldAppend<A, E>(a: A, s: seq<E>, t: seq<E>, combine: (A, E) -> Option<A>)
    ensures TryFold(a, s + t, combine)
            == match TryFold(a, s, combine)
               case None => None
               case Some(b) => TryFold(b, t, combine)
    decreases |s|
  {
    if s != [] {
      assert (s + t)[0] == s[0] && (s + t)[1..] == s[1..] + t;
      match combine(a, s[0])
      case None =>
      case Some(b) => TryFoldAppend(b, s[1..], t, combine);
    } else {
      assert s + t == t;
    }
  }

  /** When `combine` never throws, the sequential `reduce` succeeds and skips nothing. */
  lemma {:induction false} TryFoldNeverFails<A(!new), E>(a: A, xs: seq<E>, combine: (A, E) -> Option<A>)
    requires NeverFails(combine, xs)
    ensures TryFold(a, xs, combine) == Some(FoldSkipping(a, xs, combine))
    decreases |xs|
  {
    if xs != [] {
      assert combine(a, xs[0]).Some?;
      assert NeverFails(combine, xs[1..]) by {
        forall b, i | 0 <= i < |xs[1..]| ensures combine(b, xs[1..][i]).Some? {
          assert xs[1..][i] == xs[i + 1];
        }
      }
      TryFoldNeverFails(combine(a, xs[0]).value, xs[1..], combine);
    }
  }

  /** Folding `s + t` is folding `t` from the result of folding `s`. */
  lemma {:induction false} FoldSkippingAppend<A, E>(a: A, s: seq<E>, t: seq<E>, combine: (A, E) -> Option<A>)
    ensures FoldSkipping(a, s + t, combine) == FoldSkipping(FoldSkipping(a, s, combine), t, combine)
    decreases |s|
  {
    if s != [] {
      assert (s + t)[0] == s[0] && (s + t)[1..] == s[1..] + t;
      FoldSkippingAppend(Skip(combine, a, s[0]), s[1..], t, combine);
    } else {
      assert s + t == t;
    }
  }

  /** Under right-commutativity one update can be moved from the end of a fold to its start. */
  lemma {:induction false} SkipCommutesWithFold<A(!new), E(!new)>(a: A, x: E, s: seq<E>, combine: (A, E) -> Option<A>)
    requires RightCommutative(combine)
    ensures Skip(combine, FoldSkipping(a, s, combine), x) == FoldSkipping(Skip(combine, a, x), s, combine)
    decreases |s|
  {
    if s != [] {
      SkipCommutesWithFold(Skip(combine, a, s[0]), x, s[1..], combine);
      assert Skip(combine, Skip(combine, a, s[0]), x) == Skip(combine, Skip(combine, a, x), s[0]);
    }
  }

  /** Under right-commutativity an element anywhere in the sequence may be folded in first. */
  lemma FoldMoveToFront<A(!new), E(!new)>(a: A, u: seq<E>, x: E, v: seq<E>, combine: (A, E) -> Option<A>)
    requires RightCommutative(combine)
    ensures FoldSkipping(a, u + [x] + v, combine) == FoldSkipping(Skip(combine, a, x), u + v, combine)
  {
    FoldSkippingAppend(a, u + [x], v, combine);
    FoldSkippingAppend(a, u, [x], combine);
    SkipCommutesWithFold(a, x, u, combine);
    FoldSkippingAppend(Skip(combine, a, x), u, v, combine);
  }

  /** Under right-commutativity the fold does not depend on the order of the
      elements: two sequences with the same multiset fold to the same value. */
  lemma {:induction false} FoldSkippingPermutation<A(!new), E(!new)>(a: A, s: seq<E>, t: seq<E>, combine: (A, E) -> Option<A>)
    requires RightCommutative(combine)
    requires multiset(s) == multiset(t)
    ensures FoldSkipping(a, s, combine) == FoldSkipping(a, t, combine)
    decreases |s|
  {
    if s == [] {
      assert |t| == |multiset(t)| == 0;
    } else {
      assert s == [s[0]] + s[1..];
      assert s[0] in multiset(t);
      var p :| 0 <= p < |t| && t[p] == s[0];
      assert t == t[..p] + [t[p]] + t[p + 1..];
      assert multiset(t) == multiset(t[..p]) + multiset{s[0]} + multiset(t[p + 1..]);
      assert multiset(s) == multiset{s[0]} + multiset(s[1..]);
      calc {
        multiset(s[1..]);
        multiset(s) - multiset{s[0]};
        multiset(t) - multiset{s[0]};
        multiset(t[..p]) + multiset(t[p + 1..]);
        multiset(t[..p] + t[p + 1..]);
      }
      FoldSkippingPermutation(Skip(combine, a, s[0]), s[1..], t[..p] + t[p + 1..], combine);
      FoldMoveToFront(a, t[..p], s[0], t[p + 1..], combine);
    }
  }

}
