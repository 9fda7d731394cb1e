/** Facts about plain sequences the rest of the model leans on: the
    concatenation of a sequence of sequences, and taking one entry out of a
    sequence while keeping track of its multiset. */
module Sequences {

  /** The concatenation of a sequence of sequences, in order. */
  function Flatten<X>(ss: seq<seq<X>>): seq<X> {
    if ss == [] then [] else Flatten(ss[..|ss| - 1]) + ss[|ss| - 1]
  }

  /** A position at which `x` occurs in `s`. */
  ghost function FindIndex<X>(s: seq<X>, x: X): (p: nat)
    requires x in multiset(s)
    ensures p < |s| && s[p] == x
  {
    var p :| 0 <= p < |s| && s[p] == x; p
  }

  /** A sequence is what comes before entry `p`, the entry, and what comes after it. */
  lemma SplitAt<X>(s: seq<X>, p: nat)
    requires p < |s|
    ensures s == s[..p] + [s[p]] + s[p + 1..]
  {
  }

  /** Taking entry `p` out of `s` takes one copy of it out of the multiset. */
  lemma MultisetRemove<X>(s: seq<X>, p: nat)
    requires p < |s|
    ensures multiset(s[..p] + s[p + 1..]) == multiset(s) - multiset{s[p]}
  {
    assert s == s[..p] + [s[p]] + s[p + 1..];
  }

  /** A sequence with the same multiset as the empty one is empty. */
  lemma EmptyMultiset<X>(s: seq<X>, t: seq<X>)
    requires s == [] && multiset(s) == multiset(t)
    ensures t == []
  {
    assert |t| == |multiset(t)| == 0;
  }

  /** Taking the first entry of `s` and a matching entry of `t` out of two
      sequences with the same multiset leaves sequences with the same multiset. */
  lemma RemoveMatching<X>(s: seq<X>, t: seq<X>, p: nat) returns (rest: seq<X>)
    requires multiset(s) == multiset(t) && s != [] && p < |t| && t[p] == s[0]
    ensures rest == t[..p] + t[p + 1..]
    ensures multiset(s[1..]) == multiset(rest)
  {
    rest := t[..p] + t[p + 1..];
    MultisetRemove(t, p);
    assert s == [s[0]] + s[1..];
  }

  /** Concatenation distributes over splitting the list of pieces. */
  lemma {:induction false} FlattenAppend<X>(ss: seq<seq<X>>, tt: seq<seq<X>>)
    ensures Flatten(ss + tt) == Flatten(ss) + Flatten(tt)
    decreases |tt|
  {
    if tt == [] {
      assert ss + tt == ss;
    } else {
      assert (ss + tt)[..|ss + tt| - 1] == ss + tt[..|tt| - 1];
      FlattenAppend(ss, tt[..|tt| - 1]);
    }
  }

  /** Concatenating the same pieces in another order gives the same multiset of elements. */
  lemma {:induction false} FlattenRespectsMultiset<X>(ss: seq<seq<X>>, tt: seq<seq<X>>)
    requires multiset(ss) == multiset(tt)
    ensures multiset(Flatten(ss)) == multiset(Flatten(tt))
    decreases |ss|
  {
    if ss == [] {
      EmptyMultiset(ss, tt);
    } else {
      var p := FindIndex(tt, ss[0]);
      var rest := RemoveMatching(ss, tt, p);
      calc {
        multiset(Flatten(ss));
        { FlattenRemove(ss, 0); assert ss[..0] + ss[1..] == ss[1..]; }
        multiset(ss[0]) + multiset(Flatten(ss[1..]));
        { FlattenRespectsMultiset(ss[1..], rest); }
        multiset(ss[0]) + multiset(Flatten(rest));
        { FlattenRemove(tt, p); }
        multiset(Flatten(tt));
      }
    }
  }

  /** Taking one piece out of a concatenation takes its elements out of the multiset. */
  lemma FlattenRemove<X>(ss: seq<seq<X>>, p: nat)
    requires p < |ss|
    ensures multiset(Flatten(ss)) == multiset(ss[p]) + multiset(Flatten(ss[..p] + ss[p + 1..]))
  {
    var front, back := ss[..p], ss[p + 1..];
    calc {
      multiset(Flatten(ss));
      { SplitAt(ss, p); }
      multiset(Flatten(front + [ss[p]] + back));
      { FlattenMiddle(front, ss[p], back); }
      multiset(ss[p]) + multiset(Flatten(front + back));
    }
  }

  /** A piece in the middle contributes its elements to the multiset. */
  lemma FlattenMiddle<X>(front: seq<seq<X>>, s: seq<X>, back: seq<seq<X>>)
    ensures multiset(Flatten(front + [s] + back)) == multiset(s) + multiset(Flatten(front + back))
  {
    FlattenAppend(front + [s], back);
    FlattenAppend(front, [s]);
    FlattenAppend(front, back);
    assert Flatten([s]) == s by {
      assert [s][..0] == [];
    }
    var ff, fb := Flatten(front), Flatten(back);
    calc {
      multiset(Flatten(front + [s] + back));
      multiset(ff + s + fb);
      multiset(ff) + multiset(s) + multiset(fb);
      multiset(s) + multiset(ff + fb);
    }
  }

}
