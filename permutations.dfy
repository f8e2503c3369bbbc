/**
 * Reordering sequences: the fold results of a run are gathered in one order
 * and pandas' groupby visits the folds in another, so the reductions are
 * stated for any two sequences with the same multiset of elements.
 */
module Permutations {
  /** The image of a sequence under a function, element by element. */
  function Map<A, B>(xs: seq<A>, f: A -> B): (ys: seq<B>)
    ensures |ys| == |xs|
    ensures forall i :: 0 <= i < |xs| ==> ys[i] == f(xs[i])
  {
    seq(|xs|, i requires 0 <= i < |xs| => f(xs[i]))
  }

  lemma MapConcat<A, B>(xs: seq<A>, ys: seq<A>, f: A -> B)
    ensures Map(xs + ys, f) == Map(xs, f) + Map(ys, f)
  {
    assert forall i :: 0 <= i < |xs + ys| ==> Map(xs + ys, f)[i] == (Map(xs, f) + Map(ys, f))[i] by {
      forall i | 0 <= i < |xs + ys| ensures Map(xs + ys, f)[i] == (Map(xs, f) + Map(ys, f))[i] {
        if i >= |xs| {
          assert (xs + ys)[i] == ys[i - |xs|];
        }
      }
    }
  }

  /**
   * The first element of xs occurs in any permutation ys of xs, and removing
   * it from both leaves two permutations of each other.
   */
  lemma Remove<A>(xs: seq<A>, ys: seq<A>) returns (j: nat)
    requires multiset(xs) == multiset(ys) && |xs| > 0
    ensures j < |ys| && ys[j] == xs[0]
    ensures ys == ys[..j] + [ys[j]] + ys[j + 1..]
    ensures multiset(xs[1..]) == multiset(ys[..j] + ys[j + 1..])
  {
    assert xs[0] in multiset(ys);
    j :| 0 <= j < |ys| && ys[j] == xs[0];
    assert ys == ys[..j] + [ys[j]] + ys[j + 1..];
    assert xs == [xs[0]] + xs[1..];
    calc {
      multiset(xs[1..]) + multiset{xs[0]};
      multiset(xs);
      multiset(ys[..j]) + multiset{ys[j]} + multiset(ys[j + 1..]);
      multiset(ys[..j] + ys[j + 1..]) + multiset{xs[0]};
    }
    assert forall x :: multiset(xs[1..])[x] == multiset(ys[..j] + ys[j + 1..])[x] by {
      forall x ensures multiset(xs[1..])[x] == multiset(ys[..j] + ys[j + 1..])[x] {
        assert (multiset(xs[1..]) + multiset{xs[0]})[x] == (multiset(ys[..j] + ys[j + 1..]) + multiset{xs[0]})[x];
      }
    }
  }

  /** Mapping a function over two permutations of one sequence gives two permutations. */
  lemma {:induction false} MapPermutation<A, B>(xs: seq<A>, ys: seq<A>, f: A -> B)
    requires multiset(xs) == multiset(ys)
    ensures multiset(Map(xs, f)) == multiset(Map(ys, f))
    decreases |xs|
  {
    if xs == [] {
      assert |ys| == |multiset(ys)| == 0;
    } else {
      var j := Remove(xs, ys);
      MapPermutation(xs[1..], ys[..j] + ys[j + 1..], f);
      assert xs == [xs[0]] + xs[1..];
      MapConcat([xs[0]], xs[1..], f);
      MapConcat(ys[..j], ys[j + 1..], f);
      MapConcat(ys[..j] + [ys[j]], ys[j + 1..], f);
      MapConcat(ys[..j], [ys[j]], f);
    }
  }
}
