/** The order in which generalisation tries the literals of a clause. */
module Ordering {

  /** No later position has a smaller priority. */
  predicate Least(p: seq<nat>, i: nat) {
    i < |p| && forall q :: i <= q < |p| ==> p[i] <= p[q]
  }

  /** `x` is the first position with the smallest priority from `i` on. */
  ghost predicate FirstLeast(p: seq<nat>, i: nat, x: nat) {
    i <= x && Least(p, x) && forall q :: i <= q < x ==> p[x] < p[q]
  }

  /** Every stretch that ends in a least position is rotated by one: that position comes first, the others follow as they
      were. */
  ghost predicate Placed(p: seq<nat>, k: nat, x: nat) {
    if k == 0 || Least(p, k - 1) then FirstLeast(p, k, x) else x == k - 1
  }

  ghost predicate Rotated(p: seq<nat>, order: seq<nat>) {
    |order| == |p| && forall k :: 0 <= k < |p| ==> Placed(p, k, order[k])
  }

  /** The positions before `i` are final. Of the others at most one has been exchanged; it holds the one before `i`. */
  ghost predicate PartlyRotated(p: seq<nat>, order: seq<nat>, i: nat) {
    && |order| == |p| && (forall k :: 0 <= k < i && k < |p| ==> Placed(p, k, order[k]))
    && forall k :: i <= k < |p| ==> order[k] == if i > 0 && !Least(p, i - 1) && FirstLeast(p, i, k) then i - 1 else k
  }

  lemma LeastBelow(p: seq<nat>, i: nat, q: nat)
    requires Least(p, i) && i <= q < |p|
    ensures p[i] <= p[q]
  {
  }

  lemma OnlyLeast(p: seq<nat>, i: nat, x: nat)
    requires FirstLeast(p, i, x)
    ensures forall k: nat :: FirstLeast(p, i, k) ==> k == x
  {
    forall k: nat | FirstLeast(p, i, k) ensures k == x {
      if k < x { LeastBelow(p, k, x); } else { LeastBelow(p, x, k); }
    }
  }

  lemma OneExchange(p: seq<nat>, order: seq<nat>, i: nat, best: nat)
    requires PartlyRotated(p, order, i) && FirstLeast(p, i, best)
    ensures PartlyRotated(p, order[i := order[best]][best := order[i]], i + 1)
  {
    hide Least;
    LeastHere(p, i, best);
    OnlyLeast(p, i, best);
    if best > i { OnlyLeast(p, i + 1, best); }
  }

  lemma LeastHere(p: seq<nat>, i: nat, best: nat)
    requires FirstLeast(p, i, best)
    ensures best < |p| && (Least(p, i) <==> best == i) && (best > i ==> FirstLeast(p, i + 1, best))
  {
    if Least(p, i) { LeastBelow(p, i, best); }
  }

  lemma LastPlace(p: seq<nat>, order: seq<nat>, i: nat)
    requires PartlyRotated(p, order, i) && i + 1 >= |p|
    ensures Rotated(p, order)
  {
  }

  /** A position that is passed over is no larger than its neighbour if that is passed over too, and otherwise no larger
      than anything behind the neighbour. */
  ghost predicate GoodStep(p: seq<nat>, i: nat)
    requires i + 2 < |p|
  {
    if Least(p, i + 1) then forall q :: i + 2 <= q < |p| ==> p[i] <= p[q] else p[i] <= p[i + 1]
  }

  ghost predicate InPlace(p: seq<nat>) {
    forall i :: 0 <= i < |p| - 2 && !Least(p, i) ==> GoodStep(p, i)
  }

  /** The order is not always by priority, although that is what it is meant to be. */
  lemma NotSorted(order: seq<nat>)
    requires Rotated([3, 1, 2], order)
    ensures order == [1, 0, 2]
  {
    var p: seq<nat> := [3, 1, 2];
    assert Least(p, 1) && !Least(p, 0) by { assert p[1] < p[0]; }
    assert FirstLeast(p, 0, 1) && FirstLeast(p, 2, 2);
    OnlyLeast(p, 0, 1);
    OnlyLeast(p, 2, 2);
    assert Placed(p, 0, order[0]) && Placed(p, 1, order[1]) && Placed(p, 2, order[2]);
  }

  ghost predicate Ascending(p: seq<nat>, order: seq<nat>) {
    && (forall k :: 0 <= k < |order| ==> order[k] < |p|)
    && forall k :: 0 <= k < |order| - 1 ==> p[order[k]] <= p[order[k + 1]]
  }

  /** Exactly when the order is by priority. */
  lemma SortedExactly(p: seq<nat>, order: seq<nat>)
    requires Rotated(p, order)
    ensures Ascending(p, order) <==> InPlace(p)
  {
    hide Least, FirstLeast, GoodStep, Placed;
    forall k | 0 <= k < |p| ensures order[k] < |p| { PlaceInRange(p, order, k); }
    forall k | 0 <= k < |p| - 1
      ensures p[order[k]] <= p[order[k + 1]] <==> (k == 0 || Least(p, k - 1) || GoodStep(p, k - 1))
    {
      OneStep(p, order, k);
    }
    if Ascending(p, order) {
      forall i | 0 <= i < |p| - 2 && !Least(p, i) ensures GoodStep(p, i) {
        var k := i + 1;
        assert p[order[k]] <= p[order[k + 1]];
      }
    }
  }

  lemma PlaceInRange(p: seq<nat>, order: seq<nat>, k: nat)
    requires Rotated(p, order) && k < |p|
    ensures order[k] < |p|
  {
    assert Placed(p, k, order[k]);
  }

  lemma OneStep(p: seq<nat>, order: seq<nat>, k: nat)
    requires Rotated(p, order) && k + 1 < |p| && order[k] < |p| && order[k + 1] < |p|
    ensures p[order[k]] <= p[order[k + 1]] <==> (k == 0 || Least(p, k - 1) || GoodStep(p, k - 1))
  {
    assert Placed(p, k, order[k]) && Placed(p, k + 1, order[k + 1]);
  }
}
