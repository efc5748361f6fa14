/** The queue of proof obligations: one last-in-first-out bucket for each frame, with a heap of the frames in use. */
module VHeaps {
  import opened Heaps

  /** All queued elements. */
  ghost function Bag<T>(es: seq<seq<T>>): multiset<T> {
    if es == [] then multiset{} else multiset(es[0]) + Bag(es[1..])
  }

  lemma {:induction false} BagPush<T>(es: seq<seq<T>>, k: nat, e: T)
    requires k < |es|
    ensures Bag(es[k := es[k] + [e]]) == Bag(es) + multiset{e}
  {
    var fs := es[k := es[k] + [e]];
    if k == 0 {
      assert fs[1..] == es[1..];
    } else {
      BagPush(es[1..], k - 1, e);
      assert fs[1..] == es[1..][k - 1 := es[1..][k - 1] + [e]];
    }
  }

  lemma BagPop<T>(es: seq<seq<T>>, k: nat)
    requires k < |es| && |es[k]| > 0
    ensures var last := |es[k]| - 1; Bag(es) == Bag(es[k := es[k][..last]]) + multiset{es[k][last]}
  {
    var last := |es[k]| - 1;
    var fs := es[k := es[k][..last]];
    BagPush(fs, k, es[k][last]);
    assert fs[k] + [es[k][last]] == es[k];
    assert fs[k := es[k]] == es;
  }

  lemma {:induction false} BagGrow<T>(es: seq<seq<T>>, n: nat)
    ensures Bag(es + seq(n, _ => [])) == Bag(es)
    decreases |es| + n
  {
    var fs := es + seq(n, _ => []);
    if es != [] {
      BagGrow(es[1..], n);
      assert fs[1..] == es[1..] + seq(n, _ => []);
    } else if n > 0 {
      BagGrow<T>([], n - 1);
      assert fs[1..] == [] + seq(n - 1, _ => []);
    }
  }

  /** An element is queued exactly when it is in one of the buckets. */
  lemma {:induction false} BagMember<T>(es: seq<seq<T>>, e: T)
    ensures e in Bag(es) <==> exists k :: 0 <= k < |es| && e in es[k]
  {
    if es != [] {
      BagMember(es[1..], e);
      if k :| 0 <= k < |es| && e in es[k] {
        if k > 0 { assert es[1..][k - 1] == es[k]; }
      }
      if k :| 0 <= k < |es[1..]| && e in es[1..][k] {
        assert es[k + 1] == es[1..][k];
      }
    }
  }

  /** The elements queued under a key. */
  ghost function At<T>(es: seq<seq<T>>, k: nat): seq<T> {
    if k < |es| then es[k] else []
  }

  class VHeap<T> {
    var elements: seq<seq<T>>
    var sz: nat
    const Q: Heap

    ghost predicate Valid()
      reads this, Q
    {
      && Q.Valid()
      && sz == |Bag(elements)|
      && forall k :: k in Q.heap <==> 0 <= k < |elements| && elements[k] != []
    }

    constructor ()
      ensures Valid() && fresh(Q) && elements == [] && sz == 0
    {
      Q := new Heap();
      elements, sz := [], 0;
    }

    /** The root of the heap of keys is the least key with a nonempty bucket. */
    lemma LeastKey()
      requires Valid() && sz > 0
      ensures Q.heap != [] && Q.heap[0] < |elements| && elements[Q.heap[0]] != []
      ensures forall k: nat :: k < Q.heap[0] ==> At(elements, k) == []
    {
      if e :| e in Bag(elements) { BagMember(elements, e); }
      assert Q.heap[0] in Q.heap;
      forall k: nat | k < Q.heap[0] ensures At(elements, k) == [] {
        if k in Q.heap {
          var j :| 0 <= j < |Q.heap| && Q.heap[j] == k;
          RootIsMin(Q.heap, j);
        }
      }
    }

    method Insert(key: nat, element: T)
      requires Valid()
      modifies this, Q
      ensures Valid() && sz == old(sz) + 1
      ensures Bag(elements) == old(Bag(elements)) + multiset{element}
      ensures forall k: nat :: At(elements, k) == if k == key then At(old(elements), k) + [element] else At(old(elements), k)
    {
      hide Bag;
      sz := sz + 1;
      Q.Update(key);
      if key >= |elements| {
        BagGrow(elements, key + 1 - |elements|);
        elements := elements + seq(key + 1 - |elements|, _ => []);
      }
      BagPush(elements, key, element);
      elements := elements[key := elements[key] + [element]];
    }

    /** Takes the element added last among those with the least key. */
    method RemoveMin() returns (element: T, ghost level: nat)
      requires Valid() && sz > 0
      modifies this, Q
      ensures Valid() && sz == old(sz) - 1
      ensures Bag(elements) + multiset{element} == old(Bag(elements))
      ensures forall k: nat :: k < level ==> At(old(elements), k) == []
      ensures forall k: nat :: At(old(elements), k) == if k == level then At(elements, k) + [element] else At(elements, k)
    {
      hide Bag;
      LeastKey();
      var min := Q.heap[0];
      level := min;
      var bucket := elements[min];
      element := bucket[|bucket| - 1];
      BagPop(elements, min);
      elements := elements[min := bucket[..|bucket| - 1]];
      assert bucket == elements[min] + [element];
      if |bucket| == 1 {
        var _ := Q.RemoveMin();
      }
      sz := sz - 1;
    }
  }
}
