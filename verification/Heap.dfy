/** The indexed binary heap of integer keys and the bucketed priority queue built on it, which orders the proof
    obligations of the model checker by frame. */
module Heaps {

  function Left(i: nat): nat { i * 2 + 1 }

  function Right(i: nat): nat { (i + 1) * 2 }

  function Parent(i: nat): nat
    requires i > 0
  {
    (i - 1) / 2
  }

  /** Heap order below position `lo`: every position whose parent is at `lo` or later is at least its parent. */
  ghost predicate OrderedFrom(h: seq<nat>, lo: nat) {
    forall j :: 0 < j < |h| && Parent(j) >= lo ==> h[Parent(j)] <= h[j]
  }

  ghost predicate SameElements(g: seq<nat>, h: seq<nat>) {
    |g| == |h| && forall x :: x in g <==> x in h
  }

  /** `indices` gives the position of every key of `h`, and only of those. */
  ghost predicate Indexed(h: seq<nat>, indices: seq<int>) {
    && (forall k :: 0 <= k < |h| ==> h[k] < |indices| && indices[h[k]] == k)
    && forall x :: 0 <= x < |indices| && indices[x] >= 0 ==> indices[x] < |h| && h[indices[x]] == x
  }

  /** As `Indexed`, but the key at position `i` has not been given its position yet. */
  ghost predicate IndexedBut(h: seq<nat>, indices: seq<int>, i: nat) {
    && i < |h|
    && (forall k :: 0 <= k < |h| ==> h[k] < |indices|)
    && (forall k :: 0 <= k < |h| && k != i ==> indices[h[k]] == k && h[k] != h[i])
    && forall x :: 0 <= x < |indices| && indices[x] >= 0 && x != h[i] ==> indices[x] < |h| && h[indices[x]] == x
  }

  lemma PlaceIndexed(h: seq<nat>, indices: seq<int>, i: nat)
    requires IndexedBut(h, indices, i)
    ensures Indexed(h, indices[h[i] := i])
  {
  }

  /** Moving the key at `p` into the hole at `i` makes `p` the hole. */
  lemma MoveHole(h: seq<nat>, indices: seq<int>, i: nat, p: nat)
    requires IndexedBut(h, indices, i) && p < |h| && p != i
    ensures IndexedBut(Swap(h, i, p), indices[h[p] := i], p) && SameElements(Swap(h, i, p), h)
  {
    var g := Swap(h, i, p);
    forall x ensures x in g <==> x in h {
      if x in h {
        var k :| 0 <= k < |h| && h[k] == x;
        assert g[if k == i then p else if k == p then i else k] == x;
      }
    }
  }

  /** Heap order everywhere but between `i` and its parent; the children of `i` respect its parent. */
  ghost predicate OrderedUp(g: seq<nat>, i: nat) {
    && (forall j :: 0 < j < |g| && j != i ==> g[Parent(j)] <= g[j])
    && forall j :: 0 < j < |g| && 0 < i < |g| && Parent(j) == i ==> g[Parent(i)] <= g[j]
  }

  /** Heap order from `lo` on everywhere but between `i` and its children, which respect the parent of `i`. */
  ghost predicate OrderedDown(g: seq<nat>, lo: nat, i: nat) {
    && (forall j :: 0 < j < |g| && Parent(j) >= lo && Parent(j) != i ==> g[Parent(j)] <= g[j])
    && (0 < i < |g| && i > lo ==> Parent(i) >= lo && forall j :: 0 < j < |g| && Parent(j) == i ==> g[Parent(i)] <= g[j])
  }

  function Swap(g: seq<nat>, i: nat, p: nat): (h: seq<nat>)
    requires i < |g| && p < |g|
    ensures |h| == |g|
  {
    g[i := g[p]][p := g[i]]
  }

  lemma SwapHole(h: seq<nat>, i: nat, c: nat, x: nat)
    requires i < |h| && c < |h| && i != c
    ensures Swap(h[i := x], i, c) == h[i := h[c]][c := x]
  {
  }

  lemma UpStep(g: seq<nat>, i: nat)
    requires 0 < i < |g| && OrderedUp(g, i) && g[i] < g[Parent(i)]
    ensures OrderedUp(Swap(g, i, Parent(i)), Parent(i))
  {
    var p := Parent(i);
    var h := Swap(g, i, p);
    forall j | 0 < j < |h| && j != p ensures h[Parent(j)] <= h[j] {
      if j != i { assert g[Parent(j)] <= g[j]; }
    }
    forall j | 0 < j < |h| && p > 0 && Parent(j) == p ensures h[Parent(p)] <= h[j] {
      assert g[Parent(p)] <= g[p];
      if j != i { assert g[p] <= g[j]; }
    }
  }

  lemma DownStep(g: seq<nat>, lo: nat, i: nat, c: nat)
    requires lo <= i < |g| && OrderedDown(g, lo, i) && 0 < c < |g| && Parent(c) == i && g[c] < g[i]
    requires forall j :: 0 < j < |g| && Parent(j) == i ==> g[c] <= g[j]
    ensures OrderedDown(Swap(g, i, c), lo, c)
  {
    var h := Swap(g, i, c);
    forall j | 0 < j < |h| && Parent(j) >= lo && Parent(j) != c ensures h[Parent(j)] <= h[j] {
      if Parent(j) != i { assert j == i || g[Parent(j)] <= g[j]; }
    }
    forall j | 0 < j < |h| && Parent(j) == c ensures h[Parent(c)] <= h[j] {
      assert g[Parent(j)] <= g[j];
    }
  }

  /** The smaller child of `i`. */
  function Child(g: seq<nat>, i: nat): (c: nat)
    requires Left(i) < |g|
    ensures 0 < c < |g| && Parent(c) == i && c > i
    ensures forall j :: 0 < j < |g| && Parent(j) == i ==> g[c] <= g[j]
  {
    if Right(i) < |g| && g[Right(i)] < g[Left(i)] then Right(i) else Left(i)
  }

  lemma DownDone(g: seq<nat>, lo: nat, i: nat)
    requires lo <= i < |g| && OrderedDown(g, lo, i)
    requires Left(i) < |g| ==> g[i] <= g[Child(g, i)]
    ensures OrderedFrom(g, lo)
  {
    forall j | 0 < j < |g| && Parent(j) >= lo ensures g[Parent(j)] <= g[j] {
      if Parent(j) == i { assert g[Child(g, i)] <= g[j]; }
    }
  }

  lemma DownStart(g: seq<nat>, indices: seq<int>, i: nat)
    requires IndexedBut(g, indices, i) && OrderedFrom(g, i + 1)
    ensures i < |g| && OrderedDown(g, i, i) && SameElements(g, g)
  {
  }

  lemma SameTrans(a: seq<nat>, b: seq<nat>, c: seq<nat>)
    requires SameElements(a, b) && SameElements(b, c)
    ensures SameElements(a, c)
  {
  }

  /** In order already: the key stays where it is. */
  lemma NoStep(g: seq<nat>, lo: nat, i: nat)
    requires OrderedFrom(g, lo) && lo <= i && Left(i) < |g|
    ensures g[i] <= g[Child(g, i)]
  {
  }

  lemma KeysFit(g: seq<nat>, indices: seq<int>, i: nat)
    requires IndexedBut(g, indices, i)
    ensures forall k :: 0 <= k < |g| ==> g[k] < |indices|
  {
  }

  /** Replacing the root by the last key removes exactly the root. */
  lemma DropRoot(h: seq<nat>, indices: seq<int>, x: nat)
    requires Indexed(h, indices) && |h| > 0
    ensures x in h[0 := h[|h| - 1]][..|h| - 1] <==> x in h && x != h[0]
  {
    var g := h[0 := h[|h| - 1]][..|h| - 1];
    if x in h && x != h[0] {
      var k :| 0 <= k < |h| && h[k] == x;
      assert g[if k == |h| - 1 then 0 else k] == x;
    }
    if x in g {
      var k :| 0 <= k < |g| && g[k] == x;
      assert x == h[if k == 0 then |h| - 1 else k];
      assert indices[h[0]] == 0;
    }
  }

  /** The root of an ordered heap is its minimum. */
  lemma {:induction false} RootIsMin(h: seq<nat>, k: nat)
    requires OrderedFrom(h, 0) && k < |h|
    ensures h[0] <= h[k]
  {
    if k > 0 { RootIsMin(h, Parent(k)); }
  }

  class Heap {
    var heap: seq<nat>
    var indices: seq<int>

    ghost predicate Valid()
      reads this
    {
      OrderedFrom(heap, 0) && Indexed(heap, indices)
    }

    constructor ()
      ensures Valid() && heap == []
    {
      heap, indices := [], [];
    }

    /** Sifts the key at `i0` towards the root. The order may be violated between `i0` and its parent only. */
    method PercolateUp(i0: nat)
      requires IndexedBut(heap, indices, i0) && OrderedUp(heap, i0)
      modifies this
      ensures Valid() && SameElements(heap, old(heap)) && |indices| == |old(indices)|
    {
      var i := i0;
      var x := heap[i];
      ghost var g := heap;
      while i != 0 && x < heap[Parent(i)]
        invariant i < |heap| && g == heap[i := x] && |indices| == |old(indices)|
        invariant IndexedBut(g, indices, i) && OrderedUp(g, i) && SameElements(g, old(heap))
      {
        var p := Parent(i);
        MoveHole(g, indices, i, p);
        UpStep(g, i);
        SwapHole(heap, i, p, x);
        g := Swap(g, i, p);
        indices := indices[heap[p] := i];
        heap := heap[i := heap[p]];
        i := p;
      }
      PlaceIndexed(g, indices, i);
      heap := heap[i := x];
      indices := indices[x := i];
    }

    /** Sifts the key at `i0` away from the root. */
    method PercolateDown(i0: nat)
      requires IndexedBut(heap, indices, i0) && OrderedFrom(heap, i0 + 1)
      modifies this
      ensures OrderedFrom(heap, i0) && Indexed(heap, indices) && SameElements(heap, old(heap))
      ensures |indices| == |old(indices)| && (OrderedFrom(old(heap), i0) ==> heap == old(heap))
    {
      hide IndexedBut, OrderedDown, OrderedFrom, Swap, SameElements, Indexed;
      DownStart(heap, indices, i0);
      var i := i0;
      var x := heap[i];
      ghost var g := heap;
      while Left(i) < |heap|
        invariant i0 <= i < |heap| && g == heap[i := x] && |indices| == |old(indices)|
        invariant IndexedBut(g, indices, i) && OrderedDown(g, i0, i) && SameElements(g, old(heap))
        invariant OrderedFrom(old(heap), i0) ==> g == old(heap)
        decreases |heap| - i
      {
        var child := if Right(i) < |heap| && heap[Right(i)] < heap[Left(i)] then Right(i) else Left(i);
        assert child == Child(g, i);
        KeysFit(g, indices, i);
        if OrderedFrom(old(heap), i0) { NoStep(g, i0, i); }
        if !(heap[child] < x) {
          break;
        }
        MoveHole(g, indices, i, child);
        DownStep(g, i0, i, child);
        SameTrans(Swap(g, i, child), g, old(heap));
        SwapHole(heap, i, child, x);
        g := Swap(g, i, child);
        indices := indices[heap[child] := i];
        heap := heap[i := heap[child]];
        i := child;
      }
      DownDone(g, i0, i);
      KeysFit(g, indices, i);
      PlaceIndexed(g, indices, i);
      heap := heap[i := x];
      indices := indices[x := i];
    }

    predicate InHeap(k: nat)
      reads this
    {
      k < |indices| && indices[k] >= 0
    }

    /** Adds a key that is not there yet. */
    method Insert(k: nat)
      requires Valid() && !InHeap(k)
      modifies this
      ensures Valid() && forall x :: x in heap <==> x in old(heap) || x == k
    {
      if k >= |indices| {
        indices := indices + seq(k + 1 - |indices|, _ => -1);
      }
      heap := heap + [k];
      PercolateUp(|heap| - 1);
    }

    /** The safe variant of insertion. */
    method Update(k: nat)
      requires Valid()
      modifies this
      ensures Valid() && forall x :: x in heap <==> x in old(heap) || x == k
    {
      if !InHeap(k) {
        Insert(k);
      } else {
        PercolateUp(indices[k]);
        assert k in heap;
        PercolateDown(indices[k]);
      }
    }

    /** Removes the root, which is the least key. */
    method RemoveMin() returns (x: nat)
      requires Valid() && heap != []
      modifies this
      ensures Valid() && x == old(heap)[0]
      ensures forall y :: y in heap <==> y in old(heap) && y != x
    {
      x := heap[0];
      forall y ensures y in heap[0 := heap[|heap| - 1]][..|heap| - 1] <==> y in heap && y != x {
        if y >= 0 { DropRoot(heap, indices, y); }
      }
      heap := heap[0 := heap[|heap| - 1]];
      indices := indices[heap[0] := 0];
      indices := indices[x := -1];
      heap := heap[..|heap| - 1];
      if |heap| > 1 {
        PercolateDown(0);
      }
    }
  }
}
