/** The queue of proof obligations: cubes ordered by frame, their reference counts, and the measure of the loop that
    works them off. */
module Queueing {
  import opened Aigs
  import opened Frames
  import opened VHeaps
  import opened Obligations

  /** Remaining frame distances of the queue, from the number of entries of each frame. */
  ghost function Dist(sizes: seq<nat>): nat {
    if sizes == [] then 0 else sizes[0] * |sizes| + Dist(sizes[1..])
  }

  lemma {:induction false} DistBump(sizes: seq<nat>, k: nat)
    requires k < |sizes|
    ensures Dist(sizes[k := sizes[k] + 1]) == Dist(sizes) + (|sizes| - k)
  {
    if k == 0 {
      assert sizes[0 := sizes[0] + 1][1..] == sizes[1..];
    } else {
      assert sizes[k := sizes[k] + 1][1..] == sizes[1..][k - 1 := sizes[1..][k - 1] + 1];
      DistBump(sizes[1..], k - 1);
    }
  }

  /** The least frame with an entry, or the number of frames. */
  ghost function FirstBusy(sizes: seq<nat>): (k: nat)
    ensures k <= |sizes| && (k < |sizes| ==> sizes[k] > 0)
    ensures forall j :: 0 <= j < k ==> sizes[j] == 0
  {
    if sizes == [] || sizes[0] > 0 then 0 else 1 + FirstBusy(sizes[1..])
  }

  /** The number of queued cubes for each frame. */
  ghost function Sizes(es: seq<seq<TCube>>, depth: nat): seq<nat> {
    seq(depth + 1, k requires 0 <= k <= depth => |At(es, k)|)
  }

  function Bump(sizes: seq<nat>, k: nat): seq<nat>
    requires k < |sizes|
  {
    sizes[k := sizes[k] + 1]
  }

  /** The frame of the next obligation if it is not blocked there, otherwise the number of frames. */
  ghost function Urgency(es: seq<seq<TCube>>, st: Store, depth: nat): nat {
    var k := FirstBusy(Sizes(es, depth));
    if k <= depth && !Blocked(st, k, Lits(At(es, k)[|At(es, k)| - 1].assignment)) then k else depth + 1
  }

  /** Queued cubes are live and queued under their frame; at frame 0 they contain a reset state. */
  ghost predicate InPlace(g: Circuit, es: seq<seq<TCube>>, live: set<TCube>, depth: int)
    reads live`frame
  {
    forall k: nat, c :: c in At(es, k) ==> c in live && c.frame == k && k <= depth && (k == 0 ==> HasReset(g, c.assignment))
  }

  ghost predicate AllOnce(owed: multiset<TCube>) {
    forall c :: c in owed ==> owed[c] == 1
  }

  ghost predicate AllChains(g: Circuit, prop: seq<nat>, live: set<TCube>) {
    forall c :: c in live ==> c.Chain(g, prop)
  }

  lemma InPlaceStill(g: Circuit, es: seq<seq<TCube>>, live: set<TCube>, live': set<TCube>, depth: int)
    requires InPlace(g, es, live, depth) && forall c :: c in Bag(es) ==> c in live'
    ensures InPlace(g, es, live', depth)
  {
    forall k: nat, c | c in At(es, k)
      ensures c in live' && c.frame == k && k <= depth && (k == 0 ==> HasReset(g, c.assignment))
    {
      BagMember(es, c);
    }
  }

  /** The places after a cube `s` with the right frame has been added. */
  lemma InPlaceEnqueued(g: Circuit, es: seq<seq<TCube>>, fs: seq<seq<TCube>>, f: nat, s: TCube, live: set<TCube>, depth: int)
    requires Enqueued(es, fs, f, s) && InPlace(g, es, live, depth)
    requires s in live && s.frame == f <= depth && (f == 0 ==> HasReset(g, s.assignment))
    ensures InPlace(g, fs, live, depth)
  {
    forall k: nat, c | c in At(fs, k)
      ensures c in live && c.frame == k && k <= depth && (k == 0 ==> HasReset(g, c.assignment))
    {
      assert c in At(es, k) || (k == f && c == s);
    }
  }

  /** The places and the cube itself after it has been taken out. */
  lemma InPlaceDequeued(g: Circuit, es: seq<seq<TCube>>, fs: seq<seq<TCube>>, f: nat, s: TCube, live: set<TCube>, depth: int)
    requires Enqueued(es, fs, f, s) && InPlace(g, fs, live, depth)
    ensures InPlace(g, es, live, depth) && s in live && s.frame == f <= depth && (f == 0 ==> HasReset(g, s.assignment))
  {
    assert At(fs, f) == At(es, f) + [s];
    assert s in At(fs, f);
    forall k: nat, c | c in At(es, k)
      ensures c in live && c.frame == k && k <= depth && (k == 0 ==> HasReset(g, c.assignment))
    {
      assert c in At(fs, k);
    }
  }

  lemma NotQueued(es: seq<seq<TCube>>, s: TCube, k: nat)
    requires s !in Bag(es)
    ensures s !in At(es, k)
  {
    BagMember(es, s);
  }

  /** `fs` is `es` with `s` added last under key `f`. */
  ghost predicate Enqueued(es: seq<seq<TCube>>, fs: seq<seq<TCube>>, f: nat, s: TCube) {
    && Bag(fs) == Bag(es) + multiset{s}
    && forall k: nat :: At(fs, k) == if k == f then At(es, k) + [s] else At(es, k)
  }

  lemma EnqueuedSizes(es: seq<seq<TCube>>, fs: seq<seq<TCube>>, f: nat, s: TCube, depth: nat)
    requires Enqueued(es, fs, f, s) && f <= depth
    ensures Sizes(fs, depth) == Bump(Sizes(es, depth), f)
    ensures Dist(Sizes(fs, depth)) == Dist(Sizes(es, depth)) + depth + 1 - f
  {
    var a, b := Sizes(es, depth), Sizes(fs, depth);
    forall k | 0 <= k < |a| ensures b[k] == Bump(a, f)[k] {
      assert At(fs, k) == if k == f then At(es, k) + [s] else At(es, k);
    }
    assert b == Bump(a, f);
    DistBump(a, f);
  }

  /** With nothing queued before frame `f`, the urgency is decided by the cube added last there. */
  lemma EnqueuedUrgency(es: seq<seq<TCube>>, fs: seq<seq<TCube>>, f: nat, s: TCube, st: Store, depth: nat)
    requires Enqueued(es, fs, f, s) && f <= depth && forall k: nat :: k < f ==> At(es, k) == []
    ensures Urgency(fs, st, depth) == if Blocked(st, f, Lits(s.assignment)) then depth + 1 else f
  {
    var sizes := Sizes(fs, depth);
    assert sizes[f] > 0 && forall k :: 0 <= k < f ==> sizes[k] == 0;
    assert FirstBusy(sizes) == f;
  }

  /** The lexicographic measure of the loop: pairs of a frame and a cube that are not yet blocked, frame of the next
      obligation if it is open, remaining frame distances. */
  datatype Measure = Measure(open: set<(int, set<LLit>)>, urgency: nat, dist: nat)

  ghost function MeasureOf(n: nat, es: seq<seq<TCube>>, st: Store, depth: nat): Measure {
    Measure(Open(n, st), Urgency(es, st, depth), Dist(Sizes(es, depth)))
  }

  ghost predicate Smaller(a: Measure, b: Measure) {
    || a.open < b.open
    || (a.open == b.open && (a.urgency < b.urgency || (a.urgency == b.urgency && a.dist < b.dist)))
  }

  lemma UrgencyBound(es: seq<seq<TCube>>, st: Store, depth: nat)
    ensures Urgency(es, st, depth) <= depth + 1
  {
  }

  /** A blocked obligation that is dropped or moved to a later frame. */
  lemma MeasureBlocked(n: nat, st: Store, depth: nat, before: seq<seq<TCube>>, rest: seq<seq<TCube>>,
                       after: seq<seq<TCube>>, f: nat, h: nat, s: TCube)
    requires Enqueued(rest, before, f, s) && f <= depth && forall k: nat :: k < f ==> At(rest, k) == []
    requires Blocked(st, f, Lits(s.assignment))
    requires after == rest || (Enqueued(rest, after, h, s) && f < h <= depth)
    ensures Smaller(MeasureOf(n, after, st, depth), MeasureOf(n, before, st, depth))
  {
    EnqueuedSizes(rest, before, f, s, depth);
    EnqueuedUrgency(rest, before, f, s, st, depth);
    UrgencyBound(after, st, depth);
    if after != rest { EnqueuedSizes(rest, after, h, s, depth); }
  }

  /** An open obligation that gets an open predecessor in front of it. */
  lemma MeasurePredecessor(n: nat, st: Store, depth: nat, before: seq<seq<TCube>>, rest: seq<seq<TCube>>,
                           middle: seq<seq<TCube>>, after: seq<seq<TCube>>, f: nat, s: TCube, t: TCube)
    requires Enqueued(rest, before, f, s) && 0 < f <= depth && forall k: nat :: k < f ==> At(rest, k) == []
    requires Enqueued(rest, middle, f, s) && Enqueued(middle, after, f - 1, t)
    requires !Blocked(st, f, Lits(s.assignment)) && !Blocked(st, f - 1, Lits(t.assignment))
    ensures Smaller(MeasureOf(n, after, st, depth), MeasureOf(n, before, st, depth))
  {
    EnqueuedUrgency(rest, before, f, s, st, depth);
    forall k: nat | k < f - 1 ensures At(middle, k) == [] { assert At(middle, k) == At(rest, k); }
    EnqueuedUrgency(middle, after, f - 1, t, st, depth);
  }

  /** A new clause that blocks an open obligation. */
  lemma MeasureClause(n: nat, st: Store, st': Store, depth: nat, before: seq<seq<TCube>>, after: seq<seq<TCube>>,
                      f: nat, q: set<LLit>)
    requires |st.frames| == |st'.frames| && KeepsBlocked(st, st') && f < |st.frames| && q <= AllLits(n)
    requires !Blocked(st, f, q) && Blocked(st', f, q)
    ensures Smaller(MeasureOf(n, after, st', depth), MeasureOf(n, before, st, depth))
  {
    OpenShrinks(n, st, st', f, q);
  }

  class ObligationQueue {
    const Q: VHeap<TCube>
    const pool: TCubePool

    ghost function Parts(): set<object> { {this, Q, Q.Q, pool} }

    ghost predicate Empty()
      reads Q, Q.Q, pool, pool.live
    {
      Q.Valid() && Q.sz == 0 && Bag(Q.elements) == multiset{} && pool.Valid(multiset{}) && pool.live == {}
    }

    constructor ()
      ensures Empty() && fresh(Q) && fresh(Q.Q) && fresh(pool)
    {
      Q := new VHeap();
      pool := new TCubePool();
    }

    /** The counts are exact, every cube is queued at most once and in its place, every cube heads a chain into a bad
        state. `hand` are cubes taken from the queue. */
    ghost predicate Valid(g: Circuit, prop: seq<nat>, root: TCube, hand: multiset<TCube>, depth: int)
      reads Q, Q.Q, pool, pool.live
    {
      && Q.Valid() && pool.Valid(Bag(Q.elements) + hand + multiset{root}) && root.parent == null
      && InPlace(g, Q.elements, pool.live, depth) && AllOnce(Bag(Q.elements) + hand)
      && AllChains(g, prop, pool.live)
    }

    /** A second hold on the root, for its place in the queue. */
    method HoldRoot(ghost g: Circuit, ghost prop: seq<nat>, root: TCube, ghost depth: nat)
      requires Q.Valid() && Q.sz == 0 && pool.Valid(multiset{root}) && pool.live == {root}
      requires root.parent == null && root.Chain(g, prop)
      modifies root`refs
      ensures Valid(g, prop, root, multiset{root}, depth) && Bag(Q.elements) == multiset{}
    {
      root.refs := root.refs + 1;
      assert Bag(Q.elements) == multiset{};
      assert Bag(Q.elements) + multiset{root} + multiset{root} == multiset{root, root};
      forall k: nat, c | c in At(Q.elements, k) ensures false { BagMember(Q.elements, c); }
    }

    /** With an empty queue and nothing in hand only the root is left. */
    lemma OnlyRoot(g: Circuit, prop: seq<nat>, root: TCube, depth: int)
      requires Valid(g, prop, root, multiset{}, depth) && Q.sz == 0
      ensures Bag(Q.elements) == multiset{} && pool.live == {root} && pool.Valid(multiset{root})
    {
      assert Bag(Q.elements) == multiset{};
      assert Bag(Q.elements) + multiset{} + multiset{root} == multiset{root};
      OnlyRootLeft(pool.live, root);
    }

    /** Takes the next obligation from the queue. */
    method Take(ghost g: Circuit, ghost prop: seq<nat>, ghost root: TCube, ghost depth: nat) returns (s: TCube)
      requires Valid(g, prop, root, multiset{}, depth) && Q.sz > 0
      modifies Q, Q.Q
      ensures Valid(g, prop, root, multiset{s}, depth) && s in pool.live && s.Chain(g, prop)
      ensures 0 <= s.frame <= depth && (s.frame == 0 ==> HasReset(g, s.assignment))
      ensures Enqueued(Q.elements, old(Q.elements), s.frame, s)
      ensures forall k: nat :: k < s.frame ==> At(Q.elements, k) == []
    {
      hide Counted, InPlace, AllOnce, AllChains, Bag, At, HasReset;
      ghost var level;
      s, level := Q.RemoveMin();
      assert Enqueued(Q.elements, old(Q.elements), level, s);
      InPlaceDequeued(g, Q.elements, old(Q.elements), level, s, pool.live, depth);
      ChainOf(g, prop, pool.live, s);
      assert Bag(Q.elements) + multiset{s} + multiset{root} == old(Bag(Q.elements)) + multiset{} + multiset{root};
      assert Bag(Q.elements) + multiset{s} == old(Bag(Q.elements)) + multiset{};
    }

    /** Puts a cube in hand back under frame `f`. */
    method Requeue(ghost g: Circuit, ghost prop: seq<nat>, ghost root: TCube, s: TCube, f: nat, ghost depth: nat)
      requires Valid(g, prop, root, multiset{s}, depth) && f <= depth && (f == 0 ==> HasReset(g, s.assignment))
      modifies Q, Q.Q, s`frame
      ensures Valid(g, prop, root, multiset{}, depth) && Enqueued(old(Q.elements), Q.elements, f, s)
    {
      hide Counted, AllOnce, AllChains, Bag, At, HasReset;
      InHand(g, prop, root, s, depth);
      ghost var es := Q.elements;
      s.frame := f;
      Q.Insert(f, s);
      forall k: nat, c | c in At(es, k)
        ensures c in pool.live && c.frame == k && k <= depth && (k == 0 ==> HasReset(g, c.assignment))
      {
        assert c != s;
      }
      InPlaceEnqueued(g, es, Q.elements, f, s, pool.live, depth);
      assert Bag(Q.elements) + multiset{} + multiset{root} == old(Bag(Q.elements)) + multiset{s} + multiset{root};
      assert Bag(Q.elements) + multiset{} == old(Bag(Q.elements)) + multiset{s};
    }

    lemma InHand(g: Circuit, prop: seq<nat>, root: TCube, s: TCube, depth: nat)
      requires Valid(g, prop, root, multiset{s}, depth)
      ensures s in pool.live && s !in Bag(Q.elements) && s.Chain(g, prop) && forall k: nat :: s !in At(Q.elements, k)
    {
      hide InPlace, Bag, At;
      var owed := Bag(Q.elements) + multiset{s};
      assert s in owed && owed[s] == 1;
      assert s in owed + multiset{root};
      forall k: nat ensures s !in At(Q.elements, k) { NotQueued(Q.elements, s, k); }
    }

    /** Gives up a cube in hand. */
    method Discard(ghost g: Circuit, ghost prop: seq<nat>, ghost root: TCube, s: TCube, ghost depth: nat)
      requires Valid(g, prop, root, multiset{s}, depth)
      modifies pool, pool.live`refs
      ensures Valid(g, prop, root, multiset{}, depth) && pool.live <= old(pool.live)
    {
      hide Counted, InPlace, AllOnce, Bag, At, HasReset;
      ghost var owed, live := Bag(Q.elements) + multiset{s} + multiset{root}, pool.live;
      assert s in owed;
      var alive := pool.Release(s, owed);
      assert owed - multiset{s} == Bag(Q.elements) + multiset{} + multiset{root};
      OwedLive(pool.live, owed - multiset{s});
      InPlaceStill(g, Q.elements, live, pool.live, depth);
      LessOnce(Bag(Q.elements), s);
    }

    /** A new cube that steps into `s`, in hand. */
    method Spawn(ghost g: Circuit, ghost prop: seq<nat>, ghost root: TCube, s: TCube, f: nat, q: seq<LLit>, x: seq<bool>,
                 ghost depth: nat)
      returns (t: TCube)
      requires Valid(g, prop, root, multiset{}, depth) && s in pool.live && s.Chain(g, prop)
      requires LitsOk(g, q) && StepsInto(g, q, x, s.assignment)
      modifies pool, pool.live`refs
      ensures Valid(g, prop, root, multiset{t}, depth) && fresh(t) && pool.live == old(pool.live) + {t}
      ensures t.assignment == q && t.inputs == x && t.parent == s && t.frame == f
    {
      hide Counted, InPlace, AllOnce, Bag, At, HasReset, StepsInto, LitsOk, AllBad;
      ghost var live, owed := pool.live, Bag(Q.elements) + multiset{root};
      assert Bag(Q.elements) + multiset{} + multiset{root} == owed;
      OwedLive(live, owed);
      t := pool.NewCube(f, q, x, s, owed);
      assert owed + multiset{t} == Bag(Q.elements) + multiset{t} + multiset{root};
      InPlaceStill(g, Q.elements, live, pool.live, depth);
      assert t !in owed;
      MoreOnce(Bag(Q.elements), t);
      ChainGrows(g, prop, t);
    }

    /** Puts `s` back where it was, and the cube of a predecessor in front of it. */
    method Precede(ghost g: Circuit, ghost prop: seq<nat>, ghost root: TCube, s: TCube, q: seq<LLit>, x: seq<bool>,
                   ghost depth: nat)
      returns (ghost t: TCube, ghost middle: seq<seq<TCube>>)
      requires Valid(g, prop, root, multiset{s}, depth) && 0 < s.frame <= depth
      requires LitsOk(g, q) && StepsInto(g, q, x, s.assignment) && (s.frame == 1 ==> HasReset(g, q))
      modifies Q, Q.Q, pool, pool.live
      ensures Valid(g, prop, root, multiset{}, depth) && fresh(pool.live - old(pool.live))
      ensures t.assignment == q && t.inputs == x && t.parent == s
      ensures Enqueued(old(Q.elements), middle, old(s.frame), s) && Enqueued(middle, Q.elements, old(s.frame) - 1, t)
    {
      hide Counted, InPlace, AllOnce, AllChains, Bag, At, HasReset, StepsInto, LitsOk, AllBad, Enqueued;
      InHand(g, prop, root, s, depth);
      var f := s.frame;
      Requeue(g, prop, root, s, f, depth);
      middle := Q.elements;
      var u := Spawn(g, prop, root, s, f - 1, q, x, depth);
      Requeue(g, prop, root, u, f - 1, depth);
      t := u;
    }
  }

  lemma ChainGrows(g: Circuit, prop: seq<nat>, t: TCube)
    requires t.parent != null && t.rank == t.parent.rank + 1 && t.parent.Chain(g, prop)
    requires LitsOk(g, t.assignment) && StepsInto(g, t.assignment, t.inputs, t.parent.assignment)
    ensures t.Chain(g, prop)
  {
  }

  lemma ChainOf(g: Circuit, prop: seq<nat>, live: set<TCube>, c: TCube)
    requires AllChains(g, prop, live) && c in live
    ensures c.Chain(g, prop)
  {
  }

  lemma LessOnce(bag: multiset<TCube>, s: TCube)
    requires AllOnce(bag + multiset{s})
    ensures AllOnce(bag + multiset{})
  {
    forall c | c in bag ensures bag[c] == 1 { assert c in bag + multiset{s}; }
  }

  lemma MoreOnce(bag: multiset<TCube>, s: TCube)
    requires AllOnce(bag + multiset{}) && s !in bag
    ensures AllOnce(bag + multiset{s})
  {
    forall c | c in bag + multiset{s} ensures (bag + multiset{s})[c] == 1 { assert c in bag ==> c in bag + multiset{}; }
  }
}
