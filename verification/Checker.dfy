/** The IC3 engine: the queue of proof obligations and the main loop. */
module Checker {
  import opened Aigs
  import opened Frames
  import opened Growth
  import opened Queries
  import opened Compaction
  import opened Engine
  import opened VHeaps
  import opened Queueing
  import opened TernarySimulation
  import opened Cones
  import opened Obligations
  import opened Cubes

  lemma NextLitsOk(g: Circuit, p: seq<LLit>)
    requires LitsOk(g, p)
    ensures TargetsOk(g, NextLits(g, p))
  {
  }

  lemma BlockedLarger(st: Store, f: int, h: int, p: set<LLit>, q: set<LLit>)
    requires Blocked(st, h, p) && f <= h && p <= q
    ensures Blocked(st, f, q)
  {
    var b :| st.Live(b) && b < |st.subsumed| && !st.subsumed[b] && st.at[b] >= h && Blocks(st.clauses[b], p);
    assert Blocks(st.clauses[b], q);
  }

  lemma LitsInRange(g: Circuit, q: seq<LLit>)
    requires LitsOk(g, q)
    ensures Lits(q) <= AllLits(|g.latches|)
  {
    forall l | l in Lits(q) ensures l in AllLits(|g.latches|) {
      assert l == LLit(l.latch, l.neg);
    }
  }

  /** A blocking clause computed from a core is implied by the frame of its earliest clause. */
  lemma BlockImplied(g: Circuit, st: Store, f: nat, acts: set<int>, core: set<LLit>, block: Clause)
    requires forall a :: a in acts ==> st.Live(a) && st.at[a] >= f
    requires Refutes(g, st.clauses, acts, [], [], core)
    requires forall l :: l in core ==> Not(l) in block && l.latch < |g.latches|
    ensures Implies(g, st, f, block)
  {
    forall s, x | IsState(g, s) && IsInput(g, x) && FrameHolds(st, f, s) ensures SatClause(block, Next(g, s, x)) {
      assert ActsHold(st.clauses, acts, s);
      assert PropHolds(g, [], s, x);
      var l :| l in core && !Holds(l, Next(g, s, x));
      assert Holds(Not(l), Next(g, s, x));
    }
  }

  /** `m` is the first frame after all clauses of a core, at most the last one. */
  ghost predicate FrameAfter(st: Store, acts: set<int>, m: nat) {
    && m <= st.Depth() && (forall a :: a in acts ==> 0 <= a < |st.at| && st.at[a] >= m - 1)
    && (m == st.Depth() || exists a :: a in acts && st.at[a] == m - 1)
  }

  /** Exactly a generalisation of the clause read off the core has been added, at the frame after its earliest clause. */
  ghost predicate BlockedByAt(g: Circuit, st: Store, st': Store, ps: seq<nat>, ps': seq<nat>, q: seq<LLit>, acts: set<int>,
                              core: set<LLit>, m: nat, c: Clause)
  {
    && FrameAfter(st, acts, m) && ReadOff(g, q, core, c) && Adds(g, st, st', m, Priorities(ps, c), c)
    && Raised(ps, ps', st'.clauses[|st.clauses|])
  }

  ghost predicate BlocksBy(g: Circuit, st: Store, st': Store, ps: seq<nat>, ps': seq<nat>, q: seq<LLit>, acts: set<int>,
                           core: set<LLit>)
  {
    exists m, c :: BlockedByAt(g, st, st', ps, ps', q, acts, core, m, c)
  }

  lemma BlockedBy(g: Circuit, st: Store, st': Store, ps: seq<nat>, ps': seq<nat>, q: seq<LLit>, acts: set<int>,
                  core: set<LLit>, m: nat, c: Clause)
    requires FrameAfter(st, acts, m) && ReadOff(g, q, core, c) && Adds(g, st, st', m, Priorities(ps, c), c)
    requires Raised(ps, ps', st'.clauses[|st.clauses|])
    ensures BlocksBy(g, st, st', ps, ps', q, acts, core)
  {
    hide FrameAfter, ReadOff, Adds, Raised;
    assert BlockedByAt(g, st, st', ps, ps', q, acts, core, m, c);
  }

  /** `q` is what is left of `s` for the next-state functions of the latches in `p`, in their cones and without a literal
      to spare. */
  ghost predicate ShrunkTo(g: Circuit, s: State, x: seq<bool>, p: seq<LLit>, priority: seq<nat>, q: seq<LLit>) {
    LitsOk(g, p) && exists cone :: UnionOfCones(g, cone, NextLits(g, p)) && Shrunk(g, cone, s, x, NextLits(g, p), priority, q)
  }

  /** A state of the frame in which the property literals hold under the input. */
  ghost predicate BadState(g: Circuit, prop: seq<nat>, st: Store, f: int, s: State, x: seq<bool>) {
    IsState(g, s) && IsInput(g, x) && FrameHolds(st, f, s) && TargetsOk(g, prop) && PropHolds(g, prop, s, x)
  }

  /** `cone` is exactly the cone of influence of literal `l`. */
  ghost predicate CoiOf(g: Circuit, cone: seq<bool>, l: nat)
    requires Var(l) < |g.nodes|
  {
    |cone| == |g.latches| && forall k :: 0 <= k < |cone| ==> (cone[k] <==> InCone(g, l, k))
  }

  function Union(a: seq<bool>, b: seq<bool>): seq<bool>
    requires |a| == |b|
  {
    seq(|a|, k requires 0 <= k < |a| => a[k] || b[k])
  }

  /** `cone` is exactly the union of the cones of influence of the targets. */
  ghost predicate UnionOfCones(g: Circuit, cone: seq<bool>, targets: seq<nat>) {
    && |cone| == |g.latches|
    && forall i :: 0 <= i < |cone| ==> (cone[i] <==> exists l :: l in targets && Var(l) < |g.nodes| && InCone(g, l, i))
  }

  lemma UnionCovers(g: Circuit, cone: seq<bool>, targets: seq<nat>)
    requires UnionOfCones(g, cone, targets)
    ensures CoversCones(g, cone, targets)
  {
  }

  lemma OneMoreCone(g: Circuit, cone: seq<bool>, more: seq<bool>, targets: seq<nat>, i: nat)
    requires i < |targets| && UnionOfCones(g, cone, targets[..i]) && Var(targets[i]) < |g.nodes| && CoiOf(g, more, targets[i])
    ensures UnionOfCones(g, Union(cone, more), targets[..i + 1])
  {
    assert targets[..i + 1] == targets[..i] + [targets[i]];
  }

  /** The clauses, the priorities and the queue at some time. */
  datatype Snapshot = Snapshot(st: Store, priority: seq<nat>, pending: seq<seq<TCube>>)

  /** The obligation is queued behind frame `k`, or gone if that is the last one. */
  ghost predicate MovedOn(rest: seq<seq<TCube>>, after: seq<seq<TCube>>, s: TCube, k: nat, depth: int) {
    if k < depth then Enqueued(rest, after, k + 1, s) else after == rest
  }

  /** `s` has been queued in frame `f` and `t` in the frame before. */
  ghost predicate BothQueued(es: seq<seq<TCube>>, fs: seq<seq<TCube>>, s: TCube, t: TCube, f: nat) {
    && f > 0 && Bag(fs) == Bag(es) + multiset{s} + multiset{t}
    && forall k: nat :: At(fs, k) == if k == f then At(es, k) + [s] else if k == f - 1 then At(es, k) + [t] else At(es, k)
  }

  /** The obligation is back in its place, and the reduced cube of a predecessor state is the last one in the frame before. */
  ghost predicate PrecededBy(g: Circuit, a: Snapshot, b: Snapshot, s: TCube, f: nat, state: State, x: seq<bool>) {
    && f > 0 && b.st == a.st && b.priority == a.priority
    && IsState(g, state) && IsInput(g, x) && FrameHolds(a.st, f - 1, state)
    && At(b.pending, f - 1) != []
    && PredecessorLast(g, a, b, s, f, state, x, At(b.pending, f - 1)[|At(b.pending, f - 1)| - 1])
  }

  ghost predicate PredecessorLast(g: Circuit, a: Snapshot, b: Snapshot, s: TCube, f: nat, state: State, x: seq<bool>, t: TCube) {
    && ShrunkTo(g, state, x, s.assignment, a.priority, t.assignment) && t.inputs == x && t.parent == s
    && BothQueued(a.pending, b.pending, s, t, f)
  }

  ghost predicate Preceded(g: Circuit, a: Snapshot, b: Snapshot, s: TCube, f: nat) {
    exists state, x :: PrecededBy(g, a, b, s, f, state, x)
  }

  lemma QueuedBoth(es: seq<seq<TCube>>, middle: seq<seq<TCube>>, fs: seq<seq<TCube>>, s: TCube, t: TCube, f: nat)
    requires f > 0 && Enqueued(es, middle, f, s) && Enqueued(middle, fs, f - 1, t)
    ensures BothQueued(es, fs, s, t, f) && At(fs, f - 1) == At(es, f - 1) + [t]
  {
    hide Bag, At;
    forall k: nat
      ensures At(fs, k) == if k == f then At(es, k) + [s] else if k == f - 1 then At(es, k) + [t] else At(es, k)
    {
      assert At(middle, k) == if k == f then At(es, k) + [s] else At(es, k);
    }
  }

  ghost predicate CoreFound(g: Circuit, st: Store, f: nat, q: seq<LLit>, acts: set<int>, core: set<LLit>) {
    && (forall a :: a in acts ==> st.Live(a) && st.at[a] >= f - 1)
    && (forall l :: l in core ==> l in q) && Refutes(g, st.clauses, acts, [], [], core)
  }

  /** There is no predecessor: a clause read off a core has been added, and the obligation moves on. */
  ghost predicate BlockedOff(g: Circuit, a: Snapshot, b: Snapshot, s: TCube, f: nat, depth: int) {
    && MovedOn(a.pending, b.pending, s, f, depth)
    && exists acts, core :: CoreFound(g, a.st, f, s.assignment, acts, core) &&
         BlocksBy(g, a.st, b.st, a.priority, b.priority, s.assignment, acts, core)
  }

  /** An obligation that is blocked moves behind the last frame that blocks it. */
  ghost predicate PassedOn(a: Snapshot, b: Snapshot, s: TCube, f: nat, k: nat, depth: int) {
    && b.st == a.st && b.priority == a.priority && f <= k <= depth && MovedOn(a.pending, b.pending, s, k, depth)
    && Blocked(a.st, k, Lits(s.assignment)) && !Blocked(a.st, k + 1, Lits(s.assignment))
  }

  /** What becomes of the obligation `s`, which has been taken from frame `f`. */
  ghost predicate Handled(g: Circuit, a: Snapshot, b: Snapshot, s: TCube, f: nat, depth: int) {
    if Blocked(a.st, f, Lits(s.assignment)) then exists k :: PassedOn(a, b, s, f, k, depth)
    else Preceded(g, a, b, s, f) || BlockedOff(g, a, b, s, f, depth)
  }

  /** An obligation of the least frame has been taken from the queue and dealt with. */
  ghost predicate Handles(g: Circuit, a: Snapshot, b: Snapshot, s: TCube, f: nat, rest: seq<seq<TCube>>, depth: int) {
    && Enqueued(rest, a.pending, f, s) && (forall k: nat :: k < f ==> At(rest, k) == [])
    && Handled(g, a.(pending := rest), b, s, f, depth)
  }

  lemma TakenAndHandled(g: Circuit, a: Snapshot, b: Snapshot, s: TCube, f: nat, rest: seq<seq<TCube>>, depth: int)
    requires Enqueued(rest, a.pending, f, s) && (forall k: nat :: k < f ==> At(rest, k) == [])
    requires Handled(g, a.(pending := rest), b, s, f, depth)
    ensures Handles(g, a, b, s, f, rest, depth)
  {
  }

  lemma HandledByPredecessor(g: Circuit, a: Snapshot, b: Snapshot, s: TCube, f: nat, depth: int, t: TCube,
                             middle: seq<seq<TCube>>, state: State, x: seq<bool>)
    requires f > 0 && b.st == a.st && b.priority == a.priority && !Blocked(a.st, f, Lits(s.assignment))
    requires IsState(g, state) && IsInput(g, x) && FrameHolds(a.st, f - 1, state)
    requires ShrunkTo(g, state, x, s.assignment, a.priority, t.assignment) && t.inputs == x && t.parent == s
    requires Enqueued(a.pending, middle, f, s) && Enqueued(middle, b.pending, f - 1, t)
    ensures Handled(g, a, b, s, f, depth)
  {
    hide Enqueued, BothQueued, At, Blocked, ShrunkTo, FrameHolds;
    QueuedBoth(a.pending, middle, b.pending, s, t, f);
    assert PrecededBy(g, a, b, s, f, state, x);
    assert Preceded(g, a, b, s, f);
  }

  lemma HandledByClause(g: Circuit, a: Snapshot, b: Snapshot, s: TCube, f: nat, depth: int, acts: set<int>, core: set<LLit>)
    requires MovedOn(a.pending, b.pending, s, f, depth) && !Blocked(a.st, f, Lits(s.assignment))
    requires CoreFound(g, a.st, f, s.assignment, acts, core)
    requires BlocksBy(g, a.st, b.st, a.priority, b.priority, s.assignment, acts, core)
    ensures Handled(g, a, b, s, f, depth)
  {
    hide MovedOn, Blocked, CoreFound, BlocksBy;
    assert BlockedOff(g, a, b, s, f, depth);
  }

  lemma HandledByPassing(g: Circuit, a: Snapshot, b: Snapshot, s: TCube, f: nat, k: nat, depth: int)
    requires PassedOn(a, b, s, f, k, depth) && Blocked(a.st, f, Lits(s.assignment))
    ensures Handled(g, a, b, s, f, depth)
  {
    hide PassedOn, Blocked;
  }

  class IC3 {
    const g: Circuit
    const db: ClauseDB
    const ternary: Ternary
    const coi: ConeOfInfluence
    const queue: ObligationQueue
    var latchCoi: seq<seq<bool>>
    var propertyCoi: seq<bool>

    ghost predicate Parts()
      reads this, db, db.solver, db.solver.k, ternary, coi
    {
      && db.g == g && ternary.aig == g && coi.mgr == g
      && db.Synced() && db.Ready() && StartsAtReset(g, db.St()) && db.Depth() >= 1
      && ternary.Valid()
    }

    ghost predicate ConesOk()
      reads this
    {
      && |latchCoi| == |g.latches|
      && forall i :: 0 <= i < |latchCoi| ==> CoiOf(g, latchCoi[i], g.latches[i].next)
    }

    constructor (circuit: Circuit)
      ensures g == circuit && Parts() && db.Depth() == 1
      ensures queue.Empty()
      ensures fresh(db) && fresh(db.solver) && fresh(db.solver.k) && fresh(ternary) && fresh(coi) && fresh(queue) && fresh(queue.Parts())
    {
      hide ClauseDB.Synced, Core, Exact, Listed, StartsAtReset, SignaturesOk, Counted, AreFanouts, Heaps.Heap.Valid, VHeaps.VHeap.Valid;
      g := circuit;
      db := new ClauseDB(circuit);
      ternary := new Ternary(circuit);
      coi := new ConeOfInfluence(circuit);
      queue := new ObligationQueue();
      latchCoi, propertyCoi := [], [];
    }

    ghost function Progress(): Measure
      requires db.Depth() >= 0
      reads this, db, queue, queue.Q
    {
      MeasureOf(|g.latches|, queue.Q.elements, db.St(), db.Depth())
    }

    ghost function Now(): Snapshot
      reads db, queue, queue.Q
    {
      Snapshot(db.St(), db.priority, queue.Q.elements)
    }

    /** The root is still to be blocked, or blocked at the last frame. */
    ghost predicate RootPending(root: TCube, hand: multiset<TCube>)
      reads this, db, queue, queue.Q
    {
      root in Bag(queue.Q.elements) || root in hand || Blocked(db.St(), db.Depth(), Lits(root.assignment))
    }

    ghost predicate Inv(prop: seq<nat>, root: TCube, hand: multiset<TCube>)
      reads this, db, db.solver, db.solver.k, ternary, coi, queue, queue.Q, queue.Q.Q, queue.pool, queue.pool.live
    {
      Parts() && ConesOk() && queue.Valid(g, prop, root, hand, db.Depth()) && RootPending(root, hand)
    }

    // ---------- cones ----------

    /** The cones of influence of all next-state functions, and the union of the cones of the property literals. */
    method BuildCOI(prop: seq<nat>)
      requires Parts() && TargetsOk(g, prop)
      modifies this`latchCoi, this`propertyCoi, coi
      ensures Parts() && ConesOk() && UnionOfCones(g, propertyCoi, prop)
    {
      hide ClauseDB.Synced, Core, Exact, Listed, StartsAtReset, SignaturesOk;
      latchCoi := [];
      for i := 0 to |g.latches|
        invariant Parts() && |latchCoi| == i
        invariant forall k :: 0 <= k < i ==> CoiOf(g, latchCoi[k], g.latches[k].next)
      {
        var cone := coi.CollectCOI(g.latches[i].next);
        latchCoi := latchCoi + [cone];
      }
      propertyCoi := seq(|g.latches|, _ => false);
      for i := 0 to |prop|
        invariant Parts() && ConesOk() && UnionOfCones(g, propertyCoi, prop[..i])
      {
        assert prop[i] in prop;
        var tmp := coi.CollectCOI(prop[i]);
        OneMoreCone(g, propertyCoi, tmp, prop, i);
        propertyCoi := Union(propertyCoi, tmp);
      }
      assert prop[..|prop|] == prop;
    }

    /** The union of the next-state cones of the latches of a cube. */
    method CurrentCOI(p: seq<LLit>) returns (cone: seq<bool>)
      requires ConesOk() && LitsOk(g, p)
      ensures UnionOfCones(g, cone, NextLits(g, p))
    {
      cone := seq(|g.latches|, _ => false);
      for i := 0 to |p|
        invariant |cone| == |g.latches| && UnionOfCones(g, cone, NextLits(g, p)[..i])
      {
        assert p[i] in p;
        var c := latchCoi[p[i].latch];
        OneMoreCone(g, cone, c, NextLits(g, p), i);
        cone := Union(cone, c);
      }
      assert NextLits(g, p)[..|p|] == NextLits(g, p);
    }

    // ---------- one obligation ----------

    /** A blocked obligation is dropped, or queued after the last frame that blocks it. */
    method Forward(ghost prop: seq<nat>, ghost root: TCube, s: TCube, blockedAt: nat)
      requires Inv(prop, root, multiset{s}) && s.frame <= blockedAt <= db.Depth()
      requires Blocked(db.St(), blockedAt, Lits(s.assignment))
      modifies queue.Q, queue.Q.Q, queue.pool, queue.pool.live
      ensures Inv(prop, root, multiset{}) && queue.pool.live <= old(queue.pool.live)
      ensures blockedAt < db.Depth() ==> Enqueued(old(queue.Q.elements), queue.Q.elements, blockedAt + 1, s)
      ensures blockedAt < db.Depth() ==> queue.pool.live == old(queue.pool.live)
      ensures blockedAt == db.Depth() ==> queue.Q.elements == old(queue.Q.elements)
    {
      hide Bag, At, Blocked, Counted, InPlace, AllOnce, AllChains, FrameHolds, ClauseDB.Synced, Core, Exact, Listed,
           StartsAtReset, ConesOk, SignaturesOk;
      queue.InHand(g, prop, root, s, db.Depth());
      if blockedAt < db.Depth() {
        queue.Requeue(g, prop, root, s, blockedAt + 1, db.Depth());
      } else {
        queue.Discard(g, prop, root, s, db.Depth());
      }
    }

    /** The cube of a predecessor state: it steps into `p` as a whole, and is not blocked at the frame before. */
    method PredecessorCube(p: seq<LLit>, frame: nat, state: State, x: seq<bool>) returns (q: seq<LLit>)
      requires Parts() && ConesOk() && LitsOk(g, p) && frame > 0
      requires IsState(g, state) && IsInput(g, x) && InCube(p, Next(g, state, x)) && FrameHolds(db.St(), frame - 1, state)
      modifies ternary
      ensures Parts() && LitsOk(g, q) && StepsInto(g, q, x, p) && !Blocked(db.St(), frame - 1, Lits(q))
      ensures frame == 1 ==> HasReset(g, q)
      ensures ShrunkTo(g, state, x, p, db.priority, q)
    {
      hide Shrunk, UnionOfCones, Blocked, FrameHolds, ClauseDB.Synced, Core, Exact, Listed, ConesOk, SignaturesOk, StepsInto, CoversCones;
      var cone := CurrentCOI(p);
      UnionCovers(g, cone, NextLits(g, p));
      NextLitsOk(g, p);
      q := Reduce(ternary, cone, state, x, NextLits(g, p), db.priority);
      PredecessorSteps(g, q, state, x, p);
      CoreIsSized(g, db.St());
      ModelNotBlocked(g, db.St(), frame - 1, q, state);
      if frame == 1 { assert FrameHolds(db.St(), 0, state); }
    }

    /** An obligation with a predecessor stays queued, behind the cube of the predecessor. */
    method Predecessor(ghost prop: seq<nat>, ghost root: TCube, s: TCube, state: State, x: seq<bool>)
      returns (ghost t: TCube, ghost middle: seq<seq<TCube>>)
      requires Inv(prop, root, multiset{s}) && LitsOk(g, s.assignment) && 0 < s.frame <= db.Depth()
      requires IsState(g, state) && IsInput(g, x) && InCube(s.assignment, Next(g, state, x))
      requires FrameHolds(db.St(), s.frame - 1, state)
      modifies ternary, queue.Q, queue.Q.Q, queue.pool, queue.pool.live
      ensures Inv(prop, root, multiset{}) && fresh(queue.pool.live - old(queue.pool.live))
      ensures !Blocked(db.St(), old(s.frame) - 1, Lits(t.assignment))
      ensures Enqueued(old(queue.Q.elements), middle, old(s.frame), s)
      ensures Enqueued(middle, queue.Q.elements, old(s.frame) - 1, t)
      ensures ShrunkTo(g, state, x, s.assignment, db.priority, t.assignment) && t.inputs == x && t.parent == s
    {
      hide ShrunkTo, Bag, At, Blocked, Counted, InPlace, AllOnce, AllChains, FrameHolds, ClauseDB.Synced, Core, Exact, Listed,
           StartsAtReset, ConesOk, SignaturesOk;
      hide Stands, StepsInto, HasReset, LitsOk, CoversCones, Enqueued;
      ghost var es := queue.Q.elements;
      var q := PredecessorCube(s.assignment, s.frame, state, x);
      t, middle := queue.Precede(g, prop, root, s, q, x, db.Depth());
      RootQueued(es, middle, queue.Q.elements, s, t, root);
    }

    /** The first frame after all clauses of a core, at most the last one. */
    method MinFrame(acts: set<int>, f: nat) returns (m: nat)
      requires Parts() && f <= db.Depth() && f > 0
      requires forall a :: a in acts ==> db.St().Live(a) && db.clauseFrame[a] >= f - 1
      ensures f <= m && FrameAfter(db.St(), acts, m)
    {
      hide ClauseDB.Synced, Core, Exact, Listed, SignaturesOk;
      m := |db.frames| - 1;
      var todo := acts;
      while todo != {}
        invariant todo <= acts && f <= m <= db.Depth()
        invariant m == db.Depth() || exists a :: a in acts && db.clauseFrame[a] == m - 1
        invariant forall a :: a in acts && a !in todo ==> db.clauseFrame[a] >= m - 1
      {
        var a := OneOf(todo);
        var next := db.clauseFrame[a] + 1;
        if next < m {
          m := next;
        }
        todo := todo - {a};
      }
    }

    /** Blocks an obligation without predecessors by a clause read off the unsatisfiable core, at the frame after the
        earliest clause of the core. */
    method Block(p: seq<LLit>, f: nat, acts: set<int>, core: set<LLit>)
      requires Parts() && ConesOk() && LitsOk(g, p) && 0 < f <= db.Depth()
      requires forall a :: a in acts ==> db.St().Live(a) && db.clauseFrame[a] >= f - 1
      requires (forall l :: l in core ==> l in p) && Refutes(g, db.clauses, acts, [], [], core)
      requires exists l :: l in p && SatisfiesReset(g, Not(l))
      modifies db, db.solver, db.solver.k
      ensures Parts() && ConesOk() && |db.frames| == |old(db.frames)|
      ensures KeepsBlocked(old(db.St()), db.St()) && Blocked(db.St(), f, Lits(p))
      ensures BlocksBy(g, old(db.St()), db.St(), old(db.priority), db.priority, p, acts, core)
    {
      hide ClauseDB.Synced, Core, Exact, Listed, SignaturesOk, StartsAtReset, ConesOk, KeepsBlocked, Blocked, FrameHolds, Refutes, Implies;
      hide Adds, Raised, Repairs;
      var m := MinFrame(acts, f);
      var block := BlockingClause(g, p, core);
      CoreLatches(g, p, core);
      BlockImplied(g, db.St(), m - 1, acts, core, block);
      ghost var st, ps := db.St(), db.priority;
      db.AddNewClause(m, block);
      BlockedBy(g, st, db.St(), ps, db.priority, p, acts, core, m, block);
      StaysAtReset(g, st, db.St());
      NotAllSubset(block, p);
      BlockedLarger(db.St(), f, m, Lits(NotAll(block)), Lits(p));
    }

    /** Passes on an obligation that is blocked. */
    method StepBlocked(ghost prop: seq<nat>, ghost root: TCube, s: TCube, blockedAt: nat, ghost before: seq<seq<TCube>>)
      requires Inv(prop, root, multiset{s}) && s.frame <= blockedAt <= db.Depth()
      requires Blocked(db.St(), s.frame, Lits(s.assignment))
      requires Blocked(db.St(), blockedAt, Lits(s.assignment)) && !Blocked(db.St(), blockedAt + 1, Lits(s.assignment))
      requires Enqueued(queue.Q.elements, before, s.frame, s)
      requires forall k: nat :: k < s.frame ==> At(queue.Q.elements, k) == []
      modifies queue.Q, queue.Q.Q, queue.pool, queue.pool.live
      ensures Inv(prop, root, multiset{}) && queue.pool.live <= old(queue.pool.live)
      ensures Smaller(Progress(), MeasureOf(|g.latches|, before, old(db.St()), old(db.Depth())))
      ensures Handled(g, old(Now()), Now(), s, old(s.frame), old(db.Depth()))
    {
      hide AreFanouts, Heaps.Heap.Valid, VHeaps.VHeap.Valid, Handled, Lits, KeepsBlocked, ClauseDB.Ready, Ternary.Valid, ClauseDB.Synced;
      hide Bag, At, Blocked, Counted, InPlace, AllOnce, AllChains, FrameHolds, Core, Exact, Listed, StartsAtReset, ConesOk;
      hide SignaturesOk, Enqueued, MeasureOf, Smaller, HasReset, LitsOk, InCube, Refutes, SatisfiesReset;
      ghost var rest, f := queue.Q.elements, s.frame;
      Forward(prop, root, s, blockedAt);
      HandledByPassing(g, old(Now()), Now(), s, f, blockedAt, db.Depth());
      MeasureBlocked(|g.latches|, db.St(), db.Depth(), before, rest, queue.Q.elements, f, blockedAt + 1, s);
    }

    /** Queries an obligation that is not blocked: blocks it, or puts a predecessor in front of it. */
    method StepOpen(ghost prop: seq<nat>, ghost root: TCube, s: TCube, ghost before: seq<seq<TCube>>)
      requires Inv(prop, root, multiset{s}) && LitsOk(g, s.assignment) && 0 < s.frame <= db.Depth()
      requires !Blocked(db.St(), s.frame, Lits(s.assignment))
      requires exists l :: l in s.assignment && SatisfiesReset(g, Not(l))
      requires Enqueued(queue.Q.elements, before, s.frame, s)
      requires forall k: nat :: k < s.frame ==> At(queue.Q.elements, k) == []
      modifies db, db.solver, db.solver.k, ternary, queue.Q, queue.Q.Q, queue.pool, queue.pool.live
      ensures Inv(prop, root, multiset{}) && |db.frames| == |old(db.frames)|
      ensures KeepsBlocked(old(db.St()), db.St())
      ensures Smaller(Progress(), MeasureOf(|g.latches|, before, old(db.St()), old(db.Depth())))
      ensures fresh(queue.pool.live - old(queue.pool.live))
      ensures Handled(g, old(Now()), Now(), s, old(s.frame), old(db.Depth()))
    {
      hide AreFanouts, Heaps.Heap.Valid, VHeaps.VHeap.Valid, Handled, ShrunkTo, BlocksBy, Lits;
      hide ObligationQueue.Valid, TCube.Chain, Open, Adds, Raised;
      hide Bag, At, Blocked, Counted, InPlace, AllOnce, AllChains, FrameHolds, ClauseDB.Synced, Core, Exact, Listed, StartsAtReset, ConesOk;
      hide SignaturesOk, Enqueued, MeasureOf, Smaller, KeepsBlocked, HasReset, LitsOk, InCube, Refutes, SatisfiesReset;
      ghost var rest, st, f := queue.Q.elements, db.St(), s.frame;
      ReadyForQuery(g, db.St());
      var r := db.SolveAtFrame([], s.assignment, [], s.frame - 1);
      if r.Sat? {
        ghost var t, middle := Predecessor(prop, root, s, r.s, r.x);
        HandledByPredecessor(g, old(Now()), Now(), s, f, old(db.Depth()), t, middle, r.s, r.x);
        MeasurePredecessor(|g.latches|, st, db.Depth(), before, rest, middle, queue.Q.elements, f, s, t);
        KeepsRefl(st);
      } else {
        Block(s.assignment, s.frame, r.acts, r.core);
        LitsInRange(g, s.assignment);
        RootStaysPending(root, s, st, db.St(), db.Depth());
        var at := s.frame;
        Forward(prop, root, s, at);
        HandledByClause(g, old(Now()), Now(), s, f, old(db.Depth()), r.acts, r.core);
        MeasureClause(|g.latches|, st, db.St(), db.Depth(), before, queue.Q.elements, f, Lits(s.assignment));
      }
    }

    /** Works off the next obligation: reports a counter-example, or makes the measure smaller. */
    method Step(ghost prop: seq<nat>, ghost root: TCube) returns (cex: TCube?)
      requires Inv(prop, root, multiset{}) && queue.Q.sz > 0
      modifies db, db.solver, db.solver.k, ternary, queue.Q, queue.Q.Q, queue.pool, queue.pool.live
      ensures cex != null ==> cex.Chain(g, prop) && HasReset(g, cex.assignment)
      ensures cex == null ==> Inv(prop, root, multiset{}) && |db.frames| == |old(db.frames)|
      ensures cex == null ==> KeepsBlocked(old(db.St()), db.St()) && Smaller(Progress(), old(Progress()))
      ensures fresh(queue.pool.live - old(queue.pool.live))
      ensures cex == null ==> exists s, f, rest :: Handles(g, old(Now()), Now(), s, f, rest, old(db.Depth()))
    {
      hide AreFanouts, Heaps.Heap.Valid, VHeaps.VHeap.Valid, Handled, Handles, Lits, IsState, KeepsBlocked;
      hide ObligationQueue.Valid, TCube.Chain, Open, Adds, Raised;
      hide ClauseDB.Ready, Ternary.Valid, Bag, At, Blocked, Counted, InPlace, AllOnce, AllChains, FrameHolds,
           ClauseDB.Synced, Core, Exact, Listed, StartsAtReset, ConesOk;
      hide SignaturesOk, Enqueued, MeasureOf, Smaller, KeepsBlocked, HasReset, LitsOk, InCube, Refutes, SatisfiesReset;
      ghost var before, st := queue.Q.elements, db.St();
      var s := queue.Take(g, prop, root, db.Depth());
      RootTaken(queue.Q.elements, before, s.frame, s, root);
      ChainLits(g, prop, s);
      if s.frame == 0 {
        return s;
      }
      var reset := IsResetCube(g, s.assignment);
      if reset {
        return s;
      }
      ghost var rest, f := queue.Q.elements, s.frame;
      var blocked, blockedAt := db.IsBlocked(s.frame, s.assignment);
      if blocked {
        StepBlocked(prop, root, s, blockedAt, before);
        KeepsRefl(st);
      } else {
        StepOpen(prop, root, s, before);
      }
      TakenAndHandled(g, old(Now()), Now(), s, f, rest, old(db.Depth()));
      return null;
    }

    // ---------- the main loop ----------

    /** Blocks every state of the root at the last frame, or finds a chain from a reset state to the root. */
    method BlockCube(ghost prop: seq<nat>, root: TCube) returns (cex: TCube?)
      requires Parts() && ConesOk() && queue.Q.Valid() && queue.Q.sz == 0
      requires queue.pool.Valid(multiset{root}) && queue.pool.live == {root}
      requires root.parent == null && root.Chain(g, prop) && root.frame == db.Depth()
      modifies db, db.solver, db.solver.k, ternary, queue.Q, queue.Q.Q, queue.pool, root
      ensures cex != null ==> cex.Chain(g, prop) && HasReset(g, cex.assignment)
      ensures cex == null ==> Parts() && ConesOk() && |db.frames| == |old(db.frames)| && queue.Q.Valid() && queue.Q.sz == 0
      ensures cex == null ==> queue.pool.live == {root} && queue.pool.Valid(multiset{root})
      ensures cex == null ==> KeepsBlocked(old(db.St()), db.St()) && Blocked(db.St(), db.Depth(), Lits(root.assignment))
    {
      hide Bag, At, Blocked, Counted, InPlace, AllOnce, AllChains, ClauseDB.Synced, Core, Exact, Listed, StartsAtReset, ConesOk;
      hide SignaturesOk, Enqueued, MeasureOf, KeepsBlocked, HasReset, LitsOk;
      ghost var st := db.St();
      queue.HoldRoot(g, prop, root, db.Depth());
      ghost var es := queue.Q.elements;
      var f := root.frame;
      queue.Requeue(g, prop, root, root, f, db.Depth());
      RootTaken(es, queue.Q.elements, f, root, root);
      KeepsRefl(st);
      while queue.Q.sz > 0
        invariant Inv(prop, root, multiset{}) && |db.frames| == |old(db.frames)|
        invariant KeepsBlocked(st, db.St()) && fresh(queue.pool.live - {root})
        decreases Progress().open, Progress().urgency, Progress().dist
      {
        ghost var now := db.St();
        cex := Step(prop, root);
        if cex != null {
          return cex;
        }
        KeepsTrans(st, now, db.St());
      }
      queue.OnlyRoot(g, prop, root, db.Depth());
      return null;
    }

    /** A cube of bad states inside the last frame, unless the last frame excludes them all. */
    method PreImage(prop: seq<nat>) returns (found: bool, pre: seq<LLit>, inputs: seq<bool>)
      requires Parts() && ConesOk() && TargetsOk(g, prop) && CoversCones(g, propertyCoi, prop)
      modifies db.solver, db.solver.k, ternary
      ensures Parts()
      ensures found ==> LitsOk(g, pre) && IsInput(g, inputs) && AllBad(g, prop, pre, inputs)
      ensures found ==> !Blocked(db.St(), db.Depth(), Lits(pre))
      ensures found ==> exists s :: BadState(g, prop, db.St(), db.Depth(), s, inputs) && Shrunk(g, propertyCoi, s, inputs, prop, db.priority, pre)
      ensures !found ==> Excludes(g, prop, db.St(), db.Depth())
    {
      hide Shrunk, Blocked, FrameHolds, ClauseDB.Synced, Core, Exact, Listed, SignaturesOk, CoversCones, Refutes, Excludes, AllBad;
      ReadyForQuery(g, db.St());
      var r := db.SolveAtFrame([], [], prop, |db.frames| - 1);
      found, pre, inputs := r.Sat?, [], [];
      if r.Sat? {
        inputs := r.x;
        pre := Reduce(ternary, propertyCoi, r.s, r.x, prop, db.priority);
        RootBad(g, pre, r.s, r.x, prop);
        ModelNotBlocked(g, db.St(), db.Depth(), pre, r.s);
        assert BadState(g, prop, db.St(), db.Depth(), r.s, r.x);
      } else {
        assert r.core == {};
        NoneBad(g, prop, db.St(), db.Depth(), r.acts);
      }
    }

    /** Blocks bad cubes until the last frame excludes them all, or one turns out to be reachable. */
    method BlockBad(prop: seq<nat>) returns (cex: TCube?)
      requires Parts() && ConesOk() && TargetsOk(g, prop) && CoversCones(g, propertyCoi, prop) && queue.Empty()
      modifies db, db.solver, db.solver.k, ternary, queue.Q, queue.Q.Q, queue.pool
      ensures cex != null ==> cex.Chain(g, prop) && HasReset(g, cex.assignment)
      ensures cex == null ==> Parts() && ConesOk() && |db.frames| == |old(db.frames)| && queue.Empty()
      ensures cex == null ==> Excludes(g, prop, db.St(), db.Depth())
    {
      hide AreFanouts, Heaps.Heap.Valid, VHeaps.VHeap.Valid;
      hide Bag, Blocked, FrameHolds, Counted, ClauseDB.Synced, Core, Exact, Listed, StartsAtReset, ConesOk, SignaturesOk, CoversCones, KeepsBlocked;
      hide HasReset, AllBad, Excludes, Open;
      var found, pre, inputs := PreImage(prop);
      while found
        invariant Parts() && ConesOk() && |db.frames| == |old(db.frames)| && queue.Empty()
        invariant found ==> LitsOk(g, pre) && IsInput(g, inputs) && AllBad(g, prop, pre, inputs)
        invariant found ==> !Blocked(db.St(), db.Depth(), Lits(pre))
        invariant !found ==> Excludes(g, prop, db.St(), db.Depth())
        decreases Open(|g.latches|, db.St())
      {
        ghost var st := db.St();
        var root := queue.pool.NewCube(|db.frames| - 1, pre, inputs, null, multiset{});
        assert multiset{} + multiset{root} == multiset{root};
        cex := BlockCube(prop, root);
        if cex != null {
          return cex;
        }
        LitsInRange(g, pre);
        OpenShrinks(|g.latches|, st, db.St(), db.Depth(), Lits(pre));
        var alive := queue.pool.Release(root, multiset{root});
        EmptyQueue(queue, root);
        found, pre, inputs := PreImage(prop);
      }
      return null;
    }

    /** Decides whether some run reaches a state and input that satisfy the property literals. */
    method Solve(prop: seq<nat>) returns (reachable: bool)
      requires Parts() && db.Depth() == 1 && queue.Empty() && TargetsOk(g, prop)
      modifies this`latchCoi, this`propertyCoi, coi, db, db.solver, db.solver.k, ternary, queue.Q, queue.Q.Q, queue.pool
      ensures reachable <==> CanReach(g, prop)
      ensures !reachable ==> Proof(g, prop, db.St()) && queue.Empty() && queue.pool.remaining == 0
    {
      hide Bag, Blocked, FrameHolds, Counted, ClauseDB.Synced, Core, Exact, Listed, StartsAtReset, ConesOk, SignaturesOk, CoversCones, KeepsBlocked;
      hide HasReset, LitsOk, AllBad, Excludes, StableUpTo, Grows, CanReach, Proof, IsRun;
      BuildCOI(prop);
      UnionCovers(g, propertyCoi, prop);
      while true
        invariant Parts() && ConesOk() && queue.Empty() && CoversCones(g, propertyCoi, prop)
        invariant db.Depth() <= Pow2(|g.latches|)
        decreases Pow2(|g.latches|) - db.Depth()
      {
        var cex := BlockBad(prop);
        if cex != null {
          ghost var trace, xs := cex.CounterExample(g, prop);
          Reached(g, prop, trace, xs);
          return true;
        }
        ghost var st := db.St();
        db.PushFrame();
        ExcludesSame(g, prop, st, db.St(), st.Depth());
        ghost var pushed := db.St();
        var proved := db.PropagateClauses(prop);
        if proved {
          NeverReached(g, prop, db.St());
          return false;
        }
        StableAtReset(g, pushed, db.St());
        DepthBound(g, db.St());
      }
    }
  }

  lemma EmptyQueue(queue: ObligationQueue, root: TCube)
    requires queue.Q.Valid() && queue.Q.sz == 0 && queue.pool.Valid(multiset{root} - multiset{root})
    requires queue.pool.live <= {root} && root.parent == null
    ensures queue.Empty()
  {
    assert multiset{root} - multiset{root} == multiset{};
    assert Children(queue.pool.live, root) == {};
    assert root !in queue.pool.live;
  }

  lemma StableAtReset(g: Circuit, st: Store, st': Store)
    requires StartsAtReset(g, st) && StableUpTo(st, st', 0)
    ensures StartsAtReset(g, st')
  {
  }

  lemma ExcludesSame(g: Circuit, prop: seq<nat>, st: Store, st': Store, f: int)
    requires Excludes(g, prop, st, f) && SameFrames(st, st')
    ensures Excludes(g, prop, st', f)
  {
  }

  lemma KeepsTrans(st: Store, st': Store, st'': Store)
    requires KeepsBlocked(st, st') && KeepsBlocked(st', st'')
    ensures KeepsBlocked(st, st'')
  {
  }

  lemma NoneBad(g: Circuit, prop: seq<nat>, st: Store, f: nat, acts: set<int>)
    requires forall a :: a in acts ==> st.Live(a) && st.at[a] >= f
    requires Refutes(g, st.clauses, acts, [], prop, {})
    ensures Excludes(g, prop, st, f)
  {
    forall s, x | Bad(g, prop, s, x) ensures !FrameHolds(st, f, s) {
      assert PropHolds(g, prop, s, x);
      assert FrameHolds(st, f, s) ==> ActsHold(st.clauses, acts, s);
    }
  }

  lemma Reached(g: Circuit, prop: seq<nat>, trace: seq<State>, xs: seq<seq<bool>>)
    requires IsRun(g, trace, xs) && Bad(g, prop, trace[|trace| - 1], xs[|xs| - 1])
    ensures CanReach(g, prop)
  {
  }

  lemma NeverReached(g: Circuit, prop: seq<nat>, st: Store)
    requires Proof(g, prop, st)
    ensures !CanReach(g, prop)
  {
    hide Proof, FrameHolds;
    if CanReach(g, prop) {
      var trace, xs :| IsRun(g, trace, xs) && Bad(g, prop, trace[|trace| - 1], xs[|xs| - 1]);
      ProofExcludesRuns(g, prop, st, trace, xs, |trace| - 1);
      assert false;
    }
  }

  lemma RootTaken(rest: seq<seq<TCube>>, before: seq<seq<TCube>>, f: nat, s: TCube, root: TCube)
    requires Enqueued(rest, before, f, s)
    ensures root in Bag(before) <==> root in Bag(rest) || root == s
  {
  }

  lemma RootQueued(es: seq<seq<TCube>>, middle: seq<seq<TCube>>, after: seq<seq<TCube>>, s: TCube, t: TCube, root: TCube)
    requires exists f: nat, h: nat :: Enqueued(es, middle, f, s) && Enqueued(middle, after, h, t)
    ensures root in Bag(es) || root == s ==> root in Bag(after)
  {
  }

  lemma ChainLits(g: Circuit, prop: seq<nat>, s: TCube)
    requires s.Chain(g, prop)
    ensures LitsOk(g, s.assignment)
  {
  }

  lemma KeepsRefl(st: Store)
    ensures KeepsBlocked(st, st)
  {
  }

  lemma ReadyForQuery(g: Circuit, st: Store)
    requires Core(g, st) && Exact(st)
    ensures Safe(st) && Sized(g, st)
  {
  }

  lemma RootStaysPending(root: TCube, s: TCube, st: Store, st': Store, depth: int)
    requires KeepsBlocked(st, st')
    ensures Blocked(st, depth, Lits(root.assignment)) ==> Blocked(st', depth, Lits(root.assignment))
  {
  }

  lemma StaysAtReset(g: Circuit, st: Store, st': Store)
    requires StartsAtReset(g, st) && forall i: int, s :: FrameHolds(st', i, s) ==> FrameHolds(st, i, s)
    ensures StartsAtReset(g, st')
  {
  }

  lemma CoreLatches(g: Circuit, p: seq<LLit>, core: set<LLit>)
    requires LitsOk(g, p) && forall l :: l in core ==> l in p
    ensures forall l :: l in core ==> l.latch < |g.latches|
  {
  }

  lemma NotAllSubset(block: Clause, p: seq<LLit>)
    requires Subset(block, NotAll(p))
    ensures Lits(NotAll(block)) <= Lits(p)
  {
    forall l | l in NotAll(block) ensures l in p {
      NotAllMember(block, l);
      assert Not(l) in NotAll(p);
      NotAllMember(p, Not(l));
      assert Not(Not(l)) == l;
    }
  }
}
