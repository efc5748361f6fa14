/** The clause side of the IC3 engine: frames, subsumption, syntactic blocking, generalisation, propagation. */
module Engine {
  import opened Lbools
  import opened Aigs
  import opened Frames
  import opened Growth
  import opened Queries
  import opened Abstractions
  import opened Generalization
  import opened Ordering
  import opened Compaction
  import opened Sweeps
  import Sessions
  import SatLits = Literals

  // ---------- sets of literals as bit maps ----------

  function Code(l: LLit): nat { l.latch * 2 + if l.neg then 1 else 0 }

  lemma CodeInjective(l: LLit, m: LLit)
    ensures Code(l) == Code(m) ==> l == m
  {
  }

  /** `seen` marks exactly the literals of `c`. */
  ghost predicate SeenIs(g: Circuit, seen: seq<bool>, c: seq<LLit>) {
    && |seen| == 2 * |g.latches|
    && forall l: LLit :: l.latch < |g.latches| ==> (seen[Code(l)] <==> l in c)
  }

  method MarkSeen(g: Circuit, c: seq<LLit>) returns (seen: seq<bool>)
    requires LitsOk(g, c)
    ensures SeenIs(g, seen, c)
  {
    seen := seq(2 * |g.latches|, _ => false);
    for j := 0 to |c|
      invariant SeenIs(g, seen, c[..j])
    {
      ghost var before := seen;
      assert c[j] in c;
      seen := seen[Code(c[j]) := true];
      forall l: LLit | l.latch < |g.latches| ensures seen[Code(l)] <==> l in c[..j + 1] {
        CodeInjective(l, c[j]);
        assert c[..j + 1] == c[..j] + [c[j]];
        assert seen[Code(l)] <==> before[Code(l)] || Code(l) == Code(c[j]);
      }
    }
    assert c[..|c|] == c;
  }

  lemma {:induction false} LitsSize(g: Circuit, c: seq<LLit>)
    requires LitsOk(g, c)
    ensures |Lits(c)| == |c|
  {
    if c != [] {
      var n := |c| - 1;
      LitsSize(g, c[..n]);
      assert c == c[..n] + [c[n]];
      assert Lits(c) == Lits(c[..n]) + {c[n]};
      assert c[n] !in c[..n];
    }
  }

  lemma SubsetSmaller(g: Circuit, c: seq<LLit>, d: seq<LLit>)
    requires LitsOk(g, c) && LitsOk(g, d) && Subset(c, d)
    ensures |c| <= |d|
  {
    LitsSize(g, c);
    LitsSize(g, d);
    SmallerSubset(Lits(c), Lits(d));
  }

  lemma NextLiteral(g: Circuit, c: seq<LLit>, k: nat)
    requires LitsOk(g, c) && k < |c|
    ensures Lits(c[..k + 1]) == Lits(c[..k]) + {c[k]} && c[k] !in Lits(c[..k]) && c[k].latch < |g.latches|
  {
    assert c[..k + 1] == c[..k] + [c[k]];
    assert c[k] in c;
  }

  /** Counting the literals of `c` that are marked decides whether the marked clause `gen` is part of `c`. */
  method IsPartOf(g: Circuit, seen: seq<bool>, gen: seq<LLit>, c: Clause) returns (r: bool)
    requires LitsOk(g, gen) && LitsOk(g, c) && SeenIs(g, seen, gen)
    ensures r <==> Subset(gen, c)
  {
    var count := 0;
    ghost var hits: set<LLit> := {};
    for k := 0 to |c|
      invariant hits == Lits(c[..k]) * Lits(gen) && count == |hits|
    {
      NextLiteral(g, c, k);
      if seen[Code(c[k])] {
        count := count + 1;
        hits := hits + {c[k]};
      }
    }
    assert c[..|c|] == c;
    HitsDecide(g, gen, c);
    return count == |gen|;
  }

  lemma HitsDecide(g: Circuit, gen: seq<LLit>, c: Clause)
    requires LitsOk(g, gen)
    ensures |Lits(c) * Lits(gen)| == |gen| <==> Subset(gen, c)
  {
    var hits := Lits(c) * Lits(gen);
    LitsSize(g, gen);
    PartBySize(hits, Lits(gen));
    if Subset(gen, c) {
      assert hits == Lits(gen);
    }
    if hits == Lits(gen) {
      forall l | l in gen ensures l in c { assert l in Lits(gen); }
    }
  }

  lemma PartBySize(a: set<LLit>, b: set<LLit>)
    requires a <= b
    ensures |a| == |b| <==> a == b
  {
    if a != b { ProperSubset(a, b); }
  }

  lemma NothingMarked(clauses: seq<Clause>, before: seq<bool>, gen: Clause)
    requires |before| == |clauses|
    ensures Marked(clauses, before, before, [], gen)
  {
  }

  lemma OneMarked(clauses: seq<Clause>, before: seq<bool>, after: seq<bool>, es: seq<int>, gen: Clause, n: nat)
    requires n < |clauses| && Marked(clauses, before, after, es, gen)
    ensures |after| == |clauses|
    ensures if |gen| < |clauses[n]| && Subset(gen, clauses[n]) then Marked(clauses, before, after[n := true], es + [n], gen)
            else Marked(clauses, before, after, es + [n], gen)
    ensures after[n] ==> Marked(clauses, before, after, es + [n], gen)
  {
    assert forall a :: a in es + [n] <==> a in es || a == n;
    if after[n] && |gen| < |clauses[n]| && Subset(gen, clauses[n]) { assert after[n := true] == after; }
  }

  /** Every live clause has its signature beside it. */
  ghost predicate SignaturesOk(clauses: seq<Clause>, at: seq<int>, abstractions: seq<bv32>) {
    && |abstractions| == |clauses|
    && forall a :: 0 <= a < |clauses| && a < |at| && at[a] >= 0 ==> abstractions[a] == Signature(clauses[a])
  }

  /** The first frame from `f` on relative to which the clause is not inductive, or the last but one. */
  ghost predicate Furthest(g: Circuit, st: Store, c: Clause, f: nat, max: nat) {
    && f <= max && (max == f || max <= st.Depth() - 1)
    && (forall k :: f <= k < max ==> RelativelyInductive(g, st, k, c))
    && (max < st.Depth() - 1 ==> !RelativelyInductive(g, st, max, c))
  }

  /** `c` is what generalisation may make of a clause that the frame before `f` implies. */
  ghost predicate Generalized(g: Circuit, st: Store, f: nat, p: seq<nat>, c0: Clause, c: Clause) {
    && Subset(c, c0) && (|c0| == 1 ==> c == c0)
    && (|c0| > 1 ==> Minimal(g, st, f - 1, c) && TriedInOrder(g, st, f - 1, p, c0, c))
  }

  /** Exactly one clause has been added: a generalisation of `c0`, as far forward as it could be pushed, with its super-clauses
      in that frame marked. */
  ghost predicate Adds(g: Circuit, st: Store, st': Store, f: nat, p: seq<nat>, c0: Clause) {
    var n := |st.clauses|;
    && |st'.clauses| == n + 1 == |st'.at| && |st.subsumed| == n
    && var c, max := st'.clauses[n], st'.at[n];
       && 0 <= max < |st.frames| && Generalized(g, st, f, p, c0, c) && Furthest(g, st, c, f, max)
       && st'.clauses == st.clauses + [c] && st'.at == st.at + [max]
       && st'.frames == st.frames[max := st.frames[max] + [n]]
       && Marked(st'.clauses, st.subsumed + [false], st'.subsumed, st.frames[max], c)
  }

  /** The latches of a clause have gained one, the others nothing. */
  ghost predicate Raised(before: seq<nat>, after: seq<nat>, c: Clause) {
    && |after| == |before|
    && forall t :: 0 <= t < |after| ==> after[t] == before[t] + (if exists l :: l in c && l.latch == t then 1 else 0)
  }

  /** The priorities of the latches of a cube. */
  ghost function Priorities(priority: seq<nat>, cube: Clause): seq<nat> {
    seq(|cube|, j requires 0 <= j < |cube| => if cube[j].latch < |priority| then priority[cube[j].latch] else 0)
  }

  class ClauseDB {
    const g: Circuit
    var frames: seq<seq<int>>
    var clauses: seq<Clause>
    var clauseFrame: seq<int>
    var isSubsumed: seq<bool>
    var abstractions: seq<bv32>
    var priority: seq<nat>
    var activation: seq<nat>
    const solver: Sessions.Session

    /** Frame 0 gets one unit clause for every latch with a reset value; frame 1 starts empty. */
    constructor (circuit: Circuit)
      ensures g == circuit && Ready() && Synced() && |frames| == 2 && StartsAtReset(g, St()) && fresh(solver) && fresh(solver.k)
    {
      g := circuit;
      frames, clauses, clauseFrame, isSubsumed, abstractions := [[]], [], [], [], [];
      priority := seq(|circuit.latches|, _ => 0);
      activation := [];
      solver := new Sessions.Session(circuit);
      new;
      hide Core, Listed, Exact, StartsAtReset, Sessions.InStep, Sessions.Session.Valid;
      NoClausesReady(g);
      Sessions.NothingInStep();
      FirstFrames();
    }

    method FirstFrames()
      requires Synced() && Ready() && |frames| == 1
      modifies this, solver, solver.k
      ensures Synced() && Ready() && |frames| == 2 && StartsAtReset(g, St())
    {
      hide Synced, Ready, StartsAtReset;
      AddResets();
      PushFrame();
    }

    method AddResets()
      requires Synced()
      requires Ready() && |frames| == 1
      modifies this, solver, solver.k
      ensures Synced()
      ensures Ready() && |frames| == 1 && StartsAtReset(g, St())
    {
      hide Synced, Core, Listed, Exact, SignaturesOk, ResetUpTo, Blocked, FrameHolds, StartsAtReset, KeepsBlocked;
      ResetUpToStart(g, St());
      for i := 0 to |g.latches|
        invariant Synced()
        invariant Ready() && |frames| == 1 && ResetUpTo(g, St(), i)
      {
        var reset := g.latches[i].reset;
        ghost var st := St();
        if reset != LUndef {
          var l := LLit(i, reset == LFalse);
          assert l in [l] && SatisfiesReset(g, l);
          AddNewClause(0, [l]);
          CoreIsSized(g, St());
          UnitHolds(g, st, St(), l);
        }
        ResetUpToNext(g, st, St(), i);
      }
      ResetUpToEnd(g, St());
    }

    /** A new last frame, without clauses. */
    method PushFrame()
      requires Ready()
      modifies this`frames
      ensures Ready() && |frames| == |old(frames)| + 1 && SameFrames(old(St()), St())
      ensures StartsAtReset(g, old(St())) ==> StartsAtReset(g, St())
    {
      hide Core, Listed, Exact, SignaturesOk, SameFrames, StartsAtReset;
      PushKeepsReady(g, St());
      frames := frames + [[]];
    }

    ghost function St(): Store
      reads this
    {
      Store(frames, clauses, clauseFrame, isSubsumed)
    }

    ghost predicate Fields()
      reads this
    {
      |priority| == |g.latches| && SignaturesOk(clauses, clauseFrame, abstractions)
    }

    /** The frame invariant between operations. */
    ghost predicate Ready()
      reads this
    {
      Fields() && Core(g, St()) && Listed(St()) && Exact(St())
    }

    function Depth(): int
      reads this
    {
      |frames| - 1
    }

    // ---------- queries ----------

    /** The solver holds every clause behind the activation variable at its place. */
    ghost predicate Synced()
      reads this`clauses, this`activation, solver, solver.k
    {
      solver.Valid() && solver.g == g && Sessions.InStep(clauses, activation, solver.held, solver.acts, solver.off)
    }

    /** The final conflict of the solver is about the activation variable of clause `a`. */
    ghost predicate Switched(a: int)
      reads this`activation, solver, solver.k
    {
      && 0 <= a < |activation| && activation[a] < |solver.acts|
      && SatLits.Lit(solver.acts[activation[a]], true) in solver.k.conflict
    }

    /** The clauses listed from `frame` on. */
    method ActiveFrom(frame: nat) returns (acts: set<int>)
      requires Listed(St()) && Safe(St()) && Sized(g, St()) && frame < |frames|
      ensures forall a :: a in acts ==> St().Live(a) && clauseFrame[a] >= frame
      ensures forall a :: St().Live(a) && frame <= clauseFrame[a] ==> a in acts
    {
      acts := {};
      for f := frame to |frames|
        invariant forall a :: a in acts ==> St().Live(a) && clauseFrame[a] >= frame
        invariant forall a :: St().Live(a) && frame <= clauseFrame[a] < f ==> a in acts
      {
        for i := 0 to |frames[f]|
          invariant forall a :: a in acts ==> St().Live(a) && clauseFrame[a] >= frame
          invariant forall a :: St().Live(a) && frame <= clauseFrame[a] < f ==> a in acts
          invariant forall k :: 0 <= k < i && frames[f][k] != -1 ==> frames[f][k] in acts
        {
          assert frames[f][i] in frames[f];
          if frames[f][i] != -1 {
            acts := acts + {frames[f][i]};
          }
        }
      }
    }

    /** Asks the solver about the clauses `acts`, by their activation variables. */
    method Ask(acts: set<int>, hyps: seq<Clause>, post: seq<LLit>, prop: seq<nat>) returns (r: Answer)
      requires Synced() && forall a :: a in acts ==> 0 <= a < |clauses| && clauses[a] != []
      modifies solver, solver.k
      ensures Synced()
      ensures r.Sat? ==> IsState(g, r.s) && IsInput(g, r.x) && Model(g, Query(clauses, acts, hyps, post, prop), r.s, r.x)
      ensures r.Unsat? ==> r.acts <= acts && forall l :: l in r.core ==> l in post
      ensures r.Unsat? ==> Refutes(g, clauses, r.acts, hyps, prop, r.core)
      ensures r.Unsat? ==> forall a :: a in r.acts <==> a in acts && Switched(a)
      ensures r.Unsat? ==> r.core == Sessions.CorePost(g, post, solver.k.conflict)
    {
      hide Model, Refutes, Sessions.InStep;
      Sessions.PlacesFit(clauses, activation, solver.held, solver.acts, solver.off);
      ghost var held, vars, off := solver.held, solver.acts, solver.off;
      Sessions.Translated(clauses, activation, held, vars, off, acts);
      Sessions.TranslatedAnswer(g, clauses, activation, held, vars, off, acts, hyps, post, prop);
      var used := Sessions.Places(activation, acts);
      r := solver.AskWith(used, hyps, post, prop);
      Sessions.StaysInStep(clauses, activation, held, vars, off, solver.held, solver.acts, solver.off);
      if r.Unsat? {
        r := Unsat(Sessions.NumbersAt(activation, acts, r.acts), r.core);
      }
    }

    /** Asks the solver about one step from F_frame. Every listed clause of that and all later frames is assumed. */
    method SolveAtFrame(hyps: seq<Clause>, post: seq<LLit>, prop: seq<nat>, frame: nat) returns (r: Answer)
      requires Synced() && Listed(St()) && Safe(St()) && Sized(g, St()) && frame < |frames|
      modifies solver, solver.k
      ensures Synced()
      ensures r.Sat? ==>
        && IsState(g, r.s) && IsInput(g, r.x) && FrameHolds(St(), frame, r.s)
        && AllHold(hyps, r.s) && InCube(post, Next(g, r.s, r.x)) && PropHolds(g, prop, r.s, r.x)
      ensures r.Unsat? ==>
        && (forall a :: a in r.acts ==> St().Live(a) && clauseFrame[a] >= frame)
        && (forall l :: l in r.core ==> l in post)
        && Refutes(g, clauses, r.acts, hyps, prop, r.core)
      ensures r.Unsat? ==>
        && (forall a :: a in r.acts <==> St().Live(a) && clauseFrame[a] >= frame && Switched(a))
        && r.core == Sessions.CorePost(g, post, solver.k.conflict)
    {
      hide Refutes, Synced, Switched;
      var acts := ActiveFrom(frame);
      r := Ask(acts, hyps, post, prop);
    }

    // ---------- subsumption ----------

    /** Marks exactly the proper super-clauses of `gen` among the entries of a frame from `start` on. */
    method MarkSubsumed(gen: Clause, abstraction: bv32, frame: nat, start: nat)
      requires Fields() && Sized(g, St()) && LitsOk(g, gen) && abstraction == Signature(gen)
      requires frame < |frames| && start <= |frames[frame]|
      requires forall e :: e in frames[frame][start..] ==> St().Live(e)
      modifies this`isSubsumed
      ensures Marked(clauses, old(isSubsumed), isSubsumed, frames[frame][start..], gen)
    {
      hide Marked, Subset, Signature, SeenIs;
      var seen := MarkSeen(g, gen);
      ghost var rest := frames[frame][start..];
      NothingMarked(clauses, isSubsumed, gen);
      for j := start to |frames[frame]|
        invariant |isSubsumed| == |clauses| && Marked(clauses, old(isSubsumed), isSubsumed, rest[..j - start], gen)
      {
        var n := frames[frame][j];
        assert rest[j - start] == n && n in rest;
        assert St().Live(n);
        assert rest[..j - start + 1] == rest[..j - start] + [n];
        OneMarked(clauses, old(isSubsumed), isSubsumed, rest[..j - start], gen, n);
        if !isSubsumed[n] && |clauses[n]| > |gen| {
          if Subset(gen, clauses[n]) { SubsetCovered(gen, clauses[n]); }
          if Covered(abstraction, abstractions[n]) {
            var part := IsPartOf(g, seen, gen, clauses[n]);
            if part {
              isSubsumed := isSubsumed[n := true];
            }
          }
        }
      }
      assert rest[..|rest|] == rest;
    }

    /** Whether clause `c` rules out the cube whose negation is marked in `seen`. */
    method BlocksCube(seen: seq<bool>, abstraction: bv32, check: seq<LLit>, c: Clause, abs: bv32) returns (r: bool)
      requires LitsOk(g, check) && LitsOk(g, c) && SeenIs(g, seen, check)
      requires abstraction == Signature(check) && abs == Signature(c)
      ensures r <==> Subset(c, check)
    {
      if Subset(c, check) {
        SubsetCovered(c, check);
        SubsetSmaller(g, c, check);
      }
      if |c| <= |check| && Covered(abs, abstraction) {
        for j := 0 to |c|
          invariant forall k :: 0 <= k < j ==> c[k] in check
        {
          assert c[j] in c;
          if !seen[Code(c[j])] {
            return false;
          }
        }
        return true;
      }
      return false;
    }

    /** Looks for a blocking clause among the entries of one frame. */
    method BlockedInFrame(f: nat, seen: seq<bool>, abstraction: bv32, assignment: seq<LLit>) returns (r: bool)
      requires Ready() && LitsOk(g, assignment) && f < |frames| && LitsOk(g, NotAll(assignment))
      requires SeenIs(g, seen, NotAll(assignment)) && abstraction == Signature(NotAll(assignment))
      ensures r ==> Blocked(St(), f, Lits(assignment))
      ensures !r ==> NoneBlocks(St(), frames[f], Lits(assignment))
    {
      hide Core, Exact, Listed, SignaturesOk, NoneBlocks, Blocked, SeenIs, LitsOk;
      NoneBlocksStart(St(), Lits(assignment));
      assert frames[f][..0] == [];
      for i := 0 to |frames[f]|
        invariant NoneBlocks(St(), frames[f][..i], Lits(assignment))
      {
        var n := frames[f][i];
        assert n in frames[f];
        EntriesLive(St(), f);
        PushReady(g, St(), n);
        SignatureOf(clauses, clauseFrame, abstractions, n);
        BlocksIffSubset(assignment, clauses[n]);
        if !isSubsumed[n] {
          var b := BlocksCube(seen, abstraction, NotAll(assignment), clauses[n], abstractions[n]);
          if b {
            FoundBlocking(St(), f, n, Lits(assignment));
            return true;
          }
        }
        NoneBlocksNext(St(), frames[f], i, Lits(assignment));
      }
      assert frames[f][..|frames[f]|] == frames[f];
      return false;
    }

    /** Syntactic blocking: decides exactly whether an unmarked clause of the frame or a later one rules out the
        cube, and reports the last frame that does. That a literal of the cube is false on level 0 of the solver, which
        is looked at as well, never happens: see `Sessions.LatchesOpen`. */
    method IsBlocked(frame: nat, assignment: seq<LLit>) returns (r: bool, blockedAt: int)
      requires Ready() && LitsOk(g, assignment) && frame <= Depth()
      ensures r <==> Blocked(St(), frame, Lits(assignment))
      ensures r ==> frame <= blockedAt <= Depth() && Blocked(St(), blockedAt, Lits(assignment))
      ensures r ==> !Blocked(St(), blockedAt + 1, Lits(assignment))
    {
      var check := NotAll(assignment);
      NotAllOk(g, assignment);
      var seen := MarkSeen(g, check);
      var abstraction := CalcAbstraction(check);
      blockedAt := |frames| - 1;
      while blockedAt >= frame
        invariant frame - 1 <= blockedAt < |frames|
        invariant !Blocked(St(), blockedAt + 1, Lits(assignment))
      {
        r := BlockedInFrame(blockedAt, seen, abstraction, assignment);
        if r {
          return;
        }
        NotBlockedHere(St(), blockedAt, Lits(assignment));
        blockedAt := blockedAt - 1;
      }
      return false, frame;
    }

    // ---------- generalisation ----------

    /** An order in which to try the literals. The positions that are compared are those of the cube and not those of the
        order, so that what comes out is sorted in some cases only. */
    method SortByPriority(cube: Clause) returns (order: seq<nat>)
      requires |priority| == |g.latches| && LitsOk(g, cube)
      ensures multiset(order) == multiset(seq(|cube|, i requires 0 <= i < |cube| => i))
      ensures Rotated(Priorities(priority, cube), order)
    {
      ghost var p := Priorities(priority, cube);
      order := seq(|cube|, i requires 0 <= i < |cube| => i);
      var i := 0;
      while i < |cube| - 1
        invariant 0 <= i && |order| == |cube| && PartlyRotated(p, order, i)
        invariant multiset(order) == multiset(seq(|cube|, i requires 0 <= i < |cube| => i))
      {
        var best := i;
        for j := i + 1 to |cube|
          invariant i <= best < |cube| && (forall q :: i <= q < best ==> p[best] < p[q]) && forall q :: best <= q < j ==> p[best] <= p[q]
        {
          assert cube[j] in cube && cube[best] in cube;
          assert p[j] == priority[cube[j].latch] && p[best] == priority[cube[best].latch];
          if priority[cube[j].latch] < priority[cube[best].latch] {
            best := j;
          }
        }
        OneExchange(p, order, i, best);
        order := order[i := order[best]][best := order[i]];
        i := i + 1;
      }
      LastPlace(p, order, i);
    }

    /** Drops the literals outside the unsatisfiable core, except the last one that holds on reset. The flags that
        remember the core are all clear again at the end. */
    method DropUnneeded(core: set<LLit>, ghost orig: Clause, inC0: seq<Slot>, out0: seq<Slot>, numSat0: nat)
      returns (inC: seq<Slot>, out: seq<Slot>, numSat: nat, keep: seq<bool>)
      requires LitsOk(g, orig) && Aligned(orig, inC0, out0)
      requires forall l :: l in core ==> l in Literals(out0)
      requires numSat0 == ResetCount(g, out0) && numSat0 >= 1
      ensures Aligned(orig, inC, out) && Drops(out0, out) && numSat == ResetCount(g, out) && numSat >= 1
      ensures forall l :: l in core ==> l in Literals(out)
      ensures Tight(g, core, out0, out)
      ensures forall i :: 0 <= i < |out| ==> inC[i] == if out[i] == out0[i] then inC0[i] else STrue
      ensures |keep| == |g.latches| && forall t :: 0 <= t < |keep| ==> !keep[t]
    {
      keep := FlagCore(core, orig, inC0, out0);
      inC, out, numSat := inC0, out0, numSat0;
      TrimStart(g, core, orig, out0, inC, numSat);
      hide FlagsAre, Trim;
      for i := 0 to |out0|
        invariant FlagsAre(g, keep, core, out0, i)
        invariant Trim(g, core, orig, out0, inC, out, numSat, i)
        invariant |out| == |inC| == |out0|
        invariant forall k :: 0 <= k < |out| ==> inC[k] == if out[k] == out0[k] then inC0[k] else STrue
      {
        TrimSlot(g, core, orig, out0, inC, out, numSat, i);
        FlagOfSlot(g, keep, core, orig, inC0, out0, i);
        if out[i].SLit? {
          var l := out[i].l;
          if keep[l.latch] {
            keep := keep[l.latch := false];
          } else if SatisfiesReset(g, Not(l)) && numSat == 1 {
            // the clause would exclude a reset state without this literal
            TrimKeep(g, core, orig, out0, inC, out, numSat, i);
          } else {
            TrimDrop(g, core, orig, out0, inC, out, numSat, i);
            if SatisfiesReset(g, Not(l)) {
              numSat := numSat - 1;
            }
            out := out[i := STrue];
            inC := inC[i := STrue];
          }
        }
      }
      TrimEnd(g, keep, core, orig, out0, inC, out, numSat);
    }

    method FlagCore(core: set<LLit>, ghost orig: Clause, ghost inC: seq<Slot>, ghost out: seq<Slot>) returns (keep: seq<bool>)
      requires LitsOk(g, orig) && Aligned(orig, inC, out)
      requires forall l :: l in core ==> l in Literals(out)
      ensures FlagsAre(g, keep, core, out, 0)
    {
      LiteralsOk(g, orig, inC, out);
      keep := seq(|g.latches|, _ => false);
      var todo := core;
      while todo != {}
        invariant todo <= core && |keep| == |g.latches|
        invariant forall t :: 0 <= t < |keep| ==> (keep[t] <==> exists l :: l in core - todo && l.latch == t)
      {
        var l :| l in todo;
        assert l in Literals(out);
        ghost var before, done := keep, core - todo;
        keep := keep[l.latch := true];
        todo := todo - {l};
        assert core - todo == done + {l};
      }
      assert core - todo == core;
      forall t | 0 <= t < |keep|
        ensures keep[t] <==> exists k :: 0 <= k < |out| && out[k].SLit? && out[k].l in core && out[k].l.latch == t
      {
        if l :| l in core && l.latch == t {
          LiteralsMember(out, l);
          var k :| AtSlot(out, l, k);
        }
      }
    }

    /** What holds between the trials of a generalisation at `frame`: the kept literals form a clause that holds on
        reset and is inductive relative to the frame, and it implies every clause still under the activation
        literal. */
    ghost predicate Generalizing(orig: Clause, inC: seq<Slot>, out: seq<Slot>, under: seq<Clause>, numSat: int, frame: nat)
      reads this
    {
      && Aligned(orig, inC, out) && numSat == ResetCount(g, out) && numSat >= 1
      && (forall h :: h in under ==> Subset(Kept(out), h))
      && RelativelyInductive(g, St(), frame, Kept(out))
      && (frame == 0 ==> under == [] && Implies(g, St(), frame, Kept(out)))
    }

    /** Tries to drop the literal at `index`. The clause being tried is added under the activation literal next to
        the clauses of earlier trials; a failed trial retires that literal and with it all those clauses. */
    method TryDrop(index: nat, ghost orig: Clause, inC0: seq<Slot>, out0: seq<Slot>, under0: seq<Clause>, numSat0: nat, frame: nat)
      returns (inC: seq<Slot>, out: seq<Slot>, under: seq<Clause>, numSat: nat)
      requires Synced()
      requires Ready() && LitsOk(g, orig) && index < |out0| && frame < |frames|
      requires Generalizing(orig, inC0, out0, under0, numSat0, frame)
      modifies solver, solver.k
      ensures Synced()
      ensures Generalizing(orig, inC, out, under, numSat, frame)
      ensures Drops(out0, out) && Stays(g, St(), frame, out, index)
      ensures Trial(g, St(), frame, out0, out, index)
      ensures out != out0 ==>
        var tried := out0[index := STrue];
        Drops(tried, out) && Tight(g, Sessions.CorePost(g, Literals(tried), solver.k.conflict), tried, out)
    {
      hide Synced, Tight, Stays, Sessions.CorePost;
      inC, out, under, numSat := inC0, out0, under0, numSat0;
      OnlyOneStays(g, St(), frame, out, index);
      if out[index] == STrue {
        return;
      }
      var resets := SatisfiesReset(g, Not(out[index].l));
      if resets && numSat == 1 {
        return;
      }
      ResetCountDrop(g, out, index);
      out := out[index := STrue];
      inC := inC[index := SFalse];
      if frame > 0 {
        under := under + Hypothesis(inC);
      }
      StillCovered(orig, inC, out0, out, under0, under);
      var r := SolveAtFrame(under, Literals(out), [], frame);
      if r.Sat? {
        TrialLost(g, St(), frame, out0, index, r.s, r.x);
        LostStays(g, St(), frame, out0, index);
        return inC0, out0, [], numSat0;
      }
      if resets {
        numSat := numSat - 1;
      }
      ghost var before := out;
      var keep;
      inC, out, numSat, keep := DropUnneeded(r.core, orig, inC, out, numSat);
      LiteralsOk(g, orig, inC, out);
      CoreInductive(g, St(), frame, r.acts, under, before, out, r.core);
      GoneStays(g, St(), frame, before, out, index);
      assert TightWithin(g, r.core, before, out);
    }

    /** Drops literals from a clause that frame `frame` implies on next states. The result is a non-empty sub-clause
        that still holds on reset and is inductive relative to the frame, for frame 0 even without assuming it, and from
        which no literal that was tried could be left out. */
    method Generalize(inClause: Clause, frame: int) returns (outClause: Clause, generalized: bool)
      requires Synced()
      requires Ready() && LitsOk(g, inClause) && frame < |frames| && (frame >= 0 || |inClause| == 1)
      requires exists l :: l in inClause && SatisfiesReset(g, l)
      requires frame >= 0 ==> Implies(g, St(), frame, inClause)
      modifies solver, solver.k
      ensures Synced()
      ensures Subset(outClause, inClause) && LitsOk(g, outClause)
      ensures exists l :: l in outClause && SatisfiesReset(g, l)
      ensures frame >= 0 ==> RelativelyInductive(g, St(), frame, outClause)
      ensures frame == 0 ==> Implies(g, St(), frame, outClause)
      ensures generalized <==> |outClause| < |inClause|
      ensures |inClause| > 1 ==> Minimal(g, St(), frame, outClause)
      ensures |inClause| > 1 ==> TriedInOrder(g, St(), frame, Priorities(priority, inClause), inClause, outClause)
      ensures |inClause| == 1 ==> outClause == inClause
    {
      hide Synced, TriedInOrder, Minimal, Implies, RelativelyInductive, Core, Listed, Exact, SignaturesOk;
      if |inClause| == 1 {
        if frame >= 0 { ImpliedInductive(g, St(), frame, inClause); }
        return inClause, false;
      }
      ghost var inC, under, numSat;
      var out;
      out, inC, under, numSat := TryLiterals(inClause, frame);
      KeptOk(g, inClause, inC, out);
      ResetCountWitness(g, out);
      SubsetSmaller(g, Kept(out), inClause);
      outClause := Kept(out);
      generalized := |outClause| < |inClause|;
    }

    /** Tries all literals in the order of `SortByPriority`. */
    method TryLiterals(inClause: Clause, frame: nat)
      returns (out: seq<Slot>, ghost inC: seq<Slot>, ghost under: seq<Clause>, ghost numSat: nat)
      requires Synced()
      requires Ready() && LitsOk(g, inClause) && frame < |frames|
      requires (exists l :: l in inClause && SatisfiesReset(g, l)) && Implies(g, St(), frame, inClause)
      modifies solver, solver.k
      ensures Synced()
      ensures Generalizing(inClause, inC, out, under, numSat, frame)
      ensures Minimal(g, St(), frame, Kept(out))
      ensures TriedInOrder(g, St(), frame, Priorities(priority, inClause), inClause, Kept(out))
    {
      hide Synced, Stays, Trials, Trial, TriedInOrder, Minimal, Implies, RelativelyInductive, Drops, Core, Listed, Exact, SignaturesOk, Rotated;
      hide Subset, SatisfiesReset, AllTried, Kept, ResetCount, Lits, Blocks;
      var order := SortByPriority(inClause);
      var now := seq(|inClause|, i requires 0 <= i < |inClause| => SLit(inClause[i]));
      out := Full(inClause);
      var left := CountReset(out);
      var assumed: seq<Clause> := [];
      StartGeneralizing(g, St(), frame, inClause, now, out);
      NothingTried(g, St(), frame, out, order);
      ghost var trace := [out];
      StartTrials(g, St(), frame, out, order);
      for j := 0 to |order|
        invariant Synced()
        invariant Generalizing(inClause, now, out, assumed, left, frame)
        invariant |out| == |inClause| && AllTried(g, St(), frame, out, order[..j])
        invariant |trace| == j + 1 && trace[j] == out && trace[0] == Full(inClause) && Trials(g, St(), frame, trace, order[..j])
      {
        assert order[j] in multiset(order);
        ghost var out0 := out;
        now, out, assumed, left := TryDrop(order[j], inClause, now, out, assumed, left, frame);
        OneMoreTried(g, St(), frame, out0, out, order, j);
        NextTrial(g, St(), frame, trace, order, j, out);
        trace := trace + [out];
      }
      assert order[..|order|] == order;
      EverythingTried(g, St(), frame, out, order);
      LastTrial(g, St(), frame, trace, order, Priorities(priority, inClause), inClause);
      inC, under, numSat := now, assumed, left;
    }

    method CountReset(out: seq<Slot>) returns (n: nat)
      ensures n == ResetCount(g, out)
    {
      n := 0;
      for j := 0 to |out|
        invariant n == ResetCount(g, out[..j])
      {
        assert out[..j + 1][..j] == out[..j];
        if out[j].SLit? && SatisfiesReset(g, Not(out[j].l)) {
          n := n + 1;
        }
      }
      assert out[..|out|] == out;
    }

    // ---------- adding a clause ----------

    /** Pushes a new clause forward as long as it stays inductive. */
    method EarlyPropagate(cube: Clause, f: nat) returns (max: nat)
      requires Synced()
      requires Ready() && LitsOk(g, cube) && f < |frames|
      requires f > 0 ==> RelativelyInductive(g, St(), f - 1, cube)
      modifies solver, solver.k
      ensures Synced()
      ensures f <= max < |frames| && (max > 0 ==> RelativelyInductive(g, St(), max - 1, cube))
      ensures Furthest(g, St(), cube, f, max)
    {
      hide Synced;
      max := f;
      while max < Depth() - 1
        invariant Synced()
        invariant f <= max < |frames| && (max > 0 ==> RelativelyInductive(g, St(), max - 1, cube))
        invariant (max == f || max <= Depth() - 1) && forall k :: f <= k < max ==> RelativelyInductive(g, St(), k, cube)
      {
        NotAllOk(g, cube);
        var r := SolveAtFrame([cube], NotAll(cube), [], max);
        if r.Sat? {
          NotAllMeaning(g, cube, Next(g, r.s, r.x));
          assert cube in [cube];
          return;
        }
        CoreImplies(g, St(), max, r.acts, [cube], cube, r.core);
        max := max + 1;
      }
    }

    method RaisePriorities(cube: Clause)
      requires |priority| == |g.latches| && LitsOk(g, cube)
      modifies this`priority
      ensures Raised(old(priority), priority, cube)
    {
      for i := 0 to |cube|
        invariant |priority| == |g.latches|
        invariant forall t :: 0 <= t < |priority| ==>
          priority[t] == old(priority)[t] + (if exists k :: 0 <= k < i && cube[k].latch == t then 1 else 0)
      {
        assert cube[i] in cube;
        priority := priority[cube[i].latch := priority[cube[i].latch] + 1];
      }
    }

    /** Adds a clause that the frame before `f` implies on next states: generalises it, pushes it forward, marks what
        it subsumes. Everything blocked stays blocked, and so is the cube that the given clause excludes. */
    method AddNewClause(f: nat, cube0: Clause)
      requires Synced()
      requires Ready() && LitsOk(g, cube0) && f < |frames| && (f > 0 || |cube0| == 1)
      requires exists l :: l in cube0 && SatisfiesReset(g, l)
      requires f > 0 ==> Implies(g, St(), f - 1, cube0)
      modifies this`frames, this`clauses, this`clauseFrame, this`isSubsumed, this`abstractions, this`priority, this`activation, solver, solver.k
      ensures Synced()
      ensures Ready() && |frames| == |old(frames)|
      ensures KeepsBlocked(old(St()), St()) && Blocked(St(), f, Lits(NotAll(cube0)))
      ensures forall i: int, s :: FrameHolds(St(), i, s) ==> FrameHolds(old(St()), i, s)
      ensures Adds(g, old(St()), St(), f, Priorities(old(priority), cube0), cube0)
      ensures Raised(old(priority), priority, clauses[|old(clauses)|])
    {
      hide Synced, Minimal, TriedInOrder, Furthest, Raised, Core, Listed, Exact, SignaturesOk, Marked, Implies, RelativelyInductive;
      hide Blocked, KeepsBlocked, FrameHolds, Subset, SatisfiesReset, LitsOk, Lits, Priorities;
      CoreIsSized(g, St());
      var cube, generalized := Generalize(cube0, f - 1);
      RaisePriorities(cube);
      RaisedSize(old(priority), priority, cube);
      var max := EarlyPropagate(cube, f);
      Install(cube, max);
      BlockedByNew(g, old(St()), St(), cube, cube0, f, max);
    }

    /** Enters a clause into the store at frame `max`, after marking what it subsumes there. */
    method Install(cube: Clause, max: nat)
      requires Synced()
      requires Ready() && LitsOk(g, cube) && max < |frames| && (max > 0 ==> RelativelyInductive(g, St(), max - 1, cube))
      requires exists l :: l in cube && SatisfiesReset(g, l)
      modifies this`frames, this`clauses, this`clauseFrame, this`isSubsumed, this`abstractions, this`activation, solver, solver.k
      ensures Synced()
      ensures Ready() && |frames| == |old(frames)|
      ensures clauses == old(clauses) + [cube] && clauseFrame == old(clauseFrame) + [max]
      ensures frames == old(frames)[max := old(frames)[max] + [|old(clauses)|]]
      ensures Marked(clauses, old(isSubsumed) + [false], isSubsumed, old(frames)[max], cube)
    {
      hide Synced, Core, Exact, Listed, Sized, RelativelyInductive, SignaturesOk, Marked;
      ghost var st := St();
      EntriesLive(st, max);
      InstallReady(g, st, cube, max);
      assert frames[max][0..] == frames[max];
      var abstraction := Append(cube, max);
      MarkSubsumed(cube, abstraction, max, 0);
      InstallKeeps(g, st, cube, max, isSubsumed);
      frames := frames[max := frames[max] + [|clauses| - 1]];
    }

    /** Extends the clause vectors. */
    method Append(cube: Clause, max: nat) returns (abstraction: bv32)
      requires Synced()
      requires Fields() && |clauses| == |clauseFrame| == |isSubsumed|
      modifies this`clauses, this`clauseFrame, this`isSubsumed, this`abstractions, this`activation, solver, solver.k
      ensures Synced()
      ensures Fields() && St() == Added(old(St()), cube, max, frames) && abstraction == Signature(cube)
    {
      abstraction := CalcAbstraction(cube);
      Sessions.OneMoreInStep(clauses, activation, solver.held, solver.acts, solver.off, cube, |solver.k.assigns|);
      activation := activation + [|solver.acts|];
      solver.AddClause(cube);
      clauses := clauses + [cube];
      abstractions := abstractions + [abstraction];
      clauseFrame := clauseFrame + [max];
      isSubsumed := isSubsumed + [false];
    }

    // ---------- propagation ----------

    /** The invariant while the list of frame `f` is compacted: `i` entries are kept, `j` have been visited. */
    ghost predicate Sweeping(f: nat, i: nat, j: nat)
      reads this
    {
      Fields() && Core(g, St()) && Compacting(St(), f, i, j)
    }

    function SizeOf(n: int): nat
      reads this`clauses
    {
      if 0 <= n < |clauses| then |clauses[n]| else 0
    }

    /** Sorts clause numbers by clause size. */
    method SortBySize(es: seq<int>) returns (r: seq<int>)
      ensures multiset(r) == multiset(es)
      ensures forall j, k :: 0 <= j < k < |r| ==> SizeOf(r[j]) <= SizeOf(r[k])
    {
      hide SizeOf;
      r := es;
      for i := 0 to |es|
        invariant multiset(r) == multiset(es) && |r| == |es|
        invariant forall j, k :: 0 <= j < i && j < k < |r| ==> SizeOf(r[j]) <= SizeOf(r[k])
      {
        var best := i;
        for j := i + 1 to |es|
          invariant i <= best < |es|
          invariant forall k :: i <= k < j ==> SizeOf(r[best]) <= SizeOf(r[k])
        {
          if SizeOf(r[j]) < SizeOf(r[best]) {
            best := j;
          }
        }
        ghost var before := r;
        r := r[i := r[best]][best := r[i]];
        Exchanged(before, i, best);
        assert forall k :: i < k < |r| ==> r[k] == before[if k == best then i else k];
      }
    }

    /** Releases the subsumed clause at position `j`. */
    method ReleaseAt(f: nat, ghost i: nat, j: nat)
      requires Synced()
      requires f < |frames| && Sweeping(f, i, j) && j < |frames[f]|
      requires 0 <= frames[f][j] < |isSubsumed| && isSubsumed[frames[f][j]]
      modifies this`frames, this`clauses, this`clauseFrame, this`isSubsumed, this`abstractions, solver, solver.k
      ensures Synced()
      ensures Sweeping(f, i, j + 1) && |frames| == |old(frames)| && |frames[f]| == |old(frames)[f]|
      ensures StableUpTo(old(St()), St(), f)
      ensures St() == Released(old(St()), old(frames)[f][j], frames) && frames[f] == old(frames)[f][j := -1]
    {
      hide Synced, Core, Compacting, SignaturesOk, StableUpTo;
      var l := frames[f][j];
      LayoutEntry(St(), f, i, j);
      PushReady(g, St(), l);
      SignatureSizes(clauses, clauseFrame, abstractions);
      ReleaseKeeps(g, St(), l, frames[f := frames[f][j := -1]]);
      ReleaseEntry(St(), f, i, j);
      SameIsStable(St(), Released(St(), l, frames[f := frames[f][j := -1]]), f);
      ReleaseClause(l);
      frames := frames[f := frames[f][j := -1]];
    }

    /** Pushes the clause at position `j` to the next frame and marks what it subsumes there. */
    method PushAt(f: nat, ghost i: nat, j: nat)
      requires Sweeping(f, i, j) && j < |frames[f]| && f + 1 < |frames|
      requires St().Live(frames[f][j]) && !isSubsumed[frames[f][j]] && Implies(g, St(), f, clauses[frames[f][j]])
      modifies this`frames, this`clauseFrame, this`isSubsumed
      ensures Sweeping(f, i, j + 1) && |frames| == |old(frames)| && |frames[f]| == |old(frames)[f]|
      ensures StableUpTo(old(St()), St(), f)
      ensures Visited(g, old(St()), St(), f, old(frames)[f][j]) && frames[f] == old(frames)[f]
    {
      hide Core, Compacting, Sized, SignaturesOk, Implies, StableUpTo, Marked;
      var l := frames[f][j];
      ghost var st := St();
      LayoutEntry(st, f, i, j);
      NextFrameLive(st, f, i, j);
      PushReady(g, st, l);
      PushEntry(st, f, i, j);
      SignatureOf(clauses, clauseFrame, abstractions, l);
      assert frames[f + 1][0..] == frames[f + 1];
      MarkSubsumed(clauses[l], abstractions[l], f + 1, 0);
      MarksAfterPush(st, l, isSubsumed);
      PushAndMark(g, st, l, frames[f + 1 := frames[f + 1] + [l]], isSubsumed);
      MarksKeepLayout(MovedTo(st, l, f + 1, frames[f + 1 := frames[f + 1] + [l]]), isSubsumed, f, i, j + 1);
      SignaturesMoved(clauses, clauseFrame, abstractions, l, f + 1);
      frames := frames[f + 1 := frames[f + 1] + [l]];
      clauseFrame := clauseFrame[l := f + 1];
    }

    /** Keeps the clause at position `j`. */
    method KeepAt(f: nat, i: nat, j: nat)
      requires Sweeping(f, i, j) && j < |frames[f]| && Grows(g, St(), f)
      modifies this`frames
      ensures Sweeping(f, i + 1, j + 1) && |frames| == |old(frames)| && |frames[f]| == |old(frames)[f]|
      ensures StableUpTo(old(St()), St(), f) && Grows(g, St(), f)
      ensures St() == old(St()).(frames := frames) && frames[f] == old(frames)[f][i := old(frames)[f][j]]
    {
      hide Core, Grows, StableUpTo, SignaturesOk;
      ghost var st := St();
      KeepEntry(st, f, i, j);
      frames := frames[f := frames[f][i := frames[f][j]]];
      RelistKeeps(g, st, frames);
      SameIsStable(st, St(), f);
      SameGrows(g, st, St(), f);
    }

    /** Visits one entry: releases, pushes or keeps it. A kept clause shows that the frame grows. */
    method VisitEntry(f: nat, i: nat, j: nat) returns (k: nat)
      requires Synced()
      requires Sweeping(f, i, j) && f + 1 < |frames| && j < |frames[f]|
      modifies this`frames, this`clauses, this`clauseFrame, this`isSubsumed, this`abstractions, solver, solver.k
      ensures Synced()
      ensures Sweeping(f, k, j + 1) && |frames| == |old(frames)| && |frames[f]| == |old(frames)[f]|
      ensures StableUpTo(old(St()), St(), f)
      ensures k == i || (k == i + 1 && Grows(g, St(), f))
      ensures Visited(g, old(St()), St(), f, old(frames)[f][j]) && frames[f][j + 1..] == old(frames)[f][j + 1..]
    {
      hide Marked, Synced, Core, Compacting, Sized, SignaturesOk, StableUpTo, Grows, FrameHolds, Listed, Safe, Implies, Refutes;
      k := i;
      LayoutEntry(St(), f, i, j);
      CompactingSafe(St(), f, i, j);
      var l := frames[f][j];
      PushReady(g, St(), l);
      if isSubsumed[l] {
        ReleaseAt(f, i, j);
        return;
      }
      var c := clauses[l];
      NotAllOk(g, c);
      var r := SolveAtFrame([], NotAll(c), [], f);
      if r.Unsat? {
        CoreImpliesAlways(g, St(), f, r.acts, c, r.core);
        PushAt(f, i, j);
      } else {
        KeptGrows(g, St(), f, l, r.s, r.x);
        KeepAt(f, i, j);
        k := i + 1;
      }
    }

    /** Sweeps one frame: releases its subsumed clauses, pushes what it can and keeps the rest. */
    method PropagateFrame(f: nat)
      requires Synced()
      requires Ready() && f + 1 < |frames|
      modifies this`frames, this`clauses, this`clauseFrame, this`isSubsumed, this`abstractions, solver, solver.k
      ensures Synced()
      ensures Ready() && |frames| == |old(frames)| && StableUpTo(old(St()), St(), f)
      ensures frames[f] != [] ==> Grows(g, St(), f)
      ensures Swept(g, old(St()), St(), f, Elements(old(frames)[f])) && Stuck(g, St(), f)
    {
      hide Synced, Core, Listed, Exact, Compacting, SignaturesOk, StableUpTo, Grows, Swept, Stuck, Visited;
      ghost var st0 := St();
      var es := SortBySize(frames[f]);
      SortedEntries(st0, f, es);
      RelistKeeps(g, st0, frames[f := es]);
      SameIsStable(st0, st0.(frames := frames[f := es]), f);
      StartCompacting(st0, f, es);
      frames := frames[f := es];
      StartSweep(g, st0, f, es);
      var i: nat, j: nat := 0, 0;
      while j < |frames[f]|
        invariant Synced()
        invariant f + 1 < |frames| == |old(frames)| && i <= j <= |frames[f]|
        invariant |frames[f]| == |es| && frames[f][j..] == es[j..]
        invariant Swept(g, st0, St(), f, Elements(es[..j]))
        invariant Sweeping(f, i, j) && StableUpTo(st0, St(), f)
        invariant i > 0 ==> Grows(g, St(), f)
        decreases |frames[f]| - j
      {
        ghost var st := St();
        ghost var grew := i > 0;
        assert frames[f][j] == frames[f][j..][0] == es[j] && es[j..][1..] == es[j + 1..];
        CoreSizes(g, st);
        NextFrameMembers(st, f, i, j);
        i := VisitEntry(f, i, j);
        SweptNext(g, st0, st, St(), f, es, j);
        StableTrans(st0, st, St(), f, f);
        if grew { SameGrows(g, st, St(), f); }
        j := j + 1;
      }
      ghost var st1 := St();
      EndCompacting(st1, f, i);
      RelistKeeps(g, st1, frames[f := frames[f][..i]]);
      SameIsStable(st1, st1.(frames := frames[f := frames[f][..i]]), f);
      StableTrans(st0, st1, st1.(frames := frames[f := frames[f][..i]]), f, f);
      frames := frames[f := frames[f][..i]];
      if i > 0 { SameGrows(g, st1, St(), f); }
      EndSweep(g, st0, st1, St(), f, es);
    }

    /** Releases the clause entered as `l`; the caller takes care of the frame list. */
    method ReleaseClause(l: int)
      requires Synced()
      requires 0 <= l < |clauses| && |clauses| == |clauseFrame| == |isSubsumed| == |abstractions|
      modifies this`clauses, this`clauseFrame, this`isSubsumed, this`abstractions, solver, solver.k
      ensures Synced()
      ensures St() == Released(old(St()), l, frames) && |abstractions| == |clauses|
      ensures SignaturesOk(old(clauses), old(clauseFrame), old(abstractions)) ==>
                SignaturesOk(clauses, clauseFrame, abstractions)
    {
      Sessions.OneLessInStep(clauses, activation, solver.held, solver.acts, solver.off, l);
      solver.Release(activation[l]);
      clauses := clauses[l := []];
      abstractions := abstractions[l := 0];
      clauseFrame := clauseFrame[l := -1];
      isSubsumed := isSubsumed[l := false];
    }

    /** The clauses of all frames from `from` on go to the last frame, which then stands for F_from. */
    method MoveInvariantToEnd(from: nat)
      requires Synced()
      requires Ready() && from < |frames| - 1
      modifies this`frames, this`clauses, this`clauseFrame, this`isSubsumed, this`abstractions, solver, solver.k
      ensures Synced()
      ensures Moved(g, old(St()), St(), from)
    {
      hide Synced, Core, Listed, Exact, Moving, Moved, SignaturesOk;
      ghost var st0 := St();
      SignatureSizes(clauses, clauseFrame, abstractions);
      CoreSizes(g, st0);
      StartMoving(g, st0, from);
      var f := from;
      while f < |frames| - 1
        invariant Synced()
        invariant |frames| == |old(frames)| && |abstractions| == |clauses| && from <= f
        invariant if f < |frames| - 1 then Moving(g, st0, St(), from, f, 0) else Moved(g, st0, St(), from)
      {
        var i := 0;
        while i < |frames[f]|
          invariant Synced()
          invariant f < |frames| - 1 && |frames| == |old(frames)| && |abstractions| == |clauses| && 0 <= i <= |frames[f]|
          invariant Moving(g, st0, St(), from, f, i)
          decreases |frames[f]| - i
        {
          MovingEntry(g, st0, St(), from, f, i);
          i := MoveEntry(from, f, i, st0);
        }
        ClearFrame(g, st0, St(), from, f);
        frames := frames[f := []];
        f := f + 1;
      }
    }

    method MoveEntry(ghost from: nat, f: nat, i: nat, ghost st0: Store) returns (j: nat)
      requires Synced()
      requires f < |frames| - 1 && i < |frames[f]| && Moving(g, st0, St(), from, f, i)
      requires |clauses| == |clauseFrame| == |isSubsumed| == |abstractions| && 0 <= frames[f][i] < |clauses|
      modifies this`frames, this`clauses, this`clauseFrame, this`isSubsumed, this`abstractions, solver, solver.k
      ensures Synced()
      ensures j == i + 1 && |frames| == |old(frames)| && frames[f] == old(frames)[f]
      ensures |abstractions| == |clauses| && Moving(g, st0, St(), from, f, j)
    {
      hide Synced, Moving;
      j := i + 1;
      var l := frames[f][i];
      if isSubsumed[l] {
        ReleaseOn(g, st0, St(), from, f, i);
        ReleaseClause(l);
      } else {
        MoveOn(g, st0, St(), from, f, i);
        var last := |frames| - 1;
        frames := frames[last := frames[last] + [l]];
        clauseFrame := clauseFrame[l := last];
      }
    }

    /** One entry of the final round over the last frame: released if subsumed, otherwise used to mark later ones. */
    method VisitLast(i: nat, j: nat) returns (k: nat)
      requires Synced()
      requires Fields() && Core(g, St()) && |frames| > 0 && j < |frames[Depth()]| && CompactingLoosely(St(), Depth(), i, j)
      modifies this`frames, this`clauses, this`clauseFrame, this`isSubsumed, this`abstractions, solver, solver.k
      ensures Synced()
      ensures |frames| == |old(frames)| && |frames[Depth()]| == |old(frames)[Depth()]|
      ensures Fields() && Core(g, St()) && CompactingLoosely(St(), Depth(), k, j + 1) && SameFrames(old(St()), St())
      ensures frames[Depth()][j + 1..] == old(frames)[Depth()][j + 1..]
      ensures VisitedLast(old(St()), St(), old(frames)[Depth()][j], old(frames)[Depth()][j + 1..])
    {
      hide Synced, Core, CompactingLoosely, SignaturesOk, SameFrames, Sized, Marked;
      var f := |frames| - 1;
      ghost var st := St();
      LooseEntry(st, f, i, j);
      var l := frames[f][j];
      PushReady(g, st, l);
      SignatureSizes(clauses, clauseFrame, abstractions);
      if isSubsumed[l] {
        var es := frames[f][i := -1];
        SliceUpdate(frames[f], i, j);
        ReleaseKeeps(g, st, l, frames[f := es]);
        ReleaseLoosely(st, f, i, j, es);
        ReleaseClause(l);
        frames := frames[f := es];
        k := i;
      } else {
        SignatureOf(clauses, clauseFrame, abstractions, l);
        MarkSubsumed(clauses[l], abstractions[l], f, j + 1);
        MarkLast(g, st, f, i, j, isSubsumed);
        ghost var st1 := St();
        KeepLoosely(st1, f, i, j);
        RelistKeeps(g, st1, frames[f := frames[f][i := l]]);
        SameTrans(st, st1, st1.(frames := frames[f := frames[f][i := l]]));
        frames := frames[f := frames[f][i := l]];
        k := i + 1;
      }
    }

    /** The final round of subsumption in the last frame. */
    method SweepLast()
      requires Synced()
      requires Ready()
      modifies this`frames, this`clauses, this`clauseFrame, this`isSubsumed, this`abstractions, solver, solver.k
      ensures Synced()
      ensures Ready() && |frames| == |old(frames)| && SameFrames(old(St()), St())
      ensures var all := Elements(old(frames)[Depth()]); Cleaned(old(St()), St(), all, all) && Clean(St())
    {
      hide Synced, Core, Listed, Exact, Compacting, CompactingLoosely, SignaturesOk, SameFrames, Cleaned, Clean, VisitedLast;
      ghost var st0 := St();
      CoreSizes(g, st0);
      var f := |frames| - 1;
      var es := SortBySize(frames[f]);
      SortedEntries(st0, f, es);
      RelistKeeps(g, st0, frames[f := es]);
      StartCompacting(st0, f, es);
      frames := frames[f := es];
      CompactingIsLoose(St(), f, 0, 0);
      StartCleaning(g, st0, f, es);
      var i: nat, j: nat := 0, 0;
      while j < |frames[f]|
        invariant Synced()
        invariant f == |frames| - 1 && |frames| == |old(frames)| && j <= |frames[f]|
        invariant |frames[f]| == |es| && frames[f][j..] == es[j..]
        invariant Cleaned(st0, St(), Elements(es), Elements(es[..j]))
        invariant Fields() && Core(g, St()) && CompactingLoosely(St(), f, i, j) && SameFrames(st0, St())
        decreases |frames[f]| - j
      {
        ghost var st := St();
        assert frames[f][j] == frames[f][j..][0] == es[j] && es[j..][1..] == es[j + 1..];
        assert frames[f][j + 1..] == frames[f][j..][1..];
        i := VisitLast(i, j);
        CleanedNext(st0, st, St(), es, j);
        SameTrans(st0, st, St());
        j := j + 1;
      }
      ghost var st1 := St();
      LooseBounds(st1, f, i, j);
      EndLoosely(st1, f, i);
      RelistKeeps(g, st1, frames[f := frames[f][..i]]);
      frames := frames[f := frames[f][..i]];
      SameTrans(st0, st1, St());
      EndCleaning(st0, st1, St(), f, es);
    }

    /** Clause propagation. Either some frame empties, and the last frame becomes an inductive invariant without bad
        states, or every frame keeps a clause and so grows. */
    method PropagateClauses(ghost prop: seq<nat>) returns (proved: bool)
      requires Synced()
      requires Ready() && Depth() > 0 && Excludes(g, prop, St(), Depth() - 1)
      modifies this`frames, this`clauses, this`clauseFrame, this`isSubsumed, this`abstractions, solver, solver.k
      ensures Synced()
      ensures proved ==> Proof(g, prop, St()) && Listed(St())
      ensures !proved ==> Ready() && |frames| == |old(frames)| && StableUpTo(old(St()), St(), 0)
      ensures !proved ==> forall k :: 0 <= k < Depth() ==> Grows(g, St(), k)
      ensures !proved ==> Clean(St()) && forall k :: 0 <= k < Depth() ==> Stuck(g, St(), k)
    {
      hide Swept, Cleaned, Stuck, Clean, Synced, Core, Listed, Exact, SignaturesOk, StableUpTo, Grows, Excludes, Proof, SameFrames, Moved;
      StableRefl(St(), 0);
      var f := 0;
      while f < |frames| - 1
        invariant Synced()
        invariant 0 <= f <= |frames| - 1 && |frames| == |old(frames)|
        invariant Ready() && Excludes(g, prop, St(), Depth() - 1) && StableUpTo(old(St()), St(), 0)
        invariant forall k :: 0 <= k < f ==> Grows(g, St(), k) && Stuck(g, St(), k)
      {
        ghost var st := St();
        if frames[f] != [] {
          PropagateFrame(f);
          StableTrans(old(St()), st, St(), 0, f);
          ExcludesStays(g, prop, st, St(), Depth() - 1, f);
          GrowsStays(g, st, St(), f);
          AllStuckStay(g, st, St(), f);
        }
        if frames[f] == [] {
          ghost var st1 := St();
          MoveInvariantToEnd(f);
          EmptyProves(g, prop, st1, f, St());
          return true;
        }
        f := f + 1;
      }
      ghost var st := St();
      SweepLast();
      SameIsStable(st, St(), Depth());
      StableTrans(old(St()), st, St(), 0, Depth());
      GrowsStays(g, st, St(), Depth());
      AllStuckBefore(g, st, St());
      return false;
    }
  }

  lemma NoClausesReady(g: Circuit)
    ensures var st := Store([[]], [], [], []); Core(g, st) && Listed(st) && Exact(st)
  {
  }

  lemma PushKeepsReady(g: Circuit, st: Store)
    requires Core(g, st) && Listed(st) && Exact(st)
    ensures var st' := st.(frames := st.frames + [[]]); Core(g, st') && Listed(st') && Exact(st') && SameFrames(st, st')
    ensures StartsAtReset(g, st) ==> StartsAtReset(g, st.(frames := st.frames + [[]]))
  {
    var st' := st.(frames := st.frames + [[]]);
    assert forall a :: st.Live(a) <==> st'.Live(a);
    forall i: int, s ensures FrameHolds(st, i, s) <==> FrameHolds(st', i, s) {}
    forall a | st'.Live(a) ensures Pushed(g, st', a) && (st'.subsumed[a] ==> exists b :: Subsumer(st', a, b)) {
      assert Pushed(g, st, a);
      if st.subsumed[a] {
        var b :| Subsumer(st, a, b);
        assert Subsumer(st', a, b);
      }
    }
  }

  /** Frame 0 fixes the first `i` latches to their reset values. */
  ghost predicate ResetUpTo(g: Circuit, st: Store, i: nat) {
    forall s, k :: IsState(g, s) && FrameHolds(st, 0, s) && 0 <= k < i && k < |s| ==>
      g.latches[k].reset.Below(FromBool(s[k]))
  }

  lemma ResetUpToStart(g: Circuit, st: Store)
    ensures ResetUpTo(g, st, 0)
  {
  }

  lemma ResetUpToNext(g: Circuit, st: Store, st': Store, i: nat)
    requires ResetUpTo(g, st, i) && i < |g.latches|
    requires forall s :: FrameHolds(st', 0, s) ==> FrameHolds(st, 0, s)
    requires var r := g.latches[i].reset;
             r != LUndef ==> forall s :: IsState(g, s) && FrameHolds(st', 0, s) ==> Holds(LLit(i, r == LFalse), s)
    ensures ResetUpTo(g, st', i + 1)
  {
  }

  lemma ResetUpToEnd(g: Circuit, st: Store)
    requires ResetUpTo(g, st, |g.latches|)
    ensures StartsAtReset(g, st)
  {
  }

  lemma CoreIsSized(g: Circuit, st: Store)
    requires Core(g, st)
    ensures Sized(g, st)
  {
  }

  /** A blocked unit clause holds in its frame. */
  lemma UnitHolds(g: Circuit, st: Store, st': Store, l: LLit)
    requires Blocked(st', 0, Lits(NotAll([l]))) && Sized(g, st') && l.latch < |g.latches|
    requires forall i: int, s :: FrameHolds(st', i, s) ==> FrameHolds(st, i, s)
    ensures forall s :: IsState(g, s) && FrameHolds(st', 0, s) ==> FrameHolds(st, 0, s) && Holds(l, s)
  {
    var q := Lits(NotAll([l]));
    var b :| st'.Live(b) && b < |st'.subsumed| && !st'.subsumed[b] && st'.at[b] >= 0 && Blocks(st'.clauses[b], q);
    forall s | IsState(g, s) && FrameHolds(st', 0, s) ensures Holds(l, s) {
      var m :| m in st'.clauses[b] && Holds(m, s);
      assert Not(m) in q;
      NotAllMember([l], Not(m));
      assert Not(Not(m)) == m;
    }
  }

  lemma SignatureSizes(clauses: seq<Clause>, at: seq<int>, abstractions: seq<bv32>)
    requires SignaturesOk(clauses, at, abstractions)
    ensures |abstractions| == |clauses|
  {
  }

  lemma CoreSizes(g: Circuit, st: Store)
    requires Core(g, st)
    ensures |st.clauses| == |st.at| == |st.subsumed| && |st.frames| > 0
  {
  }

  lemma MovingEntry(g: Circuit, st0: Store, st: Store, f0: nat, f: nat, i: nat)
    requires f < |st.frames| && Moving(g, st0, st, f0, f, i) && i < |st.frames[f]|
    ensures |st.clauses| == |st.at| == |st.subsumed| && 0 <= st.frames[f][i] < |st.clauses|
  {
    assert st.frames[f][i..][0] == st.frames[f][i];
  }

  lemma SliceUpdate(es: seq<int>, i: nat, j: nat)
    requires i <= j < |es|
    ensures es[i := -1][..i] == es[..i] && es[i := -1][j + 1..] == es[j + 1..]
  {
  }

  lemma LooseEntry(st: Store, f: nat, i: nat, j: nat)
    requires f < |st.frames| && CompactingLoosely(st, f, i, j) && j < |st.frames[f]|
    ensures i <= j && st.Live(st.frames[f][j]) && st.at[st.frames[f][j]] == f
    ensures forall e :: e in st.frames[f][j + 1..] ==> st.Live(e)
  {
  }

  lemma LooseBounds(st: Store, f: nat, i: nat, j: nat)
    requires f < |st.frames| && CompactingLoosely(st, f, i, j)
    ensures i <= j <= |st.frames[f]|
  {
  }

  lemma CompactingIsLoose(st: Store, f: nat, i: nat, j: nat)
    requires Compacting(st, f, i, j)
    ensures CompactingLoosely(st, f, i, j)
  {
  }

  lemma SameTrans(a: Store, b: Store, c: Store)
    requires SameFrames(a, b) && SameFrames(b, c)
    ensures SameFrames(a, c)
  {
    forall i: int, s ensures FrameHolds(a, i, s) <==> FrameHolds(c, i, s) {
      assert FrameHolds(a, i, s) <==> FrameHolds(b, i, s);
    }
  }

  /** Marking later entries of the last frame keeps the invariant and the layout. */
  lemma MarkLast(g: Circuit, st: Store, f: nat, i: nat, j: nat, marks: seq<bool>)
    requires Core(g, st) && f < |st.frames| && CompactingLoosely(st, f, i, j) && j < |st.frames[f]|
    requires var l := st.frames[f][j];
             0 <= l < |st.clauses| && l < |st.subsumed| && !st.subsumed[l]
             && Marked(st.clauses, st.subsumed, marks, st.frames[f][j + 1..], st.clauses[l])
    ensures Core(g, st.(subsumed := marks)) && SameFrames(st, st.(subsumed := marks))
    ensures CompactingLoosely(st.(subsumed := marks), f, i, j)
  {
    LooseEntry(st, f, i, j);
    forall d | st.Live(d) && marks[d] && !st.subsumed[d] ensures Subsumer(st, d, st.frames[f][j]) {
      assert d in st.frames[f][j + 1..];
    }
    MarkKeeps(g, st, st.frames[f][j], marks);
    assert forall a :: st.(subsumed := marks).Live(a) <==> st.Live(a);
  }

  lemma ExcludesStays(g: Circuit, prop: seq<nat>, st: Store, st': Store, i: int, f: int)
    requires Excludes(g, prop, st, i) && StableUpTo(st, st', f)
    ensures Excludes(g, prop, st', i)
  {
  }

  lemma GrowsStays(g: Circuit, st: Store, st': Store, f: int)
    requires StableUpTo(st, st', f)
    ensures forall k :: k <= f && Grows(g, st, k) ==> Grows(g, st', k)
  {
    forall k | k <= f && Grows(g, st, k) ensures Grows(g, st', k) {
      var s, x :| IsState(g, s) && IsInput(g, x) && FrameHolds(st, k, s) && !FrameHolds(st, k, Next(g, s, x));
      assert FrameHolds(st', k, s) && !FrameHolds(st', k, Next(g, s, x));
    }
  }

  lemma EmptyProves(g: Circuit, prop: seq<nat>, st: Store, f: nat, fin: Store)
    requires Core(g, st) && Listed(st) && Excludes(g, prop, st, st.Depth() - 1) && Moved(g, st, fin, f) && st.frames[f] == []
    ensures Proof(g, prop, fin) && Listed(fin)
  {
    forall a | st.Live(a) ensures st.at[a] != f {}
    forall s ensures FrameHolds(fin, fin.Depth(), s) <==> FrameHolds(st, f, s) { MovedToLast(g, st, fin, f, s); }
    EmptyFrameProves(g, prop, st, f, fin);
  }

  lemma Exchanged(s: seq<int>, i: nat, j: nat)
    requires i < |s| && j < |s|
    ensures multiset(s[i := s[j]][j := s[i]]) == multiset(s)
  {
  }

  lemma SortedEntries(st: Store, f: nat, es: seq<int>)
    requires Exact(st) && f < |st.frames| && multiset(es) == multiset(st.frames[f])
    ensures Distinct(es) && forall e :: e in es <==> e in st.frames[f]
  {
    var fs := st.frames[f];
    forall e ensures e in es <==> e in fs {
      assert e in es <==> e in multiset(es);
      assert e in fs <==> e in multiset(fs);
    }
    assert Distinct(fs);
    DistinctCount(fs);
    forall j, k | 0 <= j < k < |es| ensures es[j] != es[k] {
      assert es == es[..j] + [es[j]] + es[j + 1..k] + [es[k]] + es[k + 1..];
      assert multiset(es)[es[j]] >= 1 + (if es[k] == es[j] then 1 else 0);
    }
  }

  lemma {:induction false} DistinctCount(es: seq<int>)
    requires Distinct(es)
    ensures forall e :: multiset(es)[e] <= 1
  {
    if es != [] {
      var n := |es| - 1;
      DistinctCount(es[..n]);
      assert es == es[..n] + [es[n]];
      assert es[n] !in es[..n];
    }
  }

  lemma SignatureOf(clauses: seq<Clause>, at: seq<int>, abstractions: seq<bv32>, l: int)
    requires SignaturesOk(clauses, at, abstractions) && 0 <= l < |clauses| && l < |at| && at[l] >= 0
    ensures |abstractions| == |clauses| && abstractions[l] == Signature(clauses[l])
  {
  }

  lemma SignaturesMoved(clauses: seq<Clause>, at: seq<int>, abstractions: seq<bv32>, l: int, f: int)
    requires SignaturesOk(clauses, at, abstractions) && 0 <= l < |clauses| && l < |at| && at[l] >= 0
    ensures SignaturesOk(clauses, at[l := f], abstractions)
  {
  }

  lemma MarksAfterPush(st: Store, l: int, marks: seq<bool>)
    requires st.Live(l) && 0 <= st.at[l] && st.at[l] + 1 < |st.frames|
    requires forall e :: e in st.frames[st.at[l] + 1] ==> st.Live(e) && st.at[e] == st.at[l] + 1
    requires Marked(st.clauses, st.subsumed, marks, st.frames[st.at[l] + 1], st.clauses[l])
    ensures |marks| == |st.subsumed| == |st.clauses|
    ensures forall a :: st.Live(a) && marks[a] && !st.subsumed[a] ==>
              st.at[a] == st.at[l] + 1 && |st.clauses[l]| < |st.clauses[a]| && Subset(st.clauses[l], st.clauses[a])
    ensures forall a :: st.Live(a) && st.subsumed[a] ==> marks[a]
  {
  }

  lemma CoreImpliesAlways(g: Circuit, st: Store, frame: nat, acts: set<int>, c: Clause, core: set<LLit>)
    requires forall a :: a in acts ==> st.Live(a) && st.at[a] >= frame
    requires Refutes(g, st.clauses, acts, [], [], core) && LitsOk(g, c)
    requires forall l :: l in core ==> l in NotAll(c)
    ensures Implies(g, st, frame, c)
  {
    CoreImplies(g, st, frame, acts, [], c, core);
  }

  lemma PushReady(g: Circuit, st: Store, l: int)
    requires Core(g, st) && st.Live(l)
    ensures |st.clauses| == |st.at| == |st.subsumed| && Sized(g, st) && LitsOk(g, st.clauses[l])
  {
  }

  lemma MarksKeepLayout(st: Store, marks: seq<bool>, f: nat, i: nat, j: nat)
    requires Compacting(st, f, i, j)
    ensures Compacting(st.(subsumed := marks), f, i, j)
  {
    var st' := st.(subsumed := marks);
    assert forall a :: st.Live(a) <==> st'.Live(a);
  }

  /** A model of the query about clause `l` of frame `f` is a step that leaves the frame. */
  lemma KeptGrows(g: Circuit, st: Store, f: nat, l: int, s: State, x: seq<bool>)
    requires Sized(g, st) && st.Live(l) && st.at[l] == f
    requires IsState(g, s) && IsInput(g, x) && FrameHolds(st, f, s) && InCube(NotAll(st.clauses[l]), Next(g, s, x))
    ensures Grows(g, st, f) && !Implies(g, st, f, st.clauses[l])
  {
    NotAllMeaning(g, st.clauses[l], Next(g, s, x));
  }

  lemma SameGrows(g: Circuit, st: Store, st': Store, f: int)
    requires StableUpTo(st, st', f) && Grows(g, st, f)
    ensures Grows(g, st', f)
  {
    var s, x :| IsState(g, s) && IsInput(g, x) && FrameHolds(st, f, s) && !FrameHolds(st, f, Next(g, s, x));
    assert FrameHolds(st', f, s) && !FrameHolds(st', f, Next(g, s, x));
  }

  lemma LayoutEntry(st: Store, f: nat, i: nat, j: nat)
    requires f < |st.frames| && Compacting(st, f, i, j) && j < |st.frames[f]|
    ensures i <= j
    ensures var l := st.frames[f][j]; st.Live(l) && st.at[l] == f
  {
  }

  lemma NextFrameLive(st: Store, f: nat, i: nat, j: nat)
    requires Compacting(st, f, i, j) && f + 1 < |st.frames|
    ensures forall e :: e in st.frames[f + 1] ==> st.Live(e) && st.at[e] == f + 1
  {
  }

  lemma NextFrameMembers(st: Store, f: nat, i: nat, j: nat)
    requires Compacting(st, f, i, j) && f + 1 < |st.frames| && |st.clauses| == |st.at|
    ensures forall e :: 0 <= e < |st.clauses| ==> (e in st.frames[f + 1] <==> st.at[e] == f + 1)
  {
    forall e | 0 <= e < |st.clauses| ensures e in st.frames[f + 1] <==> st.at[e] == f + 1 {
      if st.at[e] == f + 1 { assert st.Live(e); }
    }
  }

  lemma StartSweep(g: Circuit, st: Store, f: nat, es: seq<int>)
    requires Core(g, st) && Exact(st) && f < |st.frames| && forall e :: e in es <==> e in st.frames[f]
    requires forall j, k :: 0 <= j < k < |es| ==> 0 <= es[j] < |st.clauses| && 0 <= es[k] < |st.clauses| ==>
               |st.clauses[es[j]]| <= |st.clauses[es[k]]|
    ensures Swept(g, st, st.(frames := st.frames[f := es]), f, Elements(es[..0]))
    ensures Shortest(st.clauses, es) && forall e :: e in es ==> st.Live(e) && st.at[e] == f
  {
    EntriesLive(st, f);
    assert Elements(es[..0]) == {};
    SweptStart(g, st, f, st.frames[f := es]);
  }

  lemma SameElements(es: seq<int>, ds: seq<int>)
    requires forall e :: e in es <==> e in ds
    ensures Elements(es) == Elements(ds)
  {
    forall e ensures e in Elements(es) <==> e in Elements(ds) {}
  }

  lemma EndSweep(g: Circuit, st0: Store, st1: Store, st: Store, f: nat, es: seq<int>)
    requires Swept(g, st0, st1, f, Elements(es[..|es|])) && st == st1.(frames := st.frames) && StableUpTo(st0, st, f)
    requires Listed(st0) && f < |st0.frames| && forall e :: e in es <==> e in st0.frames[f]
    ensures Swept(g, st0, st, f, Elements(st0.frames[f])) && Stuck(g, st, f)
  {
    hide StableUpTo;
    assert es[..|es|] == es;
    SameElements(es, st0.frames[f]);
    SweptFrames(g, st0, st1, f, Elements(es), st.frames);
    SweptStuck(g, st0, st, f, Elements(es));
  }

  lemma StartCleaning(g: Circuit, st: Store, f: nat, es: seq<int>)
    requires Core(g, st) && Exact(st) && f < |st.frames| && forall e :: e in es <==> e in st.frames[f]
    requires forall j, k :: 0 <= j < k < |es| ==> 0 <= es[j] < |st.clauses| && 0 <= es[k] < |st.clauses| ==>
               |st.clauses[es[j]]| <= |st.clauses[es[k]]|
    ensures Cleaned(st, st.(frames := st.frames[f := es]), Elements(es), Elements(es[..0]))
    ensures Shortest(st.clauses, es) && forall e :: e in es ==> st.Live(e) && st.at[e] == f
  {
    EntriesLive(st, f);
    assert Elements(es[..0]) == {};
    CleanedStart(st, st.frames[f := es], Elements(es));
  }

  lemma EndCleaning(st0: Store, st1: Store, st: Store, f: nat, es: seq<int>)
    requires Cleaned(st0, st1, Elements(es), Elements(es[..|es|])) && st == st1.(frames := st.frames)
    requires |st.frames| == |st0.frames| && f == st0.Depth() && Listed(st0) && forall e :: e in es <==> e in st0.frames[f]
    ensures var all := Elements(st0.frames[f]); Cleaned(st0, st, all, all) && Clean(st)
  {
    assert es[..|es|] == es;
    SameElements(es, st0.frames[f]);
    CleanedFrames(st0, st1, Elements(es), Elements(es), st.frames);
    CleanedClean(st0, st, Elements(es));
  }

  lemma AllStuckStay(g: Circuit, st: Store, st': Store, f: nat)
    requires Exact(st) && f < |st.frames| && Swept(g, st, st', f, Elements(st.frames[f])) && StableUpTo(st, st', f)
    ensures forall k :: k < f && Stuck(g, st, k) ==> Stuck(g, st', k)
  {
    hide Swept, Stuck, StableUpTo;
    EntriesLive(st, f);
    forall k | k < f && Stuck(g, st, k) ensures Stuck(g, st', k) { StuckStays(g, st, st', f, Elements(st.frames[f]), k); }
  }

  lemma AllStuckBefore(g: Circuit, st: Store, st': Store)
    requires Exact(st) && |st.frames| > 0 && SameFrames(st, st')
    requires var all := Elements(st.frames[st.Depth()]); Cleaned(st, st', all, all)
    ensures forall k :: k < st.Depth() && Stuck(g, st, k) ==> Stuck(g, st', k)
  {
    hide Cleaned, Stuck, SameFrames;
    var all := Elements(st.frames[st.Depth()]);
    EntriesLive(st, st.Depth());
    forall k | k < st.Depth() && Stuck(g, st, k) ensures Stuck(g, st', k) { StuckBefore(g, st, st', all, k); }
  }

  lemma EntriesLive(st: Store, j: nat)
    requires Exact(st) && j < |st.frames|
    ensures forall e :: e in st.frames[j] ==> st.Live(e) && st.at[e] == j
  {
  }

  lemma InstallReady(g: Circuit, st: Store, c: Clause, f: nat)
    requires Core(g, st) && f < |st.frames| && LitsOk(g, c)
    requires exists l :: l in c && SatisfiesReset(g, l)
    requires f > 0 ==> RelativelyInductive(g, st, f - 1, c)
    ensures Sized(g, Added(st, c, f, st.frames)) && |st.clauses| == |st.at| == |st.subsumed|
  {
    AddReady(g, st, c, f, st.frames);
  }

  lemma AddReady(g: Circuit, st: Store, c: Clause, f: nat, frames: seq<seq<int>>)
    requires Core(g, st) && f < |st.frames| == |frames| && LitsOk(g, c)
    requires exists l :: l in c && SatisfiesReset(g, l)
    requires f > 0 ==> RelativelyInductive(g, st, f - 1, c)
    ensures Core(g, Added(st, c, f, frames))
  {
    ResetClause(g, c);
    AddKeeps(g, st, c, f, frames);
  }

  /** Marking the super-clauses in the frame of a new clause and listing the clause restores the invariant. */
  lemma InstallKeeps(g: Circuit, st: Store, c: Clause, f: nat, marks: seq<bool>)
    requires Core(g, st) && Listed(st) && Exact(st) && f < |st.frames| && LitsOk(g, c)
    requires exists l :: l in c && SatisfiesReset(g, l)
    requires f > 0 ==> RelativelyInductive(g, st, f - 1, c)
    requires Marked(st.clauses + [c], st.subsumed + [false], marks, st.frames[f], c)
    ensures var fin := Added(st, c, f, st.frames[f := st.frames[f] + [|st.clauses|]]).(subsumed := marks);
            Core(g, fin) && Listed(fin) && Exact(fin)
  {
    var st' := Added(st, c, f, st.frames[f := st.frames[f] + [|st.clauses|]]);
    AddReady(g, st, c, f, st.frames[f := st.frames[f] + [|st.clauses|]]);
    AddLists(g, st, c, f);
    forall d | st'.Live(d) && marks[d] && !st'.subsumed[d] ensures Subsumer(st', d, |st.clauses|) {
      assert d in st.frames[f];
      assert st.Live(d) && st.at[d] == f;
    }
    MarkKeeps(g, st', |st.clauses|, marks);
    var fin := st'.(subsumed := marks);
    forall a ensures st'.Live(a) <==> fin.Live(a) {}
  }

  lemma RaisedSize(before: seq<nat>, after: seq<nat>, c: Clause)
    requires Raised(before, after, c)
    ensures |after| == |before|
  {
  }

  lemma ImpliedInductive(g: Circuit, st: Store, frame: int, c: Clause)
    requires Implies(g, st, frame, c)
    ensures RelativelyInductive(g, st, frame, c)
  {
  }

  lemma StartGeneralizing(g: Circuit, st: Store, frame: nat, c: Clause, inC: seq<Slot>, out: seq<Slot>)
    requires LitsOk(g, c) && Implies(g, st, frame, c) && (exists l :: l in c && SatisfiesReset(g, l))
    requires inC == seq(|c|, i requires 0 <= i < |c| => SLit(c[i]))
    requires out == seq(|c|, i requires 0 <= i < |c| => SLit(Not(c[i])))
    ensures Aligned(c, inC, out) && ResetCount(g, out) >= 1
    ensures Implies(g, st, frame, Kept(out)) && RelativelyInductive(g, st, frame, Kept(out))
  {
    var k :| 0 <= k < |c| && SatisfiesReset(g, c[k]);
    ResetCountStart(g, c, k);
    forall l | l in c ensures l in Kept(out) {
      var i :| 0 <= i < |c| && c[i] == l;
      assert AtSlot(out, Not(l), i);
      KeptMember(out, l);
    }
    forall s, x | IsState(g, s) && IsInput(g, x) && FrameHolds(st, frame, s) ensures SatClause(Kept(out), Next(g, s, x)) {
      SubclauseSat(c, Kept(out), Next(g, s, x));
    }
  }

  /** A query about the negated clause that is refuted from later clauses shows that the frame implies the clause. */
  lemma CoreImplies(g: Circuit, st: Store, frame: nat, acts: set<int>, hyps: seq<Clause>, c: Clause, core: set<LLit>)
    requires forall a :: a in acts ==> st.Live(a) && st.at[a] >= frame
    requires Refutes(g, st.clauses, acts, hyps, [], core) && LitsOk(g, c)
    requires forall l :: l in core ==> l in NotAll(c)
    ensures forall s, x :: IsState(g, s) && IsInput(g, x) && FrameHolds(st, frame, s) && AllHold(hyps, s) ==>
              SatClause(c, Next(g, s, x))
  {
    forall s, x | IsState(g, s) && IsInput(g, x) && FrameHolds(st, frame, s) && AllHold(hyps, s)
      ensures SatClause(c, Next(g, s, x))
    {
      assert ActsHold(st.clauses, acts, s);
      assert PropHolds(g, [], s, x);
      var l :| l in core && !Holds(l, Next(g, s, x));
      NotAllMember(c, l);
      assert Holds(Not(l), Next(g, s, x));
    }
  }

  lemma AddLists(g: Circuit, st: Store, c: Clause, f: nat)
    requires Sized(g, st) && Listed(st) && Exact(st) && f < |st.frames|
    ensures var st' := Added(st, c, f, st.frames[f := st.frames[f] + [|st.clauses|]]); Listed(st') && Exact(st')
  {
    var st' := Added(st, c, f, st.frames[f := st.frames[f] + [|st.clauses|]]);
    forall a | st'.Live(a) && st'.at[a] < |st'.frames| ensures a in st'.frames[st'.at[a]] {
      if a < |st.clauses| { assert st.Live(a); } else { assert st'.frames[f][|st.frames[f]|] == a; }
    }
    forall j, e | 0 <= j < |st'.frames| && e in st'.frames[j] ensures st'.Live(e) && st'.at[e] == j {
      if e in st.frames[j] { assert st.Live(e); }
    }
    EntriesLive(st, f);
    assert |st.clauses| !in st.frames[f];
    forall j | 0 <= j < |st'.frames| ensures Distinct(st'.frames[j]) {
      assert Distinct(st.frames[j]);
    }
  }

  lemma BlockedByNew(g: Circuit, st: Store, st': Store, cube: Clause, cube0: Clause, f: nat, max: nat)
    requires Sized(g, st) && Exact(st) && f <= max < |st.frames| && Subset(cube, cube0)
    requires st'.clauses == st.clauses + [cube] && st'.at == st.at + [max]
    requires Marked(st'.clauses, st.subsumed + [false], st'.subsumed, st.frames[max], cube)
    ensures KeepsBlocked(st, st') && Blocked(st', f, Lits(NotAll(cube0)))
    ensures forall i: int, s :: FrameHolds(st', i, s) ==> FrameHolds(st, i, s)
  {
    var n := |st.clauses|;
    assert st'.Live(n) && st'.at[n] == max && st'.clauses[n] == cube;
    forall k: int, q | Blocked(st, k, q) ensures Blocked(st', k, q) {
      var b :| st.Live(b) && b < |st.subsumed| && !st.subsumed[b] && st.at[b] >= k && Blocks(st.clauses[b], q);
      assert st'.Live(b) && st'.clauses[b] == st.clauses[b] && st'.at[b] == st.at[b];
    }
    forall l | l in cube ensures Not(l) in Lits(NotAll(cube0)) {
      NotAllMember(cube0, Not(l));
      assert Not(Not(l)) == l;
    }
    forall i: int, s | FrameHolds(st', i, s) ensures FrameHolds(st, i, s) {
      forall a | st.Live(a) && st.at[a] >= i ensures SatClause(st.clauses[a], s) {
        assert st'.Live(a) && st'.clauses[a] == st.clauses[a];
      }
    }
  }

  /** The clauses under the activation literal, old and new, are implied by the clause being tried. */
  lemma StillCovered(orig: Clause, inC: seq<Slot>, out0: seq<Slot>, out: seq<Slot>, under0: seq<Clause>, under: seq<Clause>)
    requires Aligned(orig, inC, out) && Drops(out0, out)
    requires forall h :: h in under0 ==> Subset(Kept(out0), h)
    requires under == under0 || under == under0 + Hypothesis(inC)
    ensures forall h :: h in under ==> Subset(Kept(out), h)
  {
    DropsKept(out0, out);
    HypothesisCovers(orig, inC, out);
    forall h | h in under ensures Subset(Kept(out), h) {
      if h in under0 { assert Subset(Kept(out0), h); } else { assert h in Hypothesis(inC); }
    }
  }

  /** An unsatisfiable query makes every clause between its core and the clause tried inductive relative to the frame,
      although the clauses assumed may be weaker than that clause. */
  lemma CoreInductive(g: Circuit, st: Store, frame: nat, acts: set<int>, under: seq<Clause>, tried: seq<Slot>, out: seq<Slot>,
                      core: set<LLit>)
    requires forall a :: a in acts ==> st.Live(a) && st.at[a] >= frame
    requires Refutes(g, st.clauses, acts, under, [], core)
    requires forall h :: h in under ==> Subset(Kept(tried), h)
    requires Drops(tried, out) && forall l :: l in core ==> l in Literals(out) && l.latch < |g.latches|
    ensures forall h :: h in under ==> Subset(Kept(out), h)
    ensures RelativelyInductive(g, st, frame, Kept(out))
    ensures under == [] ==> Implies(g, st, frame, Kept(out))
  {
    DropsKept(tried, out);
    forall s, x | IsState(g, s) && IsInput(g, x) && FrameHolds(st, frame, s) && (under == [] || SatClause(Kept(out), s))
      ensures SatClause(Kept(out), Next(g, s, x))
    {
      forall h | h in under ensures SatClause(h, s) { SubclauseSat(Kept(out), h, s); }
      assert ActsHold(st.clauses, acts, s);
      assert PropHolds(g, [], s, x);
      var l :| l in core && !Holds(l, Next(g, s, x));
      CoreLiteral(g, out, l, Next(g, s, x));
    }
  }

  lemma CoreLiteral(g: Circuit, out: seq<Slot>, l: LLit, t: State)
    requires l in Literals(out) && l.latch < |t| && !Holds(l, t)
    ensures SatClause(Kept(out), t)
  {
    NotAllMember(Literals(out), Not(l));
    assert Not(Not(l)) == l;
    assert Not(l) in Kept(out) && Holds(Not(l), t);
  }

  /** `keep` flags the latches of the core literals at position `i` or later. */
  ghost predicate FlagsAre(g: Circuit, keep: seq<bool>, core: set<LLit>, out: seq<Slot>, i: nat) {
    && |keep| == |g.latches|
    && forall t :: 0 <= t < |keep| ==>
         (keep[t] <==> exists k :: i <= k < |out| && out[k].SLit? && out[k].l in core && out[k].l.latch == t)
  }

  /** The first `i` slots have been trimmed: core literals stay, and of the others at most the last one that holds on
      reset, if nothing else does. */
  ghost predicate Trimmed(g: Circuit, core: set<LLit>, out0: seq<Slot>, out: seq<Slot>, i: nat) {
    && Drops(out0, out)
    && (forall k :: i <= k < |out| ==> out[k] == out0[k])
    && (forall k :: 0 <= k < |out| && out0[k].SLit? && out0[k].l in core ==> out[k] == out0[k])
    && forall k :: 0 <= k < i && k < |out| && out[k].SLit? && out[k].l !in core ==> LastReset(g, out0, out, k)
  }

  ghost predicate Trim(g: Circuit, core: set<LLit>, orig: Clause, out0: seq<Slot>, inC: seq<Slot>, out: seq<Slot>,
                       numSat: int, i: nat)
  {
    Aligned(orig, inC, out) && Trimmed(g, core, out0, out, i) && numSat == ResetCount(g, out) && numSat >= 1
  }

  lemma TrimStart(g: Circuit, core: set<LLit>, orig: Clause, out: seq<Slot>, inC: seq<Slot>, numSat: int)
    requires Aligned(orig, inC, out) && numSat == ResetCount(g, out) && numSat >= 1
    ensures Trim(g, core, orig, out, inC, out, numSat, 0)
  {
  }

  lemma TrimEnd(g: Circuit, keep: seq<bool>, core: set<LLit>, orig: Clause, out0: seq<Slot>, inC: seq<Slot>, out: seq<Slot>,
                numSat: int)
    requires Trim(g, core, orig, out0, inC, out, numSat, |out0|) && FlagsAre(g, keep, core, out0, |out0|)
    requires forall l :: l in core ==> l in Literals(out0)
    ensures Aligned(orig, inC, out) && Drops(out0, out) && numSat == ResetCount(g, out) && numSat >= 1
    ensures forall l :: l in core ==> l in Literals(out)
    ensures Tight(g, core, out0, out)
    ensures |keep| == |g.latches| && forall t :: 0 <= t < |keep| ==> !keep[t]
  {
    CoreStays(g, core, out0, out);
  }

  /** Slot `i` is still as it was, and may be left alone if it is no literal or a core literal. */
  lemma TrimSlot(g: Circuit, core: set<LLit>, orig: Clause, out0: seq<Slot>, inC: seq<Slot>, out: seq<Slot>,
                 numSat: int, i: nat)
    requires Trim(g, core, orig, out0, inC, out, numSat, i) && i < |out0|
    ensures |out0| == |out| == |inC| && out[i] == out0[i] && numSat >= 1
    ensures (out[i].SLit? ==> out[i].l in core) ==> Trim(g, core, orig, out0, inC, out, numSat, i + 1)
  {
    hide LastReset;
  }

  /** The only literal left that holds on reset may be left alone as well; no later one does. */
  lemma TrimKeep(g: Circuit, core: set<LLit>, orig: Clause, out0: seq<Slot>, inC: seq<Slot>, out: seq<Slot>,
                 numSat: int, i: nat)
    requires Trim(g, core, orig, out0, inC, out, numSat, i) && i < |out0|
    requires out[i].SLit? && SatisfiesReset(g, Not(out[i].l)) && numSat == 1
    ensures Trim(g, core, orig, out0, inC, out, numSat, i + 1)
  {
    forall m | i < m < |out0| && out0[m].SLit? ensures !SatisfiesReset(g, Not(out0[m].l)) {
      if SatisfiesReset(g, Not(out0[m].l)) { TwoResets(g, out, i, m); }
    }
    assert LastReset(g, out0, out, i);
  }

  lemma TrimDrop(g: Circuit, core: set<LLit>, orig: Clause, out0: seq<Slot>, inC: seq<Slot>, out: seq<Slot>,
                 numSat: int, i: nat)
    requires Trim(g, core, orig, out0, inC, out, numSat, i) && i < |out| && out[i].SLit? && out[i].l !in core
    requires !(SatisfiesReset(g, Not(out[i].l)) && numSat == 1)
    ensures Trim(g, core, orig, out0, inC[i := STrue], out[i := STrue],
                 if SatisfiesReset(g, Not(out[i].l)) then numSat - 1 else numSat, i + 1)
  {
    ResetCountDrop(g, out, i);
    forall k | 0 <= k < i && out[i := STrue][k].SLit? && out[k].l !in core ensures LastReset(g, out0, out[i := STrue], k) {
      assert LastReset(g, out0, out, k);
    }
  }

  lemma CoreStays(g: Circuit, core: set<LLit>, out0: seq<Slot>, out: seq<Slot>)
    requires Trimmed(g, core, out0, out, |out|) && forall l :: l in core ==> l in Literals(out0)
    ensures forall l :: l in core ==> l in Literals(out)
  {
    forall l | l in core ensures l in Literals(out) {
      LiteralsMember(out0, l);
      var k :| AtSlot(out0, l, k);
      assert AtSlot(out, l, k);
      LiteralsMember(out, l);
    }
  }

  /** A flag decides whether the literal of a slot is in the core, and clearing it moves on by one slot. */
  lemma FlagOfSlot(g: Circuit, keep: seq<bool>, core: set<LLit>, orig: Clause, inC: seq<Slot>, out: seq<Slot>, i: nat)
    requires LitsOk(g, orig) && Aligned(orig, inC, out) && i < |out| && FlagsAre(g, keep, core, out, i)
    ensures out[i].SLit? ==> out[i].l.latch < |keep| && (keep[out[i].l.latch] <==> out[i].l in core)
    ensures out[i].SLit? && keep[out[i].l.latch] ==> FlagsAre(g, keep[out[i].l.latch := false], core, out, i + 1)
    ensures (out[i].SLit? && keep[out[i].l.latch]) || FlagsAre(g, keep, core, out, i + 1)
  {
    if !out[i].SLit? { return; }
    var t := out[i].l.latch;
    assert orig[i] in orig;
    forall k | i < k < |out| && out[k].SLit? ensures out[k].l.latch != t {}
  }

  lemma NotAllOk(g: Circuit, q: seq<LLit>)
    requires LitsOk(g, q)
    ensures LitsOk(g, NotAll(q))
  {
    forall l | l in NotAll(q) ensures l.latch < |g.latches| {
      NotAllMember(q, l);
    }
  }

  lemma BlocksIffSubset(q: seq<LLit>, c: Clause)
    ensures Blocks(c, Lits(q)) <==> Subset(c, NotAll(q))
  {
    forall l ensures l in NotAll(q) <==> Not(l) in q { NotAllMember(q, l); }
  }

  ghost predicate NoneBlocks(st: Store, es: seq<int>, q: set<LLit>) {
    forall e :: e in es && 0 <= e < |st.clauses| && e < |st.subsumed| && !st.subsumed[e] ==> !Blocks(st.clauses[e], q)
  }

  lemma NoneBlocksStart(st: Store, q: set<LLit>)
    ensures NoneBlocks(st, [], q)
  {
  }

  lemma NoneBlocksNext(st: Store, es: seq<int>, i: nat, q: set<LLit>)
    requires i < |es| && NoneBlocks(st, es[..i], q)
    requires 0 <= es[i] < |st.clauses| && es[i] < |st.subsumed| && !st.subsumed[es[i]] ==> !Blocks(st.clauses[es[i]], q)
    ensures NoneBlocks(st, es[..i + 1], q)
  {
    assert es[..i + 1] == es[..i] + [es[i]];
  }

  lemma FoundBlocking(st: Store, f: int, b: int, q: set<LLit>)
    requires st.Live(b) && b < |st.subsumed| && !st.subsumed[b] && st.at[b] >= f && Blocks(st.clauses[b], q)
    ensures Blocked(st, f, q)
  {
  }

  lemma NotBlockedHere(st: Store, f: int, q: set<LLit>)
    requires 0 <= f < |st.frames| && Listed(st) && |st.subsumed| == |st.clauses|
    requires !Blocked(st, f + 1, q)
    requires NoneBlocks(st, st.frames[f], q)
    ensures !Blocked(st, f, q)
  {
  }
}
