/** The delta-encoded frames of the IC3 engine as a value, their meaning as state sets, and what every elementary
    change of the clause store does to that meaning. */
module Frames {
  import opened Lbools
  import opened Aigs

  /** A literal over a latch. As an "in" literal it speaks of the current state, as an "out" literal of the next. */
  datatype LLit = LLit(latch: nat, neg: bool)

  function Not(l: LLit): LLit { LLit(l.latch, !l.neg) }

  type Clause = seq<LLit>

  predicate Holds(l: LLit, s: State) {
    l.latch < |s| && s[l.latch] != l.neg
  }

  predicate SatClause(c: Clause, s: State) {
    exists l :: l in c && Holds(l, s)
  }

  predicate InCube(q: seq<LLit>, s: State) {
    forall l :: l in q ==> Holds(l, s)
  }

  function NotAll(c: seq<LLit>): (q: seq<LLit>)
    ensures |q| == |c|
    ensures forall k :: 0 <= k < |c| ==> q[k] == Not(c[k])
  {
    seq(|c|, k requires 0 <= k < |c| => Not(c[k]))
  }

  /** Literals over the circuit's latches, at most one for each latch. */
  ghost predicate LitsOk(g: Circuit, c: seq<LLit>) {
    && (forall l :: l in c ==> l.latch < |g.latches|)
    && forall j, k :: 0 <= j < k < |c| ==> c[j].latch != c[k].latch
  }

  ghost predicate Subset(c: seq<LLit>, d: seq<LLit>) {
    forall l :: l in c ==> l in d
  }

  lemma NotAllMember(c: seq<LLit>, l: LLit)
    ensures l in NotAll(c) <==> Not(l) in c
  {
    if Not(l) in c {
      var k :| 0 <= k < |c| && c[k] == Not(l);
      assert NotAll(c)[k] == l;
    }
  }

  /** A state is outside a cube exactly when it satisfies the negated clause. */
  lemma NotAllMeaning(g: Circuit, c: seq<LLit>, s: State)
    requires LitsOk(g, c) && IsState(g, s)
    ensures SatClause(c, s) <==> !InCube(NotAll(c), s)
  {
    if SatClause(c, s) {
      var l :| l in c && Holds(l, s);
      NotAllMember(c, Not(l));
    } else {
      forall l | l in NotAll(c) ensures Holds(l, s) {
        NotAllMember(c, l);
        assert !Holds(Not(l), s);
      }
    }
  }

  /** The literal is true in every reset state. */
  predicate SatisfiesReset(g: Circuit, l: LLit) {
    l.latch < |g.latches| && g.latches[l.latch].reset == FromBool(!l.neg)
  }

  /** A clause holds in every reset state exactly when one of its literals is forced by the reset values. */
  lemma ResetClause(g: Circuit, c: Clause)
    requires LitsOk(g, c)
    ensures (forall s :: IsReset(g, s) ==> SatClause(c, s)) <==> exists l :: l in c && SatisfiesReset(g, l)
  {
    if l :| l in c && SatisfiesReset(g, l) {
      forall s | IsReset(g, s) ensures SatClause(c, s) { assert Holds(l, s); }
    } else {
      var s := ResetAvoiding(g, c);
    }
  }

  /** A reset state that falsifies `c` as far as the reset values allow. */
  ghost function ResetAvoiding(g: Circuit, c: Clause): (s: State)
    requires LitsOk(g, c) && !exists l :: l in c && SatisfiesReset(g, l)
    ensures IsReset(g, s) && !SatClause(c, s)
  {
    var s := seq(|g.latches|, i requires 0 <= i < |g.latches| =>
      match g.latches[i].reset
      case LTrue => true
      case LFalse => false
      case LUndef => LLit(i, true) in c);
    assert forall l :: l in c ==> Not(l) !in c by {
      forall l | l in c ensures Not(l) !in c {}
    }
    assert forall l :: l in c && Holds(l, s) ==> Not(l) in c || SatisfiesReset(g, l);
    s
  }

  // ---------- the clause store ----------

  /** `frames[i]` lists the clauses of frame i by number (-1 stands for the constant true that replaces a released
      clause); `at` is the frame of every clause, -1 for a released one. */
  datatype Store = Store(frames: seq<seq<int>>, clauses: seq<Clause>, at: seq<int>, subsumed: seq<bool>)
  {
    ghost predicate Live(a: int) {
      0 <= a < |clauses| && a < |at| && at[a] >= 0
    }

    function Depth(): int { |frames| - 1 }
  }

  /** F_i: the conjunction of the clauses of frame i and all later frames. */
  ghost predicate FrameHolds(st: Store, i: int, s: State) {
    forall a :: st.Live(a) && st.at[a] >= i ==> SatClause(st.clauses[a], s)
  }

  ghost predicate Distinct(es: seq<int>) {
    forall j, k :: 0 <= j < k < |es| ==> es[j] != es[k]
  }

  ghost predicate Sized(g: Circuit, st: Store) {
    && |st.clauses| == |st.at| == |st.subsumed| && |st.frames| > 0
    && (forall a :: st.Live(a) ==> st.at[a] < |st.frames| && st.clauses[a] != [] && LitsOk(g, st.clauses[a]))
  }

  /** Every live clause is listed in its frame. */
  ghost predicate Listed(st: Store) {
    forall a :: st.Live(a) && st.at[a] < |st.frames| ==> a in st.frames[st.at[a]]
  }

  /** Entries are live and at least as late as the frame that lists them, or the constant true. */
  ghost predicate Safe(st: Store) {
    forall j, e {:trigger e in st.frames[j]} ::
      0 <= j < |st.frames| && e in st.frames[j] ==> e == -1 || (st.Live(e) && st.at[e] >= j)
  }

  /** Entries are exactly the live clauses of the frame, once each. */
  ghost predicate Exact(st: Store) {
    && (forall j, e {:trigger e in st.frames[j]} ::
          0 <= j < |st.frames| && e in st.frames[j] ==> st.Live(e) && st.at[e] == j)
    && forall j :: 0 <= j < |st.frames| ==> Distinct(st.frames[j])
  }

  /** Clause `a` follows in one step from the frame before its own. */
  ghost predicate Pushed(g: Circuit, st: Store, a: int)
    requires st.Live(a)
  {
    st.at[a] > 0 ==> forall s, x :: IsState(g, s) && IsInput(g, x) && FrameHolds(st, st.at[a] - 1, s) ==>
      SatClause(st.clauses[a], Next(g, s, x))
  }

  /** F_0 contains nothing but reset states. */
  ghost predicate StartsAtReset(g: Circuit, st: Store) {
    forall s :: IsState(g, s) && FrameHolds(st, 0, s) ==> IsReset(g, s)
  }

  ghost predicate HoldsOnReset(g: Circuit, st: Store) {
    forall a, s :: st.Live(a) && IsReset(g, s) ==> SatClause(st.clauses[a], s)
  }

  ghost predicate AllPushed(g: Circuit, st: Store) {
    forall a :: st.Live(a) ==> Pushed(g, st, a)
  }

  ghost predicate Meaning(g: Circuit, st: Store) {
    HoldsOnReset(g, st) && AllPushed(g, st)
  }

  /** `b` is live, unmarked, at the same frame or later, and a proper sub-clause of `a`. */
  ghost predicate Subsumer(st: Store, a: int, b: int) {
    && st.Live(a) && st.Live(b) && |st.subsumed| == |st.clauses| && !st.subsumed[b] && st.at[b] >= st.at[a]
    && |st.clauses[b]| < |st.clauses[a]| && Subset(st.clauses[b], st.clauses[a])
  }

  ghost predicate MarksOk(st: Store)
    requires |st.subsumed| == |st.clauses|
  {
    forall a :: st.Live(a) && st.subsumed[a] ==> exists b :: Subsumer(st, a, b)
  }

  lemma FrameMonotone(st: Store, i: int, j: int, s: State)
    requires i <= j && FrameHolds(st, i, s)
    ensures FrameHolds(st, j, s)
  {
  }

  /** F_i and T imply F_{i+1} on next states. */
  lemma StepsForward(g: Circuit, st: Store, i: nat, s: State, x: seq<bool>)
    requires Sized(g, st) && Meaning(g, st)
    requires IsState(g, s) && IsInput(g, x) && FrameHolds(st, i, s)
    ensures FrameHolds(st, i + 1, Next(g, s, x))
  {
    forall a | st.Live(a) && st.at[a] >= i + 1 ensures SatClause(st.clauses[a], Next(g, s, x)) {
      FrameMonotone(st, i, st.at[a] - 1, s);
      assert Pushed(g, st, a);
    }
  }

  /** Every frame contains the reset states. */
  lemma ResetInFrames(g: Circuit, st: Store, s: State)
    requires Meaning(g, st) && IsReset(g, s)
    ensures forall i: int :: FrameHolds(st, i, s)
  {
  }

  /** Every state reached in k steps is in frame k, as long as there is one. */
  lemma {:induction false} ReachableInFrame(g: Circuit, st: Store, trace: seq<State>, xs: seq<seq<bool>>, k: nat)
    requires Sized(g, st) && Meaning(g, st) && IsRun(g, trace, xs) && k < |trace|
    ensures FrameHolds(st, k, trace[k])
  {
    if k == 0 {
      ResetInFrames(g, st, trace[0]);
    } else {
      ReachableInFrame(g, st, trace, xs, k - 1);
      StepsForward(g, st, k - 1, trace[k - 1], xs[k - 1]);
      assert trace[k - 1 + 1] == Next(g, trace[k - 1], xs[k - 1]);
    }
  }

  // ---------- elementary changes ----------

  /** The frame invariant without the frame lists. */
  ghost predicate Core(g: Circuit, st: Store) {
    Sized(g, st) && Meaning(g, st) && MarksOk(st)
  }

  ghost predicate SameFrames(st: Store, st': Store) {
    forall i: int, s :: FrameHolds(st, i, s) <==> FrameHolds(st', i, s)
  }

  /** Deactivating clause `a`, in every field but the frame lists. */
  function Released(st: Store, a: int, frames: seq<seq<int>>): Store
    requires 0 <= a < |st.clauses| == |st.at| == |st.subsumed|
  {
    Store(frames, st.clauses[a := []], st.at[a := -1], st.subsumed[a := false])
  }

  lemma SubclauseSat(c: Clause, d: Clause, s: State)
    requires Subset(c, d) && SatClause(c, s)
    ensures SatClause(d, s)
  {
  }

  /** The unmarked sub-clause of a marked clause may itself be reached through other marked ones, but dropping the
      marked clause changes no frame. */
  lemma ReleaseSameFrames(g: Circuit, st: Store, a: int, frames: seq<seq<int>>)
    requires Sized(g, st) && MarksOk(st) && st.Live(a) && st.subsumed[a] && |frames| == |st.frames|
    ensures SameFrames(st, Released(st, a, frames))
  {
    var st' := Released(st, a, frames);
    var b :| Subsumer(st, a, b);
    forall i: int, s ensures FrameHolds(st, i, s) <==> FrameHolds(st', i, s) {
      if FrameHolds(st, i, s) {
        forall d | st'.Live(d) && st'.at[d] >= i ensures SatClause(st'.clauses[d], s) {
          assert st.Live(d) && st.at[d] >= i;
        }
      }
      if FrameHolds(st', i, s) {
        forall d | st.Live(d) && st.at[d] >= i ensures SatClause(st.clauses[d], s) {
          if d == a {
            assert st'.Live(b) && st'.at[b] >= i && st'.clauses[b] == st.clauses[b];
            SubclauseSat(st.clauses[b], st.clauses[a], s);
          } else {
            assert st'.Live(d) && st'.at[d] >= i;
          }
        }
      }
    }
  }

  lemma ReleaseKeeps(g: Circuit, st: Store, a: int, frames: seq<seq<int>>)
    requires Core(g, st) && st.Live(a) && st.subsumed[a] && |frames| == |st.frames|
    ensures Core(g, Released(st, a, frames)) && SameFrames(st, Released(st, a, frames))
  {
    var st' := Released(st, a, frames);
    ReleaseSameFrames(g, st, a, frames);
    ReleaseMarks(g, st, a, frames);
    forall d | st'.Live(d) ensures Pushed(g, st', d) {
      assert st.Live(d) && Pushed(g, st, d);
    }
    forall d, s | st'.Live(d) && IsReset(g, s) ensures SatClause(st'.clauses[d], s) { assert st.Live(d); }
  }

  /** F_f and T imply clause `c` on next states. */
  ghost predicate Implies(g: Circuit, st: Store, f: int, c: Clause) {
    forall s, x :: IsState(g, s) && IsInput(g, x) && FrameHolds(st, f, s) ==> SatClause(c, Next(g, s, x))
  }

  function MovedTo(st: Store, a: int, f: int, frames: seq<seq<int>>): Store
    requires 0 <= a < |st.at|
  {
    st.(frames := frames, at := st.at[a := f])
  }

  /** Moving a clause to a later frame leaves the earlier frames as they are and shrinks the ones in between. */
  lemma MoveFrames(st: Store, a: int, f: int, frames: seq<seq<int>>, i: int, s: State)
    requires st.Live(a) && |st.clauses| == |st.at| && f >= st.at[a]
    ensures i <= st.at[a] || i > f ==> (FrameHolds(MovedTo(st, a, f, frames), i, s) <==> FrameHolds(st, i, s))
    ensures FrameHolds(MovedTo(st, a, f, frames), i, s) ==> FrameHolds(st, i, s)
  {
    var st' := MovedTo(st, a, f, frames);
    assert forall d :: st.Live(d) <==> st'.Live(d);
    if i <= st.at[a] || i > f { assert forall d :: st.Live(d) ==> (st.at[d] >= i <==> st'.at[d] >= i); }
    assert forall d :: st.Live(d) && st.at[d] >= i ==> st'.at[d] >= i;
  }

  lemma ReleaseMarks(g: Circuit, st: Store, a: int, frames: seq<seq<int>>)
    requires Sized(g, st) && MarksOk(st) && st.Live(a) && st.subsumed[a] && |frames| == |st.frames|
    ensures Sized(g, Released(st, a, frames)) && MarksOk(Released(st, a, frames))
  {
    var st' := Released(st, a, frames);
    forall d | st'.Live(d) && st'.subsumed[d] ensures exists b :: Subsumer(st', d, b) {
      assert st.Live(d);
      var b :| Subsumer(st, d, b);
      assert Subsumer(st', d, b);
    }
  }

  lemma MoveMarks(g: Circuit, st: Store, a: int, f: int, frames: seq<seq<int>>)
    requires Sized(g, st) && MarksOk(st) && st.Live(a) && !st.subsumed[a]
    requires st.at[a] <= f < |st.frames| == |frames|
    ensures Sized(g, MovedTo(st, a, f, frames)) && MarksOk(MovedTo(st, a, f, frames))
  {
    var st' := MovedTo(st, a, f, frames);
    forall d | st'.Live(d) && st'.subsumed[d] ensures exists b :: Subsumer(st', d, b) {
      assert st.Live(d);
      var b :| Subsumer(st, d, b);
      assert Subsumer(st', d, b);
    }
  }

  lemma PushedAfterMove(g: Circuit, st: Store, a: int, frames: seq<seq<int>>, d: int)
    requires Core(g, st) && st.Live(a) && st.Live(d) && Implies(g, st, st.at[a], st.clauses[a])
    ensures Pushed(g, MovedTo(st, a, st.at[a] + 1, frames), d)
  {
    var st' := MovedTo(st, a, st.at[a] + 1, frames);
    assert Pushed(g, st, d);
    if st'.at[d] > 0 {
      forall s, x | IsState(g, s) && IsInput(g, x) && FrameHolds(st', st'.at[d] - 1, s)
        ensures SatClause(st'.clauses[d], Next(g, s, x))
      {
        MoveFrames(st, a, st.at[a] + 1, frames, st'.at[d] - 1, s);
      }
    }
  }

  lemma MoveKeepsReset(g: Circuit, st: Store, a: int, f: int, frames: seq<seq<int>>)
    requires Core(g, st) && st.Live(a) && f >= st.at[a]
    ensures HoldsOnReset(g, MovedTo(st, a, f, frames))
  {
    var st' := MovedTo(st, a, f, frames);
    forall d, s | st'.Live(d) && IsReset(g, s) ensures SatClause(st'.clauses[d], s) { assert st.Live(d); }
  }

  /** A clause implied on next states may be pushed one frame on. */
  lemma PushKeeps(g: Circuit, st: Store, a: int, frames: seq<seq<int>>)
    requires Core(g, st) && st.Live(a) && !st.subsumed[a] && st.at[a] + 1 < |st.frames| == |frames|
    requires Implies(g, st, st.at[a], st.clauses[a])
    ensures Core(g, MovedTo(st, a, st.at[a] + 1, frames))
  {
    var st' := MovedTo(st, a, st.at[a] + 1, frames);
    MoveMarks(g, st, a, st.at[a] + 1, frames);
    MoveKeepsReset(g, st, a, st.at[a] + 1, frames);
    forall d | st'.Live(d) ensures Pushed(g, st', d) {
      assert st.Live(d);
      PushedAfterMove(g, st, a, frames, d);
    }
  }

  /** Clause `c` is inductive relative to F_f. */
  ghost predicate RelativelyInductive(g: Circuit, st: Store, f: int, c: Clause) {
    forall s, x :: IsState(g, s) && IsInput(g, x) && FrameHolds(st, f, s) && SatClause(c, s) ==>
      SatClause(c, Next(g, s, x))
  }

  function Added(st: Store, c: Clause, f: nat, frames: seq<seq<int>>): Store {
    Store(frames, st.clauses + [c], st.at + [f], st.subsumed + [false])
  }

  lemma AddFrames(g: Circuit, st: Store, c: Clause, f: nat, frames: seq<seq<int>>, i: int, s: State)
    requires Sized(g, st)
    ensures FrameHolds(Added(st, c, f, frames), i, s) <==> FrameHolds(st, i, s) && (i <= f ==> SatClause(c, s))
  {
    var st' := Added(st, c, f, frames);
    var n := |st.clauses|;
    assert forall d :: st.Live(d) ==> st'.Live(d) && st'.at[d] == st.at[d] && st'.clauses[d] == st.clauses[d];
    assert forall d :: st'.Live(d) && d != n ==> st.Live(d);
    assert st'.Live(n) && st'.at[n] == f && st'.clauses[n] == c;
  }

  /** A clause that holds on reset states and is inductive relative to the frame before `f` may be added at `f`. */
  lemma AddKeeps(g: Circuit, st: Store, c: Clause, f: nat, frames: seq<seq<int>>)
    requires Core(g, st) && f < |st.frames| == |frames| && c != [] && LitsOk(g, c)
    requires forall s :: IsReset(g, s) ==> SatClause(c, s)
    requires f > 0 ==> RelativelyInductive(g, st, f - 1, c)
    ensures Core(g, Added(st, c, f, frames))
  {
    var st' := Added(st, c, f, frames);
    var n := |st.clauses|;
    forall d | st'.Live(d) ensures Pushed(g, st', d) && (st'.subsumed[d] ==> exists b :: Subsumer(st', d, b)) {
      if d != n { assert st.Live(d) && Pushed(g, st, d); }
      if st'.at[d] > 0 {
        forall s, x | IsState(g, s) && IsInput(g, x) && FrameHolds(st', st'.at[d] - 1, s)
          ensures SatClause(st'.clauses[d], Next(g, s, x))
        {
          AddFrames(g, st, c, f, frames, st'.at[d] - 1, s);
        }
      }
      if st'.subsumed[d] {
        var b :| Subsumer(st, d, b);
        assert Subsumer(st', d, b);
      }
    }
    forall d, s | st'.Live(d) && IsReset(g, s) ensures SatClause(st'.clauses[d], s) {
      if d != n { assert st.Live(d); }
    }
  }

  /** Marking clauses that have a proper unmarked sub-clause `a` in their frame or later keeps the invariant. */
  lemma MarkKeeps(g: Circuit, st: Store, a: int, marks: seq<bool>)
    requires Core(g, st) && st.Live(a) && !st.subsumed[a] && |marks| == |st.subsumed|
    requires forall d :: st.Live(d) && marks[d] && !st.subsumed[d] ==> Subsumer(st, d, a)
    requires forall d :: st.Live(d) && st.subsumed[d] ==> marks[d]
    ensures Core(g, st.(subsumed := marks)) && SameFrames(st, st.(subsumed := marks))
  {
    var st' := st.(subsumed := marks);
    assert forall d :: st.Live(d) <==> st'.Live(d);
    assert !marks[a] by { assert !Subsumer(st, a, a); }
    forall i: int, s ensures FrameHolds(st, i, s) <==> FrameHolds(st', i, s) {}
    forall d | st'.Live(d) ensures Pushed(g, st', d) && (st'.subsumed[d] ==> exists b :: Subsumer(st', d, b)) {
      assert Pushed(g, st, d);
      if marks[d] {
        if !st.subsumed[d] {
          assert Subsumer(st', d, a);
        } else {
          var b :| Subsumer(st, d, b);
          if marks[b] {
            assert Subsumer(st, b, a);
            assert Subsumer(st', d, a);
          } else {
            assert Subsumer(st', d, b);
          }
        }
      }
    }
  }

  // ---------- what a proof is ----------

  ghost predicate Bad(g: Circuit, prop: seq<nat>, s: State, x: seq<bool>) {
    && IsState(g, s) && IsInput(g, x)
    && forall p :: p in prop ==> Var(p) < |g.nodes| && EvalLit(g, p, s, x)
  }

  /** Some finite execution from a reset state ends in a state and input that satisfy every property literal. */
  ghost predicate CanReach(g: Circuit, prop: seq<nat>) {
    exists trace, xs :: IsRun(g, trace, xs) && Bad(g, prop, trace[|trace| - 1], xs[|xs| - 1])
  }

  /** The clauses left in the last frame hold on every reset state, are closed under T and exclude bad. */
  ghost predicate Proof(g: Circuit, prop: seq<nat>, st: Store) {
    && (forall s :: IsReset(g, s) ==> FrameHolds(st, st.Depth(), s))
    && (forall s, x :: IsState(g, s) && IsInput(g, x) && FrameHolds(st, st.Depth(), s)
          ==> FrameHolds(st, st.Depth(), Next(g, s, x)))
    && (forall s, x :: Bad(g, prop, s, x) ==> !FrameHolds(st, st.Depth(), s))
  }

  /** No frame up to the last one but one contains a bad state. */
  ghost predicate Excludes(g: Circuit, prop: seq<nat>, st: Store, i: int) {
    forall s, x :: Bad(g, prop, s, x) ==> !FrameHolds(st, i, s)
  }

  /** An empty frame makes two neighbouring frames equal; that state set is the proof. */
  lemma EmptyFrameProves(g: Circuit, prop: seq<nat>, st: Store, f: nat, fin: Store)
    requires Core(g, st) && f < st.Depth() && Excludes(g, prop, st, st.Depth() - 1)
    requires forall a :: st.Live(a) ==> st.at[a] != f
    requires forall s :: FrameHolds(fin, fin.Depth(), s) <==> FrameHolds(st, f, s)
    ensures Proof(g, prop, fin)
  {
    forall s, x | IsState(g, s) && IsInput(g, x) && FrameHolds(st, f, s) ensures FrameHolds(st, f, Next(g, s, x)) {
      StepsForward(g, st, f, s, x);
    }
    forall s, x | Bad(g, prop, s, x) ensures !FrameHolds(st, f, s) {
      if FrameHolds(st, f, s) { FrameMonotone(st, f, st.Depth() - 1, s); }
    }
    forall s | IsReset(g, s) ensures FrameHolds(st, f, s) { ResetInFrames(g, st, s); }
  }

  /** Soundness of an UNSAT answer: no run, of any length, ends in a state that some input makes bad. */
  lemma {:induction false} ProofExcludesRuns(g: Circuit, prop: seq<nat>, st: Store, trace: seq<State>, xs: seq<seq<bool>>, k: nat)
    requires Proof(g, prop, st) && IsRun(g, trace, xs) && k < |trace|
    ensures FrameHolds(st, st.Depth(), trace[k]) && forall x :: !Bad(g, prop, trace[k], x)
  {
    if k > 0 {
      ProofExcludesRuns(g, prop, st, trace, xs, k - 1);
      assert trace[k - 1 + 1] == Next(g, trace[k - 1], xs[k - 1]);
    }
  }

  // ---------- syntactic blocking ----------

  function Lits(q: seq<LLit>): set<LLit> { set l | l in q }

  /** Clause `b` rules out every state of the cube syntactically. */
  ghost predicate Blocks(c: Clause, q: set<LLit>) {
    forall l :: l in c ==> Not(l) in q
  }

  ghost predicate Blocked(st: Store, f: int, q: set<LLit>) {
    exists b :: st.Live(b) && b < |st.subsumed| && !st.subsumed[b] && st.at[b] >= f && Blocks(st.clauses[b], q)
  }

  ghost function UpTo(n: nat): (r: set<int>)
    ensures forall i :: i in r <==> 0 <= i < n
  {
    if n == 0 then {} else UpTo(n - 1) + {n - 1}
  }

  ghost function AllLits(n: nat): set<LLit> {
    (set i | 0 <= i < n :: LLit(i, false)) + (set i | 0 <= i < n :: LLit(i, true))
  }

  /** The pairs of a frame and a cube that are not yet blocked: what the obligation loop uses up. */
  ghost function Open(n: nat, st: Store): set<(int, set<LLit>)> {
    set f, q | f in UpTo(|st.frames|) && q <= AllLits(n) && !Blocked(st, f, q) :: (f, q)
  }

  /** A cube that contains a state of a frame is not blocked there. */
  lemma ModelNotBlocked(g: Circuit, st: Store, f: int, q: seq<LLit>, s: State)
    requires Sized(g, st) && FrameHolds(st, f, s) && InCube(q, s)
    ensures !Blocked(st, f, Lits(q))
  {
    forall b | st.Live(b) && st.at[b] >= f ensures !Blocks(st.clauses[b], Lits(q)) {
      var l :| l in st.clauses[b] && Holds(l, s);
      assert !Holds(Not(l), s);
    }
  }

  /** Nothing that was blocked becomes open. */
  ghost predicate KeepsBlocked(st: Store, st': Store) {
    forall f: int, q :: Blocked(st, f, q) ==> Blocked(st', f, q)
  }

  lemma OpenShrinks(n: nat, st: Store, st': Store, f: int, q: set<LLit>)
    requires |st.frames| == |st'.frames| && KeepsBlocked(st, st')
    requires 0 <= f < |st.frames| && q <= AllLits(n) && !Blocked(st, f, q) && Blocked(st', f, q)
    ensures Open(n, st') < Open(n, st)
  {
    assert (f, q) in Open(n, st) && (f, q) !in Open(n, st');
  }
}
