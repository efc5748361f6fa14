/** Shrinking a state to a cube, and turning an unsatisfiable core into a blocking clause. */
module Cubes {
  import opened Lbools
  import opened Aigs
  import opened Frames
  import opened Queries
  import opened Cones
  import opened TernarySimulation
  import opened Obligations

  /** The cube `q` contains `s`, and all its states agree with `s` on the target literals under input `x`. */
  ghost predicate Stands(g: Circuit, q: seq<LLit>, s: State, x: seq<bool>, targets: seq<nat>) {
    && LitsOk(g, q) && IsState(g, s) && IsInput(g, x) && InCube(q, s)
    && forall u, l :: IsState(g, u) && InCube(q, u) && l in targets && Var(l) < |g.nodes| ==>
         EvalLit(g, l, u, x) == EvalLit(g, l, s, x)
  }

  ghost predicate TargetsOk(g: Circuit, targets: seq<nat>) {
    forall l :: l in targets ==> Var(l) < |g.nodes|
  }

  /** `cone` contains the latches of every target's cone of influence. */
  ghost predicate CoversCones(g: Circuit, cone: seq<bool>, targets: seq<nat>) {
    && |cone| == |g.latches|
    && forall l, i :: l in targets && Var(l) < |g.nodes| && 0 <= i < |cone| && InCone(g, l, i) ==> cone[i]
  }

  /** The latch values that are left after removing the latches outside the cone. */
  function Masked(cone: seq<bool>, s: State): (ls: seq<LB>)
    requires |cone| == |s|
    ensures |ls| == |s|
  {
    seq(|s|, i requires 0 <= i < |s| => if cone[i] then FromBool(s[i]) else LUndef)
  }

  /** The literals of `s` on the latches that are still defined. */
  function CubeOf(ls: seq<LB>, s: State): seq<LLit>
    requires |ls| == |s|
  {
    if s == [] then []
    else
      var n := |s| - 1;
      CubeOf(ls[..n], s[..n]) + (if ls[n] != LUndef then [LLit(n, !s[n])] else [])
  }

  lemma {:induction false} CubeOfMember(ls: seq<LB>, s: State, l: LLit)
    requires |ls| == |s|
    ensures l in CubeOf(ls, s) <==> l.latch < |s| && ls[l.latch] != LUndef && l.neg == !s[l.latch]
  {
    if s != [] {
      CubeOfMember(ls[..|s| - 1], s[..|s| - 1], l);
    }
  }

  lemma {:induction false} CubeOfDistinct(ls: seq<LB>, s: State)
    requires |ls| == |s|
    ensures forall j, k :: 0 <= j < k < |CubeOf(ls, s)| ==> CubeOf(ls, s)[j].latch != CubeOf(ls, s)[k].latch
  {
    if s != [] {
      var n := |s| - 1;
      CubeOfDistinct(ls[..n], s[..n]);
      forall l | l in CubeOf(ls[..n], s[..n]) ensures l.latch < n { CubeOfMember(ls[..n], s[..n], l); }
    }
  }

  lemma CubeOfOk(g: Circuit, ls: seq<LB>, s: State)
    requires |ls| == |s| == |g.latches|
    ensures LitsOk(g, CubeOf(ls, s)) && InCube(CubeOf(ls, s), s)
  {
    CubeOfDistinct(ls, s);
    forall l | l in CubeOf(ls, s) ensures l.latch < |s| && Holds(l, s) { CubeOfMember(ls, s, l); }
  }

  /** A state of the cube gives every latch that is left the value it had. */
  lemma CubeOfBelow(ls: seq<LB>, s: State, u: State)
    requires |ls| == |s| == |u| && InCube(CubeOf(ls, s), u)
    requires AllBelow(ls, Lift(s))
    ensures AllBelow(ls, Lift(u))
  {
    forall i | 0 <= i < |ls| ensures ls[i].Below(Lift(u)[i]) {
      CubeOfMember(ls, s, LLit(i, !s[i]));
      assert ls[i].Below(Lift(s)[i]);
    }
  }

  /** Cone of influence and ternary simulation together keep every target literal. */
  lemma ReductionStands(g: Circuit, cone: seq<bool>, s: State, x: seq<bool>, targets: seq<nat>, reduced: seq<LB>)
    requires IsState(g, s) && IsInput(g, x) && CoversCones(g, cone, targets) && TargetsOk(g, targets)
    requires AllBelow(reduced, Masked(cone, s))
    requires forall l :: l in targets ==>
               Settled(g, reduced, Lift(x))[Var(l)] == Settled(g, Masked(cone, s), Lift(x))[Var(l)]
    ensures Stands(g, CubeOf(reduced, s), s, x, targets)
  {
    CubeOfOk(g, reduced, s);
    var ls := Masked(cone, s);
    assert AllBelow(reduced, Lift(s)) by {
      forall i | 0 <= i < |s| ensures reduced[i].Below(Lift(s)[i]) { assert reduced[i].Below(ls[i]); }
    }
    forall u, l | IsState(g, u) && InCube(CubeOf(reduced, s), u) && l in targets
      ensures EvalLit(g, l, u, x) == EvalLit(g, l, s, x)
    {
      forall i | 0 <= i < |ls| && Var(g.latches[i].lit) in Cone(g, Var(l)) ensures ls[i] == FromBool(s[i]) {
        assert InCone(g, l, i);
      }
      ConeDetermines(g, ls, s, x, Var(l));
      CubeOfBelow(reduced, s, u);
      ReducedCubeForces(g, ls, reduced, Lift(x), l, u, x);
    }
  }

  /** What ternary simulation leaves of the state, reduced to the cone first. */
  ghost function ReducedCube(g: Circuit, cone: seq<bool>, s: State, x: seq<bool>, targets: seq<nat>, priority: seq<nat>): seq<LLit>
    requires IsState(g, s) && IsInput(g, x) && |cone| == |priority| == |s|
  {
    var ls := Masked(cone, s);
    CubeOf(GiveUp(g, ls, Lift(x), PreserveMarks(g, targets), TryOrder(ls, priority)), s)
  }

  /** The latch values that a cube fixes. */
  ghost function Values(g: Circuit, q: seq<LLit>): (ls: seq<LB>)
    ensures |ls| == |g.latches|
  {
    seq(|g.latches|, i requires 0 <= i < |g.latches| =>
      if LLit(i, false) in q then LTrue else if LLit(i, true) in q then LFalse else LUndef)
  }

  /** Leaving out latch `i` as well is not possible: it is a target itself, or some target would lose its value. */
  ghost predicate Needed(g: Circuit, q: seq<LLit>, x: seq<bool>, targets: seq<nat>, i: nat) {
    && i < |g.latches| && IsInput(g, x)
    && exists t :: t in targets && Var(t) < |g.nodes| &&
         (Var(t) == Var(g.latches[i].lit) ||
          Settled(g, Values(g, q)[i := LUndef], Lift(x))[Var(t)] != Settled(g, Values(g, q), Lift(x))[Var(t)])
  }

  /** Every literal of the cube is in the cone and needed. */
  ghost predicate NoneSpare(g: Circuit, cone: seq<bool>, q: seq<LLit>, x: seq<bool>, targets: seq<nat>) {
    forall l :: l in q ==> l.latch < |cone| && cone[l.latch] && Needed(g, q, x, targets, l.latch)
  }

  /** `q` is what is left of the state `s`, and no literal of it could be left out as well. */
  ghost predicate Shrunk(g: Circuit, cone: seq<bool>, s: State, x: seq<bool>, targets: seq<nat>, priority: seq<nat>, q: seq<LLit>) {
    && IsState(g, s) && IsInput(g, x) && |cone| == |priority| == |s|
    && q == ReducedCube(g, cone, s, x, targets, priority) && NoneSpare(g, cone, q, x, targets)
  }

  lemma ValuesOfCube(g: Circuit, ls: seq<LB>, s: State)
    requires |ls| == |s| == |g.latches| && AllBelow(ls, Lift(s))
    ensures Values(g, CubeOf(ls, s)) == ls
  {
    var q := CubeOf(ls, s);
    forall i | 0 <= i < |ls| ensures Values(g, q)[i] == ls[i] {
      CubeOfMember(ls, s, LLit(i, false));
      CubeOfMember(ls, s, LLit(i, true));
      assert ls[i].Below(Lift(s)[i]);
    }
  }

  lemma CubeNotSpare(g: Circuit, cone: seq<bool>, s: State, x: seq<bool>, targets: seq<nat>, reduced: seq<LB>)
    requires IsState(g, s) && IsInput(g, x) && |cone| == |s| && TargetsOk(g, targets)
    requires AllBelow(reduced, Masked(cone, s))
    requires forall l :: l in targets ==>
               Settled(g, reduced, Lift(x))[Var(l)] == Settled(g, Masked(cone, s), Lift(x))[Var(l)]
    requires forall i :: 0 <= i < |s| && reduced[i] != LUndef ==>
               || (exists l :: l in targets && Var(l) == Var(g.latches[i].lit))
               || (exists l :: l in targets &&
                     Settled(g, reduced[i := LUndef], Lift(x))[Var(l)] != Settled(g, Masked(cone, s), Lift(x))[Var(l)])
    ensures NoneSpare(g, cone, CubeOf(reduced, s), x, targets)
  {
    var ls := Masked(cone, s);
    assert AllBelow(reduced, Lift(s)) by {
      forall i | 0 <= i < |s| ensures reduced[i].Below(Lift(s)[i]) { assert reduced[i].Below(ls[i]); }
    }
    ValuesOfCube(g, reduced, s);
    forall l | l in CubeOf(reduced, s)
      ensures l.latch < |cone| && cone[l.latch] && Needed(g, CubeOf(reduced, s), x, targets, l.latch)
    {
      CubeOfMember(reduced, s, l);
      assert reduced[l.latch].Below(ls[l.latch]);
    }
  }

  /** The state without the latches outside the cone and those that ternary simulation finds unnecessary. */
  method Reduce(t: Ternary, cone: seq<bool>, s: State, x: seq<bool>, targets: seq<nat>, priority: seq<nat>)
    returns (q: seq<LLit>)
    requires t.Valid() && IsState(t.aig, s) && IsInput(t.aig, x) && |priority| == |t.aig.latches|
    requires CoversCones(t.aig, cone, targets) && TargetsOk(t.aig, targets)
    modifies t
    ensures t.Valid() && Stands(t.aig, q, s, x, targets)
    ensures Shrunk(t.aig, cone, s, x, targets, priority, q)
  {
    hide NoneSpare, Stands;
    var reduced := t.Reduce(Masked(cone, s), Lift(x), targets, priority);
    ReductionStands(t.aig, cone, s, x, targets, reduced);
    CubeNotSpare(t.aig, cone, s, x, targets, reduced);
    q := [];
    for i := 0 to |s|
      invariant q == CubeOf(reduced[..i], s[..i])
    {
      assert reduced[..i + 1][..i] == reduced[..i] && s[..i + 1][..i] == s[..i];
      if reduced[i] != LUndef {
        q := q + [LLit(i, !s[i])];
      }
    }
    assert reduced[..|s|] == reduced && s[..|s|] == s;
  }

  // ---------- predecessors ----------

  /** The next-state literals of the latches that a cube mentions. */
  function NextLits(g: Circuit, p: seq<LLit>): (ts: seq<nat>)
    requires LitsOk(g, p)
    ensures |ts| == |p| && forall k :: 0 <= k < |p| ==> p[k] in p && ts[k] == g.latches[p[k].latch].next
  {
    seq(|p|, k requires 0 <= k < |p| => assert p[k] in p; g.latches[p[k].latch].next)
  }

  /** A cube that keeps the next-state literals of `p` steps into `p` as a whole when its model does. */
  lemma PredecessorSteps(g: Circuit, q: seq<LLit>, s: State, x: seq<bool>, p: seq<LLit>)
    requires LitsOk(g, p) && Stands(g, q, s, x, NextLits(g, p)) && InCube(p, Next(g, s, x))
    ensures StepsInto(g, q, x, p)
  {
    forall u | IsState(g, u) && InCube(q, u) ensures InCube(p, Next(g, u, x)) {
      forall l | l in p ensures Holds(l, Next(g, u, x)) {
        var k :| 0 <= k < |p| && p[k] == l;
        assert NextLits(g, p)[k] == g.latches[l.latch].next;
        assert Holds(l, Next(g, s, x));
      }
    }
  }

  /** A cube that keeps the property literals is bad as a whole when its model is. */
  lemma RootBad(g: Circuit, q: seq<LLit>, s: State, x: seq<bool>, prop: seq<nat>)
    requires TargetsOk(g, prop) && Stands(g, q, s, x, prop) && PropHolds(g, prop, s, x)
    ensures AllBad(g, prop, q, x)
  {
  }

  // ---------- blocking clauses ----------

  /** Whether a cube contains a reset state. */
  method IsResetCube(g: Circuit, q: seq<LLit>) returns (r: bool)
    requires LitsOk(g, q)
    ensures r <==> HasReset(g, q)
    ensures !r ==> exists l :: l in q && SatisfiesReset(g, Not(l))
  {
    for i := 0 to |q|
      invariant forall k :: 0 <= k < i ==> !SatisfiesReset(g, Not(q[k]))
    {
      if SatisfiesReset(g, Not(q[i])) {
        assert q[i] in q;
        NoReset(g, q, q[i]);
        return false;
      }
    }
    ResetInside(g, q);
    return true;
  }

  lemma NoReset(g: Circuit, q: seq<LLit>, l: LLit)
    requires l in q && SatisfiesReset(g, Not(l))
    ensures !HasReset(g, q)
  {
    forall s | Aigs.IsReset(g, s) ensures !InCube(q, s) { assert !Holds(l, s); }
  }

  lemma ResetInside(g: Circuit, q: seq<LLit>)
    requires LitsOk(g, q) && forall k :: 0 <= k < |q| ==> !SatisfiesReset(g, Not(q[k]))
    ensures HasReset(g, q)
  {
    var c := NotAll(q);
    assert LitsOk(g, c) by {
      forall l | l in c ensures l.latch < |g.latches| { NotAllMember(q, l); }
    }
    forall l | l in c ensures !SatisfiesReset(g, l) {
      var k :| 0 <= k < |c| && c[k] == l;
    }
    var s := ResetAvoiding(g, c);
    NotAllMeaning(g, c, s);
    assert NotAll(c) == q;
  }

  /** Whether a clause misses every literal that holds on reset. */
  method ConflictsWithReset(g: Circuit, c: Clause) returns (r: bool)
    ensures r <==> !exists l :: l in c && SatisfiesReset(g, l)
  {
    for i := 0 to |c|
      invariant forall k :: 0 <= k < i ==> !SatisfiesReset(g, c[k])
    {
      if SatisfiesReset(g, c[i]) {
        assert c[i] in c;
        return false;
      }
    }
    return true;
  }

  /** No negated literal of the core holds on reset, and `l` is the first literal of the cube whose negation does. */
  ghost predicate Repairs(g: Circuit, q: seq<LLit>, core: set<LLit>, l: LLit) {
    && (forall m :: m in core ==> !SatisfiesReset(g, Not(m)))
    && SatisfiesReset(g, Not(l))
    && exists i :: 0 <= i < |q| && q[i] == l && forall k :: 0 <= k < i ==> !SatisfiesReset(g, Not(q[k]))
  }

  /** `c` has the negated literals of the core, at most one more literal, and no other ones. */
  ghost predicate ReadOff(g: Circuit, q: seq<LLit>, core: set<LLit>, c: Clause) {
    LitsOk(g, c) && forall l :: l in c <==> Not(l) in core || Repairs(g, q, core, Not(l))
  }

  /** The blocking clause read off a core; if it excludes a reset state, the negation of one more literal of the cube
      repairs it. */
  method BlockingClause(g: Circuit, q: seq<LLit>, core: set<LLit>) returns (block: Clause)
    requires LitsOk(g, q) && (forall l :: l in core ==> l in q)
    requires exists l :: l in q && SatisfiesReset(g, Not(l))
    ensures ReadOff(g, q, core, block) && LitsOk(g, block)
    ensures Subset(block, NotAll(q)) && (exists l :: l in block && SatisfiesReset(g, l))
    ensures forall l :: l in core ==> Not(l) in block
  {
    hide Repairs, ReadOff, SatisfiesReset, LitsOk, Subset, NotAll;
    block := CoreClause(g, q, core);
    var conflicts := ConflictsWithReset(g, block);
    ghost var plain := block;
    CoreResets(g, q, core, plain, conflicts);
    if conflicts {
      var i := 0;
      while i < |q| && !SatisfiesReset(g, Not(q[i]))
        invariant 0 <= i <= |q| && forall k :: 0 <= k < i ==> !SatisfiesReset(g, Not(q[k]))
      {
        i := i + 1;
      }
      ResetAmong(g, q, i);
      AddsReset(g, q, core, block, i);
      block := block + [Not(q[i])];
      RepairedBy(g, q, core, plain, i);
    }
    ReadOffFits(g, q, core, block);
  }

  /** The negated literals of the core, in the order of the cube. */
  method CoreClause(g: Circuit, q: seq<LLit>, core: set<LLit>) returns (block: Clause)
    requires LitsOk(g, q)
    ensures LitsOk(g, block) && forall l :: l in block <==> Not(l) in q && Not(l) in core
  {
    block := [];
    for i := 0 to |q|
      invariant LitsOk(g, block)
      invariant forall l :: l in block <==> Not(l) in q[..i] && Not(l) in core
    {
      assert q[i] in q && Not(Not(q[i])) == q[i];
      assert q[..i + 1] == q[..i] + [q[i]];
      if q[i] in core {
        assert forall l :: l in block ==> l.latch != q[i].latch;
        block := block + [Not(q[i])];
      }
    }
    assert q[..|q|] == q;
  }

  /** A clause read off the core is part of the negated cube, contains the core and holds on reset. */
  lemma ReadOffFits(g: Circuit, q: seq<LLit>, core: set<LLit>, block: Clause)
    requires ReadOff(g, q, core, block) && forall l :: l in core ==> l in q
    requires exists l :: l in q && SatisfiesReset(g, Not(l))
    ensures Subset(block, NotAll(q)) && (exists l :: l in block && SatisfiesReset(g, l))
    ensures forall l :: l in core ==> Not(l) in block
  {
    hide SatisfiesReset;
    forall l | l in block ensures l in NotAll(q) { NotAllMember(q, l); }
    forall l | l in core ensures Not(l) in block { assert Not(Not(l)) == l; }
    if forall m :: m in core ==> !SatisfiesReset(g, Not(m)) {
      var i := FirstReset(g, q);
      assert Not(Not(q[i])) == q[i];
      assert Repairs(g, q, core, Not(Not(q[i])));
    }
  }

  lemma FirstReset(g: Circuit, q: seq<LLit>) returns (i: nat)
    requires exists l :: l in q && SatisfiesReset(g, Not(l))
    ensures i < |q| && SatisfiesReset(g, Not(q[i])) && forall k :: 0 <= k < i ==> !SatisfiesReset(g, Not(q[k]))
  {
    hide SatisfiesReset;
    i := 0;
    while i < |q| && !SatisfiesReset(g, Not(q[i]))
      invariant 0 <= i <= |q| && forall k :: 0 <= k < i ==> !SatisfiesReset(g, Not(q[k]))
    {
      i := i + 1;
    }
    ResetAmong(g, q, i);
  }

  lemma ResetAmong(g: Circuit, q: seq<LLit>, i: nat)
    requires exists l :: l in q && SatisfiesReset(g, Not(l))
    requires i <= |q| && forall k :: 0 <= k < i ==> !SatisfiesReset(g, Not(q[k]))
    ensures i < |q|
  {
    var l :| l in q && SatisfiesReset(g, Not(l));
    var k :| 0 <= k < |q| && q[k] == l;
  }

  lemma CoreResets(g: Circuit, q: seq<LLit>, core: set<LLit>, block: Clause, conflicts: bool)
    requires forall l :: l in core ==> l in q
    requires forall l :: l in block <==> Not(l) in q && Not(l) in core
    requires conflicts <==> !exists l :: l in block && SatisfiesReset(g, l)
    ensures conflicts <==> forall m :: m in core ==> !SatisfiesReset(g, Not(m))
    ensures LitsOk(g, block) && !conflicts ==> ReadOff(g, q, core, block)
  {
    forall m | m in core ensures Not(m) in block { assert Not(Not(m)) == m; }
    if l :| l in block && SatisfiesReset(g, l) {
      assert Not(Not(l)) == l && Not(l) in core;
    }
  }

  lemma RepairedBy(g: Circuit, q: seq<LLit>, core: set<LLit>, block: Clause, i: nat)
    requires (forall l :: l in core ==> l in q) && forall m :: m in core ==> !SatisfiesReset(g, Not(m))
    requires forall l :: l in block <==> Not(l) in q && Not(l) in core
    requires i < |q| && SatisfiesReset(g, Not(q[i])) && forall k :: 0 <= k < i ==> !SatisfiesReset(g, Not(q[k]))
    requires LitsOk(g, block + [Not(q[i])])
    ensures ReadOff(g, q, core, block + [Not(q[i])])
  {
    forall l ensures Repairs(g, q, core, Not(l)) <==> l == Not(q[i]) {
      assert Not(Not(l)) == l && Not(Not(q[i])) == q[i];
    }
  }

  lemma AddsReset(g: Circuit, q: seq<LLit>, core: set<LLit>, block: Clause, i: nat)
    requires LitsOk(g, q) && LitsOk(g, block) && i < |q| && SatisfiesReset(g, Not(q[i]))
    requires forall l :: l in block <==> Not(l) in q && Not(l) in core
    requires !exists l :: l in block && SatisfiesReset(g, l)
    ensures LitsOk(g, block + [Not(q[i])])
  {
    assert q[i] in q;
    forall l | l in block ensures l.latch != q[i].latch {
      assert Not(Not(l)) == l;
      var k :| 0 <= k < |q| && q[k] == Not(l);
    }
  }
}
