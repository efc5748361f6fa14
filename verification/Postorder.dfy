/** The order in which gates get their numbers, by recursion over the fan-ins instead of with a stack. */
module Postorders {
  import opened Nets
  import opened DepthFirst
  import opened Renumbering

  ghost function SomeRank(g: Net): (rank: seq<nat>)
    requires Acyclic(g)
    ensures Ranked(g, rank)
  {
    var rank :| Ranked(g, rank);
    rank
  }

  /** The fan-in of a gate with the smaller variable. */
  function LowKid(g: Net, v: nat): nat
    requires IsAnd(g, v) && g.types[v].idx < |g.ands|
  {
    Smaller(Var(g.ands[g.types[v].idx].rhs0), Var(g.ands[g.types[v].idx].rhs1))
  }

  function HighKid(g: Net, v: nat): nat
    requires IsAnd(g, v) && g.types[v].idx < |g.ands|
  {
    Larger(Var(g.ands[g.types[v].idx].rhs0), Var(g.ands[g.types[v].idx].rhs1))
  }

  lemma KidRanks(g: Net, v: nat)
    requires WellDefined(g) && Acyclic(g) && IsAnd(g, v)
    ensures g.types[v].idx < |g.ands| && v < |SomeRank(g)|
    ensures var a := LowKid(g, v); IsAnd(g, a) ==> a < |SomeRank(g)| && SomeRank(g)[a] < SomeRank(g)[v]
    ensures var b := HighKid(g, v); IsAnd(g, b) ==> b < |SomeRank(g)| && SomeRank(g)[b] < SomeRank(g)[v]
  {
    hide TypesOk;
    GateOf(g, v);
    assert Ranked(g, SomeRank(g));
    assert Kid(g, v, LowKid(g, v)) && Kid(g, v, HighKid(g, v));
  }

  /** Everything below `v` that is not in `done` yet comes behind it: first what is below the smaller fan-in, then what is
      below the larger one, then the gate itself. */
  ghost function Post(g: Net, done: seq<nat>, v: nat): seq<nat>
    requires WellDefined(g) && Acyclic(g)
    decreases if v < |SomeRank(g)| then SomeRank(g)[v] else 0
  {
    if !IsAnd(g, v) || v in done then done
    else
      KidRanks(g, v);
      var a, b := LowKid(g, v), HighKid(g, v);
      var mid := if IsAnd(g, a) then Post(g, done, a) else done;
      (if IsAnd(g, b) then Post(g, mid, b) else mid) + [v]
  }

  /** One literal after the other. */
  ghost function PostAll(g: Net, done: seq<nat>, lits: seq<nat>): seq<nat>
    requires WellDefined(g) && Acyclic(g)
  {
    if lits == [] then done else Post(g, PostAll(g, done, lits[..|lits| - 1]), Var(lits[|lits| - 1]))
  }

  function LatchLits(ls: seq<Latch>): seq<nat> {
    if ls == [] then [] else LatchLits(ls[..|ls| - 1]) + [ls[|ls| - 1].next, ls[|ls| - 1].reset]
  }

  function Flatten(sets: seq<seq<nat>>): seq<nat> {
    if sets == [] then [] else Flatten(sets[..|sets| - 1]) + sets[|sets| - 1]
  }

  /** The roots in the order in which they are renumbered. */
  function RootLits(g: Net): seq<nat> {
    LatchLits(g.latches) + g.outputs + g.bad + g.constraints + Flatten(g.justice) + g.fairness
  }

  /** The gates below the roots in the order of their new numbers. */
  ghost function Postorder(g: Net): seq<nat>
    requires WellDefined(g) && Acyclic(g)
  {
    PostAll(g, [], RootLits(g))
  }

  lemma {:induction false} PostAllConcat(g: Net, done: seq<nat>, a: seq<nat>, b: seq<nat>)
    requires WellDefined(g) && Acyclic(g)
    ensures PostAll(g, done, a + b) == PostAll(g, PostAll(g, done, a), b)
  {
    hide WellDefined, Acyclic, Post;
    if b == [] {
      assert a + b == a;
    } else {
      var n := |b| - 1;
      PostAllConcat(g, done, a, b[..n]);
      assert (a + b)[..|a + b| - 1] == a + b[..n];
    }
  }

  lemma PostAllOne(g: Net, done: seq<nat>, a: seq<nat>, l: nat)
    requires WellDefined(g) && Acyclic(g)
    ensures PostAll(g, done, a + [l]) == Post(g, PostAll(g, done, a), Var(l))
  {
    hide WellDefined, Acyclic, Post;
    assert (a + [l])[..|a|] == a;
  }

  // ---------- what the stack still has to do ----------

  /** The pending variables are worked off from the top. */
  ghost function PostPending(g: Net, done: seq<nat>, p: seq<nat>): seq<nat>
    requires WellDefined(g) && Acyclic(g)
    decreases |p|
  {
    if p == [] then done else PostPending(g, Post(g, done, p[|p| - 1]), p[..|p| - 1])
  }

  /** The gates that will be finished when the stack is empty. */
  ghost function Outcome(g: Net, s: Stack, done: seq<nat>): seq<nat>
    requires WellDefined(g) && Acyclic(g)
    decreases |s.frames|
  {
    if s.frames == [] then PostPending(g, done, s.base)
    else
      var f := s.frames[|s.frames| - 1];
      Outcome(g, Close(s), PostPending(g, done, f.pend) + [f.node])
  }

  /** The pending fan-ins of a gate that has just been entered. */
  function GateKids(g: Net, v: nat): seq<nat>
    requires IsAnd(g, v) && g.types[v].idx < |g.ands|
  {
    (if IsAnd(g, HighKid(g, v)) then [HighKid(g, v)] else []) + (if IsAnd(g, LowKid(g, v)) then [LowKid(g, v)] else [])
  }

  lemma OutcomePop(g: Net, s: Stack, done: seq<nat>)
    requires WellDefined(g) && Acyclic(g) && Pending(s) != []
    ensures var p := Pending(s); Outcome(g, s, done) == Outcome(g, Pop(s), Post(g, done, p[|p| - 1]))
  {
    hide WellDefined, Acyclic, Post;
    if s.frames != [] { assert Close(Pop(s)) == Close(s); }
  }

  /** A finished variable changes nothing. */
  lemma OutcomeSkip(g: Net, s: Stack, done: seq<nat>)
    requires WellDefined(g) && Acyclic(g) && Pending(s) != [] && Pending(s)[|Pending(s)| - 1] in done
    ensures Outcome(g, s, done) == Outcome(g, Pop(s), done)
  {
    hide WellDefined, Acyclic;
    OutcomePop(g, s, done);
  }

  lemma PostKids(g: Net, done: seq<nat>, v: nat)
    requires WellDefined(g) && Acyclic(g) && IsAnd(g, v) && v !in done && g.types[v].idx < |g.ands|
    ensures Post(g, done, v) == PostPending(g, done, GateKids(g, v)) + [v]
  {
    var a, b := LowKid(g, v), HighKid(g, v);
    hide WellDefined, Acyclic, LowKid, HighKid;
    var mid := if IsAnd(g, a) then Post(g, done, a) else done;
    var kids := GateKids(g, v);
    if IsAnd(g, a) {
      assert kids[|kids| - 1] == a;
      PendingOne(g, mid, kids[..|kids| - 1], b);
    } else {
      PendingOne(g, mid, kids, b);
    }
  }

  lemma PendingOne(g: Net, done: seq<nat>, p: seq<nat>, b: nat)
    requires WellDefined(g) && Acyclic(g) && p == if IsAnd(g, b) then [b] else []
    ensures PostPending(g, done, p) == if IsAnd(g, b) then Post(g, done, b) else done
  {
    hide WellDefined, Acyclic, Post;
  }

  /** Entering a gate leaves the outcome as it is, provided its fan-ins are put on the stack in the right order. */
  lemma OutcomeOpen(g: Net, s: Stack, done: seq<nat>)
    requires WellDefined(g) && Acyclic(g) && Pending(s) != []
    requires var v := Pending(s)[|Pending(s)| - 1]; IsAnd(g, v) && v !in done && g.types[v].idx < |g.ands|
    ensures var v := Pending(s)[|Pending(s)| - 1]; Outcome(g, s, done) == Outcome(g, Open(s, GateKids(g, v)), done)
  {
    var v := Pending(s)[|Pending(s)| - 1];
    OutcomePop(g, s, done);
    PostKids(g, done, v);
    hide WellDefined, Acyclic, Post, GateKids, PostPending;
    var o := Open(s, GateKids(g, v));
    assert Close(o) == Pop(s);
  }

  lemma OutcomeClose(g: Net, s: Stack, done: seq<nat>)
    requires WellDefined(g) && Acyclic(g) && s.frames != [] && Pending(s) == []
    ensures Outcome(g, s, done) == Outcome(g, Close(s), done + [s.frames[|s.frames| - 1].node])
  {
    hide WellDefined, Acyclic, Post;
  }

  lemma OutcomeStart(g: Net, done: seq<nat>, v: nat)
    requires WellDefined(g) && Acyclic(g)
    ensures Outcome(g, Stack([v], []), done) == Post(g, done, v)
  {
    hide WellDefined, Acyclic, Post;
    var s := Stack([v], []);
    OutcomePop(g, s, done);
    assert Pending(Pop(s)) == [];
    OutcomeEnd(g, Pop(s), Post(g, done, v));
  }

  lemma OutcomeEnd(g: Net, s: Stack, done: seq<nat>)
    requires WellDefined(g) && Acyclic(g) && Pending(s) == [] && s.frames == []
    ensures Outcome(g, s, done) == done
  {
    hide WellDefined, Acyclic, Post;
    assert Outcome(g, s, done) == PostPending(g, done, s.base);
    assert PostPending(g, done, []) == done;
  }
}
