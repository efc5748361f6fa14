/** Cone-of-influence detection: the latches that the value of a literal can depend on. */
module Cones {
  import opened Lbools
  import opened Aigs

  /** The transitive fan-in of a variable. */
  ghost function Cone(g: Circuit, v: nat): (c: set<nat>)
    requires v < |g.nodes|
    ensures v in c && forall u :: u in c ==> u <= v
  {
    match g.nodes[v]
    case And(r0, r1) => {v} + Cone(g, Var(r0)) + Cone(g, Var(r1))
    case _ => {v}
  }

  lemma {:induction false} ConeTransitive(g: Circuit, v: nat, u: nat)
    requires v < |g.nodes| && u in Cone(g, v)
    ensures Cone(g, u) <= Cone(g, v)
  {
    if u != v {
      var And(r0, r1) := g.nodes[v];
      if u in Cone(g, Var(r0)) { ConeTransitive(g, Var(r0), u); } else { ConeTransitive(g, Var(r1), u); }
    }
  }

  /** The latches of the cone of literal `l`. */
  ghost predicate InCone(g: Circuit, l: nat, i: nat)
    requires Var(l) < |g.nodes| && i < |g.latches|
  {
    Var(g.latches[i].lit) in Cone(g, Var(l))
  }

  /** Three-valued evaluation gives the exact value of a literal as soon as the latches of its cone and the inputs
      are known, whatever the other latches hold. */
  lemma {:induction false} ConeDetermines(g: Circuit, ls: seq<LB>, s: State, x: seq<bool>, v: nat)
    requires v < |g.nodes| && |ls| == |s| == |g.latches| && |x| == |g.inputs|
    requires forall i :: 0 <= i < |ls| && Var(g.latches[i].lit) in Cone(g, v) ==> ls[i] == FromBool(s[i])
    ensures Kleene(g, Leaves(g, ls, Lift(x)), v) == FromBool(Eval(g, v, s, x))
  {
    match g.nodes[v]
    case And(r0, r1) =>
      ConeDetermines(g, ls, s, x, Var(r0));
      ConeDetermines(g, ls, s, x, Var(r1));
    case Latch(i) => assert v != 0; assert i < |ls|;
    case Input(i) => assert v != 0; assert i < |x|;
    case Const =>
  }

  /** States that agree on the cone of a literal agree on the literal. */
  lemma AgreeOnCone(g: Circuit, s: State, t: State, x: seq<bool>, l: nat)
    requires Var(l) < |g.nodes| && |s| == |t| == |g.latches| && |x| == |g.inputs|
    requires forall i :: 0 <= i < |s| && InCone(g, l, i) ==> s[i] == t[i]
    ensures EvalLit(g, l, s, x) == EvalLit(g, l, t, x)
  {
    ConeDetermines(g, Lift(s), s, x, Var(l));
    ConeDetermines(g, Lift(s), t, x, Var(l));
  }

  class ConeOfInfluence {
    const mgr: Circuit
    var seen: seq<bool>

    constructor (g: Circuit)
      ensures mgr == g
    {
      mgr := g;
      seen := seq(|g.nodes|, _ => false);
    }

    /** The marked variables up to `v` form a closed set; variables above may still be in progress. */
    ghost predicate ClosedUpTo(v: nat)
      reads this
    {
      && |seen| == |mgr.nodes|
      && forall u :: 0 <= u <= v && u < |seen| && seen[u] ==> forall w :: w in Cone(mgr, u) ==> seen[w]
    }

    /** Marks the cone of `l`, cutting the search at marked variables. */
    method MarkCone(l: nat)
      requires Var(l) < |mgr.nodes| && ClosedUpTo(Var(l))
      modifies this
      ensures |seen| == |mgr.nodes|
      ensures forall u :: 0 <= u < |seen| ==> (seen[u] <==> old(seen)[u] || u in Cone(mgr, Var(l)))
      decreases Var(l)
    {
      var v := Var(l);
      if !seen[v] {
        seen := seen[v := true];
        match mgr.nodes[v] {
          case And(r0, r1) =>
            ghost var s0 := seen;
            MarkCone(r0);
            forall u | 0 <= u <= Var(r1) && seen[u]
              ensures forall w :: w in Cone(mgr, u) ==> seen[w]
            {
              if !s0[u] { ConeTransitive(mgr, Var(r0), u); }
            }
            MarkCone(r1);
          case _ =>
        }
      }
    }

    /** The latches that occur in the cone of `l`. */
    method CollectCOI(l: nat) returns (store: seq<bool>)
      requires Var(l) < |mgr.nodes|
      modifies this
      ensures |store| == |mgr.latches|
      ensures forall i :: 0 <= i < |store| ==> (store[i] <==> InCone(mgr, l, i))
    {
      seen := seq(|mgr.nodes|, _ => false);
      store := seq(|mgr.latches|, _ => false);
      MarkCone(l);
      for i := 0 to |mgr.latches|
        invariant |store| == |mgr.latches|
        invariant forall k :: 0 <= k < |store| ==> (store[k] <==> k < i && InCone(mgr, l, k))
      {
        if seen[Var(mgr.latches[i].lit)] {
          store := store[i := true];
        }
      }
    }
  }
}
