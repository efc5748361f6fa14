/** The queries that the engine puts to the SAT solver: about a state, an input and the state that follows. The engine
    relies on the meaning of the answers alone, so nothing depends on which model or which core it gets. */
module Queries {
  import opened Aigs
  import opened Frames

  /** A model of the query, or the part of the assumptions that cannot hold together. */
  datatype Answer = Sat(s: State, x: seq<bool>) | Unsat(acts: set<int>, core: set<LLit>)

  /** The query: `acts` are the activated clauses, `hyps` further clauses on the current state, `post` literals of the
      next state, `prop` circuit literals of the current step. */
  datatype Query = Query(clauses: seq<Clause>, acts: set<int>, hyps: seq<Clause>, post: seq<LLit>, prop: seq<nat>)

  predicate ActsHold(clauses: seq<Clause>, acts: set<int>, s: State) {
    forall a :: a in acts && 0 <= a < |clauses| ==> SatClause(clauses[a], s)
  }

  predicate AllHold(hyps: seq<Clause>, s: State) {
    forall h :: h in hyps ==> SatClause(h, s)
  }

  predicate PropHolds(g: Circuit, prop: seq<nat>, s: State, x: seq<bool>)
    requires |s| == |g.latches| && |x| == |g.inputs|
  {
    forall p :: p in prop ==> Var(p) < |g.nodes| && EvalLit(g, p, s, x)
  }

  predicate Model(g: Circuit, q: Query, s: State, x: seq<bool>)
    requires |s| == |g.latches| && |x| == |g.inputs|
  {
    ActsHold(q.clauses, q.acts, s) && AllHold(q.hyps, s) && PropHolds(g, q.prop, s, x) && InCube(q.post, Next(g, s, x))
  }

  /** No step satisfies the clauses `acts`, the extra clauses, the property and all of `core` on the next state. */
  ghost predicate Refutes(g: Circuit, clauses: seq<Clause>, acts: set<int>, hyps: seq<Clause>, prop: seq<nat>, core: set<LLit>) {
    forall s, x ::
      (IsState(g, s) && IsInput(g, x) && ActsHold(clauses, acts, s) && AllHold(hyps, s) && PropHolds(g, prop, s, x))
      ==> exists l :: l in core && !Holds(l, Next(g, s, x))
  }

  method OneOf<T>(acts: set<T>) returns (a: T)
    requires acts != {}
    ensures a in acts
  {
    a :| a in acts;
  }
}
