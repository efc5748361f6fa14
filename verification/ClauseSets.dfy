/** A solver seen as the set of models of the clauses that have been added to it. */
module ClauseSets {
  import L = Literals
  import M = Meaning
  import K = Kernels

  ghost function With(spec: iset<L.Model>, c: L.Clause): iset<L.Model> {
    iset m: L.Model | m in spec && L.SatClause(m, c)
  }

  /** The solver's problem has exactly these models. */
  ghost predicate Means(s: K.Solver, spec: iset<L.Model>)
    reads s
  {
    s.Idle() && if s.ok then forall m :: M.Problem(s.T(), s.D(), m) <==> m in spec else spec == iset{}
  }

  method Add(s: K.Solver, c: L.Clause, ghost spec: iset<L.Model>)
    requires Means(s, spec) && forall l :: l in c ==> l.v < |s.assigns|
    modifies s`ca, s`dead, s`learnt, s`watches, s`dirty, s`assigns, s`reason, s`level, s`pos, s`trail, s`qhead, s`ok
    ensures Means(s, With(spec, c)) && |s.assigns| == |old(s.assigns)|
  {
    hide M.Problem, L.SatClause;
    var r := s.AddClause(c);
    assert !r ==> With(spec, c) == iset{};
  }
}
