/** Solving after simplification: the remaining clauses go to the kernel, its model is extended to the eliminated
    variables. */
module Solving {
  import opened Lbools
  import opened Literals
  import opened Elimination
  import opened Simplification
  import opened ClauseSets
  import K = Kernels
  import M = Meaning
  import T = Trails
  import W = Watching

  /** The values of the first `n` variables and the first `k` clauses. */
  ghost predicate SatUpTo(st: Store, n: nat, k: nat, m: Model) {
    && (forall v :: 0 <= v < n && v < |st.assigns| && st.assigns[v] != LUndef ==> (v in m <==> st.assigns[v] == LTrue))
    && forall cr :: 0 <= cr < k && st.Live(cr) ==> SatClause(m, st.ca[cr])
  }

  ghost function Spec(st: Store, n: nat, k: nat): iset<Model> { iset m: Model | SatUpTo(st, n, k, m) }

  lemma NothingYet(st: Store, s: K.Solver)
    requires s.Idle() && s.ok && forall m :: M.Problem(s.T(), s.D(), m)
    ensures Means(s, Spec(st, 0, 0))
  {
    forall m: Model ensures m in Spec(st, 0, 0) {}
  }

  lemma OneMoreValue(st: Store, v: nat)
    requires v < |st.assigns|
    ensures if st.assigns[v] == LUndef then Spec(st, v + 1, 0) == Spec(st, v, 0)
            else With(Spec(st, v, 0), [Lit(v, st.assigns[v] == LFalse)]) == Spec(st, v + 1, 0)
  {
    var l := Lit(v, st.assigns[v] == LFalse);
    forall m: Model ensures SatClause(m, [l]) <==> (v in m <==> st.assigns[v] != LFalse) {
      assert [l][0] == l && (Makes(m, l) <==> (v in m) != l.neg);
    }
  }

  lemma OneMoreClause(st: Store, cr: nat)
    ensures if st.Live(cr) then With(Spec(st, |st.assigns|, cr), st.ca[cr]) == Spec(st, |st.assigns|, cr + 1)
            else Spec(st, |st.assigns|, cr + 1) == Spec(st, |st.assigns|, cr)
  {
  }

  lemma AllSat(st: Store, m: Model)
    ensures m in Spec(st, |st.assigns|, |st.ca|) <==> Sat(st, m)
  {
  }

  lemma ClauseInRange(st: Store, cr: nat)
    requires StoreOk(st) && st.Live(cr)
    ensures forall l :: l in st.ca[cr] ==> l.v < |st.assigns|
  {
    forall l | l in st.ca[cr] ensures l.v < |st.assigns| {
      var k :| 0 <= k < |st.ca[cr]| && st.ca[cr][k] == l;
    }
  }

  /** The values, the clauses that are left and the first `k` learnt ones. */
  ghost predicate SatLearnt(st: Store, learnts: seq<Clause>, k: nat, m: Model) {
    SatUpTo(st, |st.assigns|, |st.ca|, m) && forall j :: 0 <= j < k && j < |learnts| ==> SatClause(m, learnts[j])
  }

  ghost function Held(st: Store, learnts: seq<Clause>, k: nat): iset<Model> { iset m: Model | SatLearnt(st, learnts, k, m) }

  lemma NothingLearnt(st: Store, learnts: seq<Clause>)
    ensures Held(st, learnts, 0) == Spec(st, |st.assigns|, |st.ca|)
  {
  }

  lemma OneMoreLearnt(st: Store, learnts: seq<Clause>, k: nat)
    requires k < |learnts|
    ensures With(Held(st, learnts, k), learnts[k]) == Held(st, learnts, k + 1)
  {
  }

  method LoadValues(s: SimpSolver) returns (k: K.Solver)
    ensures fresh(k) && Means(k, Spec(s.St(), |s.assigns|, 0))
    ensures |k.assigns| == |k.decision| == |s.assigns| && forall v :: 0 <= v < |k.decision| ==> k.decision[v]
  {
    hide Means, Spec, With;
    k := new K.Solver(|s.assigns|);
    ghost var st := s.St();
    NothingYet(st, k);
    for v := 0 to |s.assigns|
      invariant Means(k, Spec(st, v, 0)) && |k.assigns| == |k.decision| == |s.assigns|
      invariant forall u :: 0 <= u < |k.decision| ==> k.decision[u]
    {
      OneMoreValue(st, v);
      if s.assigns[v] != LUndef {
        Add(k, [Lit(v, s.assigns[v] == LFalse)], Spec(st, v, 0));
      }
    }
  }

  /** A kernel that holds what is left after simplification. */
  method LoadStore(s: SimpSolver) returns (k: K.Solver)
    requires s.Inv()
    ensures fresh(k) && Means(k, Spec(s.St(), |s.assigns|, |s.ca|))
    ensures |k.assigns| == |k.decision| == |s.assigns| && forall v :: 0 <= v < |k.decision| ==> k.decision[v]
  {
    hide Means, Spec, With, Flatten, Ordered, Preserves, RecordOk, OccursOk, InUse, SignaturesOk;
    k := LoadValues(s);
    ghost var st := s.St();
    for cr := 0 to |s.ca|
      invariant Means(k, Spec(st, |s.assigns|, cr)) && |k.assigns| == |k.decision| == |s.assigns|
      invariant forall u :: 0 <= u < |k.decision| ==> k.decision[u]
    {
      OneMoreClause(st, cr);
      if !s.dead[cr] {
        ClauseInRange(st, cr);
        Add(k, s.ca[cr], Spec(st, |s.assigns|, cr));
      }
    }
  }

  /** The same with what has been learnt before. */
  method Load(s: SimpSolver) returns (k: K.Solver)
    requires s.Usable() && s.ok
    ensures fresh(k) && Means(k, Held(s.St(), s.learnts, |s.learnts|))
    ensures |k.assigns| == |k.decision| == |s.assigns| && forall v :: 0 <= v < |k.decision| ==> k.decision[v]
  {
    hide Means, Spec, Held, With, SimpSolver.Inv, LearntsOk;
    k := LoadStore(s);
    ghost var st := s.St();
    NothingLearnt(st, s.learnts);
    for j := 0 to |s.learnts|
      invariant Means(k, Held(st, s.learnts, j)) && |k.assigns| == |k.decision| == |s.assigns|
      invariant forall u :: 0 <= u < |k.decision| ==> k.decision[u]
    {
      OneMoreLearnt(st, s.learnts, j);
      LearntInRange(s.orig, s.learnts, |s.assigns|, j);
      Add(k, s.learnts[j], Held(st, s.learnts, j));
    }
  }

  lemma LearntInRange(orig: seq<Clause>, learnts: seq<Clause>, n: nat, j: nat)
    requires LearntsOk(orig, learnts, n) && j < |learnts|
    ensures forall l :: l in learnts[j] ==> l.v < n
  {
    assert learnts[j] in learnts;
  }

  /** Freezes the variables of the assumptions; `extra` are those that were not frozen before. */
  method Freeze(s: SimpSolver, assumptions: seq<Lit>) returns (extra: seq<nat>)
    requires forall l :: l in assumptions ==> l.v < |s.frozen|
    modifies s`frozen
    ensures |s.frozen| == |old(s.frozen)| && (forall v :: v in extra ==> v < |s.frozen| && !old(s.frozen)[v])
    ensures forall v :: 0 <= v < |s.frozen| ==> s.frozen[v] == (old(s.frozen)[v] || v in extra)
    ensures forall l :: l in assumptions ==> l.v < |s.frozen| && s.frozen[l.v]
  {
    extra := [];
    for i := 0 to |assumptions|
      invariant |s.frozen| == |old(s.frozen)| && (forall v :: v in extra ==> v < |s.frozen| && !old(s.frozen)[v])
      invariant forall v :: 0 <= v < |s.frozen| ==> s.frozen[v] == (old(s.frozen)[v] || v in extra)
      invariant forall k :: 0 <= k < i ==> assumptions[k].v < |s.frozen| && s.frozen[assumptions[k].v]
    {
      var v := assumptions[i].v;
      assert assumptions[i] in assumptions;
      if !s.frozen[v] {
        s.frozen := s.frozen[v := true];
        extra := extra + [v];
      }
    }
  }

  method Unfreeze(s: SimpSolver, extra: seq<nat>)
    requires forall v :: v in extra ==> v < |s.frozen|
    modifies s`frozen
    ensures |s.frozen| == |old(s.frozen)| && forall v :: 0 <= v < |s.frozen| ==> s.frozen[v] == (old(s.frozen)[v] && v !in extra)
  {
    for i := 0 to |extra|
      invariant |s.frozen| == |old(s.frozen)|
      invariant forall v :: 0 <= v < |s.frozen| ==> s.frozen[v] == (old(s.frozen)[v] && v !in extra[..i])
    {
      assert extra[i] in extra && extra[..i + 1] == extra[..i] + [extra[i]];
      s.frozen := s.frozen[extra[i] := false];
    }
    assert extra[..|extra|] == extra;
  }

  ghost predicate NegatedOnly(conflict: set<Lit>, assumptions: seq<Lit>) {
    forall l :: l in conflict ==> Neg(l) in assumptions
  }

  /** Decides the original clauses under assumptions, after simplification unless that is off. A model is extended so that
      it satisfies all of them. After the answer "unsatisfiable" one literal of `conflict` holds in every model; but the
      conflict is that of an earlier call if `simplified` is false, that is, if simplification has failed. The variables of
      the assumptions are frozen for as long as simplification takes. */
  method Solve(s: SimpSolver, assumptions: seq<Lit>, simplify: bool, turnOff: bool, rounds: seq<seq<nat>>)
    returns (sat: bool, ghost simplified: bool)
    requires s.Usable() && forall l :: l in assumptions ==> l.v < |s.eliminated| && !s.eliminated[l.v]
    requires forall order, v :: order in rounds && v in order ==> v < |s.assigns|
    modifies s
    ensures s.Usable() && s.orig == old(s.orig) && s.frozen == old(s.frozen) && (!old(s.ok) ==> !s.ok)
    ensures sat <==> exists m :: SatAll(s.orig, m) && AllMade(m, assumptions)
    ensures sat ==> s.ok && |s.model| == |s.assigns| && forall l :: l in assumptions ==> Value(s.model, l) == LTrue
    ensures sat ==> forall c: Clause :: c in s.orig ==> exists l :: l in c && Value(s.model, l) == LTrue
    ensures sat ==> simplified && s.conflict == {}
    ensures !sat ==> forall m :: SatAll(s.orig, m) ==> exists l :: l in s.conflict && Makes(m, l)
    ensures !sat ==> (NegatedOnly(s.conflict, assumptions) <==> simplified || NegatedOnly(old(s.conflict), assumptions))
    ensures !simplified ==> simplify && old(s.useSimplification) && !s.ok && s.conflict == old(s.conflict)
    ensures simplified && simplify && old(s.useSimplification) ==> old(s.ok)
    ensures simplified && simplify && old(s.useSimplification) && rounds != [] ==>
              CanBeSubsumed(old(s.St()), old(s.queue), old(s.bwdsubAssigns), s.subsumptionLim)
    ensures !simplify ==> s.ca == old(s.ca) && s.dead == old(s.dead) && s.queue == old(s.queue)
    ensures !simplify ==> s.bwdsubAssigns == old(s.bwdsubAssigns) && s.eliminated == old(s.eliminated)
    ensures !simplify ==> s.useSimplification == old(s.useSimplification)
    ensures |s.assigns| == |old(s.assigns)| && |s.eliminated| == |old(s.eliminated)|
  {
    hide SimpSolver.Shape, RecordOk, Preserves, Sat, SatAll, AllMade, TakenFrom, Kept, LearntsOk, CanBeSubsumed, NegatedOnly;
    var simp := simplify && s.useSimplification;
    ghost var frozen := s.frozen;
    var extra: seq<nat>, alive := [], true;
    if simp {
      extra := Freeze(s, assumptions);
      ghost var eliminated := s.eliminated;
      alive := s.Eliminate(turnOff, rounds);
      if alive { StillUsed(eliminated, s.eliminated, AllOf(rounds), s.frozen, assumptions); }
    }
    simplified := alive;
    sat := false;
    if alive {
      sat := SolveRest(s, assumptions);
    }
    if simp {
      Unfreeze(s, extra);
    }
    assert s.frozen == frozen;
  }

  lemma StillUsed(a: seq<bool>, b: seq<bool>, vs: set<nat>, frozen: seq<bool>, assumptions: seq<Lit>)
    requires TakenFrom(a, b, vs, frozen)
    requires forall l :: l in assumptions ==> l.v < |a| && !a[l.v] && l.v < |frozen| && frozen[l.v]
    ensures forall l :: l in assumptions ==> l.v < |b| && !b[l.v]
  {
  }

  /** Lets the kernel solve what is left, and keeps what it has learnt. */
  method SolveRest(s: SimpSolver, assumptions: seq<Lit>) returns (sat: bool)
    requires s.Usable() && forall l :: l in assumptions ==> l.v < |s.eliminated| && !s.eliminated[l.v]
    modifies s`model, s`conflict, s`ok, s`learnts, s`assigns, s`trail
    ensures s.Usable() && (!old(s.ok) ==> !s.ok) && |s.assigns| == |old(s.assigns)|
    ensures sat <==> exists m :: SatAll(s.orig, m) && AllMade(m, assumptions)
    ensures sat ==> s.ok && |s.model| == |s.assigns| && forall l :: l in assumptions ==> Value(s.model, l) == LTrue
    ensures sat ==> forall c: Clause :: c in s.orig ==> exists l :: l in c && Value(s.model, l) == LTrue
    ensures if sat then s.conflict == {} else NegatedOnly(s.conflict, assumptions)
    ensures !sat ==> forall m :: SatAll(s.orig, m) ==> exists l :: l in s.conflict && Makes(m, l)
  {
    hide SimpSolver.Shape, RecordOk, Preserves, SatAll, AllMade, LearntsOk, Means, Held;
    s.model, s.conflict := [], {};
    if !s.ok {
      return false;
    }
    s.EliminatedSize();
    var k := Load(s);
    sat := Decide(s, k, assumptions);
    if k.ok {
      Remember(s, k);
    } else {
      s.ok := false;
    }
  }

  /** Puts the question to a kernel that has been loaded. */
  method Decide(s: SimpSolver, k: K.Solver, assumptions: seq<Lit>) returns (sat: bool)
    requires s.Usable() && s.ok && s.conflict == {} && Means(k, Held(s.St(), s.learnts, |s.learnts|))
    requires |k.assigns| == |k.decision| == |s.assigns| && forall v :: 0 <= v < |k.decision| ==> k.decision[v]
    requires forall l :: l in assumptions ==> l.v < |s.eliminated| && !s.eliminated[l.v]
    modifies s`model, s`conflict, k
    ensures sat <==> exists m :: SatAll(s.orig, m) && AllMade(m, assumptions)
    ensures sat ==> |s.model| == |s.assigns| && forall l :: l in assumptions ==> Value(s.model, l) == LTrue
    ensures sat ==> forall c: Clause :: c in s.orig ==> exists l :: l in c && Value(s.model, l) == LTrue
    ensures if sat then s.conflict == {} else NegatedOnly(s.conflict, assumptions)
    ensures !sat ==> forall m :: SatAll(s.orig, m) ==> exists l :: l in s.conflict && Makes(m, l)
    ensures if k.ok then k.Idle() && |k.assigns| == |s.assigns| && forall m :: SatAll(s.orig, m) ==> M.Problem(k.T(), k.D(), m)
            else forall m :: !SatAll(s.orig, m)
  {
    hide Flatten, Ordered, Preserves, RecordOk, Held, Sat, SatAll, AllMade, NegatedOnly, LearntsOk, K.ModelFor, K.CoreFor,
         SimpSolver.Shape, K.Solver.Valid, M.SameProblem;
    s.EliminatedSize();
    ghost var t, d, ready := k.T(), k.D(), k.ok;
    ghost var st, learnts := s.St(), s.learnts;
    var status, model := k.Solve(assumptions);
    sat := status == LTrue;
    if sat {
      FromModel(st, learnts, t, d, k.decision, model, assumptions);
      s.Equisatisfiable(assumptions);
      s.model := model;
      s.Complete();
    } else {
      s.conflict := k.conflict;
      Refuted(st, s.orig, s.record, learnts, |s.assigns|, ready, t, d, k.conflict, assumptions);
    }
    if k.ok {
      Carried(st, s.orig, s.record, learnts, |s.assigns|, t, d, k.T(), k.D());
    }
  }

  /** Keeps the learnt clauses and the values on level 0 for the next call. */
  method Remember(s: SimpSolver, k: K.Solver)
    requires s.Usable() && s.ok && k.Idle() && k.ok && |k.assigns| == |s.assigns|
    requires forall m :: SatAll(s.orig, m) ==> M.Problem(k.T(), k.D(), m)
    modifies s`learnts, s`assigns, s`trail, s`ok
    ensures s.Usable() && |s.assigns| == |old(s.assigns)|
    ensures forall c: Clause :: c in old(s.learnts) ==> c in s.learnts
    ensures forall cr :: k.D().Live(cr) && cr < |k.learnt| && k.learnt[cr] ==> k.ca[cr] in s.learnts
    ensures s.ok ==> forall l :: l in k.trail ==> Value(s.assigns, l) == LTrue || [l] in s.learnts
  {
    hide SimpSolver.Shape, RecordOk, Preserves, SatAll, LearntsOk, Entailed, Kept;
    k.DbSizes();
    for cr := 0 to |k.ca|
      invariant s.Usable() && s.ok && |s.assigns| == |old(s.assigns)| && forall c: Clause :: c in old(s.learnts) ==> c in s.learnts
      invariant forall b :: 0 <= b < cr && k.D().Live(b) && k.learnt[b] ==> k.ca[b] in s.learnts
    {
      if !k.dead[cr] && k.learnt[cr] {
        LearntEntailed(s.orig, k.T(), k.D(), cr);
        LearntMore(s.orig, s.learnts, |s.assigns|, k.ca[cr]);
        s.learnts := s.learnts + [k.ca[cr]];
      }
    }
    for i := 0 to |k.trail|
      invariant s.Usable() && |s.assigns| == |old(s.assigns)| && forall c: Clause :: c in old(s.learnts) ==> c in s.learnts
      invariant forall b :: k.D().Live(b) && b < |k.learnt| && k.learnt[b] ==> k.ca[b] in s.learnts
      invariant s.ok ==> forall j :: 0 <= j < i ==> Value(s.assigns, k.trail[j]) == LTrue || [k.trail[j]] in s.learnts
    {
      if s.ok {
        ghost var before := s.assigns;
        RootEntailed(s.orig, k.T(), k.D(), i);
        s.KeepValue(k.trail[i]);
        KeptSize(before, s.assigns);
        KeptTrue(before, s.assigns);
      }
    }
  }

  lemma LearntEntailed(orig: seq<Clause>, t: T.Trail, d: W.Db, cr: nat)
    requires W.Kernel(t, d, |t.lits|, {}, 0) || exists place :: W.Kernel(t, d, place, {}, 0)
    requires M.Learned(t, d) && d.Live(cr) && forall m :: SatAll(orig, m) ==> M.Problem(t, d, m)
    ensures Entailed(orig, d.ca[cr]) && forall l :: l in d.ca[cr] ==> l.v < t.Size()
  {
    hide SatAll, M.Problem;
    forall l | l in d.ca[cr] ensures l.v < t.Size() { var j :| 0 <= j < |d.ca[cr]| && d.ca[cr][j] == l; }
  }

  lemma RootEntailed(orig: seq<Clause>, t: T.Trail, d: W.Db, i: nat)
    requires T.TrailOk(t) && t.lim == [] && i < |t.lits| && forall m :: SatAll(orig, m) ==> M.Problem(t, d, m)
    ensures Entailed(orig, [t.lits[i]]) && t.lits[i].v < t.Size()
  {
    hide SatAll;
    forall m | SatAll(orig, m) ensures SatClause(m, [t.lits[i]]) { SingleSat(m, [t.lits[i]]); }
  }

  lemma LearntMore(orig: seq<Clause>, learnts: seq<Clause>, n: nat, c: Clause)
    requires LearntsOk(orig, learnts, n) && Entailed(orig, c) && forall l :: l in c ==> l.v < n
    ensures LearntsOk(orig, learnts + [c], n)
  {
    hide Entailed;
  }

  lemma KeptTrue(a: seq<LB>, b: seq<LB>)
    requires Kept(a, b)
    ensures forall l :: Value(a, l) == LTrue ==> Value(b, l) == LTrue
  {
  }

  lemma OriginalHeld(st: Store, orig: seq<Clause>, record: seq<Clause>, learnts: seq<Clause>, n: nat, m: Model)
    requires Preserves(orig, record, st) && LearntsOk(orig, learnts, n) && SatAll(orig, m)
    ensures m in Held(st, learnts, |learnts|)
  {
    hide SatAll, SatClause, Extend, Sat, SatUpTo;
    AllSat(st, m);
    forall j | 0 <= j < |learnts| ensures SatClause(m, learnts[j]) { assert learnts[j] in learnts; }
  }

  /** Every model of the original clauses is one of what the kernel holds. */
  lemma Carried(st: Store, orig: seq<Clause>, record: seq<Clause>, learnts: seq<Clause>, n: nat, t: T.Trail, d: W.Db, u: T.Trail, e: W.Db)
    requires Preserves(orig, record, st) && LearntsOk(orig, learnts, n) && M.SameProblem(t, d, u, e)
    requires forall m :: M.Problem(t, d, m) <==> m in Held(st, learnts, |learnts|)
    ensures forall m :: SatAll(orig, m) ==> M.Problem(u, e, m)
  {
    hide SatAll, M.Problem, Held;
    forall m | SatAll(orig, m) ensures M.Problem(u, e, m) { OriginalHeld(st, orig, record, learnts, n, m); }
  }

  lemma FromModel(st: Store, learnts: seq<Clause>, t: T.Trail, d: W.Db, decision: seq<bool>, model: seq<LB>, hyps: seq<Lit>)
    requires K.ModelFor(t, d, decision, model, hyps) && (forall v :: 0 <= v < |decision| ==> decision[v])
    requires forall m :: M.Problem(t, d, m) <==> m in Held(st, learnts, |learnts|)
    requires forall l :: l in hyps ==> l.v < |decision|
    ensures |model| == |decision| && (forall v :: 0 <= v < |model| ==> model[v] != LUndef)
    ensures forall m :: Agrees(model, m) ==> Sat(st, m)
    ensures exists m :: Sat(st, m) && AllMade(m, hyps)
    ensures forall l :: l in hyps ==> Value(model, l) == LTrue
  {
    hide Sat, SatUpTo;
    forall m | Agrees(model, m) ensures Sat(st, m) {
      assert K.Completes(model, m);
      AllSat(st, m);
    }
    var m := iset v: nat | v < |model| && model[v] == LTrue;
    assert Agrees(model, m) && K.Completes(model, m);
    assert Sat(st, m) && AllMade(m, hyps);
  }

  lemma Refuted(st: Store, orig: seq<Clause>, record: seq<Clause>, learnts: seq<Clause>, n: nat, ready: bool, t: T.Trail, d: W.Db,
                conflict: set<Lit>, hyps: seq<Lit>)
    requires Preserves(orig, record, st) && LearntsOk(orig, learnts, n)
    requires if ready then K.CoreFor(t, d, conflict, hyps) && forall m :: M.Problem(t, d, m) <==> m in Held(st, learnts, |learnts|)
             else conflict == {} && Held(st, learnts, |learnts|) == iset{}
    ensures NegatedOnly(conflict, hyps)
    ensures forall m :: SatAll(orig, m) ==> exists l :: l in conflict && Makes(m, l)
    ensures !exists m :: SatAll(orig, m) && AllMade(m, hyps)
  {
    hide SatAll, M.Problem, Held, K.EndsAt, Preserves, LearntsOk;
    forall m | SatAll(orig, m) ensures exists l :: l in conflict && Makes(m, l) {
      OriginalHeld(st, orig, record, learnts, n, m);
    }
  }
}
