/** One solver for all queries: clauses are added behind activation variables and taken out of use by releasing these. */
module Sessions {
  import opened Lbools
  import opened Aigs
  import opened Frames
  import opened Queries
  import opened ClauseSets
  import opened Encoding
  import L = Literals
  import M = Meaning
  import K = Kernels
  import T = Trails
  import W = Watching

  /** The gates, the clauses behind their activation variables, and the released variables. */
  ghost predicate HoldsAll(g: Circuit, held: seq<Clause>, acts: seq<nat>, off: set<nat>, m: L.Model) {
    && GatesSat(g, |g.nodes|, m)
    && (forall i :: 0 <= i < |held| && i < |acts| ==> GuardSat(g, held[i], L.Lit(acts[i], false), m))
    && forall v :: v in off ==> v !in m
  }

  ghost function Holding(g: Circuit, held: seq<Clause>, acts: seq<nat>, off: set<nat>): iset<L.Model> {
    iset m: L.Model | HoldsAll(g, held, acts, off, m)
  }

  /** Activation variables are no nodes and different from each other. */
  ghost predicate ActsOk(g: Circuit, acts: seq<nat>, n: nat) {
    && |g.nodes| <= n && (forall i :: 0 <= i < |acts| ==> |g.nodes| <= acts[i] < n)
    && forall i, j :: 0 <= i < j < |acts| ==> acts[i] != acts[j]
  }

  /** The values of a step, with exactly those clauses switched on that hold in it and have not been released. */
  ghost predicate StepValue(g: Circuit, held: seq<Clause>, acts: seq<nat>, off: set<nat>, s: State, x: seq<bool>, v: nat)
    requires |s| == |g.latches| && |x| == |g.inputs|
  {
    if v < |g.nodes| then Eval(g, v, s, x)
    else v !in off && exists i :: 0 <= i < |held| && i < |acts| && acts[i] == v && SatClause(held[i], s)
  }

  ghost function StepModel(g: Circuit, held: seq<Clause>, acts: seq<nat>, off: set<nat>, s: State, x: seq<bool>): L.Model
    requires |s| == |g.latches| && |x| == |g.inputs|
  {
    iset v: nat | StepValue(g, held, acts, off, s, x, v)
  }

  /** The nodes have their values of the step. */
  ghost predicate NodeValues(g: Circuit, m: L.Model, s: State, x: seq<bool>)
    requires |s| == |g.latches| && |x| == |g.inputs|
  {
    forall v :: 0 <= v < |g.nodes| ==> (v in m <==> Eval(g, v, s, x))
  }

  lemma NodeMakes(g: Circuit, m: L.Model, s: State, x: seq<bool>, l: nat)
    requires |s| == |g.latches| && |x| == |g.inputs| && NodeValues(g, m, s, x)
    ensures L.Makes(m, NodeLit(g, l)) <==> Var(l) < |g.nodes| && EvalLit(g, l, s, x)
  {
    assert |g.nodes| > 0 && g.nodes[0] == Const;
  }

  lemma InMakes(g: Circuit, m: L.Model, s: State, x: seq<bool>, l: LLit)
    requires |s| == |g.latches| && |x| == |g.inputs| && NodeValues(g, m, s, x)
    ensures L.Makes(m, InLit(g, l)) <==> Holds(l, s)
  {
    assert |g.nodes| > 0 && g.nodes[0] == Const;
    if l.latch < |g.latches| { assert g.nodes[Var(g.latches[l.latch].lit)] == Latch(l.latch); }
  }

  lemma OutMakes(g: Circuit, m: L.Model, s: State, x: seq<bool>, l: LLit)
    requires |s| == |g.latches| && |x| == |g.inputs| && NodeValues(g, m, s, x)
    ensures L.Makes(m, OutLit(g, l)) <==> Holds(l, Next(g, s, x))
  {
    assert |g.nodes| > 0 && g.nodes[0] == Const;
    if l.latch < |g.latches| { assert Var(g.latches[l.latch].next) < |g.nodes|; }
  }

  /** Every step of the circuit is a model of what the solver holds, whatever has been added and released. */
  lemma StepHeld(g: Circuit, held: seq<Clause>, acts: seq<nat>, off: set<nat>, n: nat, s: State, x: seq<bool>)
    requires IsState(g, s) && IsInput(g, x) && ActsOk(g, acts, n) && forall v :: v in off ==> v >= |g.nodes|
    ensures NodeValues(g, StepModel(g, held, acts, off, s, x), s, x)
    ensures HoldsAll(g, held, acts, off, StepModel(g, held, acts, off, s, x))
  {
    var m := StepModel(g, held, acts, off, s, x);
    assert NodeValues(g, m, s, x);
    forall v | 0 <= v < |g.nodes| ensures GateSat(g, m, v) {
      if g.nodes[v].And? {
        NodeMakes(g, m, s, x, g.nodes[v].rhs0);
        NodeMakes(g, m, s, x, g.nodes[v].rhs1);
      }
    }
    forall i | 0 <= i < |held| && i < |acts| ensures GuardSat(g, held[i], L.Lit(acts[i], false), m) {
      if L.Makes(m, L.Lit(acts[i], false)) {
        var l :| l in held[i] && Holds(l, s);
        InMakes(g, m, s, x, l);
      }
    }
  }

  lemma NeverEmpty(g: Circuit, held: seq<Clause>, acts: seq<nat>, off: set<nat>, n: nat)
    requires ActsOk(g, acts, n) && forall v :: v in off ==> v >= |g.nodes|
    ensures Holding(g, held, acts, off) != iset{}
  {
    hide HoldsAll;
    var s, x := seq(|g.latches|, _ => false), seq(|g.inputs|, _ => false);
    StepHeld(g, held, acts, off, n, s, x);
    assert StepModel(g, held, acts, off, s, x) in Holding(g, held, acts, off);
  }

  lemma NothingHeld(g: Circuit)
    ensures Holding(g, [], [], {}) == GatesUpTo(g, |g.nodes|)
  {
  }

  lemma OneMoreHeld(g: Circuit, held: seq<Clause>, acts: seq<nat>, off: set<nat>, c: Clause, v: nat)
    requires |acts| == |held|
    ensures With(Holding(g, held, acts, off), Guarded(g, c, L.Lit(v, false))) == Holding(g, held + [c], acts + [v], off)
  {
    hide GuardSat, Guarded, GatesSat;
    forall m: L.Model ensures m in With(Holding(g, held, acts, off), Guarded(g, c, L.Lit(v, false)))
                          <==> m in Holding(g, held + [c], acts + [v], off)
    {
      GuardedMeaning(g, c, L.Lit(v, false), m);
      if HoldsAll(g, held + [c], acts + [v], off, m) {
        forall i | 0 <= i < |held| ensures GuardSat(g, held[i], L.Lit(acts[i], false), m) {
          assert (held + [c])[i] == held[i] && (acts + [v])[i] == acts[i];
        }
        assert (held + [c])[|held|] == c && (acts + [v])[|held|] == v;
      }
    }
  }

  lemma OneMoreOff(g: Circuit, held: seq<Clause>, acts: seq<nat>, off: set<nat>, v: nat, m: L.Model)
    ensures m in Holding(g, held, acts, off + {v}) <==> m in Holding(g, held, acts, off) && L.SatClause(m, [L.Lit(v, true)])
  {
    hide GuardSat, GatesSat;
    var l := L.Lit(v, true);
    assert [l][0] == l && forall e :: e in [l] ==> e == l;
    assert L.Makes(m, l) <==> v !in m;
    assert L.SatClause(m, [l]) <==> L.Makes(m, l);
  }

  lemma ActsGrow(g: Circuit, acts: seq<nat>, n: nat)
    requires ActsOk(g, acts, n)
    ensures ActsOk(g, acts + [n], n + 1)
  {
  }

  lemma GuardedVars(g: Circuit, c: Clause, v: nat, n: nat)
    requires |g.nodes| <= v < n
    ensures forall l :: l in Guarded(g, c, L.Lit(v, false)) ==> l.v < n
  {
    assert |g.nodes| > 0;
    forall l: LLit ensures InLit(g, l).v < |g.nodes| {}
  }

  lemma ActsWider(g: Circuit, acts: seq<nat>, n: nat)
    requires ActsOk(g, acts, n)
    ensures ActsOk(g, acts, n + 1)
  {
  }

  lemma ActInRange(g: Circuit, acts: seq<nat>, n: nat, i: nat)
    requires ActsOk(g, acts, n) && i < |acts|
    ensures |g.nodes| <= acts[i] < n
  {
  }

  lemma StillAnswers(k: K.Solver, spec: iset<L.Model>)
    requires Means(k, spec) && spec != iset{}
    ensures k.ok
  {
  }

  /** A literal with a value on level 0 has it in every model. */
  lemma RootValues(k: K.Solver, l: L.Lit)
    requires k.Idle() && k.ok
    ensures k.T().Val(l) == LTrue ==> forall m :: M.Problem(k.T(), k.D(), m) ==> L.SatClause(m, [l])
    ensures k.T().Val(l) == LFalse ==> forall m :: M.Problem(k.T(), k.D(), m) ==> !L.SatClause(m, [l])
  {
    var t := k.T();
    assert forall e :: e in [l] ==> e == l;
    assert [l][0] == l;
    if t.Val(l) != LUndef {
      var h := t.lits[t.pos[l.v]];
      assert t.Val(h) == LTrue && h.v == l.v;
      forall m | M.Problem(k.T(), k.D(), m) ensures L.SatClause(m, [l]) <==> t.Val(l) == LTrue {
        assert L.Makes(m, h);
      }
    }
  }

  ghost predicate IsHeld(t: T.Trail, d: W.Db, spec: iset<L.Model>) { forall m :: M.Problem(t, d, m) <==> m in spec }

  lemma StillHeld(t: T.Trail, d: W.Db, u: T.Trail, e: W.Db, spec: iset<L.Model>)
    requires IsHeld(t, d, spec)
    ensures M.SameProblem(t, d, u, e) ==> forall m :: M.Problem(u, e, m) <==> m in spec
  {
  }

  lemma NotEmptyCore(t: T.Trail, d: W.Db, spec: iset<L.Model>, conflict: set<L.Lit>, hyps: seq<L.Lit>)
    requires IsHeld(t, d, spec) && spec != iset{} && K.CoreFor(t, d, conflict, hyps)
    ensures conflict != {}
  {
    var m :| m in spec;
    assert M.Problem(t, d, m);
  }

  ghost predicate SwitchesOf(acts: seq<nat>, used: set<nat>, hyps: seq<L.Lit>)
    requires forall i :: i in used ==> i < |acts|
  {
    forall h :: h in hyps <==> exists i :: i in used && h == L.Lit(acts[i], false)
  }

  lemma AskVars(g: Circuit, acts: seq<nat>, n: nat, used: set<nat>, hyps: seq<L.Lit>, post: seq<LLit>, prop: seq<nat>)
    requires ActsOk(g, acts, n) && (forall i :: i in used ==> i < |acts|) && SwitchesOf(acts, used, hyps)
    ensures |g.nodes| <= n && forall h :: h in hyps + Demands(g, post, prop) ==> h.v < n
  {
    hide Demands;
    assert |g.nodes| > 0;
    forall h | h in Demands(g, post, prop) ensures h.v < n {
      DemandsMember(g, post, prop, h);
    }
  }

  function CoreActs(acts: seq<nat>, used: set<nat>, conflict: set<L.Lit>): set<nat> {
    set i | i in used && i < |acts| && L.Lit(acts[i], true) in conflict
  }

  function CorePost(g: Circuit, post: seq<LLit>, conflict: set<L.Lit>): set<LLit> {
    set l | l in post && L.Neg(OutLit(g, l)) in conflict
  }

  lemma CoreWithin(acts: seq<nat>, all: set<nat>, used: set<nat>, conflict: set<L.Lit>)
    requires used <= all
    ensures CoreActs(acts, all, conflict) * used == CoreActs(acts, used, conflict)
  {
  }

  /** The final conflict of the query, which the search has read off its reasons. */
  ghost predicate CoreOf(g: Circuit, acts: seq<nat>, used: set<nat>, post: seq<LLit>, prop: seq<nat>, t: T.Trail, d: W.Db,
                         conflict: set<L.Lit>)
    requires forall i :: i in used ==> i < |acts|
  {
    exists hyps :: SwitchesOf(acts, used, hyps) && K.CoreFor(t, d, conflict, hyps + Demands(g, post, prop))
  }

  /** A model under the assumptions gives a step that answers the query. */
  lemma Found(g: Circuit, held: seq<Clause>, acts: seq<nat>, off: set<nat>, used: set<nat>, hyps: seq<L.Lit>, post: seq<LLit>,
              prop: seq<nat>, t: T.Trail, d: W.Db, decision: seq<bool>, values: seq<LB>)
    requires IsHeld(t, d, Holding(g, held, acts, off)) && |acts| == |held| && |decision| >= |g.nodes|
    requires (forall i :: i in used ==> i < |acts|) && SwitchesOf(acts, used, hyps)
    requires K.ModelFor(t, d, decision, values, hyps + Demands(g, post, prop))
    requires forall v :: 0 <= v < |decision| ==> decision[v]
    ensures |values| >= |g.nodes| && Model(g, Query(held, used, [], post, prop), StateOf(g, values), InputOf(g, values))
  {
    hide Demands, GuardSat, GatesSat, StateOf, InputOf, NodeLit, OutLit, M.Problem;
    var m := TrueVars(values);
    assert K.Completes(values, m) && m in Holding(g, held, acts, off) && m in GatesUpTo(g, |g.nodes|);
    StepSizes(g, values);
    var s, x := StateOf(g, values), InputOf(g, values);
    forall i | i in used ensures SatClause(held[i], s) {
      assert L.Lit(acts[i], false) in hyps;
      ModelGuard(g, values, held[i], L.Lit(acts[i], false));
    }
    forall p | p in prop ensures Var(p) < |g.nodes| && EvalLit(g, p, s, x) {
      DemandsMember(g, post, prop, NodeLit(g, p));
      ModelNode(g, values, p);
    }
    forall l | l in post ensures Holds(l, Next(g, s, x)) {
      DemandsMember(g, post, prop, OutLit(g, l));
      ModelOut(g, values, l);
    }
  }

  /** The negated assumptions of the core cannot all be false in a step. */
  lemma NotFound(g: Circuit, held: seq<Clause>, acts: seq<nat>, off: set<nat>, n: nat, used: set<nat>, hyps: seq<L.Lit>,
                 post: seq<LLit>, prop: seq<nat>, t: T.Trail, d: W.Db, conflict: set<L.Lit>)
    requires IsHeld(t, d, Holding(g, held, acts, off)) && |acts| == |held| && ActsOk(g, acts, n)
    requires (forall i :: i in used ==> i < |acts| && acts[i] !in off) && SwitchesOf(acts, used, hyps)
    requires K.CoreFor(t, d, conflict, hyps + Demands(g, post, prop)) && forall v :: v in off ==> v >= |g.nodes|
    ensures Refutes(g, held, CoreActs(acts, used, conflict), [], prop, CorePost(g, post, conflict))
  {
    hide Demands, HoldsAll, M.Problem, CorePost;
    forall s, x | IsState(g, s) && IsInput(g, x) && ActsHold(held, CoreActs(acts, used, conflict), s) && PropHolds(g, prop, s, x)
      ensures exists l :: l in CorePost(g, post, conflict) && !Holds(l, Next(g, s, x))
    {
      StepHeld(g, held, acts, off, n, s, x);
      var m := StepModel(g, held, acts, off, s, x);
      assert m in Holding(g, held, acts, off);
      var e :| e in conflict && L.Makes(m, e);
      var l := NotInStep(g, held, acts, off, used, hyps, post, prop, conflict, s, x, e);
    }
  }

  lemma NotInStep(g: Circuit, held: seq<Clause>, acts: seq<nat>, off: set<nat>, used: set<nat>, hyps: seq<L.Lit>,
                  post: seq<LLit>, prop: seq<nat>, conflict: set<L.Lit>, s: State, x: seq<bool>, e: L.Lit) returns (l: LLit)
    requires IsState(g, s) && IsInput(g, x) && |acts| == |held| && e in conflict
    requires (forall i :: i in used ==> i < |acts| && acts[i] !in off && acts[i] >= |g.nodes|) && SwitchesOf(acts, used, hyps)
    requires L.Neg(e) in hyps + Demands(g, post, prop)
    requires NodeValues(g, StepModel(g, held, acts, off, s, x), s, x) && L.Makes(StepModel(g, held, acts, off, s, x), e)
    requires ActsHold(held, CoreActs(acts, used, conflict), s) && PropHolds(g, prop, s, x)
    ensures l in CorePost(g, post, conflict) && !Holds(l, Next(g, s, x))
  {
    hide Demands, NodeLit, OutLit;
    var m := StepModel(g, held, acts, off, s, x);
    assert !L.Makes(m, L.Neg(e)) && L.Neg(L.Neg(e)) == e;
    DemandsMember(g, post, prop, L.Neg(e));
    forall i | i in used && L.Lit(acts[i], true) in conflict ensures L.Makes(m, L.Lit(acts[i], false)) {
      assert i in CoreActs(acts, used, conflict);
      assert SatClause(held[i], s);
    }
    forall p | p in prop ensures L.Neg(e) != NodeLit(g, p) { NodeMakes(g, m, s, x, p); }
    l :| l in post && L.Neg(e) == OutLit(g, l);
    OutMakes(g, m, s, x, l);
  }

  function Range(a: nat, b: nat): set<nat> { if a >= b then {} else Range(a, b - 1) + {b - 1} }

  lemma {:induction false} RangeMember(a: nat, b: nat)
    ensures forall j: nat :: j in Range(a, b) <==> a <= j < b
  {
    if a < b { RangeMember(a, b - 1); }
  }

  /** With the further clauses `hyps` at the end of what is held. */
  lemma WithHyps(g: Circuit, held: seq<Clause>, hyps: seq<Clause>, used: set<nat>, acts: set<nat>, post: seq<LLit>, prop: seq<nat>,
                 core: set<LLit>)
    requires forall i :: i in used ==> i < |held|
    requires acts <= used + Range(|held|, |held| + |hyps|)
    ensures Refutes(g, held + hyps, acts, [], prop, core) ==>
              Refutes(g, held, acts * used, hyps, prop, core)
  {
    var all := held + hyps;
    RangeMember(|held|, |held| + |hyps|);
    forall s | ActsHold(held, acts * used, s) && AllHold(hyps, s) ensures ActsHold(all, acts, s) {
      forall a | a in acts && 0 <= a < |all| ensures SatClause(all[a], s) {
        if a < |held| {
          assert a in acts * used && all[a] == held[a];
        } else {
          assert all[a] == hyps[a - |held|] && hyps[a - |held|] in hyps;
        }
      }
    }
  }

  lemma ModelWithHyps(g: Circuit, held: seq<Clause>, hyps: seq<Clause>, used: set<nat>, post: seq<LLit>, prop: seq<nat>, s: State,
                      x: seq<bool>)
    requires |s| == |g.latches| && |x| == |g.inputs| && forall i :: i in used ==> i < |held|
    requires Model(g, Query(held + hyps, used + Range(|held|, |held| + |hyps|), [], post, prop), s, x)
    ensures Model(g, Query(held, used, hyps, post, prop), s, x)
  {
    var all := held + hyps;
    RangeMember(|held|, |held| + |hyps|);
    forall a | a in used ensures SatClause(held[a], s) { assert all[a] == held[a]; }
    forall h | h in hyps ensures SatClause(h, s) {
      var j :| 0 <= j < |hyps| && hyps[j] == h;
      assert all[|held| + j] == h;
    }
  }

  /** The clauses of the engine, each at its own place in what is held; released ones are empty. */
  ghost predicate InStep(clauses: seq<Clause>, place: seq<nat>, held: seq<Clause>, acts: seq<nat>, off: set<nat>) {
    && |place| == |clauses| && |held| == |acts| && (forall a, b :: 0 <= a < b < |place| ==> place[a] < place[b])
    && (forall a :: 0 <= a < |place| ==> place[a] < |acts|)
    && forall a :: 0 <= a < |clauses| && clauses[a] != [] ==> held[place[a]] == clauses[a] && acts[place[a]] !in off
  }

  lemma PlacesFit(clauses: seq<Clause>, place: seq<nat>, held: seq<Clause>, acts: seq<nat>, off: set<nat>)
    requires InStep(clauses, place, held, acts, off)
    ensures |place| == |clauses| && forall a :: 0 <= a < |place| ==> place[a] < |acts|
  {
  }

  lemma NothingInStep()
    ensures InStep([], [], [], [], {})
  {
  }

  /** Clauses that come and go at the end make no difference. */
  lemma StaysInStep(clauses: seq<Clause>, place: seq<nat>, held: seq<Clause>, acts: seq<nat>, off: set<nat>, held': seq<Clause>,
                    acts': seq<nat>, off': set<nat>)
    requires InStep(clauses, place, held, acts, off) && held <= held' && acts <= acts' && |held'| == |acts'|
    requires forall v :: v in off' && v !in off ==> exists i :: |acts| <= i < |acts'| && acts'[i] == v
    requires forall i, j :: 0 <= i < j < |acts'| ==> acts'[i] != acts'[j]
    ensures InStep(clauses, place, held', acts', off')
  {
    forall a | 0 <= a < |clauses| && clauses[a] != [] ensures acts'[place[a]] !in off' {
      assert acts'[place[a]] == acts[place[a]];
    }
  }

  lemma OneMoreInStep(clauses: seq<Clause>, place: seq<nat>, held: seq<Clause>, acts: seq<nat>, off: set<nat>, c: Clause, v: nat)
    requires InStep(clauses, place, held, acts, off) && v !in off
    ensures InStep(clauses + [c], place + [|acts|], held + [c], acts + [v], off)
  {
  }

  lemma OneLessInStep(clauses: seq<Clause>, place: seq<nat>, held: seq<Clause>, acts: seq<nat>, off: set<nat>, l: nat)
    requires InStep(clauses, place, held, acts, off) && l < |clauses|
    requires forall i, j :: 0 <= i < j < |acts| ==> acts[i] != acts[j]
    ensures place[l] < |acts| && InStep(clauses[l := []], place, held, acts, off + {acts[place[l]]})
  {
    forall a | 0 <= a < |clauses| && a != l ensures acts[place[a]] != acts[place[l]] {
      if a < l { assert place[a] < place[l]; } else { assert place[l] < place[a]; }
    }
  }

  function Places(place: seq<nat>, cs: set<int>): set<nat> {
    set a | a in cs && 0 <= a < |place| :: place[a]
  }

  function NumbersAt(place: seq<nat>, cs: set<int>, core: set<int>): set<int> {
    set a | a in cs && 0 <= a < |place| && place[a] in core
  }

  /** What is said about places is said about the clauses there. */
  lemma Translated(clauses: seq<Clause>, place: seq<nat>, held: seq<Clause>, acts: seq<nat>, off: set<nat>, cs: set<int>)
    requires InStep(clauses, place, held, acts, off) && forall a :: a in cs ==> 0 <= a < |clauses| && clauses[a] != []
    ensures forall i :: i in Places(place, cs) ==> i < |acts| && acts[i] !in off
    ensures forall s :: ActsHold(held, Places(place, cs), s) <==> ActsHold(clauses, cs, s)
    ensures forall core, s :: core <= Places(place, cs) && ActsHold(clauses, NumbersAt(place, cs, core), s) ==> ActsHold(held, core, s)
  {
    forall s | ActsHold(held, Places(place, cs), s) ensures ActsHold(clauses, cs, s) {
      forall a | a in cs ensures SatClause(clauses[a], s) { assert place[a] in Places(place, cs); }
    }
  }

  lemma TranslatedAnswer(g: Circuit, clauses: seq<Clause>, place: seq<nat>, held: seq<Clause>, acts: seq<nat>, off: set<nat>,
                         cs: set<int>, hyps: seq<Clause>, post: seq<LLit>, prop: seq<nat>)
    requires InStep(clauses, place, held, acts, off) && forall a :: a in cs ==> 0 <= a < |clauses| && clauses[a] != []
    ensures forall s, x :: IsState(g, s) && IsInput(g, x) && Model(g, Query(held, Places(place, cs), hyps, post, prop), s, x) ==>
                             Model(g, Query(clauses, cs, hyps, post, prop), s, x)
    ensures forall core: set<int>, next: set<LLit> :: core <= Places(place, cs) && Refutes(g, held, core, hyps, prop, next) ==>
                             Refutes(g, clauses, NumbersAt(place, cs, core), hyps, prop, next)
  {
    hide ActsHold, InStep;
    Translated(clauses, place, held, acts, off, cs);
  }

  class Session {
    const g: Circuit
    const k: K.Solver
    var acts: seq<nat>
    ghost var held: seq<Clause>
    ghost var off: set<nat>

    ghost predicate Valid()
      reads this, k
    {
      && Means(k, Holding(g, held, acts, off)) && k.ok && k.freeVars == [] && |acts| == |held| && ActsOk(g, acts, |k.assigns|)
      && (forall v :: v in off ==> |g.nodes| <= v < |k.assigns|) && forall v :: 0 <= v < |k.decision| ==> k.decision[v]
    }

    /** A solver that holds the circuit. */
    constructor (g: Circuit)
      ensures Valid() && fresh(k) && this.g == g && acts == [] && held == [] && off == {}
    {
      hide Holding, GatesUpTo, M.Problem, K.Solver.Valid;
      var s := new K.Solver(|g.nodes|);
      NoClauses(s, g);
      NothingHeld(g);
      NeverEmpty(g, [], [], {}, |g.nodes|);
      AigToCnf(s, g);
      this.g, k, acts, held, off := g, s, [], [], {};
    }

    /** Adds a clause about the current state behind an activation variable of its own. */
    method AddClause(c: Clause)
      requires Valid()
      modifies this`acts, this`held, k
      ensures Valid() && held == old(held) + [c] && |acts| == |old(acts)| + 1 && acts[..|old(acts)|] == old(acts)
      ensures acts[|old(acts)|] !in off
    {
      hide Holding, Guarded, M.Problem, Means, With;
      var v := NewAct();
      ghost var spec := Holding(g, held, acts, off);
      ActsGrow(g, acts, v);
      OneMoreHeld(g, held, acts, off, c, v);
      GuardedVars(g, c, v, |k.assigns|);
      NeverEmpty(g, held + [c], acts + [v], off, |k.assigns|);
      Add(k, Guarded(g, c, L.Lit(v, false)), spec);
      StillAnswers(k, Holding(g, held + [c], acts + [v], off));
      held := held + [c];
      acts := acts + [v];
    }

    method NewAct() returns (v: nat)
      requires Valid()
      modifies k
      ensures Valid() && v == |old(k.assigns)| && |k.assigns| == v + 1
    {
      hide Holding, M.Problem, K.Solver.Valid, ActsOk;
      v := k.NewVar(true);
      ActsWider(g, acts, v);
    }

    /** Takes the clause at place `i` out of use for good. */
    method Release(i: nat)
      requires Valid() && i < |acts|
      modifies this`off, k
      ensures Valid() && off == old(off) + {acts[i]} && k.conflict == old(k.conflict)
    {
      hide Holding, M.Problem, ActsOk, K.Solver.Valid;
      var l := L.Lit(acts[i], true);
      ghost var spec, t, d := Holding(g, held, acts, off), k.T(), k.D();
      ActInRange(g, acts, |k.assigns|, i);
      forall m: L.Model
        ensures m in Holding(g, held, acts, off + {acts[i]}) <==> m in spec && L.SatClause(m, [l])
      {
        OneMoreOff(g, held, acts, off, acts[i], m);
      }
      NeverEmpty(g, held, acts, off + {acts[i]}, |k.assigns|);
      RootValues(k, l);
      k.ReleaseVar(l);
      off := off + {acts[i]};
    }

    /** Asks for a step that satisfies the clauses `used`, the property and the literals of the next state. */
    method Ask(used: set<nat>, post: seq<LLit>, prop: seq<nat>) returns (r: Answer)
      requires Valid() && forall i :: i in used ==> i < |acts| && acts[i] !in off
      modifies k
      ensures Valid()
      ensures r.Sat? ==> IsState(g, r.s) && IsInput(g, r.x) && Model(g, Query(held, used, [], post, prop), r.s, r.x)
      ensures r.Unsat? ==> r.acts <= used && forall l :: l in r.core ==> l in post
      ensures r.Unsat? ==> Refutes(g, held, r.acts, [], prop, r.core)
      ensures r.Unsat? ==> r == Unsat(CoreActs(acts, used, k.conflict), CorePost(g, post, k.conflict))
      ensures r.Unsat? ==> CoreOf(g, acts, used, post, prop, old(k.T()), old(k.D()), k.conflict)
    {
      hide Holding, M.Problem, ActsOk, K.Solver.Valid, Demands, Model, Refutes, K.ModelFor, K.CoreFor, M.SameProblem;
      var hyps := Switches(used);
      var demands := Demands(g, post, prop);
      AskVars(g, acts, |k.assigns|, used, hyps, post, prop);
      ghost var t, d, spec := k.T(), k.D(), Holding(g, held, acts, off);
      NeverEmpty(g, held, acts, off, |k.assigns|);
      assert IsHeld(t, d, spec);
      var status, values := k.Solve(hyps + demands);
      if status == LTrue {
        StillHeld(t, d, k.T(), k.D(), spec);
        Found(g, held, acts, off, used, hyps, post, prop, t, d, k.decision, values);
        return Sat(StateOf(g, values), InputOf(g, values));
      }
      NotEmptyCore(t, d, spec, k.conflict, hyps + demands);
      StillHeld(t, d, k.T(), k.D(), spec);
      NotFound(g, held, acts, off, |k.assigns|, used, hyps, post, prop, t, d, k.conflict);
      assert CoreOf(g, acts, used, post, prop, t, d, k.conflict);
      return Unsat(CoreActs(acts, used, k.conflict), CorePost(g, post, k.conflict));
    }

    /** The same with further clauses, which are released again at the end. */
    method AskWith(used: set<nat>, hyps: seq<Clause>, post: seq<LLit>, prop: seq<nat>) returns (r: Answer)
      requires Valid() && forall i :: i in used ==> i < |acts| && acts[i] !in off
      modifies this, k
      ensures Valid() && old(held) <= held && old(acts) <= acts
      ensures forall v :: v in off && v !in old(off) ==> exists i :: |old(acts)| <= i < |acts| && acts[i] == v
      ensures r.Sat? ==> IsState(g, r.s) && IsInput(g, r.x) && Model(g, Query(old(held), used, hyps, post, prop), r.s, r.x)
      ensures r.Unsat? ==> r.acts <= used && forall l :: l in r.core ==> l in post
      ensures r.Unsat? ==> Refutes(g, old(held), r.acts, hyps, prop, r.core)
      ensures r.Unsat? ==> r == Unsat(CoreActs(acts, used, k.conflict), CorePost(g, post, k.conflict))
    {
      hide Holding, Model, Refutes, Means;
      var n := |acts|;
      ghost var was, gone := held, off;
      AddAll(hyps);
      var all := used + Range(n, |acts|);
      RangeMember(n, |acts|);
      r := Ask(all, post, prop);
      if r.Sat? {
        ModelWithHyps(g, was, hyps, used, post, prop, r.s, r.x);
      } else {
        WithHyps(g, was, hyps, used, r.acts, post, prop, r.core);
        CoreWithin(acts, all, used, k.conflict);
        r := Unsat(r.acts * used, r.core);
      }
      ReleaseFrom(n);
    }

    /** The activation literals of some clauses. */
    method Switches(used: set<nat>) returns (hyps: seq<L.Lit>)
      requires forall i :: i in used ==> i < |acts|
      ensures SwitchesOf(acts, used, hyps)
    {
      hyps := [];
      var todo := used;
      while todo != {}
        invariant todo <= used && forall h :: h in hyps <==> exists i :: i in used - todo && h == L.Lit(acts[i], false)
      {
        var i := OneOf(todo);
        var h := L.Lit(acts[i], false);
        assert i in used && used - (todo - {i}) == (used - todo) + {i};
        hyps := hyps + [h];
        todo := todo - {i};
      }
      assert used - todo == used;
    }

    method AddAll(cs: seq<Clause>)
      requires Valid()
      modifies this`acts, this`held, k
      ensures Valid() && held == old(held) + cs && |acts| == |old(acts)| + |cs| && old(acts) <= acts
      ensures forall i :: |old(acts)| <= i < |acts| ==> acts[i] !in off
    {
      hide Holding, Means;
      for i := 0 to |cs|
        invariant Valid() && held == old(held) + cs[..i] && |acts| == |old(acts)| + i && old(acts) <= acts
        invariant forall j :: |old(acts)| <= j < |acts| ==> acts[j] !in off
      {
        AddClause(cs[i]);
        assert cs[..i + 1] == cs[..i] + [cs[i]];
      }
      assert cs[..|cs|] == cs;
    }

    method ReleaseFrom(n: nat)
      requires Valid() && n <= |acts|
      modifies this`off, k
      ensures Valid() && old(off) <= off && k.conflict == old(k.conflict)
      ensures forall v :: v in off && v !in old(off) ==> exists i :: n <= i < |acts| && acts[i] == v
    {
      hide Holding, Means;
      for i := n to |acts|
        invariant Valid() && old(off) <= off && k.conflict == old(k.conflict)
        invariant forall v :: v in off && v !in old(off) ==> exists i :: n <= i < |acts| && acts[i] == v
      {
        Release(i);
      }
    }
  }

  /** No latch of the current state is ever fixed on level 0, whatever has been added, asked and released. */
  lemma LatchesOpen(session: Session, l: LLit)
    requires session.Valid() && l.latch < |session.g.latches|
    ensures session.k.T().Val(InLit(session.g, l)) == LUndef
  {
    hide Holding, HoldsAll, M.Problem, ActsOk, StepModel, K.Solver.Valid;
    var g, held, acts, off, k := session.g, session.held, session.acts, session.off, session.k;
    var e := InLit(g, l);
    RootValues(k, e);
    TwoStates(g, held, acts, off, |k.assigns|, l, true);
    TwoStates(g, held, acts, off, |k.assigns|, l, false);
    if k.T().Val(e) != LUndef {
      var m :| m in Holding(g, held, acts, off) && (L.Makes(m, e) <==> k.T().Val(e) == LFalse);
      assert M.Problem(k.T(), k.D(), m);
      OneLit(m, e);
    }
  }

  lemma OneLit(m: L.Model, e: L.Lit)
    ensures L.SatClause(m, [e]) <==> L.Makes(m, e)
  {
    assert [e][0] == e && forall d :: d in [e] ==> d == e;
  }

  /** Some model gives the latch either value. */
  lemma TwoStates(g: Circuit, held: seq<Clause>, acts: seq<nat>, off: set<nat>, n: nat, l: LLit, b: bool)
    requires ActsOk(g, acts, n) && l.latch < |g.latches| && forall v :: v in off ==> v >= |g.nodes|
    ensures exists m :: m in Holding(g, held, acts, off) && (L.Makes(m, InLit(g, l)) <==> b)
  {
    hide HoldsAll;
    var s, x := seq(|g.latches|, _ => b != l.neg), seq(|g.inputs|, _ => false);
    StepHeld(g, held, acts, off, n, s, x);
    var m := StepModel(g, held, acts, off, s, x);
    InMakes(g, m, s, x, l);
    assert m in Holding(g, held, acts, off);
  }
}
